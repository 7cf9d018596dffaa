/** Who can be party to a contract, over whole runs of creation, arbiter changes and client migrations. */
module Parties {
  import opened Results
  import opened Types
  import opened Authorization
  import opened AccountInvariant
  import opened LedgerInvariant
  import opened Protocol
  import opened StepsKeepInvariant
  import opened Effects
  import Dispute
  import MilestoneApprovals
  import Milestones
  import Participants
  import Refund

  /** In every run: client and arbiter differ from the freelancer, modes that need an arbiter have one, and every
      pending migration was proposed by the client still on record, for someone other than the freelancer. */
  lemma PartiesStayApart(clock: Clock, run: seq<Command>, id: nat)
    requires id in After(Genesis(clock), run).accounts
    ensures var s := After(Genesis(clock), run);
            var c := s.accounts[id].contract;
            && c.client != c.freelancer
            && c.arbiter != Some(c.freelancer)
            && (NeedsArbiter(c.releaseAuthorization) ==> c.arbiter.Some?)
            && var pending := Participants.Pending(s, id);
               pending.Some? ==> pending.value.currentClient == c.client && pending.value.proposedClient != c.freelancer
  {
    GenesisOk(clock);
    RunKeeps(Genesis(clock), run);
    var s := After(Genesis(clock), run);
    AccountAt(s, id);
    OkParts(s);
    hide Ok, After, AccountsOk, CreditsOk, RatingsOk, RecordsOk, SnapshotsOk, DisputesOk, PotsOk;
  }

  /** Accepting a proposal succeeds exactly while it is live and nothing is paused, for the proposed address,
      on an open contract; the proposal of a client who has since changed cannot be accepted: none survives. */
  lemma AcceptExactly(s: State, id: nat, caller: Address)
    requires Ok(s)
    ensures Participants.Accept(s, id, caller).Success? <==>
              && RequireNotPaused(s.config).Holds?
              && id in s.accounts && id !in s.finalizations
              && Participants.MigrationAllowed(s.accounts[id].contract.status)
              && Participants.Pending(s, id).Some?
              && Participants.Pending(s, id).value.proposedClient == caller
    ensures Participants.Accept(s, id, caller).Success? ==>
              var t := Participants.Accept(s, id, caller).value;
              && Participants.Pending(s, id).value.currentClient == s.accounts[id].contract.client
              && id in t.accounts && t.accounts[id].contract == s.accounts[id].contract.(client := caller)
              && Participants.Pending(t, id).None?
  {
    OkParts(s);
    hide Ok, AccountsOk, CreditsOk, RatingsOk, RecordsOk, SnapshotsOk, DisputesOk, PotsOk;
  }

  /** Approval resolves a caller to one role, release compares addresses. The two agree on who may act, except for
      an arbiter who is also the client of an `ArbiterOnly` contract; `ArbiterBecomesClient` says how that comes about. */
  lemma AuthorizationGap(c: Contract, caller: Address)
    requires ParticipantsOk(c)
    ensures (MayRelease(caller, c) <==> RequireReleaseAuthorization(caller, c).Holds?) <==>
              !(c.releaseAuthorization == ArbiterOnly && c.arbiter == Some(caller) && caller == c.client)
  {
  }

  predicate ArbiterIsClient(s: State, id: nat) {
    id in s.accounts && s.accounts[id].contract.arbiter == Some(s.accounts[id].contract.client)
  }

  /** Only the acceptance of a migration by the arbiter makes the arbiter the client. */
  lemma ArbiterStep(s: State, cmd: Command, id: nat)
    requires Ok(s) && Step(s, cmd).Success? && ArbiterIsClient(Step(s, cmd).value, id)
    ensures var client := Step(s, cmd).value.accounts[id].contract.client;
            || cmd == AcceptMigration(id, client)
            || (ArbiterIsClient(s, id) && s.accounts[id].contract.client == client)
  {
    hide Ok, Step, Enabled, Rewritten, Moved, Framed, Target, FreshAccount;
    StepMoves(s, cmd);
    MovedAccounts(s, cmd, Step(s, cmd).value);
    if cmd.Create? {
      FreshParties(cmd);
    } else if Target(s, cmd) == Some(id) {
      RewriteParties(s, cmd, id);
    }
  }

  lemma FreshParties(cmd: Command)
    requires cmd.Create?
    ensures var c := FreshAccount(cmd.client, cmd.freelancer, cmd.arbiter, cmd.amounts, cmd.mode).contract;
            c.client == cmd.client && c.arbiter == cmd.arbiter
  {
  }

  lemma RewriteParties(s: State, cmd: Command, id: nat)
    requires Target(s, cmd) == Some(id) && !cmd.Create? && id in s.accounts && Enabled(s, cmd, s.accounts[id])
    ensures var c, d := s.accounts[id].contract, Rewritten(s, cmd, s.accounts[id]).contract;
            d.arbiter == Some(d.client) ==>
              cmd == AcceptMigration(id, d.client) || (c.arbiter == Some(c.client) && c.client == d.client)
  {
    hide StepsKeepInvariant.ReleaseFee, Refund.RefundTotal, Dispute.Payouts, Milestones.AllSettled;
  }

  /** In every run: if a contract's arbiter is its client, that address has accepted a migration of the contract. */
  lemma {:induction false} ArbiterBecomesClient(clock: Clock, run: seq<Command>, id: nat)
    requires ArbiterIsClient(After(Genesis(clock), run), id)
    ensures AcceptMigration(id, After(Genesis(clock), run).accounts[id].contract.client) in run
  {
    if run == [] {
      assert false;
    } else {
      var n := |run| - 1;
      var s := After(Genesis(clock), run[..n]);
      GenesisOk(clock);
      RunKeeps(Genesis(clock), run[..n]);
      assert run == run[..n] + [run[n]];
      hide Ok, Step;
      if Step(s, run[n]).Success? {
        ArbiterStep(s, run[n], id);
      }
      if ArbiterIsClient(s, id) {
        ArbiterBecomesClient(clock, run[..n], id);
      }
    }
  }

  /** In that case nobody can approve, so nothing can be released until the arbiter is replaced. */
  lemma ClientArbiterLocked(s: State, id: nat, caller: Address, index: nat)
    requires Ok(s) && id in s.accounts
    requires s.accounts[id].contract.releaseAuthorization == ArbiterOnly
    requires s.accounts[id].contract.arbiter == Some(s.accounts[id].contract.client)
    ensures MilestoneApprovals.Approve(s, id, caller, index).Failure?
  {
    AccountAt(s, id);
    hide Ok, AccountOk, MilestoneApprovals.Record, MilestoneApprovals.LiveApprovals;
  }
}
