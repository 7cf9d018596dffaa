/** Exactly when the escrow is initialized, a client migrates, an arbiter changes or a rating is issued, what each
    call leaves, and why it is refused. */
module PartyCalls {
  import opened Results
  import opened Types
  import opened Authorization
  import opened LedgerInvariant
  import opened MoneyCalls
  import opened StepsKeepInvariant
  import ApprovalCalls
  import Creation
  import Participants
  import Ratings
  import ReputationLedger
  import TempStorage

  // ---- initialization ----

  /** Initialization happens once; it names the admin and restarts the ids, and nothing else changes. */
  lemma InitializeExactly(s: State, admin: Address)
    ensures var r := Creation.Initialize(s, admin);
            && (r.Success? <==> !s.config.initialized)
            && (r.Success? ==>
                  && r.value == s.(config := r.value.config, nextId := 1)
                  && r.value.config == s.config.(initialized := true, admin := Some(admin)))
            && (r.Failure? ==> r.error == AlreadyInitialized)
  {
  }

  // ---- client migration ----

  /** A migration proposal that has not expired. */
  predicate ProposalLive(s: State, id: nat) {
    id in s.migrations && s.clock.ledger <= s.migrations[id].liveUntil
  }

  predicate Proposable(s: State, id: nat, caller: Address, proposed: Address) {
    && Running(s) && Unfinalized(s, id)
    && var c := s.accounts[id].contract;
       && caller == c.client
       && proposed != c.client && proposed != c.freelancer
       && (c.status == Created || c.status == Accepted || c.status == Funded || c.status == PartiallyFunded)
       && !ProposalLive(s, id)
  }

  /** A migration is proposed exactly on these conditions. */
  lemma ProposeExactly(s: State, id: nat, caller: Address, proposed: Address)
    ensures Participants.Propose(s, id, caller, proposed).Success? <==> Proposable(s, id, caller, proposed)
  {
    hide TempStorage.Write, Participants.SaturatingAdd;
  }

  /** A proposal names both clients, is live for three weeks of ledgers (or the host's minimum, if that is longer), and
      touches nothing else. */
  lemma ProposeLeaves(s: State, id: nat, caller: Address, proposed: Address)
    requires Participants.Propose(s, id, caller, proposed).Success?
    ensures var t, now := Participants.Propose(s, id, caller, proposed).value, s.clock.ledger;
            && id in t.migrations
            && t == s.(migrations := s.migrations[id := t.migrations[id]])
            && t.migrations[id].liveUntil == now + (if s.clock.minTempTtl > MIGRATION_TTL then s.clock.minTempTtl - 1
                                                    else MIGRATION_TTL)
            && ProposalLive(t, id)
            && var p := t.migrations[id].value;
               && p.currentClient == caller && p.proposedClient == proposed && p.requestedAtLedger == now
               && p.expiresAtLedger == if now + MIGRATION_TTL <= U32_MAX then now + MIGRATION_TTL else U32_MAX
  {
  }

  lemma ProposeReasons(s: State, id: nat, caller: Address, proposed: Address)
    requires Participants.Propose(s, id, caller, proposed).Failure?
    ensures match Participants.Propose(s, id, caller, proposed).error {
              case ContractPaused => s.config.paused
              case EmergencyActive => s.config.emergency
              case ContractNotFound => id !in s.accounts
              case AlreadyFinalized => id in s.finalizations
              case UnauthorizedRole => id in s.accounts && caller != s.accounts[id].contract.client
              case InvalidParticipant =>
                && id in s.accounts
                && (proposed == s.accounts[id].contract.client || proposed == s.accounts[id].contract.freelancer)
              case InvalidStatusTransition =>
                && id in s.accounts
                && var status := s.accounts[id].contract.status;
                   status == Completed || status == Cancelled || status == Types.Refunded || status == Disputed
              case InvalidState => ProposalLive(s, id)
              case _ => false
            }
  {
    hide TempStorage.Write, Participants.SaturatingAdd;
  }

  predicate Retractable(s: State, id: nat, caller: Address) {
    Unfinalized(s, id) && caller == s.accounts[id].contract.client && ProposalLive(s, id)
  }

  /** Only the client withdraws a proposal, and only a live one; the pause flags and the status do not matter. */
  lemma CancelMigrationExactly(s: State, id: nat, caller: Address)
    ensures var r := Participants.CancelMigration(s, id, caller);
            && (r.Success? <==> Retractable(s, id, caller))
            && (r.Success? ==> r.value == s.(migrations := s.migrations - {id}))
            && (r.Failure? ==>
                  match r.error {
                    case ContractNotFound => id !in s.accounts
                    case AlreadyFinalized => id in s.finalizations
                    case UnauthorizedRole => id in s.accounts && caller != s.accounts[id].contract.client
                    case InvalidState => !ProposalLive(s, id)
                    case _ => false
                  })
  {
  }

  predicate Acceptable(s: State, id: nat, caller: Address) {
    && Running(s) && Unfinalized(s, id)
    && (var status := s.accounts[id].contract.status;
        status == Created || status == Accepted || status == Funded || status == PartiallyFunded)
    && ProposalLive(s, id)
    && s.migrations[id].value.proposedClient == caller
  }

  /** A proposal is accepted exactly by the address it names while it is live; the contract then has that client, and
      the proposal is gone. */
  lemma AcceptLeaves(s: State, id: nat, caller: Address)
    ensures var r := Participants.Accept(s, id, caller);
            && (r.Success? <==> Acceptable(s, id, caller))
            && (r.Success? ==>
                  var a := s.accounts[id];
                  r.value == s.(accounts := s.accounts[id := Account(a.contract.(client := caller), a.milestones)],
                                migrations := s.migrations - {id}))
  {
  }

  lemma AcceptReasons(s: State, id: nat, caller: Address)
    requires Participants.Accept(s, id, caller).Failure?
    ensures match Participants.Accept(s, id, caller).error {
              case ContractPaused => s.config.paused
              case EmergencyActive => s.config.emergency
              case ContractNotFound => id !in s.accounts
              case AlreadyFinalized => id in s.finalizations
              case InvalidStatusTransition =>
                && id in s.accounts
                && var status := s.accounts[id].contract.status;
                   status == Completed || status == Cancelled || status == Types.Refunded || status == Disputed
              case InvalidState => !ProposalLive(s, id)
              case UnauthorizedRole => ProposalLive(s, id) && s.migrations[id].value.proposedClient != caller
              case _ => false
            }
  {
  }

  // ---- arbiter ----

  predicate ArbiterSettable(s: State, id: nat, caller: Address, arbiter: Option<Address>) {
    && s.config.initialized && Running(s)
    && id != 0 && s.config.admin == Some(caller)
    && Unfinalized(s, id)
    && var c := s.accounts[id].contract;
       && arbiter != Some(c.client) && arbiter != Some(c.freelancer)
       && (c.releaseAuthorization == ArbiterOnly || c.releaseAuthorization == ClientAndArbiter ==> arbiter.Some?)
  }

  /** The admin, and nobody else, sets an arbiter who is no other party; a mode that needs one keeps one. */
  lemma SetArbiterExactly(s: State, id: nat, caller: Address, arbiter: Option<Address>)
    ensures var r := Participants.SetArbiter(s, id, caller, arbiter);
            && (r.Success? <==> ArbiterSettable(s, id, caller, arbiter))
            && (r.Success? ==>
                  var a := s.accounts[id];
                  r.value == s.(accounts := s.accounts[id := Account(a.contract.(arbiter := arbiter), a.milestones)]))
  {
  }

  lemma SetArbiterReasons(s: State, id: nat, caller: Address, arbiter: Option<Address>)
    requires Participants.SetArbiter(s, id, caller, arbiter).Failure?
    ensures match Participants.SetArbiter(s, id, caller, arbiter).error {
              case NotInitialized => !s.config.initialized || s.config.admin.None?
              case ContractPaused => s.config.paused
              case EmergencyActive => s.config.emergency
              case InvalidContractId => id == 0
              case UnauthorizedRole => s.config.admin.Some? && s.config.admin.value != caller
              case ContractNotFound => id != 0 && id !in s.accounts
              case AlreadyFinalized => id in s.finalizations
              case InvalidArbiter =>
                && id in s.accounts
                && var c := s.accounts[id].contract; arbiter == Some(c.client) || arbiter == Some(c.freelancer)
              case MissingArbiter =>
                id in s.accounts && NeedsArbiter(s.accounts[id].contract.releaseAuthorization) && arbiter.None?
              case _ => false
            }
  {
    hide Store;
  }

  // ---- ratings ----

  predicate Ratable(s: State, id: nat, caller: Address, rating: nat, comment: string) {
    && Running(s) && id in s.accounts
    && var c := s.accounts[id].contract;
       && caller == c.client
       && 1 <= rating <= 5
       && 0 < |comment| <= 200
       && c.status == Completed && !c.reputationIssued
  }

  /** A rating goes through exactly on these conditions. */
  lemma IssueCallExactly(s: State, id: nat, caller: Address, rating: nat, comment: string)
    requires Ok(s)
    ensures Ratings.Issue(s, id, caller, rating, comment).Success? <==> Ratable(s, id, caller, rating, comment)
  {
    ReputationLedger.IssueExactly(s, id, caller, rating, comment);
    ApprovalCalls.Guards(s.config, caller);
    hide Ok, Ratings.Issue, RequireNotPaused;
  }

  /** A rating marks the contract as rated, spends one credit of its freelancer and adds one contract and the points
      to the freelancer's reputation; no other freelancer's ledger moves. */
  lemma IssueLeaves(s: State, id: nat, caller: Address, rating: nat, comment: string)
    requires Ratings.Issue(s, id, caller, rating, comment).Success?
    ensures id in s.accounts
    ensures var a, r := s.accounts[id], ReputationOf(s.reputations, s.accounts[id].contract.freelancer);
            var who, rated := a.contract.freelancer, Reputation(r.completedContracts + 1, r.totalRating + rating, rating);
            Ratings.Issue(s, id, caller, rating, comment).value
            == s.(accounts := s.accounts[id := Account(a.contract.(reputationIssued := true), a.milestones)],
                  credits := s.credits[who := CreditsOf(s.credits, who) - 1],
                  reputations := s.reputations[who := rated])
  {
    hide CreditsOf, ReputationOf;
  }

  /** What an error of a rating says. */
  predicate IssueTrue(s: State, id: nat, caller: Address, rating: nat, comment: string, error: Error) {
    match error
    case ContractPaused => s.config.paused
    case EmergencyActive => s.config.emergency
    case InvalidContractId => id == 0
    case ContractNotFound => id != 0 && id !in s.accounts
    case UnauthorizedRole => id in s.accounts && caller != s.accounts[id].contract.client
    case InvalidRating => rating < 1 || rating > 5
    case EmptyComment => comment == ""
    case CommentTooLong => |comment| > 200
    case NotCompleted => id in s.accounts && s.accounts[id].contract.status != Completed
    case ReputationAlreadyIssued => id in s.accounts && s.accounts[id].contract.reputationIssued
    case _ => false
  }

  lemma IssueRefusals(s: State, id: nat, caller: Address, rating: nat, comment: string)
    requires Ratings.Issue(s, id, caller, rating, comment).Failure?
    ensures var e := Ratings.Issue(s, id, caller, rating, comment).error;
            IssueTrue(s, id, caller, rating, comment, e) || e == SelfRating || e == InvalidState || e == ArithmeticTrap
  {
    if id in s.accounts {
      var prior := ReputationOf(s.reputations, s.accounts[id].contract.freelancer);
      CheckedFails(prior.completedContracts + 1, ArithmeticTrap);
      CheckedFails(prior.totalRating + rating, ArithmeticTrap);
    }
    hide Store, CreditsOf, ReputationOf, Checked;
  }

  lemma CheckedFails(x: int, error: Error)
    ensures Checked(x, error).Failure? ==> Checked(x, error).error == error
  {
  }

  /** Whatever error a rating reports is true. */
  lemma IssueReasons(s: State, id: nat, caller: Address, rating: nat, comment: string)
    requires Ok(s) && Ratings.Issue(s, id, caller, rating, comment).Failure?
    ensures IssueTrue(s, id, caller, rating, comment, Ratings.Issue(s, id, caller, rating, comment).error)
  {
    hide *;
    ReputationLedger.IssueExactly(s, id, caller, rating, comment);
    IssueRefusals(s, id, caller, rating, comment);
  }
}
