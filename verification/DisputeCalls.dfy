/** Exactly when a dispute is raised or rolled back and when a contract is finalized or reopened, what each leaves,
    what a finalization record says, and why a call is refused. */
module DisputeCalls {
  import opened Results
  import opened Types
  import opened AccountInvariant
  import opened AccountSums
  import opened LedgerInvariant
  import opened Milestones
  import opened MoneyCalls
  import opened StepsKeepInvariant
  import ApprovalCalls
  import Dispute
  import DisputeSettlement
  import EscrowOutcomes
  import Finalize

  // ---- raise ----

  predicate Raisable(s: State, id: nat, caller: Address) {
    && s.config.initialized && Running(s) && Unfinalized(s, id)
    && var c := s.accounts[id].contract;
       && (caller == c.client || caller == c.freelancer)
       && c.arbiter.Some?
       && (c.status == Funded || c.status == PartiallyFunded)
  }

  /** A dispute is raised exactly on these conditions. */
  lemma RaiseExactly(s: State, id: nat, caller: Address)
    ensures Dispute.Raise(s, id, caller).Success? <==> Raisable(s, id, caller)
  {
    hide Store, Dispute.StoreMetadata;
  }

  /** A raised dispute names who raised it and when, keeps the account as it was, and changes only the status. */
  lemma RaiseLeaves(s: State, id: nat, caller: Address)
    requires Dispute.Raise(s, id, caller).Success?
    ensures id in s.accounts
    ensures var a := s.accounts[id];
            Dispute.Raise(s, id, caller).value
            == s.(accounts := s.accounts[id := Account(a.contract.(status := Disputed), a.milestones)],
                  rollbacks := s.rollbacks[id := a],
                  disputes := s.disputes[id := LayoutV1(1, caller, 0, s.clock.timestamp)],
                  disputeVersions := s.disputeVersions[id := 1])
  {
  }

  lemma RaiseReasons(s: State, id: nat, caller: Address)
    requires Dispute.Raise(s, id, caller).Failure?
    ensures match Dispute.Raise(s, id, caller).error {
              case NotInitialized => !s.config.initialized
              case ContractPaused => s.config.paused
              case EmergencyActive => s.config.emergency
              case ContractNotFound => id !in s.accounts
              case AlreadyFinalized => id in s.finalizations
              case UnauthorizedRole =>
                && id in s.accounts
                && caller != s.accounts[id].contract.client && caller != s.accounts[id].contract.freelancer
              case ArbiterRequired => id in s.accounts && s.accounts[id].contract.arbiter.None?
              case InvalidState =>
                && id in s.accounts
                && s.accounts[id].contract.status != Funded && s.accounts[id].contract.status != PartiallyFunded
              case _ => false
            }
  {
    hide Store, Dispute.StoreMetadata;
  }

  // ---- rollback of a dispute ----

  predicate Withdrawable(s: State, id: nat) {
    && s.config.initialized && Running(s) && s.config.admin.Some? && Unfinalized(s, id)
    && s.accounts[id].contract.status == Disputed
    && id in s.rollbacks
    && var kept := s.rollbacks[id];
       && (kept.contract.status == Funded || kept.contract.status == PartiallyFunded)
       && s.accounts[id] == Account(kept.contract.(status := Disputed), kept.milestones)
  }

  /** A dispute is rolled back exactly while its account differs from the one kept in nothing but the status; the
      rollback then reinstates the kept account and drops it. */
  lemma RollBackDisputeExactly(s: State, id: nat)
    ensures var r := Dispute.RollBack(s, id);
            && (r.Success? <==> Withdrawable(s, id))
            && (r.Success? ==>
                  r.value == s.(accounts := s.accounts[id := s.rollbacks[id]], rollbacks := s.rollbacks - {id}))
  {
  }

  lemma RollBackDisputeReasons(s: State, id: nat)
    requires Dispute.RollBack(s, id).Failure?
    ensures match Dispute.RollBack(s, id).error {
              case NotInitialized => !s.config.initialized || s.config.admin.None?
              case ContractPaused => s.config.paused
              case EmergencyActive => s.config.emergency
              case ContractNotFound => id !in s.accounts
              case AlreadyFinalized => id in s.finalizations
              case RollbackNotAllowed =>
                && id in s.accounts
                && (|| s.accounts[id].contract.status != Disputed
                    || id !in s.rollbacks
                    || var kept := s.rollbacks[id].contract.status; kept != Funded && kept != PartiallyFunded)
              case RollbackStateChanged =>
                && id in s.accounts && id in s.rollbacks && s.accounts[id].contract.status == Disputed
                && s.accounts[id] != Account(s.rollbacks[id].contract.(status := Disputed), s.rollbacks[id].milestones)
              case _ => false
            }
  {
    hide Store;
  }

  // ---- metadata ----

  predicate Loadable(s: State, id: nat) {
    id in s.disputes || (id in s.accounts && s.accounts[id].contract.status == Disputed)
  }

  /** Loading finds what was recorded or, for a disputed contract without a record, its client; it fails exactly
      where there is neither. A current entry is left alone, any other is written back in the current layout. */
  lemma LoadExactly(s: State, id: nat)
    requires Ok(s)
    ensures var r := Dispute.LoadMetadata(s, id);
            && (r.Success? <==> Loadable(s, id))
            && (r.Success? ==>
                  if id in s.disputes && s.disputes[id].LayoutV1? then r.value == (s, s.disputes[id])
                  else
                    && r.value.1 == (if id in s.disputes
                                     then LayoutV1(1, s.disputes[id].raisedBy, s.disputes[id].reasonHash,
                                                   s.disputes[id].raisedAt)
                                     else LayoutV1(1, s.accounts[id].contract.client, 0, 0))
                    && r.value.0 == s.(disputes := s.disputes[id := r.value.1],
                                       disputeVersions := s.disputeVersions[id := 1]))
            && (r.Failure? ==> r.error == if id in s.accounts then DisputeNotFound else ContractNotFound)
  {
    OkFacts(s);
    hide Ok, AccountsOk, SnapshotOk;
  }

  // ---- resolution ----

  predicate Resolvable(s: State, id: nat, caller: Address, resolution: Resolution) {
    && s.config.initialized && Running(s) && Unfinalized(s, id)
    && var c := s.accounts[id].contract;
       && c.status == Disputed && c.arbiter == Some(caller)
       && DisputeSettlement.Splittable(c.fundedAmount - c.releasedAmount - c.refundedAmount, resolution)
  }

  /** A dispute is resolved exactly on these conditions. */
  lemma ResolveCallExactly(s: State, id: nat, caller: Address, resolution: Resolution)
    requires Ok(s)
    ensures Dispute.Resolve(s, id, caller, resolution).Success? <==> Resolvable(s, id, caller, resolution)
  {
    DisputeSettlement.ResolveExactly(s, id, caller, resolution);
    ApprovalCalls.Guards(s.config, caller);
    hide Ok, Dispute.Resolve, DisputeSettlement.Splittable, RequireNotPaused, RequireInitialized;
  }

  /** What is true when a resolution is refused, error by error. */
  lemma ResolveReasons(s: State, id: nat, caller: Address, resolution: Resolution)
    requires Ok(s) && Dispute.Resolve(s, id, caller, resolution).Failure?
    ensures match Dispute.Resolve(s, id, caller, resolution).error {
              case NotInitialized => !s.config.initialized
              case ContractPaused => s.config.paused
              case EmergencyActive => s.config.emergency
              case ContractNotFound => id !in s.accounts
              case AlreadyFinalized => id in s.finalizations
              case InvalidStatusTransition => id in s.accounts && s.accounts[id].contract.status != Disputed
              case UnauthorizedRole => id in s.accounts && s.accounts[id].contract.arbiter != Some(caller)
              case PotentialOverflow =>
                && id in s.accounts && resolution.PartialRefund?
                && !DisputeSettlement.Splittable(Value(Claim, s.accounts[id]), resolution)
              case InvalidDisputeSplit =>
                && id in s.accounts && resolution.Split?
                && !DisputeSettlement.Splittable(Value(Claim, s.accounts[id]), resolution)
              case _ => false
            }
  {
    hide *;
    EscrowOutcomes.ResolveRefusals(s, id, caller, resolution);
    GuardReasons(s, id);
    if id in s.accounts {
      BooksAt(s, id);
      ClaimIs(s.accounts[id]);
      DisputeSettlement.PayoutsExactly(s.accounts[id].contract, resolution);
      AlwaysSplittable(Value(Claim, s.accounts[id]), resolution);
    }
  }

  lemma AlwaysSplittable(left: int, resolution: Resolution)
    ensures resolution.FullRefund? || resolution.FullPayout? ==> DisputeSettlement.Splittable(left, resolution)
  {
  }

  lemma GuardReasons(s: State, id: nat)
    ensures RequireNotPaused(s.config).Aborts? ==>
              if s.config.paused then RequireNotPaused(s.config).error == ContractPaused
              else s.config.emergency && RequireNotPaused(s.config).error == EmergencyActive
    ensures LoadMutable(s, id).Failure? ==>
              if id in s.accounts then id in s.finalizations && LoadMutable(s, id).error == AlreadyFinalized
              else LoadMutable(s, id).error == ContractNotFound
    ensures LoadMutable(s, id).Success? ==> id in s.accounts
  {
  }

  /** What the freelancer gets of what is left, by resolution. */
  predicate FairShare(left: int, resolution: Resolution, paid: int) {
    match resolution
    case FullRefund => paid == 0
    case PartialRefund => 100 * paid <= 30 * left < 100 * paid + 100
    case FullPayout => paid == left
    case Split(split) => paid == split.freelancerAmount && left - paid == split.clientAmount
  }

  /** The storage after a resolution that gives the freelancer `paid` and the client the rest. */
  function Settlement(s: State, id: nat, paid: int): State
    requires id in s.accounts
  {
    var a := s.accounts[id];
    var c, who := a.contract, a.contract.freelancer;
    var done := c.releasedAmount + paid > 0;
    s.(accounts := s.accounts[id := Account(c.(releasedAmount := c.releasedAmount + paid,
                                               refundedAmount := c.fundedAmount - (c.releasedAmount + paid),
                                               status := if done then Completed else Types.Refunded), a.milestones)],
       credits := if done then s.credits[who := CreditsOf(s.credits, who) + 1] else s.credits,
       disputes := s.disputes - {id},
       disputeVersions := s.disputeVersions - {id})
  }

  /** A resolution gives the freelancer exactly the share it names and the client the rest, closes the contract with
      a credit if anything was ever released, and drops the metadata; no token moves and nothing else changes. */
  lemma ResolveLeaves(s: State, id: nat, arbiter: Address, resolution: Resolution) returns (paid: int)
    requires Ok(s) && Dispute.Resolve(s, id, arbiter, resolution).Success?
    ensures id in s.accounts
    ensures FairShare(Value(Claim, s.accounts[id]), resolution, paid) && 0 <= paid <= Value(Claim, s.accounts[id])
    ensures Dispute.Resolve(s, id, arbiter, resolution).value == Settlement(s, id, paid)
  {
    hide *;
    EscrowOutcomes.ResolveOutcome(s, id, arbiter, resolution);
    AccountAt(s, id);
    var a := s.accounts[id];
    BooksBounded(a);
    ClaimIs(a);
    ResolveShape(s, id, arbiter, resolution);
    DisputeSettlement.PayoutsExactly(a.contract, resolution);
    var legs := Dispute.Payouts(a.contract, resolution).value;
    paid := legs.1;
    FairShareIs(Value(Claim, a), resolution, legs.0, paid);
    Loaded(s, id);
    SettlementIs(s, id, Dispute.LoadMetadata(s, id).value.0, legs.0, paid);
  }

  lemma FairShareIs(left: int, resolution: Resolution, client: int, paid: int)
    requires client + paid == left
    requires resolution.FullRefund? ==> paid == 0
    requires resolution.FullPayout? ==> client == 0
    requires resolution.Split? ==> (client, paid) == (resolution.split.clientAmount, resolution.split.freelancerAmount)
    requires resolution.PartialRefund? ==> 100 * paid <= 30 * left < 100 * paid + 100
    ensures FairShare(left, resolution, paid)
  {
  }

  /** Loading touches no metadata but that of the contract. */
  lemma Loaded(s: State, id: nat)
    requires Ok(s) && Dispute.LoadMetadata(s, id).Success?
    ensures var t := Dispute.LoadMetadata(s, id).value.0;
            && t == s.(disputes := t.disputes, disputeVersions := t.disputeVersions)
            && t.disputes - {id} == s.disputes - {id} && t.disputeVersions - {id} == s.disputeVersions - {id}
  {
    hide *;
    LoadExactly(s, id);
    var loaded := Dispute.LoadMetadata(s, id).value;
    Overwritten(s.disputes, id, loaded.1);
    Overwritten(s.disputeVersions, id, 1);
  }

  lemma Overwritten<T>(m: map<nat, T>, id: nat, x: T)
    ensures m[id := x] - {id} == m - {id}
  {
  }

  lemma SettlementIs(s: State, id: nat, loaded: State, client: int, paid: int)
    requires id in s.accounts
    requires loaded == s.(disputes := loaded.disputes, disputeVersions := loaded.disputeVersions)
    requires loaded.disputes - {id} == s.disputes - {id}
    requires loaded.disputeVersions - {id} == s.disputeVersions - {id}
    requires var c := s.accounts[id].contract;
             0 <= c.releasedAmount && 0 <= paid && c.releasedAmount + paid + c.refundedAmount + client == c.fundedAmount
    ensures var a := s.accounts[id];
            var c := a.contract.(refundedAmount := a.contract.refundedAmount + client,
                                 releasedAmount := a.contract.releasedAmount + paid);
            var final := c.(status := Dispute.FinalStatus(c));
            Dispute.RemoveMetadata(
              Store(if final.status == Completed then EscrowOutcomes.Credited(loaded, final.freelancer) else loaded, id,
                    Account(final, a.milestones)), id)
            == Settlement(s, id, paid)
  {
    hide CreditsOf;
  }

  // ---- finalization ----

  /** Entry by entry, what a summary says of the milestones. */
  lemma {:induction false} EntriesAre(ms: seq<Milestone>)
    ensures |Finalize.MilestoneSummaries(ms)| == |ms|
    ensures forall k :: 0 <= k < |ms| ==>
              Finalize.MilestoneSummaries(ms)[k] == MilestoneSummary(k, ms[k].amount, ms[k].released, ms[k].refunded)
  {
    if ms != [] {
      var n := |ms| - 1;
      EntriesAre(ms[..n]);
      forall k | 0 <= k < n ensures ms[..n][k] == ms[k] {
      }
    }
  }

  /** Positions of the released milestones. */
  function ReleasedAt(ms: seq<Milestone>): set<int> {
    set k | 0 <= k < |ms| && ms[k].released
  }

  lemma {:induction false} CountIsCardinality(ms: seq<Milestone>)
    ensures Finalize.ReleasedCount(ms) == |ReleasedAt(ms)|
  {
    if ms == [] {
      assert ReleasedAt(ms) == {};
    } else {
      var n := |ms| - 1;
      CountIsCardinality(ms[..n]);
      assert ReleasedAt(ms) == ReleasedAt(ms[..n]) + if ms[n].released then {n} else {};
    }
  }

  /** What a summary of this account must say. */
  ghost predicate Describes(summary: Summary, a: Account) {
    var c, ms := a.contract, a.milestones;
    && summary.client == c.client && summary.freelancer == c.freelancer && summary.arbiter == c.arbiter
    && summary.status == c.status && summary.reputationIssued == c.reputationIssued
    && summary.totalAmount == Sum(Amount, ms)
    && summary.fundedAmount == c.fundedAmount && summary.releasedAmount == c.releasedAmount
    && summary.refundableBalance == Value(Claim, a)
    && summary.releasedMilestoneCount == |set k | 0 <= k < |ms| && ms[k].released|
    && |summary.milestones| == |ms|
    && (forall k :: 0 <= k < |ms| ==>
          summary.milestones[k] == MilestoneSummary(k, ms[k].amount, ms[k].released, ms[k].refunded))
  }

  /** The summary of a contract says of its parties, money and milestones exactly what is stored. */
  lemma SummaryExactly(a: Account)
    requires AccountOk(a)
    ensures Finalize.Summarize(a).Success? && Describes(Finalize.Summarize(a).value, a)
  {
    AccumulatedExact(a.milestones);
    BooksBounded(a);
    EntriesAre(a.milestones);
    CountIsCardinality(a.milestones);
    hide AccountOk, Finalize.MilestoneSummaries, Finalize.ReleasedCount, Sum;
  }

  predicate Finalizable(s: State, id: nat, finalizer: Address) {
    && Running(s) && Unfinalized(s, id)
    && var c := s.accounts[id].contract;
       && (finalizer == c.client || finalizer == c.freelancer || c.arbiter == Some(finalizer))
       && (c.status == Completed || c.status == Disputed)
  }

  /** A contract is finalized exactly on these conditions. */
  lemma FinalizeExactly(s: State, id: nat, finalizer: Address)
    requires Ok(s)
    ensures Finalize.Finalize(s, id, finalizer).Success? <==> Finalizable(s, id, finalizer)
  {
    if id in s.accounts {
      AccountAt(s, id);
      SummarizeSucceeds(s.accounts[id]);
    }
    hide Ok, AccountOk, Finalize.Summarize;
  }

  lemma FinalizeWrites(s: State, id: nat, finalizer: Address)
    requires Finalize.Finalize(s, id, finalizer).Success?
    ensures id in s.accounts && Finalize.Summarize(s.accounts[id]).Success?
    ensures var record := Finalization(finalizer, s.clock.timestamp, Finalize.Summarize(s.accounts[id]).value);
            Finalize.Finalize(s, id, finalizer).value
            == s.(finalizations := s.finalizations[id := record],
                  rollbacks := if s.accounts[id].contract.status == Disputed then s.rollbacks - {id} else s.rollbacks)
  {
    hide Finalize.Summarize;
  }

  /** The record names the finalizer and the time and describes the contract; the snapshot of an open dispute goes,
      and nothing else changes. */
  lemma FinalizeLeaves(s: State, id: nat, finalizer: Address)
    requires Ok(s) && Finalize.Finalize(s, id, finalizer).Success?
    ensures id in s.accounts && id in Finalize.Finalize(s, id, finalizer).value.finalizations
    ensures var a, t := s.accounts[id], Finalize.Finalize(s, id, finalizer).value;
            var record := t.finalizations[id];
            && record.finalizer == finalizer && record.timestamp == s.clock.timestamp
            && Describes(record.summary, a)
            && t == s.(finalizations := s.finalizations[id := record],
                       rollbacks := if a.contract.status == Disputed then s.rollbacks - {id} else s.rollbacks)
  {
    hide *;
    FinalizeWrites(s, id, finalizer);
    AccountAt(s, id);
    SummaryExactly(s.accounts[id]);
  }

  lemma FinalizeRefusals(s: State, id: nat, finalizer: Address)
    requires id in s.accounts ==> Finalize.Summarize(s.accounts[id]).Success?
    requires Finalize.Finalize(s, id, finalizer).Failure?
    ensures match Finalize.Finalize(s, id, finalizer).error {
              case ContractPaused => s.config.paused
              case EmergencyActive => s.config.emergency
              case ContractNotFound => id !in s.accounts
              case AlreadyFinalized => id in s.finalizations
              case UnauthorizedRole =>
                && id in s.accounts
                && var c := s.accounts[id].contract;
                   finalizer != c.client && finalizer != c.freelancer && c.arbiter != Some(finalizer)
              case InvalidStatusTransition =>
                && id in s.accounts
                && s.accounts[id].contract.status != Completed && s.accounts[id].contract.status != Disputed
              case _ => false
            }
  {
    hide Finalize.Summarize;
  }

  /** What is true when a finalization is refused, error by error. */
  lemma FinalizeReasons(s: State, id: nat, finalizer: Address)
    requires Ok(s) && Finalize.Finalize(s, id, finalizer).Failure?
    ensures match Finalize.Finalize(s, id, finalizer).error {
              case ContractPaused => s.config.paused
              case EmergencyActive => s.config.emergency
              case ContractNotFound => id !in s.accounts
              case AlreadyFinalized => id in s.finalizations
              case UnauthorizedRole =>
                && id in s.accounts
                && var c := s.accounts[id].contract;
                   finalizer != c.client && finalizer != c.freelancer && c.arbiter != Some(finalizer)
              case InvalidStatusTransition =>
                && id in s.accounts
                && s.accounts[id].contract.status != Completed && s.accounts[id].contract.status != Disputed
              case _ => false
            }
  {
    hide *;
    if id in s.accounts {
      AccountAt(s, id);
      SummarizeSucceeds(s.accounts[id]);
    }
    FinalizeRefusals(s, id, finalizer);
  }

  // ---- reopening ----

  predicate Reopenable(s: State, id: nat, caller: Address) {
    && s.config.initialized && s.config.admin == Some(caller)
    && id in s.accounts && id in s.finalizations
    && (s.accounts[id].contract.status == Completed || s.accounts[id].contract.status == Disputed)
  }

  /** A record is removed exactly when the admin asks for it and its contract is completed or disputed; nothing else
      changes. The pause flags are not among the conditions. */
  lemma ReopenExactly(s: State, id: nat, caller: Address)
    ensures var r := Finalize.Reopen(s, id, caller);
            && (r.Success? <==> Reopenable(s, id, caller))
            && (r.Success? ==> r.value == s.(finalizations := s.finalizations - {id}))
            && (r.Failure? ==>
                  match r.error {
                    case NotInitialized => !s.config.initialized || s.config.admin.None?
                    case UnauthorizedRole => s.config.admin.Some? && s.config.admin.value != caller
                    case ContractNotFound => id !in s.accounts
                    case RollbackNotAllowed =>
                      && id in s.accounts
                      && (|| id !in s.finalizations
                          || var status := s.accounts[id].contract.status; status != Completed && status != Disputed)
                    case _ => false
                  })
  {
  }
}
