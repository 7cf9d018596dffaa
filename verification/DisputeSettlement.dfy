/** Disputes over whole runs: what a resolution pays, what a rollback restores, and when either goes through. */
module DisputeSettlement {
  import opened Results
  import opened Types
  import opened AccountInvariant
  import opened AccountSums
  import opened AccountSteps
  import opened LedgerInvariant
  import opened Protocol
  import opened StepsKeepInvariant
  import opened Effects
  import Amounts
  import Dispute
  import Finalize
  import Refund

  // ---- resolutions ----

  /** When a resolution of `available` is accepted. */
  predicate Splittable(available: int, resolution: Resolution) {
    match resolution
    case FullRefund => true
    case FullPayout => true
    case PartialRefund => available * PARTIAL_REFUND_FREELANCER_SHARE <= I128_MAX
    case Split(split) =>
      && 0 <= split.clientAmount <= MAX_SINGLE_AMOUNT
      && 0 <= split.freelancerAmount <= MAX_SINGLE_AMOUNT
      && split.clientAmount + split.freelancerAmount == available
  }

  /** The payouts of a resolution: accepted exactly when splittable, never negative, adding up to the available
      balance, and with the freelancer's share of a partial refund rounded down to the stroop. */
  lemma PayoutsExactly(c: Contract, resolution: Resolution)
    requires 0 <= c.releasedAmount && 0 <= c.refundedAmount
    requires c.releasedAmount + c.refundedAmount <= c.fundedAmount <= I128_MAX
    ensures var available := c.fundedAmount - c.releasedAmount - c.refundedAmount;
            var r := Dispute.Payouts(c, resolution);
            && (r.Success? <==> Splittable(available, resolution))
            && (r.Success? ==>
                  && r.value.0 >= 0 && r.value.1 >= 0 && r.value.0 + r.value.1 == available
                  && (resolution.FullRefund? ==> r.value.1 == 0)
                  && (resolution.FullPayout? ==> r.value.0 == 0)
                  && (resolution.Split? ==> r.value == (resolution.split.clientAmount, resolution.split.freelancerAmount))
                  && (resolution.PartialRefund? ==>
                        100 * r.value.1 <= 30 * available < 100 * r.value.1 + 100))
            && (r.Failure? ==> r.error == if resolution.PartialRefund? then PotentialOverflow else InvalidDisputeSplit)
  {
  }

  /** In a reachable state a resolution by the contract's arbiter succeeds exactly when its split is acceptable;
      the check that everything was distributed never fires. */
  lemma ResolveExactly(s: State, id: nat, arbiter: Address, resolution: Resolution)
    requires Ok(s)
    ensures Dispute.Resolve(s, id, arbiter, resolution).Success? <==>
              && RequireInitialized(s.config).Holds? && RequireNotPaused(s.config).Holds?
              && id in s.accounts && id !in s.finalizations
              && s.accounts[id].contract.status == Disputed
              && s.accounts[id].contract.arbiter == Some(arbiter)
              && Splittable(Value(Claim, s.accounts[id]), resolution)
    ensures Dispute.Resolve(s, id, arbiter, resolution) != Failure(AccountingInvariantViolated)
  {
    hide *;
    if id in s.accounts {
      AccountAt(s, id);
      BooksBounded(s.accounts[id]);
      ClaimIs(s.accounts[id]);
      PayoutsExactly(s.accounts[id].contract, resolution);
      LoadMetadataKeeps(s, id);
      if s.accounts[id].contract.status == Disputed {
        OkParts(s);
        GrantLoaded(s, Dispute.LoadMetadata(s, id).value.0, s.accounts[id].contract.freelancer);
      }
    }
    ResolveStages(s, id, arbiter, resolution);
  }

  lemma GrantLoaded(s: State, t: State, who: Address)
    requires AccountsOk(s.accounts) && CreditsOk(s.credits, s.accounts)
    requires t == s.(disputes := t.disputes, disputeVersions := t.disputeVersions)
    ensures GrantCredit(t, who).Success?
  {
    hide AccountsOk, CreditsOk;
    GrantSucceeds(t, who);
  }

  /** The stages of a resolution; the legs of a consistent contract make every later check pass. */
  lemma ResolveStages(s: State, id: nat, arbiter: Address, resolution: Resolution)
    requires id in s.accounts ==>
               var c := s.accounts[id].contract;
               && 0 <= c.releasedAmount && 0 <= c.refundedAmount
               && c.releasedAmount + c.refundedAmount <= c.fundedAmount <= I128_MAX
               && (c.status == Disputed ==> Dispute.LoadMetadata(s, id).Success?
                                            && GrantCredit(Dispute.LoadMetadata(s, id).value.0, c.freelancer).Success?)
               && var legs := Dispute.Payouts(c, resolution);
                  if legs.Success?
                  then legs.value.0 >= 0 && legs.value.1 >= 0
                       && legs.value.0 + legs.value.1 == c.fundedAmount - c.releasedAmount - c.refundedAmount
                  else true
    ensures Dispute.Resolve(s, id, arbiter, resolution).Success? <==>
              && RequireInitialized(s.config).Holds? && RequireNotPaused(s.config).Holds?
              && id in s.accounts && id !in s.finalizations
              && s.accounts[id].contract.status == Disputed
              && s.accounts[id].contract.arbiter == Some(arbiter)
              && Dispute.Payouts(s.accounts[id].contract, resolution).Success?
    ensures Dispute.Resolve(s, id, arbiter, resolution) == Failure(AccountingInvariantViolated) ==>
              id in s.accounts && Dispute.Payouts(s.accounts[id].contract, resolution) == Failure(AccountingInvariantViolated)
  {
    hide Dispute.Payouts, Dispute.LoadMetadata, GrantCredit, Dispute.RemoveMetadata, Dispute.FinalStatus, Store;
  }

  /** Resolution status, whatever the resolution: Refunded exactly when nothing was released before and the
      freelancer's share is nothing. In particular a full refund after a release completes the contract, and a
      partial refund of at most three stroops, or a full payout of none, refunds it. */
  lemma ResolutionStatus(s: State, id: nat, arbiter: Address, resolution: Resolution)
    requires Ok(s) && Dispute.Resolve(s, id, arbiter, resolution).Success?
    ensures id in s.accounts && id in Dispute.Resolve(s, id, arbiter, resolution).value.accounts
    ensures var a := s.accounts[id];
            var status := Dispute.Resolve(s, id, arbiter, resolution).value.accounts[id].contract.status;
            var share := match resolution {
              case FullRefund => 0
              case PartialRefund => if Value(Claim, a) <= 3 then 0 else 1
              case FullPayout => Value(Claim, a)
              case Split(split) => split.freelancerAmount
            };
            status == if a.contract.releasedAmount == 0 && share == 0 then Types.Refunded else Completed
  {
    hide *;
    ResolveEffect(s, id, arbiter, resolution);
    var a := s.accounts[id];
    AccountAt(s, id);
    BooksBounded(a);
    ClaimIs(a);
    PayoutsExactly(a.contract, resolution);
    var legs := Dispute.Payouts(a.contract, resolution).value;
    ResolvedStatus(a, legs.0, legs.1);
    StoredResolution(s, id, Resolved(a, legs.0, legs.1), Dispute.Resolve(s, id, arbiter, resolution).value);
  }

  lemma ResolvedStatus(a: Account, client: int, freelancer: int)
    requires client + freelancer == Value(Claim, a) && 0 <= freelancer && 0 <= a.contract.releasedAmount
    ensures Resolved(a, client, freelancer).contract.status
         == if a.contract.releasedAmount == 0 && freelancer == 0 then Types.Refunded else Completed
  {
  }

  lemma StoredResolution(s: State, id: nat, b: Account, t: State)
    requires t == Store(s, id, b).(credits := t.credits, disputes := t.disputes, disputeVersions := t.disputeVersions)
    ensures id in t.accounts && t.accounts[id] == b
  {
  }

  // ---- rollbacks ----

  /** A kept snapshot belongs to a contract that is in dispute or closed, and whose refunds only grew since. */
  predicate SnapshotBehind(s: State, id: nat) {
    id in s.rollbacks ==>
      && id in s.accounts
      && (Terminal(s.accounts[id].contract.status)
          || (s.accounts[id].contract.status == Disputed
              && s.rollbacks[id].contract.refundedAmount <= s.accounts[id].contract.refundedAmount))
  }

  /** A snapshot that can no longer be reinstated: the contract is closed, or was refunded further. */
  predicate Diverged(s: State, id: nat) {
    && id in s.accounts
    && (Terminal(s.accounts[id].contract.status)
        || (s.accounts[id].contract.status == Disputed
            && (id in s.rollbacks ==> s.rollbacks[id].contract.refundedAmount < s.accounts[id].contract.refundedAmount)))
  }

  predicate Raises(cmd: Command, id: nat) {
    cmd.RaiseDispute? && cmd.id == id
  }

  lemma FinalizeSnapshots(s: State, id: nat, finalizer: Address, other: nat)
    requires Finalize.Finalize(s, id, finalizer).Success?
    ensures var t := Finalize.Finalize(s, id, finalizer).value;
            other in t.rollbacks ==> other in s.rollbacks && t.rollbacks[other] == s.rollbacks[other]
  {
    hide Finalize.Finalize, Finalize.Summarize;
    FinalizeShape(s, id, finalizer);
  }

  lemma {:induction false} ItemsSnapshots(s: State, items: seq<SettlementItem>, other: nat)
    requires Finalize.Items(s, items).Success?
    ensures var t := Finalize.Items(s, items).value.0;
            other in t.rollbacks ==> other in s.rollbacks && t.rollbacks[other] == s.rollbacks[other]
  {
    hide Finalize.Finalize, Finalize.PreCheck;
    if items != [] {
      var n := |items| - 1;
      ItemsSnapshots(s, items[..n], other);
      var before := Finalize.Items(s, items[..n]).value.0;
      if Finalize.PreCheck(before, items[n]).Holds? {
        FinalizeSnapshots(before, items[n].contractId, items[n].finalizer, other);
      }
    }
  }

  lemma SnapshotSide(s: State, cmd: Command, id: nat)
    requires Step(s, cmd).Success? && TouchesSnapshots(cmd)
    ensures SnapshotFrom(s, cmd, Step(s, cmd).value, id)
  {
    hide Finalize.Finalize, Finalize.Items, Dispute.Raise, Dispute.RollBack;
    match cmd
    case Finalize(other, caller) => FinalizeSnapshots(s, other, caller, id);
    case FinalizeBatch(items) => ItemsSnapshots(s, items, id);
    case RaiseDispute(other, caller) => RaiseShape(s, other, caller);
    case RollBackDispute(other) => RollBackDisputeShape(s, other);
  }

  /** Where a snapshot comes from: the contract as the dispute was raised, or the state before the call. */
  predicate SnapshotFrom(s: State, cmd: Command, t: State, id: nat) {
    id in t.rollbacks ==>
      if Raises(cmd, id) then id in s.accounts && t.rollbacks[id] == s.accounts[id]
      else id in s.rollbacks && t.rollbacks[id] == s.rollbacks[id]
  }

  /** Only raising a dispute writes a snapshot, and it writes the contract as it was; other calls keep or drop it. */
  lemma SnapshotStep(s: State, cmd: Command, id: nat)
    requires Ok(s) && Step(s, cmd).Success?
    ensures SnapshotFrom(s, cmd, Step(s, cmd).value, id)
  {
    hide Ok, Step, Moved;
    if TouchesSnapshots(cmd) {
      SnapshotSide(s, cmd, id);
    } else {
      StepMoves(s, cmd);
    }
  }

  /** After a rollback the snapshot is gone. */
  lemma RollBackDrops(s: State, id: nat)
    requires Step(s, RollBackDispute(id)).Success?
    ensures id !in Step(s, RollBackDispute(id)).value.rollbacks
  {
    hide Dispute.RollBack;
    RollBackDisputeShape(s, id);
  }

  /** From dispute, calls that are not rollbacks keep the contract in dispute or close it, and never undo refunds. */
  lemma RewriteInDispute(s: State, cmd: Command, a: Account)
    requires Enabled(s, cmd, a) && (a.contract.status == Disputed || Terminal(a.contract.status))
    requires !cmd.RollBackDispute? && AccountOk(a)
    ensures var b := Rewritten(s, cmd, a);
            && (Terminal(b.contract.status)
                || (a.contract.status == b.contract.status == Disputed
                    && a.contract.refundedAmount <= b.contract.refundedAmount))
            && (cmd.Refund? ==> a.contract.refundedAmount < b.contract.refundedAmount)
    ensures !cmd.RaiseDispute?
  {
    hide AccountOk, StepsKeepInvariant.ReleaseFee, Refund.RefundTotal, Dispute.Payouts;
  }

  lemma SnapshotBehindStep(s: State, cmd: Command, id: nat)
    requires Ok(s) && Step(s, cmd).Success? && SnapshotBehind(s, id)
    ensures SnapshotBehind(Step(s, cmd).value, id)
  {
    hide Ok, Step, Enabled, Rewritten, Moved, Framed, AccountOk;
    StepMoves(s, cmd);
    MovedAccounts(s, cmd, Step(s, cmd).value);
    SnapshotStep(s, cmd, id);
    if cmd == RollBackDispute(id) {
      RollBackDrops(s, id);
    } else if Raises(cmd, id) {
      RaisedAccount(s, cmd, id);
    } else if id in s.rollbacks {
      AccountAt(s, id);
      if Target(s, cmd) == Some(id) && !cmd.Create? {
        RewriteInDispute(s, cmd, s.accounts[id]);
      }
    }
  }

  lemma RaisedAccount(s: State, cmd: Command, id: nat)
    requires Raises(cmd, id) && id in s.accounts && Enabled(s, cmd, s.accounts[id])
    ensures Target(s, cmd) == Some(id)
    ensures Rewritten(s, cmd, s.accounts[id]) == AfterRaise(s.accounts[id])
  {
  }

  lemma {:induction false} SnapshotsBehind(clock: Clock, run: seq<Command>, id: nat)
    ensures SnapshotBehind(After(Genesis(clock), run), id)
  {
    hide Ok, Step, SnapshotBehind;
    if run == [] {
      assert SnapshotBehind(Genesis(clock), id) by { hide *; NoSnapshots(clock, id); }
    } else {
      var before, last := run[..|run| - 1], run[|run| - 1];
      SnapshotsBehind(clock, before, id);
      GenesisOk(clock);
      RunKeeps(Genesis(clock), before);
      if Step(After(Genesis(clock), before), last).Success? {
        SnapshotBehindStep(After(Genesis(clock), before), last, id);
      }
    }
  }

  lemma NoSnapshots(clock: Clock, id: nat)
    ensures SnapshotBehind(Genesis(clock), id)
  {
  }

  // ---- theorems on rollbacks ----

  /** If a dispute is rolled back, the contract and its milestones are exactly what they were just before the
      dispute was raised, whatever calls were made in between. */
  lemma RollBackRestores(s: State, caller: Address, between: seq<Command>, id: nat)
    requires Ok(s) && Step(s, RaiseDispute(id, caller)).Success?
    requires forall k :: 0 <= k < |between| ==> !Raises(between[k], id)
    requires Step(After(Step(s, RaiseDispute(id, caller)).value, between), RollBackDispute(id)).Success?
    ensures var t := Step(After(Step(s, RaiseDispute(id, caller)).value, between), RollBackDispute(id)).value;
            id in s.accounts && id in t.accounts && t.accounts[id] == s.accounts[id]
  {
    var raised := Step(s, RaiseDispute(id, caller)).value;
    hide *;
    StepKeepsOk(s, RaiseDispute(id, caller));
    RaisesItself(id, caller);
    SnapshotStep(s, RaiseDispute(id, caller), id);
    SnapshotRaised(s, RaiseDispute(id, caller), raised, id);
    SnapshotKept(raised, between, id);
    RollBackReinstates(After(raised, between), id);
  }

  lemma SnapshotRaised(s: State, cmd: Command, t: State, id: nat)
    requires SnapshotFrom(s, cmd, t, id) && Raises(cmd, id)
    ensures id in t.rollbacks ==> id in s.accounts && t.rollbacks[id] == s.accounts[id]
  {
  }

  lemma RaisesItself(id: nat, caller: Address)
    ensures Raises(RaiseDispute(id, caller), id)
  {
  }

  lemma StepKeepsOk(s: State, cmd: Command)
    requires Ok(s) && Step(s, cmd).Success?
    ensures Ok(Step(s, cmd).value)
  {
    StepKeeps(s, cmd);
    hide Ok, Step;
  }

  lemma RollBackReinstates(s: State, id: nat)
    requires Step(s, RollBackDispute(id)).Success?
    ensures id in s.rollbacks && id in Step(s, RollBackDispute(id)).value.accounts
    ensures Step(s, RollBackDispute(id)).value.accounts[id] == s.rollbacks[id]
  {
    hide Dispute.RollBack;
    RollBackDisputeShape(s, id);
  }

  lemma {:induction false} SnapshotKept(s: State, run: seq<Command>, id: nat)
    requires Ok(s) && forall k :: 0 <= k < |run| ==> !Raises(run[k], id)
    ensures id in After(s, run).rollbacks ==> id in s.rollbacks && After(s, run).rollbacks[id] == s.rollbacks[id]
  {
    hide Ok, Step, Raises;
    if run != [] {
      var before, last := run[..|run| - 1], run[|run| - 1];
      SnapshotKept(s, before, id);
      RunKeeps(s, before);
      if Step(After(s, before), last).Success? {
        SnapshotStep(After(s, before), last, id);
      }
    }
  }

  lemma DivergedStep(s: State, cmd: Command, id: nat)
    requires Ok(s) && Step(s, cmd).Success? && Diverged(s, id)
    ensures Diverged(Step(s, cmd).value, id)
    ensures cmd != RollBackDispute(id)
  {
    hide Ok, Step, Enabled, Rewritten, Moved, Framed, AccountOk, AfterRaise;
    StepMoves(s, cmd);
    MovedAccounts(s, cmd, Step(s, cmd).value);
    SnapshotStep(s, cmd, id);
    AccountAt(s, id);
    if cmd == RollBackDispute(id) {
      assert false by { DivergedRefuses(s, id); }
    } else if Target(s, cmd) == Some(id) && !cmd.Create? {
      RewriteInDispute(s, cmd, s.accounts[id]);
    }
  }

  lemma DivergedRefuses(s: State, id: nat)
    requires Diverged(s, id)
    ensures Step(s, RollBackDispute(id)).Failure?
  {
    if Step(s, RollBackDispute(id)).Success? {
      hide Dispute.RollBack;
      RollBackDisputeShape(s, id);
    }
  }

  lemma {:induction false} DivergedForever(s: State, run: seq<Command>, id: nat)
    requires Ok(s) && Diverged(s, id)
    ensures Diverged(After(s, run), id)
  {
    hide Ok, Step, Diverged;
    if run != [] {
      var before, last := run[..|run| - 1], run[|run| - 1];
      DivergedForever(s, before, id);
      RunKeeps(s, before);
      if Step(After(s, before), last).Success? {
        DivergedStep(After(s, before), last, id);
      }
    }
  }

  /** A refund made during a dispute makes every later rollback of that dispute fail. */
  lemma RefundForbidsRollBack(clock: Clock, before: seq<Command>, id: nat, indices: seq<nat>, after: seq<Command>)
    requires var s := After(Genesis(clock), before);
             && id in s.accounts && s.accounts[id].contract.status == Disputed
             && Step(s, Command.Refund(id, indices)).Success?
    ensures var t := Step(After(Genesis(clock), before), Command.Refund(id, indices)).value;
            Step(After(t, after), RollBackDispute(id)).Failure?
  {
    hide *;
    var s := After(Genesis(clock), before);
    GenesisOk(clock);
    RunKeeps(Genesis(clock), before);
    SnapshotsBehind(clock, before, id);
    RefundDiverges(s, id, indices);
    StepKeepsOk(s, Command.Refund(id, indices));
    var t := Step(s, Command.Refund(id, indices)).value;
    DivergedForever(t, after, id);
    DivergedRefuses(After(t, after), id);
  }

  lemma RefundDiverges(s: State, id: nat, indices: seq<nat>)
    requires Ok(s) && id in s.accounts && s.accounts[id].contract.status == Disputed
    requires Step(s, Command.Refund(id, indices)).Success? && SnapshotBehind(s, id)
    ensures Diverged(Step(s, Command.Refund(id, indices)).value, id)
  {
    hide Ok, Step, Enabled, Rewritten, Moved, Framed, AccountOk;
    var cmd := Command.Refund(id, indices);
    StepMoves(s, cmd);
    MovedAccounts(s, cmd, Step(s, cmd).value);
    SnapshotStep(s, cmd, id);
    AccountAt(s, id);
    RewriteInDispute(s, cmd, s.accounts[id]);
  }
}
