/** Rolling a release back undoes it on contract, milestones and fee pot, even after other calls in between. */
module ReleaseInverse {
  import opened Results
  import opened Types
  import opened AccountInvariant
  import opened AccountSums
  import opened AccountSteps
  import opened LedgerInvariant
  import opened Milestones
  import opened Protocol
  import opened StepsKeepInvariant
  import ApprovalTrace
  import Authorization
  import Creation
  import Deposit
  import Effects
  import Fees
  import MilestoneApprovals
  import Refund
  import RefundOrder
  import Release
  import ReleaseGuard
  import StatusMachine
  import TempStorage

  /** `o` with milestone `i` of contract `id` released for the given fee, and nothing else different. */
  function WithRelease(o: State, id: nat, i: nat, fee: int): State
    requires id in o.accounts && i < |o.accounts[id].milestones|
  {
    o.(accounts := o.accounts[id := Released(o.accounts[id], i, fee)],
       fees := o.fees + fee,
       balance := o.balance - (o.accounts[id].milestones[i].amount - fee),
       approvals := o.approvals - {Slot(id, i)})
  }

  /** Milestone `i` of contract `id` is open and could be released for this fee. */
  predicate Open(o: State, id: nat, i: nat, fee: int) {
    && id in o.accounts && i < |o.accounts[id].milestones|
    && o.accounts[id].contract.status == Funded
    && !Settled(o.accounts[id].milestones[i])
    && 0 <= fee <= o.accounts[id].milestones[i].amount
  }

  /** The milestone reads the same in both states. */
  predicate SameMilestone(o: State, p: State, id: nat, i: nat) {
    && id in o.accounts && id in p.accounts
    && i < |o.accounts[id].milestones| && i < |p.accounts[id].milestones|
    && p.accounts[id].milestones[i] == o.accounts[id].milestones[i]
  }

  // ---- one release, one rollback ----

  /** A release that does not complete its contract adds exactly that release. */
  lemma ReleaseAdds(s: State, id: nat, caller: Address, i: nat)
    requires Ok(s) && Release.Release(s, id, caller, i).Success?
    requires id in Release.Release(s, id, caller, i).value.accounts
    requires Release.Release(s, id, caller, i).value.accounts[id].contract.status == Funded
    ensures id in s.accounts && i < |s.accounts[id].milestones|
    ensures Open(s, id, i, StepsKeepInvariant.ReleaseFee(s, id, i))
    ensures Release.Release(s, id, caller, i).value == WithRelease(s, id, i, StepsKeepInvariant.ReleaseFee(s, id, i))
  {
    hide Ok, Release.Release, StepsKeepInvariant.ReleaseFee, Settled, AllSettled, AccountOk;
    ReleaseEffect(s, id, caller, i);
    ReleaseCredits(s, id, caller, i);
  }

  /** Without completion no credit is granted. */
  lemma ReleaseCredits(s: State, id: nat, caller: Address, i: nat)
    requires Ok(s) && Release.Release(s, id, caller, i).Success?
    requires id in s.accounts && i < |s.accounts[id].milestones| && s.accounts[id].contract.status == Funded
    ensures !AllSettled(Released(s.accounts[id], i, StepsKeepInvariant.ReleaseFee(s, id, i)).milestones) ==>
              Release.Release(s, id, caller, i).value.credits == s.credits
  {
    hide Ok, Release.Release, StepsKeepInvariant.ReleaseFee, AllSettled, Released;
    ReleaseShape(s, id, caller, i);
  }

  lemma UndoReleased(a: Account, i: nat, fee: int)
    requires AccountOk(a) && i < |a.milestones| && !Settled(a.milestones[i])
    ensures AfterRollBack(Released(a, i, fee), i) == a
  {
    assert a.milestones[i := a.milestones[i]] == a.milestones;
  }

  /** Pots and approvals after rolling the added release back. */
  lemma UnpaidWithRelease(o: State, id: nat, i: nat, fee: int)
    requires Open(o, id, i, fee) && 0 <= o.fees
    ensures var w := WithRelease(o, id, i, fee);
            && id in w.accounts && w.accounts[id] == Released(o.accounts[id], i, fee)
            && |w.accounts[id].milestones| == |o.accounts[id].milestones|
            && w.config == o.config && w.clock == o.clock && w.finalizations == o.finalizations
            && w.credits == o.credits
            && UnpaidRelease(w, id, i)
               == w.(fees := o.fees)
  {
    assert o.approvals - {Slot(id, i)} - {Slot(id, i)} == o.approvals - {Slot(id, i)};
  }

  lemma RestoredState(o: State, id: nat, i: nat, fee: int)
    requires id in o.accounts && i < |o.accounts[id].milestones|
    ensures Store(WithRelease(o, id, i, fee).(fees := o.fees), id, o.accounts[id])
         == o.(balance := o.balance - (o.accounts[id].milestones[i].amount - fee),
               approvals := o.approvals - {Slot(id, i)})
  {
    hide Released;
    assert o.accounts[id := Released(o.accounts[id], i, fee)][id := o.accounts[id]] == o.accounts;
  }

  /** Rolling back takes exactly the release away; the payment stays out and the approvals stay cleared. */
  lemma RollBackRemoves(o: State, id: nat, admin: Address, i: nat, fee: int)
    requires Ok(o) && Open(o, id, i, fee) && Ok(WithRelease(o, id, i, fee))
    requires Release.RollBack(WithRelease(o, id, i, fee), id, admin, i).Success?
    ensures Release.RollBack(WithRelease(o, id, i, fee), id, admin, i).value
         == o.(balance := o.balance - (o.accounts[id].milestones[i].amount - fee),
               approvals := o.approvals - {Slot(id, i)})
  {
    hide *;
    OpenParts(o, id, i, fee);
    OkFacts(o);
    AccountAt(o, id);
    RollBackEffect(WithRelease(o, id, i, fee), id, admin, i);
    UnpaidWithRelease(o, id, i, fee);
    UndoReleased(o.accounts[id], i, fee);
    RestoredState(o, id, i, fee);
  }

  lemma OpenParts(o: State, id: nat, i: nat, fee: int)
    requires Open(o, id, i, fee)
    ensures id in o.accounts && i < |o.accounts[id].milestones|
    ensures o.accounts[id].contract.status == Funded && !Settled(o.accounts[id].milestones[i])
    ensures 0 <= fee <= o.accounts[id].milestones[i].amount
  {
  }

  /** A release can be rolled back by the admin exactly while it left the contract funded, and the rollback then
      restores contract, milestones, fee pot and all; only the payment stays out and the approvals stay cleared. */
  lemma ReleaseThenRollBack(s: State, id: nat, caller: Address, i: nat, admin: Address)
    requires Ok(s) && Release.Release(s, id, caller, i).Success?
    ensures id in Release.Release(s, id, caller, i).value.accounts
    ensures var t := Release.Release(s, id, caller, i).value;
            var u := Release.RollBack(t, id, admin, i);
            && (u.Success? <==> RequireInitialized(s.config).Holds? && RequireAdmin(s.config, admin).Holds?
                                && t.accounts[id].contract.status == Funded)
            && (u.Success? ==> u.value == s.(balance := t.balance, approvals := s.approvals - {Slot(id, i)}))
  {
    hide *;
    ReleaseEffect(s, id, caller, i);
    var t := Release.Release(s, id, caller, i).value;
    ReleasedStays(s, id, caller, i);
    StatusMachine.RollBackExactly(t, id, admin, i);
    if Release.RollBack(t, id, admin, i).Success? {
      RollBackEffect(t, id, admin, i);
      ReleaseAdds(s, id, caller, i);
      RollBackRemoves(s, id, admin, i, StepsKeepInvariant.ReleaseFee(s, id, i));
      WithReleaseBalance(s, id, i, StepsKeepInvariant.ReleaseFee(s, id, i));
    }
  }

  lemma ReleasedStays(s: State, id: nat, caller: Address, i: nat)
    requires Ok(s) && Release.Release(s, id, caller, i).Success?
    ensures var t := Release.Release(s, id, caller, i).value;
            && t.config == s.config && t.finalizations == s.finalizations && RequireNotPaused(s.config).Holds?
            && id in t.accounts && id !in t.finalizations
            && i < |t.accounts[id].milestones| && Settled(t.accounts[id].milestones[i])
  {
    hide Ok, Release.Release, Release.Releasable, StepsKeepInvariant.ReleaseFee, RequireNotPaused, AllSettled, AccountOk;
    ReleaseChecks(s, id, caller, i);
    ReleasableRuns(s, id, caller, i);
    ReleaseEffect(s, id, caller, i);
  }

  lemma ReleasableRuns(s: State, id: nat, caller: Address, i: nat)
    requires Release.Releasable(s, id, caller, i).Success?
    ensures RequireNotPaused(s.config).Holds?
  {
  }

  lemma WithReleaseBalance(o: State, id: nat, i: nat, fee: int)
    requires id in o.accounts && i < |o.accounts[id].milestones|
    ensures WithRelease(o, id, i, fee).balance == o.balance - (o.accounts[id].milestones[i].amount - fee)
  {
  }

  // ---- calls in between ----

  /** What may happen between a release and its rollback: releases and refunds of other milestones, approvals of any
      kind, new contracts, deposits into other contracts, and time. */
  predicate Aside(cmd: Command, id: nat, i: nat) {
    || (cmd.Release? && (cmd.id != id || cmd.index != i))
    || (cmd.Refund? && (cmd.id != id || i !in cmd.indices))
    || (cmd.Deposit? && cmd.id != id)
    || cmd.Create? || cmd.Tick? || Approves(cmd)
  }

  predicate Approves(cmd: Command) {
    cmd.Approve? || cmd.Revoke? || cmd.Inspect?
  }

  /** What the calls in between see of a contract: at most one milestone and the totals differ. */
  lemma OthersSame(o: State, id: nat, i: nat, fee: int, other: nat)
    requires Open(o, id, i, fee)
    ensures var w := WithRelease(o, id, i, fee);
            && (other in w.accounts <==> other in o.accounts)
            && (other in o.accounts && other != id ==> w.accounts[other] == o.accounts[other])
            && w.accounts[id] == Released(o.accounts[id], i, fee)
  {
  }

  /** A release open in the state with the extra release is open without it, for the same milestone. */
  lemma ReleasableWithout(o: State, id: nat, i: nat, fee: int, other: nat, caller: Address, index: nat)
    requires Open(o, id, i, fee) && (other != id || index != i)
    requires Release.Releasable(WithRelease(o, id, i, fee), other, caller, index).Success?
    ensures Release.Releasable(o, other, caller, index)
         == Release.Releasable(WithRelease(o, id, i, fee), other, caller, index)
    ensures other in o.accounts && index < |o.accounts[other].milestones|
  {
    hide RequireNotPaused, Authorization.MayRelease, MilestoneApprovals.LiveApprovals, Authorization.Sufficient;
    ApprovalsWithout(o, id, i, fee, other, index);
    MayReleaseSame(o.accounts[id], i, fee, caller);
  }

  lemma MayReleaseSame(a: Account, i: nat, fee: int, caller: Address)
    requires i < |a.milestones|
    ensures Authorization.MayRelease(caller, Released(a, i, fee).contract) == Authorization.MayRelease(caller, a.contract)
  {
  }

  lemma ApprovalsWithout(o: State, id: nat, i: nat, fee: int, other: nat, index: nat)
    requires Open(o, id, i, fee) && (other != id || index != i)
    ensures MilestoneApprovals.LiveApprovals(WithRelease(o, id, i, fee), Slot(other, index))
         == MilestoneApprovals.LiveApprovals(o, Slot(other, index))
  {
  }

  /** The release guard is more lenient without the extra release, by its gross amount. */
  lemma GuardWithout(a: Account, i: nat, fee: int, index: nat)
    requires AccountOk(a) && a.contract.status == Funded && i < |a.milestones| && !Settled(a.milestones[i])
    requires 0 <= fee <= a.milestones[i].amount && index < |a.milestones| && index != i
    ensures var b := Released(a, i, fee);
            && b.milestones[index] == a.milestones[index]
            && Sum(Fee, b.milestones) + ReleaseGuard.OthersOpen(b.milestones, index)
               == Sum(Fee, a.milestones) + ReleaseGuard.OthersOpen(a.milestones, index) + fee - a.milestones[i].amount
  {
    ReleasedSums(a, i, fee);
  }

  lemma FeeWithout(o: State, id: nat, i: nat, fee: int, other: nat, index: nat)
    requires Open(o, id, i, fee) && (other != id || index != i)
    requires other in o.accounts && index < |o.accounts[other].milestones|
    ensures var w := WithRelease(o, id, i, fee);
            && other in w.accounts && |w.accounts[other].milestones| == |o.accounts[other].milestones|
            && w.accounts[other].milestones[index] == o.accounts[other].milestones[index]
            && StepsKeepInvariant.ReleaseFee(w, other, index) == StepsKeepInvariant.ReleaseFee(o, other, index)
            && w.config == o.config && w.fees == o.fees + fee
            && w.balance == o.balance - (o.accounts[id].milestones[i].amount - fee)
  {
    hide Fees.ReleaseFee;
  }

  /** Whatever is released with the extra release in place can be released without it. */
  lemma ReleaseGoesWithout(o: State, id: nat, i: nat, fee: int, other: nat, caller: Address, index: nat)
    requires Open(o, id, i, fee) && Ok(o) && Ok(WithRelease(o, id, i, fee)) && (other != id || index != i)
    requires Release.Release(WithRelease(o, id, i, fee), other, caller, index).Success?
    ensures Release.Release(o, other, caller, index).Success?
  {
    hide *;
    OpenParts(o, id, i, fee);
    var w := WithRelease(o, id, i, fee);
    ReleaseChecks(w, other, caller, index);
    ReleasableWithout(o, id, i, fee, other, caller, index);
    ReleaseGuard.ReleaseExactly(w, other, caller, index);
    ReleaseGuard.ReleaseExactly(o, other, caller, index);
    FeeWithout(o, id, i, fee, other, index);
    OthersSame(o, id, i, fee, other);
    AccountAt(o, id);
    if other == id {
      GuardWithout(o.accounts[id], i, fee, index);
    }
  }

  lemma ReleaseChecks(s: State, id: nat, caller: Address, index: nat)
    requires Release.Release(s, id, caller, index).Success?
    ensures Release.Releasable(s, id, caller, index).Success?
  {
    hide Release.Releasable, Release.Funding, Release.Book, Release.Complete;
  }

  /** A release in finished form. */
  lemma ReleaseIsFinished(s: State, id: nat, caller: Address, index: nat)
    requires Ok(s) && Release.Release(s, id, caller, index).Success?
    ensures id in s.accounts && index < |s.accounts[id].milestones|
    ensures Release.Release(s, id, caller, index)
         == Finished(PaidRelease(s, id, index), id,
                     AfterRelease(s.accounts[id], index, StepsKeepInvariant.ReleaseFee(s, id, index)))
  {
    hide *;
    ReleaseShape(s, id, caller, index);
    ReleaseFinish(PaidRelease(s, id, index), id, s.accounts[id], index, StepsKeepInvariant.ReleaseFee(s, id, index));
  }

  function CreditsWith(credits: map<Address, int>, b: Account): map<Address, int> {
    var who := b.contract.freelancer;
    if b.contract.status == Completed then credits[who := CreditsOf(credits, who) + 1] else credits
  }

  lemma FinishedForm(s: State, id: nat, b: Account)
    requires Finished(s, id, b).Success?
    ensures Finished(s, id, b).value == Store(s.(credits := CreditsWith(s.credits, b)), id, b)
  {
  }

  /** A later store on the same contract keeps the extra release on top. */
  lemma StoreSame(o: State, id: nat, i: nat, fee: int, b: Account, credits: map<Address, int>)
    requires id in o.accounts && i < |o.accounts[id].milestones| && i < |b.milestones|
    requires b.milestones[i] == o.accounts[id].milestones[i]
    ensures id in Store(o.(credits := credits), id, b).accounts
    ensures Store(WithRelease(o, id, i, fee).(credits := credits), id, Released(b, i, fee))
         == WithRelease(Store(o.(credits := credits), id, b), id, i, fee)
  {
    hide Released;
    assert o.accounts[id := Released(o.accounts[id], i, fee)][id := Released(b, i, fee)]
        == o.accounts[id := b][id := Released(b, i, fee)];
  }

  /** A later store on another contract leaves the extra release alone. */
  lemma StoreOther(o: State, id: nat, i: nat, fee: int, other: nat, b: Account, credits: map<Address, int>)
    requires id in o.accounts && i < |o.accounts[id].milestones| && other != id
    ensures Store(o.(credits := credits), other, b).accounts[id] == o.accounts[id]
    ensures Store(WithRelease(o, id, i, fee).(credits := credits), other, b)
         == WithRelease(Store(o.(credits := credits), other, b), id, i, fee)
  {
    hide Released;
    var r := Released(o.accounts[id], i, fee);
    assert o.accounts[id := r][other := b] == o.accounts[other := b][id := r];
  }

  /** The extra release, on top of a finished step that left contract `id` open. */
  lemma FinishedSame(o: State, id: nat, i: nat, fee: int, b: Account)
    requires Open(o, id, i, fee) && Finished(o, id, b).Success?
    requires i < |b.milestones| && b.milestones[i] == o.accounts[id].milestones[i] && b.contract.status == Funded
    requires Finished(WithRelease(o, id, i, fee), id, Released(b, i, fee)).Success?
    ensures Open(Finished(o, id, b).value, id, i, fee)
    ensures SameMilestone(o, Finished(o, id, b).value, id, i)
    ensures Finished(WithRelease(o, id, i, fee), id, Released(b, i, fee)).value
         == WithRelease(Finished(o, id, b).value, id, i, fee)
  {
    FinishedForm(o, id, b);
    FinishedForm(WithRelease(o, id, i, fee), id, Released(b, i, fee));
    hide Finished;
    StoreSame(o, id, i, fee, b, o.credits);
    assert WithRelease(o, id, i, fee).credits == o.credits;
  }

  lemma FinishedOther(o: State, id: nat, i: nat, fee: int, other: nat, b: Account)
    requires Open(o, id, i, fee) && Finished(o, other, b).Success? && other != id
    requires Finished(WithRelease(o, id, i, fee), other, b).Success?
    ensures Open(Finished(o, other, b).value, id, i, fee)
    ensures SameMilestone(o, Finished(o, other, b).value, id, i)
    ensures Finished(WithRelease(o, id, i, fee), other, b).value
         == WithRelease(Finished(o, other, b).value, id, i, fee)
  {
    FinishedForm(o, other, b);
    FinishedForm(WithRelease(o, id, i, fee), other, b);
    hide Finished, CreditsWith, Settled;
    StoreOther(o, id, i, fee, other, b, CreditsWith(o.credits, b));
    assert WithRelease(o, id, i, fee).credits == o.credits;
  }

  lemma PaidWithout(o: State, id: nat, i: nat, fee: int, other: nat, index: nat)
    requires Open(o, id, i, fee) && (other != id || index != i)
    requires other in o.accounts && index < |o.accounts[other].milestones|
    requires other in WithRelease(o, id, i, fee).accounts
    requires index < |WithRelease(o, id, i, fee).accounts[other].milestones|
    ensures Open(PaidRelease(o, other, index), id, i, fee)
    ensures PaidRelease(WithRelease(o, id, i, fee), other, index)
         == WithRelease(PaidRelease(o, other, index), id, i, fee)
  {
    FeeWithout(o, id, i, fee, other, index);
    hide StepsKeepInvariant.ReleaseFee, Released, Settled;
    assert o.approvals - {Slot(id, i)} - {Slot(other, index)} == o.approvals - {Slot(other, index)} - {Slot(id, i)};
  }

  /** Two releases on one contract commute, and the first leaves it open for the second. */
  lemma CommuteReleases(a: Account, i: nat, fee: int, index: nat, f: int)
    requires i < |a.milestones| && index < |a.milestones| && i != index && !Settled(a.milestones[i])
    ensures AfterRelease(a, index, f) == Released(a, index, f)
    ensures Released(Released(a, i, fee), index, f) == Released(Released(a, index, f), i, fee)
    ensures Released(a, index, f).milestones[i] == a.milestones[i]
  {
    assert Released(a, index, f).milestones[i] == a.milestones[i];
    var m, n := Release.MarkReleased(a.milestones[i], fee), Release.MarkReleased(a.milestones[index], f);
    assert a.milestones[i := m][index := n] == a.milestones[index := n][i := m];
  }

  /** A release that left its contract funded has not completed it. */
  lemma StillFunded(s: State, id: nat, caller: Address, index: nat)
    requires Ok(s) && Release.Release(s, id, caller, index).Success?
    requires id in Release.Release(s, id, caller, index).value.accounts
    requires Release.Release(s, id, caller, index).value.accounts[id].contract.status == Funded
    ensures id in s.accounts && index < |s.accounts[id].milestones|
    ensures AfterRelease(s.accounts[id], index, StepsKeepInvariant.ReleaseFee(s, id, index))
         == Released(s.accounts[id], index, StepsKeepInvariant.ReleaseFee(s, id, index))
  {
    hide Ok, Release.Release, StepsKeepInvariant.ReleaseFee, AllSettled, Released;
    ReleaseEffect(s, id, caller, index);
  }

  /** A release made with the extra release in place does the same without it. */
  lemma ReleaseAside(o: State, id: nat, i: nat, fee: int, other: nat, caller: Address, index: nat)
    requires Open(o, id, i, fee) && Ok(o) && Ok(WithRelease(o, id, i, fee)) && (other != id || index != i)
    requires Release.Release(WithRelease(o, id, i, fee), other, caller, index).Success?
    requires var t := Release.Release(WithRelease(o, id, i, fee), other, caller, index).value;
             id in t.accounts && t.accounts[id].contract.status == Funded
    ensures Release.Release(o, other, caller, index).Success?
    ensures Open(Release.Release(o, other, caller, index).value, id, i, fee)
    ensures SameMilestone(o, Release.Release(o, other, caller, index).value, id, i)
    ensures Release.Release(WithRelease(o, id, i, fee), other, caller, index).value
         == WithRelease(Release.Release(o, other, caller, index).value, id, i, fee)
  {
    hide *;
    OpenParts(o, id, i, fee);
    var w := WithRelease(o, id, i, fee);
    ReleaseGoesWithout(o, id, i, fee, other, caller, index);
    ReleaseIsFinished(w, other, caller, index);
    ReleaseIsFinished(o, other, caller, index);
    OthersSame(o, id, i, fee, other);
    FeeWithout(o, id, i, fee, other, index);
    PaidWithout(o, id, i, fee, other, index);
    PaidReleaseSame(o, other, index);
    var f := StepsKeepInvariant.ReleaseFee(o, other, index);
    var base := PaidRelease(o, other, index);
    if other == id {
      StillFunded(w, id, caller, index);
      CommuteReleases(o.accounts[id], i, fee, index, f);
      ReleasedStatus(o.accounts[id], index, f);
      FinishedSame(base, id, i, fee, Released(o.accounts[id], index, f));
    } else {
      FinishedOther(base, id, i, fee, other, AfterRelease(o.accounts[other], index, f));
    }
    SameFrom(o, base, Release.Release(o, other, caller, index).value, id, i);
  }

  lemma SameFrom(o: State, base: State, p: State, id: nat, i: nat)
    requires base.accounts == o.accounts && SameMilestone(base, p, id, i)
    ensures SameMilestone(o, p, id, i)
  {
  }

  lemma ReleasedStatus(a: Account, index: nat, f: int)
    requires index < |a.milestones|
    ensures Released(a, index, f).contract.status == a.contract.status
    ensures |Released(a, index, f).milestones| == |a.milestones|
  {
  }

  // ---- refunds in between ----

  lemma {:induction false} AmountsWithout(a: Account, i: nat, fee: int, indices: seq<nat>)
    requires i < |a.milestones|
    ensures RefundOrder.AmountsAt(Released(a, i, fee).milestones, indices)
         == RefundOrder.AmountsAt(a.milestones, indices)
  {
    if indices != [] {
      AmountsWithout(a, i, fee, indices[..|indices| - 1]);
    }
  }

  lemma RefundableWithout(o: State, id: nat, i: nat, fee: int, other: nat, indices: seq<nat>)
    requires Open(o, id, i, fee) && (other != id || i !in indices)
    requires RefundOrder.Refundable(WithRelease(o, id, i, fee), other, indices)
    ensures RefundOrder.Refundable(o, other, indices)
  {
    AmountsWithout(o.accounts[id], i, fee, indices);
    AllRefundableWithout(o.accounts[id], i, fee, indices, o.clock.timestamp);
    hide RefundOrder.AmountsAt, RefundOrder.AllRefundable, Refund.Distinct, RequireNotPaused;
  }

  lemma AllRefundableWithout(a: Account, i: nat, fee: int, indices: seq<nat>, now: nat)
    requires i < |a.milestones|
    ensures i !in indices && RefundOrder.AllRefundable(Released(a, i, fee).milestones, indices, now)
            ==> RefundOrder.AllRefundable(a.milestones, indices, now)
  {
    if i !in indices && RefundOrder.AllRefundable(Released(a, i, fee).milestones, indices, now) {
      forall k | k in indices ensures Refund.CheckRefundable(a.milestones, k, now).Holds? {
        assert Refund.CheckRefundable(Released(a, i, fee).milestones, k, now).Holds?;
      }
    }
  }

  /** A release and a refund of other milestones commute, and the refund leaves the contract open for the release. */
  lemma CommuteRefund(a: Account, i: nat, fee: int, indices: seq<nat>, total: int)
    requires i < |a.milestones| && i !in indices && !Settled(a.milestones[i])
    ensures AfterRefund(a, indices, total) == RefundedAccount(a, indices, total)
    ensures RefundedAccount(Released(a, i, fee), indices, total) == Released(RefundedAccount(a, indices, total), i, fee)
    ensures RefundedAccount(a, indices, total).milestones[i] == a.milestones[i]
  {
    assert RefundedAccount(a, indices, total).milestones[i] == a.milestones[i];
    assert Refund.MarkAll(Released(a, i, fee).milestones, indices)
        == Refund.MarkAll(a.milestones, indices)[i := Release.MarkReleased(a.milestones[i], fee)];
  }

  lemma RefundStillFunded(s: State, id: nat, a: Account, indices: seq<nat>, total: int)
    requires Finished(s, id, AfterRefund(a, indices, total)).Success?
    requires id in Finished(s, id, AfterRefund(a, indices, total)).value.accounts
    requires Finished(s, id, AfterRefund(a, indices, total)).value.accounts[id].contract.status == Funded
    ensures AfterRefund(a, indices, total) == RefundedAccount(a, indices, total)
  {
    hide Refund.MarkAll, AllSettled, AllRefunded;
  }

  lemma BalanceWithout(o: State, id: nat, i: nat, fee: int, total: int)
    requires Open(o, id, i, fee)
    ensures var w, p := WithRelease(o, id, i, fee), o.(balance := o.balance - total);
            && Open(p, id, i, fee)
            && w.(balance := w.balance - total) == WithRelease(p, id, i, fee)
  {
    hide Released, Settled;
  }

  lemma RefundedStatus(a: Account, indices: seq<nat>, total: int)
    ensures RefundedAccount(a, indices, total).contract.status == a.contract.status
    ensures |RefundedAccount(a, indices, total).milestones| == |a.milestones|
  {
  }

  /** A refund made with the extra release in place does the same without it. */
  lemma RefundAside(o: State, id: nat, i: nat, fee: int, other: nat, indices: seq<nat>)
    requires Open(o, id, i, fee) && Ok(o) && Ok(WithRelease(o, id, i, fee)) && (other != id || i !in indices)
    requires Refund.Refund(WithRelease(o, id, i, fee), other, indices).Success?
    requires var t := Refund.Refund(WithRelease(o, id, i, fee), other, indices).value;
             id in t.accounts && t.accounts[id].contract.status == Funded
    ensures Refund.Refund(o, other, indices).Success?
    ensures Open(Refund.Refund(o, other, indices).value, id, i, fee)
    ensures SameMilestone(o, Refund.Refund(o, other, indices).value, id, i)
    ensures Refund.Refund(WithRelease(o, id, i, fee), other, indices).value
         == WithRelease(Refund.Refund(o, other, indices).value, id, i, fee)
  {
    hide *;
    OpenParts(o, id, i, fee);
    var w := WithRelease(o, id, i, fee);
    RefundOrder.RefundExactly(w, other, indices);
    RefundableWithout(o, id, i, fee, other, indices);
    RefundOrder.RefundExactly(o, other, indices);
    RefundOrder.RefundableHasAccount(o, other, indices);
    OthersSame(o, id, i, fee, other);
    AmountsWithout(o.accounts[id], i, fee, indices);
    var total := RefundOrder.AmountsAt(o.accounts[other].milestones, indices);
    BalanceWithout(o, id, i, fee, total);
    if other == id {
      RefundStillFunded(w.(balance := w.balance - total), id, w.accounts[id], indices, total);
      CommuteRefund(o.accounts[id], i, fee, indices, total);
      RefundedStatus(o.accounts[id], indices, total);
      FinishedSame(o.(balance := o.balance - total), id, i, fee, RefundedAccount(o.accounts[id], indices, total));
    } else {
      FinishedOther(o.(balance := o.balance - total), id, i, fee, other, AfterRefund(o.accounts[other], indices, total));
    }
    SameFrom(o, o.(balance := o.balance - total), Refund.Refund(o, other, indices).value, id, i);
  }

  // ---- other calls in between ----

  lemma TickAside(o: State, id: nat, i: nat, fee: int, ledgers: nat, seconds: nat)
    requires Open(o, id, i, fee)
    ensures var t := Creation.Tick(o, ledgers, seconds);
            && Open(t, id, i, fee) && SameMilestone(o, t, id, i)
            && Creation.Tick(WithRelease(o, id, i, fee), ledgers, seconds) == WithRelease(t, id, i, fee)
  {
    hide Released, Settled;
  }

  lemma CreateGoesWithout(o: State, id: nat, i: nat, fee: int, cmd: Command)
    requires Open(o, id, i, fee) && cmd.Create?
    requires Creation.Create(WithRelease(o, id, i, fee), cmd.client, cmd.freelancer, cmd.arbiter, cmd.amounts, cmd.mode).Success?
    ensures Creation.Create(o, cmd.client, cmd.freelancer, cmd.arbiter, cmd.amounts, cmd.mode).Success?
    ensures WithRelease(o, id, i, fee).nextId == o.nextId && o.nextId != id
  {
    hide Creation.CheckAmounts, Creation.FreshMilestones, RequireNotPaused, Released;
  }

  /** A new contract is stored beside the extra release. */
  lemma CreateAside(o: State, id: nat, i: nat, fee: int, cmd: Command)
    requires Open(o, id, i, fee) && cmd.Create?
    requires Creation.Create(WithRelease(o, id, i, fee), cmd.client, cmd.freelancer, cmd.arbiter, cmd.amounts, cmd.mode).Success?
    ensures var r := Creation.Create(o, cmd.client, cmd.freelancer, cmd.arbiter, cmd.amounts, cmd.mode);
            && r.Success? && Open(r.value, id, i, fee) && SameMilestone(o, r.value, id, i)
            && Creation.Create(WithRelease(o, id, i, fee), cmd.client, cmd.freelancer, cmd.arbiter, cmd.amounts, cmd.mode).value
               == WithRelease(r.value, id, i, fee)
  {
    hide Creation.Create, FreshAccount, Released, Settled;
    CreateGoesWithout(o, id, i, fee, cmd);
    CreateShape(o, cmd.client, cmd.freelancer, cmd.arbiter, cmd.amounts, cmd.mode);
    CreateShape(WithRelease(o, id, i, fee), cmd.client, cmd.freelancer, cmd.arbiter, cmd.amounts, cmd.mode);
    var added := FreshAccount(cmd.client, cmd.freelancer, cmd.arbiter, cmd.amounts, cmd.mode);
    StoreOther(o, id, i, fee, o.nextId, added, o.credits);
    assert o.(credits := o.credits) == o;
    assert WithRelease(o, id, i, fee).(credits := o.credits) == WithRelease(o, id, i, fee);
  }

  lemma AdmitWithout(o: State, id: nat, i: nat, fee: int, other: nat, caller: Address, amount: int)
    requires Open(o, id, i, fee) && other != id
    ensures Deposit.Admit(WithRelease(o, id, i, fee), other, caller, amount) == Deposit.Admit(o, other, caller, amount)
  {
    hide Accumulated, Released, RequireNotPaused, RequireInitialized;
  }

  /** A deposit that fits the larger balance goes into another contract as before. */
  lemma DepositAside(o: State, id: nat, i: nat, fee: int, other: nat, caller: Address, amount: int, funds: int)
    requires Open(o, id, i, fee) && other != id && o.balance + amount <= I128_MAX
    requires Deposit.Deposit(WithRelease(o, id, i, fee), other, caller, amount, funds).Success?
    ensures var r := Deposit.Deposit(o, other, caller, amount, funds);
            && r.Success? && Open(r.value, id, i, fee) && SameMilestone(o, r.value, id, i)
            && Deposit.Deposit(WithRelease(o, id, i, fee), other, caller, amount, funds).value
               == WithRelease(r.value, id, i, fee)
  {
    hide Deposit.Admit, Deposit.Apply, Released, Settled;
    AdmitWithout(o, id, i, fee, other, caller, amount);
    var v := Deposit.Admit(o, other, caller, amount).value;
    BalanceWithout(o, id, i, fee, -amount);
    var p := o.(balance := o.balance + amount);
    StoreOther(p, id, i, fee, other, Deposit.Apply(v), o.credits);
    assert p.(credits := o.credits) == p;
    assert WithRelease(p, id, i, fee).(credits := o.credits) == WithRelease(p, id, i, fee);
  }

  /** The extra release over another set of approval records. */
  lemma ApprovalsReplaced(o: State, id: nat, i: nat, fee: int, entries: map<Slot, Temporary<Approvals>>)
    requires Open(o, id, i, fee)
    ensures var p := o.(approvals := entries);
            && Open(p, id, i, fee) && SameMilestone(o, p, id, i)
            && WithRelease(p, id, i, fee) == WithRelease(o, id, i, fee).(approvals := entries - {Slot(id, i)})
  {
    hide Released, Settled;
  }

  lemma ClearIs(s: State, slot: Slot)
    ensures MilestoneApprovals.Clear(s, slot) == s.(approvals := s.approvals - {slot})
  {
  }

  lemma RecordIs(s: State, slot: Slot, flags: Approvals)
    ensures MilestoneApprovals.Record(s, slot, flags)
         == s.(approvals := TempStorage.Write(s.approvals, slot, flags, s.clock, APPROVAL_BUMP_THRESHOLD, APPROVAL_TTL))
  {
    hide TempStorage.Write;
  }

  lemma WithReleaseApprovals(o: State, id: nat, i: nat, fee: int)
    requires Open(o, id, i, fee)
    ensures WithRelease(o, id, i, fee).approvals == o.approvals - {Slot(id, i)}
    ensures WithRelease(o, id, i, fee).clock == o.clock
  {
  }

  /** Writing or clearing a record of another milestone commutes with the extra release. */
  lemma RecordAside(o: State, id: nat, i: nat, fee: int, slot: Slot, flags: Approvals)
    requires Open(o, id, i, fee)
    ensures var r, c := MilestoneApprovals.Record(o, slot, flags), MilestoneApprovals.Clear(o, slot);
            && Open(r, id, i, fee) && SameMilestone(o, r, id, i) && Open(c, id, i, fee) && SameMilestone(o, c, id, i)
            && MilestoneApprovals.Clear(WithRelease(o, id, i, fee), slot) == WithRelease(c, id, i, fee)
            && (slot != Slot(id, i) ==>
                  MilestoneApprovals.Record(WithRelease(o, id, i, fee), slot, flags) == WithRelease(r, id, i, fee))
            && (slot == Slot(id, i) ==> WithRelease(o, id, i, fee) == WithRelease(r, id, i, fee))
  {
    hide *;
    OpenParts(o, id, i, fee);
    var own, w := Slot(id, i), WithRelease(o, id, i, fee);
    WithReleaseApprovals(o, id, i, fee);
    ClearIs(o, slot);
    ClearIs(w, slot);
    RecordIs(o, slot, flags);
    RecordIs(w, slot, flags);
    assert o.approvals - {own} - {slot} == o.approvals - {slot} - {own};
    WriteAside(o.approvals, own, slot, flags, o.clock);
    ApprovalsReplaced(o, id, i, fee, o.approvals - {slot});
    ApprovalsReplaced(o, id, i, fee, MilestoneApprovals.Record(o, slot, flags).approvals);
  }

  lemma WriteAside(entries: map<Slot, Temporary<Approvals>>, own: Slot, slot: Slot, flags: Approvals, clock: Clock)
    ensures var written := TempStorage.Write(entries, slot, flags, clock, APPROVAL_BUMP_THRESHOLD, APPROVAL_TTL);
            if slot == own then written - {own} == entries - {own}
            else TempStorage.Write(entries - {own}, slot, flags, clock, APPROVAL_BUMP_THRESHOLD, APPROVAL_TTL)
                 == written - {own}
  {
    hide TempStorage.Renewed;
  }

  /** An approval made with the extra release in place stores the same flags without it. */
  lemma ApproveGoesWithout(o: State, id: nat, i: nat, fee: int, other: nat, caller: Address, index: nat)
    requires Open(o, id, i, fee)
    requires MilestoneApprovals.Approve(WithRelease(o, id, i, fee), other, caller, index).Success?
    ensures other != id || index != i
    ensures exists flags ::
              && MilestoneApprovals.Approve(o, other, caller, index)
                 == Success(MilestoneApprovals.Record(o, Slot(other, index), flags))
              && MilestoneApprovals.Approve(WithRelease(o, id, i, fee), other, caller, index)
                 == Success(MilestoneApprovals.Record(WithRelease(o, id, i, fee), Slot(other, index), flags))
  {
    var w := WithRelease(o, id, i, fee);
    ApprovalTrace.ApproveRecords(w, other, caller, index);
    if other != id || index != i {
      ApprovalsWithout(o, id, i, fee, other, index);
    }
    hide MilestoneApprovals.Record, MilestoneApprovals.LiveApprovals, RequireNotPaused, Authorization.HasFlag,
      Authorization.WithFlag;
    var live := MilestoneApprovals.LiveApprovals(w, Slot(other, index));
    var flags := if live.Some? then live.value else MilestoneApprovals.NO_APPROVALS;
    var role := Authorization.CallerRole(caller, w.accounts[other].contract).value;
    assert MilestoneApprovals.Approve(o, other, caller, index)
        == Success(MilestoneApprovals.Record(o, Slot(other, index), Authorization.WithFlag(flags, role, true)));
  }

  lemma ApproveAside(o: State, id: nat, i: nat, fee: int, other: nat, caller: Address, index: nat)
    requires Open(o, id, i, fee)
    requires MilestoneApprovals.Approve(WithRelease(o, id, i, fee), other, caller, index).Success?
    ensures var r := MilestoneApprovals.Approve(o, other, caller, index);
            && r.Success? && Open(r.value, id, i, fee) && SameMilestone(o, r.value, id, i)
            && MilestoneApprovals.Approve(WithRelease(o, id, i, fee), other, caller, index).value
               == WithRelease(r.value, id, i, fee)
  {
    hide *;
    OpenParts(o, id, i, fee);
    var w := WithRelease(o, id, i, fee);
    ApproveGoesWithout(o, id, i, fee, other, caller, index);
    var flags :| MilestoneApprovals.Approve(o, other, caller, index)
                 == Success(MilestoneApprovals.Record(o, Slot(other, index), flags))
              && MilestoneApprovals.Approve(w, other, caller, index)
                 == Success(MilestoneApprovals.Record(w, Slot(other, index), flags));
    RecordAside(o, id, i, fee, Slot(other, index), flags);
  }

  /** What a revocation leaves of the flags. */
  lemma RevokeGoesWithout(o: State, id: nat, i: nat, fee: int, other: nat, caller: Address, index: nat)
    requires Open(o, id, i, fee)
    requires MilestoneApprovals.Revoke(WithRelease(o, id, i, fee), other, caller, index).Success?
    ensures other != id || index != i
    ensures exists flags ::
              && MilestoneApprovals.Revoke(o, other, caller, index) == Success(Remaining(o, Slot(other, index), flags))
              && MilestoneApprovals.Revoke(WithRelease(o, id, i, fee), other, caller, index)
                 == Success(Remaining(WithRelease(o, id, i, fee), Slot(other, index), flags))
  {
    var w := WithRelease(o, id, i, fee);
    if other != id || index != i {
      ApprovalsWithout(o, id, i, fee, other, index);
    }
    hide MilestoneApprovals.Record, MilestoneApprovals.Clear, MilestoneApprovals.LiveApprovals, Authorization.HasFlag,
      Authorization.WithFlag;
    var live := MilestoneApprovals.LiveApprovals(w, Slot(other, index)).value;
    var role := Authorization.CallerRole(caller, w.accounts[other].contract).value;
    assert MilestoneApprovals.Revoke(o, other, caller, index)
        == Success(Remaining(o, Slot(other, index), Authorization.WithFlag(live, role, false)));
  }

  function Remaining(s: State, slot: Slot, flags: Approvals): State {
    if flags == MilestoneApprovals.NO_APPROVALS then MilestoneApprovals.Clear(s, slot)
    else MilestoneApprovals.Record(s, slot, flags)
  }

  lemma RevokeAside(o: State, id: nat, i: nat, fee: int, other: nat, caller: Address, index: nat)
    requires Open(o, id, i, fee)
    requires MilestoneApprovals.Revoke(WithRelease(o, id, i, fee), other, caller, index).Success?
    ensures var r := MilestoneApprovals.Revoke(o, other, caller, index);
            && r.Success? && Open(r.value, id, i, fee) && SameMilestone(o, r.value, id, i)
            && MilestoneApprovals.Revoke(WithRelease(o, id, i, fee), other, caller, index).value
               == WithRelease(r.value, id, i, fee)
  {
    var w := WithRelease(o, id, i, fee);
    RevokeGoesWithout(o, id, i, fee, other, caller, index);
    hide Open, WithRelease, SameMilestone, MilestoneApprovals.Revoke, MilestoneApprovals.Record, MilestoneApprovals.Clear;
    var flags :| MilestoneApprovals.Revoke(o, other, caller, index) == Success(Remaining(o, Slot(other, index), flags))
              && MilestoneApprovals.Revoke(w, other, caller, index) == Success(Remaining(w, Slot(other, index), flags));
    RecordAside(o, id, i, fee, Slot(other, index), flags);
  }

  /** Reading approvals renews the same record in both states, or one the release had cleared. */
  lemma InspectAside(o: State, id: nat, i: nat, fee: int, slot: Slot)
    requires Open(o, id, i, fee)
    ensures var t := MilestoneApprovals.Inspect(o, slot);
            && Open(t, id, i, fee) && SameMilestone(o, t, id, i)
            && MilestoneApprovals.Inspect(WithRelease(o, id, i, fee), slot) == WithRelease(t, id, i, fee)
  {
    LiveWithout(o, id, i, fee, slot);
    hide WithRelease, MilestoneApprovals.Record, MilestoneApprovals.LiveApprovals, Settled;
    var live := MilestoneApprovals.LiveApprovals(o, slot);
    if live.Some? {
      RecordAside(o, id, i, fee, slot, live.value);
    }
  }

  lemma LiveWithout(o: State, id: nat, i: nat, fee: int, slot: Slot)
    requires Open(o, id, i, fee)
    ensures MilestoneApprovals.LiveApprovals(WithRelease(o, id, i, fee), slot)
         == if slot == Slot(id, i) then None else MilestoneApprovals.LiveApprovals(o, slot)
  {
  }

  // ---- whole runs in between ----

  /** Every call of the run goes through. */
  predicate AllSucceed(s: State, run: seq<Command>) {
    run == [] || (AllSucceed(s, run[..|run| - 1]) && Step(After(s, run[..|run| - 1]), run[|run| - 1]).Success?)
  }

  predicate AllAside(run: seq<Command>, id: nat, i: nat) {
    forall k :: 0 <= k < |run| ==> Aside(run[k], id, i)
  }

  /** A deposit fits the token balance. */
  predicate Fits(s: State, cmd: Command) {
    cmd.Deposit? ==> s.balance + cmd.amount <= I128_MAX
  }

  /** Every deposit of the run fits the balance it finds. */
  predicate DepositsFit(s: State, run: seq<Command>) {
    run == [] || (DepositsFit(s, run[..|run| - 1]) && Fits(After(s, run[..|run| - 1]), run[|run| - 1]))
  }

  /** The same call, with the extra release on top of its result. */
  predicate Follows(o: State, id: nat, i: nat, fee: int, cmd: Command, t: State) {
    && Step(o, cmd).Success?
    && Open(Step(o, cmd).value, id, i, fee)
    && SameMilestone(o, Step(o, cmd).value, id, i)
    && t == WithRelease(Step(o, cmd).value, id, i, fee)
  }

  lemma ApprovalsAside(o: State, id: nat, i: nat, fee: int, cmd: Command)
    requires Open(o, id, i, fee) && Approves(cmd) && Step(WithRelease(o, id, i, fee), cmd).Success?
    ensures Follows(o, id, i, fee, cmd, Step(WithRelease(o, id, i, fee), cmd).value)
  {
    hide Open, WithRelease, SameMilestone, MilestoneApprovals.Approve, MilestoneApprovals.Revoke, MilestoneApprovals.Inspect;
    match cmd
    case Approve(other, caller, index) => ApproveAside(o, id, i, fee, other, caller, index);
    case Revoke(other, caller, index) => RevokeAside(o, id, i, fee, other, caller, index);
    case Inspect(other, index) => InspectAside(o, id, i, fee, Slot(other, index));
  }

  lemma EntriesAside(o: State, id: nat, i: nat, fee: int, cmd: Command)
    requires Open(o, id, i, fee) && Step(WithRelease(o, id, i, fee), cmd).Success? && Fits(o, cmd)
    requires cmd.Create? || cmd.Tick? || (cmd.Deposit? && cmd.id != id)
    ensures Follows(o, id, i, fee, cmd, Step(WithRelease(o, id, i, fee), cmd).value)
  {
    hide Open, WithRelease, SameMilestone, Creation.Create, Creation.Tick, Deposit.Deposit;
    match cmd
    case Create(_, _, _, _, _) => CreateAside(o, id, i, fee, cmd);
    case Deposit(other, caller, amount, funds) => DepositAside(o, id, i, fee, other, caller, amount, funds);
    case Tick(ledgers, seconds) => TickAside(o, id, i, fee, ledgers, seconds);
  }

  lemma PayoutsAside(o: State, id: nat, i: nat, fee: int, cmd: Command)
    requires Open(o, id, i, fee) && Ok(o) && Ok(WithRelease(o, id, i, fee)) && Aside(cmd, id, i)
    requires (cmd.Release? || cmd.Refund?) && Step(WithRelease(o, id, i, fee), cmd).Success?
    requires var t := Step(WithRelease(o, id, i, fee), cmd).value;
             id in t.accounts && t.accounts[id].contract.status == Funded
    ensures Follows(o, id, i, fee, cmd, Step(WithRelease(o, id, i, fee), cmd).value)
  {
    hide Ok, Open, WithRelease, SameMilestone, Release.Release, Refund.Refund;
    if cmd.Release? {
      ReleaseAside(o, id, i, fee, cmd.id, cmd.caller, cmd.index);
    } else {
      RefundAside(o, id, i, fee, cmd.id, cmd.indices);
    }
  }

  lemma StepAside(o: State, id: nat, i: nat, fee: int, cmd: Command)
    requires Open(o, id, i, fee) && Ok(o) && Ok(WithRelease(o, id, i, fee)) && Aside(cmd, id, i) && Fits(o, cmd)
    requires Step(WithRelease(o, id, i, fee), cmd).Success?
    requires var t := Step(WithRelease(o, id, i, fee), cmd).value;
             id in t.accounts && t.accounts[id].contract.status == Funded
    ensures Follows(o, id, i, fee, cmd, Step(WithRelease(o, id, i, fee), cmd).value)
  {
    hide Ok, Open, WithRelease, Step, Follows;
    if Approves(cmd) {
      ApprovalsAside(o, id, i, fee, cmd);
    } else if cmd.Release? || cmd.Refund? {
      PayoutsAside(o, id, i, fee, cmd);
    } else {
      EntriesAside(o, id, i, fee, cmd);
    }
  }

  /** Calls in between, and the release itself, keep a funded contract funded or close it. */
  lemma FundedOrClosed(s: State, cmd: Command, id: nat, i: nat)
    requires Ok(s) && id in s.accounts && (Aside(cmd, id, i) || cmd.Release?)
    requires s.accounts[id].contract.status == Funded
    ensures id in Exec(s, cmd).accounts
    ensures Exec(s, cmd).accounts[id].contract.status == Funded || Terminal(Exec(s, cmd).accounts[id].contract.status)
  {
    hide Ok, Step, Effects.Enabled, Effects.Rewritten, Effects.Moved, Effects.Framed;
    if Step(s, cmd).Success? {
      Effects.StepMoves(s, cmd);
      Effects.MovedAccounts(s, cmd, Step(s, cmd).value);
      if cmd.Create? {
        assert id != s.nextId;
      } else if Effects.Target(s, cmd) == Some(id) {
        RewriteFunded(s, cmd, s.accounts[id]);
      }
    }
  }

  lemma RewriteFunded(s: State, cmd: Command, a: Account)
    requires (cmd.Release? || cmd.Refund?) && Effects.Enabled(s, cmd, a) && a.contract.status == Funded
    ensures var b := Effects.Rewritten(s, cmd, a);
            b.contract.status == Funded || Terminal(b.contract.status)
  {
    hide StepsKeepInvariant.ReleaseFee, Refund.RefundTotal, AllSettled, AllRefunded;
  }

  lemma FundedBack(s: State, cmd: Command, id: nat)
    requires Ok(s) && id in s.accounts && (s.accounts[id].contract.status == Funded || Terminal(s.accounts[id].contract.status))
    requires id in Exec(s, cmd).accounts && Exec(s, cmd).accounts[id].contract.status == Funded
    ensures s.accounts[id].contract.status == Funded
  {
    hide Ok, Exec;
    if Terminal(s.accounts[id].contract.status) {
      StatusMachine.FinalStep(s, cmd, id);
    }
  }

  lemma {:induction false} FundedRun(s: State, run: seq<Command>, id: nat, i: nat)
    requires Ok(s) && id in s.accounts && s.accounts[id].contract.status == Funded && AllAside(run, id, i)
    ensures id in After(s, run).accounts
    ensures After(s, run).accounts[id].contract.status == Funded || Terminal(After(s, run).accounts[id].contract.status)
  {
    hide Ok, Exec;
    if run != [] {
      var before, last := run[..|run| - 1], run[|run| - 1];
      FundedRun(s, before, id, i);
      RunKeeps(s, before);
      if After(s, before).accounts[id].contract.status == Funded {
        FundedOrClosed(After(s, before), last, id, i);
      } else {
        StatusMachine.FinalStep(After(s, before), last, id);
      }
    }
  }

  /** A run on top of the extra release is the run without it, with the extra release on top. */
  lemma {:induction false} RunAside(o: State, id: nat, i: nat, fee: int, run: seq<Command>)
    requires Open(o, id, i, fee) && Ok(o) && Ok(WithRelease(o, id, i, fee)) && AllAside(run, id, i)
    requires AllSucceed(WithRelease(o, id, i, fee), run) && DepositsFit(o, run)
    requires id in After(WithRelease(o, id, i, fee), run).accounts
    requires After(WithRelease(o, id, i, fee), run).accounts[id].contract.status == Funded
    ensures AllSucceed(o, run) && Open(After(o, run), id, i, fee)
    ensures SameMilestone(o, After(o, run), id, i)
    ensures After(WithRelease(o, id, i, fee), run) == WithRelease(After(o, run), id, i, fee)
  {
    hide Ok, Open, WithRelease, Step;
    OpenParts(o, id, i, fee);
    if run != [] {
      var w := WithRelease(o, id, i, fee);
      var before, last := run[..|run| - 1], run[|run| - 1];
      OthersSame(o, id, i, fee, id);
      ReleasedStatus(o.accounts[id], i, fee);
      FundedRun(w, before, id, i);
      RunKeeps(w, before);
      RunKeeps(o, before);
      FundedBack(After(w, before), last, id);
      RunAside(o, id, i, fee, before);
      StepAside(After(o, before), id, i, fee, last);
    }
  }

  /** Release, any successful calls aside, roll back: if the contract is still funded and the larger balance without
      the payment has room for the deposits in between, every contract, milestone, pot and credit is as if the release had never been made; only its
      payment stays out of the balance and its approvals stay cleared. */
  lemma ReleaseCancelsOut(s: State, id: nat, caller: Address, i: nat, between: seq<Command>, admin: Address)
    requires Ok(s) && Release.Release(s, id, caller, i).Success?
    requires AllAside(between, id, i) && AllSucceed(Release.Release(s, id, caller, i).value, between)
    requires DepositsFit(s, between)
    requires Release.RollBack(After(Release.Release(s, id, caller, i).value, between), id, admin, i).Success?
    ensures var o := After(s, between);
            var u := Release.RollBack(After(Release.Release(s, id, caller, i).value, between), id, admin, i).value;
            && AllSucceed(s, between)
            && id in s.accounts && i < |s.accounts[id].milestones|
            && u == o.(balance := o.balance - (s.accounts[id].milestones[i].amount
                                               - StepsKeepInvariant.ReleaseFee(s, id, i)),
                       approvals := o.approvals - {Slot(id, i)})
  {
    hide *;
    var t := Release.Release(s, id, caller, i).value;
    ReleaseEffect(s, id, caller, i);
    RunKeeps(t, between);
    RollBackEffect(After(t, between), id, admin, i);
    ReleasedStays(s, id, caller, i);
    ReleasedFunded(s, id, caller, i, between);
    ReleaseAdds(s, id, caller, i);
    var fee := StepsKeepInvariant.ReleaseFee(s, id, i);
    RunAside(s, id, i, fee, between);
    RunKeeps(s, between);
    OpenParts(After(s, between), id, i, fee);
    RollBackRemoves(After(s, between), id, admin, i, fee);
    SameAmount(s, After(s, between), id, i);
  }

  lemma SameAmount(o: State, p: State, id: nat, i: nat)
    requires SameMilestone(o, p, id, i)
    ensures id in o.accounts && id in p.accounts
    ensures i < |o.accounts[id].milestones| && i < |p.accounts[id].milestones|
    ensures p.accounts[id].milestones[i].amount == o.accounts[id].milestones[i].amount
  {
  }

  /** If the contract ends up funded, the release had left it funded. */
  lemma ReleasedFunded(s: State, id: nat, caller: Address, i: nat, between: seq<Command>)
    requires Ok(s) && Release.Release(s, id, caller, i).Success?
    requires id in Release.Release(s, id, caller, i).value.accounts
    requires id in After(Release.Release(s, id, caller, i).value, between).accounts
    requires After(Release.Release(s, id, caller, i).value, between).accounts[id].contract.status == Funded
    ensures Release.Release(s, id, caller, i).value.accounts[id].contract.status == Funded
  {
    hide Ok, Release.Release, After;
    var t := Release.Release(s, id, caller, i).value;
    ReleaseEffect(s, id, caller, i);
    FundedOrClosed(s, Command.Release(id, caller, i), id, i);
    if Terminal(t.accounts[id].contract.status) {
      StatusMachine.FinalForever(t, between, id);
    }
  }
}
