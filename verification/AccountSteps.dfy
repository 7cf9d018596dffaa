/** How the money-moving steps change one account, and that they keep it consistent. */
module AccountSteps {
  import opened Results
  import opened Types
  import opened Milestones
  import opened AccountInvariant
  import opened AccountSums
  import Amounts
  import Creation
  import Fees
  import Release
  import Refund
  import Dispute
  import FeeRounding

  // ---- creation ----

  lemma {:induction false} FreshSums(amounts: seq<int>)
    ensures Sum(Amount, Creation.FreshMilestones(amounts)) == Amounts.Sum(amounts)
    ensures Sum(GrossReleased, Creation.FreshMilestones(amounts)) == 0
    ensures Sum(NetReleased, Creation.FreshMilestones(amounts)) == 0
    ensures Sum(Refund, Creation.FreshMilestones(amounts)) == 0
  {
    if amounts != [] {
      FreshSums(amounts[..|amounts| - 1]);
      var ms := Creation.FreshMilestones(amounts);
      assert ms[..|ms| - 1] == Creation.FreshMilestones(amounts[..|amounts| - 1]);
    }
  }

  // ---- release ----

  /** The milestone vector and contract of `a` after releasing milestone `i` with the given fee. */
  function Released(a: Account, i: nat, fee: int): Account
    requires i < |a.milestones|
  {
    var m := a.milestones[i];
    Account(a.contract.(releasedAmount := a.contract.releasedAmount + (m.amount - fee)),
            a.milestones[i := Release.MarkReleased(m, fee)])
  }

  lemma ReleasedSums(a: Account, i: nat, fee: int)
    requires AccountOk(a) && a.contract.status == Funded
    requires i < |a.milestones| && !Settled(a.milestones[i]) && 0 <= fee <= a.milestones[i].amount
    ensures var b := Released(a, i, fee);
            && AllWellFormed(b.milestones)
            && Sum(Amount, b.milestones) == Sum(Amount, a.milestones)
            && TotalsMatch(b)
            && SettledGross(b.milestones) == SettledGross(a.milestones) + a.milestones[i].amount
            && Sum(Fee, b.milestones) == Sum(Fee, a.milestones) + fee
  {
    SumsUpdate(a.milestones, i, Release.MarkReleased(a.milestones[i], fee));
  }

  lemma ReleaseKeeps(a: Account, i: nat, fee: int)
    requires AccountOk(a) && a.contract.status == Funded
    requires i < |a.milestones| && !Settled(a.milestones[i]) && 0 <= fee <= a.milestones[i].amount
    ensures var b := Released(a, i, fee);
            && (!AllSettled(b.milestones) ==> AccountOk(b))
            && (AllSettled(b.milestones) ==> AccountOk(b.(contract := b.contract.(status := Completed))))
  {
    var b := Released(a, i, fee);
    ReleasedSums(a, i, fee);
    SumBounds(b.milestones);
    LiveBooks(a);
    if AllSettled(b.milestones) {
      assert b.milestones[i].released;
      ReleasedMakesGross(b.milestones, i);
    }
  }

  lemma ReleasedMakesGross(ms: seq<Milestone>, i: nat)
    requires AllWellFormed(ms) && i < |ms| && ms[i].released
    ensures Sum(Refund, ms) < Sum(Amount, ms)
  {
    SumBounds(ms);
    assert !AllRefunded(ms);
  }

  // ---- rollback ----

  lemma RollBackReleaseKeeps(a: Account, i: nat)
    requires AccountOk(a) && a.contract.status == Funded
    requires i < |a.milestones| && a.milestones[i].released
    ensures Release.RollBackRelease(a, i).Success?
    ensures var b := Release.RollBackRelease(a, i).value;
            && AccountOk(b)
            && Value(Claim, b) == Value(Claim, a) + (a.milestones[i].amount - a.milestones[i].protocolFee)
            && Value(Reserve, b) == Value(Reserve, a) + a.milestones[i].amount
  {
    var m := a.milestones[i];
    var undone := m.(released := false, fundedAmount := 0, protocolFee := 0);
    LiveBooks(a);
    ReleasedCovered(a.milestones, i);
    SumsUpdate(a.milestones, i, undone);
    SumBounds(a.milestones[i := undone]);
    SumBounds(a.milestones);
  }

  lemma RollBackRefundKeeps(a: Account, i: nat)
    requires AccountOk(a) && a.contract.status == Funded
    requires i < |a.milestones| && a.milestones[i].refunded
    ensures Release.RollBackRefund(a, i).Success?
    ensures var b := Release.RollBackRefund(a, i).value;
            && AccountOk(b)
            && Value(Claim, b) == Value(Claim, a) + a.milestones[i].amount
            && Value(Reserve, b) == Value(Reserve, a) + a.milestones[i].amount
  {
    var undone := a.milestones[i].(refunded := false, refundedAmount := 0);
    LiveBooks(a);
    RefundedCovered(a.milestones, i);
    SumsUpdate(a.milestones, i, undone);
    SumBounds(a.milestones[i := undone]);
    SumBounds(a.milestones);
  }

  // ---- refund ----

  /** Marking one more index changes that milestone only. */
  lemma MarkAllStep(ms: seq<Milestone>, rest: seq<nat>, last: nat)
    requires last !in rest && last < |ms|
    ensures Refund.MarkAll(ms, rest + [last]) == Refund.MarkAll(ms, rest)[last := Refund.MarkRefunded(ms[last])]
    ensures Refund.MarkAll(ms, rest)[last] == ms[last]
  {
  }

  /** A request that passes its checks names unsettled milestones. */
  lemma {:induction false} RequestedUnsettled(ms: seq<Milestone>, indices: seq<nat>, now: nat)
    requires Refund.Requested(ms, indices, now).Success?
    ensures forall k :: 0 <= k < |indices| ==> indices[k] < |ms| && !Settled(ms[indices[k]])
  {
    if indices != [] {
      RequestedUnsettled(ms, indices[..|indices| - 1], now);
    }
  }

  /** The requested total is exactly what the marks add to the refunded tally; no other tally moves. */
  lemma {:induction false} RequestedSum(tally: Tally, ms: seq<Milestone>, indices: seq<nat>, now: nat)
    requires Refund.Distinct(indices) && Refund.Requested(ms, indices, now).Success?
    ensures Sum(tally, Refund.MarkAll(ms, indices))
         == Sum(tally, ms) + if tally == Tally.Refund then Refund.Requested(ms, indices, now).value else 0
  {
    if indices == [] {
      assert Refund.MarkAll(ms, indices) == ms;
    } else {
      var rest, last := indices[..|indices| - 1], indices[|indices| - 1];
      RequestedSum(tally, ms, rest, now);
      RequestedUnsettled(ms, indices, now);
      assert indices == rest + [last] && last !in rest;
      MarkAllStep(ms, rest, last);
      SumUpdate(tally, Refund.MarkAll(ms, rest), last, Refund.MarkRefunded(ms[last]));
    }
  }

  lemma RequestedSums(ms: seq<Milestone>, indices: seq<nat>, now: nat)
    requires AllWellFormed(ms) && Refund.Distinct(indices)
    requires Refund.Requested(ms, indices, now).Success?
    ensures var after := Refund.MarkAll(ms, indices);
            && AllWellFormed(after)
            && Sum(Amount, after) == Sum(Amount, ms)
            && Sum(GrossReleased, after) == Sum(GrossReleased, ms)
            && Sum(NetReleased, after) == Sum(NetReleased, ms)
            && Sum(Fee, after) == Sum(Fee, ms)
            && Sum(Tally.Refund, after) == Sum(Tally.Refund, ms) + Refund.Requested(ms, indices, now).value
  {
    RequestedUnsettled(ms, indices, now);
    RequestedSum(Amount, ms, indices, now);
    RequestedSum(GrossReleased, ms, indices, now);
    RequestedSum(NetReleased, ms, indices, now);
    RequestedSum(Fee, ms, indices, now);
    RequestedSum(Tally.Refund, ms, indices, now);
  }

  function RefundedAccount(a: Account, indices: seq<nat>, total: int): Account {
    Account(a.contract.(refundedAmount := a.contract.refundedAmount + total),
            Refund.MarkAll(a.milestones, indices))
  }

  /** A refund that fits the available balance fits the unassigned reserve as well. */
  lemma RefundKeeps(a: Account, indices: seq<nat>, now: nat)
    requires AccountOk(a) && (a.contract.status == Funded || a.contract.status == Disputed)
    requires indices != [] && Refund.Distinct(indices)
    requires Refund.Requested(a.milestones, indices, now).Success?
    requires Refund.Requested(a.milestones, indices, now).value <= Value(Claim, a)
    ensures var total := Refund.Requested(a.milestones, indices, now).value;
            var b := RefundedAccount(a, indices, total);
            && 0 < total <= Value(Reserve, a)
            && Value(Claim, b) == Value(Claim, a) - total
            && SettledGross(b.milestones) == SettledGross(a.milestones) + total
            && (!AllSettled(b.milestones) ==> AccountOk(b))
            && (AllSettled(b.milestones) && AllRefunded(b.milestones)
                ==> AccountOk(b.(contract := b.contract.(status := Types.Refunded))))
            && (AllSettled(b.milestones) && !AllRefunded(b.milestones)
                ==> AccountOk(b.(contract := b.contract.(status := Completed))))
            && (AllSettled(b.milestones) ==> b.contract.fundedAmount == SettledGross(b.milestones))
  {
    var total := Refund.Requested(a.milestones, indices, now).value;
    var b := RefundedAccount(a, indices, total);
    RequestedSums(a.milestones, indices, now);
    SumBounds(a.milestones);
    SumBounds(b.milestones);
    LiveBooks(a);
    RequestPositive(a.milestones, indices, now);
  }

  lemma {:induction false} RequestPositive(ms: seq<Milestone>, indices: seq<nat>, now: nat)
    requires AllWellFormed(ms) && Refund.Requested(ms, indices, now).Success?
    ensures Refund.Requested(ms, indices, now).value >= 0
    ensures indices != [] ==> Refund.Requested(ms, indices, now).value > 0
  {
    if indices != [] {
      RequestPositive(ms, indices[..|indices| - 1], now);
    }
  }

  // ---- disputes ----

  /** A successful resolution splits exactly the available balance into two non-negative legs. */
  lemma PayoutsConserve(c: Contract, resolution: Resolution)
    requires 0 <= c.fundedAmount - c.releasedAmount - c.refundedAmount
    requires Dispute.Payouts(c, resolution).Success?
    ensures var legs := Dispute.Payouts(c, resolution).value;
            legs.0 >= 0 && legs.1 >= 0
            && legs.0 + legs.1 == c.fundedAmount - c.releasedAmount - c.refundedAmount
  {
  }

  function Resolved(a: Account, client: int, freelancer: int): Account {
    var c := a.contract.(refundedAmount := a.contract.refundedAmount + client,
                         releasedAmount := a.contract.releasedAmount + freelancer);
    a.(contract := c.(status := Dispute.FinalStatus(c)))
  }

  lemma ResolveKeeps(a: Account, client: int, freelancer: int)
    requires AccountOk(a) && a.contract.status == Disputed
    requires client >= 0 && freelancer >= 0 && client + freelancer == Value(Claim, a)
    ensures AccountOk(Resolved(a, client, freelancer))
    ensures Value(Claim, Resolved(a, client, freelancer)) == 0
  {
    BooksBounded(a);
  }
}
