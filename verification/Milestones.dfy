/** Sums over a contract's milestone vector. */
module Milestones {
  import opened Results
  import opened Types

  /** The quantities of a milestone that the contract's totals add up. */
  datatype Tally = Amount | NetReleased | GrossReleased | Refund | Fee

  function Worth(tally: Tally, m: Milestone): int {
    match tally
    case Amount => m.amount
    case NetReleased => if m.released then m.amount - m.protocolFee else 0
    case GrossReleased => if m.released then m.amount else 0
    case Refund => if m.refunded then m.amount else 0
    case Fee => if m.released then m.protocolFee else 0
  }

  function Sum(tally: Tally, ms: seq<Milestone>): int {
    if ms == [] then 0 else Sum(tally, ms[..|ms| - 1]) + Worth(tally, ms[|ms| - 1])
  }

  predicate Settled(m: Milestone) {
    m.released || m.refunded
  }

  predicate AllSettled(ms: seq<Milestone>) {
    forall k :: 0 <= k < |ms| ==> Settled(ms[k])
  }

  predicate NoneReleased(ms: seq<Milestone>) {
    forall k :: 0 <= k < |ms| ==> !ms[k].released
  }

  predicate AllRefunded(ms: seq<Milestone>) {
    forall k :: 0 <= k < |ms| ==> ms[k].refunded
  }

  /** Gross amount of the settled milestones. */
  function SettledGross(ms: seq<Milestone>): int {
    Sum(GrossReleased, ms) + Sum(Refund, ms)
  }

  /** A milestone record is internally consistent. */
  predicate WellFormed(m: Milestone) {
    && m.amount > 0
    && !(m.released && m.refunded)
    && (m.released ==> 0 <= m.protocolFee <= m.amount && m.fundedAmount == m.amount)
    && (!m.released ==> m.protocolFee == 0 && m.fundedAmount == 0)
    && m.refundedAmount == (if m.refunded then m.amount else 0)
  }

  predicate AllWellFormed(ms: seq<Milestone>) {
    forall k :: 0 <= k < |ms| ==> WellFormed(ms[k])
  }

  /** Replacing one milestone moves every tally by exactly the difference of the two. */
  lemma {:induction false} SumUpdate(tally: Tally, ms: seq<Milestone>, i: nat, m: Milestone)
    requires i < |ms|
    ensures Sum(tally, ms[i := m]) == Sum(tally, ms) - Worth(tally, ms[i]) + Worth(tally, m)
  {
    var n := |ms| - 1;
    if i == n {
      assert ms[i := m][..n] == ms[..n];
    } else {
      assert ms[i := m][..n] == ms[..n][i := m];
      SumUpdate(tally, ms[..n], i, m);
    }
  }

  lemma SumsUpdate(ms: seq<Milestone>, i: nat, m: Milestone)
    requires i < |ms|
    ensures forall t :: Sum(t, ms[i := m]) == Sum(t, ms) - Worth(t, ms[i]) + Worth(t, m)
  {
    forall t ensures Sum(t, ms[i := m]) == Sum(t, ms) - Worth(t, ms[i]) + Worth(t, m) {
      SumUpdate(t, ms, i, m);
    }
  }

  /** The tallies of a well-formed vector: gross splits into net and fee, and nothing is counted twice. */
  lemma {:induction false} SumBounds(ms: seq<Milestone>)
    requires AllWellFormed(ms)
    ensures Sum(GrossReleased, ms) == Sum(NetReleased, ms) + Sum(Fee, ms)
    ensures 0 <= Sum(NetReleased, ms) && 0 <= Sum(Fee, ms) && 0 <= Sum(Refund, ms)
    ensures SettledGross(ms) <= Sum(Amount, ms)
    ensures AllSettled(ms) <==> SettledGross(ms) == Sum(Amount, ms)
    ensures NoneReleased(ms) <==> Sum(GrossReleased, ms) == 0
    ensures NoneReleased(ms) ==> Sum(NetReleased, ms) == 0 && Sum(Fee, ms) == 0
    ensures AllRefunded(ms) <==> Sum(Refund, ms) == Sum(Amount, ms)
    ensures ms != [] ==> Sum(Amount, ms) > 0
  {
    if ms != [] {
      var n := |ms| - 1;
      SumBounds(ms[..n]);
      assert ms == ms[..n] + [ms[n]];
    }
  }

  /** What remains after settling: an unsettled milestone is covered by the unsettled total. */
  lemma UnsettledCovered(ms: seq<Milestone>, i: nat)
    requires AllWellFormed(ms) && i < |ms| && !Settled(ms[i])
    ensures ms[i].amount <= Sum(Amount, ms) - SettledGross(ms)
  {
    var done := ms[i].(refunded := true, refundedAmount := ms[i].amount);
    SumsUpdate(ms, i, done);
    SumBounds(ms[i := done]);
  }

  /** A released milestone is part of the released totals. */
  lemma ReleasedCovered(ms: seq<Milestone>, i: nat)
    requires AllWellFormed(ms) && i < |ms| && ms[i].released
    ensures ms[i].amount - ms[i].protocolFee <= Sum(NetReleased, ms)
    ensures ms[i].protocolFee <= Sum(Fee, ms)
  {
    var undone := ms[i].(released := false, fundedAmount := 0, protocolFee := 0);
    SumsUpdate(ms, i, undone);
    SumBounds(ms[i := undone]);
  }

  lemma RefundedCovered(ms: seq<Milestone>, i: nat)
    requires AllWellFormed(ms) && i < |ms| && ms[i].refunded
    ensures ms[i].amount <= Sum(Refund, ms)
  {
    var undone := ms[i].(refunded := false, refundedAmount := 0);
    SumsUpdate(ms, i, undone);
    SumBounds(ms[i := undone]);
  }

  /** The checked running total of the amounts, as `accumulate_amounts` folds it. */
  function Accumulated(ms: seq<Milestone>): Result<int, Error> {
    if ms == [] then Success(0) else
    var total :- Accumulated(ms[..|ms| - 1]);
    Checked(total + ms[|ms| - 1].amount, PotentialOverflow)
  }

  /** For positive amounts the fold fails exactly when the total does not fit an i128. */
  lemma {:induction false} AccumulatedExact(ms: seq<Milestone>)
    requires AllWellFormed(ms)
    ensures Accumulated(ms)
         == if Sum(Amount, ms) <= I128_MAX then Success(Sum(Amount, ms)) else Failure(PotentialOverflow)
  {
    if ms != [] {
      AccumulatedExact(ms[..|ms| - 1]);
      SumBounds(ms[..|ms| - 1]);
    }
  }

  method AccumulateAmounts(ms: seq<Milestone>) returns (r: Result<int, Error>)
    ensures r == Accumulated(ms)
  {
    var total := 0;
    for i := 0 to |ms|
      invariant Accumulated(ms[..i]) == Success(total)
    {
      assert ms[..i + 1][..i] == ms[..i];
      if !InRange(total + ms[i].amount) {
        FailedPrefix(ms, i + 1);
        return Failure(PotentialOverflow);
      }
      total := total + ms[i].amount;
    }
    assert ms[..|ms|] == ms;
    return Success(total);
  }

  lemma {:induction false} FailedPrefix(ms: seq<Milestone>, n: nat)
    requires n <= |ms| && Accumulated(ms[..n]).Failure?
    ensures Accumulated(ms) == Failure(PotentialOverflow)
    decreases |ms| - n
  {
    if n == |ms| {
      assert ms[..n] == ms;
      FailureIsOverflow(ms);
    } else {
      assert ms[..n + 1][..n] == ms[..n];
      FailedPrefix(ms, n + 1);
    }
  }

  lemma {:induction false} FailureIsOverflow(ms: seq<Milestone>)
    requires Accumulated(ms).Failure?
    ensures Accumulated(ms).error == PotentialOverflow
  {
    if Accumulated(ms[..|ms| - 1]).Failure? {
      FailureIsOverflow(ms[..|ms| - 1]);
    }
  }
}
