/** Refunding a list of milestones is the same as refunding them one at a time, in any order. */
module RefundOrder {
  import opened Results
  import opened Types
  import opened AccountInvariant
  import opened AccountSums
  import opened AccountSteps
  import opened LedgerInvariant
  import opened Milestones
  import opened StepsKeepInvariant
  import Refund

  /** The reference: one refund call per index, stopping at the first that fails. */
  function OneByOne(s: State, id: nat, order: seq<nat>): Result<State, Error> {
    if order == [] then Success(s) else
    var before :- OneByOne(s, id, order[..|order| - 1]);
    Refund.Refund(before, id, [order[|order| - 1]])
  }

  /** What the refund calls return, added up. */
  function OneByOneTotal(s: State, id: nat, order: seq<nat>): int
    requires OneByOne(s, id, order).Success?
  {
    if order == [] then 0 else
    var rest, last := order[..|order| - 1], order[|order| - 1];
    OneByOneTotal(s, id, rest) + Refund.RefundTotal(OneByOne(s, id, rest).value, id, [last]).value
  }

  // ---- requests in closed form ----

  function AmountsAt(ms: seq<Milestone>, indices: seq<nat>): int {
    if indices == [] then 0 else
    var last := indices[|indices| - 1];
    AmountsAt(ms, indices[..|indices| - 1]) + if last < |ms| then ms[last].amount else 0
  }

  predicate AllRefundable(ms: seq<Milestone>, indices: seq<nat>, now: nat) {
    forall i :: i in indices ==> Refund.CheckRefundable(ms, i, now).Holds?
  }

  /** A request of distinct milestones passes exactly when each of them may be refunded; no sum overflows. */
  lemma {:induction false} RequestedExactly(ms: seq<Milestone>, indices: seq<nat>, now: nat)
    requires AllWellFormed(ms) && Sum(Amount, ms) <= I128_MAX && Refund.Distinct(indices)
    ensures Refund.Requested(ms, indices, now).Success? <==> AllRefundable(ms, indices, now)
    ensures Refund.Requested(ms, indices, now).Success? ==>
              Refund.Requested(ms, indices, now).value == AmountsAt(ms, indices)
  {
    if indices != [] {
      var rest, last := indices[..|indices| - 1], indices[|indices| - 1];
      assert indices == rest + [last] && last !in rest;
      RequestedExactly(ms, rest, now);
      if AllRefundable(ms, rest, now) && Refund.CheckRefundable(ms, last, now).Holds? {
        LastFits(ms, rest, last, now);
      }
    }
  }

  lemma LastFits(ms: seq<Milestone>, rest: seq<nat>, last: nat, now: nat)
    requires AllWellFormed(ms) && Refund.Distinct(rest) && Refund.Requested(ms, rest, now).Success?
    requires last !in rest && Refund.CheckRefundable(ms, last, now).Holds?
    ensures 0 <= Refund.Requested(ms, rest, now).value
    ensures Refund.Requested(ms, rest, now).value + ms[last].amount <= Sum(Amount, ms)
  {
    RequestedSums(ms, rest, now);
    RequestPositive(ms, rest, now);
    MarkAllStep(ms, rest, last);
    UnsettledCovered(Refund.MarkAll(ms, rest), last);
    SumBounds(ms);
  }

  /** When a refund goes through. */
  predicate Refundable(s: State, id: nat, indices: seq<nat>) {
    && RequireNotPaused(s.config).Holds?
    && indices != [] && Refund.Distinct(indices)
    && id in s.accounts && id !in s.finalizations
    && (s.accounts[id].contract.status == Funded || s.accounts[id].contract.status == Disputed)
    && AllRefundable(s.accounts[id].milestones, indices, s.clock.timestamp)
    && AmountsAt(s.accounts[id].milestones, indices) <= Value(Claim, s.accounts[id])
    && AmountsAt(s.accounts[id].milestones, indices) <= s.balance
  }

  lemma TotalExactly(s: State, id: nat, indices: seq<nat>)
    requires Ok(s)
    ensures Refund.RefundTotal(s, id, indices).Success? && Refund.RefundTotal(s, id, indices).value <= s.balance
            <==> Refundable(s, id, indices)
    ensures Refundable(s, id, indices) ==>
              Refund.RefundTotal(s, id, indices).value == AmountsAt(s.accounts[id].milestones, indices)
  {
    OkFacts(s);
    if id in s.accounts {
      AccountAt(s, id);
      BooksBounded(s.accounts[id]);
      if Refund.Distinct(indices) {
        RequestedExactly(s.accounts[id].milestones, indices, s.clock.timestamp);
      }
      if Refund.RefundTotal(s, id, indices).Success? {
        RefundShape(s, id, indices);
      }
    }
    hide Ok, AccountOk, AccountsOk, DisputesOk, SnapshotOk, AllRefundable, AmountsAt, Refund.Requested, Refund.Distinct, RequireNotPaused;
  }

  lemma RefundGoes(s: State, id: nat, indices: seq<nat>)
    requires Ok(s) && Refund.RefundTotal(s, id, indices).Success?
    requires Refund.RefundTotal(s, id, indices).value <= s.balance
    ensures id in s.accounts && Refund.Refund(s, id, indices).Success?
    ensures var total := Refund.RefundTotal(s, id, indices).value;
            && 0 < total
            && Refund.Refund(s, id, indices)
               == Finished(s.(balance := s.balance - total), id, AfterRefund(s.accounts[id], indices, total))
  {
    hide *;
    OkFacts(s);
    RefundShape(s, id, indices);
    AccountAt(s, id);
    var a, total := s.accounts[id], Refund.RefundTotal(s, id, indices).value;
    BooksBounded(a);
    ClaimIs(a);
    RefundPays(s, id, indices);
    AfterRefundOk(a, indices, s.clock.timestamp, total);
    BalanceOk(s, s.balance - total);
    RefundFinish(s.(balance := s.balance - total), id, a, indices, total);
    FinishedOk(s.(balance := s.balance - total), id, AfterRefund(a, indices, total));
  }

  /** A refund succeeds exactly when `Refundable`; it then pays the sum and finishes the marked account. */
  lemma RefundExactly(s: State, id: nat, indices: seq<nat>)
    requires Ok(s)
    ensures Refund.Refund(s, id, indices).Success? <==> Refundable(s, id, indices)
    ensures Refundable(s, id, indices) ==>
              var total := AmountsAt(s.accounts[id].milestones, indices);
              && 0 < total
              && Refund.Refund(s, id, indices)
                 == Finished(s.(balance := s.balance - total), id, AfterRefund(s.accounts[id], indices, total))
  {
    hide *;
    TotalExactly(s, id, indices);
    if Refund.Refund(s, id, indices).Success? {
      RefundPaid(s, id, indices);
    }
    if Refundable(s, id, indices) {
      RefundGoes(s, id, indices);
    }
  }

  lemma RefundPays(s: State, id: nat, indices: seq<nat>)
    requires Refund.RefundTotal(s, id, indices).Success? && id in s.accounts
    requires var a, total := s.accounts[id], Refund.RefundTotal(s, id, indices).value;
             0 <= total <= s.balance && 0 <= a.contract.refundedAmount + total <= I128_MAX
    ensures var total := Refund.RefundTotal(s, id, indices).value;
            Refund.Refund(s, id, indices)
            == Refund.Complete(s.(balance := s.balance - total), id, RefundedAccount(s.accounts[id], indices, total))
  {
    hide Refund.RefundTotal, Refund.Complete;
  }

  // ---- one more index ----

  /** Marks commute with appending: the last mark lands on an untouched milestone. */
  lemma AppendMark(ms: seq<Milestone>, rest: seq<nat>, last: nat)
    ensures Refund.MarkAll(Refund.MarkAll(ms, rest), [last]) == Refund.MarkAll(ms, rest + [last]) || last in rest
  {
  }

  lemma AppendAmount(ms: seq<Milestone>, rest: seq<nat>, last: nat)
    ensures AmountsAt(ms, rest + [last]) == AmountsAt(ms, rest) + AmountsAt(ms, [last])
    ensures AmountsAt(Refund.MarkAll(ms, rest), [last]) == AmountsAt(ms, [last])
  {
    assert (rest + [last])[..|rest|] == rest;
    assert [last][..0] == [];
  }

  /** After some marks, a milestone may be refunded exactly if it might before and was not among them. */
  lemma AppendCheck(ms: seq<Milestone>, rest: seq<nat>, last: nat, now: nat)
    ensures AllRefundable(Refund.MarkAll(ms, rest), [last], now) <==> AllRefundable(ms, [last], now) && last !in rest
    ensures AllRefundable(ms, rest + [last], now) <==> AllRefundable(ms, rest, now) && AllRefundable(ms, [last], now)
  {
    assert last in [last];
    forall i | i in rest + [last] ensures i in rest || i == last {}
    forall i | i in rest || i == last ensures i in rest + [last] {}
  }

  lemma AppendDistinct(rest: seq<nat>, last: nat)
    ensures Refund.Distinct(rest + [last]) <==> Refund.Distinct(rest) && last !in rest
    ensures Refund.Distinct([last])
  {
    if Refund.Distinct(rest + [last]) {
      forall k | 0 <= k < |rest| ensures rest[k] != last {
        assert (rest + [last])[k] != (rest + [last])[|rest|];
      }
      forall i, j | 0 <= i < j < |rest| ensures rest[i] != rest[j] {
        assert (rest + [last])[i] != (rest + [last])[j];
      }
    }
  }

  /** With a refundable milestone left, the account stays open. */
  lemma OpenAfter(a: Account, rest: seq<nat>, last: nat, now: nat, total: int)
    requires last !in rest && AllRefundable(a.milestones, [last], now)
    ensures AfterRefund(a, rest, total) == RefundedAccount(a, rest, total)
  {
    assert last in [last];
    assert !Settled(Refund.MarkAll(a.milestones, rest)[last]);
  }

  /** A refund that leaves its contract open has stored exactly the marked account. */
  lemma StillOpen(s: State, id: nat, rest: seq<nat>)
    requires Refund.Refund(s, id, rest).Success? && id in s.accounts
    requires var total := AmountsAt(s.accounts[id].milestones, rest);
             && Refund.Refund(s, id, rest)
                == Finished(s.(balance := s.balance - total), id, AfterRefund(s.accounts[id], rest, total))
             && AfterRefund(s.accounts[id], rest, total) == RefundedAccount(s.accounts[id], rest, total)
    requires s.accounts[id].contract.status == Funded || s.accounts[id].contract.status == Disputed
    ensures var total := AmountsAt(s.accounts[id].milestones, rest);
            Refund.Refund(s, id, rest).value
            == Store(s.(balance := s.balance - total), id, RefundedAccount(s.accounts[id], rest, total))
  {
    hide AmountsAt, AfterRefund, Refund.Refund, Refund.MarkAll;
  }

  /** The combined request, against the rest followed by the last index. */
  lemma AppendRefundable(s: State, id: nat, rest: seq<nat>, last: nat)
    requires rest != [] && Refundable(s, id, rest) && AllRefundable(s.accounts[id].milestones, [last], s.clock.timestamp)
    requires last !in rest
    ensures var v := AmountsAt(s.accounts[id].milestones, rest);
            var t := Store(s.(balance := s.balance - v), id, RefundedAccount(s.accounts[id], rest, v));
            Refundable(s, id, rest + [last]) <==> Refundable(t, id, [last])
  {
    var ms := s.accounts[id].milestones;
    AppendAmount(ms, rest, last);
    AppendCheck(ms, rest, last, s.clock.timestamp);
    AppendDistinct(rest, last);
    hide AmountsAt, AllRefundable, Refund.Distinct, Refund.MarkAll;
  }

  /** Both ways end in the same state. */
  lemma AppendFinish(s: State, id: nat, rest: seq<nat>, last: nat, v: int, w: int)
    requires id in s.accounts && last !in rest
    ensures var a := s.accounts[id];
            var t := Store(s.(balance := s.balance - v), id, RefundedAccount(a, rest, v));
            Finished(t.(balance := t.balance - w), id, AfterRefund(t.accounts[id], [last], w))
            == Finished(s.(balance := s.balance - (v + w)), id, AfterRefund(a, rest + [last], v + w))
  {
    hide *;
    var a := s.accounts[id];
    AppendAfter(a, rest, last, v, w);
    StoredAccount(s.(balance := s.balance - v), id, RefundedAccount(a, rest, v));
    FinishOver(s, id, RefundedAccount(a, rest, v), AfterRefund(a, rest + [last], v + w), v, w);
  }

  /** Finishing over an intermediate store is finishing directly. */
  lemma FinishOver(s: State, id: nat, a: Account, b: Account, v: int, w: int)
    ensures var t := Store(s.(balance := s.balance - v), id, a);
            Finished(t.(balance := t.balance - w), id, b) == Finished(s.(balance := s.balance - (v + w)), id, b)
  {
    assert s.accounts[id := a][id := b] == s.accounts[id := b];
  }

  lemma AppendAfter(a: Account, rest: seq<nat>, last: nat, v: int, w: int)
    requires last !in rest
    ensures AfterRefund(RefundedAccount(a, rest, v), [last], w) == AfterRefund(a, rest + [last], v + w)
  {
    AppendMark(a.milestones, rest, last);
    hide Refund.MarkAll, AllSettled, AllRefunded;
  }

  /** A refund of `rest + [last]` is a refund of `rest` followed by one of `last`: each side succeeds exactly when
      the other does, with the same state. */
  lemma Append(s: State, id: nat, rest: seq<nat>, last: nat)
    requires Ok(s) && rest != []
    ensures var both := Refund.Refund(s, id, rest + [last]);
            var first := Refund.Refund(s, id, rest);
            && (both.Success? <==> first.Success? && Refund.Refund(first.value, id, [last]).Success?)
            && (both.Success? ==> both == Refund.Refund(first.value, id, [last]))
  {
    hide *;
    RefundExactly(s, id, rest + [last]);
    RefundExactly(s, id, rest);
    AppendNeeds(s, id, rest, last);
    if Refund.Refund(s, id, rest).Success? {
      RefundEffect(s, id, rest);
      var t := Refund.Refund(s, id, rest).value;
      RefundExactly(t, id, [last]);
      RefundableParts(s, id, rest);
      if last !in rest && AllRefundable(s.accounts[id].milestones, [last], s.clock.timestamp) {
        var v, w := AmountsAt(s.accounts[id].milestones, rest), AmountsAt(s.accounts[id].milestones, [last]);
        OpenAfter(s.accounts[id], rest, last, s.clock.timestamp, v);
        StillOpen(s, id, rest);
        AppendRefundable(s, id, rest, last);
        AppendAmount(s.accounts[id].milestones, rest, last);
        AppendFinish(s, id, rest, last, v, w);
        StoredAccount(s.(balance := s.balance - v), id, RefundedAccount(s.accounts[id], rest, v));
        MarkedMilestones(s.accounts[id], rest, v);
      } else {
        LastRefused(s, id, rest, last);
      }
    }
  }

  lemma StoredAccount(s: State, id: nat, a: Account)
    ensures id in Store(s, id, a).accounts && Store(s, id, a).accounts[id] == a
    ensures Store(s, id, a).balance == s.balance
  {
  }

  lemma MarkedMilestones(a: Account, rest: seq<nat>, v: int)
    ensures RefundedAccount(a, rest, v).milestones == Refund.MarkAll(a.milestones, rest)
  {
  }

  lemma RefundableParts(s: State, id: nat, indices: seq<nat>)
    requires Refundable(s, id, indices)
    ensures id in s.accounts
    ensures s.accounts[id].contract.status == Funded || s.accounts[id].contract.status == Disputed
  {
  }

  /** A combined request needs its rest to be refundable, and its last index to be refundable and new. */
  lemma AppendNeeds(s: State, id: nat, rest: seq<nat>, last: nat)
    requires Ok(s) && rest != []
    ensures Refundable(s, id, rest + [last]) ==>
              Refundable(s, id, rest) && last !in rest
              && AllRefundable(s.accounts[id].milestones, [last], s.clock.timestamp)
  {
    if Refundable(s, id, rest + [last]) {
      AccountAt(s, id);
      var ms := s.accounts[id].milestones;
      AppendAmount(ms, rest, last);
      AppendCheck(ms, rest, last, s.clock.timestamp);
      AppendDistinct(rest, last);
      assert AmountsAt(ms, [last]) >= 0 by { SingleAmount(ms, last); }
      hide Ok, AccountOk, AmountsAt, AllRefundable, Refund.Distinct, Refund.MarkAll;
    }
  }

  lemma SingleAmount(ms: seq<Milestone>, last: nat)
    requires AllWellFormed(ms)
    ensures AmountsAt(ms, [last]) >= 0
  {
    assert [last][..0] == [];
  }

  /** A milestone that is not refundable, or was just refunded, stops the second call. */
  lemma LastRefused(s: State, id: nat, rest: seq<nat>, last: nat)
    requires Ok(s) && Refundable(s, id, rest) && Refund.Refund(s, id, rest).Success?
    requires last in rest || !AllRefundable(s.accounts[id].milestones, [last], s.clock.timestamp)
    ensures !Refundable(Refund.Refund(s, id, rest).value, id, [last])
  {
    RefundEffect(s, id, rest);
    var total := Refund.RefundTotal(s, id, rest).value;
    AppendCheck(s.accounts[id].milestones, rest, last, s.clock.timestamp);
    AfterMilestones(s.accounts[id], rest, total);
    hide Ok, AfterRefund, Refund.Refund, Refund.RefundTotal, Refund.MarkAll, AllRefundable, AmountsAt, Refund.Distinct;
  }

  lemma AfterMilestones(a: Account, indices: seq<nat>, total: int)
    ensures AfterRefund(a, indices, total).milestones == Refund.MarkAll(a.milestones, indices)
  {
  }

  // ---- any order ----

  lemma {:induction false} OneByOneIsRefund(s: State, id: nat, order: seq<nat>)
    requires Ok(s) && order != []
    ensures OneByOne(s, id, order).Success? <==> Refund.Refund(s, id, order).Success?
    ensures OneByOne(s, id, order).Success? ==> OneByOne(s, id, order) == Refund.Refund(s, id, order)
  {
    hide Ok, Refund.Refund;
    var rest, last := order[..|order| - 1], order[|order| - 1];
    assert order == rest + [last];
    if rest != [] {
      OneByOneIsRefund(s, id, rest);
      Append(s, id, rest, last);
    } else {
      assert OneByOne(s, id, rest) == Success(s);
    }
  }

  lemma SameMembers(a: seq<nat>, b: seq<nat>)
    requires multiset(a) == multiset(b)
    ensures forall x :: x in a <==> x in b
    ensures a == [] <==> b == []
  {
    forall x ensures x in a <==> x in b {
      assert x in a <==> x in multiset(a);
      assert x in b <==> x in multiset(b);
    }
    assert |multiset(a)| == |a| && |multiset(b)| == |b|;
  }

  lemma {:induction false} DistinctCounts(a: seq<nat>)
    ensures Refund.Distinct(a) <==> forall x :: multiset(a)[x] <= 1
  {
    if a != [] {
      var rest, last := a[..|a| - 1], a[|a| - 1];
      assert a == rest + [last];
      DistinctCounts(rest);
      AppendDistinct(rest, last);
      hide Refund.Distinct;
      assert multiset(a) == multiset(rest) + multiset{last};
      assert last in rest <==> multiset(rest)[last] >= 1;
      if forall x :: multiset(a)[x] <= 1 {
        assert multiset(a)[last] <= 1;
        forall x ensures multiset(rest)[x] <= 1 {
          assert multiset(a)[x] <= 1;
        }
      }
    }
  }

  lemma {:induction false} AmountsRemove(ms: seq<Milestone>, a: seq<nat>, i: nat)
    requires i < |a|
    ensures AmountsAt(ms, a) == AmountsAt(ms, a[..i] + a[i + 1..]) + AmountsAt(ms, [a[i]])
  {
    hide AmountsAt;
    var n := |a| - 1;
    AppendAmount(ms, a[..n], a[n]);
    assert a == a[..n] + [a[n]];
    if i == n {
      assert a[..i] + a[i + 1..] == a[..n];
    } else {
      AmountsRemove(ms, a[..n], i);
      var rest := a[..n][..i] + a[..n][i + 1..];
      AppendAmount(ms, rest, a[n]);
      assert a[..i] + a[i + 1..] == rest + [a[n]];
    }
  }

  lemma {:induction false} AmountsPermute(ms: seq<Milestone>, a: seq<nat>, b: seq<nat>)
    requires multiset(a) == multiset(b)
    ensures AmountsAt(ms, a) == AmountsAt(ms, b)
    decreases |a|
  {
    SameMembers(a, b);
    if a != [] {
      var n := |a| - 1;
      assert a == a[..n] + [a[n]];
      AppendAmount(ms, a[..n], a[n]);
      assert a[n] in b;
      var i :| 0 <= i < |b| && b[i] == a[n];
      AmountsRemove(ms, b, i);
      assert b == b[..i] + [b[i]] + b[i + 1..];
      assert multiset(a[..n]) == multiset(a) - multiset{a[n]};
      assert multiset(b[..i] + b[i + 1..]) == multiset(b) - multiset{b[i]};
      AmountsPermute(ms, a[..n], b[..i] + b[i + 1..]);
    }
  }

  /** The order of a request does not matter. */
  lemma Permute(s: State, id: nat, indices: seq<nat>, order: seq<nat>)
    requires Ok(s) && multiset(indices) == multiset(order)
    ensures Refund.Refund(s, id, indices).Success? <==> Refund.Refund(s, id, order).Success?
    ensures Refund.Refund(s, id, indices).Success? ==> Refund.Refund(s, id, indices) == Refund.Refund(s, id, order)
  {
    hide *;
    RefundExactly(s, id, indices);
    RefundExactly(s, id, order);
    PermuteRefundable(s, id, indices, order);
    if id in s.accounts {
      var ms := s.accounts[id].milestones;
      AmountsPermute(ms, indices, order);
      PermuteAfter(s.accounts[id], indices, order, AmountsAt(ms, indices));
    }
    RefundableHasAccount(s, id, indices);
  }

  lemma RefundableHasAccount(s: State, id: nat, indices: seq<nat>)
    ensures Refundable(s, id, indices) ==> id in s.accounts
  {
  }

  lemma PermuteRefundable(s: State, id: nat, indices: seq<nat>, order: seq<nat>)
    requires multiset(indices) == multiset(order)
    ensures Refundable(s, id, indices) <==> Refundable(s, id, order)
  {
    SameMembers(indices, order);
    DistinctCounts(indices);
    DistinctCounts(order);
    if id in s.accounts {
      AmountsPermute(s.accounts[id].milestones, indices, order);
    }
    hide Refund.Distinct, AmountsAt, Refund.CheckRefundable;
  }

  lemma PermuteAfter(a: Account, indices: seq<nat>, order: seq<nat>, total: int)
    requires multiset(indices) == multiset(order)
    ensures AfterRefund(a, indices, total) == AfterRefund(a, order, total)
  {
    SameMembers(indices, order);
    assert Refund.MarkAll(a.milestones, indices) == Refund.MarkAll(a.milestones, order);
    hide Refund.MarkAll, AllSettled, AllRefunded;
  }

  /** The value a list refund returns is that of all but its last entry plus that of the last. */
  lemma TotalsAdd(s: State, id: nat, rest: seq<nat>, last: nat)
    requires Ok(s) && rest != [] && Refund.Refund(s, id, rest + [last]).Success?
    ensures var t := Refund.Refund(s, id, rest);
            && t.Success?
            && Refund.RefundTotal(s, id, rest).Success? && Refund.RefundTotal(t.value, id, [last]).Success?
            && Refund.RefundTotal(s, id, rest + [last])
               == Success(Refund.RefundTotal(s, id, rest).value + Refund.RefundTotal(t.value, id, [last]).value)
  {
    hide *;
    Append(s, id, rest, last);
    var t := Refund.Refund(s, id, rest).value;
    RefundEffect(s, id, rest);
    RefundEffect(s, id, rest + [last]);
    RefundEffect(t, id, [last]);
    var total := Refund.RefundTotal(s, id, rest).value;
    StoredAccount(s.(balance := s.balance - total, credits := t.credits), id,
                  AfterRefund(s.accounts[id], rest, total));
    TotalsOf(s, id, rest, last, t);
  }

  lemma TotalsOf(s: State, id: nat, rest: seq<nat>, last: nat, t: State)
    requires Ok(s) && Ok(t) && id in s.accounts && id in t.accounts
    requires Refund.Refund(s, id, rest).Success? && Refund.Refund(s, id, rest + [last]).Success?
    requires Refund.Refund(t, id, [last]).Success?
    requires t.accounts[id] == AfterRefund(s.accounts[id], rest, Refund.RefundTotal(s, id, rest).value)
    requires Refund.RefundTotal(s, id, rest).Success? && Refund.RefundTotal(t, id, [last]).Success?
    ensures Refund.RefundTotal(s, id, rest + [last])
         == Success(Refund.RefundTotal(s, id, rest).value + Refund.RefundTotal(t, id, [last]).value)
  {
    hide *;
    RefundExactly(s, id, rest);
    RefundExactly(s, id, rest + [last]);
    RefundExactly(t, id, [last]);
    TotalExactly(s, id, rest);
    TotalExactly(s, id, rest + [last]);
    TotalExactly(t, id, [last]);
    AfterMilestones(s.accounts[id], rest, Refund.RefundTotal(s, id, rest).value);
    AppendAmount(s.accounts[id].milestones, rest, last);
  }

  /** The single calls, in the order of the list, return the value of the list refund in total. */
  lemma {:induction false} SingleTotals(s: State, id: nat, order: seq<nat>)
    requires Ok(s) && order != [] && OneByOne(s, id, order).Success?
    ensures Refund.RefundTotal(s, id, order) == Success(OneByOneTotal(s, id, order))
  {
    hide Ok, Refund.Refund, Refund.RefundTotal;
    OneByOneIsRefund(s, id, order);
    var rest, last := order[..|order| - 1], order[|order| - 1];
    assert order == rest + [last];
    RefundPaid(s, id, order);
    if rest != [] {
      OneByOneIsRefund(s, id, rest);
      SingleTotals(s, id, rest);
      TotalsAdd(s, id, rest, last);
    } else {
      assert OneByOne(s, id, rest) == Success(s) && OneByOneTotal(s, id, rest) == 0;
    }
  }

  lemma PermuteTotal(s: State, id: nat, indices: seq<nat>, order: seq<nat>)
    requires Ok(s) && multiset(indices) == multiset(order)
    requires Refund.Refund(s, id, indices).Success? && Refund.Refund(s, id, order).Success?
    ensures Refund.RefundTotal(s, id, indices) == Refund.RefundTotal(s, id, order)
    ensures Refund.RefundTotal(s, id, indices).Success?
  {
    hide *;
    RefundPaid(s, id, indices);
    RefundPaid(s, id, order);
    RefundExactly(s, id, indices);
    RefundExactly(s, id, order);
    TotalExactly(s, id, indices);
    TotalExactly(s, id, order);
    AmountsPermute(s.accounts[id].milestones, indices, order);
  }

  /** Refunding a list of milestones goes through exactly when refunding them one call at a time, in any order,
      does; both leave the same state (contract, milestones, balance, credits and all), and the single calls return
      the value of the list refund in total. */
  lemma AnyOrder(s: State, id: nat, indices: seq<nat>, order: seq<nat>)
    requires Ok(s) && indices != [] && multiset(indices) == multiset(order)
    ensures Refund.Refund(s, id, indices).Success? <==> OneByOne(s, id, order).Success?
    ensures Refund.Refund(s, id, indices).Success? ==> Refund.Refund(s, id, indices) == OneByOne(s, id, order)
    ensures Refund.Refund(s, id, indices).Success? ==>
              Refund.RefundTotal(s, id, indices) == Success(OneByOneTotal(s, id, order))
  {
    hide *;
    SameMembers(indices, order);
    Permute(s, id, indices, order);
    OneByOneIsRefund(s, id, order);
    if Refund.Refund(s, id, indices).Success? {
      PermuteTotal(s, id, indices, order);
      SingleTotals(s, id, order);
    }
  }
}
