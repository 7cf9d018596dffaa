/** Validation and checked accumulation of amounts (`amount_validation.rs`). */
module Amounts {
  import opened Results
  import opened Types

  function Sum(amounts: seq<int>): int {
    if amounts == [] then 0 else Sum(amounts[..|amounts| - 1]) + amounts[|amounts| - 1]
  }

  predicate AllPositive(amounts: seq<int>) {
    forall k :: 0 <= k < |amounts| ==> amounts[k] > 0
  }

  /** What validation promises: the total, or the first applicable error. */
  function ValidatedTotal(amounts: seq<int>, maxTotal: int): Result<int, Error> {
    if !AllPositive(amounts) then Failure(AmountMustBePositive)
    else if Sum(amounts) > I128_MAX then Failure(PotentialOverflow)
    else if Sum(amounts) > maxTotal then Failure(TotalCapExceeded)
    else Success(Sum(amounts))
  }

  /** Positive amounts grow the running total, so a prefix that overflows stays overflowed. */
  lemma {:induction false} PrefixSum(amounts: seq<int>, n: nat)
    requires AllPositive(amounts) && n <= |amounts|
    ensures 0 <= Sum(amounts[..n]) <= Sum(amounts)
    decreases |amounts| - n, |amounts|
  {
    if n < |amounts| {
      PrefixSum(amounts, n + 1);
      assert amounts[..n + 1][..n] == amounts[..n];
      PrefixSum(amounts[..n], n);
      assert amounts[..n][..n] == amounts[..n];
    } else {
      assert amounts[..n] == amounts;
      if n > 0 {
        PrefixSum(amounts[..n - 1], n - 1);
        assert amounts[..n - 1][..n - 1] == amounts[..n - 1];
      }
    }
  }

  /** Entry `k` is the first that fails: all before it are positive with a total in range, and it is either not
      positive or carries the total out of range. */
  predicate FirstFailure(amounts: seq<int>, k: nat, error: Error)
    requires k < |amounts|
  {
    && AllPositive(amounts[..k]) && Sum(amounts[..k]) <= I128_MAX
    && if amounts[k] <= 0 then error == AmountMustBePositive
       else Sum(amounts[..k]) + amounts[k] > I128_MAX && error == PotentialOverflow
  }

  method ValidateAmountArray(amounts: seq<int>) returns (r: Result<int, Error>)
    ensures r.Success? <==> AllPositive(amounts) && Sum(amounts) <= I128_MAX
    ensures r.Success? ==> r.value == Sum(amounts)
    ensures r.Failure? ==> exists k: nat :: k < |amounts| && FirstFailure(amounts, k, r.error)
    ensures AllPositive(amounts) && r.Failure? ==> r.error == PotentialOverflow
  {
    var total := 0;
    for i := 0 to |amounts|
      invariant AllPositive(amounts[..i])
      invariant total == Sum(amounts[..i]) && 0 <= total <= I128_MAX
    {
      if amounts[i] <= 0 {
        assert FirstFailure(amounts, i, AmountMustBePositive);
        return Failure(AmountMustBePositive);
      }
      assert amounts[..i + 1][..i] == amounts[..i];
      if total + amounts[i] > I128_MAX {
        if AllPositive(amounts) {
          PrefixSum(amounts, i + 1);
        }
        assert FirstFailure(amounts, i, PotentialOverflow);
        return Failure(PotentialOverflow);
      }
      total := total + amounts[i];
    }
    assert amounts[..|amounts|] == amounts;
    return Success(total);
  }

  /** At most one entry fails first, so the error is determined. */
  lemma FirstFailureUnique(amounts: seq<int>, j: nat, k: nat, e: Error, f: Error)
    requires j < |amounts| && k < |amounts| && FirstFailure(amounts, j, e) && FirstFailure(amounts, k, f)
    ensures j == k && e == f
  {
    if j < k {
      FailureStops(amounts, j, k, e);
    } else if k < j {
      FailureStops(amounts, k, j, f);
    }
  }

  lemma FailureStops(amounts: seq<int>, j: nat, k: nat, e: Error)
    requires j < k < |amounts| && FirstFailure(amounts, j, e)
    ensures !(AllPositive(amounts[..k]) && Sum(amounts[..k]) <= I128_MAX)
  {
    if AllPositive(amounts[..k]) {
      assert amounts[..k][j] == amounts[j];
      PrefixSum(amounts[..k], j + 1);
      assert amounts[..k][..j + 1] == amounts[..j + 1] && amounts[..j + 1][..j] == amounts[..j];
    }
  }

  method ValidateMilestoneAmounts(amounts: seq<int>, maxTotal: int) returns (r: Result<int, Error>)
    ensures r == ValidatedTotal(amounts, maxTotal)
  {
    for i := 0 to |amounts|
      invariant AllPositive(amounts[..i])
    {
      if amounts[i] <= 0 {
        return Failure(AmountMustBePositive);
      }
    }
    assert amounts[..|amounts|] == amounts;
    var total := ValidateAmountArray(amounts);
    if total.Failure? {
      return total;
    }
    if total.value > maxTotal {
      return Failure(TotalCapExceeded);
    }
    return total;
  }

  /** Balance still escrowed, or `AccountingInvariantViolated` when a subtraction leaves i128. */
  function CheckedAvailable(funded: int, released: int, refunded: int, error: Error): Result<int, Error> {
    var balance :- Checked(funded - released, error);
    Checked(balance - refunded, error)
  }
}
