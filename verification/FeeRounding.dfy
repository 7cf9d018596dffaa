/** Arithmetic of protocol fees: bounds, net payouts and the cost of rounding per milestone. */
module FeeRounding {
  import opened Results
  import opened Types
  import Fees

  /** The fee in exact arithmetic. */
  function ExactFee(amount: int, feeBps: nat): int {
    if feeBps == 0 then 0 else TruncatedDiv(amount * feeBps, BPS_DENOMINATOR)
  }

  lemma ProtocolFeeExact(amount: int, feeBps: nat)
    ensures Fees.ProtocolFee(amount, feeBps)
         == if feeBps == 0 || InRange(amount * feeBps) then Success(ExactFee(amount, feeBps))
            else Failure(PotentialOverflow)
  {
  }

  /** At most 100 percent never exceeds the amount; below it a positive amount always nets at least 1. */
  lemma FeeBounds(amount: int, feeBps: nat)
    requires amount >= 0 && feeBps <= BPS_DENOMINATOR
    ensures 0 <= ExactFee(amount, feeBps) <= amount
    ensures amount > 0 ==> (ExactFee(amount, feeBps) < amount <==> feeBps < BPS_DENOMINATOR)
  {
    if feeBps > 0 {
      var p := amount * feeBps;
      assert 0 <= p <= amount * BPS_DENOMINATOR;
      if feeBps < BPS_DENOMINATOR && amount > 0 {
        assert p <= amount * (BPS_DENOMINATOR - 1);
      }
    }
  }

  function Total(amounts: seq<nat>): nat {
    if amounts == [] then 0 else Total(amounts[..|amounts| - 1]) + amounts[|amounts| - 1]
  }

  function TotalFee(amounts: seq<nat>, feeBps: nat): int {
    if amounts == [] then 0
    else TotalFee(amounts[..|amounts| - 1], feeBps) + ExactFee(amounts[|amounts| - 1], feeBps)
  }

  /** Fee remainders in ten-thousandths of a stroop, milestone by milestone. */
  lemma FeeRemainder(amount: nat, feeBps: nat)
    ensures 0 <= amount * feeBps - BPS_DENOMINATOR * ExactFee(amount, feeBps) <= BPS_DENOMINATOR - 1
  {
  }

  lemma {:induction false} FeesRemainder(amounts: seq<nat>, feeBps: nat)
    ensures 0 <= Total(amounts) * feeBps - BPS_DENOMINATOR * TotalFee(amounts, feeBps)
              <= |amounts| * (BPS_DENOMINATOR - 1)
  {
    if amounts != [] {
      var rest, last := amounts[..|amounts| - 1], amounts[|amounts| - 1];
      FeesRemainder(rest, feeBps);
      FeeRemainder(last, feeBps);
      assert Total(amounts) * feeBps == Total(rest) * feeBps + last * feeBps;
    }
  }

  /** Charging n milestones separately costs the protocol at most n - 1 stroops of rounding. */
  lemma {:induction false} RoundingLoss(amounts: seq<nat>, feeBps: nat)
    requires amounts != []
    ensures 0 <= ExactFee(Total(amounts), feeBps) - TotalFee(amounts, feeBps) <= |amounts| - 1
  {
    FeesRemainder(amounts, feeBps);
    FeeRemainder(Total(amounts), feeBps);
  }
}
