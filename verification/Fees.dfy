/** Protocol fees: computation and withdrawal (`lib.rs`). */
module Fees {
  import opened Results
  import opened Types
  import opened Token

  /** `amount * feeBps / 10_000`, rounded toward zero; fails when the product leaves i128. */
  function ProtocolFee(amount: int, feeBps: nat): Result<int, Error> {
    if feeBps == 0 then Success(0) else
    var product :- Checked(amount * feeBps, PotentialOverflow);
    Success(TruncatedDiv(product, BPS_DENOMINATOR))
  }

  /** The fee of a release: none before initialization. */
  function ReleaseFee(config: Config, amount: int): Result<int, Error> {
    if config.initialized then ProtocolFee(amount, config.feeBps) else Success(0)
  }

  /** Withdrawal is gated by the pause flag only. */
  function Withdraw(s: State, amount: int): Result<State, Error> {
    var config := s.config;
    :- RequireInitialized(config);
    :- Need(!config.paused, ContractPaused);
    :- Need(config.admin.Some?, NotInitialized);
    :- Need(amount > 0, AmountMustBePositive);
    :- Need(amount <= s.fees, InsufficientAccumulatedFees);
    :- Need(config.tokenBound, SettlementTokenNotConfigured);
    var rest :- Checked(s.fees - amount, InsufficientAccumulatedFees);
    PayOut(s.(fees := rest), amount)
  }
}
