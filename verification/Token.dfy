/** The settlement token, seen from the escrow: transfers move its own balance or fail. */
module Token {
  import opened Results
  import opened Types

  /** Transfer out of the escrow; fails when the escrow is short. */
  function PayOut(s: State, amount: int): Result<State, Error> {
    if 0 <= amount <= s.balance then Success(s.(balance := s.balance - amount)) else Failure(TransferFailed)
  }

  /** Transfer into the escrow; `payerFunds` is what the payer holds when called. */
  function PayIn(s: State, amount: int, payerFunds: int): Result<State, Error> {
    if 0 <= amount <= payerFunds && s.balance + amount <= I128_MAX
    then Success(s.(balance := s.balance + amount)) else Failure(TransferFailed)
  }
}
