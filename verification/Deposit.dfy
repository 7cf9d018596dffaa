/** Deposits (`deposit.rs`, `lib.rs`). */
module Deposit {
  import opened Results
  import opened Types
  import opened Milestones
  import opened Token

  /** Validated deposit data: new totals and the amount the milestones add up to. */
  datatype Validated = Validated(account: Account, newFunded: int, newDeposited: int, total: int)

  function Validate(s: State, id: nat, caller: Address, amount: int): Result<Validated, Error> {
    var account :- if amount > 0 then Load(s, id) else Failure(AmountMustBePositive);
    var c := account.contract;
    :- Need(caller == c.client, UnauthorizedRole);
    :- Need(c.status != Cancelled, ContractCancelled);
    :- Need(c.status != Refunded, ContractRefunded);
    :- Need(c.status == Created || c.status == PartiallyFunded, InvalidState);
    var total :- Accumulated(account.milestones);
    var newFunded :- Checked(c.fundedAmount + amount, PotentialOverflow);
    var newDeposited :- Checked(c.totalDeposited + amount, PotentialOverflow);
    :- Need(newFunded <= total, InvalidDepositAmount);
    Success(Validated(account, newFunded, newDeposited, total))
  }

  function Apply(v: Validated): Account {
    v.account.(contract := v.account.contract.(
      fundedAmount := v.newFunded,
      totalDeposited := v.newDeposited,
      status := if v.newFunded == v.total then Funded else PartiallyFunded))
  }

  /** The guards of the entrypoint followed by the validation. */
  function Admit(s: State, id: nat, caller: Address, amount: int): Result<Validated, Error> {
    var config := s.config;
    :- RequireInitialized(config);
    :- RequireNotPaused(config);
    :- RequireNotFinalized(s, id);
    Validate(s, id, caller, amount)
  }

  function Deposit(s: State, id: nat, caller: Address, amount: int, payerFunds: int): Result<State, Error> {
    var v :- Admit(s, id, caller, amount);
    var paid :- PayIn(s, amount, payerFunds);
    Success(Store(paid, id, Apply(v)))
  }
}
