/** Milestone release and its administrative rollback (`lib.rs`). */
module Release {
  import opened Results
  import opened Types
  import opened Authorization
  import opened MilestoneApprovals
  import opened Milestones
  import opened Token
  import Amounts
  import Fees

  /** The milestone a call may release, after the role, index, state and approval checks. */
  function Releasable(s: State, id: nat, caller: Address, index: nat): Result<Milestone, Error> {
    var config := s.config;
    :- RequireNotPaused(config);
    var account :- LoadMutable(s, id);
    :- Need(account.contract.status == Funded, InvalidState);
    :- Need(MayRelease(caller, account.contract), UnauthorizedRole);
    :- Need(index < |account.milestones|, IndexOutOfBounds);
    var m := account.milestones[index];
    :- Need(!m.released, MilestoneAlreadyReleased);
    :- Need(!m.refunded, AlreadyRefunded);
    :- CheckApprovals(s, account.contract, Slot(id, index));
    Success(m)
  }

  /** The funding checks; yields the fee. The second check subtracts the fees of every contract. */
  function Funding(s: State, c: Contract, gross: int): Result<int, Error> {
    var available :- Amounts.CheckedAvailable(c.fundedAmount, c.releasedAmount, c.refundedAmount,
                                              PotentialOverflow);
    :- Need(gross <= available, InsufficientFunds);
    var fee :- Fees.ReleaseFee(s.config, gross);
    var net :- Checked(gross - fee, ArithmeticTrap);
    var spendable :- Checked(available - s.fees, ArithmeticTrap);
    :- Need(gross <= spendable, InsufficientFunds);
    Success(fee)
  }

  function MarkReleased(m: Milestone, fee: int): Milestone {
    m.(released := true, fundedAmount := m.amount, protocolFee := fee)
  }

  /** The accounting of a release: the new contract record and fee pot. */
  function Book(c: Contract, fees: int, gross: int, fee: int): Result<(Contract, int), Error> {
    var pot :- Checked(fees + fee, ArithmeticTrap);
    var released :- Checked(c.releasedAmount + (gross - fee), PotentialOverflow);
    var paid :- Checked(released + c.refundedAmount, ArithmeticTrap);
    var sum :- Checked(paid + pot, ArithmeticTrap);
    :- Need(sum <= c.fundedAmount, AccountingInvariantViolated);
    Success((c.(releasedAmount := released), pot))
  }

  /** Status and credit once every milestone is settled. */
  function Complete(s: State, id: nat, account: Account): Result<State, Error> {
    if AllSettled(account.milestones) then
      var credited :- GrantCredit(s, account.contract.freelancer);
      Success(Store(credited, id, account.(contract := account.contract.(status := Completed))))
    else
      Success(Store(s, id, account))
  }

  function Release(s: State, id: nat, caller: Address, index: nat): Result<State, Error> {
    var m :- Releasable(s, id, caller, index);
    var account := s.accounts[id];
    var fee :- Funding(s, account.contract, m.amount);
    var paid :- PayOut(s, m.amount - fee);
    var books :- Book(account.contract, s.fees, m.amount, fee);
    var released := Account(books.0, account.milestones[index := MarkReleased(m, fee)]);
    Complete(Clear(paid.(fees := books.1), Slot(id, index)), id, released)
  }

  // ---- rollback ----

  function RollBackRelease(account: Account, index: nat): Result<Account, Error>
    requires index < |account.milestones|
  {
    var m := account.milestones[index];
    var net :- Checked(m.amount - m.protocolFee, AccountingInvariantViolated);
    var released :- Checked(account.contract.releasedAmount - net, AccountingInvariantViolated);
    Success(Account(
      account.contract.(releasedAmount := released),
      account.milestones[index := m.(released := false, fundedAmount := 0, protocolFee := 0)]))
  }

  function RollBackRefund(account: Account, index: nat): Result<Account, Error>
    requires index < |account.milestones|
  {
    var m := account.milestones[index];
    var refunded :- Checked(account.contract.refundedAmount - m.amount, AccountingInvariantViolated);
    Success(Account(
      account.contract.(refundedAmount := refunded),
      account.milestones[index := m.(refunded := false, refundedAmount := 0)]))
  }

  /** The pot gives the fee back only if it still holds that much. */
  function ReversedPot(fees: int, fee: int): int {
    if 0 < fee <= fees then fees - fee else fees
  }

  /** The milestone an admin may roll back, after the role, state and index checks. */
  function Reversible(s: State, id: nat, admin: Address, index: nat): Result<Milestone, Error> {
    var config := s.config;
    :- RequireInitialized(config);
    :- RequireNotPaused(config);
    :- RequireAdmin(config, admin);
    var account :- LoadMutable(s, id);
    :- Need(account.contract.status == Funded || account.contract.status == PartiallyFunded, RollbackNotAllowed);
    :- Need(index < |account.milestones|, IndexOutOfBounds);
    var m := account.milestones[index];
    :- Need(Settled(m), RollbackNotAllowed);
    Success(m)
  }

  function RollBack(s: State, id: nat, admin: Address, index: nat): Result<State, Error> {
    var m :- Reversible(s, id, admin, index);
    var account := s.accounts[id];
    var unreleased :- if m.released then RollBackRelease(account, index) else Success(account);
    var restored :- if m.refunded then RollBackRefund(unreleased, index) else Success(unreleased);
    var s1 := if m.released then Clear(s.(fees := ReversedPot(s.fees, m.protocolFee)), Slot(id, index)) else s;
    Success(Store(s1, id, restored))
  }
}
