/** Refunds of unsettled milestones and cancellation (`lib.rs`, `refund.rs`). */
module Refund {
  import opened Results
  import opened Types
  import opened Milestones
  import opened Token
  import Amounts

  predicate Distinct(indices: seq<nat>) {
    forall i, j :: 0 <= i < j < |indices| ==> indices[i] != indices[j]
  }

  predicate Overdue(m: Milestone, now: nat) {
    !m.released && m.deadline.Some? && now > m.deadline.value
  }

  function CheckRefundable(ms: seq<Milestone>, index: nat, now: nat): Guard<Error> {
    if index >= |ms| then Aborts(IndexOutOfBounds)
    else if ms[index].released then Aborts(AlreadyReleased)
    else if ms[index].refunded then Aborts(AlreadyRefunded)
    else Need(ms[index].deadline.Some? ==> Overdue(ms[index], now), MilestoneNotOverdue)
  }

  /** Checks every listed milestone in order and adds their amounts. */
  function Requested(ms: seq<Milestone>, indices: seq<nat>, now: nat): Result<int, Error> {
    if indices == [] then Success(0) else
    var total :- Requested(ms, indices[..|indices| - 1], now);
    var last := indices[|indices| - 1];
    :- CheckRefundable(ms, last, now);
    Checked(total + ms[last].amount, PotentialOverflow)
  }

  function MarkRefunded(m: Milestone): Milestone {
    m.(refunded := true, refundedAmount := m.amount)
  }

  function MarkAll(ms: seq<Milestone>, indices: seq<nat>): (r: seq<Milestone>)
    ensures |r| == |ms|
  {
    seq(|ms|, i requires 0 <= i < |ms| => if i in indices then MarkRefunded(ms[i]) else ms[i])
  }

  /** Status and credit after a refund. */
  function Complete(s: State, id: nat, account: Account): Result<State, Error> {
    if !AllSettled(account.milestones) then
      Success(Store(s, id, account))
    else if AllRefunded(account.milestones) then
      Success(Store(s, id, account.(contract := account.contract.(status := Refunded))))
    else
      var credited :- GrantCredit(s, account.contract.freelancer);
      Success(Store(credited, id, account.(contract := account.contract.(status := Completed))))
  }

  /** The total a refund call pays out, once all its checks pass. */
  function RefundTotal(s: State, id: nat, indices: seq<nat>): Result<int, Error> {
    var config := s.config;
    :- RequireNotPaused(config);
    :- Need(indices != [], EmptyRefundRequest);
    :- Need(Distinct(indices), DuplicateMilestoneInRefund);
    var account :- LoadMutable(s, id);
    var c := account.contract;
    :- Need(c.status == Created || c.status == Funded || c.status == Disputed, InvalidState);
    var total :- Requested(account.milestones, indices, s.clock.timestamp);
    var available :- Amounts.CheckedAvailable(c.fundedAmount, c.releasedAmount, c.refundedAmount,
                                              PotentialOverflow);
    :- Need(total <= available, InsufficientFunds);
    Success(total)
  }

  function Refund(s: State, id: nat, indices: seq<nat>): Result<State, Error> {
    var total :- RefundTotal(s, id, indices);
    var account := s.accounts[id];
    var paid :- PayOut(s, total);
    var refunded :- Checked(account.contract.refundedAmount + total, InsufficientFunds);
    Complete(paid, id, Account(account.contract.(refundedAmount := refunded),
                               MarkAll(account.milestones, indices)))
  }

  /** What a cancellation has to return to the client, once its checks pass. */
  function CancelAmount(s: State, id: nat, client: Address): Result<int, Error> {
    var config := s.config;
    :- RequireNotPaused(config);
    var account :- LoadMutable(s, id);
    var c := account.contract;
    :- Need(client == c.client, UnauthorizedRole);
    :- Need(c.status != Cancelled, AlreadyCancelled);
    :- Need(c.status == Created || c.status == Funded, InvalidStatusTransition);
    :- Need(c.releasedAmount == 0, InvalidStatusTransition);
    var amount :- Amounts.CheckedAvailable(c.fundedAmount, c.releasedAmount, c.refundedAmount, ArithmeticTrap);
    :- Need(amount > 0 ==> config.tokenBound, NotInitialized);
    Success(amount)
  }

  /** Cancellation returns everything that is still available to the client. */
  function Cancel(s: State, id: nat, client: Address): Result<State, Error> {
    var amount :- CancelAmount(s, id, client);
    var account := s.accounts[id];
    var c := account.contract;
    var paid :- if amount > 0 then PayOut(s, amount) else Success(s);
    var refunded :- Checked(c.refundedAmount + amount, InsufficientFunds);
    Success(Store(paid, id, account.(contract := c.(refundedAmount := refunded, status := Cancelled))))
  }
}
