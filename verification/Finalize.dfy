/** Finalization records, single and batched (`finalize.rs`, `lib.rs`). */
module Finalize {
  import opened Results
  import opened Types
  import opened Milestones
  import opened Authorization

  function ReleasedCount(ms: seq<Milestone>): nat {
    if ms == [] then 0 else ReleasedCount(ms[..|ms| - 1]) + if ms[|ms| - 1].released then 1 else 0
  }

  function MilestoneSummaries(ms: seq<Milestone>): seq<MilestoneSummary> {
    if ms == [] then []
    else
      var n := |ms| - 1;
      MilestoneSummaries(ms[..n]) + [MilestoneSummary(n, ms[n].amount, ms[n].released, ms[n].refunded)]
  }

  function Summarize(account: Account): Result<Summary, Error> {
    var c, ms := account.contract, account.milestones;
    var total :- Accumulated(ms);
    var unreleased :- Checked(c.fundedAmount - c.releasedAmount, ArithmeticTrap);
    var refundable :- Checked(unreleased - c.refundedAmount, ArithmeticTrap);
    Success(Summary(c.client, c.freelancer, c.arbiter, c.status, c.reputationIssued, total,
                    c.fundedAmount, c.releasedAmount, refundable, ReleasedCount(ms), MilestoneSummaries(ms)))
  }

  predicate Closable(status: Status) {
    status == Completed || status == Disputed
  }

  function Finalize(s: State, id: nat, finalizer: Address): Result<State, Error> {
    var config := s.config;
    :- RequireNotPaused(config);
    var account :- LoadMutable(s, id);
    :- Need(CallerRole(finalizer, account.contract).Some?, UnauthorizedRole);
    :- Need(Closable(account.contract.status), InvalidStatusTransition);
    var summary :- Summarize(account);
    var closed := s.(finalizations := s.finalizations[id := Finalization(finalizer, s.clock.timestamp, summary)]);
    Success(if account.contract.status == Disputed then closed.(rollbacks := s.rollbacks - {id}) else closed)
  }

  /** The checks a batch repeats for each item before delegating. */
  function PreCheck(s: State, item: SettlementItem): Guard<Error> {
    if item.contractId !in s.accounts then Aborts(ContractNotFound)
    else if item.contractId in s.finalizations then Aborts(AlreadyFinalized)
    else
      var c := s.accounts[item.contractId].contract;
      if item.finalizer != c.client && item.finalizer != c.freelancer && c.arbiter != Some(item.finalizer)
      then Aborts(UnauthorizedRole)
      else Need(Closable(c.status), InvalidStatusTransition)
  }

  /** Process items in order; an abort of a delegated call aborts the whole batch. */
  function Items(s: State, items: seq<SettlementItem>): Result<(State, seq<SettlementResult>), Error> {
    if items == [] then Success((s, [])) else
    var n := |items| - 1;
    var before :- Items(s, items[..n]);
    var check := PreCheck(before.0, items[n]);
    if check.Aborts? then
      Success((before.0,
               before.1 + [SettlementResult(n, items[n].contractId, false, Some(check.error))]))
    else
      var closed :- Finalize(before.0, items[n].contractId, items[n].finalizer);
      Success((closed, before.1 + [SettlementResult(n, items[n].contractId, true, None)]))
  }

  function Batch(s: State, items: seq<SettlementItem>): Result<(State, seq<SettlementResult>), Error> {
    var config := s.config;
    :- RequireNotPaused(config);
    :- Need(items != [], BatchSettlementEmpty);
    :- Need(|items| <= MAX_BATCH_SETTLEMENT, BatchSettlementTooLarge);
    Items(s, items)
  }

  /** Remove a finalization record. */
  function Reopen(s: State, id: nat, admin: Address): Result<State, Error> {
    var config := s.config;
    :- RequireInitialized(config);
    :- RequireAdmin(config, admin);
    var account :- Load(s, id);
    :- Need(id in s.finalizations, RollbackNotAllowed);
    :- Need(Closable(account.contract.status), RollbackNotAllowed);
    Success(s.(finalizations := s.finalizations - {id}))
  }
}
