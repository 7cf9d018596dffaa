/** Sums over all contracts of the store. */
module AccountSums {
  import opened Results
  import opened Types
  import Milestones

  predicate Terminal(status: Status) {
    status == Completed || status == Cancelled || status == Refunded
  }

  /** Per-contract quantities that the shared ledgers add up. */
  datatype Measure =
    | Claim                     // what the books say is still escrowed
    | Reserve                   // funds of a live contract not yet assigned to a settled milestone
    | CompletedFor(who: Address)
    | Rated(who: Address)       // completed, and the rating was issued
    | Awaiting(who: Address)    // completed, and the rating is still due

  function Value(m: Measure, a: Account): int {
    var c := a.contract;
    match m
    case Claim => c.fundedAmount - c.releasedAmount - c.refundedAmount
    case Reserve => if Terminal(c.status) then 0 else c.fundedAmount - Milestones.SettledGross(a.milestones)
    case CompletedFor(who) => if c.freelancer == who && c.status == Completed then 1 else 0
    case Rated(who) => if c.freelancer == who && c.reputationIssued then 1 else 0
    case Awaiting(who) => if c.freelancer == who && c.status == Completed && !c.reputationIssued then 1 else 0
  }

  ghost function Total(m: Measure, accounts: map<nat, Account>): int {
    if accounts == map[] then 0 else
    var id :| id in accounts;
    Value(m, accounts[id]) + Total(m, accounts - {id})
  }

  /** The sum does not depend on the order in which contracts are visited. */
  lemma {:induction false} TotalRemove(m: Measure, accounts: map<nat, Account>, id: nat)
    requires id in accounts
    ensures Total(m, accounts) == Value(m, accounts[id]) + Total(m, accounts - {id})
    decreases accounts
  {
    var first :| first in accounts && Total(m, accounts) == Value(m, accounts[first]) + Total(m, accounts - {first});
    if first != id {
      assert id in accounts - {first};
      TotalRemove(m, accounts - {first}, id);
      TotalRemove(m, accounts - {id}, first);
      assert accounts - {first} - {id} == accounts - {id} - {first};
    }
  }

  function ValueAt(m: Measure, accounts: map<nat, Account>, id: nat): int {
    if id in accounts then Value(m, accounts[id]) else 0
  }

  lemma TotalStore(m: Measure, accounts: map<nat, Account>, id: nat, a: Account)
    ensures Total(m, accounts[id := a]) == Total(m, accounts) - ValueAt(m, accounts, id) + Value(m, a)
  {
    TotalRemove(m, accounts[id := a], id);
    assert accounts[id := a] - {id} == accounts - {id};
    if id in accounts {
      TotalRemove(m, accounts, id);
    } else {
      assert accounts - {id} == accounts;
    }
  }

  lemma {:induction false} TotalNonNegative(m: Measure, accounts: map<nat, Account>)
    requires forall id :: id in accounts ==> Value(m, accounts[id]) >= 0
    ensures Total(m, accounts) >= 0
    ensures forall id :: id in accounts ==> Value(m, accounts[id]) <= Total(m, accounts)
    decreases accounts
  {
    if accounts != map[] {
      forall id | id in accounts
        ensures Total(m, accounts) >= Value(m, accounts[id]) >= 0
      {
        TotalRemove(m, accounts, id);
        TotalNonNegative(m, accounts - {id});
      }
      var id :| id in accounts;
      assert Total(m, accounts) >= Value(m, accounts[id]);
    }
  }

  /** Completed contracts are either rated or awaiting a rating. */
  lemma {:induction false} CompletedSplits(accounts: map<nat, Account>, who: Address)
    requires forall id :: id in accounts && accounts[id].contract.reputationIssued
               ==> accounts[id].contract.status == Completed
    ensures Total(CompletedFor(who), accounts) == Total(Rated(who), accounts) + Total(Awaiting(who), accounts)
    decreases accounts
  {
    if accounts != map[] {
      var id :| id in accounts;
      TotalRemove(CompletedFor(who), accounts, id);
      TotalRemove(Rated(who), accounts, id);
      TotalRemove(Awaiting(who), accounts, id);
      CompletedSplits(accounts - {id}, who);
    }
  }

  /** A count over contracts is at most the number of contracts. */
  lemma {:induction false} CountBound(m: Measure, accounts: map<nat, Account>)
    requires m.CompletedFor? || m.Rated? || m.Awaiting?
    ensures 0 <= Total(m, accounts) <= |accounts|
    decreases accounts
  {
    if accounts != map[] {
      var id :| id in accounts;
      TotalRemove(m, accounts, id);
      CountBound(m, accounts - {id});
      assert (accounts - {id}).Keys == accounts.Keys - {id};
    }
  }

  /** u32 identifiers leave room for fewer than 2^32 contracts. */
  lemma {:induction false} IdsBound(ids: set<nat>, limit: nat)
    requires forall id :: id in ids ==> id < limit
    ensures |ids| <= limit
  {
    if limit == 0 {
      assert ids == {};
    } else {
      var rest := ids - {limit - 1};
      IdsBound(rest, limit - 1);
      assert |ids| <= |rest| + 1;
    }
  }
}
