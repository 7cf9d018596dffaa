/** The invariant of the whole store, over any number of contracts, and the building blocks of its proof. */
module LedgerInvariant {
  import opened Results
  import opened Types
  import opened AccountInvariant
  import opened AccountSums
  import Finalize
  import Milestones

  predicate AccountsOk(accounts: map<nat, Account>) {
    forall id :: id in accounts ==> 1 <= id < U32_MAX && AccountOk(accounts[id])
  }

  predicate PotsOk(fees: int, balance: int, feeBps: nat) {
    && 0 <= fees <= I128_MAX
    && 0 <= balance <= I128_MAX
    && feeBps <= BPS_DENOMINATOR
  }

  /** A freelancer's pending credits are exactly the completed contracts still to be rated. */
  ghost predicate CreditsOk(credits: map<Address, int>, accounts: map<nat, Account>) {
    forall who :: CreditsOf(credits, who) == Total(Awaiting(who), accounts)
  }

  /** A reputation counts the rated contracts, with one to five points for each. */
  ghost predicate RatingsOk(reputations: map<Address, Reputation>, accounts: map<nat, Account>) {
    forall who :: RatingOk(ReputationOf(reputations, who), Total(Rated(who), accounts))
  }

  predicate RatingOk(r: Reputation, rated: int) {
    r.completedContracts == rated && rated <= r.totalRating <= MAX_RATING * rated
  }

  /** Re-summarizing a finalized contract gives the stored summary, up to the reputation flag. */
  predicate Frozen(a: Account, record: Finalization) {
    && Finalize.Closable(a.contract.status)
    && Finalize.Summarize(a).Success?
    && Finalize.Summarize(a).value.(reputationIssued := record.summary.reputationIssued) == record.summary
  }

  predicate RecordsOk(records: map<nat, Finalization>, accounts: map<nat, Account>) {
    forall id :: id in records ==> id in accounts && Frozen(accounts[id], records[id])
  }

  /** A dispute snapshot is a consistent account in a disputable status. */
  predicate SnapshotOk(a: Account) {
    AccountOk(a) && (a.contract.status == Funded || a.contract.status == PartiallyFunded)
  }

  predicate SnapshotsOk(rollbacks: map<nat, Account>) {
    forall id :: id in rollbacks ==> SnapshotOk(rollbacks[id])
  }

  /** A pending migration was proposed by the stored client for someone other than the freelancer. */
  predicate MigrationsOk(migrations: map<nat, Temporary<Migration>>, accounts: map<nat, Account>) {
    forall id :: id in migrations ==>
      && id in accounts
      && migrations[id].value.currentClient == accounts[id].contract.client
      && migrations[id].value.proposedClient != accounts[id].contract.freelancer
  }

  /** Dispute records agree with their layout markers. */
  ghost predicate DisputesOk(disputes: map<nat, StoredDispute>, versions: map<nat, nat>) {
    && versions.Keys <= disputes.Keys
    && (forall id :: id in versions ==> versions[id] == DISPUTE_STORAGE_VERSION)
    && (forall id :: id in disputes ==> (disputes[id].LayoutV1? <==> id in versions))
  }

  ghost predicate Ok(s: State) {
    && AccountsOk(s.accounts)
    && 1 <= s.nextId
    && PotsOk(s.fees, s.balance, s.config.feeBps)
    && CreditsOk(s.credits, s.accounts)
    && RatingsOk(s.reputations, s.accounts)
    && RecordsOk(s.finalizations, s.accounts)
    && SnapshotsOk(s.rollbacks)
    && MigrationsOk(s.migrations, s.accounts)
    && DisputesOk(s.disputes, s.disputeVersions)
  }

  /** What the invariant says of the pots and of one stored contract. */
  lemma OkFacts(s: State)
    requires Ok(s)
    ensures 1 <= s.nextId && AccountsOk(s.accounts)
    ensures 0 <= s.fees <= I128_MAX && 0 <= s.balance <= I128_MAX && s.config.feeBps <= BPS_DENOMINATOR
    ensures DisputesOk(s.disputes, s.disputeVersions)
    ensures forall id :: id in s.rollbacks ==> SnapshotOk(s.rollbacks[id])
  {
  }

  /** The invariant, taken apart. */
  lemma OkParts(s: State)
    requires Ok(s)
    ensures AccountsOk(s.accounts) && CreditsOk(s.credits, s.accounts) && RatingsOk(s.reputations, s.accounts)
    ensures RecordsOk(s.finalizations, s.accounts) && SnapshotsOk(s.rollbacks)
    ensures MigrationsOk(s.migrations, s.accounts) && DisputesOk(s.disputes, s.disputeVersions)
    ensures 1 <= s.nextId && PotsOk(s.fees, s.balance, s.config.feeBps)
  {
  }

  /** The invariant, put together. */
  lemma MakeOk(s: State)
    requires AccountsOk(s.accounts) && CreditsOk(s.credits, s.accounts) && RatingsOk(s.reputations, s.accounts)
    requires RecordsOk(s.finalizations, s.accounts) && SnapshotsOk(s.rollbacks)
    requires MigrationsOk(s.migrations, s.accounts) && DisputesOk(s.disputes, s.disputeVersions)
    requires 1 <= s.nextId && PotsOk(s.fees, s.balance, s.config.feeBps)
    ensures Ok(s)
  {
  }

  lemma AccountAt(s: State, id: nat)
    requires Ok(s) && id in s.accounts
    ensures AccountOk(s.accounts[id]) && 1 <= id < U32_MAX
    ensures s.accounts[id].contract.status != Completed ==> !s.accounts[id].contract.reputationIssued
  {
  }

  lemma GenesisOk(clock: Clock)
    ensures Ok(Genesis(clock))
  {
  }

  // ---- storing one account ----

  /** Same parties, same completion, same rating flag: what most steps keep of an account. */
  predicate SameStanding(a: Account, b: Account) {
    && a.contract.client == b.contract.client
    && a.contract.freelancer == b.contract.freelancer
    && a.contract.reputationIssued == b.contract.reputationIssued
    && (a.contract.status == Completed <==> b.contract.status == Completed)
  }

  lemma CreditsStore(credits: map<Address, int>, accounts: map<nat, Account>, id: nat, a: Account)
    requires CreditsOk(credits, accounts)
    requires forall who :: Value(Awaiting(who), a) == ValueAt(Awaiting(who), accounts, id)
    ensures CreditsOk(credits, accounts[id := a])
  {
    forall who ensures CreditsOf(credits, who) == Total(Awaiting(who), accounts[id := a]) {
      TotalStore(Awaiting(who), accounts, id, a);
    }
  }

  lemma RatingsStore(reputations: map<Address, Reputation>, accounts: map<nat, Account>, id: nat, a: Account)
    requires RatingsOk(reputations, accounts)
    requires forall who :: Value(Rated(who), a) == ValueAt(Rated(who), accounts, id)
    ensures RatingsOk(reputations, accounts[id := a])
  {
    forall who ensures RatingOk(ReputationOf(reputations, who), Total(Rated(who), accounts[id := a])) {
      TotalStore(Rated(who), accounts, id, a);
    }
  }

  /** Nothing that is counted per freelancer moves when an account keeps its standing. */
  lemma StandingStore(credits: map<Address, int>, reputations: map<Address, Reputation>,
                      accounts: map<nat, Account>, id: nat, a: Account)
    requires CreditsOk(credits, accounts) && RatingsOk(reputations, accounts)
    requires id in accounts && SameStanding(accounts[id], a)
    ensures CreditsOk(credits, accounts[id := a]) && RatingsOk(reputations, accounts[id := a])
  {
    CreditsStore(credits, accounts, id, a);
    RatingsStore(reputations, accounts, id, a);
  }

  lemma AccountsStore(accounts: map<nat, Account>, id: nat, a: Account)
    requires AccountsOk(accounts) && AccountOk(a) && 1 <= id < U32_MAX
    ensures AccountsOk(accounts[id := a])
  {
  }

  lemma RecordsStore(s: State, id: nat, a: Account)
    requires RecordsOk(s.finalizations, s.accounts) && id !in s.finalizations
    ensures RecordsOk(s.finalizations, s.accounts[id := a])
  {
  }

  lemma MigrationsStore(s: State, id: nat, a: Account)
    requires MigrationsOk(s.migrations, s.accounts) && id in s.accounts
    requires a.contract.client == s.accounts[id].contract.client
    requires a.contract.freelancer == s.accounts[id].contract.freelancer
    ensures MigrationsOk(s.migrations, s.accounts[id := a])
  {
  }

  lemma RecordsAdd(records: map<nat, Finalization>, accounts: map<nat, Account>, id: nat, a: Account)
    requires RecordsOk(records, accounts) && id !in accounts
    ensures RecordsOk(records, accounts[id := a])
  {
  }

  lemma MigrationsAdd(migrations: map<nat, Temporary<Migration>>, accounts: map<nat, Account>, id: nat, a: Account)
    requires MigrationsOk(migrations, accounts) && id !in accounts
    ensures MigrationsOk(migrations, accounts[id := a])
  {
  }

  lemma StoreOk(s: State, id: nat, a: Account)
    requires Ok(s) && id in s.accounts && id !in s.finalizations && AccountOk(a)
    requires SameStanding(s.accounts[id], a)
    ensures Ok(Store(s, id, a))
  {
    AccountAt(s, id);
    hide AccountsOk, AccountOk, CreditsOk, RatingsOk, RecordsOk, SnapshotsOk, MigrationsOk, DisputesOk, PotsOk;
    AccountsStore(s.accounts, id, a);
    RecordsStore(s, id, a);
    MigrationsStore(s, id, a);
    StandingStore(s.credits, s.reputations, s.accounts, id, a);
  }

  /** There are fewer than 2^32 contracts, so a credit counter never overflows. */
  lemma CountsFit(accounts: map<nat, Account>, m: Measure)
    requires AccountsOk(accounts) && (m.CompletedFor? || m.Rated? || m.Awaiting?)
    ensures 0 <= Total(m, accounts) <= U32_MAX
  {
    CountBound(m, accounts);
    IdsBound(accounts.Keys, U32_MAX);
  }

  lemma GrantSucceeds(s: State, who: Address)
    requires AccountsOk(s.accounts) && CreditsOk(s.credits, s.accounts)
    ensures GrantCredit(s, who) == Success(s.(credits := s.credits[who := CreditsOf(s.credits, who) + 1]))
  {
    CountsFit(s.accounts, Awaiting(who));
  }

  /** The step of an account from open to completed. */
  predicate Completes(a: Account, b: Account) {
    && a.contract.client == b.contract.client
    && a.contract.freelancer == b.contract.freelancer
    && !a.contract.reputationIssued && !b.contract.reputationIssued
    && a.contract.status != Completed && b.contract.status == Completed
  }

  lemma GrantStore(credits: map<Address, int>, reputations: map<Address, Reputation>,
                   accounts: map<nat, Account>, id: nat, a: Account)
    requires CreditsOk(credits, accounts) && RatingsOk(reputations, accounts)
    requires id in accounts && Completes(accounts[id], a)
    ensures var who := a.contract.freelancer;
            CreditsOk(credits[who := CreditsOf(credits, who) + 1], accounts[id := a])
    ensures RatingsOk(reputations, accounts[id := a])
  {
    var owner := a.contract.freelancer;
    var granted := credits[owner := CreditsOf(credits, owner) + 1];
    forall who ensures CreditsOf(granted, who) == Total(Awaiting(who), accounts[id := a]) {
      TotalStore(Awaiting(who), accounts, id, a);
    }
    RatingsStore(reputations, accounts, id, a);
  }

  /** Completing a contract and granting the credit keeps the credit ledger exact. */
  lemma CompleteOk(s: State, id: nat, a: Account)
    requires Ok(s) && id in s.accounts && id !in s.finalizations && AccountOk(a)
    requires Completes(s.accounts[id], a)
    ensures GrantCredit(s, a.contract.freelancer).Success?
    ensures Ok(Store(GrantCredit(s, a.contract.freelancer).value, id, a))
  {
    AccountAt(s, id);
    hide Completes, AccountsOk, AccountOk, CreditsOk, RatingsOk, RecordsOk, SnapshotsOk, MigrationsOk, DisputesOk, PotsOk;
    GrantSucceeds(s, a.contract.freelancer);
    AccountsStore(s.accounts, id, a);
    RecordsStore(s, id, a);
    MigrationsStore(s, id, a);
    GrantStore(s.credits, s.reputations, s.accounts, id, a);
  }

  /** The step of an account from completed to rated. */
  predicate GetsRated(a: Account, b: Account) {
    && a.contract.freelancer == b.contract.freelancer
    && a.contract.status == Completed && b.contract.status == Completed
    && !a.contract.reputationIssued && b.contract.reputationIssued
  }

  lemma RateStore(credits: map<Address, int>, reputations: map<Address, Reputation>,
                  accounts: map<nat, Account>, id: nat, a: Account, rating: nat)
    requires CreditsOk(credits, accounts) && RatingsOk(reputations, accounts)
    requires id in accounts && GetsRated(accounts[id], a) && MIN_RATING <= rating <= MAX_RATING
    ensures var who := a.contract.freelancer;
            var r := ReputationOf(reputations, who);
            && CreditsOk(credits[who := CreditsOf(credits, who) - 1], accounts[id := a])
            && RatingsOk(reputations[who := Reputation(r.completedContracts + 1, r.totalRating + rating, rating)],
                         accounts[id := a])
  {
    var owner := a.contract.freelancer;
    var r := ReputationOf(reputations, owner);
    var spent := credits[owner := CreditsOf(credits, owner) - 1];
    var rated := reputations[owner := Reputation(r.completedContracts + 1, r.totalRating + rating, rating)];
    forall who ensures CreditsOf(spent, who) == Total(Awaiting(who), accounts[id := a]) {
      TotalStore(Awaiting(who), accounts, id, a);
    }
    forall who ensures RatingOk(ReputationOf(rated, who), Total(Rated(who), accounts[id := a])) {
      TotalStore(Rated(who), accounts, id, a);
      assert RatingOk(ReputationOf(reputations, who), Total(Rated(who), accounts));
    }
  }

  /** Settings, clock, approvals, dispute records and pots may change without touching the rest. */
  lemma PotsChange(s: State, t: State)
    requires Ok(s)
    requires t == s.(config := t.config, clock := t.clock, nextId := t.nextId, approvals := t.approvals,
                     disputes := t.disputes, disputeVersions := t.disputeVersions,
                     fees := t.fees, balance := t.balance)
    requires 1 <= t.nextId && PotsOk(t.fees, t.balance, t.config.feeBps)
    requires DisputesOk(t.disputes, t.disputeVersions)
    ensures Ok(t)
  {
    hide AccountsOk, AccountOk, CreditsOk, RatingsOk, RecordsOk, SnapshotsOk, MigrationsOk, DisputesOk, PotsOk;
  }

  /** A record written from the live account is frozen, and stays so when only the rating flag changes. */
  lemma FreshRecordFrozen(a: Account, finalizer: Address, timestamp: nat)
    requires AccountOk(a) && Finalize.Closable(a.contract.status)
    ensures Finalize.Summarize(a).Success?
    ensures Frozen(a, Finalization(finalizer, timestamp, Finalize.Summarize(a).value))
  {
    SummarizeSucceeds(a);
  }

  lemma RecordsRate(records: map<nat, Finalization>, accounts: map<nat, Account>, id: nat)
    requires RecordsOk(records, accounts) && id in accounts
    ensures RecordsOk(records,
              accounts[id := accounts[id].(contract := accounts[id].contract.(reputationIssued := true))])
  {
    if id in records {
      RatingKeepsFrozen(accounts[id], records[id], true);
    }
  }

  lemma RatingKeepsFrozen(a: Account, record: Finalization, flag: bool)
    requires Frozen(a, record)
    ensures Frozen(a.(contract := a.contract.(reputationIssued := flag)), record)
  {
  }

  /** Summaries of consistent accounts never overflow. */
  lemma SummarizeSucceeds(a: Account)
    requires AccountOk(a)
    ensures Finalize.Summarize(a).Success?
  {
    Milestones.AccumulatedExact(a.milestones);
    BooksBounded(a);
  }
}
