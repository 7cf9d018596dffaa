/** The credit and rating ledgers over whole runs. */
module ReputationLedger {
  import opened Results
  import opened Types
  import opened AccountInvariant
  import opened AccountSums
  import opened LedgerInvariant
  import opened Protocol
  import opened StepsKeepInvariant
  import Ratings

  /** In every run, for every freelancer: pending credits and issued ratings add up to the completed contracts,
      the reputation counts the issued ratings, and each rating is worth one to five points. */
  lemma CreditsConserved(clock: Clock, run: seq<Command>, who: Address)
    ensures var s := After(Genesis(clock), run);
            var r := ReputationOf(s.reputations, who);
            && CreditsOf(s.credits, who) + Total(Rated(who), s.accounts) == Total(CompletedFor(who), s.accounts)
            && r.completedContracts == Total(Rated(who), s.accounts)
            && r.completedContracts <= r.totalRating <= MAX_RATING * r.completedContracts
            && 0 <= CreditsOf(s.credits, who) <= U32_MAX
  {
    GenesisOk(clock);
    RunKeeps(Genesis(clock), run);
    var s := After(Genesis(clock), run);
    hide After;
    OkParts(s);
    hide Ok, RecordsOk, SnapshotsOk, MigrationsOk, DisputesOk, PotsOk, AccountOk;
    assert RatingOk(ReputationOf(s.reputations, who), Total(Rated(who), s.accounts));
    RatedCompleted(s);
    CompletedSplits(s.accounts, who);
    CountsFit(s.accounts, Awaiting(who));
  }

  lemma RatedCompleted(s: State)
    requires Ok(s)
    ensures forall id :: id in s.accounts && s.accounts[id].contract.reputationIssued
              ==> s.accounts[id].contract.status == Completed
  {
    forall id | id in s.accounts && s.accounts[id].contract.reputationIssued
      ensures s.accounts[id].contract.status == Completed
    {
      AccountAt(s, id);
    }
  }

  /** A completed contract that was not rated yet has a credit to spend. */
  lemma CreditWaits(s: State, id: nat)
    requires Ok(s) && id in s.accounts
    requires s.accounts[id].contract.status == Completed && !s.accounts[id].contract.reputationIssued
    ensures CreditsOf(s.credits, s.accounts[id].contract.freelancer) > 0
  {
    var who := s.accounts[id].contract.freelancer;
    OkParts(s);
    hide Ok, RecordsOk, SnapshotsOk, MigrationsOk, DisputesOk, PotsOk, AccountOk, AccountsOk, RatingsOk;
    TotalNonNegative(Awaiting(who), s.accounts);
    assert Value(Awaiting(who), s.accounts[id]) == 1;
  }

  lemma RatingsBounded(s: State, who: Address)
    requires Ok(s)
    ensures var r := ReputationOf(s.reputations, who);
            0 <= r.completedContracts <= U32_MAX && r.completedContracts <= r.totalRating <= MAX_RATING * r.completedContracts
  {
    OkParts(s);
    hide Ok, RecordsOk, SnapshotsOk, MigrationsOk, DisputesOk, PotsOk, AccountOk, CreditsOk;
    assert RatingOk(ReputationOf(s.reputations, who), Total(Rated(who), s.accounts));
    CountsFit(s.accounts, Rated(who));
  }

  /** The caller-side conditions of a rating. */
  predicate Ratable(s: State, id: nat, caller: Address, rating: nat, comment: string) {
    && RequireNotPaused(s.config).Holds?
    && id in s.accounts
    && s.accounts[id].contract.client == caller
    && MIN_RATING <= rating <= MAX_RATING
    && 0 < |comment| <= MAX_COMMENT_BYTES
    && s.accounts[id].contract.status == Completed
    && !s.accounts[id].contract.reputationIssued
  }

  /** A rating succeeds exactly on its caller-side conditions: the credit check, the self-rating check and the
      counters never stand in its way. */
  lemma IssueExactly(s: State, id: nat, caller: Address, rating: nat, comment: string)
    requires Ok(s)
    ensures Ratings.Issue(s, id, caller, rating, comment).Success? <==> Ratable(s, id, caller, rating, comment)
    ensures Ratings.Issue(s, id, caller, rating, comment) != Failure(SelfRating)
    ensures Ratings.Issue(s, id, caller, rating, comment) != Failure(InvalidState)
    ensures Ratings.Issue(s, id, caller, rating, comment) != Failure(ArithmeticTrap)
  {
    if id in s.accounts {
      AccountAt(s, id);
      ParticipantsDiffer(s.accounts[id]);
      RatingsBounded(s, s.accounts[id].contract.freelancer);
      if s.accounts[id].contract.status == Completed && !s.accounts[id].contract.reputationIssued {
        CreditWaits(s, id);
      }
    }
    hide Ok, AccountOk;
  }

  lemma ParticipantsDiffer(a: Account)
    requires AccountOk(a)
    ensures a.contract.client != a.contract.freelancer
  {
  }

  /** The scaled average exists for every rated freelancer, lies between 1.0 and 5.0, and is the exact quotient
      rounded down. */
  lemma AverageInRange(s: State, who: Address)
    requires Ok(s)
    ensures Ratings.AverageRating(s, who).None? <==> ReputationOf(s.reputations, who).completedContracts == 0
    ensures Ratings.AverageRating(s, who).Some? ==>
              var r, average := ReputationOf(s.reputations, who), Ratings.AverageRating(s, who).value;
              && MIN_RATING * RATING_SCALE <= average <= MAX_RATING * RATING_SCALE
              && average * r.completedContracts <= r.totalRating * RATING_SCALE < (average + 1) * r.completedContracts
  {
    RatingsBounded(s, who);
    hide Ok;
    var r := ReputationOf(s.reputations, who);
    if r.completedContracts > 0 {
      QuotientBounds(r.totalRating, r.completedContracts);
    }
  }

  lemma QuotientBounds(total: int, count: int)
    requires 0 < count <= total <= MAX_RATING * count
    ensures RATING_SCALE <= total * RATING_SCALE / count <= MAX_RATING * RATING_SCALE
    ensures var q := total * RATING_SCALE / count; q * count <= total * RATING_SCALE < (q + 1) * count
  {
    QuotientBetween(total * RATING_SCALE, count, RATING_SCALE, MAX_RATING * RATING_SCALE);
  }

  lemma QuotientBetween(x: int, d: int, low: int, high: int)
    requires 0 < d && low * d <= x <= high * d
    ensures low <= x / d <= high
    ensures x / d * d <= x < (x / d + 1) * d
  {
    var q := x / d;
    assert q * d <= x < q * d + d;
    Ordered(q + 1, low, d);
    Ordered(high + 1, q, d);
  }

  lemma Ordered(a: int, b: int, d: int)
    requires 0 < d
    ensures a <= b ==> a * d <= b * d
  {
    if a <= b {
      assert (b - a) * d >= 0;
    }
  }
}
