/** Reputation (`lib.rs`). */
module Ratings {
  import opened Results
  import opened Types

  function Issue(s: State, id: nat, caller: Address, rating: nat, comment: string): Result<State, Error> {
    var config := s.config;
    :- RequireNotPaused(config);
    :- Need(id != 0, InvalidContractId);
    var account :- Load(s, id);
    var c := account.contract;
    :- Need(caller == c.client, UnauthorizedRole);
    :- Need(MIN_RATING <= rating <= MAX_RATING, InvalidRating);
    :- Need(|comment| > 0, EmptyComment);
    :- Need(|comment| <= MAX_COMMENT_BYTES, CommentTooLong);
    :- Need(c.status == Completed, NotCompleted);
    :- Need(!c.reputationIssued, ReputationAlreadyIssued);
    :- Need(c.client != c.freelancer, SelfRating);
    var pending := CreditsOf(s.credits, c.freelancer);
    :- Need(pending > 0, InvalidState);
    var prior := ReputationOf(s.reputations, c.freelancer);
    var completed :- Checked(prior.completedContracts + 1, ArithmeticTrap);
    var total :- Checked(prior.totalRating + rating, ArithmeticTrap);
    Success(Store(s, id, account.(contract := c.(reputationIssued := true)))
            .(credits := s.credits[c.freelancer := pending - 1],
              reputations := s.reputations[c.freelancer := Reputation(completed, total, rating)]))
  }

  /** The average rating scaled by 10_000, absent without a completed contract or on overflow. */
  function AverageRating(s: State, who: Address): Option<int> {
    if who !in s.reputations || s.reputations[who].completedContracts == 0 then None
    else
      var rep := s.reputations[who];
      if !InRange(rep.totalRating * RATING_SCALE) then None
      else if rep.completedContracts < 0 then Some(-TruncatedDiv(rep.totalRating * RATING_SCALE, -rep.completedContracts))
      else Some(TruncatedDiv(rep.totalRating * RATING_SCALE, rep.completedContracts))
  }
}
