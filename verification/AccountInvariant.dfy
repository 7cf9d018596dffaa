/** What holds of every stored contract, whatever its status. */
module AccountInvariant {
  import opened Results
  import opened Types
  import opened Authorization
  import opened Milestones
  import AccountSums

  predicate ParticipantsOk(c: Contract) {
    && c.client != c.freelancer
    && c.arbiter != Some(c.freelancer)
    && (NeedsArbiter(c.releaseAuthorization) ==> c.arbiter.Some?)
  }

  /** The contract's totals are the sums of its milestone flags. */
  predicate TotalsMatch(a: Account) {
    && a.contract.releasedAmount == Sum(NetReleased, a.milestones)
    && a.contract.refundedAmount == Sum(Refund, a.milestones)
  }

  predicate NoneSettled(ms: seq<Milestone>) {
    forall k :: 0 <= k < |ms| ==> !Settled(ms[k])
  }

  /** Settled milestone by milestone: every stroop is paid out, refunded or retained as a fee. */
  predicate SettledByMilestones(a: Account) {
    && AllSettled(a.milestones)
    && TotalsMatch(a)
    && a.contract.fundedAmount == Sum(Amount, a.milestones)
    && a.contract.releasedAmount + a.contract.refundedAmount + Sum(Fee, a.milestones) == a.contract.fundedAmount
  }

  predicate SettledByDispute(a: Account) {
    a.contract.releasedAmount + a.contract.refundedAmount == a.contract.fundedAmount
  }

  predicate StatusOk(a: Account) {
    var c, ms := a.contract, a.milestones;
    match c.status
    case Created => c.fundedAmount == 0 && NoneSettled(ms) && TotalsMatch(a)
    case PartiallyFunded => 0 < c.fundedAmount < Sum(Amount, ms) && NoneSettled(ms) && TotalsMatch(a)
    case Funded => c.fundedAmount == Sum(Amount, ms) && !AllSettled(ms) && TotalsMatch(a)
    case Disputed =>
      && 0 < c.fundedAmount
      && !AllSettled(ms)
      && TotalsMatch(a)
      && SettledGross(ms) <= c.fundedAmount
      && (NoneReleased(ms) || c.fundedAmount == Sum(Amount, ms))
    case Completed =>
      && 0 <= c.releasedAmount
      && 0 <= c.refundedAmount < c.fundedAmount
      && (SettledByMilestones(a) || SettledByDispute(a))
    case Cancelled => c.releasedAmount == 0 && c.refundedAmount == c.fundedAmount
    case Refunded => c.releasedAmount == 0 && c.refundedAmount == c.fundedAmount
    case Accepted => false
  }

  predicate AccountOk(a: Account) {
    var c, ms := a.contract, a.milestones;
    && ParticipantsOk(c)
    && 0 < |ms| <= MAX_MILESTONES
    && AllWellFormed(ms)
    && Sum(Amount, ms) <= I128_MAX
    && c.totalDeposited == c.fundedAmount
    && 0 <= c.fundedAmount <= Sum(Amount, ms)
    && (c.reputationIssued ==> c.status == Completed)
    && StatusOk(a)
  }

  lemma NoneSettledSums(ms: seq<Milestone>)
    requires AllWellFormed(ms) && NoneSettled(ms)
    ensures SettledGross(ms) == 0 && Sum(NetReleased, ms) == 0 && Sum(Refund, ms) == 0 && Sum(Fee, ms) == 0
    ensures NoneReleased(ms)
  {
    SumBounds(ms);
    NoneRefunded(ms);
  }

  lemma {:induction false} NoneRefunded(ms: seq<Milestone>)
    requires forall k :: 0 <= k < |ms| ==> !ms[k].refunded
    ensures Sum(Refund, ms) == 0
  {
    if ms != [] {
      NoneRefunded(ms[..|ms| - 1]);
    }
  }

  /** In a live contract the books cover every unsettled milestone, and no total leaves i128. */
  lemma LiveBooks(a: Account)
    requires AccountOk(a) && !AccountSums.Terminal(a.contract.status)
    ensures TotalsMatch(a)
    ensures 0 <= a.contract.releasedAmount && 0 <= a.contract.refundedAmount
    ensures 0 <= SettledGross(a.milestones) <= a.contract.fundedAmount <= I128_MAX
    ensures a.contract.fundedAmount - a.contract.releasedAmount - a.contract.refundedAmount
         == a.contract.fundedAmount - SettledGross(a.milestones) + Sum(Fee, a.milestones)
    ensures NoneReleased(a.milestones) || a.contract.fundedAmount == Sum(Amount, a.milestones)
  {
    SumBounds(a.milestones);
    if a.contract.status == Created || a.contract.status == PartiallyFunded {
      NoneSettledSums(a.milestones);
    }
  }

  /** Whatever the status, released and refunded stay within what was funded. */
  lemma BooksBounded(a: Account)
    requires AccountOk(a)
    ensures 0 <= a.contract.releasedAmount && 0 <= a.contract.refundedAmount
    ensures a.contract.releasedAmount + a.contract.refundedAmount <= a.contract.fundedAmount <= I128_MAX
  {
    SumBounds(a.milestones);
    if !AccountSums.Terminal(a.contract.status) {
      LiveBooks(a);
    }
  }
}
