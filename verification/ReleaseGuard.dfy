/** When a release goes through: the exact condition, and why its later accounting check never fires. */
module ReleaseGuard {
  import opened Results
  import opened Types
  import opened AccountInvariant
  import opened AccountSums
  import opened AccountSteps
  import opened LedgerInvariant
  import opened Milestones
  import opened StepsKeepInvariant
  import FeeRounding
  import Fees
  import MilestoneApprovals
  import Release

  /** The fee of a release can be computed: its product with the rate fits an i128. */
  predicate FeeFits(config: Config, amount: int) {
    !config.initialized || config.feeBps == 0 || amount * config.feeBps <= I128_MAX
  }

  /** Gross amount of the unsettled milestones other than one of them. */
  function OthersOpen(ms: seq<Milestone>, index: nat): int
    requires index < |ms|
  {
    Sum(Amount, ms) - SettledGross(ms) - ms[index].amount
  }

  lemma FeeFitsExactly(config: Config, amount: int)
    requires 0 < amount && config.feeBps <= BPS_DENOMINATOR
    ensures Fees.ReleaseFee(config, amount).Success? <==> FeeFits(config, amount)
    ensures !FeeFits(config, amount) ==> Fees.ReleaseFee(config, amount) == Failure(PotentialOverflow)
  {
    FeeRounding.ProtocolFeeExact(amount, config.feeBps);
  }

  /** The funding checks pass exactly when the fee can be computed and the fees of all contracts together
      fit into this contract's own fees plus its other open milestones. */
  lemma FundingExactly(s: State, a: Account, index: nat)
    requires AccountOk(a) && a.contract.status == Funded
    requires index < |a.milestones| && !Settled(a.milestones[index])
    requires 0 <= s.fees <= I128_MAX && s.config.feeBps <= BPS_DENOMINATOR
    ensures var gross := a.milestones[index].amount;
            Release.Funding(s, a.contract, gross)
            == if !FeeFits(s.config, gross) then Failure(PotentialOverflow)
               else if s.fees > Sum(Fee, a.milestones) + OthersOpen(a.milestones, index) then Failure(InsufficientFunds)
               else Fees.ReleaseFee(s.config, gross)
  {
    var gross := a.milestones[index].amount;
    LiveBooks(a);
    SumBounds(a.milestones);
    UnsettledCovered(a.milestones, index);
    FeeFitsExactly(s.config, gross);
    if FeeFits(s.config, gross) {
      ReleaseFeeOk(s, gross);
    }
    hide AccountOk, Sum, WellFormed, AllWellFormed, FeeFits, Fees.ReleaseFee, SettledGross;
    assert SettledGross(a.milestones) == Sum(GrossReleased, a.milestones) + Sum(Refund, a.milestones) by {
      GrossIs(a.milestones);
    }
  }

  lemma GrossIs(ms: seq<Milestone>)
    ensures SettledGross(ms) == Sum(GrossReleased, ms) + Sum(Refund, ms)
  {
  }

  /** Once the funding checks pass, the accounting of a release neither overflows nor exceeds the deposit. */
  lemma BookSucceeds(s: State, a: Account, index: nat)
    requires AccountOk(a) && a.contract.status == Funded
    requires index < |a.milestones| && !Settled(a.milestones[index])
    requires 0 <= s.fees <= I128_MAX && s.config.feeBps <= BPS_DENOMINATOR
    requires Release.Funding(s, a.contract, a.milestones[index].amount).Success?
    ensures var gross := a.milestones[index].amount;
            var fee := Release.Funding(s, a.contract, gross).value;
            && 0 <= fee <= gross
            && Release.Book(a.contract, s.fees, gross, fee)
               == Success((a.contract.(releasedAmount := a.contract.releasedAmount + (gross - fee)), s.fees + fee))
  {
    var gross := a.milestones[index].amount;
    FeeOfFunding(s, a.contract, gross);
    ReleaseFeeOk(s, gross);
    LiveBooks(a);
    hide AccountOk, Fees.ReleaseFee;
  }

  lemma FeeOfFunding(s: State, c: Contract, gross: int)
    requires Release.Funding(s, c, gross).Success?
    ensures Fees.ReleaseFee(s.config, gross) == Release.Funding(s, c, gross)
  {
  }

  /** A release whose role, state and approval checks pass succeeds exactly when its fee can be computed, the
      fee pot leaves room for it, and the balance covers the net payment; the error is the first that fails. */
  lemma ReleaseExactly(s: State, id: nat, caller: Address, index: nat)
    requires Ok(s) && Release.Releasable(s, id, caller, index).Success?
    ensures id in s.accounts && index < |s.accounts[id].milestones|
    ensures var ms := s.accounts[id].milestones;
            var gross := ms[index].amount;
            var r := Release.Release(s, id, caller, index);
            if !FeeFits(s.config, gross) then r == Failure(PotentialOverflow)
            else if s.fees > Sum(Fee, ms) + OthersOpen(ms, index) then r == Failure(InsufficientFunds)
            else if s.balance < gross - Fees.ReleaseFee(s.config, gross).value then r == Failure(TransferFailed)
            else r.Success?
  {
    hide *;
    OkFacts(s);
    ReleasableFacts(s, id, caller, index);
    AccountAt(s, id);
    var a := s.accounts[id];
    var gross := a.milestones[index].amount;
    AmountPositive(a, index);
    FundingExactly(s, a, index);
    FeeFitsExactly(s.config, gross);
    ReleaseStages(s, id, caller, index);
    if Release.Funding(s, a.contract, gross).Success? {
      BookSucceeds(s, a, index);
      var fee := Release.Funding(s, a.contract, gross).value;
      if gross - fee <= s.balance {
        CompleteSucceeds(s, id, index, fee);
      }
    }
  }

  lemma ReleasableFacts(s: State, id: nat, caller: Address, index: nat)
    requires Release.Releasable(s, id, caller, index).Success?
    ensures id in s.accounts && s.accounts[id].contract.status == Funded && index < |s.accounts[id].milestones|
    ensures !Settled(s.accounts[id].milestones[index])
    ensures Release.Releasable(s, id, caller, index).value == s.accounts[id].milestones[index]
  {
  }

  /** The stages of a release after its entry checks. */
  lemma ReleaseStages(s: State, id: nat, caller: Address, index: nat)
    requires Release.Releasable(s, id, caller, index).Success?
    requires id in s.accounts && index < |s.accounts[id].milestones|
    requires Release.Releasable(s, id, caller, index).value == s.accounts[id].milestones[index]
    ensures var a := s.accounts[id];
            var gross := a.milestones[index].amount;
            var funding := Release.Funding(s, a.contract, gross);
            var r := Release.Release(s, id, caller, index);
            if funding.Failure? then r == Failure(funding.error)
            else if !(0 <= gross - funding.value <= s.balance) then r == Failure(TransferFailed)
            else
              var fee := funding.value;
              var books := Release.Book(a.contract, s.fees, gross, fee);
              books.Success? ==> r == Release.Complete(Booked(s, id, index, fee, books.value.1), id,
                  Account(books.value.0, a.milestones[index := Release.MarkReleased(a.milestones[index], fee)]))
  {
    hide Release.Releasable, Release.Funding, Release.Book, Release.Complete, Release.MarkReleased,
      MilestoneApprovals.Clear;
  }

  function Booked(s: State, id: nat, index: nat, fee: int, pot: int): State
    requires id in s.accounts && index < |s.accounts[id].milestones|
  {
    var net := s.accounts[id].milestones[index].amount - fee;
    MilestoneApprovals.Clear(s.(balance := s.balance - net, fees := pot), Slot(id, index))
  }

  lemma CompleteSucceeds(s: State, id: nat, index: nat, fee: int)
    requires Ok(s) && id in s.accounts && index < |s.accounts[id].milestones|
    ensures var a := s.accounts[id];
            Release.Complete(Booked(s, id, index, fee, s.fees + fee), id,
                             Account(a.contract.(releasedAmount := a.contract.releasedAmount + (a.milestones[index].amount - fee)),
                                     a.milestones[index := Release.MarkReleased(a.milestones[index], fee)])).Success?
  {
    OkParts(s);
    var t := Booked(s, id, index, fee, s.fees + fee);
    hide Ok, AccountsOk, CreditsOk, RatingsOk, RecordsOk, SnapshotsOk, MigrationsOk, DisputesOk, PotsOk, Release.MarkReleased;
    GrantSucceeds(t, s.accounts[id].contract.freelancer);
  }

  /** In a reachable state a release never trips its accounting check and never traps. */
  lemma ReleaseNeverTraps(s: State, id: nat, caller: Address, index: nat)
    requires Ok(s)
    ensures Release.Release(s, id, caller, index) != Failure(AccountingInvariantViolated)
    ensures Release.Release(s, id, caller, index) != Failure(ArithmeticTrap)
  {
    if Release.Releasable(s, id, caller, index).Success? {
      hide *;
      ReleaseExactly(s, id, caller, index);
    } else {
      hide Ok;
    }
  }
}
