/** Concrete runs that show where a stated or expected property of the escrow fails. */
module Scenarios {
  import opened Results
  import opened Types
  import opened Protocol
  import opened AccountSums
  import opened AccountSteps
  import opened Authorization
  import opened Milestones
  import Amounts
  import Creation
  import Fees
  import LedgerInvariant
  import Release
  import ReleaseGuard
  import Solvency

  const ADMIN := Address(1)
  const CLIENT := Address(2)
  const FREELANCER := Address(3)
  const ARBITER := Address(4)
  const CLOCK := Clock(100, 1000, 16)

  /** An initialized escrow with a bound token and the given fee rate. */
  function Opened(feeBps: nat): State {
    Genesis(CLOCK).(config := Config(true, Some(ADMIN), false, false, true, feeBps, None))
  }

  function Opening(feeBps: nat): seq<Command> {
    [Initialize(ADMIN), Govern(Config(true, Some(ADMIN), false, false, true, feeBps, None))]
  }

  lemma OpeningRuns(feeBps: nat)
    requires feeBps <= BPS_DENOMINATOR
    ensures After(Genesis(CLOCK), Opening(feeBps)) == Opened(feeBps)
  {
    var run := Opening(feeBps);
    assert run[..1] == [run[0]] && run[..1][..0] == [];
    assert After(Genesis(CLOCK), []) == Genesis(CLOCK);
    assert After(Genesis(CLOCK), run[..1]) == Exec(Genesis(CLOCK), run[0]);
  }

  lemma Extend(s: State, run: seq<Command>, cmd: Command)
    ensures After(s, run + [cmd]) == Exec(After(s, run), cmd)
  {
    assert (run + [cmd])[..|run|] == run;
  }

  /** One more call that goes through, on a run from the fresh deployment. */
  lemma Next(run: seq<Command>, s: State, cmd: Command, t: State)
    requires After(Genesis(CLOCK), run) == s && Step(s, cmd) == Success(t)
    ensures After(Genesis(CLOCK), run + [cmd]) == t
  {
    hide Step, After;
    Extend(Genesis(CLOCK), run, cmd);
  }

  /** A contract with milestones of the given amounts, as created and as funded. */
  function Offer(amounts: seq<int>, arbiter: Option<Address> := None, mode: ReleaseAuthorization := ClientOnly): Account {
    Account(Creation.FreshContract(CLIENT, FREELANCER, arbiter, mode), Creation.FreshMilestones(amounts))
  }

  function FundedWith(amounts: seq<int>, total: int, arbiter: Option<Address> := None,
                      mode: ReleaseAuthorization := ClientOnly): Account {
    var a := Offer(amounts, arbiter, mode);
    a.(contract := a.contract.(status := Funded, fundedAmount := total, totalDeposited := total))
  }

  // ---- steps that go through ----

  predicate Working(s: State) {
    s.config.initialized && !s.config.paused && !s.config.emergency && s.config.tokenBound && s.config.maxTotal.None?
  }

  lemma Creates(s: State, amounts: seq<int>, arbiter: Option<Address> := None, mode: ReleaseAuthorization := ClientOnly)
    requires !s.config.paused && !s.config.emergency && s.config.maxTotal.None?
    requires s.nextId !in s.accounts && s.nextId < U32_MAX
    requires arbiter != Some(CLIENT) && arbiter != Some(FREELANCER) && (NeedsArbiter(mode) ==> arbiter.Some?)
    requires 0 < |amounts| <= MAX_MILESTONES && Amounts.AllPositive(amounts) && Amounts.Sum(amounts) <= I128_MAX
    ensures Step(s, Create(CLIENT, FREELANCER, arbiter, amounts, mode))
         == Success(Store(s, s.nextId, Offer(amounts, arbiter, mode)).(nextId := s.nextId + 1))
  {
    hide Amounts.AllPositive, Amounts.Sum, Creation.FreshMilestones;
  }

  lemma Deposits(s: State, id: nat, amounts: seq<int>, total: int, arbiter: Option<Address> := None,
                 mode: ReleaseAuthorization := ClientOnly)
    requires Working(s) && id in s.accounts && id !in s.finalizations && s.accounts[id] == Offer(amounts, arbiter, mode)
    requires Amounts.AllPositive(amounts) && Amounts.Sum(amounts) == total && 0 < total <= I128_MAX
    requires 0 <= s.balance <= I128_MAX - total
    ensures Step(s, Command.Deposit(id, CLIENT, total, total))
         == Success(Store(s.(balance := s.balance + total), id, FundedWith(amounts, total, arbiter, mode)))
  {
    FreshSums(amounts);
    AccumulatedExact(Creation.FreshMilestones(amounts));
    hide Creation.FreshMilestones, Accumulated, Sum, Amounts.AllPositive, Amounts.Sum;
  }

  lemma Approves(s: State, id: nat, index: nat)
    requires Working(s) && id in s.accounts && id !in s.finalizations && Slot(id, index) !in s.approvals
    requires s.clock == CLOCK && index < MAX_MILESTONES
    requires s.accounts[id].contract.status == Funded && index < |s.accounts[id].milestones|
    requires !s.accounts[id].milestones[index].released
    requires MayApprove(Client, s.accounts[id].contract.releaseAuthorization) && s.accounts[id].contract.client == CLIENT
    ensures Step(s, Approve(id, CLIENT, index)) == Success(s.(approvals := s.approvals[Slot(id, index) := FLAG]))
  {
  }

  /** A release by the client on the flag just set, when nothing was released or refunded before. */
  lemma Releases(s: State, id: nat, index: nat, fee: int)
    requires Working(s) && s.clock == CLOCK && id in s.accounts && id !in s.finalizations
    requires Slot(id, index) in s.approvals && s.approvals[Slot(id, index)] == FLAG
    requires var a := s.accounts[id];
             && a.contract.status == Funded && a.contract.client == CLIENT
             && a.contract.releaseAuthorization == ClientOnly
             && a.contract.releasedAmount == 0 && a.contract.refundedAmount == 0
             && index < |a.milestones| && !Settled(a.milestones[index])
             && 0 <= fee <= a.milestones[index].amount <= a.contract.fundedAmount - s.fees
             && a.contract.fundedAmount <= I128_MAX
             && Fees.ReleaseFee(s.config, a.milestones[index].amount) == Success(fee)
             && a.milestones[index].amount <= s.balance
    requires 0 <= s.fees
    ensures var a := s.accounts[id];
            var m := a.milestones[index];
            Step(s, Command.Release(id, CLIENT, index))
            == Release.Complete(s.(balance := s.balance - (m.amount - fee), fees := s.fees + fee,
                                   approvals := s.approvals - {Slot(id, index)}), id,
                                Account(a.contract.(releasedAmount := m.amount - fee),
                                        a.milestones[index := Release.MarkReleased(m, fee)]))
  {
    hide Fees.ReleaseFee, Release.Complete, Release.MarkReleased;
  }

  const FLAG := Temporary(Approvals(true, false, false), 100 + APPROVAL_TTL)

  // ---- a fee of 100 percent and a cancellation ----

  function FullFeeFunded(): State {
    Opened(10_000).(accounts := map[1 := FundedWith([5, 5], 10)], nextId := 2, balance := 10)
  }

  function FullFeeReleased(): State {
    var a := FundedWith([5, 5], 10);
    FullFeeFunded().(accounts := map[1 := a.(milestones := a.milestones[0 := Release.MarkReleased(a.milestones[0], 5)])],
                     fees := 5)
  }

  function FullFeeCancelled(): State {
    var a := FullFeeReleased().accounts[1];
    FullFeeReleased().(accounts := map[1 := a.(contract := a.contract.(status := Cancelled, refundedAmount := 10))],
                       balance := 0)
  }

  function FullFeeRun(): seq<Command> {
    Opening(10_000) + [Create(CLIENT, FREELANCER, None, [5, 5], ClientOnly)] + [Command.Deposit(1, CLIENT, 10, 10)]
    + [Approve(1, CLIENT, 0)] + [Command.Release(1, CLIENT, 0)] + [Cancel(1, CLIENT)]
  }

  lemma SumOfTwo(x: int, y: int)
    ensures Amounts.Sum([x, y]) == x + y
  {
    assert Amounts.Sum([x]) == x by {
      assert [x][..0] == [];
    }
    assert [x, y][..1] == [x];
  }

  function FullFeeCreated(): State {
    Opened(10_000).(accounts := map[1 := Offer([5, 5])], nextId := 2)
  }

  lemma FullFeeFunds()
    ensures Step(Opened(10_000), Create(CLIENT, FREELANCER, None, [5, 5], ClientOnly)) == Success(FullFeeCreated())
    ensures Step(FullFeeCreated(), Command.Deposit(1, CLIENT, 10, 10)) == Success(FullFeeFunded())
  {
    SumOfTwo(5, 5);
    hide FundedWith, Step, Offer, Amounts.Sum;
    Creates(Opened(10_000), [5, 5]);
    Deposits(FullFeeCreated(), 1, [5, 5], 10);
    assert map[1 := Offer([5, 5])][1 := FundedWith([5, 5], 10)] == map[1 := FundedWith([5, 5], 10)];
  }

  lemma FullFeeReleases()
    ensures Step(FullFeeFunded(), Approve(1, CLIENT, 0)) == Success(FullFeeFunded().(approvals := map[Slot(1, 0) := FLAG]))
    ensures Step(FullFeeFunded().(approvals := map[Slot(1, 0) := FLAG]), Command.Release(1, CLIENT, 0)) == Success(FullFeeReleased())
  {
    var s := FullFeeFunded();
    var a := s.accounts[1];
    assert a.milestones == [Creation.FreshMilestone(5), Creation.FreshMilestone(5)];
    hide Step;
    Approves(s, 1, 0);
    var t := s.(approvals := map[Slot(1, 0) := FLAG]);
    Releases(t, 1, 0, 5);
    assert t.approvals - {Slot(1, 0)} == map[];
    var released := a.milestones[0 := Release.MarkReleased(a.milestones[0], 5)];
    assert !Settled(released[1]);
    assert t.accounts[1 := a.(milestones := released)] == map[1 := a.(milestones := released)];
  }

  lemma FullFeeCancels()
    ensures Step(FullFeeReleased(), Cancel(1, CLIENT)) == Success(FullFeeCancelled())
  {
    var a := FullFeeReleased().accounts[1];
    hide Creation.FreshMilestones, Release.MarkReleased;
    assert FullFeeReleased().accounts[1 := a.(contract := a.contract.(status := Cancelled, refundedAmount := 10))]
        == FullFeeCancelled().accounts;
  }

  /** At 10_000 basis points a cancellation returns the retained fees too: the fee pot is left uncovered and
      its withdrawal fails, although no milestone was rolled back. */
  lemma FullFeeBreaksSolvency()
    ensures var s := After(Genesis(CLOCK), FullFeeRun());
            && !Solvency.Solvent(s)
            && Step(s, WithdrawFees(5)) == Failure(TransferFailed)
            && (forall cmd :: cmd in FullFeeRun() ==> !cmd.RollBackMilestone?)
  {
    var run := Opening(10_000);
    OpeningRuns(10_000);
    FullFeeFunds();
    FullFeeReleases();
    FullFeeCancels();
    hide Step, After;
    var create := Create(CLIENT, FREELANCER, None, [5, 5], ClientOnly);
    var deposit := Command.Deposit(1, CLIENT, 10, 10);
    Extend(Genesis(CLOCK), run, create);
    Extend(Genesis(CLOCK), run + [create], deposit);
    Extend(Genesis(CLOCK), run + [create] + [deposit], Approve(1, CLIENT, 0));
    Extend(Genesis(CLOCK), run + [create] + [deposit] + [Approve(1, CLIENT, 0)], Command.Release(1, CLIENT, 0));
    Extend(Genesis(CLOCK), run + [create] + [deposit] + [Approve(1, CLIENT, 0)] + [Command.Release(1, CLIENT, 0)],
           Cancel(1, CLIENT));
    FullFeeEnds();
  }

  lemma FullFeeEnds()
    ensures !Solvency.Solvent(FullFeeCancelled())
    ensures Step(FullFeeCancelled(), WithdrawFees(5)) == Failure(TransferFailed)
  {
    TotalRemove(Reserve, FullFeeCancelled().accounts, 1);
    assert FullFeeCancelled().accounts - {1} == map[];
  }

  // ---- the shared fee pot blocks a fully funded contract ----

  function Done(): Account {
    var a := FundedWith([100], 100);
    Account(a.contract.(releasedAmount := 50, status := Completed),
            a.milestones[0 := Release.MarkReleased(a.milestones[0], 50)])
  }

  function OneOffered(): State {
    Opened(5_000).(accounts := map[1 := Offer([100])], nextId := 2)
  }

  function OneFunded(): State {
    OneOffered().(accounts := map[1 := FundedWith([100], 100)], balance := 100)
  }

  function OneDone(): State {
    OneOffered().(accounts := map[1 := Done()], balance := 50, fees := 50, credits := map[FREELANCER := 1])
  }

  function TwoOffered(): State {
    OneDone().(accounts := map[1 := Done(), 2 := Offer([100])], nextId := 3)
  }

  function TwoFunded(): State {
    OneDone().(accounts := map[1 := Done(), 2 := FundedWith([100], 100)], nextId := 3, balance := 150)
  }

  function FirstRun(): seq<Command> {
    Opening(5_000) + [Create(CLIENT, FREELANCER, None, [100], ClientOnly)] + [Command.Deposit(1, CLIENT, 100, 100)]
    + [Approve(1, CLIENT, 0)] + [Command.Release(1, CLIENT, 0)]
  }

  function SecondRun(): seq<Command> {
    FirstRun() + [Create(CLIENT, FREELANCER, None, [100], ClientOnly)] + [Command.Deposit(2, CLIENT, 100, 100)]
    + [Approve(2, CLIENT, 0)]
  }

  lemma SumOfOne(x: int)
    ensures Amounts.Sum([x]) == x
  {
    assert [x][..0] == [];
  }

  lemma OneFunds()
    ensures Step(Opened(5_000), Create(CLIENT, FREELANCER, None, [100], ClientOnly)) == Success(OneOffered())
    ensures Step(OneOffered(), Command.Deposit(1, CLIENT, 100, 100)) == Success(OneFunded())
  {
    SumOfOne(100);
    hide FundedWith, Step, Offer, Amounts.Sum;
    Creates(Opened(5_000), [100]);
    Deposits(OneOffered(), 1, [100], 100);
    assert map[1 := Offer([100])][1 := FundedWith([100], 100)] == map[1 := FundedWith([100], 100)];
  }

  lemma OneCompletes()
    ensures Step(OneFunded(), Approve(1, CLIENT, 0)) == Success(OneFunded().(approvals := map[Slot(1, 0) := FLAG]))
    ensures Step(OneFunded().(approvals := map[Slot(1, 0) := FLAG]), Command.Release(1, CLIENT, 0)) == Success(OneDone())
  {
    var s := OneFunded();
    var a := s.accounts[1];
    assert a.milestones == [Creation.FreshMilestone(100)];
    hide Step;
    Approves(s, 1, 0);
    var t := s.(approvals := map[Slot(1, 0) := FLAG]);
    Releases(t, 1, 0, 50);
    assert t.approvals - {Slot(1, 0)} == map[];
    assert t.accounts[1 := Done()] == map[1 := Done()];
  }

  lemma TwoFunds()
    ensures Step(OneDone(), Create(CLIENT, FREELANCER, None, [100], ClientOnly)) == Success(TwoOffered())
    ensures Step(TwoOffered(), Command.Deposit(2, CLIENT, 100, 100)) == Success(TwoFunded())
    ensures Step(TwoFunded(), Approve(2, CLIENT, 0)) == Success(TwoFunded().(approvals := map[Slot(2, 0) := FLAG]))
  {
    SumOfOne(100);
    assert FundedWith([100], 100).milestones == [Creation.FreshMilestone(100)];
    hide Step, Done, Offer, Amounts.Sum;
    Creates(OneDone(), [100]);
    Deposits(TwoOffered(), 2, [100], 100);
    Approves(TwoFunded(), 2, 0);
    assert OneDone().accounts[2 := Offer([100])] == TwoOffered().accounts;
    assert TwoOffered().accounts[2 := FundedWith([100], 100)] == TwoFunded().accounts;
  }

  lemma FirstRuns()
    ensures After(Genesis(CLOCK), FirstRun()) == OneDone()
  {
    var run := Opening(5_000);
    OpeningRuns(5_000);
    OneFunds();
    OneCompletes();
    hide Step, After;
    var create := Create(CLIENT, FREELANCER, None, [100], ClientOnly);
    var deposit := Command.Deposit(1, CLIENT, 100, 100);
    Extend(Genesis(CLOCK), run, create);
    Extend(Genesis(CLOCK), run + [create], deposit);
    Extend(Genesis(CLOCK), run + [create] + [deposit], Approve(1, CLIENT, 0));
    Extend(Genesis(CLOCK), run + [create] + [deposit] + [Approve(1, CLIENT, 0)], Command.Release(1, CLIENT, 0));
  }

  /** The release guard subtracts the fees of every contract from this contract's own balance: here the second
      contract is fully funded and approved, and its only milestone cannot be released. */
  lemma SharedPotBlocks()
    ensures var s := After(Genesis(CLOCK), SecondRun());
            && 2 in s.accounts && s.accounts[2] == FundedWith([100], 100)
            && Release.Releasable(s, 2, CLIENT, 0).Success?
            && s.balance - s.fees == 100
            && Step(s, Command.Release(2, CLIENT, 0)) == Failure(InsufficientFunds)
  {
    FirstRuns();
    TwoFunds();
    hide Step, After, FirstRun;
    var create := Create(CLIENT, FREELANCER, None, [100], ClientOnly);
    var deposit := Command.Deposit(2, CLIENT, 100, 100);
    Extend(Genesis(CLOCK), FirstRun(), create);
    Extend(Genesis(CLOCK), FirstRun() + [create], deposit);
    Extend(Genesis(CLOCK), FirstRun() + [create] + [deposit], Approve(2, CLIENT, 0));
    PotBlocks();
  }

  lemma PotBlocks()
    ensures var s := TwoFunded().(approvals := map[Slot(2, 0) := FLAG]);
            && Release.Releasable(s, 2, CLIENT, 0).Success?
            && Step(s, Command.Release(2, CLIENT, 0)) == Failure(InsufficientFunds)
  {
    assert FundedWith([100], 100).milestones == [Creation.FreshMilestone(100)];
  }

  /** One release with a fee is enough to break the documented balance equation. */
  lemma DocumentedBalanceFails()
    ensures var s := After(Genesis(CLOCK), FirstRun());
            s.balance == 50 && s.fees == 50 && Total(Claim, s.accounts) == 50
  {
    FirstRuns();
    hide After, FirstRun;
    TotalRemove(Claim, OneDone().accounts, 1);
    assert OneDone().accounts - {1} == map[];
  }
}
