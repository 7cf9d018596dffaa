/** Concrete runs for what the documentation and common sense expect of approvals, resolutions, migrations and ids,
    and the escrow does not do. */
module ExpectationRuns {
  import opened Results
  import opened Types
  import opened Protocol
  import opened AccountInvariant
  import opened AccountSums
  import opened Authorization
  import opened LedgerInvariant
  import opened Milestones
  import opened Scenarios
  import opened StepsKeepInvariant
  import Amounts
  import ApprovalTrace
  import Creation
  import Dispute
  import DisputeSettlement
  import MilestoneApprovals
  import Participants
  import Parties
  import Release
  import TempStorage

  // ---- a first contract, created and funded ----

  function FundedState(feeBps: nat, amounts: seq<int>, total: int, arbiter: Option<Address>,
                       mode: ReleaseAuthorization): State {
    Opened(feeBps).(accounts := map[1 := FundedWith(amounts, total, arbiter, mode)], nextId := 2, balance := total)
  }

  function FundingRun(feeBps: nat, amounts: seq<int>, total: int, arbiter: Option<Address>,
                      mode: ReleaseAuthorization): seq<Command> {
    Opening(feeBps) + [Create(CLIENT, FREELANCER, arbiter, amounts, mode)] + [Command.Deposit(1, CLIENT, total, total)]
  }

  predicate Payable(amounts: seq<int>, total: int, arbiter: Option<Address>, mode: ReleaseAuthorization) {
    && 0 < |amounts| <= MAX_MILESTONES && Amounts.AllPositive(amounts)
    && Amounts.Sum(amounts) == total && 0 < total <= I128_MAX
    && arbiter != Some(CLIENT) && arbiter != Some(FREELANCER) && (NeedsArbiter(mode) ==> arbiter.Some?)
  }

  function OfferedState(feeBps: nat, amounts: seq<int>, arbiter: Option<Address>, mode: ReleaseAuthorization): State {
    Opened(feeBps).(accounts := map[1 := Offer(amounts, arbiter, mode)], nextId := 2)
  }

  lemma FundingSteps(feeBps: nat, amounts: seq<int>, total: int, arbiter: Option<Address>, mode: ReleaseAuthorization)
    requires Payable(amounts, total, arbiter, mode)
    ensures Step(Opened(feeBps), Create(CLIENT, FREELANCER, arbiter, amounts, mode))
         == Success(OfferedState(feeBps, amounts, arbiter, mode))
    ensures Step(OfferedState(feeBps, amounts, arbiter, mode), Command.Deposit(1, CLIENT, total, total))
         == Success(FundedState(feeBps, amounts, total, arbiter, mode))
  {
    hide Step, FundedWith, Offer, Amounts.Sum, Amounts.AllPositive, NeedsArbiter;
    Creates(Opened(feeBps), amounts, arbiter, mode);
    Deposits(OfferedState(feeBps, amounts, arbiter, mode), 1, amounts, total, arbiter, mode);
    assert map[1 := Offer(amounts, arbiter, mode)][1 := FundedWith(amounts, total, arbiter, mode)]
        == map[1 := FundedWith(amounts, total, arbiter, mode)];
  }

  lemma FundingRuns(feeBps: nat, amounts: seq<int>, total: int, arbiter: Option<Address>, mode: ReleaseAuthorization)
    requires feeBps <= BPS_DENOMINATOR && Payable(amounts, total, arbiter, mode)
    ensures After(Genesis(CLOCK), FundingRun(feeBps, amounts, total, arbiter, mode))
         == FundedState(feeBps, amounts, total, arbiter, mode)
    ensures Ok(FundedState(feeBps, amounts, total, arbiter, mode))
  {
    hide Ok, Step, After, Payable, Opening, Opened, Genesis, FundedState, OfferedState;
    OpeningRuns(feeBps);
    FundingSteps(feeBps, amounts, total, arbiter, mode);
    var run, create := Opening(feeBps), Create(CLIENT, FREELANCER, arbiter, amounts, mode);
    Next(run, Opened(feeBps), create, OfferedState(feeBps, amounts, arbiter, mode));
    Next(run + [create], OfferedState(feeBps, amounts, arbiter, mode), Command.Deposit(1, CLIENT, total, total),
         FundedState(feeBps, amounts, total, arbiter, mode));
    Reached(FundingRun(feeBps, amounts, total, arbiter, mode));
  }

  lemma Reached(run: seq<Command>)
    ensures Ok(After(Genesis(CLOCK), run))
  {
    hide Ok, After;
    GenesisOk(CLOCK);
    RunKeeps(Genesis(CLOCK), run);
  }

  // ---- an approval that does not reset the lifetime ----

  function TwoApprovals(): seq<Command> {
    FundingRun(0, [100], 100, None, MultiSig) + [Approve(1, CLIENT, 0)] + [Tick(1_000, 5_000)]
    + [Approve(1, FREELANCER, 0)]
  }

  lemma SecondApproves(s: State)
    requires s == FundedState(0, [100], 100, None, MultiSig)
                  .(approvals := map[Slot(1, 0) := FLAG], clock := Clock(1_100, 6_000, 16))
    ensures Step(s, Approve(1, FREELANCER, 0))
         == Success(s.(approvals := map[Slot(1, 0) := Temporary(Approvals(true, true, false), 100 + APPROVAL_TTL)]))
  {
    assert FundedWith([100], 100, None, MultiSig).milestones == [Creation.FreshMilestone(100)];
    assert s.approvals[Slot(1, 0) := Temporary(Approvals(true, true, false), 100 + APPROVAL_TTL)]
        == map[Slot(1, 0) := Temporary(Approvals(true, true, false), 100 + APPROVAL_TTL)];
  }

  /** The freelancer approves a thousand ledgers after the client: the record still expires a week after the first
      approval, not a week after the second. */
  lemma SecondApprovalKeepsExpiry()
    ensures var s, slot := After(Genesis(CLOCK), TwoApprovals()), Slot(1, 0);
            && MilestoneApprovals.LiveApprovals(s, slot) == Some(Approvals(true, true, false))
            && s.clock.ledger == CLOCK.ledger + 1_000
            && slot in s.approvals
            && s.approvals[slot].liveUntil == CLOCK.ledger + APPROVAL_TTL < s.clock.ledger + APPROVAL_TTL
  {
    var run := FundingRun(0, [100], 100, None, MultiSig);
    var s := FundedState(0, [100], 100, None, MultiSig);
    SumOfOne(100);
    FundingRuns(0, [100], 100, None, MultiSig);
    assert FundedWith([100], 100, None, MultiSig).milestones == [Creation.FreshMilestone(100)];
    var approved := s.(approvals := map[Slot(1, 0) := FLAG]);
    var later := approved.(clock := Clock(1_100, 6_000, 16));
    assert Step(approved, Tick(1_000, 5_000)) == Success(later);
    hide Step, After, FundingRun;
    Approves(s, 1, 0);
    SecondApproves(later);
    Extend(Genesis(CLOCK), run, Approve(1, CLIENT, 0));
    Extend(Genesis(CLOCK), run + [Approve(1, CLIENT, 0)], Tick(1_000, 5_000));
    Extend(Genesis(CLOCK), run + [Approve(1, CLIENT, 0)] + [Tick(1_000, 5_000)], Approve(1, FREELANCER, 0));
  }

  // ---- resolutions that end in the other status ----

  /** Raising and resolving a dispute of a funded contract goes through, and the status it ends in. */
  lemma RaisesAndResolves(s: State, id: nat, resolution: Resolution)
    requires Ok(s) && Working(s) && id in s.accounts && id !in s.finalizations
    requires var c := s.accounts[id].contract; c.status == Funded && c.client == CLIENT && c.arbiter == Some(ARBITER)
    requires DisputeSettlement.Splittable(Value(Claim, s.accounts[id]), resolution)
    requires resolution.FullRefund? || (resolution.PartialRefund? && Value(Claim, s.accounts[id]) <= 3)
    ensures Step(s, RaiseDispute(id, CLIENT)).Success?
    ensures var u := Step(Step(s, RaiseDispute(id, CLIENT)).value, ResolveDispute(id, ARBITER, resolution));
            && u.Success? && id in u.value.accounts
            && u.value.accounts[id].contract.status
               == if s.accounts[id].contract.releasedAmount == 0 then Types.Refunded else Completed
  {
    Raises(s, id);
    var t := Step(s, RaiseDispute(id, CLIENT)).value;
    hide *;
    DisputeSettlement.StepKeepsOk(s, RaiseDispute(id, CLIENT));
    DisputeSettlement.ResolveExactly(t, id, ARBITER, resolution);
    WorkingGuards(s);
    ResolveStep(t, id, resolution);
    DisputeSettlement.ResolutionStatus(t, id, ARBITER, resolution);
  }

  lemma ResolveStep(s: State, id: nat, resolution: Resolution)
    ensures Step(s, ResolveDispute(id, ARBITER, resolution)) == Dispute.Resolve(s, id, ARBITER, resolution)
  {
    hide Dispute.Resolve;
  }

  lemma WorkingGuards(s: State)
    requires Working(s)
    ensures RequireInitialized(s.config).Holds? && RequireNotPaused(s.config).Holds?
  {
  }

  lemma Raises(s: State, id: nat)
    requires Working(s) && id in s.accounts && id !in s.finalizations
    requires var c := s.accounts[id].contract; c.status == Funded && c.client == CLIENT && c.arbiter == Some(ARBITER)
    ensures Step(s, RaiseDispute(id, CLIENT)).Success?
    ensures var t := Step(s, RaiseDispute(id, CLIENT)).value;
            && t.config == s.config && t.finalizations == s.finalizations && id in t.accounts
            && t.accounts[id].contract == s.accounts[id].contract.(status := Disputed)
            && Value(Claim, t.accounts[id]) == Value(Claim, s.accounts[id])
  {
  }

  function PartlyReleased(): State {
    var a := FundedWith([5, 5], 10, Some(ARBITER), ClientOnly);
    FundedState(0, [5, 5], 10, Some(ARBITER), ClientOnly)
    .(accounts := map[1 := Account(a.contract.(releasedAmount := 5),
                                   a.milestones[0 := Release.MarkReleased(a.milestones[0], 0)])],
      balance := 5)
  }

  function PartlyReleasedRun(): seq<Command> {
    FundingRun(0, [5, 5], 10, Some(ARBITER), ClientOnly) + [Approve(1, CLIENT, 0)] + [Command.Release(1, CLIENT, 0)]
  }

  lemma PartlyReleaseSteps()
    ensures var s := FundedState(0, [5, 5], 10, Some(ARBITER), ClientOnly);
            var t := s.(approvals := map[Slot(1, 0) := FLAG]);
            && Step(s, Approve(1, CLIENT, 0)) == Success(t)
            && Step(t, Command.Release(1, CLIENT, 0)) == Success(PartlyReleased())
  {
    var s := FundedState(0, [5, 5], 10, Some(ARBITER), ClientOnly);
    var a := s.accounts[1];
    assert a.milestones == [Creation.FreshMilestone(5), Creation.FreshMilestone(5)];
    hide Ok, Step;
    Approves(s, 1, 0);
    var t := s.(approvals := map[Slot(1, 0) := FLAG]);
    Releases(t, 1, 0, 0);
    assert t.approvals - {Slot(1, 0)} == map[];
    assert !Settled(a.milestones[0 := Release.MarkReleased(a.milestones[0], 0)][1]);
    assert t.accounts[1 := PartlyReleased().accounts[1]] == PartlyReleased().accounts;
  }

  lemma PartlyReleases()
    ensures After(Genesis(CLOCK), PartlyReleasedRun()) == PartlyReleased() && Ok(PartlyReleased())
  {
    var s := FundedState(0, [5, 5], 10, Some(ARBITER), ClientOnly);
    SumOfTwo(5, 5);
    hide Ok, Step, After, FundingRun, FundedState, PartlyReleased, Amounts.Sum;
    FundingRuns(0, [5, 5], 10, Some(ARBITER), ClientOnly);
    PartlyReleaseSteps();
    var run, t := FundingRun(0, [5, 5], 10, Some(ARBITER), ClientOnly), s.(approvals := map[Slot(1, 0) := FLAG]);
    Next(run, s, Approve(1, CLIENT, 0), t);
    Next(run + [Approve(1, CLIENT, 0)], t, Command.Release(1, CLIENT, 0), PartlyReleased());
    Reached(PartlyReleasedRun());
  }

  lemma ResolvedRun(run: seq<Command>, s: State, resolution: Resolution)
    requires After(Genesis(CLOCK), run) == s && Step(s, RaiseDispute(1, CLIENT)).Success?
    requires Step(Step(s, RaiseDispute(1, CLIENT)).value, ResolveDispute(1, ARBITER, resolution)).Success?
    ensures After(Genesis(CLOCK), run + [RaiseDispute(1, CLIENT)] + [ResolveDispute(1, ARBITER, resolution)])
         == Step(Step(s, RaiseDispute(1, CLIENT)).value, ResolveDispute(1, ARBITER, resolution)).value
  {
    hide Step, After;
    Extend(Genesis(CLOCK), run, RaiseDispute(1, CLIENT));
    Extend(Genesis(CLOCK), run + [RaiseDispute(1, CLIENT)], ResolveDispute(1, ARBITER, resolution));
  }

  /** A full refund after one release completes the contract. */
  lemma FullRefundCompletes()
    ensures var s := After(Genesis(CLOCK), PartlyReleasedRun() + [RaiseDispute(1, CLIENT)]
                                           + [ResolveDispute(1, ARBITER, FullRefund)]);
            1 in s.accounts && s.accounts[1].contract.status == Completed
  {
    PartlyReleases();
    hide Ok, Step, After, PartlyReleasedRun;
    RaisesAndResolves(PartlyReleased(), 1, FullRefund);
    ResolvedRun(PartlyReleasedRun(), PartlyReleased(), FullRefund);
  }

  /** A partial refund of three stroops gives the freelancer nothing and refunds the contract. */
  lemma PartialRefundRefunds()
    ensures var s := After(Genesis(CLOCK), FundingRun(0, [3], 3, Some(ARBITER), ClientOnly) + [RaiseDispute(1, CLIENT)]
                                           + [ResolveDispute(1, ARBITER, PartialRefund)]);
            1 in s.accounts && s.accounts[1].contract.status == Types.Refunded
  {
    var s := FundedState(0, [3], 3, Some(ARBITER), ClientOnly);
    SumOfOne(3);
    FundingRuns(0, [3], 3, Some(ARBITER), ClientOnly);
    hide Ok, Step, After, FundingRun;
    RaisesAndResolves(s, 1, PartialRefund);
    ResolvedRun(FundingRun(0, [3], 3, Some(ARBITER), ClientOnly), s, PartialRefund);
  }

  // ---- a contract migrated to its arbiter ----

  function MigratedRun(): seq<Command> {
    FundingRun(0, [100], 100, Some(ARBITER), ArbiterOnly) + [ProposeMigration(1, CLIENT, ARBITER)]
    + [AcceptMigration(1, ARBITER)]
  }

  lemma Migrates(s: State, id: nat)
    requires Working(s) && id in s.accounts && id !in s.finalizations && id !in s.migrations
    requires var c := s.accounts[id].contract; c.status == Funded && c.client == CLIENT && c.freelancer == FREELANCER
    ensures Step(s, ProposeMigration(id, CLIENT, ARBITER)).Success?
    ensures var t := Step(Step(s, ProposeMigration(id, CLIENT, ARBITER)).value, AcceptMigration(id, ARBITER));
            && t.Success? && id in t.value.accounts
            && t.value.accounts[id].contract == s.accounts[id].contract.(client := ARBITER)
  {
    Proposes(s, id);
    Accepts(Step(s, ProposeMigration(id, CLIENT, ARBITER)).value, id);
  }

  lemma Proposes(s: State, id: nat)
    requires Working(s) && id in s.accounts && id !in s.finalizations && id !in s.migrations
    requires var c := s.accounts[id].contract; c.status == Funded && c.client == CLIENT && c.freelancer == FREELANCER
    ensures Step(s, ProposeMigration(id, CLIENT, ARBITER)).Success?
    ensures var t := Step(s, ProposeMigration(id, CLIENT, ARBITER)).value;
            && t == s.(migrations := t.migrations) && Participants.Pending(t, id).Some?
            && Participants.Pending(t, id).value.proposedClient == ARBITER
  {
    hide Participants.SaturatingAdd;
  }

  lemma Accepts(s: State, id: nat)
    requires Working(s) && id in s.accounts && id !in s.finalizations && s.accounts[id].contract.status == Funded
    requires Participants.Pending(s, id).Some? && Participants.Pending(s, id).value.proposedClient == ARBITER
    ensures var t := Step(s, AcceptMigration(id, ARBITER));
            && t.Success? && id in t.value.accounts
            && t.value.accounts[id].contract == s.accounts[id].contract.(client := ARBITER)
  {
    hide Participants.Pending;
  }

  /** Once its arbiter has become the client of an `ArbiterOnly` contract, the address the release accepts cannot
      approve, and neither can anyone else. */
  lemma MigratedContractLocked()
    ensures var s := After(Genesis(CLOCK), MigratedRun());
            && 1 in s.accounts && s.accounts[1].contract.status == Funded
            && MayRelease(ARBITER, s.accounts[1].contract)
            && forall caller, index :: Step(s, Approve(1, caller, index)).Failure?
  {
    var run, s := FundingRun(0, [100], 100, Some(ARBITER), ArbiterOnly), FundedState(0, [100], 100, Some(ARBITER), ArbiterOnly);
    SumOfOne(100);
    FundingRuns(0, [100], 100, Some(ARBITER), ArbiterOnly);
    GenesisOk(CLOCK);
    RunKeeps(Genesis(CLOCK), MigratedRun());
    Migrates(s, 1);
    hide Ok, Step, After, FundingRun;
    Extend(Genesis(CLOCK), run, ProposeMigration(1, CLIENT, ARBITER));
    Extend(Genesis(CLOCK), run + [ProposeMigration(1, CLIENT, ARBITER)], AcceptMigration(1, ARBITER));
    var t := After(Genesis(CLOCK), MigratedRun());
    forall caller, index ensures Step(t, Approve(1, caller, index)).Failure? {
      Parties.ClientArbiterLocked(t, 1, caller, index);
      ApproveStep(t, caller, index);
    }
  }

  lemma ApproveStep(s: State, caller: Address, index: nat)
    ensures Step(s, Approve(1, caller, index)) == MilestoneApprovals.Approve(s, 1, caller, index)
  {
    hide MilestoneApprovals.Approve;
  }

  // ---- a contract created before the initialization ----

  function EarlyRun(): seq<Command> {
    [] + [Create(CLIENT, FREELANCER, None, [100], ClientOnly)] + [Initialize(ADMIN)]
  }

  /** A contract created first and an initialization afterwards: the next creation collides. */
  lemma EarlyCreateCollides()
    ensures Step(After(Genesis(CLOCK), EarlyRun()), Create(CLIENT, FREELANCER, None, [100], ClientOnly))
         == Failure(ContractIdCollision)
  {
    var create, g := Create(CLIENT, FREELANCER, None, [100], ClientOnly), Genesis(CLOCK);
    var created := g.(accounts := map[1 := Offer([100])], nextId := 2);
    SumOfOne(100);
    assert After(g, []) == g;
    Creates(g, [100]);
    Collides(created.(config := created.config.(initialized := true, admin := Some(ADMIN)), nextId := 1));
    Initializes(created);
    hide Step, After, Offer;
    Extend(g, [], create);
    Extend(g, [] + [create], Initialize(ADMIN));
  }

  lemma Initializes(s: State)
    requires !s.config.initialized
    ensures Step(s, Initialize(ADMIN))
         == Success(s.(config := s.config.(initialized := true, admin := Some(ADMIN)), nextId := 1))
  {
  }

  lemma Collides(s: State)
    requires !s.config.paused && !s.config.emergency && s.config.maxTotal.None? && s.nextId in s.accounts
    ensures Step(s, Create(CLIENT, FREELANCER, None, [100], ClientOnly)) == Failure(ContractIdCollision)
  {
    SumOfOne(100);
    hide Amounts.Sum;
  }
}
