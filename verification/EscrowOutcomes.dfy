/** Outcomes of the entrypoints, spelled out: what each call checks, and the storage it leaves. These facts
    connect the step-by-step methods of the contract object with the specification functions. */
module EscrowOutcomes {
  import opened Results
  import opened Types
  import opened Authorization
  import opened AccountInvariant
  import opened AccountSums
  import opened LedgerInvariant
  import opened Milestones
  import opened StepsKeepInvariant
  import AccountSteps
  import Amounts
  import Creation
  import Deposit
  import Dispute
  import DisputeSettlement
  import Fees
  import Finalize
  import MilestoneApprovals
  import Participants
  import Protocol
  import Ratings
  import Refund
  import RefundOrder
  import Release
  import ReleaseGuard
  import TempStorage
  import Token

  /** A call either fails with the error of its specification and changes nothing, or reaches the state of it. */
  ghost predicate Outcome(before: State, expected: Result<State, Error>, error: Option<Error>, after: State) {
    match expected
    case Success(t) => error.None? && after == t
    case Failure(e) => error == Some(e) && after == before
  }

  lemma PayOutIs(s: State, amount: int)
    ensures Token.PayOut(s, amount)
         == if 0 <= amount <= s.balance then Success(s.(balance := s.balance - amount)) else Failure(TransferFailed)
  {
  }

  lemma BookedIs(s: State, id: nat, index: nat, fee: int)
    requires id in s.accounts && index < |s.accounts[id].milestones|
    ensures ReleaseGuard.Booked(s, id, index, fee, s.fees + fee)
         == MilestoneApprovals.Clear(s.(balance := s.balance - (s.accounts[id].milestones[index].amount - fee),
                                        fees := s.fees + fee), Slot(id, index))
  {
  }

  lemma FeeInRange(s: State, gross: int)
    requires s.config.feeBps <= BPS_DENOMINATOR && 0 < gross
    ensures Fees.ReleaseFee(s.config, gross).Success? ==> 0 <= Fees.ReleaseFee(s.config, gross).value <= gross
    ensures Fees.ProtocolFee(gross, 0) == Success(0)
  {
    if Fees.ReleaseFee(s.config, gross).Success? {
      ReleaseFeeOk(s, gross);
    }
  }

  lemma ReleaseRefused(s: State, id: nat, caller: Address, index: nat)
    requires Release.Releasable(s, id, caller, index).Failure?
    ensures Release.Release(s, id, caller, index) == Failure(Release.Releasable(s, id, caller, index).error)
  {
    hide Release.Releasable, Release.Funding, Release.Book, Release.Complete;
  }

  /** The account after a release, before its status is decided. */
  function Paid(a: Account, index: nat, fee: int): Account
    requires index < |a.milestones|
  {
    Account(a.contract.(releasedAmount := a.contract.releasedAmount + (a.milestones[index].amount - fee)),
            a.milestones[index := Release.MarkReleased(a.milestones[index], fee)])
  }

  /** The outcome of a release whose entry checks pass, spelled out; its unchecked sums stay in range. */
  lemma ReleaseOutcome(s: State, id: nat, caller: Address, index: nat)
    requires Ok(s) && Release.Releasable(s, id, caller, index).Success?
    ensures id in s.accounts && index < |s.accounts[id].milestones| && 0 < s.accounts[id].milestones[index].amount
    ensures Release.Releasable(s, id, caller, index).value == s.accounts[id].milestones[index]
    ensures var a := s.accounts[id];
            var gross := a.milestones[index].amount;
            var funding := Release.Funding(s, a.contract, gross);
            var expected := Release.Release(s, id, caller, index);
            if funding.Failure? then expected == Failure(funding.error)
            else if !(0 <= gross - funding.value <= s.balance) then expected == Failure(TransferFailed)
            else
              var fee, c := funding.value, a.contract;
              var b := Paid(a, index, fee);
              && c.releasedAmount + (gross - fee) <= I128_MAX
              && c.releasedAmount + (gross - fee) + c.refundedAmount + (s.fees + fee) <= c.fundedAmount
              && expected.Success? && Ok(expected.value)
              && expected.value == Completion(ReleaseGuard.Booked(s, id, index, fee, s.fees + fee), id, b)
  {
    hide *;
    OkFacts(s);
    ReleaseGuard.ReleasableFacts(s, id, caller, index);
    AccountAt(s, id);
    var a := s.accounts[id];
    AmountPositive(a, index);
    ReleaseGuard.ReleaseStages(s, id, caller, index);
    var funding := Release.Funding(s, a.contract, a.milestones[index].amount);
    if funding.Success? && 0 <= a.milestones[index].amount - funding.value <= s.balance {
      ReleaseGuard.BookSucceeds(s, a, index);
      BookBounds(a.contract, s.fees, a.milestones[index].amount, funding.value);
      ReleaseGuard.CompleteSucceeds(s, id, index, funding.value);
      PaidIs(a, index, funding.value);
      CompletionIs(ReleaseGuard.Booked(s, id, index, funding.value, s.fees + funding.value), id,
                   Paid(a, index, funding.value));
      ReleaseEffect(s, id, caller, index);
    }
  }

  lemma PaidIs(a: Account, index: nat, fee: int)
    requires index < |a.milestones|
    ensures Paid(a, index, fee)
         == Account(a.contract.(releasedAmount := a.contract.releasedAmount + (a.milestones[index].amount - fee)),
                    a.milestones[index := Release.MarkReleased(a.milestones[index], fee)])
  {
  }

  lemma BookBounds(c: Contract, fees: int, gross: int, fee: int)
    requires Release.Book(c, fees, gross, fee).Success?
    ensures c.releasedAmount + (gross - fee) <= I128_MAX
    ensures c.releasedAmount + (gross - fee) + c.refundedAmount + (fees + fee) <= c.fundedAmount
  {
  }

  /** Writing an account back: with the completed status and a credit if every milestone is settled. */
  function Completion(s: State, id: nat, a: Account): State {
    var who := a.contract.freelancer;
    if AllSettled(a.milestones) then
      s.(credits := s.credits[who := CreditsOf(s.credits, who) + 1],
         accounts := s.accounts[id := a.(contract := a.contract.(status := Completed))])
    else
      s.(accounts := s.accounts[id := a])
  }

  lemma CompletionIs(s: State, id: nat, a: Account)
    requires Release.Complete(s, id, a).Success?
    ensures Release.Complete(s, id, a).value == Completion(s, id, a)
  {
    hide AllSettled;
  }

  // ---- refund and cancellation ----

  lemma RefundRefused(s: State, id: nat, indices: seq<nat>)
    requires Refund.RefundTotal(s, id, indices).Failure?
    ensures Refund.Refund(s, id, indices) == Failure(Refund.RefundTotal(s, id, indices).error)
  {
    hide Refund.RefundTotal, Refund.Complete;
  }

  /** Writing a refunded account back. */
  function RefundCompletion(s: State, id: nat, a: Account): State {
    var who := a.contract.freelancer;
    if !AllSettled(a.milestones) then s.(accounts := s.accounts[id := a])
    else if AllRefunded(a.milestones) then
      s.(accounts := s.accounts[id := a.(contract := a.contract.(status := Types.Refunded))])
    else
      s.(credits := s.credits[who := CreditsOf(s.credits, who) + 1],
         accounts := s.accounts[id := a.(contract := a.contract.(status := Completed))])
  }

  lemma RefundCompletionIs(s: State, id: nat, a: Account)
    requires Refund.Complete(s, id, a).Success?
    ensures Refund.Complete(s, id, a).value == RefundCompletion(s, id, a)
  {
    hide AllSettled, AllRefunded;
  }

  /** The outcome of a refund whose checks pass, spelled out. */
  lemma RefundOutcome(s: State, id: nat, indices: seq<nat>)
    requires Ok(s) && Refund.RefundTotal(s, id, indices).Success?
    ensures id in s.accounts
    ensures forall k :: 0 <= k < |indices| ==> indices[k] < |s.accounts[id].milestones|
    ensures var a, total := s.accounts[id], Refund.RefundTotal(s, id, indices).value;
            var expected := Refund.Refund(s, id, indices);
            && 0 <= total && a.contract.refundedAmount + total <= I128_MAX
            && if total > s.balance then expected == Failure(TransferFailed)
               else
                 && expected.Success? && Ok(expected.value)
                 && expected.value
                    == RefundCompletion(s.(balance := s.balance - total), id,
                         Account(a.contract.(refundedAmount := a.contract.refundedAmount + total),
                                 Refund.MarkAll(a.milestones, indices)))
  {
    hide *;
    OkFacts(s);
    RefundShape(s, id, indices);
    AccountAt(s, id);
    var a, total := s.accounts[id], Refund.RefundTotal(s, id, indices).value;
    BooksBounded(a);
    ClaimIs(a);
    AccountSteps.RequestedUnsettled(a.milestones, indices, s.clock.timestamp);
    RefundUnpaid(s, id, indices);
    if total <= s.balance {
      RefundOrder.RefundGoes(s, id, indices);
      RefundEffect(s, id, indices);
      RefundPaid(s, id, indices);
      RefundedIs(a, indices, total);
      RefundCompletionIs(s.(balance := s.balance - total), id, AccountSteps.RefundedAccount(a, indices, total));
    }
  }

  lemma RefundedIs(a: Account, indices: seq<nat>, total: int)
    ensures AccountSteps.RefundedAccount(a, indices, total)
         == Account(a.contract.(refundedAmount := a.contract.refundedAmount + total), Refund.MarkAll(a.milestones, indices))
  {
  }

  lemma RefundUnpaid(s: State, id: nat, indices: seq<nat>)
    requires Refund.RefundTotal(s, id, indices).Success?
    ensures Refund.RefundTotal(s, id, indices).value > s.balance
            ==> Refund.Refund(s, id, indices) == Failure(TransferFailed)
  {
    hide Refund.RefundTotal, Refund.Complete;
  }

  /** The outcome of a cancellation, spelled out. */
  lemma CancelOutcome(s: State, id: nat, client: Address)
    requires Ok(s)
    ensures var checked, expected := Refund.CancelAmount(s, id, client), Refund.Cancel(s, id, client);
            if checked.Failure? then expected == Failure(checked.error)
            else
              var amount := checked.value;
              && id in s.accounts && 0 <= amount
              && var paid := Returned(s, amount);
                 if paid.Failure? then expected == Failure(paid.error)
                 else
                   var a := s.accounts[id];
                   var c := a.contract.(refundedAmount := a.contract.refundedAmount + amount, status := Cancelled);
                   expected == Success(Store(paid.value, id, Account(c, a.milestones))) && Ok(expected.value)
  {
    hide *;
    if Refund.CancelAmount(s, id, client).Success? {
      CancelFacts(s, id, client);
      AccountAt(s, id);
      BooksBounded(s.accounts[id]);
      ClaimIs(s.accounts[id]);
      OkFacts(s);
    }
    CancelSteps(s, id, client);
    if Refund.Cancel(s, id, client).Success? {
      CancelEffect(s, id, client);
    }
  }

  lemma CancelFacts(s: State, id: nat, client: Address)
    requires Refund.CancelAmount(s, id, client).Success?
    ensures id in s.accounts && Refund.CancelAmount(s, id, client).value == Value(Claim, s.accounts[id])
  {
  }

  lemma CancelSteps(s: State, id: nat, client: Address)
    requires Refund.CancelAmount(s, id, client).Success? ==>
               && id in s.accounts && 0 <= Refund.CancelAmount(s, id, client).value && 0 <= s.balance
               && 0 <= s.accounts[id].contract.refundedAmount + Refund.CancelAmount(s, id, client).value <= I128_MAX
    ensures var checked, expected := Refund.CancelAmount(s, id, client), Refund.Cancel(s, id, client);
            if checked.Failure? then expected == Failure(checked.error)
            else if Returned(s, checked.value).Failure? then expected == Failure(Returned(s, checked.value).error)
            else
              var a, amount := s.accounts[id], checked.value;
              var c := a.contract.(refundedAmount := a.contract.refundedAmount + amount, status := Cancelled);
              expected == Success(Store(Returned(s, amount).value, id, Account(c, a.milestones)))
  {
    hide Refund.CancelAmount, Token.PayOut;
  }

  /** The payment of a cancellation, if there is anything to pay. */
  function Returned(s: State, amount: int): Result<State, Error> {
    if amount > 0 then Token.PayOut(s, amount) else Success(s)
  }

  /** The outcome of a milestone rollback, spelled out; none of its subtractions fails. */
  lemma RollBackOutcome(s: State, id: nat, admin: Address, index: nat)
    requires Ok(s)
    ensures var checked, expected := Release.Reversible(s, id, admin, index), Release.RollBack(s, id, admin, index);
            if checked.Failure? then expected == Failure(checked.error)
            else
              && id in s.accounts && index < |s.accounts[id].milestones| && s.accounts[id].milestones[index] == checked.value
              && expected.Success? && Ok(expected.value)
              && (checked.value.released <==> !checked.value.refunded)
              && expected.value == Store(Unreleased(s, checked.value, Slot(id, index)), id, Reset(s.accounts[id], index))
  {
    hide *;
    var checked := Release.Reversible(s, id, admin, index);
    if checked.Success? {
      ReversibleFacts(s, id, admin, index);
      AccountAt(s, id);
      SettledMeansFunded(s.accounts[id], index);
      AfterRollBackOk(s.accounts[id], index);
    }
    RollBackSteps(s, id, admin, index);
    if checked.Success? {
      RollBackEffect(s, id, admin, index);
    }
  }

  lemma ReversibleFacts(s: State, id: nat, admin: Address, index: nat)
    requires Release.Reversible(s, id, admin, index).Success?
    ensures id in s.accounts && index < |s.accounts[id].milestones| && Settled(s.accounts[id].milestones[index])
    ensures s.accounts[id].contract.status == Funded || s.accounts[id].contract.status == PartiallyFunded
    ensures s.accounts[id].milestones[index] == Release.Reversible(s, id, admin, index).value
    ensures s.accounts[id].milestones[index].released || s.accounts[id].milestones[index].refunded
  {
  }

  /** Pots and approvals once a release is undone. */
  function Unreleased(s: State, m: Milestone, slot: Slot): State {
    if m.released
    then MilestoneApprovals.Clear(s.(fees := Release.ReversedPot(s.fees, m.protocolFee)), slot)
    else s
  }

  /** The account once its settled milestone is reset. */
  function Reset(a: Account, index: nat): Account
    requires index < |a.milestones|
  {
    var m := a.milestones[index];
    if m.released then
      Account(a.contract.(releasedAmount := a.contract.releasedAmount - (m.amount - m.protocolFee)),
              a.milestones[index := m.(released := false, fundedAmount := 0, protocolFee := 0)])
    else
      Account(a.contract.(refundedAmount := a.contract.refundedAmount - m.amount),
              a.milestones[index := m.(refunded := false, refundedAmount := 0)])
  }

  lemma ResetIs(a: Account, index: nat)
    requires index < |a.milestones|
    ensures var m := a.milestones[index];
            Reset(a, index)
            == if m.released then
                 Account(a.contract.(releasedAmount := a.contract.releasedAmount - (m.amount - m.protocolFee)),
                         a.milestones[index := m.(released := false, fundedAmount := 0, protocolFee := 0)])
               else
                 Account(a.contract.(refundedAmount := a.contract.refundedAmount - m.amount),
                         a.milestones[index := m.(refunded := false, refundedAmount := 0)])
  {
  }

  lemma RollBackSteps(s: State, id: nat, admin: Address, index: nat)
    requires Release.Reversible(s, id, admin, index).Success? ==>
               && id in s.accounts && index < |s.accounts[id].milestones|
               && var a, m := s.accounts[id], s.accounts[id].milestones[index];
                  && m == Release.Reversible(s, id, admin, index).value
                  && Settled(m) && !(m.released && m.refunded)
                  && I128_MIN <= m.amount - m.protocolFee <= I128_MAX
                  && I128_MIN <= a.contract.releasedAmount - (m.amount - m.protocolFee) <= I128_MAX
                  && (m.refunded ==> I128_MIN <= a.contract.refundedAmount - m.amount <= I128_MAX)
    ensures var checked, expected := Release.Reversible(s, id, admin, index), Release.RollBack(s, id, admin, index);
            if checked.Failure? then expected == Failure(checked.error)
            else expected == Success(Store(Unreleased(s, checked.value, Slot(id, index)), id, Reset(s.accounts[id], index)))
  {
    hide Release.Reversible, Release.ReversedPot, MilestoneApprovals.Clear;
  }

  /** What an outcome means, for either kind of result. */
  lemma OutcomeIs(before: State, expected: Result<State, Error>)
    ensures forall error, after {:trigger Outcome(before, expected, error, after)} ::
              Outcome(before, expected, error, after) <==>
              if expected.Success? then error == None && after == expected.value
              else error == Some(expected.error) && after == before
  {
  }

  // ---- creation, settings, deposit ----

  lemma InitializeKeeps(s: State, admin: Address)
    requires Ok(s) && Creation.Initialize(s, admin).Success?
    ensures Ok(Creation.Initialize(s, admin).value)
  {
    hide Ok;
    ConfigKeeps(s, Protocol.Initialize(admin));
  }

  lemma GovernKeeps(s: State, settings: Config)
    requires Ok(s) && Creation.Govern(s, settings).Success?
    ensures Ok(Creation.Govern(s, settings).value)
  {
    hide Ok;
    ConfigKeeps(s, Protocol.Govern(settings));
  }

  lemma TickKeeps(s: State, ledgers: nat, seconds: nat)
    requires Ok(s)
    ensures Ok(Creation.Tick(s, ledgers, seconds))
  {
    hide Ok;
    ConfigKeeps(s, Protocol.Tick(ledgers, seconds));
  }

  lemma CreateOutcome(s: State, client: Address, freelancer: Address, arbiter: Option<Address>,
                      amounts: seq<int>, mode: ReleaseAuthorization)
    requires Ok(s) && Creation.Create(s, client, freelancer, arbiter, amounts, mode).Success?
    ensures Ok(Creation.Create(s, client, freelancer, arbiter, amounts, mode).value)
    ensures Creation.Create(s, client, freelancer, arbiter, amounts, mode).value
         == Store(s, s.nextId, Account(Contract(client, freelancer, arbiter, Created, 0, 0, 0, 0, mode, false),
                                       Creation.FreshMilestones(amounts))).(nextId := s.nextId + 1)
  {
    CreateKeeps(s, client, freelancer, arbiter, amounts, mode);
    hide Ok, Creation.Create, Creation.FreshMilestones;
    CreateShape(s, client, freelancer, arbiter, amounts, mode);
  }

  lemma StoredAt(s: State, id: nat, a: Account)
    ensures id in Store(s, id, a).accounts && Store(s, id, a).nextId == s.nextId
  {
  }

  lemma DepositOutcome(s: State, id: nat, caller: Address, amount: int, payerFunds: int)
    requires Ok(s)
    ensures var admitted, paid := Deposit.Admit(s, id, caller, amount), Token.PayIn(s, amount, payerFunds);
            Deposit.Deposit(s, id, caller, amount, payerFunds)
            == if admitted.Failure? then Failure(admitted.error)
               else if paid.Failure? then Failure(paid.error)
               else Success(Store(paid.value, id, Deposit.Apply(admitted.value)))
    ensures Deposit.Deposit(s, id, caller, amount, payerFunds).Success? ==>
              Ok(Deposit.Deposit(s, id, caller, amount, payerFunds).value)
  {
    if Deposit.Deposit(s, id, caller, amount, payerFunds).Success? {
      DepositKeepsOk(s, id, caller, amount, payerFunds);
    }
    hide Ok, Deposit.Admit, Token.PayIn;
  }

  lemma DepositedIs(a: Account)
    requires AccountOk(a)
    ensures a.contract.totalDeposited == a.contract.fundedAmount && Sum(Amount, a.milestones) <= I128_MAX
    ensures AllWellFormed(a.milestones)
  {
  }

  lemma AppliedIs(v: Deposit.Validated)
    ensures Deposit.Apply(v)
         == Account(v.account.contract.(fundedAmount := v.newFunded, totalDeposited := v.newDeposited,
                                        status := if v.newFunded == v.total then Funded else PartiallyFunded),
                    v.account.milestones)
  {
  }

  // ---- approvals ----

  lemma RecordKeeps(s: State, slot: Slot, flags: Approvals)
    requires Ok(s)
    ensures Ok(MilestoneApprovals.Record(s, slot, flags)) && Ok(MilestoneApprovals.Clear(s, slot))
  {
    hide Ok, MilestoneApprovals.Record, MilestoneApprovals.Clear;
    ApprovalKeeps(s, MilestoneApprovals.Record(s, slot, flags));
    ApprovalKeeps(s, MilestoneApprovals.Clear(s, slot));
  }

  lemma InspectIs(s: State, slot: Slot)
    ensures var live := MilestoneApprovals.LiveApprovals(s, slot);
            MilestoneApprovals.Inspect(s, slot)
            == if live.Some? then MilestoneApprovals.Record(s, slot, live.value) else s
  {
    hide MilestoneApprovals.Record, MilestoneApprovals.LiveApprovals;
  }

  // ---- disputes ----

  lemma RaisedIs(a: Account)
    ensures AfterRaise(a) == Account(a.contract.(status := Disputed), a.milestones)
  {
  }

  lemma StoredRollback(s: State, id: nat, a: Account, record: Account)
    ensures Store(s, id, a).rollbacks == s.rollbacks && Store(s, id, a).clock == s.clock
  {
  }

  lemma LoadMutableIs(s: State, id: nat)
    ensures LoadMutable(s, id).Success? ==> id in s.accounts && LoadMutable(s, id).value == s.accounts[id]
  {
  }

  /** In the order of the checks, why a resolution is refused; past them only the payouts can refuse it. */
  lemma ResolveRefusals(s: State, id: nat, arbiter: Address, resolution: Resolution)
    requires Ok(s)
    ensures var expected := Dispute.Resolve(s, id, arbiter, resolution);
            if !s.config.initialized then expected == Failure(NotInitialized)
            else if RequireNotPaused(s.config) != Holds then expected == Failure(RequireNotPaused(s.config).error)
            else if LoadMutable(s, id).Failure? then expected == Failure(LoadMutable(s, id).error)
            else
              var c := s.accounts[id].contract;
              if c.status != Disputed then expected == Failure(InvalidStatusTransition)
              else if c.arbiter != Some(arbiter) then expected == Failure(UnauthorizedRole)
              else
                var legs := Dispute.Payouts(c, resolution);
                if legs.Failure? then expected == Failure(legs.error) else expected.Success?
  {
    LoadMetadataKeeps(s, id);
    DisputeSettlement.ResolveExactly(s, id, arbiter, resolution);
    if id in s.accounts {
      AccountAt(s, id);
      BooksBounded(s.accounts[id]);
      ClaimIs(s.accounts[id]);
      DisputeSettlement.PayoutsExactly(s.accounts[id].contract, resolution);
    }
    hide Ok, AccountOk, Dispute.Payouts, Dispute.LoadMetadata, DisputeSettlement.Splittable, Value;
  }

  function Credited(s: State, who: Address): State {
    s.(credits := s.credits[who := CreditsOf(s.credits, who) + 1])
  }

  /** The outcome of a resolution, spelled out; its sums stay in range and distribute everything. */
  lemma ResolveOutcome(s: State, id: nat, arbiter: Address, resolution: Resolution)
    requires Ok(s) && Dispute.Resolve(s, id, arbiter, resolution).Success?
    ensures id in s.accounts && Dispute.Payouts(s.accounts[id].contract, resolution).Success?
    ensures Dispute.LoadMetadata(s, id).Success?
    ensures var a, loaded := s.accounts[id], Dispute.LoadMetadata(s, id).value.0;
            var legs := Dispute.Payouts(a.contract, resolution).value;
            var c := a.contract.(refundedAmount := a.contract.refundedAmount + legs.0,
                                 releasedAmount := a.contract.releasedAmount + legs.1);
            var final := c.(status := Dispute.FinalStatus(c));
            && c.refundedAmount <= I128_MAX && c.releasedAmount <= I128_MAX
            && c.releasedAmount + c.refundedAmount == c.fundedAmount
            && Ok(Dispute.Resolve(s, id, arbiter, resolution).value)
            && Dispute.Resolve(s, id, arbiter, resolution).value
               == Dispute.RemoveMetadata(
                    Store(if final.status == Completed then Credited(loaded, final.freelancer) else loaded, id,
                          Account(final, a.milestones)), id)
  {
    hide *;
    ResolveShape(s, id, arbiter, resolution);
    ResolveEffect(s, id, arbiter, resolution);
    AccountAt(s, id);
    var a, loaded := s.accounts[id], Dispute.LoadMetadata(s, id).value.0;
    var legs := Dispute.Payouts(a.contract, resolution).value;
    BooksBounded(a);
    ClaimIs(a);
    LoadMetadataKeeps(s, id);
    OkParts(loaded);
    GrantSucceeds(loaded, a.contract.freelancer);
    CreditedIs(loaded, a.contract.freelancer);
    ResolvedIs(a, legs.0, legs.1);
  }

  lemma CreditedIs(s: State, who: Address)
    ensures Credited(s, who) == s.(credits := s.credits[who := CreditsOf(s.credits, who) + 1])
  {
  }

  lemma ResolvedIs(a: Account, client: int, freelancer: int)
    ensures var c := a.contract.(refundedAmount := a.contract.refundedAmount + client,
                                 releasedAmount := a.contract.releasedAmount + freelancer);
            AccountSteps.Resolved(a, client, freelancer) == Account(c.(status := Dispute.FinalStatus(c)), a.milestones)
  {
    hide Dispute.FinalStatus;
  }

  // ---- batches ----

  lemma BatchIs(s: State, items: seq<SettlementItem>)
    ensures Finalize.Batch(s, items)
         == if RequireNotPaused(s.config) != Holds then Failure(RequireNotPaused(s.config).error)
            else if items == [] then Failure(BatchSettlementEmpty)
            else if |items| > MAX_BATCH_SETTLEMENT then Failure(BatchSettlementTooLarge)
            else Finalize.Items(s, items)
  {
    hide Finalize.Items, RequireNotPaused;
  }

  lemma NoItems(s: State, items: seq<SettlementItem>)
    requires items == []
    ensures Finalize.Items(s, items) == Success((s, []))
  {
  }

  /** One more entry of a batch. */
  lemma ItemsStep(s: State, items: seq<SettlementItem>, before: State, results: seq<SettlementResult>,
                  error: Option<Error>, after: State)
    requires items != [] && Finalize.Items(s, items[..|items| - 1]) == Success((before, results))
    requires var n := |items| - 1;
             && error == (if Finalize.PreCheck(before, items[n]).Holds? then None
                          else Some(Finalize.PreCheck(before, items[n]).error))
             && Outcome(before, Finalize.Finalize(before, items[n].contractId, items[n].finalizer), error, after)
    ensures var n := |items| - 1;
            Finalize.Items(s, items)
            == Success((after, results + [SettlementResult(n, items[n].contractId, error.None?, error)]))
  {
    hide Finalize.Finalize, Finalize.PreCheck;
  }

  // ---- parties and ratings ----

  lemma ProposeOutcome(s: State, id: nat, current: Address, proposed: Address)
    requires Ok(s) && Participants.Propose(s, id, current, proposed).Success?
    ensures var t, now := Participants.Propose(s, id, current, proposed).value, s.clock.ledger;
            var expiry := Participants.SaturatingAdd(now, MIGRATION_TTL);
            && Ok(t)
            && t == s.(migrations := TempStorage.Write(s.migrations, id, Migration(current, proposed, now, expiry),
                                                       s.clock, MIGRATION_TTL, MIGRATION_TTL))
  {
    ProposeKeeps(s, id, current, proposed);
    hide Ok, TempStorage.Write, Participants.SaturatingAdd;
  }

  lemma WithClientIs(a: Account, client: Address)
    ensures WithClient(a, client) == Account(a.contract.(client := client), a.milestones)
  {
  }

  lemma WithArbiterIs(a: Account, arbiter: Option<Address>)
    ensures WithArbiter(a, arbiter) == Account(a.contract.(arbiter := arbiter), a.milestones)
  {
  }

  /** The ledgers after a rating of `who`. */
  function WithRating(s: State, who: Address, rating: nat): State {
    var r := ReputationOf(s.reputations, who);
    s.(credits := s.credits[who := CreditsOf(s.credits, who) - 1],
       reputations := s.reputations[who := Reputation(r.completedContracts + 1, r.totalRating + rating, rating)])
  }

  lemma RatedIs(s: State, id: nat, rating: nat)
    requires id in s.accounts
    ensures var a := s.accounts[id];
            RatedState(s, id, rating)
            == WithRating(Store(s, id, Account(a.contract.(reputationIssued := true), a.milestones)),
                     a.contract.freelancer, rating)
  {
  }
}
