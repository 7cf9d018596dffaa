/** The deployed contract: one object whose entrypoints check, update its storage in place and write it back.
    Every method is proved to do exactly what the corresponding specification function says, to leave the storage
    untouched when it fails, and to keep the invariant. */
module EscrowContract {
  import opened Results
  import opened Types
  import opened Authorization
  import opened AccountInvariant
  import opened AccountSums
  import opened LedgerInvariant
  import opened Milestones
  import opened EscrowOutcomes
  import opened StepsKeepInvariant
  import Amounts
  import BatchSettlement
  import Fees
  import Creation
  import Deposit
  import Dispute
  import Finalize
  import MilestoneApprovals
  import AccountSteps
  import Participants
  import Ratings
  import Refund
  import ReputationLedger
  import RefundOrder
  import Release
  import ReleaseGuard
  import TempStorage
  import Token

  /** The loop over a milestone vector that decides whether a contract is complete. */
  method AllDone(ms: seq<Milestone>) returns (done: bool)
    ensures done == AllSettled(ms)
  {
    for i := 0 to |ms|
      invariant forall k :: 0 <= k < i ==> Settled(ms[k])
    {
      if !ms[i].released && !ms[i].refunded { return false; }
    }
    return true;
  }

  method AllReturned(ms: seq<Milestone>) returns (all: bool)
    ensures all == AllRefunded(ms)
  {
    for i := 0 to |ms|
      invariant forall k :: 0 <= k < i ==> ms[k].refunded
    {
      if !ms[i].refunded { return false; }
    }
    return true;
  }

  /** The pairwise duplicate check of a refund request. */
  method HasDuplicate(indices: seq<nat>) returns (found: bool)
    ensures found == !Refund.Distinct(indices)
  {
    for i := 0 to |indices|
      invariant forall a, b :: 0 <= a < i && a < b < |indices| ==> indices[a] != indices[b]
    {
      for j := i + 1 to |indices|
        invariant forall b :: i < b < j ==> indices[i] != indices[b]
      {
        if indices[i] == indices[j] { return true; }
      }
    }
    return false;
  }

  lemma {:induction false} FailedRequest(ms: seq<Milestone>, indices: seq<nat>, now: nat, n: nat)
    requires n <= |indices| && Refund.Requested(ms, indices[..n], now).Failure?
    ensures Refund.Requested(ms, indices, now) == Refund.Requested(ms, indices[..n], now)
    decreases |indices| - n
  {
    if n == |indices| {
      assert indices[..n] == indices;
    } else {
      assert indices[..n + 1][..n] == indices[..n];
      FailedRequest(ms, indices, now, n + 1);
    }
  }

  /** The validation loop of a refund: every listed milestone in order, adding up what is to be paid. */
  method RequestTotal(ms: seq<Milestone>, indices: seq<nat>, now: nat) returns (r: Result<int, Error>)
    ensures r == Refund.Requested(ms, indices, now)
  {
    var total := 0;
    for k := 0 to |indices|
      invariant Refund.Requested(ms, indices[..k], now) == Success(total)
    {
      assert indices[..k + 1][..k] == indices[..k];
      var idx := indices[k];
      var error := None;
      if idx >= |ms| {
        error := Some(IndexOutOfBounds);
      } else if ms[idx].released {
        error := Some(AlreadyReleased);
      } else if ms[idx].refunded {
        error := Some(AlreadyRefunded);
      } else if ms[idx].deadline.Some? && now <= ms[idx].deadline.value {
        error := Some(MilestoneNotOverdue);
      } else if !InRange(total + ms[idx].amount) {
        error := Some(PotentialOverflow);
      }
      if error.Some? {
        FailedRequest(ms, indices, now, k + 1);
        return Failure(error.value);
      }
      total := total + ms[idx].amount;
    }
    assert indices[..|indices|] == indices;
    return Success(total);
  }

  /** The marking loop of a refund. */
  method MarkRefundedAll(ms: seq<Milestone>, indices: seq<nat>) returns (r: seq<Milestone>)
    requires forall k :: 0 <= k < |indices| ==> indices[k] < |ms|
    ensures r == Refund.MarkAll(ms, indices)
  {
    r := ms;
    for k := 0 to |indices|
      invariant |r| == |ms|
      invariant forall i :: 0 <= i < |ms| ==> r[i] == if i in indices[..k] then Refund.MarkRefunded(ms[i]) else ms[i]
    {
      var idx := indices[k];
      assert indices[..k + 1] == indices[..k] + [idx];
      r := r[idx := r[idx].(refunded := true, refundedAmount := r[idx].amount)];
    }
    assert indices[..|indices|] == indices;
  }

  /** The summary loop of a finalization. */
  method Summarize(account: Account) returns (r: Result<Summary, Error>)
    requires AccountOk(account)
    ensures r == Finalize.Summarize(account)
  {
    var c, ms := account.contract, account.milestones;
    var total, count, entries := 0, 0, [];
    for i := 0 to |ms|
      invariant Accumulated(ms[..i]) == Success(total)
      invariant count == Finalize.ReleasedCount(ms[..i]) && entries == Finalize.MilestoneSummaries(ms[..i])
    {
      assert ms[..i + 1][..i] == ms[..i];
      if !InRange(total + ms[i].amount) {
        FailedPrefix(ms, i + 1);
        return Failure(PotentialOverflow);
      }
      total := total + ms[i].amount;
      if ms[i].released {
        count := count + 1;
      }
      entries := entries + [MilestoneSummary(i, ms[i].amount, ms[i].released, ms[i].refunded)];
    }
    assert ms[..|ms|] == ms;
    BooksBounded(account);
    return Success(Summary(c.client, c.freelancer, c.arbiter, c.status, c.reputationIssued, total, c.fundedAmount,
                           c.releasedAmount, c.fundedAmount - c.releasedAmount - c.refundedAmount, count, entries));
  }

  /** Copies the amounts into a buffer of fixed size and validates the used part. */
  method CheckTotal(amounts: seq<int>, cap: int) returns (r: Result<int, Error>)
    requires |amounts| <= MAX_MILESTONES
    ensures r == Amounts.ValidatedTotal(amounts, cap)
  {
    var buffer := new int[MAX_MILESTONES](_ => 0);
    for i := 0 to |amounts|
      invariant buffer[..i] == amounts[..i]
    {
      buffer[i] := amounts[i];
    }
    assert amounts[..|amounts|] == amounts;
    r := Amounts.ValidateMilestoneAmounts(buffer[..|amounts|], cap);
  }

  /** The loop that pushes one fresh milestone per amount. */
  method BuildMilestones(amounts: seq<int>) returns (ms: seq<Milestone>)
    ensures ms == Creation.FreshMilestones(amounts)
  {
    ms := [];
    for i := 0 to |amounts|
      invariant ms == Creation.FreshMilestones(amounts[..i])
    {
      assert amounts[..i + 1][..i] == amounts[..i];
      ms := ms + [Milestone(amounts[i], 0, 0, false, false, 0, None)];
    }
    assert amounts[..|amounts|] == amounts;
  }

  class Escrow {
    var config: Config
    var clock: Clock
    var nextId: nat
    var accounts: map<nat, Account>
    var approvals: map<Slot, Temporary<Approvals>>
    var migrations: map<nat, Temporary<Migration>>
    var finalizations: map<nat, Finalization>
    var disputes: map<nat, StoredDispute>
    var disputeVersions: map<nat, nat>
    var rollbacks: map<nat, Account>
    var credits: map<Address, int>
    var reputations: map<Address, Reputation>
    var fees: int
    var balance: int

    ghost function Snapshot(): State
      reads this
    {
      State(config, clock, nextId, accounts, approvals, migrations, finalizations, disputes, disputeVersions,
            rollbacks, credits, reputations, fees, balance)
    }

    ghost predicate Valid()
      reads this
    {
      Ok(Snapshot())
    }

    constructor (clock: Clock)
      ensures Valid() && Snapshot() == Genesis(clock)
    {
      this.config := Config(false, None, false, false, false, 0, None);
      this.clock := clock;
      nextId := INITIAL_CONTRACT_ID;
      accounts, approvals, migrations, finalizations := map[], map[], map[], map[];
      disputes, disputeVersions, rollbacks, credits, reputations := map[], map[], map[], map[], map[];
      fees, balance := 0, 0;
      new;
      GenesisOk(clock);
    }

    /** The snapshot, field by field. */
    lemma Fields()
      ensures var s := Snapshot();
              && s.config == config && s.clock == clock && s.nextId == nextId && s.accounts == accounts && s.approvals == approvals
              && s.migrations == migrations && s.finalizations == finalizations && s.credits == credits
              && s.reputations == reputations && s.rollbacks == rollbacks && s.disputes == disputes
              && s.disputeVersions == disputeVersions && s.fees == fees && s.balance == balance
      ensures Valid() <==> Ok(Snapshot())
    {
    }

    method LoadOpen(id: nat) returns (r: Result<Account, Error>)
      ensures r == LoadMutable(Snapshot(), id)
    {
      if id !in accounts { return Failure(ContractNotFound); }
      if id in finalizations { return Failure(AlreadyFinalized); }
      return Success(accounts[id]);
    }

    method CheckNotPaused() returns (r: Option<Error>)
      ensures r == if RequireNotPaused(config).Holds? then None else Some(RequireNotPaused(config).error)
    {
      if config.paused { return Some(ContractPaused); }
      if config.emergency { return Some(EmergencyActive); }
      return None;
    }

    // ---- release ----

    /** `check_approvals`: reads the record of the milestone; missing, expired and insufficient fail closed. */
    method CheckApprovals(contract: Contract, slot: Slot) returns (ok: bool)
      ensures ok == MilestoneApprovals.CheckApprovals(Snapshot(), contract, slot).Holds?
      ensures ok <==> slot in approvals && clock.ledger <= approvals[slot].liveUntil
                      && Quorum(approvals[slot].value, contract.releaseAuthorization)
    {
      if slot in approvals {
        SufficientExactly(approvals[slot].value, contract.releaseAuthorization);
      }
      if slot !in approvals || clock.ledger > approvals[slot].liveUntil { return false; }
      var flags := approvals[slot].value;
      match contract.releaseAuthorization
      case ClientOnly => return flags.client;
      case ArbiterOnly => return flags.arbiter;
      case ClientAndArbiter => return flags.client || flags.arbiter;
      case MultiSig => return flags.client && flags.freelancer;
    }

    method CheckRelease(id: nat, caller: Address, index: nat) returns (r: Result<Milestone, Error>)
      ensures r == Release.Releasable(Snapshot(), id, caller, index)
    {
      var stopped := CheckNotPaused();
      if stopped.Some? { return Failure(stopped.value); }
      var loaded := LoadOpen(id);
      if loaded.Failure? { return Failure(loaded.error); }
      var contract, milestones := loaded.value.contract, loaded.value.milestones;
      if contract.status != Funded { return Failure(InvalidState); }
      var isClient, isFreelancer := caller == contract.client, caller == contract.freelancer;
      var isArbiter := contract.arbiter == Some(caller);
      var authorized := match contract.releaseAuthorization {
        case ClientOnly => isClient
        case ArbiterOnly => isArbiter
        case ClientAndArbiter => isClient || isArbiter
        case MultiSig => isClient || isFreelancer
      };
      if !authorized { return Failure(UnauthorizedRole); }
      if index >= |milestones| { return Failure(IndexOutOfBounds); }
      if milestones[index].released { return Failure(MilestoneAlreadyReleased); }
      if milestones[index].refunded { return Failure(AlreadyRefunded); }
      var approved := CheckApprovals(contract, Slot(id, index));
      if !approved { return Failure(InsufficientApprovals); }
      return Success(milestones[index]);
    }

    /** The funding checks of a release; its unchecked subtractions stay in range. */
    method CheckFunding(id: nat, contract: Contract, gross: int) returns (r: Result<int, Error>)
      requires Valid() && id in accounts && accounts[id].contract == contract && 0 < gross
      ensures r == Release.Funding(Snapshot(), contract, gross)
    {
      OkFacts(Snapshot());
      AccountAt(Snapshot(), id);
      BooksBounded(accounts[id]);
      hide Ok, AccountOk, AccountsOk, SnapshotOk, DisputesOk, Fees.ProtocolFee;
      var available := Amounts.CheckedAvailable(contract.fundedAmount, contract.releasedAmount,
                                                contract.refundedAmount, PotentialOverflow);
      if available.Failure? { return Failure(available.error); }
      if available.value < gross { return Failure(InsufficientFunds); }
      var fee := 0;
      if config.initialized && config.feeBps > 0 {
        var computed := Fees.ProtocolFee(gross, config.feeBps);
        if computed.Failure? { return Failure(computed.error); }
        fee := computed.value;
      }
      FeeInRange(Snapshot(), gross);
      var spendable := contract.fundedAmount - contract.releasedAmount - contract.refundedAmount - fees;
      if spendable < gross { return Failure(InsufficientFunds); }
      return Success(fee);
    }

    /** A token transfer out of the escrow; the host fails it when the balance is short. */
    method PayOut(amount: int) returns (error: Option<Error>)
      modifies this`balance
      ensures Outcome(old(Snapshot()), Token.PayOut(old(Snapshot()), amount), error, Snapshot())
    {
      if amount < 0 || balance < amount { return Some(TransferFailed); }
      balance := balance - amount;
      return None;
    }

    /** Writes a contract and its milestones back. */
    method StoreAccount(id: nat, contract: Contract, milestones: seq<Milestone>)
      modifies this`accounts
      ensures Snapshot() == Store(old(Snapshot()), id, Account(contract, milestones))
    {
      accounts := accounts[id := Account(contract, milestones)];
    }

    method ClearApprovals(slot: Slot)
      modifies this`approvals
      ensures Snapshot() == MilestoneApprovals.Clear(old(Snapshot()), slot)
    {
      approvals := approvals - {slot};
    }

    /** `grant_pending_reputation_credit`. */
    method GrantCredit(who: Address)
      modifies this`credits
      ensures Snapshot() == old(Snapshot()).(credits := old(credits)[who := CreditsOf(old(credits), who) + 1])
    {
      var pending := CreditsOf(credits, who);
      credits := credits[who := pending + 1];
    }

    /** Completes the contract if every milestone is settled, and stores it. */
    method StoreReleased(id: nat, contract: Contract, milestones: seq<Milestone>)
      modifies this`credits, this`accounts
      ensures Snapshot() == Completion(old(Snapshot()), id, Account(contract, milestones))
    {
      var c := contract;
      var done := AllDone(milestones);
      hide AllSettled, CreditsOf;
      if done {
        c := c.(status := Completed);
        GrantCredit(c.freelancer);
      }
      accounts := accounts[id := Account(c, milestones)];
    }

    method ReleaseMilestone(id: nat, caller: Address, index: nat) returns (error: Option<Error>)
      requires Valid()
      modifies this
      ensures Outcome(old(Snapshot()), Release.Release(old(Snapshot()), id, caller, index), error, Snapshot())
      ensures Valid()
    {
      ghost var s := Snapshot();
      var checked := CheckRelease(id, caller, index);
      hide Ok, Release.Release, Release.Releasable, Release.Funding, Completion, ReleaseGuard.Booked, Paid, Token.PayOut;
      if checked.Failure? {
        ReleaseRefused(s, id, caller, index);
        return Some(checked.error);
      }
      ReleaseOutcome(s, id, caller, index);
      var milestone := checked.value;
      var contract, milestones := accounts[id].contract, accounts[id].milestones;
      var funding := CheckFunding(id, contract, milestone.amount);
      if funding.Failure? { return Some(funding.error); }
      var fee := funding.value;
      PayOutIs(s, milestone.amount - fee);
      var short := PayOut(milestone.amount - fee);
      if short.Some? { return short; }
      milestones := milestones[index := milestone.(released := true, fundedAmount := milestone.amount, protocolFee := fee)];
      contract := contract.(releasedAmount := contract.releasedAmount + (milestone.amount - fee));
      fees := fees + fee;
      // The overflow check of the new total and the accounting check never fire.
      assert contract.releasedAmount <= I128_MAX;
      assert contract.releasedAmount + contract.refundedAmount + fees <= contract.fundedAmount;
      PaidIs(s.accounts[id], index, fee);
      BookedIs(s, id, index, fee);
      ClearApprovals(Slot(id, index));
      StoreReleased(id, contract, milestones);
      return None;
    }

    // ---- refund and cancellation ----

    /** The checks of a refund, up to the amount to be paid. */
    method CheckRefund(id: nat, indices: seq<nat>) returns (r: Result<int, Error>)
      ensures r == Refund.RefundTotal(Snapshot(), id, indices)
    {
      var stopped := CheckNotPaused();
      if stopped.Some? { return Failure(stopped.value); }
      if indices == [] { return Failure(EmptyRefundRequest); }
      var duplicate := HasDuplicate(indices);
      if duplicate { return Failure(DuplicateMilestoneInRefund); }
      var loaded := LoadOpen(id);
      if loaded.Failure? { return Failure(loaded.error); }
      var contract, milestones := loaded.value.contract, loaded.value.milestones;
      if contract.status != Created && contract.status != Funded && contract.status != Disputed {
        return Failure(InvalidState);
      }
      hide Refund.Distinct, Refund.Requested;
      var total := RequestTotal(milestones, indices, clock.timestamp);
      if total.Failure? { return total; }
      var available := Amounts.CheckedAvailable(contract.fundedAmount, contract.releasedAmount,
                                                contract.refundedAmount, PotentialOverflow);
      if available.Failure? { return Failure(available.error); }
      if available.value < total.value { return Failure(InsufficientFunds); }
      return total;
    }

    /** Decides the status after a refund, and stores the contract. */
    method StoreRefunded(id: nat, contract: Contract, milestones: seq<Milestone>)
      modifies this`credits, this`accounts
      ensures Snapshot() == RefundCompletion(old(Snapshot()), id, Account(contract, milestones))
    {
      var c := contract;
      var done := AllDone(milestones);
      var returned := AllReturned(milestones);
      hide AllSettled, AllRefunded, CreditsOf;
      if done {
        if returned {
          c := c.(status := Types.Refunded);
        } else {
          c := c.(status := Completed);
          GrantCredit(c.freelancer);
        }
      }
      accounts := accounts[id := Account(c, milestones)];
    }

    /** `refund_unreleased_milestones`; `total` is what the call returns. */
    method RefundMilestones(id: nat, indices: seq<nat>) returns (error: Option<Error>, total: int)
      requires Valid()
      modifies this
      ensures Outcome(old(Snapshot()), Refund.Refund(old(Snapshot()), id, indices), error, Snapshot())
      ensures error.None? ==> Refund.RefundTotal(old(Snapshot()), id, indices) == Success(total)
      ensures Valid()
    {
      ghost var s := Snapshot();
      var checked := CheckRefund(id, indices);
      hide Ok, Refund.Refund, Refund.RefundTotal, RefundCompletion, Refund.MarkAll, Token.PayOut;
      if checked.Failure? {
        RefundRefused(s, id, indices);
        return Some(checked.error), 0;
      }
      total := checked.value;
      RefundOutcome(s, id, indices);
      PayOutIs(s, total);
      var contract, milestones := accounts[id].contract, accounts[id].milestones;
      var short := PayOut(total);
      if short.Some? { return short, 0; }
      milestones := MarkRefundedAll(milestones, indices);
      contract := contract.(refundedAmount := contract.refundedAmount + total);
      // The overflow check of the new total never fires.
      assert contract.refundedAmount <= I128_MAX;
      StoreRefunded(id, contract, milestones);
      return None, total;
    }

    /** The checks of a cancellation; its unchecked subtractions stay in range. */
    method CheckCancel(id: nat, client: Address) returns (r: Result<int, Error>)
      requires Valid()
      ensures r == Refund.CancelAmount(Snapshot(), id, client)
    {
      var stopped := CheckNotPaused();
      hide Ok, AccountOk;
      if stopped.Some? { return Failure(stopped.value); }
      var loaded := LoadOpen(id);
      if loaded.Failure? { return Failure(loaded.error); }
      var contract := loaded.value.contract;
      if client != contract.client { return Failure(UnauthorizedRole); }
      if contract.status == Cancelled { return Failure(AlreadyCancelled); }
      if contract.status != Created && contract.status != Funded { return Failure(InvalidStatusTransition); }
      if contract.releasedAmount != 0 { return Failure(InvalidStatusTransition); }
      AccountAt(Snapshot(), id);
      BooksBounded(loaded.value);
      var amount := contract.fundedAmount - contract.releasedAmount - contract.refundedAmount;
      if amount > 0 && !config.tokenBound { return Failure(NotInitialized); }
      return Success(amount);
    }

    method ReturnToClient(amount: int) returns (error: Option<Error>)
      modifies this`balance
      ensures Outcome(old(Snapshot()), Returned(old(Snapshot()), amount), error, Snapshot())
    {
      error := None;
      if amount > 0 {
        error := PayOut(amount);
      }
    }

    method CancelContract(id: nat, client: Address) returns (error: Option<Error>)
      requires Valid()
      modifies this
      ensures Outcome(old(Snapshot()), Refund.Cancel(old(Snapshot()), id, client), error, Snapshot())
      ensures Valid()
    {
      ghost var s := Snapshot();
      hide *;
      Fields();
      var checked := CheckCancel(id, client);
      CancelOutcome(s, id, client);
      OutcomeIs(s, Refund.Cancel(s, id, client));
      if checked.Failure? { return Some(checked.error); }
      var amount := checked.value;
      OutcomeIs(s, Returned(s, amount));
      var short := ReturnToClient(amount);
      Fields();
      if short.Some? { return short; }
      var contract, milestones := accounts[id].contract, accounts[id].milestones;
      contract := contract.(refundedAmount := contract.refundedAmount + amount, status := Cancelled);
      StoreAccount(id, contract, milestones);
      Fields();
      return None;
    }

    /** The checks of a milestone rollback. */
    method CheckRollBack(id: nat, admin: Address, index: nat) returns (r: Result<Milestone, Error>)
      ensures r == Release.Reversible(Snapshot(), id, admin, index)
    {
      var refused := CheckAdmin(admin);
      if refused.Some? { return Failure(refused.value); }
      var loaded := LoadOpen(id);
      if loaded.Failure? { return Failure(loaded.error); }
      var contract, milestones := loaded.value.contract, loaded.value.milestones;
      if contract.status != Funded && contract.status != PartiallyFunded { return Failure(RollbackNotAllowed); }
      if index >= |milestones| { return Failure(IndexOutOfBounds); }
      if !milestones[index].released && !milestones[index].refunded { return Failure(RollbackNotAllowed); }
      return Success(milestones[index]);
    }

    /** Gives the fee of a rolled-back release back, if the pot still holds it, and clears its approvals. */
    method UndoRelease(milestone: Milestone, slot: Slot)
      modifies this`fees, this`approvals
      ensures Snapshot() == Unreleased(old(Snapshot()), milestone, slot)
    {
      if milestone.released {
        if milestone.protocolFee > 0 && fees >= milestone.protocolFee {
          fees := fees - milestone.protocolFee;
        }
        approvals := approvals - {slot};
      }
    }

    method RollBackMilestone(id: nat, admin: Address, index: nat) returns (error: Option<Error>)
      requires Valid()
      modifies this
      ensures Outcome(old(Snapshot()), Release.RollBack(old(Snapshot()), id, admin, index), error, Snapshot())
      ensures Valid()
    {
      ghost var s := Snapshot();
      hide *;
      Fields();
      var checked := CheckRollBack(id, admin, index);
      RollBackOutcome(s, id, admin, index);
      OutcomeIs(s, Release.RollBack(s, id, admin, index));
      if checked.Failure? { return Some(checked.error); }
      var milestone := checked.value;
      var contract, milestones := accounts[id].contract, accounts[id].milestones;
      ResetIs(accounts[id], index);
      UndoRelease(milestone, Slot(id, index));
      if milestone.released {
        contract := contract.(releasedAmount := contract.releasedAmount - (milestone.amount - milestone.protocolFee));
        milestone := milestone.(released := false, fundedAmount := 0, protocolFee := 0);
      }
      if milestone.refunded {
        contract := contract.(refundedAmount := contract.refundedAmount - milestone.amount);
        milestone := milestone.(refunded := false, refundedAmount := 0);
      }
      StoreAccount(id, contract, milestones[index := milestone]);
      Fields();
      return None;
    }

    method CheckAdmin(admin: Address) returns (r: Option<Error>)
      ensures r == if RequireInitialized(config).Aborts? then Some(NotInitialized)
                   else if RequireNotPaused(config).Aborts? then Some(RequireNotPaused(config).error)
                   else if RequireAdmin(config, admin).Aborts? then Some(RequireAdmin(config, admin).error)
                   else None
    {
      if !config.initialized { return Some(NotInitialized); }
      var stopped := CheckNotPaused();
      if stopped.Some? { return stopped; }
      if config.admin.None? { return Some(NotInitialized); }
      if config.admin.value != admin { return Some(UnauthorizedRole); }
      return None;
    }

    // ---- creation and settings ----

    method Initialize(admin: Address) returns (error: Option<Error>)
      requires Valid()
      modifies this
      ensures Outcome(old(Snapshot()), Creation.Initialize(old(Snapshot()), admin), error, Snapshot())
      ensures Valid()
    {
      hide Ok;
      if config.initialized { return Some(AlreadyInitialized); }
      InitializeKeeps(Snapshot(), admin);
      config := config.(initialized := true, admin := Some(admin));
      nextId := INITIAL_CONTRACT_ID;
      return None;
    }

    /** The governance setters, as one call. */
    method Govern(settings: Config) returns (error: Option<Error>)
      requires Valid()
      modifies this
      ensures Outcome(old(Snapshot()), Creation.Govern(old(Snapshot()), settings), error, Snapshot())
      ensures Valid()
    {
      hide Ok;
      if settings.feeBps > BPS_DENOMINATOR { return Some(InvalidProtocolParameters); }
      GovernKeeps(Snapshot(), settings);
      config := settings.(initialized := config.initialized);
      return None;
    }

    /** The ledgers that close between two calls. */
    method Tick(ledgers: nat, seconds: nat)
      requires Valid()
      modifies this
      ensures Snapshot() == Creation.Tick(old(Snapshot()), ledgers, seconds)
      ensures Valid()
    {
      hide Ok;
      TickKeeps(Snapshot(), ledgers, seconds);
      clock := clock.(ledger := clock.ledger + ledgers, timestamp := clock.timestamp + seconds);
    }

    /** The checks of a creation: parties, mode, and the amounts as copied into a fixed buffer. */
    method CheckCreate(client: Address, freelancer: Address, arbiter: Option<Address>, amounts: seq<int>,
                       mode: ReleaseAuthorization) returns (error: Option<Error>)
      ensures var r := Creation.Create(Snapshot(), client, freelancer, arbiter, amounts, mode);
              if error.Some? then r == Failure(error.value) else r.Success?
    {
      hide Creation.FreshMilestones, Amounts.ValidatedTotal;
      var stopped := CheckNotPaused();
      if stopped.Some? { return stopped; }
      if client == freelancer { return Some(InvalidParticipant); }
      if (mode == ArbiterOnly || mode == ClientAndArbiter) && arbiter.None? { return Some(MissingArbiter); }
      if arbiter.Some? && (arbiter.value == client || arbiter.value == freelancer) { return Some(InvalidArbiter); }
      if amounts == [] { return Some(EmptyMilestones); }
      if |amounts| > MAX_MILESTONES { return Some(TooManyMilestones); }
      var cap := if config.maxTotal.Some? then config.maxTotal.value else I128_MAX;
      var total := CheckTotal(amounts, cap);
      if total.Failure? {
        return Some(if total.error == TotalCapExceeded then TotalCapExceeded else InvalidMilestoneAmount);
      }
      if nextId in accounts { return Some(ContractIdCollision); }
      if nextId >= U32_MAX { return Some(ContractIdOverflow); }
      return None;
    }

    method CreateContract(client: Address, freelancer: Address, arbiter: Option<Address>, amounts: seq<int>,
                          mode: ReleaseAuthorization) returns (error: Option<Error>, id: nat)
      requires Valid()
      modifies this
      ensures Outcome(old(Snapshot()),
                      Creation.Create(old(Snapshot()), client, freelancer, arbiter, amounts, mode), error, Snapshot())
      ensures error.None? ==> id == old(nextId) && id in accounts
      ensures Valid()
    {
      ghost var s := Snapshot();
      hide *;
      Fields();
      OutcomeIs(s, Creation.Create(s, client, freelancer, arbiter, amounts, mode));
      error := CheckCreate(client, freelancer, arbiter, amounts, mode);
      id := nextId;
      if error.Some? { return; }
      CreateOutcome(s, client, freelancer, arbiter, amounts, mode);
      var milestones := BuildMilestones(amounts);
      var contract := Contract(client, freelancer, arbiter, Created, 0, 0, 0, 0, mode, false);
      StoreAccount(id, contract, milestones);
      TakeId();
      StoredAt(s, id, Account(contract, milestones));
      Fields();
    }

    /** Advances the counter of contract ids. */
    method TakeId()
      modifies this`nextId
      ensures Snapshot() == old(Snapshot()).(nextId := old(nextId) + 1)
    {
      nextId := nextId + 1;
    }

    // ---- deposit ----

    /** `validate_deposit` and the guards before it; computes a result and changes nothing. */
    method CheckDeposit(id: nat, caller: Address, amount: int) returns (r: Result<Deposit.Validated, Error>)
      ensures r == Deposit.Admit(Snapshot(), id, caller, amount)
      ensures Valid() ==>
                (r.Success? <==>
                   && config.initialized && !config.paused && !config.emergency && id !in finalizations
                   && id in accounts && caller == accounts[id].contract.client
                   && (accounts[id].contract.status == Created || accounts[id].contract.status == PartiallyFunded)
                   && 0 < amount <= Sum(Amount, accounts[id].milestones) - accounts[id].contract.fundedAmount)
      ensures Valid() && r.Success? ==> r.value.total == Sum(Amount, accounts[id].milestones)
    {
      if Valid() && id in accounts {
        AccountAt(Snapshot(), id);
        BooksBounded(accounts[id]);
        DepositedIs(accounts[id]);
        AccumulatedExact(accounts[id].milestones);
      }
      hide Ok, AccountOk, Sum;
      if !config.initialized { return Failure(NotInitialized); }
      var stopped := CheckNotPaused();
      if stopped.Some? { return Failure(stopped.value); }
      if id in finalizations { return Failure(AlreadyFinalized); }
      if amount <= 0 { return Failure(AmountMustBePositive); }
      if id !in accounts { return Failure(ContractNotFound); }
      var contract, milestones := accounts[id].contract, accounts[id].milestones;
      if caller != contract.client { return Failure(UnauthorizedRole); }
      if contract.status == Cancelled { return Failure(ContractCancelled); }
      if contract.status == Types.Refunded { return Failure(ContractRefunded); }
      if contract.status != Created && contract.status != PartiallyFunded { return Failure(InvalidState); }
      hide Accumulated;
      var total := AccumulateAmounts(milestones);
      if total.Failure? { return Failure(total.error); }
      if !InRange(contract.fundedAmount + amount) || !InRange(contract.totalDeposited + amount) {
        return Failure(PotentialOverflow);
      }
      if contract.fundedAmount + amount > total.value { return Failure(InvalidDepositAmount); }
      return Success(Deposit.Validated(accounts[id], contract.fundedAmount + amount, contract.totalDeposited + amount,
                                       total.value));
    }

    /** A token transfer into the escrow; the host fails it when the payer is short. */
    method PayIn(amount: int, payerFunds: int) returns (error: Option<Error>)
      modifies this`balance
      ensures Outcome(old(Snapshot()), Token.PayIn(old(Snapshot()), amount, payerFunds), error, Snapshot())
    {
      if amount < 0 || payerFunds < amount || balance + amount > I128_MAX { return Some(TransferFailed); }
      balance := balance + amount;
      return None;
    }

    method DepositFunds(id: nat, caller: Address, amount: int, payerFunds: int) returns (error: Option<Error>)
      requires Valid()
      modifies this
      ensures Outcome(old(Snapshot()), Deposit.Deposit(old(Snapshot()), id, caller, amount, payerFunds), error, Snapshot())
      ensures Valid()
    {
      ghost var s := Snapshot();
      hide *;
      Fields();
      OutcomeIs(s, Deposit.Deposit(s, id, caller, amount, payerFunds));
      OutcomeIs(s, Token.PayIn(s, amount, payerFunds));
      DepositOutcome(s, id, caller, amount, payerFunds);
      var checked := CheckDeposit(id, caller, amount);
      if checked.Failure? { return Some(checked.error); }
      var short := PayIn(amount, payerFunds);
      Fields();
      if short.Some? { return short; }
      var v := checked.value;
      var contract := v.account.contract;
      contract := contract.(fundedAmount := v.newFunded, totalDeposited := v.newDeposited);
      if contract.fundedAmount == v.total {
        contract := contract.(status := Funded);
      } else {
        contract := contract.(status := PartiallyFunded);
      }
      AppliedIs(v);
      StoreAccount(id, contract, v.account.milestones);
      Fields();
      return None;
    }

    // ---- approvals ----

    /** Reading a temporary record: an expired one reads as absent. */
    method ReadApprovals(slot: Slot) returns (r: Option<Approvals>)
      ensures r == MilestoneApprovals.LiveApprovals(Snapshot(), slot)
    {
      if slot in approvals && clock.ledger <= approvals[slot].liveUntil { return Some(approvals[slot].value); }
      return None;
    }

    /** `set` and `extend_ttl`: a new record gets the host's minimum lifetime, and a lifetime of at most a day is
        extended to a week. */
    method WriteApprovals(slot: Slot, flags: Approvals)
      modifies this`approvals
      ensures Snapshot() == MilestoneApprovals.Record(old(Snapshot()), slot, flags)
      ensures MilestoneApprovals.LiveApprovals(Snapshot(), slot) == Some(flags)
      ensures forall other :: other != slot ==>
                MilestoneApprovals.LiveApprovals(Snapshot(), other) == MilestoneApprovals.LiveApprovals(old(Snapshot()), other)
      ensures slot in approvals
      ensures slot in old(approvals) && old(approvals[slot].liveUntil) > clock.ledger + APPROVAL_BUMP_THRESHOLD
              ==> approvals[slot].liveUntil == old(approvals[slot].liveUntil)
      ensures slot in old(approvals) && clock.ledger <= old(approvals[slot].liveUntil) <= clock.ledger + APPROVAL_BUMP_THRESHOLD
              ==> approvals[slot].liveUntil == clock.ledger + APPROVAL_TTL
      ensures clock.minTempTtl <= APPROVAL_BUMP_THRESHOLD
              && (slot !in old(approvals) || old(approvals[slot].liveUntil) < clock.ledger)
              ==> approvals[slot].liveUntil == clock.ledger + APPROVAL_TTL
    {
      var now := clock.ledger;
      var until := now;
      if slot in approvals && now <= approvals[slot].liveUntil {
        until := approvals[slot].liveUntil;
      } else if clock.minTempTtl > 0 {
        until := now + clock.minTempTtl - 1;
      }
      if until <= now + APPROVAL_BUMP_THRESHOLD && until < now + APPROVAL_TTL {
        until := now + APPROVAL_TTL;
      }
      approvals := approvals[slot := Temporary(flags, until)];
    }

    /** The checks of an approval; on success the flags to be stored. */
    method CheckApprove(id: nat, caller: Address, index: nat) returns (r: Result<Approvals, Error>)
      ensures var expected := MilestoneApprovals.Approve(Snapshot(), id, caller, index);
              if r.Failure? then expected == Failure(r.error)
              else expected == Success(MilestoneApprovals.Record(Snapshot(), Slot(id, index), r.value))
    {
      hide MilestoneApprovals.Record, MilestoneApprovals.LiveApprovals;
      if index >= MAX_MILESTONES { return Failure(IndexOutOfBounds); }
      var stopped := CheckNotPaused();
      if stopped.Some? { return Failure(stopped.value); }
      if id in finalizations { return Failure(AlreadyFinalized); }
      if id !in accounts { return Failure(ContractNotFound); }
      var contract, milestones := accounts[id].contract, accounts[id].milestones;
      if contract.status != Funded && contract.status != PartiallyFunded { return Failure(InvalidState); }
      if index >= |milestones| { return Failure(IndexOutOfBounds); }
      if milestones[index].released { return Failure(MilestoneAlreadyReleased); }
      if RequireReleaseAuthorization(caller, contract).Aborts? { return Failure(UnauthorizedRole); }
      var live := ReadApprovals(Slot(id, index));
      var flags := if live.Some? then live.value else Approvals(false, false, false);
      if caller == contract.client {
        if flags.client { return Failure(AlreadyApproved); }
        flags := flags.(client := true);
      } else if caller == contract.freelancer {
        if flags.freelancer { return Failure(AlreadyApproved); }
        flags := flags.(freelancer := true);
      } else {
        if flags.arbiter { return Failure(AlreadyApproved); }
        flags := flags.(arbiter := true);
      }
      return Success(flags);
    }

    method ApproveMilestone(id: nat, caller: Address, index: nat) returns (error: Option<Error>)
      requires Valid()
      modifies this
      ensures Outcome(old(Snapshot()), MilestoneApprovals.Approve(old(Snapshot()), id, caller, index), error, Snapshot())
      ensures Valid()
    {
      ghost var s := Snapshot();
      hide *;
      Fields();
      OutcomeIs(s, MilestoneApprovals.Approve(s, id, caller, index));
      var checked := CheckApprove(id, caller, index);
      if checked.Failure? { return Some(checked.error); }
      RecordKeeps(s, Slot(id, index), checked.value);
      WriteApprovals(Slot(id, index), checked.value);
      Fields();
      return None;
    }

    /** The checks of a revocation; on success the flags that remain. */
    method CheckRevoke(id: nat, caller: Address, index: nat) returns (r: Result<Approvals, Error>)
      ensures var expected, slot := MilestoneApprovals.Revoke(Snapshot(), id, caller, index), Slot(id, index);
              if r.Failure? then expected == Failure(r.error)
              else expected == Success(if r.value == MilestoneApprovals.NO_APPROVALS
                                       then MilestoneApprovals.Clear(Snapshot(), slot)
                                       else MilestoneApprovals.Record(Snapshot(), slot, r.value))
    {
      hide MilestoneApprovals.Record, MilestoneApprovals.Clear, MilestoneApprovals.LiveApprovals;
      if id !in accounts { return Failure(ContractNotFound); }
      var contract, milestones := accounts[id].contract, accounts[id].milestones;
      if index >= |milestones| { return Failure(IndexOutOfBounds); }
      if milestones[index].released { return Failure(MilestoneAlreadyReleased); }
      var isClient, isFreelancer := caller == contract.client, caller == contract.freelancer;
      if !isClient && !isFreelancer && contract.arbiter != Some(caller) { return Failure(UnauthorizedRole); }
      var live := ReadApprovals(Slot(id, index));
      if live.None? { return Failure(InsufficientApprovals); }
      var flags := live.value;
      if isClient {
        if !flags.client { return Failure(InsufficientApprovals); }
        flags := flags.(client := false);
      } else if isFreelancer {
        if !flags.freelancer { return Failure(InsufficientApprovals); }
        flags := flags.(freelancer := false);
      } else {
        if !flags.arbiter { return Failure(InsufficientApprovals); }
        flags := flags.(arbiter := false);
      }
      return Success(flags);
    }

    method RevokeApproval(id: nat, caller: Address, index: nat) returns (error: Option<Error>)
      requires Valid()
      modifies this
      ensures Outcome(old(Snapshot()), MilestoneApprovals.Revoke(old(Snapshot()), id, caller, index), error, Snapshot())
      ensures Valid()
    {
      ghost var s := Snapshot();
      hide *;
      Fields();
      OutcomeIs(s, MilestoneApprovals.Revoke(s, id, caller, index));
      var checked := CheckRevoke(id, caller, index);
      if checked.Failure? { return Some(checked.error); }
      RecordKeeps(s, Slot(id, index), checked.value);
      if checked.value == MilestoneApprovals.NO_APPROVALS {
        ClearApprovals(Slot(id, index));
        Fields();
      } else {
        WriteApprovals(Slot(id, index), checked.value);
        Fields();
      }
      return None;
    }

    /** `get_milestone_approvals`: returns the record, and renews it when it is close to expiry. */
    method GetMilestoneApprovals(id: nat, index: nat) returns (r: Option<Approvals>)
      requires Valid()
      modifies this
      ensures r == MilestoneApprovals.LiveApprovals(old(Snapshot()), Slot(id, index))
      ensures Snapshot() == MilestoneApprovals.Inspect(old(Snapshot()), Slot(id, index))
      ensures Valid()
    {
      ghost var s := Snapshot();
      hide *;
      Fields();
      r := ReadApprovals(Slot(id, index));
      InspectIs(s, Slot(id, index));
      if r.Some? {
        RecordKeeps(s, Slot(id, index), r.value);
        WriteApprovals(Slot(id, index), r.value);
        Fields();
      }
    }

    // ---- disputes ----

    method StoreMetadata(id: nat, meta: StoredDispute)
      modifies this`disputes, this`disputeVersions
      ensures Snapshot() == Dispute.StoreMetadata(old(Snapshot()), id, meta)
      ensures Dispute.LoadMetadata(Snapshot(), id)
           == Success((Snapshot(), LayoutV1(DISPUTE_STORAGE_VERSION, meta.raisedBy, meta.reasonHash, meta.raisedAt)))
      ensures disputes - {id} == old(disputes) - {id} && disputeVersions - {id} == old(disputeVersions) - {id}
    {
      disputes := disputes[id := LayoutV1(DISPUTE_STORAGE_VERSION, meta.raisedBy, meta.reasonHash, meta.raisedAt)];
      disputeVersions := disputeVersions[id := DISPUTE_STORAGE_VERSION];
    }

    method RemoveMetadata(id: nat)
      modifies this`disputes, this`disputeVersions
      ensures Snapshot() == Dispute.RemoveMetadata(old(Snapshot()), id)
      ensures id !in disputes && Dispute.VersionOf(Snapshot(), id) == 0
      ensures id in accounts && accounts[id].contract.status != Disputed ==>
                Dispute.LoadMetadata(Snapshot(), id) == Failure(DisputeNotFound)
      ensures disputes - {id} == old(disputes) - {id} && disputeVersions - {id} == old(disputeVersions) - {id}
    {
      disputes := disputes - {id};
      disputeVersions := disputeVersions - {id};
    }

    /** What loading finds: the record, and whether it has to be written in the current layout. */
    method FindMetadata(id: nat) returns (r: Result<StoredDispute, Error>, rewrite: bool)
      requires Valid()
      ensures var expected := Dispute.LoadMetadata(Snapshot(), id);
              if r.Failure? then expected == Failure(r.error)
              else expected == Success((if rewrite then Dispute.StoreMetadata(Snapshot(), id, r.value) else Snapshot(), r.value))
    {
      OkFacts(Snapshot());
      hide Ok, AccountsOk, AccountOk, SnapshotOk, Dispute.StoreMetadata;
      rewrite := false;
      if id in disputeVersions && disputeVersions[id] == DISPUTE_STORAGE_VERSION {
        return Success(disputes[id]), false;
      }
      if id in disputes {
        var v0 := disputes[id];
        return Success(LayoutV1(DISPUTE_STORAGE_VERSION, v0.raisedBy, v0.reasonHash, v0.raisedAt)), true;
      }
      if id !in accounts { return Failure(ContractNotFound), false; }
      if accounts[id].contract.status == Disputed {
        return Success(LayoutV1(DISPUTE_STORAGE_VERSION, accounts[id].contract.client, 0, 0)), true;
      }
      return Failure(DisputeNotFound), false;
    }

    method LoadDisputeMetadata(id: nat) returns (r: Result<StoredDispute, Error>)
      requires Valid()
      modifies this
      ensures var expected := Dispute.LoadMetadata(old(Snapshot()), id);
              match expected {
                case Success(loaded) => r == Success(loaded.1) && Snapshot() == loaded.0
                case Failure(e) => r == Failure(e) && Snapshot() == old(Snapshot())
              }
      ensures Valid()
    {
      ghost var s := Snapshot();
      hide *;
      Fields();
      LoadMetadataKeeps(s, id);
      var rewrite;
      r, rewrite := FindMetadata(id);
      if r.Success? && rewrite {
        StoreMetadata(id, r.value);
        Fields();
      }
    }

    /** The checks of raising a dispute. */
    method CheckRaise(id: nat, caller: Address) returns (error: Option<Error>)
      ensures var expected := Dispute.Raise(Snapshot(), id, caller);
              if error.Some? then expected == Failure(error.value) else expected.Success?
    {
      if !config.initialized { return Some(NotInitialized); }
      var stopped := CheckNotPaused();
      if stopped.Some? { return stopped; }
      var loaded := LoadOpen(id);
      if loaded.Failure? { return Some(loaded.error); }
      var contract := loaded.value.contract;
      if caller != contract.client && caller != contract.freelancer { return Some(UnauthorizedRole); }
      if contract.arbiter.None? { return Some(ArbiterRequired); }
      if contract.status != Funded && contract.status != PartiallyFunded { return Some(InvalidState); }
      return None;
    }

    method StoreRollback(id: nat, record: Account)
      modifies this`rollbacks
      ensures Snapshot() == old(Snapshot()).(rollbacks := old(rollbacks)[id := record])
    {
      rollbacks := rollbacks[id := record];
    }

    method ClearRollback(id: nat)
      modifies this`rollbacks
      ensures Snapshot() == old(Snapshot()).(rollbacks := old(rollbacks) - {id})
    {
      rollbacks := rollbacks - {id};
    }

    method RaiseDispute(id: nat, caller: Address) returns (error: Option<Error>)
      requires Valid()
      modifies this
      ensures Outcome(old(Snapshot()), Dispute.Raise(old(Snapshot()), id, caller), error, Snapshot())
      ensures Valid()
    {
      ghost var s := Snapshot();
      hide *;
      Fields();
      OutcomeIs(s, Dispute.Raise(s, id, caller));
      error := CheckRaise(id, caller);
      if error.Some? { return; }
      RaiseKeeps(s, id, caller);
      RaiseShape(s, id, caller);
      var record := accounts[id];
      RaisedIs(record);
      StoredRollback(s, id, AfterRaise(record), record);
      var contract := record.contract.(status := Disputed);
      StoreAccount(id, contract, record.milestones);
      Fields();
      StoreRollback(id, record);
      Fields();
      StoreMetadata(id, LayoutV1(DISPUTE_STORAGE_VERSION, caller, 0, clock.timestamp));
      Fields();
    }

    /** The checks of a resolution, up to its two payouts. */
    method CheckResolve(id: nat, arbiter: Address, resolution: Resolution) returns (r: Result<(int, int), Error>)
      requires Valid()
      ensures var expected := Dispute.Resolve(Snapshot(), id, arbiter, resolution);
              if r.Failure? then expected == Failure(r.error)
              else expected.Success? && id in accounts
                   && Dispute.Payouts(accounts[id].contract, resolution) == Success(r.value)
    {
      hide *;
      Fields();
      LoadMutableIs(Snapshot(), id);
      ResolveRefusals(Snapshot(), id, arbiter, resolution);
      if !config.initialized { return Failure(NotInitialized); }
      var stopped := CheckNotPaused();
      if stopped.Some? { return Failure(stopped.value); }
      var loaded := LoadOpen(id);
      if loaded.Failure? { return Failure(loaded.error); }
      var contract := loaded.value.contract;
      if contract.status != Disputed { return Failure(InvalidStatusTransition); }
      if contract.arbiter != Some(arbiter) { return Failure(UnauthorizedRole); }
      var legs := Dispute.Payouts(contract, resolution);
      if legs.Failure? { return Failure(legs.error); }
      return Success(legs.value);
    }

    method CreditIfCompleted(contract: Contract)
      modifies this`credits
      ensures Snapshot() == if contract.status == Completed then Credited(old(Snapshot()), contract.freelancer)
                            else old(Snapshot())
    {
      if contract.status == Completed {
        GrantCredit(contract.freelancer);
      }
    }

    method ResolveDispute(id: nat, arbiter: Address, resolution: Resolution) returns (error: Option<Error>)
      requires Valid()
      modifies this
      ensures Outcome(old(Snapshot()), Dispute.Resolve(old(Snapshot()), id, arbiter, resolution), error, Snapshot())
      ensures Valid()
    {
      ghost var s := Snapshot();
      hide *;
      Fields();
      OutcomeIs(s, Dispute.Resolve(s, id, arbiter, resolution));
      var checked := CheckResolve(id, arbiter, resolution);
      if checked.Failure? { return Some(checked.error); }
      ResolveOutcome(s, id, arbiter, resolution);
      var contract, milestones := accounts[id].contract, accounts[id].milestones;
      var _ := LoadDisputeMetadata(id);
      contract := contract.(refundedAmount := contract.refundedAmount + checked.value.0);
      contract := contract.(releasedAmount := contract.releasedAmount + checked.value.1);
      // The overflow checks and the check that everything was distributed never fire.
      assert contract.refundedAmount <= I128_MAX && contract.releasedAmount <= I128_MAX;
      assert contract.releasedAmount + contract.refundedAmount == contract.fundedAmount;
      contract := contract.(status := Dispute.FinalStatus(contract));
      CreditIfCompleted(contract);
      StoreAccount(id, contract, milestones);
      RemoveMetadata(id);
      Fields();
      return None;
    }

    /** The checks of a dispute rollback. */
    method CheckRollBackDispute(id: nat) returns (error: Option<Error>)
      ensures var expected := Dispute.RollBack(Snapshot(), id);
              if error.Some? then expected == Failure(error.value) else expected.Success?
    {
      if !config.initialized { return Some(NotInitialized); }
      var stopped := CheckNotPaused();
      if stopped.Some? { return stopped; }
      if config.admin.None? { return Some(NotInitialized); }
      var loaded := LoadOpen(id);
      if loaded.Failure? { return Some(loaded.error); }
      if loaded.value.contract.status != Disputed || id !in rollbacks { return Some(RollbackNotAllowed); }
      var record := rollbacks[id];
      if record.contract.status != Funded && record.contract.status != PartiallyFunded {
        return Some(RollbackNotAllowed);
      }
      var expected := record.contract.(status := Disputed);
      if loaded.value.contract != expected || loaded.value.milestones != record.milestones {
        return Some(RollbackStateChanged);
      }
      return None;
    }

    method RollBackDispute(id: nat) returns (error: Option<Error>)
      requires Valid()
      modifies this
      ensures Outcome(old(Snapshot()), Dispute.RollBack(old(Snapshot()), id), error, Snapshot())
      ensures Valid()
    {
      ghost var s := Snapshot();
      hide *;
      Fields();
      OutcomeIs(s, Dispute.RollBack(s, id));
      error := CheckRollBackDispute(id);
      if error.Some? { return; }
      RollBackDisputeShape(s, id);
      RollBackDisputeKeeps(s, id);
      RaisedIs(rollbacks[id]);
      StoredRollback(s, id, rollbacks[id], rollbacks[id]);
      var contract := accounts[id].contract.(status := rollbacks[id].contract.status);
      StoreAccount(id, contract, accounts[id].milestones);
      Fields();
      ClearRollback(id);
      Fields();
    }

    // ---- finalization ----

    /** The checks of a finalization, up to the summary to be recorded. */
    method CheckFinalize(id: nat, finalizer: Address) returns (r: Result<Summary, Error>)
      requires Valid()
      ensures var expected := Finalize.Finalize(Snapshot(), id, finalizer);
              if r.Failure? then expected == Failure(r.error)
              else expected.Success? && id in accounts && Finalize.Summarize(accounts[id]) == r
    {
      hide Ok, AccountOk, Finalize.Summarize;
      var stopped := CheckNotPaused();
      if stopped.Some? { return Failure(stopped.value); }
      var loaded := LoadOpen(id);
      if loaded.Failure? { return Failure(loaded.error); }
      var contract := loaded.value.contract;
      if finalizer != contract.client && finalizer != contract.freelancer && contract.arbiter != Some(finalizer) {
        return Failure(UnauthorizedRole);
      }
      if contract.status != Completed && contract.status != Disputed { return Failure(InvalidStatusTransition); }
      AccountAt(Snapshot(), id);
      r := Summarize(loaded.value);
    }

    method WriteFinalization(id: nat, record: Finalization)
      modifies this`finalizations
      ensures Snapshot() == old(Snapshot()).(finalizations := old(finalizations)[id := record])
    {
      finalizations := finalizations[id := record];
    }

    method FinalizeContract(id: nat, finalizer: Address) returns (error: Option<Error>)
      requires Valid()
      modifies this
      ensures Outcome(old(Snapshot()), Finalize.Finalize(old(Snapshot()), id, finalizer), error, Snapshot())
      ensures Valid()
    {
      ghost var s := Snapshot();
      hide *;
      Fields();
      OutcomeIs(s, Finalize.Finalize(s, id, finalizer));
      var checked := CheckFinalize(id, finalizer);
      if checked.Failure? { return Some(checked.error); }
      FinalizeShape(s, id, finalizer);
      FinalizeKeeps(s, id, finalizer);
      var disputed := accounts[id].contract.status == Disputed;
      WriteFinalization(id, Finalization(finalizer, clock.timestamp, checked.value));
      Fields();
      if disputed {
        ClearRollback(id);
        Fields();
      }
      return None;
    }

    /** One entry of a batch: repeats the checks, then delegates; the delegated call does not fail. */
    method TryFinalizeOne(item: SettlementItem) returns (error: Option<Error>)
      requires Valid() && RequireNotPaused(config).Holds?
      modifies this
      ensures Outcome(old(Snapshot()), Finalize.Finalize(old(Snapshot()), item.contractId, item.finalizer), error, Snapshot())
      ensures error == if Finalize.PreCheck(old(Snapshot()), item).Holds? then None
                       else Some(Finalize.PreCheck(old(Snapshot()), item).error)
      ensures Valid() && config == old(config)
    {
      ghost var s := Snapshot();
      error := CheckOne(item);
      hide *;
      Fields();
      BatchSettlement.PreCheckExact(s, item);
      OutcomeIs(s, Finalize.Finalize(s, item.contractId, item.finalizer));
      if error.None? {
        BatchSettlement.FinalizeKeepsConfig(s, item.contractId, item.finalizer);
        error := FinalizeContract(item.contractId, item.finalizer);
        Fields();
      }
    }

    method CheckOne(item: SettlementItem) returns (error: Option<Error>)
      ensures error == if Finalize.PreCheck(Snapshot(), item).Holds? then None
                       else Some(Finalize.PreCheck(Snapshot(), item).error)
      ensures error.None? <==>
                && item.contractId in accounts && item.contractId !in finalizations
                && CallerRole(item.finalizer, accounts[item.contractId].contract).Some?
                && Finalize.Closable(accounts[item.contractId].contract.status)
    {
      if item.contractId !in accounts { return Some(ContractNotFound); }
      if item.contractId in finalizations { return Some(AlreadyFinalized); }
      var contract := accounts[item.contractId].contract;
      var isArbiter := contract.arbiter.Some? && contract.arbiter.value == item.finalizer;
      if item.finalizer != contract.client && item.finalizer != contract.freelancer && !isArbiter {
        return Some(UnauthorizedRole);
      }
      if contract.status != Completed && contract.status != Disputed { return Some(InvalidStatusTransition); }
      return None;
    }

    method FinalizeContractsBatch(items: seq<SettlementItem>) returns (r: Result<seq<SettlementResult>, Error>)
      requires Valid()
      modifies this
      ensures match Finalize.Batch(old(Snapshot()), items) {
                case Success(done) => r == Success(done.1) && Snapshot() == done.0
                case Failure(e) => r == Failure(e) && Snapshot() == old(Snapshot())
              }
      ensures Valid()
    {
      ghost var s := Snapshot();
      BatchIs(s, items);
      hide *;
      Fields();
      var stopped := CheckNotPaused();
      if stopped.Some? { return Failure(stopped.value); }
      if items == [] { return Failure(BatchSettlementEmpty); }
      if |items| > MAX_BATCH_SETTLEMENT { return Failure(BatchSettlementTooLarge); }
      var results := [];
      NoItems(s, items[..0]);
      for i := 0 to |items|
        invariant Valid() && RequireNotPaused(config) == Holds
        invariant Finalize.Items(s, items[..i]) == Success((Snapshot(), results))
      {
        ghost var before := Snapshot();
        assert items[..i + 1][..i] == items[..i];
        Fields();
        var error := TryFinalizeOne(items[i]);
        ItemsStep(s, items[..i + 1], before, results, error, Snapshot());
        match error
        case None => results := results + [SettlementResult(i, items[i].contractId, true, None)];
        case Some(code) => results := results + [SettlementResult(i, items[i].contractId, false, Some(code))];
      }
      assert items[..|items|] == items;
      return Success(results);
    }

    method CheckReopen(id: nat, admin: Address) returns (error: Option<Error>)
      ensures var expected := Finalize.Reopen(Snapshot(), id, admin);
              if error.Some? then expected == Failure(error.value) else expected.Success?
    {
      if !config.initialized || config.admin.None? { return Some(NotInitialized); }
      if config.admin.value != admin { return Some(UnauthorizedRole); }
      if id !in accounts { return Some(ContractNotFound); }
      if id !in finalizations { return Some(RollbackNotAllowed); }
      var status := accounts[id].contract.status;
      if status != Completed && status != Disputed { return Some(RollbackNotAllowed); }
      return None;
    }

    /** `rollback_contract`: removes a finalization record. */
    method ReopenContract(id: nat, admin: Address) returns (error: Option<Error>)
      requires Valid()
      modifies this
      ensures Outcome(old(Snapshot()), Finalize.Reopen(old(Snapshot()), id, admin), error, Snapshot())
      ensures Valid()
    {
      ghost var s := Snapshot();
      hide *;
      Fields();
      OutcomeIs(s, Finalize.Reopen(s, id, admin));
      error := CheckReopen(id, admin);
      if error.Some? { return; }
      ReopenKeeps(s, id, admin);
      RemoveFinalization(id);
      Fields();
    }

    method RemoveFinalization(id: nat)
      modifies this`finalizations
      ensures Snapshot() == old(Snapshot()).(finalizations := old(finalizations) - {id})
    {
      finalizations := finalizations - {id};
    }

    // ---- parties ----

    method ReadMigration(id: nat) returns (r: Option<Migration>)
      ensures r == Participants.Pending(Snapshot(), id)
    {
      if id in migrations && clock.ledger <= migrations[id].liveUntil { return Some(migrations[id].value); }
      return None;
    }

    method CheckPropose(id: nat, current: Address, proposed: Address) returns (error: Option<Error>)
      ensures var expected := Participants.Propose(Snapshot(), id, current, proposed);
              if error.Some? then expected == Failure(error.value) else expected.Success?
    {
      hide TempStorage.Write;
      var stopped := CheckNotPaused();
      if stopped.Some? { return stopped; }
      var loaded := LoadOpen(id);
      if loaded.Failure? { return Some(loaded.error); }
      var contract := loaded.value.contract;
      if current != contract.client { return Some(UnauthorizedRole); }
      if proposed == contract.client || proposed == contract.freelancer { return Some(InvalidParticipant); }
      if !Participants.MigrationAllowed(contract.status) { return Some(InvalidStatusTransition); }
      var pending := ReadMigration(id);
      if pending.Some? { return Some(InvalidState); }
      return None;
    }

    /** Stores a migration proposal with its lifetime. */
    method WriteMigration(id: nat, pending: Migration)
      modifies this`migrations
      ensures Snapshot() == old(Snapshot()).(migrations :=
                TempStorage.Write(old(migrations), id, pending, clock, MIGRATION_TTL, MIGRATION_TTL))
    {
      var now := clock.ledger;
      var until := now;
      if id in migrations && now <= migrations[id].liveUntil {
        until := migrations[id].liveUntil;
      } else if clock.minTempTtl > 0 {
        until := now + clock.minTempTtl - 1;
      }
      if until < now + MIGRATION_TTL {
        until := now + MIGRATION_TTL;
      }
      migrations := migrations[id := Temporary(pending, until)];
    }

    method RemoveMigration(id: nat)
      modifies this`migrations
      ensures Snapshot() == old(Snapshot()).(migrations := old(migrations) - {id})
    {
      migrations := migrations - {id};
    }

    method ProposeMigration(id: nat, current: Address, proposed: Address) returns (error: Option<Error>)
      requires Valid()
      modifies this
      ensures Outcome(old(Snapshot()), Participants.Propose(old(Snapshot()), id, current, proposed), error, Snapshot())
      ensures Valid()
    {
      ghost var s := Snapshot();
      hide *;
      Fields();
      OutcomeIs(s, Participants.Propose(s, id, current, proposed));
      error := CheckPropose(id, current, proposed);
      if error.Some? { return; }
      ProposeOutcome(s, id, current, proposed);
      var expiry := Participants.SaturatingAdd(clock.ledger, MIGRATION_TTL);
      WriteMigration(id, Migration(current, proposed, clock.ledger, expiry));
      Fields();
    }

    method CheckAccept(id: nat, newClient: Address) returns (error: Option<Error>)
      ensures var expected := Participants.Accept(Snapshot(), id, newClient);
              if error.Some? then expected == Failure(error.value) else expected.Success?
    {
      var stopped := CheckNotPaused();
      if stopped.Some? { return stopped; }
      var loaded := LoadOpen(id);
      if loaded.Failure? { return Some(loaded.error); }
      if !Participants.MigrationAllowed(loaded.value.contract.status) { return Some(InvalidStatusTransition); }
      var pending := ReadMigration(id);
      if pending.None? { return Some(InvalidState); }
      if pending.value.proposedClient != newClient { return Some(UnauthorizedRole); }
      return None;
    }

    method AcceptMigration(id: nat, newClient: Address) returns (error: Option<Error>)
      requires Valid()
      modifies this
      ensures Outcome(old(Snapshot()), Participants.Accept(old(Snapshot()), id, newClient), error, Snapshot())
      ensures Valid()
    {
      ghost var s := Snapshot();
      hide *;
      Fields();
      OutcomeIs(s, Participants.Accept(s, id, newClient));
      error := CheckAccept(id, newClient);
      if error.Some? { return; }
      AcceptShape(s, id, newClient);
      AcceptKeeps(s, id, newClient);
      WithClientIs(accounts[id], newClient);
      var contract := accounts[id].contract.(client := newClient);
      StoredRollback(s, id, Account(contract, accounts[id].milestones), accounts[id]);
      StoreAccount(id, contract, accounts[id].milestones);
      Fields();
      RemoveMigration(id);
      Fields();
    }

    method CheckCancelMigration(id: nat, current: Address) returns (error: Option<Error>)
      ensures var expected := Participants.CancelMigration(Snapshot(), id, current);
              if error.Some? then expected == Failure(error.value) else expected.Success?
    {
      var loaded := LoadOpen(id);
      if loaded.Failure? { return Some(loaded.error); }
      if current != loaded.value.contract.client { return Some(UnauthorizedRole); }
      var pending := ReadMigration(id);
      if pending.None? { return Some(InvalidState); }
      return None;
    }

    method CancelMigration(id: nat, current: Address) returns (error: Option<Error>)
      requires Valid()
      modifies this
      ensures Outcome(old(Snapshot()), Participants.CancelMigration(old(Snapshot()), id, current), error, Snapshot())
      ensures Valid()
    {
      ghost var s := Snapshot();
      hide *;
      Fields();
      OutcomeIs(s, Participants.CancelMigration(s, id, current));
      error := CheckCancelMigration(id, current);
      if error.Some? { return; }
      CancelMigrationKeeps(s, id, current);
      RemoveMigration(id);
      Fields();
    }

    method CheckSetArbiter(id: nat, admin: Address, arbiter: Option<Address>) returns (error: Option<Error>)
      ensures var expected := Participants.SetArbiter(Snapshot(), id, admin, arbiter);
              if error.Some? then expected == Failure(error.value) else expected.Success?
    {
      if !config.initialized { return Some(NotInitialized); }
      var stopped := CheckNotPaused();
      if stopped.Some? { return stopped; }
      if id == 0 { return Some(InvalidContractId); }
      if config.admin.None? { return Some(NotInitialized); }
      if config.admin.value != admin { return Some(UnauthorizedRole); }
      var loaded := LoadOpen(id);
      if loaded.Failure? { return Some(loaded.error); }
      var contract := loaded.value.contract;
      if arbiter.Some? && (arbiter.value == contract.client || arbiter.value == contract.freelancer) {
        return Some(InvalidArbiter);
      }
      if NeedsArbiter(contract.releaseAuthorization) && arbiter.None? { return Some(MissingArbiter); }
      return None;
    }

    method SetArbiter(id: nat, admin: Address, arbiter: Option<Address>) returns (error: Option<Error>)
      requires Valid()
      modifies this
      ensures Outcome(old(Snapshot()), Participants.SetArbiter(old(Snapshot()), id, admin, arbiter), error, Snapshot())
      ensures Valid()
    {
      ghost var s := Snapshot();
      hide *;
      Fields();
      OutcomeIs(s, Participants.SetArbiter(s, id, admin, arbiter));
      error := CheckSetArbiter(id, admin, arbiter);
      if error.Some? { return; }
      SetArbiterShape(s, id, admin, arbiter);
      SetArbiterKeeps(s, id, admin, arbiter);
      WithArbiterIs(accounts[id], arbiter);
      var contract := accounts[id].contract.(arbiter := arbiter);
      StoreAccount(id, contract, accounts[id].milestones);
      Fields();
    }

    // ---- reputation and fees ----

    method CheckIssue(id: nat, caller: Address, rating: nat, comment: string) returns (error: Option<Error>)
      requires Valid()
      ensures var expected := Ratings.Issue(Snapshot(), id, caller, rating, comment);
              if error.Some? then expected == Failure(error.value) else expected.Success?
    {
      ReputationLedger.IssueExactly(Snapshot(), id, caller, rating, comment);
      hide Ok;
      var stopped := CheckNotPaused();
      if stopped.Some? { return stopped; }
      if id == 0 { return Some(InvalidContractId); }
      if id !in accounts { return Some(ContractNotFound); }
      var contract := accounts[id].contract;
      if caller != contract.client { return Some(UnauthorizedRole); }
      if rating < MIN_RATING || rating > MAX_RATING { return Some(InvalidRating); }
      if |comment| == 0 { return Some(EmptyComment); }
      if |comment| > MAX_COMMENT_BYTES { return Some(CommentTooLong); }
      if contract.status != Completed { return Some(NotCompleted); }
      if contract.reputationIssued { return Some(ReputationAlreadyIssued); }
      return None;
    }

    method IssueReputation(id: nat, caller: Address, rating: nat, comment: string) returns (error: Option<Error>)
      requires Valid()
      modifies this
      ensures Outcome(old(Snapshot()), Ratings.Issue(old(Snapshot()), id, caller, rating, comment), error, Snapshot())
      ensures Valid()
    {
      ghost var s := Snapshot();
      hide *;
      Fields();
      OutcomeIs(s, Ratings.Issue(s, id, caller, rating, comment));
      error := CheckIssue(id, caller, rating, comment);
      if error.Some? { return; }
      IssueShape(s, id, caller, rating, comment);
      IssueKeeps(s, id, caller, rating, comment);
      RatedIs(s, id, rating);
      var contract, milestones := accounts[id].contract, accounts[id].milestones;
      contract := contract.(reputationIssued := true);
      StoreAccount(id, contract, milestones);
      Fields();
      RateFreelancer(contract.freelancer, rating);
      Fields();
    }

    /** Spends one pending credit and adds the rating to the freelancer's record. */
    method RateFreelancer(who: Address, rating: nat)
      modifies this`credits, this`reputations
      ensures Snapshot() == WithRating(old(Snapshot()), who, rating)
    {
      var pending := CreditsOf(credits, who);
      credits := credits[who := pending - 1];
      var rep := ReputationOf(reputations, who);
      rep := rep.(completedContracts := rep.completedContracts + 1, totalRating := rep.totalRating + rating,
                  lastRating := rating);
      reputations := reputations[who := rep];
    }

    method CheckWithdraw(amount: int) returns (error: Option<Error>)
      requires Valid()
      ensures var expected := Fees.Withdraw(Snapshot(), amount);
              if error.Some? then expected == Failure(error.value)
              else 0 < amount <= fees && expected == Token.PayOut(Snapshot().(fees := fees - amount), amount)
    {
      OkFacts(Snapshot());
      hide Ok, AccountsOk, SnapshotOk, DisputesOk, Token.PayOut;
      if !config.initialized { return Some(NotInitialized); }
      if config.paused { return Some(ContractPaused); }
      if config.admin.None? { return Some(NotInitialized); }
      if amount <= 0 { return Some(AmountMustBePositive); }
      if amount > fees { return Some(InsufficientAccumulatedFees); }
      if !config.tokenBound { return Some(SettlementTokenNotConfigured); }
      return None;
    }

    /** Takes the amount out of the pot and out of the balance, or leaves both. */
    method PayFromPot(amount: int) returns (error: Option<Error>)
      modifies this`fees, this`balance
      ensures var expected := Token.PayOut(old(Snapshot()).(fees := old(fees) - amount), amount);
              Outcome(old(Snapshot()), expected, error, Snapshot())
    {
      if amount < 0 || balance < amount { return Some(TransferFailed); }
      fees := fees - amount;
      balance := balance - amount;
      return None;
    }

    method WithdrawFees(amount: int) returns (error: Option<Error>)
      requires Valid()
      modifies this
      ensures Outcome(old(Snapshot()), Fees.Withdraw(old(Snapshot()), amount), error, Snapshot())
      ensures Valid()
    {
      ghost var s := Snapshot();
      hide *;
      Fields();
      OutcomeIs(s, Fees.Withdraw(s, amount));
      error := CheckWithdraw(amount);
      if error.Some? { return; }
      if Fees.Withdraw(s, amount).Success? {
        WithdrawKeeps(s, amount);
      }
      error := PayFromPot(amount);
      Fields();
    }
  }
}
