/** Exactly when each call that creates a contract or moves money goes through, what it leaves, and why it is
    refused: stated over the storage, without the functions that define the calls. */
module MoneyCalls {
  import opened Results
  import opened Types
  import opened AccountInvariant
  import opened AccountSums
  import opened Authorization
  import opened LedgerInvariant
  import opened Milestones
  import opened StepsKeepInvariant
  import Amounts
  import ApprovalCalls
  import Creation
  import Deposit
  import EscrowOutcomes
  import FeeRounding
  import Fees
  import MilestoneApprovals
  import Refund
  import RefundOrder
  import Release
  import ReleaseGuard
  import ReleaseInverse
  import StatusMachine
  import Token

  /** Neither pause flag is set. */
  predicate Running(s: State) {
    !s.config.paused && !s.config.emergency
  }

  /** The contract exists and carries no finalization record. */
  predicate Unfinalized(s: State, id: nat) {
    id in s.accounts && id !in s.finalizations
  }

  // ---- create ----

  predicate Creatable(s: State, client: Address, freelancer: Address, arbiter: Option<Address>,
                      amounts: seq<int>, mode: ReleaseAuthorization) {
    && Running(s)
    && client != freelancer
    && (mode == ArbiterOnly || mode == ClientAndArbiter ==> arbiter.Some?)
    && arbiter != Some(client) && arbiter != Some(freelancer)
    && 0 < |amounts| <= MAX_MILESTONES
    && Amounts.AllPositive(amounts)
    && Amounts.Sum(amounts) <= I128_MAX
    && (s.config.maxTotal.Some? ==> Amounts.Sum(amounts) <= s.config.maxTotal.value)
    && s.nextId !in s.accounts && s.nextId < U32_MAX
  }

  /** A creation goes through exactly on these conditions; it takes the next id for a contract with these parties,
      nothing paid in, and one open milestone per amount. */
  lemma CreateExactly(s: State, client: Address, freelancer: Address, arbiter: Option<Address>,
                      amounts: seq<int>, mode: ReleaseAuthorization)
    ensures var r := Creation.Create(s, client, freelancer, arbiter, amounts, mode);
            && (r.Success? <==> Creatable(s, client, freelancer, arbiter, amounts, mode))
            && (r.Success? ==>
                  && s.nextId in r.value.accounts
                  && var a := r.value.accounts[s.nextId];
                     && r.value == s.(accounts := s.accounts[s.nextId := a], nextId := s.nextId + 1)
                     && a.contract == Contract(client, freelancer, arbiter, Created, 0, 0, 0, 0, mode, false)
                     && |a.milestones| == |amounts|
                     && forall k :: 0 <= k < |amounts| ==>
                          a.milestones[k] == Milestone(amounts[k], 0, 0, false, false, 0, None))
  {
    ApprovalCalls.Guards(s.config, client);
    hide RequireNotPaused, Amounts.Sum, Amounts.AllPositive, Creation.FreshMilestones;
  }

  lemma AmountReasons(config: Config, amounts: seq<int>)
    ensures Creation.CheckAmounts(config, amounts).Aborts? ==>
              match Creation.CheckAmounts(config, amounts).error {
                case InvalidMilestoneAmount => !Amounts.AllPositive(amounts) || Amounts.Sum(amounts) > I128_MAX
                case TotalCapExceeded =>
                  Amounts.Sum(amounts) > (if config.maxTotal.Some? then config.maxTotal.value else I128_MAX)
                case _ => false
              }
  {
    hide Amounts.Sum, Amounts.AllPositive;
  }

  /** What an error of a creation says. */
  predicate CreateTrue(s: State, client: Address, freelancer: Address, arbiter: Option<Address>,
                       amounts: seq<int>, mode: ReleaseAuthorization, error: Error) {
    match error
    case ContractPaused => s.config.paused
    case EmergencyActive => s.config.emergency
    case InvalidParticipant => client == freelancer
    case MissingArbiter => (mode == ArbiterOnly || mode == ClientAndArbiter) && arbiter.None?
    case InvalidArbiter => arbiter == Some(client) || arbiter == Some(freelancer)
    case EmptyMilestones => amounts == []
    case TooManyMilestones => |amounts| > MAX_MILESTONES
    case InvalidMilestoneAmount => !Amounts.AllPositive(amounts) || Amounts.Sum(amounts) > I128_MAX
    case TotalCapExceeded =>
      Amounts.Sum(amounts) > (if s.config.maxTotal.Some? then s.config.maxTotal.value else I128_MAX)
    case ContractIdCollision => s.nextId in s.accounts
    case ContractIdOverflow => s.nextId >= U32_MAX
    case _ => false
  }

  /** Whatever error a creation reports is true. */
  lemma CreateReasons(s: State, client: Address, freelancer: Address, arbiter: Option<Address>,
                      amounts: seq<int>, mode: ReleaseAuthorization)
    requires Creation.Create(s, client, freelancer, arbiter, amounts, mode).Failure?
    ensures CreateTrue(s, client, freelancer, arbiter, amounts, mode,
                       Creation.Create(s, client, freelancer, arbiter, amounts, mode).error)
  {
    ApprovalCalls.Guards(s.config, client);
    AmountReasons(s.config, amounts);
    hide RequireNotPaused, Creation.CheckAmounts, Amounts.Sum, Amounts.AllPositive, Creation.FreshMilestones;
  }

  // ---- deposit ----

  predicate Depositable(s: State, id: nat, caller: Address, amount: int, payerFunds: int) {
    && s.config.initialized && Running(s) && Unfinalized(s, id)
    && var c, ms := s.accounts[id].contract, s.accounts[id].milestones;
       && caller == c.client
       && (c.status == Created || c.status == PartiallyFunded)
       && 0 < amount <= Sum(Amount, ms) - c.fundedAmount
       && amount <= payerFunds && s.balance + amount <= I128_MAX
  }

  /** The guards before the validation of a deposit. */
  lemma AdmitIs(s: State, id: nat, caller: Address, amount: int)
    ensures Deposit.Admit(s, id, caller, amount)
         == if !s.config.initialized then Failure(NotInitialized)
            else if s.config.paused then Failure(ContractPaused)
            else if s.config.emergency then Failure(EmergencyActive)
            else if id in s.finalizations then Failure(AlreadyFinalized)
            else Deposit.Validate(s, id, caller, amount)
  {
    hide Deposit.Validate;
  }

  /** The validation admits exactly an amount the client still owes, and computes the new totals. */
  lemma ValidateExactly(s: State, id: nat, caller: Address, amount: int, total: int)
    requires id in s.accounts ==>
               var c := s.accounts[id].contract;
               && 0 <= c.fundedAmount <= I128_MAX && c.totalDeposited == c.fundedAmount
               && Accumulated(s.accounts[id].milestones) == Success(total) && total <= I128_MAX
    ensures var r := Deposit.Validate(s, id, caller, amount);
            && (r.Success? <==>
                  && id in s.accounts
                  && var c := s.accounts[id].contract;
                     && caller == c.client && (c.status == Created || c.status == PartiallyFunded)
                     && 0 < amount <= total - c.fundedAmount)
            && (r.Success? ==>
                  var a := s.accounts[id];
                  r.value == Deposit.Validated(a, a.contract.fundedAmount + amount, a.contract.fundedAmount + amount,
                                               total))
  {
    hide Accumulated;
  }

  lemma ValidateReasons(s: State, id: nat, caller: Address, amount: int, total: int)
    requires Deposit.Validate(s, id, caller, amount).Failure?
    requires id in s.accounts ==>
               var c := s.accounts[id].contract;
               && 0 <= c.fundedAmount <= I128_MAX && c.totalDeposited == c.fundedAmount
               && Accumulated(s.accounts[id].milestones) == Success(total)
    ensures match Deposit.Validate(s, id, caller, amount).error {
              case AmountMustBePositive => amount <= 0
              case ContractNotFound => id !in s.accounts
              case UnauthorizedRole => id in s.accounts && caller != s.accounts[id].contract.client
              case ContractCancelled => id in s.accounts && s.accounts[id].contract.status == Cancelled
              case ContractRefunded => id in s.accounts && s.accounts[id].contract.status == Types.Refunded
              case InvalidState =>
                && id in s.accounts
                && var status := s.accounts[id].contract.status;
                   status == Accepted || status == Funded || status == Completed || status == Disputed
              case PotentialOverflow => id in s.accounts && s.accounts[id].contract.fundedAmount + amount > I128_MAX
              case InvalidDepositAmount => id in s.accounts && s.accounts[id].contract.fundedAmount + amount > total
              case _ => false
            }
  {
    hide Accumulated;
  }

  /** What the invariant says of the account a deposit goes to. */
  lemma DepositFacts(s: State, id: nat)
    requires Ok(s) && id in s.accounts
    ensures var c, ms := s.accounts[id].contract, s.accounts[id].milestones;
            && 0 <= c.fundedAmount <= I128_MAX && c.totalDeposited == c.fundedAmount
            && Accumulated(ms) == Success(Sum(Amount, ms)) && Sum(Amount, ms) <= I128_MAX
  {
    hide *;
    AccountAt(s, id);
    BooksBounded(s.accounts[id]);
    EscrowOutcomes.DepositedIs(s.accounts[id]);
    AccumulatedExact(s.accounts[id].milestones);
  }

  lemma AdmitExactly(s: State, id: nat, caller: Address, amount: int)
    requires Ok(s)
    ensures var r := Deposit.Admit(s, id, caller, amount);
            && (r.Success? <==>
                  && s.config.initialized && Running(s) && Unfinalized(s, id)
                  && var c := s.accounts[id].contract;
                     && caller == c.client && (c.status == Created || c.status == PartiallyFunded)
                     && 0 < amount <= Sum(Amount, s.accounts[id].milestones) - c.fundedAmount)
            && (r.Success? ==>
                  var a := s.accounts[id];
                  r.value == Deposit.Validated(a, a.contract.fundedAmount + amount, a.contract.fundedAmount + amount,
                                               Sum(Amount, a.milestones)))
  {
    var total := if id in s.accounts then Sum(Amount, s.accounts[id].milestones) else 0;
    if id in s.accounts {
      DepositFacts(s, id);
    }
    AdmitIs(s, id, caller, amount);
    ValidateExactly(s, id, caller, amount, total);
    hide Ok, Deposit.Admit, Deposit.Validate, Accumulated, Sum;
  }

  lemma PayInIs(s: State, amount: int, payerFunds: int)
    ensures Token.PayIn(s, amount, payerFunds)
         == if 0 <= amount <= payerFunds && s.balance + amount <= I128_MAX
            then Success(s.(balance := s.balance + amount)) else Failure(TransferFailed)
  {
  }

  lemma StoreIs(s: State, id: nat, a: Account)
    ensures Store(s, id, a) == s.(accounts := s.accounts[id := a])
  {
  }

  /** A deposit goes through exactly on these conditions; it adds the amount to the balance and to both totals, and
      the contract is funded when nothing is missing any more. */
  lemma DepositExactly(s: State, id: nat, caller: Address, amount: int, payerFunds: int)
    requires Ok(s)
    ensures var r := Deposit.Deposit(s, id, caller, amount, payerFunds);
            && (r.Success? <==> Depositable(s, id, caller, amount, payerFunds))
            && (r.Success? ==>
                  var a := s.accounts[id];
                  var funded := a.contract.fundedAmount + amount;
                  var status := if funded == Sum(Amount, a.milestones) then Funded else PartiallyFunded;
                  r.value == s.(balance := s.balance + amount,
                                accounts := s.accounts[id := Account(a.contract.(
                                  fundedAmount := funded, totalDeposited := funded, status := status), a.milestones)]))
  {
    hide Ok, Deposit.Deposit, Deposit.Admit, Deposit.Apply, Token.PayIn, Store, Sum;
    EscrowOutcomes.DepositOutcome(s, id, caller, amount, payerFunds);
    AdmitExactly(s, id, caller, amount);
    PayInIs(s, amount, payerFunds);
    if Deposit.Admit(s, id, caller, amount).Success? {
      var v := Deposit.Admit(s, id, caller, amount).value;
      EscrowOutcomes.AppliedIs(v);
      StoreIs(s.(balance := s.balance + amount), id, Deposit.Apply(v));
    }
  }

  /** What is true when a deposit is refused, error by error. */
  lemma DepositReasons(s: State, id: nat, caller: Address, amount: int, payerFunds: int)
    requires Ok(s) && Deposit.Deposit(s, id, caller, amount, payerFunds).Failure?
    ensures match Deposit.Deposit(s, id, caller, amount, payerFunds).error {
              case NotInitialized => !s.config.initialized
              case ContractPaused => s.config.paused
              case EmergencyActive => s.config.emergency
              case AlreadyFinalized => id in s.finalizations
              case AmountMustBePositive => amount <= 0
              case ContractNotFound => id !in s.accounts
              case UnauthorizedRole => id in s.accounts && caller != s.accounts[id].contract.client
              case ContractCancelled => id in s.accounts && s.accounts[id].contract.status == Cancelled
              case ContractRefunded => id in s.accounts && s.accounts[id].contract.status == Types.Refunded
              case InvalidState =>
                && id in s.accounts
                && var status := s.accounts[id].contract.status;
                   status == Accepted || status == Funded || status == Completed || status == Disputed
              case PotentialOverflow => id in s.accounts && s.accounts[id].contract.fundedAmount + amount > I128_MAX
              case InvalidDepositAmount =>
                && id in s.accounts
                && s.accounts[id].contract.fundedAmount + amount > Sum(Amount, s.accounts[id].milestones)
              case TransferFailed => amount > payerFunds || s.balance + amount > I128_MAX
              case _ => false
            }
  {
    hide *;
    var total := if id in s.accounts then Sum(Amount, s.accounts[id].milestones) else 0;
    if id in s.accounts {
      DepositFacts(s, id);
    }
    EscrowOutcomes.DepositOutcome(s, id, caller, amount, payerFunds);
    AdmitIs(s, id, caller, amount);
    ValidateExactly(s, id, caller, amount, total);
    PayInIs(s, amount, payerFunds);
    if Deposit.Validate(s, id, caller, amount).Failure? {
      ValidateReasons(s, id, caller, amount, total);
    }
  }

  // ---- release ----

  /** Who may trigger a release, by mode. */
  predicate Admitted(caller: Address, c: Contract) {
    match c.releaseAuthorization
    case ClientOnly => caller == c.client
    case ArbiterOnly => c.arbiter == Some(caller)
    case ClientAndArbiter => caller == c.client || c.arbiter == Some(caller)
    case MultiSig => caller == c.client || caller == c.freelancer
  }

  /** The entry checks of a release. */
  ghost predicate Ready(s: State, id: nat, caller: Address, index: nat) {
    && Running(s) && Unfinalized(s, id)
    && var c, ms, slot := s.accounts[id].contract, s.accounts[id].milestones, Slot(id, index);
       && c.status == Funded
       && Admitted(caller, c)
       && index < |ms| && !ms[index].released && !ms[index].refunded
       && slot in s.approvals && s.clock.ledger <= s.approvals[slot].liveUntil
       && Quorum(s.approvals[slot].value, c.releaseAuthorization)
  }

  lemma ReadyExactly(s: State, id: nat, caller: Address, index: nat)
    ensures Release.Releasable(s, id, caller, index).Success? <==> Ready(s, id, caller, index)
  {
    ApprovalCalls.Guards(s.config, caller);
    if Slot(id, index) in s.approvals && id in s.accounts {
      SufficientExactly(s.approvals[Slot(id, index)].value, s.accounts[id].contract.releaseAuthorization);
    }
    hide RequireNotPaused, Sufficient, Quorum;
  }

  /** What is true when the entry checks of a release refuse it, error by error. */
  lemma ReadyReasons(s: State, id: nat, caller: Address, index: nat)
    requires Release.Releasable(s, id, caller, index).Failure?
    ensures match Release.Releasable(s, id, caller, index).error {
              case ContractPaused => s.config.paused
              case EmergencyActive => s.config.emergency
              case ContractNotFound => id !in s.accounts
              case AlreadyFinalized => id in s.finalizations
              case InvalidState => id in s.accounts && s.accounts[id].contract.status != Funded
              case UnauthorizedRole => id in s.accounts && !Admitted(caller, s.accounts[id].contract)
              case IndexOutOfBounds => id in s.accounts && index >= |s.accounts[id].milestones|
              case MilestoneAlreadyReleased =>
                id in s.accounts && index < |s.accounts[id].milestones| && s.accounts[id].milestones[index].released
              case AlreadyRefunded =>
                id in s.accounts && index < |s.accounts[id].milestones| && s.accounts[id].milestones[index].refunded
              case InsufficientApprovals =>
                && id in s.accounts
                && var slot := Slot(id, index);
                   slot in s.approvals && s.clock.ledger <= s.approvals[slot].liveUntil ==>
                     !Quorum(s.approvals[slot].value, s.accounts[id].contract.releaseAuthorization)
              case _ => false
            }
  {
    ApprovalCalls.Guards(s.config, caller);
    if Slot(id, index) in s.approvals && id in s.accounts {
      SufficientExactly(s.approvals[Slot(id, index)].value, s.accounts[id].contract.releaseAuthorization);
    }
    hide RequireNotPaused, Sufficient, Quorum;
  }

  /** The fee of a release: nothing before the initialization, else the rate rounded down. */
  lemma FeeIs(config: Config, amount: int)
    requires 0 < amount && config.feeBps <= BPS_DENOMINATOR && ReleaseGuard.FeeFits(config, amount)
    ensures Fees.ReleaseFee(config, amount).Success?
    ensures var fee := Fees.ReleaseFee(config, amount).value;
            && (!config.initialized ==> fee == 0)
            && (config.initialized ==>
                  0 <= amount * config.feeBps - BPS_DENOMINATOR * fee <= BPS_DENOMINATOR - 1)
  {
    ReleaseGuard.FeeFitsExactly(config, amount);
    FeeRounding.ProtocolFeeExact(amount, config.feeBps);
    FeeRounding.FeeRemainder(amount, config.feeBps);
  }

  /** The whole condition of a release. */
  ghost predicate Payable(s: State, id: nat, caller: Address, index: nat) {
    && Ready(s, id, caller, index)
    && var ms := s.accounts[id].milestones;
       && ReleaseGuard.FeeFits(s.config, ms[index].amount)
       && s.fees <= Sum(Fee, ms) + ReleaseGuard.OthersOpen(ms, index)
       && ms[index].amount - ReleaseFee(s, id, index) <= s.balance
  }

  /** A release goes through exactly when its caller, contract, milestone and approvals are in order, its fee can be
      computed, the fee pot leaves room for it and the balance covers the payment. */
  lemma ReleaseCallExactly(s: State, id: nat, caller: Address, index: nat)
    requires Ok(s)
    ensures Release.Release(s, id, caller, index).Success? <==> Payable(s, id, caller, index)
  {
    hide *;
    ReadyExactly(s, id, caller, index);
    PayableIs(s, id, caller, index);
    if Release.Releasable(s, id, caller, index).Success? {
      OkFacts(s);
      ReleaseGuard.ReleasableFacts(s, id, caller, index);
      AccountAt(s, id);
      AmountPositive(s.accounts[id], index);
      ReleaseGuard.ReleaseExactly(s, id, caller, index);
      ReleaseFeeValue(s, id, index);
    } else {
      EscrowOutcomes.ReleaseRefused(s, id, caller, index);
    }
  }

  lemma PayableIs(s: State, id: nat, caller: Address, index: nat)
    ensures Payable(s, id, caller, index) <==>
              && Ready(s, id, caller, index)
              && id in s.accounts && index < |s.accounts[id].milestones|
              && var ms := s.accounts[id].milestones;
                 && ReleaseGuard.FeeFits(s.config, ms[index].amount)
                 && s.fees <= Sum(Fee, ms) + ReleaseGuard.OthersOpen(ms, index)
                 && ms[index].amount - ReleaseFee(s, id, index) <= s.balance
  {
    hide Sum, ReleaseGuard.FeeFits, ReleaseGuard.OthersOpen, StepsKeepInvariant.ReleaseFee, Quorum;
  }

  lemma ReleaseFeeValue(s: State, id: nat, index: nat)
    requires id in s.accounts && index < |s.accounts[id].milestones|
    requires s.config.feeBps <= BPS_DENOMINATOR && 0 < s.accounts[id].milestones[index].amount
    ensures ReleaseGuard.FeeFits(s.config, s.accounts[id].milestones[index].amount) ==>
              && Fees.ReleaseFee(s.config, s.accounts[id].milestones[index].amount).Success?
              && Fees.ReleaseFee(s.config, s.accounts[id].milestones[index].amount).value == ReleaseFee(s, id, index)
  {
    ReleaseGuard.FeeFitsExactly(s.config, s.accounts[id].milestones[index].amount);
    hide ReleaseGuard.FeeFits, Fees.ReleaseFee;
  }

  /** What a release leaves: the milestone marked with its fee, the net payment out of the balance and into the
      released total, the fee in the pot, the approvals gone, and the contract completed with a credit for its
      freelancer exactly if no milestone is left open. */
  lemma ReleaseLeaves(s: State, id: nat, caller: Address, index: nat)
    requires Ok(s) && Release.Release(s, id, caller, index).Success?
    ensures id in s.accounts && index < |s.accounts[id].milestones|
    ensures var a, t := s.accounts[id], Release.Release(s, id, caller, index).value;
            var m, fee, who := a.milestones[index], ReleaseFee(s, id, index), a.contract.freelancer;
            var ms := a.milestones[index := m.(released := true, fundedAmount := m.amount, protocolFee := fee)];
            var done := forall k :: 0 <= k < |ms| ==> ms[k].released || ms[k].refunded;
            t == s.(balance := s.balance - (m.amount - fee),
                    fees := s.fees + fee,
                    approvals := s.approvals - {Slot(id, index)},
                    credits := if done then s.credits[who := CreditsOf(s.credits, who) + 1] else s.credits,
                    accounts := s.accounts[id := Account(
                      a.contract.(releasedAmount := a.contract.releasedAmount + (m.amount - fee),
                                  status := if done then Completed else Funded), ms)])
  {
    hide *;
    OkFacts(s);
    ReleaseInverse.ReleaseChecks(s, id, caller, index);
    EscrowOutcomes.ReleaseOutcome(s, id, caller, index);
    ReleaseGuard.ReleasableFacts(s, id, caller, index);
    var a := s.accounts[id];
    var gross := a.milestones[index].amount;
    ReleaseGuard.FeeOfFunding(s, a.contract, gross);
    ReleaseGuard.FeeFitsExactly(s.config, gross);
    ReleaseFeeValue(s, id, index);
    CompletionLeaves(s, id, index, ReleaseFee(s, id, index));
  }

  lemma CompletionLeaves(s: State, id: nat, index: nat, fee: int)
    requires id in s.accounts && index < |s.accounts[id].milestones| && s.accounts[id].contract.status == Funded
    ensures var a := s.accounts[id];
            var m, who := a.milestones[index], a.contract.freelancer;
            var ms := a.milestones[index := m.(released := true, fundedAmount := m.amount, protocolFee := fee)];
            var done := forall k :: 0 <= k < |ms| ==> ms[k].released || ms[k].refunded;
            EscrowOutcomes.Completion(ReleaseGuard.Booked(s, id, index, fee, s.fees + fee), id,
                                      EscrowOutcomes.Paid(a, index, fee))
            == s.(balance := s.balance - (m.amount - fee),
                  fees := s.fees + fee,
                  approvals := s.approvals - {Slot(id, index)},
                  credits := if done then s.credits[who := CreditsOf(s.credits, who) + 1] else s.credits,
                  accounts := s.accounts[id := Account(
                    a.contract.(releasedAmount := a.contract.releasedAmount + (m.amount - fee),
                                status := if done then Completed else Funded), ms)])
  {
    hide CreditsOf;
  }

  // ---- refund ----

  /** The conditions of a refund. */
  predicate Reclaimable(s: State, id: nat, indices: seq<nat>) {
    && Running(s) && Unfinalized(s, id)
    && indices != []
    && (forall i, j :: 0 <= i < j < |indices| ==> indices[i] != indices[j])
    && var c, ms := s.accounts[id].contract, s.accounts[id].milestones;
       && (c.status == Funded || c.status == Disputed)
       && (forall i :: i in indices ==>
            && i < |ms| && !ms[i].released && !ms[i].refunded
            && (ms[i].deadline.None? || s.clock.timestamp > ms[i].deadline.value))
       && var total := RefundOrder.AmountsAt(ms, indices);
          total <= c.fundedAmount - c.releasedAmount - c.refundedAmount && total <= s.balance
  }

  /** A refund goes through exactly when the listed milestones are distinct, open and, if they have a deadline, past
      it, and their amounts fit what is available and the balance. */
  lemma RefundCallExactly(s: State, id: nat, indices: seq<nat>)
    requires Ok(s)
    ensures Refund.Refund(s, id, indices).Success? <==> Reclaimable(s, id, indices)
  {
    RefundOrder.RefundExactly(s, id, indices);
    ApprovalCalls.Guards(s.config, Address(0));
    hide Ok, Refund.Refund, RequireNotPaused, RefundOrder.AmountsAt;
    if id in s.accounts {
      forall i: nat ensures Refund.CheckRefundable(s.accounts[id].milestones, i, s.clock.timestamp).Holds? <==>
                         && i < |s.accounts[id].milestones|
                         && var m := s.accounts[id].milestones[i];
                            !m.released && !m.refunded && (m.deadline.None? || s.clock.timestamp > m.deadline.value)
      {
        RefundableOne(s.accounts[id].milestones, i, s.clock.timestamp);
      }
    }
  }

  lemma RefundableOne(ms: seq<Milestone>, i: nat, now: nat)
    ensures Refund.CheckRefundable(ms, i, now).Holds? <==>
              i < |ms| && !ms[i].released && !ms[i].refunded && (ms[i].deadline.None? || now > ms[i].deadline.value)
    ensures Refund.CheckRefundable(ms, i, now).Aborts? ==>
              match Refund.CheckRefundable(ms, i, now).error {
                case IndexOutOfBounds => i >= |ms|
                case AlreadyReleased => i < |ms| && ms[i].released
                case AlreadyRefunded => i < |ms| && ms[i].refunded
                case MilestoneNotOverdue => i < |ms| && ms[i].deadline.Some? && now <= ms[i].deadline.value
                case _ => false
              }
  {
  }

  /** Why a list of milestones cannot be refunded: one of them is at fault in the way reported. */
  predicate Faulty(ms: seq<Milestone>, indices: seq<nat>, now: nat, error: Error) {
    exists i :: i in indices && RefundBar(ms, i, now, error)
  }

  predicate RefundBar(ms: seq<Milestone>, i: nat, now: nat, error: Error) {
    match error
    case IndexOutOfBounds => i >= |ms|
    case AlreadyReleased => i < |ms| && ms[i].released
    case AlreadyRefunded => i < |ms| && ms[i].refunded
    case MilestoneNotOverdue => i < |ms| && ms[i].deadline.Some? && now <= ms[i].deadline.value
    case _ => false
  }

  lemma {:induction false} RequestedReasons(ms: seq<Milestone>, indices: seq<nat>, now: nat)
    requires AllWellFormed(ms) && Sum(Amount, ms) <= I128_MAX && Refund.Distinct(indices)
    requires Refund.Requested(ms, indices, now).Failure?
    ensures Faulty(ms, indices, now, Refund.Requested(ms, indices, now).error)
  {
    RefundOrder.RequestedExactly(ms, indices, now);
    var rest, last := indices[..|indices| - 1], indices[|indices| - 1];
    RefundableOne(ms, last, now);
    assert indices == rest + [last];
    if Refund.Requested(ms, rest, now).Failure? {
      RequestedReasons(ms, rest, now);
    } else {
      RefundOrder.RequestedExactly(ms, rest, now);
    }
  }

  /** What is true when the checks of a refund refuse it, on books that cannot overflow. */
  lemma RefundTotalReasons(s: State, id: nat, indices: seq<nat>)
    requires Refund.RefundTotal(s, id, indices).Failure?
    requires id in s.accounts ==>
               var c := s.accounts[id].contract;
               var total := Refund.Requested(s.accounts[id].milestones, indices, s.clock.timestamp);
               && 0 <= c.releasedAmount && 0 <= c.refundedAmount
               && c.releasedAmount + c.refundedAmount <= c.fundedAmount <= I128_MAX
               && (Refund.Distinct(indices) && total.Success? ==>
                     total.value == RefundOrder.AmountsAt(s.accounts[id].milestones, indices))
               && (Refund.Distinct(indices) && total.Failure? ==>
                     Faulty(s.accounts[id].milestones, indices, s.clock.timestamp, total.error))
    ensures RefundTrue(s, id, indices, Refund.RefundTotal(s, id, indices).error)
  {
    hide Refund.Requested, Refund.Distinct, RefundOrder.AmountsAt, Faulty, Repeats;
    NotDistinct(indices);
    if id in s.accounts && Refund.Requested(s.accounts[id].milestones, indices, s.clock.timestamp).Failure? {
      FaultyErrors(s.accounts[id].milestones, indices, s.clock.timestamp,
                   Refund.Requested(s.accounts[id].milestones, indices, s.clock.timestamp).error);
    }
  }

  lemma FaultyErrors(ms: seq<Milestone>, indices: seq<nat>, now: nat, error: Error)
    ensures Faulty(ms, indices, now, error) ==>
              error.IndexOutOfBounds? || error.AlreadyReleased? || error.AlreadyRefunded? || error.MilestoneNotOverdue?
  {
  }

  lemma NotDistinct(indices: seq<nat>)
    ensures Refund.Distinct(indices) <==> !Repeats(indices)
  {
  }

  predicate Repeats(indices: seq<nat>) {
    exists i, j :: 0 <= i < j < |indices| && indices[i] == indices[j]
  }

  /** What an error of a refund says. */
  predicate RefundTrue(s: State, id: nat, indices: seq<nat>, error: Error) {
    match error
    case ContractPaused => s.config.paused
    case EmergencyActive => s.config.emergency
    case EmptyRefundRequest => indices == []
    case DuplicateMilestoneInRefund => Repeats(indices)
    case ContractNotFound => id !in s.accounts
    case AlreadyFinalized => id in s.finalizations
    case InvalidState =>
      && id in s.accounts
      && s.accounts[id].contract.status != Funded && s.accounts[id].contract.status != Disputed
    case InsufficientFunds =>
      id in s.accounts && RefundOrder.AmountsAt(s.accounts[id].milestones, indices) > Value(Claim, s.accounts[id])
    case TransferFailed =>
      id in s.accounts && RefundOrder.AmountsAt(s.accounts[id].milestones, indices) > s.balance
    case _ => id in s.accounts && Faulty(s.accounts[id].milestones, indices, s.clock.timestamp, error)
  }

  /** Whatever error a refund reports is true. */
  lemma RefundReasons(s: State, id: nat, indices: seq<nat>)
    requires Ok(s) && Refund.Refund(s, id, indices).Failure?
    ensures RefundTrue(s, id, indices, Refund.Refund(s, id, indices).error)
  {
    hide *;
    if id in s.accounts {
      BooksAt(s, id);
      if Refund.Distinct(indices) {
        RefundFacts(s, id, indices);
      }
    }
    if Refund.RefundTotal(s, id, indices).Failure? {
      EscrowOutcomes.RefundRefused(s, id, indices);
      RefundTotalReasons(s, id, indices);
    } else {
      EscrowOutcomes.RefundOutcome(s, id, indices);
      RefundTotalDistinct(s, id, indices);
      TransferTrue(s, id, indices);
    }
  }

  lemma TransferTrue(s: State, id: nat, indices: seq<nat>)
    requires id in s.accounts && RefundOrder.AmountsAt(s.accounts[id].milestones, indices) > s.balance
    ensures RefundTrue(s, id, indices, TransferFailed)
  {
    hide RefundOrder.AmountsAt;
  }

  lemma RefundTotalDistinct(s: State, id: nat, indices: seq<nat>)
    requires Refund.RefundTotal(s, id, indices).Success?
    ensures id in s.accounts && Refund.Distinct(indices)
    ensures Refund.Requested(s.accounts[id].milestones, indices, s.clock.timestamp)
         == Success(Refund.RefundTotal(s, id, indices).value)
  {
    hide Refund.Requested, Refund.Distinct;
  }

  lemma RefundFacts(s: State, id: nat, indices: seq<nat>)
    requires Ok(s) && id in s.accounts && Refund.Distinct(indices)
    ensures var ms := s.accounts[id].milestones;
            var total := Refund.Requested(ms, indices, s.clock.timestamp);
            if total.Success? then total.value == RefundOrder.AmountsAt(ms, indices)
            else Faulty(ms, indices, s.clock.timestamp, total.error)
  {
    hide *;
    AccountAt(s, id);
    EscrowOutcomes.DepositedIs(s.accounts[id]);
    RefundOrder.RequestedExactly(s.accounts[id].milestones, indices, s.clock.timestamp);
    if Refund.Requested(s.accounts[id].milestones, indices, s.clock.timestamp).Failure? {
      RequestedReasons(s.accounts[id].milestones, indices, s.clock.timestamp);
    }
  }

  /** A refund leaves exactly the listed milestones marked, each for its whole amount; it closes the contract when
      none is left open, as refunded if every milestone is, else as completed with a credit. */
  lemma RefundLeaves(s: State, id: nat, indices: seq<nat>)
    requires Ok(s) && Refund.Refund(s, id, indices).Success?
    ensures id in s.accounts && id in Refund.Refund(s, id, indices).value.accounts
    ensures var a, b := s.accounts[id], Refund.Refund(s, id, indices).value.accounts[id];
            var total, t := RefundOrder.AmountsAt(a.milestones, indices), Refund.Refund(s, id, indices).value;
            var done := AllSettled(b.milestones) && !AllRefunded(b.milestones);
            var who := a.contract.freelancer;
            && |b.milestones| == |a.milestones|
            && (forall k :: 0 <= k < |a.milestones| ==>
                  var m := a.milestones[k];
                  b.milestones[k] == if k in indices then m.(refunded := true, refundedAmount := m.amount) else m)
            && b.contract == a.contract.(refundedAmount := a.contract.refundedAmount + total,
                 status := if !AllSettled(b.milestones) then a.contract.status
                           else if AllRefunded(b.milestones) then Types.Refunded else Completed)
            && t == s.(balance := s.balance - total, accounts := s.accounts[id := b],
                       credits := if done then s.credits[who := CreditsOf(s.credits, who) + 1] else s.credits)
  {
    hide *;
    RefundState(s, id, indices);
    AfterRefundIs(s.accounts[id], indices, RefundOrder.AmountsAt(s.accounts[id].milestones, indices));
  }

  lemma RefundState(s: State, id: nat, indices: seq<nat>)
    requires Ok(s) && Refund.Refund(s, id, indices).Success?
    ensures id in s.accounts
    ensures s.accounts[id].contract.status == Funded || s.accounts[id].contract.status == Disputed
    ensures var a := s.accounts[id];
            var total := RefundOrder.AmountsAt(a.milestones, indices);
            var b, who := AfterRefund(a, indices, total), a.contract.freelancer;
            && b.contract.freelancer == who
            && Refund.Refund(s, id, indices).value
               == s.(balance := s.balance - total, accounts := s.accounts[id := b],
                     credits := if b.contract.status == Completed then s.credits[who := CreditsOf(s.credits, who) + 1]
                                else s.credits)
  {
    hide *;
    RefundOrder.RefundExactly(s, id, indices);
    RefundOrder.RefundableHasAccount(s, id, indices);
    RefundOrder.RefundableParts(s, id, indices);
    var a, total := s.accounts[id], RefundOrder.AmountsAt(s.accounts[id].milestones, indices);
    AfterRefundIs(a, indices, total);
    FinishedIs(s, id, s.balance - total, AfterRefund(a, indices, total));
  }

  lemma FinishedIs(s: State, id: nat, balance: int, b: Account)
    requires Finished(s.(balance := balance), id, b).Success?
    ensures var who := b.contract.freelancer;
            Finished(s.(balance := balance), id, b).value
            == s.(balance := balance, accounts := s.accounts[id := b],
                  credits := if b.contract.status == Completed then s.credits[who := CreditsOf(s.credits, who) + 1]
                             else s.credits)
  {
    ReleaseInverse.FinishedForm(s.(balance := balance), id, b);
    CreditsWithIs(s.credits, b);
    hide Finished, ReleaseInverse.CreditsWith, CreditsOf;
  }

  lemma CreditsWithIs(credits: map<Address, int>, b: Account)
    ensures var who := b.contract.freelancer;
            ReleaseInverse.CreditsWith(credits, b)
            == if b.contract.status == Completed then credits[who := CreditsOf(credits, who) + 1] else credits
  {
  }

  lemma AfterRefundIs(a: Account, indices: seq<nat>, total: int)
    requires a.contract.status == Funded || a.contract.status == Disputed
    ensures var b := AfterRefund(a, indices, total);
            && |b.milestones| == |a.milestones|
            && (forall k :: 0 <= k < |a.milestones| ==>
                  var m := a.milestones[k];
                  b.milestones[k] == if k in indices then m.(refunded := true, refundedAmount := m.amount) else m)
            && b.contract == a.contract.(refundedAmount := a.contract.refundedAmount + total,
                 status := if !AllSettled(b.milestones) then a.contract.status
                           else if AllRefunded(b.milestones) then Types.Refunded else Completed)
            && (b.contract.status == Completed <==> AllSettled(b.milestones) && !AllRefunded(b.milestones))
  {
    hide AllSettled, AllRefunded;
  }

  // ---- cancellation ----

  predicate Cancellable(s: State, id: nat, who: Address) {
    && Running(s) && Unfinalized(s, id)
    && var c := s.accounts[id].contract;
       && who == c.client
       && (c.status == Created || c.status == Funded)
       && c.releasedAmount == 0
       && var left := c.fundedAmount - c.refundedAmount;
          left > 0 ==> s.config.tokenBound && left <= s.balance
  }

  /** The checks of a cancellation, on books that cannot overflow. */
  lemma CancelAmountExactly(s: State, id: nat, who: Address)
    requires id in s.accounts ==>
               var c := s.accounts[id].contract;
               && 0 <= c.releasedAmount && 0 <= c.refundedAmount
               && c.releasedAmount + c.refundedAmount <= c.fundedAmount <= I128_MAX
    ensures var r := Refund.CancelAmount(s, id, who);
            && (r.Success? <==>
                  && Running(s) && Unfinalized(s, id)
                  && var c := s.accounts[id].contract;
                     && who == c.client
                     && (c.status == Created || c.status == Funded)
                     && c.releasedAmount == 0
                     && (c.fundedAmount - c.refundedAmount > 0 ==> s.config.tokenBound))
            && (r.Success? ==>
                  r.value == s.accounts[id].contract.fundedAmount - s.accounts[id].contract.refundedAmount)
  {
  }

  lemma CancelAmountReasons(s: State, id: nat, who: Address)
    requires Refund.CancelAmount(s, id, who).Failure?
    requires id in s.accounts ==>
               var c := s.accounts[id].contract;
               && 0 <= c.releasedAmount && 0 <= c.refundedAmount
               && c.releasedAmount + c.refundedAmount <= c.fundedAmount <= I128_MAX
    ensures match Refund.CancelAmount(s, id, who).error {
              case ContractPaused => s.config.paused
              case EmergencyActive => s.config.emergency
              case ContractNotFound => id !in s.accounts
              case AlreadyFinalized => id in s.finalizations
              case UnauthorizedRole => id in s.accounts && who != s.accounts[id].contract.client
              case AlreadyCancelled => id in s.accounts && s.accounts[id].contract.status == Cancelled
              case InvalidStatusTransition =>
                && id in s.accounts
                && var c := s.accounts[id].contract;
                   && c.status != Cancelled
                   && ((c.status != Created && c.status != Funded) || c.releasedAmount != 0)
              case NotInitialized => !s.config.tokenBound
              case _ => false
            }
  {
  }

  lemma BooksAt(s: State, id: nat)
    requires Ok(s) && id in s.accounts
    ensures var c := s.accounts[id].contract;
            && 0 <= c.releasedAmount && 0 <= c.refundedAmount
            && c.releasedAmount + c.refundedAmount <= c.fundedAmount <= I128_MAX
  {
    hide *;
    AccountAt(s, id);
    BooksBounded(s.accounts[id]);
  }

  /** A cancellation goes through exactly when the client asks for it, before anything was released net, and what is
      left can be paid. */
  lemma CancelExactly(s: State, id: nat, who: Address)
    requires Ok(s)
    ensures Refund.Cancel(s, id, who).Success? <==> Cancellable(s, id, who)
  {
    if id in s.accounts {
      BooksAt(s, id);
    }
    EscrowOutcomes.CancelOutcome(s, id, who);
    CancelAmountExactly(s, id, who);
    hide Ok, Refund.Cancel, Refund.CancelAmount, Store, EscrowOutcomes.Returned;
    if Refund.CancelAmount(s, id, who).Success? {
      ReturnedIs(s, Refund.CancelAmount(s, id, who).value);
    }
  }

  /** A cancellation pays out all that is left, counts it as refunded, and closes the contract. */
  lemma CancelLeaves(s: State, id: nat, who: Address)
    requires Ok(s) && Refund.Cancel(s, id, who).Success?
    ensures id in s.accounts
    ensures var c := s.accounts[id].contract;
            Refund.Cancel(s, id, who).value
            == s.(balance := s.balance - (c.fundedAmount - c.refundedAmount),
                  accounts := s.accounts[id := Account(c.(refundedAmount := c.fundedAmount, status := Cancelled),
                                                       s.accounts[id].milestones)])
  {
    hide *;
    CancelEffect(s, id, who);
    CancelledIs(s.accounts[id]);
    StoreIs(s.(balance := s.balance - Value(Claim, s.accounts[id])), id, AfterCancel(s.accounts[id]));
  }

  lemma CancelledIs(a: Account)
    requires a.contract.releasedAmount == 0
    ensures var c := a.contract;
            && Value(Claim, a) == c.fundedAmount - c.refundedAmount
            && AfterCancel(a) == Account(c.(refundedAmount := c.fundedAmount, status := Cancelled), a.milestones)
  {
  }

  lemma CancelReasons(s: State, id: nat, who: Address)
    requires Ok(s) && Refund.Cancel(s, id, who).Failure?
    ensures match Refund.Cancel(s, id, who).error {
              case ContractPaused => s.config.paused
              case EmergencyActive => s.config.emergency
              case ContractNotFound => id !in s.accounts
              case AlreadyFinalized => id in s.finalizations
              case UnauthorizedRole => id in s.accounts && who != s.accounts[id].contract.client
              case AlreadyCancelled => id in s.accounts && s.accounts[id].contract.status == Cancelled
              case InvalidStatusTransition =>
                && id in s.accounts
                && var c := s.accounts[id].contract;
                   && c.status != Cancelled
                   && ((c.status != Created && c.status != Funded) || c.releasedAmount != 0)
              case NotInitialized => !s.config.tokenBound
              case TransferFailed => id in s.accounts && s.balance < Value(Claim, s.accounts[id])
              case _ => false
            }
  {
    hide *;
    if id in s.accounts {
      BooksAt(s, id);
    }
    EscrowOutcomes.CancelOutcome(s, id, who);
    if Refund.CancelAmount(s, id, who).Success? {
      EscrowOutcomes.CancelFacts(s, id, who);
      ReturnedIs(s, Refund.CancelAmount(s, id, who).value);
    } else {
      CancelAmountReasons(s, id, who);
    }
  }

  lemma ReturnedIs(s: State, amount: int)
    requires 0 <= amount
    ensures EscrowOutcomes.Returned(s, amount)
         == if amount == 0 || amount <= s.balance then Success(s.(balance := s.balance - amount))
            else Failure(TransferFailed)
  {
  }

  // ---- milestone rollback ----

  predicate Undoable(s: State, id: nat, caller: Address, index: nat) {
    && s.config.initialized && Running(s) && s.config.admin == Some(caller) && Unfinalized(s, id)
    && var c, ms := s.accounts[id].contract, s.accounts[id].milestones;
       c.status == Funded && index < |ms| && (ms[index].released || ms[index].refunded)
  }

  /** A milestone rollback goes through exactly on these conditions. */
  lemma UndoExactly(s: State, id: nat, caller: Address, index: nat)
    requires Ok(s)
    ensures Release.RollBack(s, id, caller, index).Success? <==> Undoable(s, id, caller, index)
  {
    StatusMachine.RollBackExactly(s, id, caller, index);
    ApprovalCalls.Guards(s.config, caller);
    hide Ok, Release.RollBack, RequireInitialized, RequireNotPaused, RequireAdmin;
  }

  /** A rollback reopens the milestone and takes its value off the total it was counted in. A release also loses its
      approvals, and gives its fee back as far as the pot holds it; the balance does not move. */
  lemma UndoLeaves(s: State, id: nat, caller: Address, index: nat)
    requires Ok(s) && Release.RollBack(s, id, caller, index).Success?
    ensures id in s.accounts && index < |s.accounts[id].milestones|
    ensures var a, t := s.accounts[id], Release.RollBack(s, id, caller, index).value;
            var c, m := a.contract, a.milestones[index];
            t == if m.released then
                   s.(fees := if m.protocolFee <= s.fees then s.fees - m.protocolFee else s.fees,
                      approvals := s.approvals - {Slot(id, index)},
                      accounts := s.accounts[id := Account(
                        c.(releasedAmount := c.releasedAmount - (m.amount - m.protocolFee)),
                        a.milestones[index := m.(released := false, fundedAmount := 0, protocolFee := 0)])])
                 else
                   s.(accounts := s.accounts[id := Account(
                        c.(refundedAmount := c.refundedAmount - m.amount),
                        a.milestones[index := m.(refunded := false, refundedAmount := 0)])])
  {
    hide *;
    EscrowOutcomes.RollBackOutcome(s, id, caller, index);
    EscrowOutcomes.ResetIs(s.accounts[id], index);
    AccountAt(s, id);
    FeeNotNegative(s.accounts[id], index);
    UnreleasedIs(s, s.accounts[id].milestones[index], Slot(id, index));
    StoreIs(EscrowOutcomes.Unreleased(s, s.accounts[id].milestones[index], Slot(id, index)), id,
            EscrowOutcomes.Reset(s.accounts[id], index));
  }

  lemma FeeNotNegative(a: Account, index: nat)
    requires AccountOk(a) && index < |a.milestones|
    ensures a.milestones[index].protocolFee >= 0
  {
  }

  lemma UnreleasedIs(s: State, m: Milestone, slot: Slot)
    requires m.protocolFee >= 0
    ensures EscrowOutcomes.Unreleased(s, m, slot)
         == if m.released then
              s.(fees := if m.protocolFee <= s.fees then s.fees - m.protocolFee else s.fees,
                 approvals := s.approvals - {slot})
            else s
  {
  }

  lemma UndoReasons(s: State, id: nat, caller: Address, index: nat)
    requires Ok(s) && Release.RollBack(s, id, caller, index).Failure?
    ensures match Release.RollBack(s, id, caller, index).error {
              case NotInitialized => !s.config.initialized || s.config.admin.None?
              case ContractPaused => s.config.paused
              case EmergencyActive => s.config.emergency
              case UnauthorizedRole => s.config.admin.Some? && s.config.admin.value != caller
              case ContractNotFound => id !in s.accounts
              case AlreadyFinalized => id in s.finalizations
              case IndexOutOfBounds => id in s.accounts && index >= |s.accounts[id].milestones|
              case RollbackNotAllowed =>
                && id in s.accounts
                && var c, ms := s.accounts[id].contract, s.accounts[id].milestones;
                   (c.status != Funded && c.status != PartiallyFunded)
                   || (index < |ms| && !ms[index].released && !ms[index].refunded)
              case _ => false
            }
  {
    hide *;
    EscrowOutcomes.RollBackOutcome(s, id, caller, index);
    if Release.Reversible(s, id, caller, index).Failure? {
      ReversibleReasons(s, id, caller, index);
    }
  }

  lemma ReversibleReasons(s: State, id: nat, caller: Address, index: nat)
    requires Release.Reversible(s, id, caller, index).Failure?
    ensures match Release.Reversible(s, id, caller, index).error {
              case NotInitialized => !s.config.initialized || s.config.admin.None?
              case ContractPaused => s.config.paused
              case EmergencyActive => s.config.emergency
              case UnauthorizedRole => s.config.admin.Some? && s.config.admin.value != caller
              case ContractNotFound => id !in s.accounts
              case AlreadyFinalized => id in s.finalizations
              case IndexOutOfBounds => id in s.accounts && index >= |s.accounts[id].milestones|
              case RollbackNotAllowed =>
                && id in s.accounts
                && var c, ms := s.accounts[id].contract, s.accounts[id].milestones;
                   (c.status != Funded && c.status != PartiallyFunded)
                   || (index < |ms| && !ms[index].released && !ms[index].refunded)
              case _ => false
            }
  {
  }

  // ---- fee withdrawal ----

  predicate Drawable(s: State, amount: int) {
    && s.config.initialized && !s.config.paused && s.config.admin.Some? && s.config.tokenBound
    && 0 < amount <= s.fees && amount <= s.balance
  }

  /** A withdrawal goes through exactly on these conditions; the emergency flag is not among them. */
  lemma WithdrawExactly(s: State, amount: int)
    requires Ok(s)
    ensures var r := Fees.Withdraw(s, amount);
            && (r.Success? <==> Drawable(s, amount))
            && (r.Success? ==> r.value == s.(fees := s.fees - amount, balance := s.balance - amount))
  {
    OkFacts(s);
    hide Ok, AccountsOk, DisputesOk, SnapshotOk;
  }

  lemma WithdrawReasons(s: State, amount: int)
    requires 0 <= s.fees <= I128_MAX && Fees.Withdraw(s, amount).Failure?
    ensures match Fees.Withdraw(s, amount).error {
              case NotInitialized => !s.config.initialized || s.config.admin.None?
              case ContractPaused => s.config.paused
              case AmountMustBePositive => amount <= 0
              case InsufficientAccumulatedFees => amount > s.fees
              case SettlementTokenNotConfigured => !s.config.tokenBound
              case TransferFailed => amount > s.balance
              case _ => false
            }
  {
  }
}
