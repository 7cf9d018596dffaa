/** Every command, successful or not, keeps the invariant; hence every run does.
    Each step has a shape lemma (what it does to the state) and a lemma that this keeps `Ok`. */
module StepsKeepInvariant {
  import opened Results
  import opened Types
  import opened AccountInvariant
  import opened AccountSums
  import opened AccountSteps
  import opened LedgerInvariant
  import opened Protocol
  import opened Authorization
  import Amounts
  import Creation
  import Deposit
  import Dispute
  import FeeRounding
  import Fees
  import Finalize
  import MilestoneApprovals
  import Milestones
  import Participants
  import Ratings
  import Refund
  import Release
  import TempStorage

  // ---- create ----

  function FreshAccount(client: Address, freelancer: Address, arbiter: Option<Address>,
                        amounts: seq<int>, mode: ReleaseAuthorization): Account {
    Account(Creation.FreshContract(client, freelancer, arbiter, mode), Creation.FreshMilestones(amounts))
  }

  lemma AmountsChecked(config: Config, amounts: seq<int>)
    requires Creation.CheckAmounts(config, amounts).Holds?
    ensures Amounts.AllPositive(amounts) && Amounts.Sum(amounts) <= I128_MAX
  {
  }

  lemma CreateShape(s: State, client: Address, freelancer: Address, arbiter: Option<Address>,
                    amounts: seq<int>, mode: ReleaseAuthorization)
    requires Creation.Create(s, client, freelancer, arbiter, amounts, mode).Success?
    ensures s.nextId !in s.accounts && s.nextId < U32_MAX
    ensures Creation.Create(s, client, freelancer, arbiter, amounts, mode).value
         == Store(s, s.nextId, FreshAccount(client, freelancer, arbiter, amounts, mode)).(nextId := s.nextId + 1)
    ensures ParticipantsOk(Creation.FreshContract(client, freelancer, arbiter, mode)) && arbiter != Some(client)
    ensures 0 < |amounts| <= MAX_MILESTONES && Creation.CheckAmounts(s.config, amounts).Holds?
  {
    hide Creation.CheckAmounts, Creation.FreshMilestones, RequireNotPaused;
  }

  lemma FreshAccountOk(client: Address, freelancer: Address, arbiter: Option<Address>,
                       amounts: seq<int>, mode: ReleaseAuthorization)
    requires ParticipantsOk(Creation.FreshContract(client, freelancer, arbiter, mode))
    requires 0 < |amounts| <= MAX_MILESTONES && Amounts.AllPositive(amounts) && Amounts.Sum(amounts) <= I128_MAX
    ensures var a := FreshAccount(client, freelancer, arbiter, amounts, mode);
            AccountOk(a) && a.contract.status == Created && !a.contract.reputationIssued
  {
    FreshSums(amounts);
    Amounts.PrefixSum(amounts, 0);
  }

  lemma AddOk(s: State, id: nat, a: Account)
    requires Ok(s) && 1 <= id < U32_MAX && id !in s.accounts && AccountOk(a)
    requires a.contract.status == Created && !a.contract.reputationIssued
    ensures Ok(Store(s, id, a).(nextId := id + 1))
  {
    hide AccountsOk, AccountOk, CreditsOk, RatingsOk, RecordsOk, SnapshotsOk, MigrationsOk, DisputesOk, PotsOk;
    RecordsAdd(s.finalizations, s.accounts, id, a);
    MigrationsAdd(s.migrations, s.accounts, id, a);
    AccountsStore(s.accounts, id, a);
    AddStanding(s.credits, s.reputations, s.accounts, id, a);
  }

  lemma AddStanding(credits: map<Address, int>, reputations: map<Address, Reputation>,
                    accounts: map<nat, Account>, id: nat, a: Account)
    requires CreditsOk(credits, accounts) && RatingsOk(reputations, accounts)
    requires id !in accounts && a.contract.status == Created && !a.contract.reputationIssued
    ensures CreditsOk(credits, accounts[id := a]) && RatingsOk(reputations, accounts[id := a])
  {
    CreditsStore(credits, accounts, id, a);
    RatingsStore(reputations, accounts, id, a);
  }

  lemma CreateKeeps(s: State, client: Address, freelancer: Address, arbiter: Option<Address>,
                    amounts: seq<int>, mode: ReleaseAuthorization)
    requires Ok(s) && Creation.Create(s, client, freelancer, arbiter, amounts, mode).Success?
    ensures Ok(Creation.Create(s, client, freelancer, arbiter, amounts, mode).value)
  {
    hide *;
    OkFacts(s);
    CreateShape(s, client, freelancer, arbiter, amounts, mode);
    AmountsChecked(s.config, amounts);
    FreshAccountOk(client, freelancer, arbiter, amounts, mode);
    AddOk(s, s.nextId, FreshAccount(client, freelancer, arbiter, amounts, mode));
  }

  // ---- deposit ----

  /** The account a deposit leaves behind. */
  function AfterDeposit(a: Account, amount: int): Account {
    var c := a.contract;
    var funded := c.fundedAmount + amount;
    a.(contract := c.(fundedAmount := funded,
                      totalDeposited := c.totalDeposited + amount,
                      status := if funded == Milestones.Sum(Milestones.Amount, a.milestones)
                                then Funded else PartiallyFunded))
  }

  lemma DepositShape(s: State, id: nat, caller: Address, amount: int, payerFunds: int)
    requires Deposit.Deposit(s, id, caller, amount, payerFunds).Success?
    requires id in s.accounts ==> AccountOk(s.accounts[id])
    ensures id in s.accounts && id !in s.finalizations && amount > 0
    ensures s.accounts[id].contract.status == Created || s.accounts[id].contract.status == PartiallyFunded
    ensures s.accounts[id].contract.fundedAmount + amount
         <= Milestones.Sum(Milestones.Amount, s.accounts[id].milestones)
    ensures s.balance + amount <= I128_MAX
    ensures Deposit.Deposit(s, id, caller, amount, payerFunds).value
         == Store(s.(balance := s.balance + amount), id, AfterDeposit(s.accounts[id], amount))
  {
    Milestones.AccumulatedExact(s.accounts[id].milestones);
  }

  lemma AfterDepositOk(a: Account, amount: int)
    requires AccountOk(a) && amount > 0
    requires a.contract.status == Created || a.contract.status == PartiallyFunded
    requires a.contract.fundedAmount + amount <= Milestones.Sum(Milestones.Amount, a.milestones)
    ensures var b := AfterDeposit(a, amount);
            && AccountOk(b) && SameStanding(a, b)
            && Value(Claim, b) == Value(Claim, a) + amount
            && Value(Reserve, b) == Value(Reserve, a) + amount
  {
    NoneSettledSums(a.milestones);
    Milestones.SumBounds(a.milestones);
  }

  lemma BalanceOk(s: State, balance: int)
    requires Ok(s) && 0 <= balance <= I128_MAX
    ensures Ok(s.(balance := balance))
  {
    OkFacts(s);
    hide Ok;
    PotsChange(s, s.(balance := balance));
  }

  /** Move the balance and store an account of the same standing. */
  lemma PayAndStoreOk(s: State, id: nat, balance: int, a: Account)
    requires Ok(s) && id in s.accounts && id !in s.finalizations
    requires AccountOk(a) && SameStanding(s.accounts[id], a) && 0 <= balance <= I128_MAX
    ensures Ok(Store(s.(balance := balance), id, a))
  {
    BalanceOk(s, balance);
    hide *;
    StoreOk(s.(balance := balance), id, a);
  }

  lemma DepositKeepsOk(s: State, id: nat, caller: Address, amount: int, payerFunds: int)
    requires Ok(s) && Deposit.Deposit(s, id, caller, amount, payerFunds).Success?
    ensures Ok(Deposit.Deposit(s, id, caller, amount, payerFunds).value)
  {
    hide *;
    if id in s.accounts {
      AccountAt(s, id);
    }
    OkFacts(s);
    DepositShape(s, id, caller, amount, payerFunds);
    AfterDepositOk(s.accounts[id], amount);
    PayAndStoreOk(s, id, s.balance + amount, AfterDeposit(s.accounts[id], amount));
  }

  // ---- release ----

  /** The fee a release of this milestone is charged. */
  function ReleaseFee(s: State, id: nat, index: nat): int
    requires id in s.accounts && index < |s.accounts[id].milestones|
  {
    var fee := Fees.ReleaseFee(s.config, s.accounts[id].milestones[index].amount);
    if fee.Success? then fee.value else 0
  }

  /** The pots and approvals after a release, before the account is written. */
  function PaidRelease(s: State, id: nat, index: nat): State
    requires id in s.accounts && index < |s.accounts[id].milestones|
  {
    var fee := ReleaseFee(s, id, index);
    var net := s.accounts[id].milestones[index].amount - fee;
    s.(balance := s.balance - net, fees := s.fees + fee, approvals := s.approvals - {Slot(id, index)})
  }

  /** The account a release leaves behind. */
  function AfterRelease(a: Account, index: nat, fee: int): Account
    requires index < |a.milestones|
  {
    var b := Released(a, index, fee);
    if Milestones.AllSettled(b.milestones) then b.(contract := b.contract.(status := Completed)) else b
  }

  lemma ReleaseShape(s: State, id: nat, caller: Address, index: nat)
    requires Release.Release(s, id, caller, index).Success?
    ensures id in s.accounts && id !in s.finalizations && s.accounts[id].contract.status == Funded
    ensures index < |s.accounts[id].milestones| && !Milestones.Settled(s.accounts[id].milestones[index])
    ensures var a := s.accounts[id];
            var gross, fee := a.milestones[index].amount, ReleaseFee(s, id, index);
            && Fees.ReleaseFee(s.config, gross) == Success(fee)
            && gross <= Value(Claim, a) - s.fees
            && gross - fee <= s.balance
            && Release.Release(s, id, caller, index)
               == Release.Complete(PaidRelease(s, id, index), id, Released(a, index, fee))
  {
    var a := s.accounts[id];
    var m := a.milestones[index];
    var fee := Release.Funding(s, a.contract, m.amount).value;
    assert Fees.ReleaseFee(s.config, m.amount) == Success(fee);
  }

  /** In a reachable state the release fee lies between 0 and the amount. */
  lemma ReleaseFeeOk(s: State, amount: int)
    requires s.config.feeBps <= BPS_DENOMINATOR && amount >= 0 && Fees.ReleaseFee(s.config, amount).Success?
    ensures 0 <= Fees.ReleaseFee(s.config, amount).value <= amount
    ensures amount > 0 && s.config.feeBps < BPS_DENOMINATOR ==> Fees.ReleaseFee(s.config, amount).value < amount
  {
    FeeRounding.ProtocolFeeExact(amount, s.config.feeBps);
    FeeRounding.FeeBounds(amount, s.config.feeBps);
  }

  /** Storing a finished account: with a credit when the step completed it, without otherwise. */
  function Finished(s: State, id: nat, a: Account): Result<State, Error> {
    if a.contract.status == Completed then
      var credited :- GrantCredit(s, a.contract.freelancer);
      Success(Store(credited, id, a))
    else
      Success(Store(s, id, a))
  }

  lemma FinishedShape(s: State, id: nat, b: Account)
    requires b.contract.status == Completed ==> GrantCredit(s, b.contract.freelancer).Success?
    ensures Finished(s, id, b).Success?
    ensures Finished(s, id, b).value
         == Store(if b.contract.status == Completed then GrantCredit(s, b.contract.freelancer).value else s, id, b)
    ensures Finished(s, id, b).value == Store(s.(credits := Finished(s, id, b).value.credits), id, b)
  {
  }

  lemma Standing(a: Account, b: Account)
    requires SameParties(a, b) && a.contract.status != Completed && !a.contract.reputationIssued
    ensures if b.contract.status == Completed then Completes(a, b) else SameStanding(a, b)
  {
  }

  lemma FinishedOk(s: State, id: nat, b: Account)
    requires Ok(s) && id in s.accounts && id !in s.finalizations && AccountOk(b)
    requires s.accounts[id].contract.status != Completed && SameParties(s.accounts[id], b)
    ensures Finished(s, id, b).Success?
    ensures Ok(Finished(s, id, b).value)
    ensures Finished(s, id, b).value == Store(s.(credits := Finished(s, id, b).value.credits), id, b)
  {
    hide *;
    AccountAt(s, id);
    Standing(s.accounts[id], b);
    if b.contract.status == Completed {
      CompleteOk(s, id, b);
    } else {
      StoreOk(s, id, b);
    }
    FinishedShape(s, id, b);
  }

  predicate SameParties(a: Account, b: Account) {
    && a.contract.client == b.contract.client
    && a.contract.freelancer == b.contract.freelancer
    && a.contract.reputationIssued == b.contract.reputationIssued
  }

  lemma ReleaseFinish(s: State, id: nat, a: Account, index: nat, fee: int)
    requires index < |a.milestones| && a.contract.status == Funded
    ensures Release.Complete(s, id, Released(a, index, fee)) == Finished(s, id, AfterRelease(a, index, fee))
    ensures SameParties(a, AfterRelease(a, index, fee))
  {
    hide Milestones.AllSettled;
  }

  lemma AfterReleaseOk(a: Account, index: nat, fee: int)
    requires AccountOk(a) && a.contract.status == Funded
    requires index < |a.milestones| && !Milestones.Settled(a.milestones[index])
    requires 0 <= fee <= a.milestones[index].amount
    ensures AccountOk(AfterRelease(a, index, fee))
  {
    ReleaseKeeps(a, index, fee);
  }

  lemma PaidReleaseOk(s: State, id: nat, index: nat)
    requires Ok(s) && id in s.accounts && index < |s.accounts[id].milestones|
    requires 0 <= ReleaseFee(s, id, index) <= s.accounts[id].milestones[index].amount
    requires s.accounts[id].milestones[index].amount <= Value(Claim, s.accounts[id]) - s.fees
    requires s.accounts[id].milestones[index].amount - ReleaseFee(s, id, index) <= s.balance
    ensures Ok(PaidRelease(s, id, index))
  {
    OkFacts(s);
    AccountAt(s, id);
    BooksBounded(s.accounts[id]);
    hide Ok, AccountOk, AccountsOk, DisputesOk;
    PotsChange(s, PaidRelease(s, id, index));
  }

  lemma AmountPositive(a: Account, index: nat)
    requires AccountOk(a) && index < |a.milestones|
    ensures a.milestones[index].amount > 0
  {
  }

  lemma PaidReleaseSame(s: State, id: nat, index: nat)
    requires id in s.accounts && index < |s.accounts[id].milestones|
    ensures PaidRelease(s, id, index).accounts == s.accounts
    ensures PaidRelease(s, id, index).finalizations == s.finalizations
  {
  }

  /** What a successful release does, spelled out. */
  lemma ReleaseEffect(s: State, id: nat, caller: Address, index: nat)
    requires Ok(s) && Release.Release(s, id, caller, index).Success?
    ensures id in s.accounts && id !in s.finalizations && s.accounts[id].contract.status == Funded
    ensures index < |s.accounts[id].milestones| && !Milestones.Settled(s.accounts[id].milestones[index])
    ensures 0 <= ReleaseFee(s, id, index) <= s.accounts[id].milestones[index].amount
    ensures var t := Release.Release(s, id, caller, index).value;
            t == Store(PaidRelease(s, id, index).(credits := t.credits), id,
                       AfterRelease(s.accounts[id], index, ReleaseFee(s, id, index)))
    ensures Ok(Release.Release(s, id, caller, index).value)
  {
    hide *;
    OkFacts(s);
    ReleaseShape(s, id, caller, index);
    AccountAt(s, id);
    AmountPositive(s.accounts[id], index);
    ReleaseFeeOk(s, s.accounts[id].milestones[index].amount);
    AfterReleaseOk(s.accounts[id], index, ReleaseFee(s, id, index));
    PaidReleaseOk(s, id, index);
    PaidReleaseSame(s, id, index);
    var fee := ReleaseFee(s, id, index);
    ReleaseFinish(PaidRelease(s, id, index), id, s.accounts[id], index, fee);
    FinishedOk(PaidRelease(s, id, index), id, AfterRelease(s.accounts[id], index, fee));
  }

  // ---- milestone rollback ----

  /** The account a milestone rollback leaves behind. */
  function AfterRollBack(a: Account, index: nat): Account
    requires index < |a.milestones|
  {
    var m, c := a.milestones[index], a.contract;
    if m.released then
      Account(c.(releasedAmount := c.releasedAmount - (m.amount - m.protocolFee)),
              a.milestones[index := m.(released := false, fundedAmount := 0, protocolFee := 0)])
    else
      Account(c.(refundedAmount := c.refundedAmount - m.amount),
              a.milestones[index := m.(refunded := false, refundedAmount := 0)])
  }

  /** The pots and approvals after a milestone rollback. */
  function UnpaidRelease(s: State, id: nat, index: nat): State
    requires id in s.accounts && index < |s.accounts[id].milestones|
  {
    var m := s.accounts[id].milestones[index];
    if m.released
    then s.(fees := Release.ReversedPot(s.fees, m.protocolFee), approvals := s.approvals - {Slot(id, index)})
    else s
  }

  lemma AfterRollBackOk(a: Account, index: nat)
    requires AccountOk(a) && a.contract.status == Funded
    requires index < |a.milestones| && Milestones.Settled(a.milestones[index])
    ensures AccountOk(AfterRollBack(a, index)) && SameStanding(a, AfterRollBack(a, index))
    ensures var m, c := a.milestones[index], a.contract;
            && I128_MIN <= m.amount - m.protocolFee <= I128_MAX
            && I128_MIN <= c.releasedAmount - (m.amount - m.protocolFee) <= I128_MAX
            && (m.refunded ==> I128_MIN <= c.refundedAmount - m.amount <= I128_MAX)
    ensures Value(Reserve, AfterRollBack(a, index)) == Value(Reserve, a) + a.milestones[index].amount
  {
    LiveBooks(a);
    Milestones.SumBounds(a.milestones);
    if a.milestones[index].released {
      Milestones.ReleasedCovered(a.milestones, index);
      RollBackReleaseKeeps(a, index);
    } else {
      Milestones.RefundedCovered(a.milestones, index);
      RollBackRefundKeeps(a, index);
      UnsettledSmall(a.milestones, index);
    }
  }

  lemma UnsettledSmall(ms: seq<Milestone>, index: nat)
    requires Milestones.AllWellFormed(ms) && index < |ms|
    requires Milestones.Sum(Milestones.Amount, ms) <= I128_MAX
    ensures 0 < ms[index].amount <= I128_MAX
  {
    var gone := ms[index].(released := false, refunded := false, protocolFee := 0, fundedAmount := 0,
                           refundedAmount := 0, amount := 1);
    Milestones.SumsUpdate(ms, index, gone);
    Milestones.SumBounds(ms[index := gone]);
  }

  lemma RollBackShape(s: State, id: nat, admin: Address, index: nat)
    requires Release.RollBack(s, id, admin, index).Success?
    ensures id in s.accounts && id !in s.finalizations && index < |s.accounts[id].milestones|
    ensures s.accounts[id].contract.status == Funded || s.accounts[id].contract.status == PartiallyFunded
    ensures var m := s.accounts[id].milestones[index];
            && Milestones.Settled(m)
            && (!(m.released && m.refunded) ==>
                  Release.RollBack(s, id, admin, index).value
                  == Store(UnpaidRelease(s, id, index), id, AfterRollBack(s.accounts[id], index)))
  {
  }

  /** Only a fully funded contract has settled milestones to roll back. */
  lemma SettledMeansFunded(a: Account, index: nat)
    requires AccountOk(a) && index < |a.milestones| && Milestones.Settled(a.milestones[index])
    requires a.contract.status == Funded || a.contract.status == PartiallyFunded
    ensures a.contract.status == Funded
    ensures !(a.milestones[index].released && a.milestones[index].refunded)
  {
  }

  lemma PotsInRange(fees: int, balance: int, feeBps: nat)
    requires 0 <= fees <= I128_MAX && 0 <= balance <= I128_MAX && feeBps <= BPS_DENOMINATOR
    ensures PotsOk(fees, balance, feeBps)
  {
  }

  lemma UnpaidReleaseOk(s: State, id: nat, index: nat)
    requires Ok(s) && id in s.accounts && index < |s.accounts[id].milestones|
    ensures Ok(UnpaidRelease(s, id, index))
    ensures UnpaidRelease(s, id, index).accounts == s.accounts
    ensures UnpaidRelease(s, id, index).finalizations == s.finalizations
  {
    hide *;
    OkFacts(s);
    UnpaidReleaseShape(s, id, index);
    var t := UnpaidRelease(s, id, index);
    PotsInRange(t.fees, t.balance, t.config.feeBps);
    PotsChange(s, t);
  }

  lemma UnpaidReleaseShape(s: State, id: nat, index: nat)
    requires id in s.accounts && index < |s.accounts[id].milestones|
    ensures var t := UnpaidRelease(s, id, index);
            && t == s.(fees := t.fees, approvals := t.approvals)
            && (0 <= s.fees ==> 0 <= t.fees <= s.fees)
  {
  }

  /** What a successful milestone rollback does, spelled out. */
  lemma RollBackEffect(s: State, id: nat, admin: Address, index: nat)
    requires Ok(s) && Release.RollBack(s, id, admin, index).Success?
    ensures id in s.accounts && id !in s.finalizations && s.accounts[id].contract.status == Funded
    ensures index < |s.accounts[id].milestones| && Milestones.Settled(s.accounts[id].milestones[index])
    ensures Release.RollBack(s, id, admin, index).value
         == Store(UnpaidRelease(s, id, index), id, AfterRollBack(s.accounts[id], index))
    ensures Ok(Release.RollBack(s, id, admin, index).value)
  {
    hide *;
    RollBackShape(s, id, admin, index);
    AccountAt(s, id);
    SettledMeansFunded(s.accounts[id], index);
    AfterRollBackOk(s.accounts[id], index);
    UnpaidReleaseOk(s, id, index);
    StoreOk(UnpaidRelease(s, id, index), id, AfterRollBack(s.accounts[id], index));
  }

  // ---- refund ----

  /** The account a refund leaves behind. */
  function AfterRefund(a: Account, indices: seq<nat>, total: int): Account {
    var b := RefundedAccount(a, indices, total);
    if !Milestones.AllSettled(b.milestones) then b
    else if Milestones.AllRefunded(b.milestones) then b.(contract := b.contract.(status := Types.Refunded))
    else b.(contract := b.contract.(status := Completed))
  }

  /** A refund that passes its checks has a positive total within the available balance;
      from `Created` it never passes them. */
  lemma RefundShape(s: State, id: nat, indices: seq<nat>)
    requires AccountsOk(s.accounts) && Refund.RefundTotal(s, id, indices).Success?
    ensures id in s.accounts && id !in s.finalizations && indices != [] && Refund.Distinct(indices)
    ensures s.accounts[id].contract.status == Funded || s.accounts[id].contract.status == Disputed
    ensures var a, total := s.accounts[id], Refund.RefundTotal(s, id, indices).value;
            && Refund.Requested(a.milestones, indices, s.clock.timestamp) == Success(total)
            && 0 < total <= Value(Claim, a)
  {
    var a := s.accounts[id];
    RequestPositive(a.milestones, indices, s.clock.timestamp);
    if a.contract.status == Created {
      NoneSettledSums(a.milestones);
    }
  }

  lemma AfterRefundOk(a: Account, indices: seq<nat>, now: nat, total: int)
    requires AccountOk(a) && (a.contract.status == Funded || a.contract.status == Disputed)
    requires indices != [] && Refund.Distinct(indices)
    requires Refund.Requested(a.milestones, indices, now) == Success(total) && 0 < total <= Value(Claim, a)
    ensures var b := AfterRefund(a, indices, total);
            && AccountOk(b)
            && total <= Value(Reserve, a)
            && Value(Claim, b) == Value(Claim, a) - total
            && Value(Reserve, b) == Value(Reserve, a) - total
  {
    RefundKeeps(a, indices, now);
  }

  lemma RefundFinish(s: State, id: nat, a: Account, indices: seq<nat>, total: int)
    requires a.contract.status == Funded || a.contract.status == Disputed
    ensures Refund.Complete(s, id, RefundedAccount(a, indices, total))
         == Finished(s, id, AfterRefund(a, indices, total))
    ensures SameParties(a, AfterRefund(a, indices, total))
  {
    hide Milestones.AllSettled, Milestones.AllRefunded;
  }

  lemma RefundPaid(s: State, id: nat, indices: seq<nat>)
    requires Refund.Refund(s, id, indices).Success?
    ensures Refund.RefundTotal(s, id, indices).Success? && id in s.accounts
    ensures var total := Refund.RefundTotal(s, id, indices).value;
            && 0 <= total <= s.balance
            && Refund.Refund(s, id, indices)
               == Refund.Complete(s.(balance := s.balance - total), id, RefundedAccount(s.accounts[id], indices, total))
  {
  }

  /** What a successful refund does, spelled out. */
  lemma RefundEffect(s: State, id: nat, indices: seq<nat>)
    requires Ok(s) && Refund.Refund(s, id, indices).Success?
    ensures Refund.RefundTotal(s, id, indices).Success? && id in s.accounts && id !in s.finalizations
    ensures var t, total := Refund.Refund(s, id, indices).value, Refund.RefundTotal(s, id, indices).value;
            var a, b := s.accounts[id], AfterRefund(s.accounts[id], indices, total);
            && t == Store(s.(balance := s.balance - total, credits := t.credits), id, b)
            && 0 < total <= Value(Reserve, a)
            && Value(Claim, b) == Value(Claim, a) - total
            && Value(Reserve, b) == Value(Reserve, a) - total
    ensures Ok(Refund.Refund(s, id, indices).value)
  {
    hide *;
    OkFacts(s);
    RefundPaid(s, id, indices);
    RefundShape(s, id, indices);
    AccountAt(s, id);
    var total := Refund.RefundTotal(s, id, indices).value;
    AfterRefundOk(s.accounts[id], indices, s.clock.timestamp, total);
    BalanceOk(s, s.balance - total);
    RefundFinish(s.(balance := s.balance - total), id, s.accounts[id], indices, total);
    FinishedOk(s.(balance := s.balance - total), id, AfterRefund(s.accounts[id], indices, total));
  }

  // ---- cancel ----

  /** The account a cancellation leaves behind. */
  function AfterCancel(a: Account): Account {
    var amount := Value(Claim, a);
    a.(contract := a.contract.(refundedAmount := a.contract.refundedAmount + amount, status := Cancelled))
  }

  lemma CancelShape(s: State, id: nat, client: Address)
    requires Refund.Cancel(s, id, client).Success?
    ensures id in s.accounts && id !in s.finalizations && s.accounts[id].contract.releasedAmount == 0
    ensures s.accounts[id].contract.status == Created || s.accounts[id].contract.status == Funded
    ensures var a := s.accounts[id];
            var paid := if Value(Claim, a) > 0 then Value(Claim, a) else 0;
            && (paid <= s.balance || paid == 0)
            && Refund.Cancel(s, id, client).value == Store(s.(balance := s.balance - paid), id, AfterCancel(a))
  {
  }

  lemma AfterCancelOk(a: Account)
    requires AccountOk(a) && (a.contract.status == Created || a.contract.status == Funded)
    requires a.contract.releasedAmount == 0
    ensures AccountOk(AfterCancel(a)) && SameStanding(a, AfterCancel(a)) && Value(Claim, a) >= 0
  {
    BooksBounded(a);
  }

  lemma CancelEffect(s: State, id: nat, client: Address)
    requires Ok(s) && Refund.Cancel(s, id, client).Success?
    ensures id in s.accounts && s.accounts[id].contract.releasedAmount == 0
    ensures s.accounts[id].contract.status == Created || s.accounts[id].contract.status == Funded
    ensures 0 <= Value(Claim, s.accounts[id]) <= s.balance
    ensures Refund.Cancel(s, id, client).value
         == Store(s.(balance := s.balance - Value(Claim, s.accounts[id])), id, AfterCancel(s.accounts[id]))
    ensures Ok(Refund.Cancel(s, id, client).value)
  {
    hide *;
    OkFacts(s);
    CancelShape(s, id, client);
    AccountAt(s, id);
    AfterCancelOk(s.accounts[id]);
    PayAndStoreOk(s, id, s.balance - Value(Claim, s.accounts[id]), AfterCancel(s.accounts[id]));
  }

  // ---- disputes ----

  function AfterRaise(a: Account): Account {
    a.(contract := a.contract.(status := Disputed))
  }

  lemma RaiseShape(s: State, id: nat, caller: Address)
    requires Dispute.Raise(s, id, caller).Success?
    ensures id in s.accounts && id !in s.finalizations
    ensures s.accounts[id].contract.status == Funded || s.accounts[id].contract.status == PartiallyFunded
    ensures Dispute.Raise(s, id, caller).value
         == Dispute.StoreMetadata(Store(s, id, AfterRaise(s.accounts[id]))
                                  .(rollbacks := s.rollbacks[id := s.accounts[id]]), id,
                                  LayoutV1(DISPUTE_STORAGE_VERSION, caller, 0, s.clock.timestamp))
  {
  }

  lemma AfterRaiseOk(a: Account)
    requires AccountOk(a) && (a.contract.status == Funded || a.contract.status == PartiallyFunded)
    ensures AccountOk(AfterRaise(a)) && SameStanding(a, AfterRaise(a)) && SnapshotOk(a)
  {
    LiveBooks(a);
    Milestones.SumBounds(a.milestones);
  }

  lemma SnapshotStore(s: State, id: nat, a: Account)
    requires Ok(s) && SnapshotOk(a)
    ensures Ok(s.(rollbacks := s.rollbacks[id := a]))
  {
    hide AccountsOk, AccountOk, CreditsOk, RatingsOk, RecordsOk, SnapshotsOk, MigrationsOk, DisputesOk, PotsOk;
    SnapshotsAdd(s.rollbacks, id, a);
  }

  lemma SnapshotsAdd(rollbacks: map<nat, Account>, id: nat, a: Account)
    requires SnapshotsOk(rollbacks) && SnapshotOk(a)
    ensures SnapshotsOk(rollbacks[id := a])
  {
  }

  lemma SnapshotsRemove(rollbacks: map<nat, Account>, id: nat)
    requires SnapshotsOk(rollbacks)
    ensures SnapshotsOk(rollbacks - {id})
  {
  }

  lemma SnapshotDrop(s: State, id: nat)
    requires Ok(s)
    ensures Ok(s.(rollbacks := s.rollbacks - {id}))
  {
    hide AccountsOk, AccountOk, CreditsOk, RatingsOk, RecordsOk, SnapshotsOk, MigrationsOk, DisputesOk, PotsOk;
    SnapshotsRemove(s.rollbacks, id);
  }

  lemma StoreMetadataKeeps(s: State, id: nat, meta: StoredDispute)
    requires Ok(s)
    ensures Ok(Dispute.StoreMetadata(s, id, meta))
  {
    OkFacts(s);
    hide Ok, AccountsOk, AccountOk;
    PotsChange(s, Dispute.StoreMetadata(s, id, meta));
  }

  lemma RemoveMetadataKeeps(s: State, id: nat)
    requires Ok(s)
    ensures Ok(Dispute.RemoveMetadata(s, id))
  {
    OkFacts(s);
    hide Ok, AccountsOk, AccountOk;
    PotsChange(s, Dispute.RemoveMetadata(s, id));
  }

  lemma RaiseKeeps(s: State, id: nat, caller: Address)
    requires Ok(s) && Dispute.Raise(s, id, caller).Success?
    ensures Ok(Dispute.Raise(s, id, caller).value)
  {
    hide *;
    RaiseShape(s, id, caller);
    FinishRaise(s, id, LayoutV1(DISPUTE_STORAGE_VERSION, caller, 0, s.clock.timestamp));
  }

  lemma FinishRaise(s: State, id: nat, meta: StoredDispute)
    requires Ok(s) && id in s.accounts && id !in s.finalizations
    requires s.accounts[id].contract.status == Funded || s.accounts[id].contract.status == PartiallyFunded
    ensures Ok(Dispute.StoreMetadata(Store(s, id, AfterRaise(s.accounts[id]))
                                     .(rollbacks := s.rollbacks[id := s.accounts[id]]), id, meta))
  {
    var a := s.accounts[id];
    AccountAt(s, id);
    AfterRaiseOk(a);
    hide Ok, AccountOk, SnapshotOk, SameStanding;
    StoreOk(s, id, AfterRaise(a));
    SnapshotStore(Store(s, id, AfterRaise(a)), id, a);
    StoreMetadataKeeps(Store(s, id, AfterRaise(a)).(rollbacks := s.rollbacks[id := a]), id, meta);
  }

  /** Loading never fails for a disputed contract, and changes dispute records only. */
  lemma LoadMetadataKeeps(s: State, id: nat)
    requires Ok(s)
    ensures id in s.accounts && s.accounts[id].contract.status == Disputed ==> Dispute.LoadMetadata(s, id).Success?
    ensures Dispute.LoadMetadata(s, id).Success? ==>
              var t := Dispute.LoadMetadata(s, id).value.0;
              Ok(t) && t == s.(disputes := t.disputes, disputeVersions := t.disputeVersions)
  {
    OkFacts(s);
    hide Ok, AccountsOk;
    if Dispute.LoadMetadata(s, id).Success? && Dispute.VersionOf(s, id) == 0 {
      if id in s.disputes {
        StoreMetadataKeeps(s, id, Dispute.MigrateV0(s.disputes[id]));
      } else {
        StoreMetadataKeeps(s, id, LayoutV1(DISPUTE_STORAGE_VERSION, s.accounts[id].contract.client, 0, 0));
      }
    }
  }

  lemma ResolveShape(s: State, id: nat, arbiter: Address, resolution: Resolution)
    requires Dispute.Resolve(s, id, arbiter, resolution).Success?
    ensures id in s.accounts && id !in s.finalizations && s.accounts[id].contract.status == Disputed
    ensures Dispute.LoadMetadata(s, id).Success?
    ensures Dispute.Payouts(s.accounts[id].contract, resolution).Success?
    ensures var a := s.accounts[id];
            var legs, s1 := Dispute.Payouts(a.contract, resolution).value, Dispute.LoadMetadata(s, id).value.0;
            var b := Resolved(a, legs.0, legs.1);
            && (b.contract.status == Completed ==> GrantCredit(s1, a.contract.freelancer).Success?)
            && Dispute.Resolve(s, id, arbiter, resolution).value
               == Dispute.RemoveMetadata(
                    Store(if b.contract.status == Completed then GrantCredit(s1, a.contract.freelancer).value else s1,
                          id, b), id)
  {
  }

  /** What a successful resolution does to the account; no token moves. */
  lemma ResolveEffect(s: State, id: nat, arbiter: Address, resolution: Resolution)
    requires Ok(s) && Dispute.Resolve(s, id, arbiter, resolution).Success?
    ensures id in s.accounts && id !in s.finalizations && s.accounts[id].contract.status == Disputed
    ensures Dispute.Payouts(s.accounts[id].contract, resolution).Success?
    ensures var a, t := s.accounts[id], Dispute.Resolve(s, id, arbiter, resolution).value;
            var legs := Dispute.Payouts(a.contract, resolution).value;
            && legs.0 >= 0 && legs.1 >= 0 && legs.0 + legs.1 == Value(Claim, a)
            && t == Store(s, id, Resolved(a, legs.0, legs.1))
                    .(credits := t.credits, disputes := t.disputes, disputeVersions := t.disputeVersions)
    ensures Ok(Dispute.Resolve(s, id, arbiter, resolution).value)
  {
    hide *;
    ResolveShape(s, id, arbiter, resolution);
    AccountAt(s, id);
    var a := s.accounts[id];
    var legs, s1 := Dispute.Payouts(a.contract, resolution).value, Dispute.LoadMetadata(s, id).value.0;
    BooksBounded(a);
    PayoutsConserve(a.contract, resolution);
    ClaimIs(a);
    ResolveKeeps(a, legs.0, legs.1);
    ResolvedParties(a, legs.0, legs.1);
    LoadMetadataKeeps(s, id);
    FinishResolve(s1, id, Resolved(a, legs.0, legs.1));
    ResolvedState(s, s1, id, Resolved(a, legs.0, legs.1));
  }

  lemma ClaimIs(a: Account)
    ensures Value(Claim, a) == a.contract.fundedAmount - a.contract.releasedAmount - a.contract.refundedAmount
  {
  }

  lemma ResolvedParties(a: Account, client: int, freelancer: int)
    ensures var b := Resolved(a, client, freelancer);
            && b.contract.client == a.contract.client
            && b.contract.freelancer == a.contract.freelancer
            && b.contract.reputationIssued == a.contract.reputationIssued
  {
  }

  lemma ResolvedState(s: State, s1: State, id: nat, b: Account)
    requires s1 == s.(disputes := s1.disputes, disputeVersions := s1.disputeVersions)
    requires b.contract.status == Completed ==> GrantCredit(s1, b.contract.freelancer).Success?
    ensures var t := Dispute.RemoveMetadata(
                       Store(if b.contract.status == Completed then GrantCredit(s1, b.contract.freelancer).value else s1,
                             id, b), id);
            t == Store(s, id, b).(credits := t.credits, disputes := t.disputes, disputeVersions := t.disputeVersions)
  {
  }

  lemma FinishResolve(s: State, id: nat, b: Account)
    requires Ok(s) && id in s.accounts && id !in s.finalizations && AccountOk(b)
    requires s.accounts[id].contract.status == Disputed
    requires b.contract.client == s.accounts[id].contract.client
    requires b.contract.freelancer == s.accounts[id].contract.freelancer
    requires b.contract.reputationIssued == s.accounts[id].contract.reputationIssued
    ensures b.contract.status == Completed ==> GrantCredit(s, b.contract.freelancer).Success?
    ensures Ok(Dispute.RemoveMetadata(
                 Store(if b.contract.status == Completed then GrantCredit(s, b.contract.freelancer).value else s,
                       id, b), id))
  {
    AccountAt(s, id);
    hide Ok, AccountOk;
    if b.contract.status == Completed {
      CompleteOk(s, id, b);
      RemoveMetadataKeeps(Store(GrantCredit(s, b.contract.freelancer).value, id, b), id);
    } else {
      StoreOk(s, id, b);
      RemoveMetadataKeeps(Store(s, id, b), id);
    }
  }

  /** A successful dispute rollback reinstates exactly the snapshot. */
  lemma RollBackDisputeShape(s: State, id: nat)
    requires Dispute.RollBack(s, id).Success?
    ensures id in s.accounts && id !in s.finalizations && id in s.rollbacks
    ensures s.accounts[id].contract.status == Disputed && s.accounts[id] == AfterRaise(s.rollbacks[id])
    ensures Dispute.RollBack(s, id).value == Store(s, id, s.rollbacks[id]).(rollbacks := s.rollbacks - {id})
  {
  }

  lemma SnapshotStanding(record: Account, a: Account)
    requires SnapshotOk(record) && a == AfterRaise(record)
    ensures AccountOk(record) && SameStanding(a, record)
  {
  }

  lemma RollBackDisputeKeeps(s: State, id: nat)
    requires Ok(s) && Dispute.RollBack(s, id).Success?
    ensures Ok(Dispute.RollBack(s, id).value)
  {
    RollBackDisputeShape(s, id);
    OkFacts(s);
    AccountAt(s, id);
    var record := s.rollbacks[id];
    SnapshotStanding(record, s.accounts[id]);
    hide *;
    StoreOk(s, id, record);
    SnapshotDrop(Store(s, id, record), id);
  }

  // ---- finalization ----

  lemma FinalizeShape(s: State, id: nat, finalizer: Address)
    requires Finalize.Finalize(s, id, finalizer).Success?
    ensures id in s.accounts && id !in s.finalizations && Finalize.Closable(s.accounts[id].contract.status)
    ensures Finalize.Summarize(s.accounts[id]).Success?
    ensures var record := Finalization(finalizer, s.clock.timestamp, Finalize.Summarize(s.accounts[id]).value);
            var closed := s.(finalizations := s.finalizations[id := record]);
            Finalize.Finalize(s, id, finalizer).value
            == if s.accounts[id].contract.status == Disputed
               then closed.(rollbacks := s.rollbacks - {id}) else closed
  {
  }

  lemma RecordsWrite(records: map<nat, Finalization>, accounts: map<nat, Account>, id: nat, record: Finalization)
    requires RecordsOk(records, accounts) && id in accounts && Frozen(accounts[id], record)
    ensures RecordsOk(records[id := record], accounts)
  {
  }

  lemma RecordStore(s: State, id: nat, record: Finalization)
    requires Ok(s) && id in s.accounts && Frozen(s.accounts[id], record)
    ensures Ok(s.(finalizations := s.finalizations[id := record]))
  {
    hide AccountsOk, AccountOk, CreditsOk, RatingsOk, RecordsOk, SnapshotsOk, MigrationsOk, DisputesOk, PotsOk, Frozen;
    RecordsWrite(s.finalizations, s.accounts, id, record);
  }

  lemma FinalizeKeeps(s: State, id: nat, finalizer: Address)
    requires Ok(s) && Finalize.Finalize(s, id, finalizer).Success?
    ensures Ok(Finalize.Finalize(s, id, finalizer).value)
  {
    hide *;
    FinalizeShape(s, id, finalizer);
    AccountAt(s, id);
    FreshRecordFrozen(s.accounts[id], finalizer, s.clock.timestamp);
    var record := Finalization(finalizer, s.clock.timestamp, Finalize.Summarize(s.accounts[id]).value);
    RecordStore(s, id, record);
    SnapshotDrop(s.(finalizations := s.finalizations[id := record]), id);
  }

  lemma {:induction false} ItemsKeep(s: State, items: seq<SettlementItem>)
    requires Ok(s) && Finalize.Items(s, items).Success?
    ensures Ok(Finalize.Items(s, items).value.0)
  {
    if items != [] {
      var n := |items| - 1;
      ItemsKeep(s, items[..n]);
      var before := Finalize.Items(s, items[..n]).value.0;
      if Finalize.PreCheck(before, items[n]).Holds? {
        FinalizeKeeps(before, items[n].contractId, items[n].finalizer);
      }
    }
  }

  lemma BatchKeeps(s: State, items: seq<SettlementItem>)
    requires Ok(s) && Finalize.Batch(s, items).Success?
    ensures Ok(Finalize.Batch(s, items).value.0)
  {
    ItemsKeep(s, items);
  }

  lemma RecordsRemove(records: map<nat, Finalization>, accounts: map<nat, Account>, id: nat)
    requires RecordsOk(records, accounts)
    ensures RecordsOk(records - {id}, accounts)
  {
  }

  lemma ReopenKeeps(s: State, id: nat, admin: Address)
    requires Ok(s) && Finalize.Reopen(s, id, admin).Success?
    ensures Finalize.Reopen(s, id, admin).value == s.(finalizations := s.finalizations - {id})
    ensures Ok(Finalize.Reopen(s, id, admin).value)
  {
    hide AccountsOk, AccountOk, CreditsOk, RatingsOk, RecordsOk, SnapshotsOk, MigrationsOk, DisputesOk, PotsOk;
    RecordsRemove(s.finalizations, s.accounts, id);
  }

  // ---- participants ----

  lemma ProposeShape(s: State, id: nat, current: Address, proposed: Address)
    requires Participants.Propose(s, id, current, proposed).Success?
    ensures id in s.accounts
    ensures current == s.accounts[id].contract.client && proposed != s.accounts[id].contract.freelancer
    ensures var t := Participants.Propose(s, id, current, proposed).value;
            && id in t.migrations
            && t.migrations[id].value.currentClient == current
            && t.migrations[id].value.proposedClient == proposed
            && t == s.(migrations := s.migrations[id := t.migrations[id]])
  {
  }

  lemma MigrationsWrite(migrations: map<nat, Temporary<Migration>>, accounts: map<nat, Account>, id: nat,
                        entry: Temporary<Migration>)
    requires MigrationsOk(migrations, accounts) && id in accounts
    requires entry.value.currentClient == accounts[id].contract.client
    requires entry.value.proposedClient != accounts[id].contract.freelancer
    ensures MigrationsOk(migrations[id := entry], accounts)
  {
  }

  lemma ProposeKeeps(s: State, id: nat, current: Address, proposed: Address)
    requires Ok(s) && Participants.Propose(s, id, current, proposed).Success?
    ensures Ok(Participants.Propose(s, id, current, proposed).value)
  {
    ProposeShape(s, id, current, proposed);
    var t := Participants.Propose(s, id, current, proposed).value;
    hide AccountsOk, AccountOk, CreditsOk, RatingsOk, RecordsOk, SnapshotsOk, MigrationsOk, DisputesOk, PotsOk, Participants.Propose;
    MigrationsWrite(s.migrations, s.accounts, id, t.migrations[id]);
  }

  lemma CancelMigrationKeeps(s: State, id: nat, current: Address)
    requires Ok(s) && Participants.CancelMigration(s, id, current).Success?
    ensures Participants.CancelMigration(s, id, current).value == s.(migrations := s.migrations - {id})
    ensures Ok(Participants.CancelMigration(s, id, current).value)
  {
    hide AccountsOk, AccountOk, CreditsOk, RatingsOk, RecordsOk, SnapshotsOk, MigrationsOk, DisputesOk, PotsOk;
    MigrationsRemove(s.migrations, s.accounts, id);
  }

  lemma MigrationsRemove(migrations: map<nat, Temporary<Migration>>, accounts: map<nat, Account>, id: nat)
    requires MigrationsOk(migrations, accounts)
    ensures MigrationsOk(migrations - {id}, accounts)
  {
  }

  function WithClient(a: Account, client: Address): Account {
    a.(contract := a.contract.(client := client))
  }

  lemma AcceptShape(s: State, id: nat, newClient: Address)
    requires Ok(s) && Participants.Accept(s, id, newClient).Success?
    ensures id in s.accounts && id !in s.finalizations && id in s.migrations
    ensures !Terminal(s.accounts[id].contract.status) && s.accounts[id].contract.status != Disputed
    ensures newClient == s.migrations[id].value.proposedClient != s.accounts[id].contract.freelancer
    ensures Participants.Accept(s, id, newClient).value
         == Store(s, id, WithClient(s.accounts[id], newClient)).(migrations := s.migrations - {id})
  {
  }

  lemma MigrationsAccept(migrations: map<nat, Temporary<Migration>>, accounts: map<nat, Account>, id: nat, a: Account)
    requires MigrationsOk(migrations, accounts)
    ensures MigrationsOk(migrations - {id}, accounts[id := a])
  {
  }

  lemma AcceptStanding(s: State, id: nat, newClient: Address)
    requires CreditsOk(s.credits, s.accounts) && RatingsOk(s.reputations, s.accounts) && id in s.accounts
    ensures CreditsOk(s.credits, s.accounts[id := WithClient(s.accounts[id], newClient)])
    ensures RatingsOk(s.reputations, s.accounts[id := WithClient(s.accounts[id], newClient)])
  {
    CreditsStore(s.credits, s.accounts, id, WithClient(s.accounts[id], newClient));
    RatingsStore(s.reputations, s.accounts, id, WithClient(s.accounts[id], newClient));
  }

  lemma WithClientOk(a: Account, client: Address)
    requires AccountOk(a) && client != a.contract.freelancer
    ensures AccountOk(WithClient(a, client))
  {
  }

  lemma AcceptKeeps(s: State, id: nat, newClient: Address)
    requires Ok(s) && Participants.Accept(s, id, newClient).Success?
    ensures Ok(Participants.Accept(s, id, newClient).value)
  {
    AcceptShape(s, id, newClient);
    AccountAt(s, id);
    hide AccountsOk, AccountOk, CreditsOk, RatingsOk, RecordsOk, SnapshotsOk, MigrationsOk, DisputesOk, PotsOk, Participants.Accept, WithClient;
    var b := WithClient(s.accounts[id], newClient);
    WithClientOk(s.accounts[id], newClient);
    AccountsStore(s.accounts, id, b);
    RecordsStore(s, id, b);
    MigrationsAccept(s.migrations, s.accounts, id, b);
    AcceptStanding(s, id, newClient);
  }

  function WithArbiter(a: Account, arbiter: Option<Address>): Account {
    a.(contract := a.contract.(arbiter := arbiter))
  }

  lemma SetArbiterShape(s: State, id: nat, admin: Address, arbiter: Option<Address>)
    requires Participants.SetArbiter(s, id, admin, arbiter).Success?
    ensures id in s.accounts && id !in s.finalizations
    ensures arbiter != Some(s.accounts[id].contract.freelancer) && arbiter != Some(s.accounts[id].contract.client)
    ensures NeedsArbiter(s.accounts[id].contract.releaseAuthorization) ==> arbiter.Some?
    ensures Participants.SetArbiter(s, id, admin, arbiter).value == Store(s, id, WithArbiter(s.accounts[id], arbiter))
  {
  }

  lemma WithArbiterOk(a: Account, arbiter: Option<Address>)
    requires AccountOk(a) && arbiter != Some(a.contract.freelancer)
    requires NeedsArbiter(a.contract.releaseAuthorization) ==> arbiter.Some?
    ensures AccountOk(WithArbiter(a, arbiter)) && SameStanding(a, WithArbiter(a, arbiter))
  {
  }

  lemma SetArbiterKeeps(s: State, id: nat, admin: Address, arbiter: Option<Address>)
    requires Ok(s) && Participants.SetArbiter(s, id, admin, arbiter).Success?
    ensures Ok(Participants.SetArbiter(s, id, admin, arbiter).value)
  {
    SetArbiterShape(s, id, admin, arbiter);
    AccountAt(s, id);
    WithArbiterOk(s.accounts[id], arbiter);
    hide *;
    StoreOk(s, id, WithArbiter(s.accounts[id], arbiter));
  }

  // ---- reputation ----

  function AfterRating(a: Account): Account {
    a.(contract := a.contract.(reputationIssued := true))
  }

  lemma IssueShape(s: State, id: nat, caller: Address, rating: nat, comment: string)
    requires Ratings.Issue(s, id, caller, rating, comment).Success?
    ensures id in s.accounts && GetsRated(s.accounts[id], AfterRating(s.accounts[id]))
    ensures MIN_RATING <= rating <= MAX_RATING
    ensures Ratings.Issue(s, id, caller, rating, comment).value == RatedState(s, id, rating)
  {
  }

  /** The state after a rating. */
  function RatedState(s: State, id: nat, rating: nat): State
    requires id in s.accounts
  {
    var who := s.accounts[id].contract.freelancer;
    var r := ReputationOf(s.reputations, who);
    Store(s, id, AfterRating(s.accounts[id]))
    .(credits := s.credits[who := CreditsOf(s.credits, who) - 1],
      reputations := s.reputations[who := Reputation(r.completedContracts + 1, r.totalRating + rating, rating)])
  }

  lemma AfterRatingOk(a: Account)
    requires AccountOk(a) && a.contract.status == Completed
    ensures AccountOk(AfterRating(a))
  {
  }

  lemma IssueKeeps(s: State, id: nat, caller: Address, rating: nat, comment: string)
    requires Ok(s) && Ratings.Issue(s, id, caller, rating, comment).Success?
    ensures Ok(Ratings.Issue(s, id, caller, rating, comment).value)
  {
    hide *;
    IssueShape(s, id, caller, rating, comment);
    AccountAt(s, id);
    AfterRatingOk(s.accounts[id]);
    IssueStateOk(s, id, rating);
  }

  lemma IssueStateOk(s: State, id: nat, rating: nat)
    requires Ok(s) && id in s.accounts && GetsRated(s.accounts[id], AfterRating(s.accounts[id]))
    requires AccountOk(AfterRating(s.accounts[id])) && MIN_RATING <= rating <= MAX_RATING
    ensures Ok(RatedState(s, id, rating))
  {
    hide *;
    OkParts(s);
    AccountAt(s, id);
    var b := AfterRating(s.accounts[id]);
    RatedShape(s, id, rating);
    AccountsStore(s.accounts, id, b);
    MigrationsStore(s, id, b);
    RecordsRate(s.finalizations, s.accounts, id);
    RateStore(s.credits, s.reputations, s.accounts, id, b, rating);
    MakeOk(RatedState(s, id, rating));
  }

  lemma RatedShape(s: State, id: nat, rating: nat)
    requires id in s.accounts
    ensures var a := s.accounts[id];
            var who := a.contract.freelancer;
            var r := ReputationOf(s.reputations, who);
            && AfterRating(a) == a.(contract := a.contract.(reputationIssued := true))
            && RatedState(s, id, rating)
               == s.(accounts := s.accounts[id := AfterRating(a)],
                     credits := s.credits[who := CreditsOf(s.credits, who) - 1],
                     reputations := s.reputations[who := Reputation(r.completedContracts + 1,
                                                                    r.totalRating + rating, rating)])
  {
  }

  // ---- steps that touch no account ----

  lemma ConfigKeeps(s: State, cmd: Command)
    requires Ok(s) && Step(s, cmd).Success?
    requires cmd.Initialize? || cmd.Govern? || cmd.Tick?
    ensures Ok(Step(s, cmd).value)
  {
    OkFacts(s);
    hide Ok, AccountsOk, DisputesOk;
    PotsChange(s, Step(s, cmd).value);
  }

  lemma ApprovalKeeps(s: State, t: State)
    requires Ok(s) && t == s.(approvals := t.approvals)
    ensures Ok(t)
  {
    OkFacts(s);
    hide Ok, AccountsOk, DisputesOk;
    PotsChange(s, t);
  }

  lemma WithdrawShape(s: State, amount: int)
    requires Fees.Withdraw(s, amount).Success?
    ensures 0 < amount <= s.fees && amount <= s.balance
    ensures Fees.Withdraw(s, amount).value == s.(fees := s.fees - amount, balance := s.balance - amount)
  {
  }

  lemma WithdrawKeeps(s: State, amount: int)
    requires Ok(s) && Fees.Withdraw(s, amount).Success?
    ensures Ok(Fees.Withdraw(s, amount).value)
  {
    WithdrawShape(s, amount);
    OkFacts(s);
    hide Ok, AccountsOk, DisputesOk, Fees.Withdraw;
    PotsChange(s, s.(fees := s.fees - amount, balance := s.balance - amount));
  }

  // ---- all steps ----

  predicate MovesMoney(cmd: Command) {
    cmd.Deposit? || cmd.Release? || cmd.Refund? || cmd.Cancel? || cmd.RollBackMilestone? || cmd.WithdrawFees?
  }

  lemma MoneyKeeps(s: State, cmd: Command)
    requires Ok(s) && MovesMoney(cmd) && Step(s, cmd).Success?
    ensures Ok(Step(s, cmd).value)
  {
    hide Ok, Deposit.Deposit, Release.Release, Refund.Refund, Refund.Cancel, Release.RollBack, Fees.Withdraw;
    match cmd
    case Deposit(id, caller, amount, payerFunds) => DepositKeepsOk(s, id, caller, amount, payerFunds);
    case Release(id, caller, index) => ReleaseEffect(s, id, caller, index);
    case Refund(id, indices) => RefundEffect(s, id, indices);
    case Cancel(id, caller) => CancelEffect(s, id, caller);
    case RollBackMilestone(id, caller, index) => RollBackEffect(s, id, caller, index);
    case WithdrawFees(amount) => WithdrawKeeps(s, amount);
  }

  predicate SettlesDispute(cmd: Command) {
    cmd.RaiseDispute? || cmd.ResolveDispute? || cmd.RollBackDispute? || cmd.LoadDispute?
    || cmd.Finalize? || cmd.FinalizeBatch? || cmd.Reopen?
  }

  lemma DisputeKeeps(s: State, cmd: Command)
    requires Ok(s) && SettlesDispute(cmd) && Step(s, cmd).Success?
    ensures Ok(Step(s, cmd).value)
  {
    hide Ok, Dispute.Raise, Dispute.Resolve, Dispute.RollBack, Dispute.LoadMetadata, Finalize.Finalize,
      Finalize.Batch, Finalize.Items, Finalize.Reopen;
    match cmd
    case RaiseDispute(id, caller) => RaiseKeeps(s, id, caller);
    case ResolveDispute(id, caller, resolution) => ResolveEffect(s, id, caller, resolution);
    case RollBackDispute(id) => RollBackDisputeKeeps(s, id);
    case LoadDispute(id) => LoadMetadataKeeps(s, id);
    case Finalize(id, caller) => FinalizeKeeps(s, id, caller);
    case FinalizeBatch(items) => BatchKeeps(s, items);
    case Reopen(id, caller) => ReopenKeeps(s, id, caller);
  }

  predicate ManagesParties(cmd: Command) {
    cmd.Create? || cmd.ProposeMigration? || cmd.AcceptMigration? || cmd.CancelMigration? || cmd.SetArbiter?
    || cmd.IssueReputation?
  }

  lemma PartiesKeep(s: State, cmd: Command)
    requires Ok(s) && ManagesParties(cmd) && Step(s, cmd).Success?
    ensures Ok(Step(s, cmd).value)
  {
    hide Ok, Creation.Create, Participants.Propose, Participants.Accept, Participants.CancelMigration,
      Participants.SetArbiter, Ratings.Issue;
    match cmd
    case Create(client, freelancer, arbiter, amounts, mode) =>
      CreateKeeps(s, client, freelancer, arbiter, amounts, mode);
    case ProposeMigration(id, caller, proposed) => ProposeKeeps(s, id, caller, proposed);
    case AcceptMigration(id, caller) => AcceptKeeps(s, id, caller);
    case CancelMigration(id, caller) => CancelMigrationKeeps(s, id, caller);
    case SetArbiter(id, caller, arbiter) => SetArbiterKeeps(s, id, caller, arbiter);
    case IssueReputation(id, caller, rating, comment) => IssueKeeps(s, id, caller, rating, comment);
  }

  lemma ApproveShape(s: State, id: nat, caller: Address, index: nat)
    ensures var r := MilestoneApprovals.Approve(s, id, caller, index);
            r.Success? ==> r.value == s.(approvals := r.value.approvals)
  {
    hide MilestoneApprovals.Record, MilestoneApprovals.Clear, TempStorage.Read, CallerRole, WithFlag, HasFlag,
      RequireReleaseAuthorization, RequireNotPaused;
  }

  lemma RevokeShape(s: State, id: nat, caller: Address, index: nat)
    ensures var r := MilestoneApprovals.Revoke(s, id, caller, index);
            r.Success? ==> r.value == s.(approvals := r.value.approvals)
  {
    hide MilestoneApprovals.Record, MilestoneApprovals.Clear, TempStorage.Read, CallerRole, WithFlag, HasFlag,
      RequireReleaseAuthorization, RequireNotPaused;
  }

  /** Approving, revoking and reading approvals changes nothing else. */
  lemma ApprovalShape(s: State, cmd: Command)
    requires cmd.Approve? || cmd.Revoke? || cmd.Inspect?
    ensures Step(s, cmd).Success? ==> Step(s, cmd).value == s.(approvals := Step(s, cmd).value.approvals)
  {
    hide MilestoneApprovals.Approve, MilestoneApprovals.Revoke, MilestoneApprovals.Record, TempStorage.Read,
      Creation.Create, Creation.Govern, Creation.Initialize, Creation.Tick, Deposit.Deposit, Release.Release,
      Refund.Refund, Refund.Cancel, Release.RollBack, Dispute.Raise, Dispute.Resolve, Dispute.RollBack,
      Dispute.LoadMetadata, Finalize.Finalize, Finalize.Batch, Finalize.Reopen, Participants.Propose,
      Participants.Accept, Participants.CancelMigration, Participants.SetArbiter, Ratings.Issue, Fees.Withdraw;
    match cmd
    case Approve(id, caller, index) => ApproveShape(s, id, caller, index);
    case Revoke(id, caller, index) => RevokeShape(s, id, caller, index);
    case Inspect(_, _) =>
  }

  /** No call, successful or aborted, breaks the invariant. */
  lemma StepKeeps(s: State, cmd: Command)
    requires Ok(s)
    ensures Ok(Exec(s, cmd))
  {
    hide Ok, Step;
    if Step(s, cmd).Success? {
      if MovesMoney(cmd) {
        MoneyKeeps(s, cmd);
      } else if SettlesDispute(cmd) {
        DisputeKeeps(s, cmd);
      } else if ManagesParties(cmd) {
        PartiesKeep(s, cmd);
      } else if cmd.Approve? || cmd.Revoke? || cmd.Inspect? {
        ApprovalShape(s, cmd);
        ApprovalKeeps(s, Step(s, cmd).value);
      } else {
        ConfigKeeps(s, cmd);
      }
    }
  }

  /** Whatever is called, in whatever order, the store stays consistent. */
  lemma {:induction false} RunKeeps(s: State, run: seq<Command>)
    requires Ok(s)
    ensures Ok(After(s, run))
  {
    hide Ok, Exec;
    if run != [] {
      RunKeeps(s, run[..|run| - 1]);
      StepKeeps(After(s, run[..|run| - 1]), run[|run| - 1]);
    }
  }
}
