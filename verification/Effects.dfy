/** What a successful call does to the contracts, the pots and the side tables, command by command. */
module Effects {
  import opened Results
  import opened Types
  import opened AccountInvariant
  import opened AccountSums
  import opened AccountSteps
  import opened LedgerInvariant
  import opened Protocol
  import opened StepsKeepInvariant
  import Creation
  import Deposit
  import Dispute
  import Fees
  import Finalize
  import MilestoneApprovals
  import Milestones
  import Participants
  import Ratings
  import Refund
  import Release

  /** The contract a call rewrites, if any. */
  function Target(s: State, cmd: Command): Option<nat> {
    match cmd
    case Create(_, _, _, _, _) => Some(s.nextId)
    case Deposit(id, _, _, _) => Some(id)
    case Release(id, _, _) => Some(id)
    case Refund(id, _) => Some(id)
    case Cancel(id, _) => Some(id)
    case RollBackMilestone(id, _, _) => Some(id)
    case RaiseDispute(id, _) => Some(id)
    case ResolveDispute(id, _, _) => Some(id)
    case RollBackDispute(id) => Some(id)
    case AcceptMigration(id, _) => Some(id)
    case SetArbiter(id, _, _) => Some(id)
    case IssueReputation(id, _, _, _) => Some(id)
    case _ => None
  }

  /** What a successful call has established about the contract it rewrites. */
  predicate Enabled(s: State, cmd: Command, a: Account) {
    var status := a.contract.status;
    match cmd
    case Deposit(_, _, amount, _) =>
      && (status == Created || status == PartiallyFunded)
      && amount > 0
      && a.contract.fundedAmount + amount <= Milestones.Sum(Milestones.Amount, a.milestones)
    case Release(id, _, index) =>
      && status == Funded
      && id in s.accounts && s.accounts[id] == a
      && index < |a.milestones| && !Milestones.Settled(a.milestones[index])
      && 0 <= ReleaseFee(s, id, index) <= a.milestones[index].amount
      && (s.config.feeBps < BPS_DENOMINATOR ==> ReleaseFee(s, id, index) < a.milestones[index].amount)
    case Refund(id, indices) =>
      && (status == Funded || status == Disputed)
      && Refund.RefundTotal(s, id, indices).Success?
      && 0 < Refund.RefundTotal(s, id, indices).value <= Value(Reserve, a)
    case Cancel(_, _) => (status == Created || status == Funded) && a.contract.releasedAmount == 0
    case RollBackMilestone(_, _, index) =>
      status == Funded && index < |a.milestones| && Milestones.Settled(a.milestones[index])
    case RaiseDispute(_, _) => status == Funded || status == PartiallyFunded
    case ResolveDispute(_, _, resolution) =>
      && status == Disputed
      && Dispute.Payouts(a.contract, resolution).Success?
      && var legs := Dispute.Payouts(a.contract, resolution).value;
         legs.0 >= 0 && legs.1 >= 0 && legs.0 + legs.1 == Value(Claim, a)
    case RollBackDispute(id) => status == Disputed && id in s.rollbacks && a == AfterRaise(s.rollbacks[id])
    case AcceptMigration(_, newClient) =>
      !Terminal(status) && status != Disputed && newClient != a.contract.freelancer
    case SetArbiter(_, _, arbiter) => arbiter != Some(a.contract.client)
    case IssueReputation(_, _, _, _) => status == Completed && !a.contract.reputationIssued
    case _ => true
  }

  /** The record a successful call leaves in place of `a`. */
  function Rewritten(s: State, cmd: Command, a: Account): Account
    requires Enabled(s, cmd, a)
  {
    match cmd
    case Deposit(_, _, amount, _) => AfterDeposit(a, amount)
    case Release(id, _, index) => AfterRelease(a, index, ReleaseFee(s, id, index))
    case Refund(id, indices) => AfterRefund(a, indices, Refund.RefundTotal(s, id, indices).value)
    case Cancel(_, _) => AfterCancel(a)
    case RollBackMilestone(_, _, index) => AfterRollBack(a, index)
    case RaiseDispute(_, _) => AfterRaise(a)
    case ResolveDispute(_, _, resolution) =>
      var legs := Dispute.Payouts(a.contract, resolution).value; Resolved(a, legs.0, legs.1)
    case RollBackDispute(id) => s.rollbacks[id]
    case AcceptMigration(_, newClient) => WithClient(a, newClient)
    case SetArbiter(_, _, arbiter) => WithArbiter(a, arbiter)
    case IssueReputation(_, _, _, _) => AfterRating(a)
    case _ => a
  }

  /** How much a successful call adds to the token balance. */
  function BalanceMove(s: State, cmd: Command): int {
    match cmd
    case Deposit(_, _, amount, _) => amount
    case Release(id, _, index) =>
      if id in s.accounts && index < |s.accounts[id].milestones|
      then ReleaseFee(s, id, index) - s.accounts[id].milestones[index].amount else 0
    case Refund(id, indices) =>
      var total := Refund.RefundTotal(s, id, indices); if total.Success? then -total.value else 0
    case Cancel(id, _) => if id in s.accounts then -Value(Claim, s.accounts[id]) else 0
    case WithdrawFees(amount) => -amount
    case _ => 0
  }

  /** How much a successful call adds to the fee pot. */
  function FeesMove(s: State, cmd: Command): int {
    match cmd
    case Release(id, _, index) =>
      if id in s.accounts && index < |s.accounts[id].milestones| then ReleaseFee(s, id, index) else 0
    case RollBackMilestone(id, _, index) =>
      if id in s.accounts && index < |s.accounts[id].milestones| && s.accounts[id].milestones[index].released
      then Release.ReversedPot(s.fees, s.accounts[id].milestones[index].protocolFee) - s.fees else 0
    case WithdrawFees(amount) => -amount
    case _ => 0
  }

  predicate TouchesApprovals(cmd: Command) {
    cmd.Approve? || cmd.Revoke? || cmd.Inspect? || cmd.Release? || cmd.RollBackMilestone?
  }

  predicate TouchesSnapshots(cmd: Command) {
    cmd.RaiseDispute? || cmd.RollBackDispute? || cmd.Finalize? || cmd.FinalizeBatch?
  }

  predicate TouchesRecords(cmd: Command) {
    cmd.Finalize? || cmd.FinalizeBatch? || cmd.Reopen?
  }

  /** What a successful call leaves alone. */
  predicate Framed(s: State, cmd: Command, t: State) {
    && (cmd.Tick? || t.clock == s.clock)
    && (cmd.Initialize? || cmd.Govern? || t.config == s.config)
    && (cmd.Initialize? || cmd.Create? || t.nextId == s.nextId)
    && (TouchesApprovals(cmd) || t.approvals == s.approvals)
    && (TouchesSnapshots(cmd) || t.rollbacks == s.rollbacks)
    && (TouchesRecords(cmd) || t.finalizations == s.finalizations)
  }

  /** The whole effect of a successful call on contracts and pots. */
  predicate Moved(s: State, cmd: Command, t: State) {
    && t.balance == s.balance + BalanceMove(s, cmd)
    && t.fees == s.fees + FeesMove(s, cmd)
    && match Target(s, cmd) {
         case None => t.accounts == s.accounts
         case Some(id) =>
           if cmd.Create? then
             && id !in s.accounts && cmd.arbiter != Some(cmd.client)
             && t.accounts == s.accounts[id := FreshAccount(cmd.client, cmd.freelancer, cmd.arbiter,
                                                            cmd.amounts, cmd.mode)]
           else
             && id in s.accounts && (cmd.IssueReputation? || id !in s.finalizations)
             && Enabled(s, cmd, s.accounts[id])
             && t.accounts == s.accounts[id := Rewritten(s, cmd, s.accounts[id])]
       }
  }

  // ---- one lemma per command ----

  lemma DepositMoves(s: State, id: nat, caller: Address, amount: int, payerFunds: int)
    requires Ok(s) && Deposit.Deposit(s, id, caller, amount, payerFunds).Success?
    ensures var cmd := Command.Deposit(id, caller, amount, payerFunds);
            var t := Deposit.Deposit(s, id, caller, amount, payerFunds).value;
            Moved(s, cmd, t) && Framed(s, cmd, t)
  {
    if id in s.accounts {
      AccountAt(s, id);
    }
    DepositShape(s, id, caller, amount, payerFunds);
    hide Ok, Deposit.Deposit, AccountOk, AfterDeposit;
  }

  lemma ReleaseMoves(s: State, id: nat, caller: Address, index: nat)
    requires Ok(s) && Release.Release(s, id, caller, index).Success?
    ensures var cmd := Command.Release(id, caller, index);
            var t := Release.Release(s, id, caller, index).value;
            Moved(s, cmd, t) && Framed(s, cmd, t)
  {
    hide Ok, Release.Release, AccountOk, AfterRelease, StepsKeepInvariant.ReleaseFee, Fees.ReleaseFee;
    ReleaseEffect(s, id, caller, index);
    NetPositive(s, id, caller, index);
  }

  lemma NetPositive(s: State, id: nat, caller: Address, index: nat)
    requires Ok(s) && Release.Release(s, id, caller, index).Success?
    ensures id in s.accounts && index < |s.accounts[id].milestones|
    ensures s.config.feeBps < BPS_DENOMINATOR ==>
              StepsKeepInvariant.ReleaseFee(s, id, index) < s.accounts[id].milestones[index].amount
  {
    hide *;
    OkFacts(s);
    ReleaseShape(s, id, caller, index);
    AccountAt(s, id);
    AmountPositive(s.accounts[id], index);
    ReleaseFeeOk(s, s.accounts[id].milestones[index].amount);
  }

  lemma RefundMoves(s: State, id: nat, indices: seq<nat>)
    requires Ok(s) && Refund.Refund(s, id, indices).Success?
    ensures var cmd, t := Command.Refund(id, indices), Refund.Refund(s, id, indices).value;
            Moved(s, cmd, t) && Framed(s, cmd, t)
  {
    hide Ok, Refund.Refund, Refund.RefundTotal, AccountOk, AfterRefund, Value;
    RefundEffect(s, id, indices);
    RefundFrom(s, id, indices);
  }

  lemma RefundFrom(s: State, id: nat, indices: seq<nat>)
    requires Ok(s) && Refund.RefundTotal(s, id, indices).Success?
    ensures id in s.accounts
    ensures s.accounts[id].contract.status == Funded || s.accounts[id].contract.status == Disputed
  {
    hide *;
    OkFacts(s);
    RefundShape(s, id, indices);
  }

  lemma CancelMoves(s: State, id: nat, caller: Address)
    requires Ok(s) && Refund.Cancel(s, id, caller).Success?
    ensures var cmd, t := Command.Cancel(id, caller), Refund.Cancel(s, id, caller).value;
            Moved(s, cmd, t) && Framed(s, cmd, t)
  {
    hide Ok, Refund.Cancel, AccountOk, AfterCancel, Value;
    CancelShape(s, id, caller);
    CancelEffect(s, id, caller);
  }

  lemma RollBackMoves(s: State, id: nat, caller: Address, index: nat)
    requires Ok(s) && Release.RollBack(s, id, caller, index).Success?
    ensures var cmd, t := RollBackMilestone(id, caller, index), Release.RollBack(s, id, caller, index).value;
            Moved(s, cmd, t) && Framed(s, cmd, t)
  {
    hide Ok, Release.RollBack, AccountOk, AfterRollBack, UnpaidRelease, FeesMove;
    RollBackEffect(s, id, caller, index);
    UnpaidMoves(s, id, caller, index);
  }

  lemma UnpaidMoves(s: State, id: nat, caller: Address, index: nat)
    requires id in s.accounts && index < |s.accounts[id].milestones|
    ensures var u := UnpaidRelease(s, id, index);
            u == s.(fees := s.fees + FeesMove(s, RollBackMilestone(id, caller, index)), approvals := u.approvals)
  {
    hide Release.ReversedPot;
  }

  lemma ResolveMoves(s: State, id: nat, caller: Address, resolution: Resolution)
    requires Ok(s) && Dispute.Resolve(s, id, caller, resolution).Success?
    ensures var cmd, t := ResolveDispute(id, caller, resolution), Dispute.Resolve(s, id, caller, resolution).value;
            Moved(s, cmd, t) && Framed(s, cmd, t)
  {
    hide Ok, Dispute.Resolve, Dispute.Payouts, AccountOk, Resolved, Value;
    ResolveEffect(s, id, caller, resolution);
  }

  lemma RaiseMoves(s: State, id: nat, caller: Address)
    requires Ok(s) && Dispute.Raise(s, id, caller).Success?
    ensures var cmd, t := RaiseDispute(id, caller), Dispute.Raise(s, id, caller).value;
            Moved(s, cmd, t) && Framed(s, cmd, t)
  {
    hide Ok, Dispute.Raise, AccountOk, AfterRaise;
    RaiseShape(s, id, caller);
  }

  lemma RollBackDisputeMoves(s: State, id: nat)
    requires Ok(s) && Dispute.RollBack(s, id).Success?
    ensures var cmd, t := RollBackDispute(id), Dispute.RollBack(s, id).value;
            Moved(s, cmd, t) && Framed(s, cmd, t)
  {
    hide Ok, Dispute.RollBack, AccountOk, AfterRaise;
    RollBackDisputeShape(s, id);
  }

  lemma CreateMoves(s: State, client: Address, freelancer: Address, arbiter: Option<Address>,
                    amounts: seq<int>, mode: ReleaseAuthorization)
    requires Ok(s) && Creation.Create(s, client, freelancer, arbiter, amounts, mode).Success?
    ensures var cmd := Create(client, freelancer, arbiter, amounts, mode);
            var t := Creation.Create(s, client, freelancer, arbiter, amounts, mode).value;
            Moved(s, cmd, t) && Framed(s, cmd, t)
  {
    hide Ok, Creation.Create, AccountOk, FreshAccount;
    CreateShape(s, client, freelancer, arbiter, amounts, mode);
  }

  lemma AcceptMoves(s: State, id: nat, caller: Address)
    requires Ok(s) && Participants.Accept(s, id, caller).Success?
    ensures var cmd, t := AcceptMigration(id, caller), Participants.Accept(s, id, caller).value;
            Moved(s, cmd, t) && Framed(s, cmd, t)
  {
    hide Ok, Participants.Accept, AccountOk, WithClient;
    AcceptShape(s, id, caller);
  }

  lemma SetArbiterMoves(s: State, id: nat, caller: Address, arbiter: Option<Address>)
    requires Ok(s) && Participants.SetArbiter(s, id, caller, arbiter).Success?
    ensures var cmd, t := SetArbiter(id, caller, arbiter), Participants.SetArbiter(s, id, caller, arbiter).value;
            Moved(s, cmd, t) && Framed(s, cmd, t)
  {
    hide Ok, Participants.SetArbiter, AccountOk, WithArbiter;
    SetArbiterShape(s, id, caller, arbiter);
  }

  lemma IssueMoves(s: State, id: nat, caller: Address, rating: nat, comment: string)
    requires Ok(s) && Ratings.Issue(s, id, caller, rating, comment).Success?
    ensures var cmd, t := IssueReputation(id, caller, rating, comment), Ratings.Issue(s, id, caller, rating, comment).value;
            Moved(s, cmd, t) && Framed(s, cmd, t)
  {
    hide Ok, Ratings.Issue, AccountOk, AfterRating;
    IssueShape(s, id, caller, rating, comment);
  }

  /** Finalization touches records and, for disputed contracts, drops the snapshot. */
  lemma FinalizeFrame(s: State, id: nat, finalizer: Address)
    requires Finalize.Finalize(s, id, finalizer).Success?
    ensures var t := Finalize.Finalize(s, id, finalizer).value;
            t == s.(finalizations := t.finalizations, rollbacks := t.rollbacks)
  {
    hide Finalize.Finalize, Finalize.Summarize;
    FinalizeShape(s, id, finalizer);
  }

  lemma {:induction false} ItemsFrame(s: State, items: seq<SettlementItem>)
    requires Finalize.Items(s, items).Success?
    ensures var t := Finalize.Items(s, items).value.0;
            t == s.(finalizations := t.finalizations, rollbacks := t.rollbacks)
  {
    hide Finalize.Finalize, Finalize.PreCheck;
    if items != [] {
      var n := |items| - 1;
      ItemsFrame(s, items[..n]);
      var before := Finalize.Items(s, items[..n]).value.0;
      if Finalize.PreCheck(before, items[n]).Holds? {
        FinalizeFrame(before, items[n].contractId, items[n].finalizer);
      }
    }
  }

  // ---- all commands ----

  lemma MoneyMoves(s: State, cmd: Command)
    requires Ok(s) && MovesMoney(cmd) && Step(s, cmd).Success?
    ensures Moved(s, cmd, Step(s, cmd).value) && Framed(s, cmd, Step(s, cmd).value)
  {
    hide Ok, Moved, Framed, Deposit.Deposit, Release.Release, Refund.Refund, Refund.Cancel, Release.RollBack, Fees.Withdraw;
    match cmd
    case Deposit(id, caller, amount, payerFunds) => DepositMoves(s, id, caller, amount, payerFunds);
    case Release(id, caller, index) => ReleaseMoves(s, id, caller, index);
    case Refund(id, indices) => RefundMoves(s, id, indices);
    case Cancel(id, caller) => CancelMoves(s, id, caller);
    case RollBackMilestone(id, caller, index) => RollBackMoves(s, id, caller, index);
    case WithdrawFees(amount) => WithdrawMoves(s, amount);
  }

  lemma WithdrawMoves(s: State, amount: int)
    requires Fees.Withdraw(s, amount).Success?
    ensures Moved(s, WithdrawFees(amount), Fees.Withdraw(s, amount).value)
    ensures Framed(s, WithdrawFees(amount), Fees.Withdraw(s, amount).value)
  {
    hide Fees.Withdraw;
    WithdrawShape(s, amount);
  }

  lemma DisputeMoves(s: State, cmd: Command)
    requires Ok(s) && SettlesDispute(cmd) && Step(s, cmd).Success?
    ensures Moved(s, cmd, Step(s, cmd).value) && Framed(s, cmd, Step(s, cmd).value)
  {
    hide Ok, Moved, Framed, Dispute.Raise, Dispute.Resolve, Dispute.RollBack, Dispute.LoadMetadata,
      Finalize.Finalize, Finalize.Batch, Finalize.Items, Finalize.Reopen;
    match cmd
    case RaiseDispute(id, caller) => RaiseMoves(s, id, caller);
    case ResolveDispute(id, caller, resolution) => ResolveMoves(s, id, caller, resolution);
    case RollBackDispute(id) => RollBackDisputeMoves(s, id);
    case LoadDispute(id) => SideMoves(s, cmd);
    case Finalize(id, caller) => SideMoves(s, cmd);
    case FinalizeBatch(items) => SideMoves(s, cmd);
    case Reopen(id, caller) => SideMoves(s, cmd);
  }

  /** Loading dispute metadata and closing or reopening contracts moves no money and no contract. */
  lemma SideMoves(s: State, cmd: Command)
    requires Ok(s) && (cmd.LoadDispute? || cmd.Finalize? || cmd.FinalizeBatch? || cmd.Reopen?)
    requires Step(s, cmd).Success?
    ensures Moved(s, cmd, Step(s, cmd).value) && Framed(s, cmd, Step(s, cmd).value)
  {
    hide Ok, Dispute.LoadMetadata, Finalize.Finalize, Finalize.Items, Finalize.Reopen;
    match cmd
    case LoadDispute(id) => LoadMetadataKeeps(s, id);
    case Finalize(id, caller) => FinalizeFrame(s, id, caller);
    case FinalizeBatch(items) => ItemsFrame(s, items);
    case Reopen(id, caller) => ReopenKeeps(s, id, caller);
  }

  lemma PartiesMove(s: State, cmd: Command)
    requires Ok(s) && ManagesParties(cmd) && Step(s, cmd).Success?
    ensures Moved(s, cmd, Step(s, cmd).value) && Framed(s, cmd, Step(s, cmd).value)
  {
    hide Ok, Moved, Framed, Creation.Create, Participants.Propose, Participants.Accept,
      Participants.CancelMigration, Participants.SetArbiter, Ratings.Issue;
    match cmd
    case Create(client, freelancer, arbiter, amounts, mode) =>
      CreateMoves(s, client, freelancer, arbiter, amounts, mode);
    case ProposeMigration(id, caller, proposed) => MigrationMoves(s, cmd);
    case AcceptMigration(id, caller) => AcceptMoves(s, id, caller);
    case CancelMigration(id, caller) => MigrationMoves(s, cmd);
    case SetArbiter(id, caller, arbiter) => SetArbiterMoves(s, id, caller, arbiter);
    case IssueReputation(id, caller, rating, comment) => IssueMoves(s, id, caller, rating, comment);
  }

  lemma MigrationMoves(s: State, cmd: Command)
    requires Ok(s) && (cmd.ProposeMigration? || cmd.CancelMigration?) && Step(s, cmd).Success?
    ensures Moved(s, cmd, Step(s, cmd).value) && Framed(s, cmd, Step(s, cmd).value)
  {
    hide Ok, Participants.Propose, Participants.CancelMigration;
    match cmd
    case ProposeMigration(id, caller, proposed) => ProposeShape(s, id, caller, proposed);
    case CancelMigration(id, caller) => CancelMigrationKeeps(s, id, caller);
  }

  lemma SettingsMove(s: State, cmd: Command)
    requires cmd.Initialize? || cmd.Govern? || cmd.Tick?
    requires Step(s, cmd).Success?
    ensures Moved(s, cmd, Step(s, cmd).value) && Framed(s, cmd, Step(s, cmd).value)
  {
  }

  lemma ApprovalMoves(s: State, cmd: Command)
    requires cmd.Approve? || cmd.Revoke? || cmd.Inspect?
    requires Step(s, cmd).Success?
    ensures Moved(s, cmd, Step(s, cmd).value) && Framed(s, cmd, Step(s, cmd).value)
  {
    hide Step;
    ApprovalShape(s, cmd);
  }

  /** Every successful call does exactly what `Moved` and `Framed` say. */
  lemma StepMoves(s: State, cmd: Command)
    requires Ok(s) && Step(s, cmd).Success?
    ensures Moved(s, cmd, Step(s, cmd).value) && Framed(s, cmd, Step(s, cmd).value)
  {
    hide Ok, Step, Moved, Framed;
    if MovesMoney(cmd) {
      MoneyMoves(s, cmd);
    } else if SettlesDispute(cmd) {
      DisputeMoves(s, cmd);
    } else if ManagesParties(cmd) {
      PartiesMove(s, cmd);
    } else if cmd.Approve? || cmd.Revoke? || cmd.Inspect? {
      ApprovalMoves(s, cmd);
    } else {
      SettingsMove(s, cmd);
    }
  }

  /** A call rewrites at most the contract it names. */
  lemma MovedAccounts(s: State, cmd: Command, t: State)
    requires Moved(s, cmd, t)
    ensures Target(s, cmd).None? ==> t.accounts == s.accounts
    ensures cmd.Create? ==>
              && s.nextId !in s.accounts && cmd.arbiter != Some(cmd.client)
              && t.accounts == s.accounts[s.nextId := FreshAccount(cmd.client, cmd.freelancer, cmd.arbiter,
                                                                   cmd.amounts, cmd.mode)]
    ensures Target(s, cmd).Some? && !cmd.Create? ==>
              var id := Target(s, cmd).value;
              && id in s.accounts && (cmd.IssueReputation? || id !in s.finalizations)
              && Enabled(s, cmd, s.accounts[id])
              && t.accounts == s.accounts[id := Rewritten(s, cmd, s.accounts[id])]
  {
    hide Enabled, Rewritten, BalanceMove, FeesMove, FreshAccount;
  }
}
