/** Solvency: without milestone rollbacks and below a 100 percent fee, the balance always covers the fee pot
    and the reserves, so no payout of the escrow is ever short. */
module Solvency {
  import opened Results
  import opened Types
  import opened AccountInvariant
  import opened AccountSums
  import opened AccountSteps
  import opened LedgerInvariant
  import opened Protocol
  import opened StepsKeepInvariant
  import opened Effects
  import opened Books
  import opened Milestones
  import Dispute
  import Fees
  import MilestoneApprovals
  import Refund
  import Release

  /** Calls that neither roll a milestone back nor set the fee rate to 100 percent. */
  predicate Modest(cmd: Command) {
    && !cmd.RollBackMilestone?
    && (cmd.Govern? ==> cmd.config.feeBps < BPS_DENOMINATOR)
  }

  predicate ModestRun(run: seq<Command>) {
    forall k :: 0 <= k < |run| ==> Modest(run[k])
  }

  /** Every released milestone paid its freelancer something. */
  predicate NetPaid(ms: seq<Milestone>) {
    forall k :: 0 <= k < |ms| && ms[k].released ==> ms[k].protocolFee < ms[k].amount
  }

  predicate AllNetPaid(accounts: map<nat, Account>) {
    forall id :: id in accounts ==> NetPaid(accounts[id].milestones)
  }

  /** Below 10_000 basis points nothing is released net exactly when nothing is released at all. */
  lemma {:induction false} NothingReleased(ms: seq<Milestone>)
    requires AllWellFormed(ms) && NetPaid(ms)
    ensures Sum(NetReleased, ms) == 0 <==> NoneReleased(ms)
    ensures Sum(NetReleased, ms) == 0 <==> Sum(GrossReleased, ms) == 0
  {
    SumBounds(ms);
    if !NoneReleased(ms) {
      var k :| 0 <= k < |ms| && ms[k].released;
      ReleasedCovered(ms, k);
    }
  }

  // ---- modest runs keep every release net of something ----

  lemma RewriteNetPaid(s: State, cmd: Command, a: Account)
    requires Modest(cmd) && s.config.feeBps < BPS_DENOMINATOR
    requires Enabled(s, cmd, a) && NetPaid(a.milestones)
    ensures NetPaid(Rewritten(s, cmd, a).milestones)
  {
    hide AccountOk, StepsKeepInvariant.ReleaseFee, Refund.RefundTotal, Dispute.Payouts;
  }

  lemma NetPaidStore(accounts: map<nat, Account>, id: nat, a: Account)
    requires AllNetPaid(accounts) && NetPaid(a.milestones)
    ensures AllNetPaid(accounts[id := a])
  {
    hide NetPaid;
  }

  lemma NetPaidAt(accounts: map<nat, Account>, id: nat)
    requires AllNetPaid(accounts) && id in accounts
    ensures NetPaid(accounts[id].milestones)
  {
    hide NetPaid;
  }

  lemma StepNetPaid(s: State, cmd: Command)
    requires Ok(s) && Modest(cmd) && s.config.feeBps < BPS_DENOMINATOR && AllNetPaid(s.accounts)
    requires Step(s, cmd).Success?
    ensures AllNetPaid(Step(s, cmd).value.accounts)
    ensures Step(s, cmd).value.config.feeBps < BPS_DENOMINATOR
  {
    hide *;
    StepMoves(s, cmd);
    MovedAccounts(s, cmd, Step(s, cmd).value);
    FeeRateStep(s, cmd);
    if cmd.Create? {
      FreshNetPaid(cmd.client, cmd.freelancer, cmd.arbiter, cmd.amounts, cmd.mode);
      NetPaidStore(s.accounts, s.nextId, FreshAccount(cmd.client, cmd.freelancer, cmd.arbiter, cmd.amounts, cmd.mode));
    } else if Target(s, cmd).Some? {
      var id := Target(s, cmd).value;
      NetPaidAt(s.accounts, id);
      RewriteNetPaid(s, cmd, s.accounts[id]);
      NetPaidStore(s.accounts, id, Rewritten(s, cmd, s.accounts[id]));
    }
  }

  lemma FreshNetPaid(client: Address, freelancer: Address, arbiter: Option<Address>,
                     amounts: seq<int>, mode: ReleaseAuthorization)
    ensures NetPaid(FreshAccount(client, freelancer, arbiter, amounts, mode).milestones)
  {
  }

  lemma FeeRateStep(s: State, cmd: Command)
    requires Ok(s) && Modest(cmd) && s.config.feeBps < BPS_DENOMINATOR && Step(s, cmd).Success?
    ensures Step(s, cmd).value.config.feeBps < BPS_DENOMINATOR
  {
    if cmd.Initialize? || cmd.Govern? {
    } else {
      hide Ok, Step;
      StepMoves(s, cmd);
    }
  }

  // ---- the corrections stay zero ----

  predicate Clean(b: Books) {
    b.rolledBack == 0 && b.unrecovered == 0 && b.cancelledFees == 0 && b.stranded >= 0
  }

  lemma ReserveNonNegative(a: Account)
    requires AccountOk(a)
    ensures Value(Reserve, a) >= 0
  {
    if !Terminal(a.contract.status) {
      LiveBooks(a);
    }
  }

  lemma CancelClean(s: State, id: nat, caller: Address)
    requires Ok(s) && id in s.accounts && NetPaid(s.accounts[id].milestones)
    requires Enabled(s, Command.Cancel(id, caller), s.accounts[id])
    ensures Clean(Posting(s, Command.Cancel(id, caller)))
  {
    AccountAt(s, id);
    LiveBooks(s.accounts[id]);
    NothingReleased(s.accounts[id].milestones);
  }

  lemma ResolveClean(s: State, id: nat, caller: Address, resolution: Resolution)
    requires Ok(s) && id in s.accounts
    ensures Clean(Posting(s, ResolveDispute(id, caller, resolution)))
  {
    hide Ok, Value;
    AccountAt(s, id);
    ReserveNonNegative(s.accounts[id]);
  }

  lemma PostingClean(s: State, cmd: Command)
    requires Ok(s) && Modest(cmd) && AllNetPaid(s.accounts) && Step(s, cmd).Success?
    ensures Clean(Posting(s, cmd))
  {
    hide Ok, Step, Clean, Posting, Framed, BalanceMove, FeesMove, Enabled, Rewritten;
    match cmd {
      case Cancel(id, caller) => StepMoves(s, cmd); CancelClean(s, id, caller);
      case ResolveDispute(id, caller, resolution) => StepMoves(s, cmd); ResolveClean(s, id, caller, resolution);
      case _ => OthersClean(s, cmd);
    }
  }

  lemma OthersClean(s: State, cmd: Command)
    requires Modest(cmd) && !cmd.Cancel? && !cmd.ResolveDispute?
    ensures Clean(Posting(s, cmd))
  {
  }

  ghost predicate Sound(s: State, b: Books) {
    Ok(s) && s.config.feeBps < BPS_DENOMINATOR && AllNetPaid(s.accounts) && Clean(b)
  }

  lemma {:induction false} ModestRunSound(clock: Clock, run: seq<Command>)
    requires ModestRun(run)
    ensures Sound(After(Genesis(clock), run), BooksAfter(Genesis(clock), run))
  {
    hide Ok, Step, Posting, Modest, AllNetPaid;
    GenesisOk(clock);
    RunKeeps(Genesis(clock), run);
    if run == [] {
      GenesisNetPaid(clock);
    } else {
      var before, last := run[..|run| - 1], run[|run| - 1];
      ModestRunSound(clock, before);
      var s := After(Genesis(clock), before);
      if Step(s, last).Success? {
        StepNetPaid(s, last);
        PostingClean(s, last);
      }
    }
  }

  lemma GenesisNetPaid(clock: Clock)
    ensures AllNetPaid(Genesis(clock).accounts)
  {
  }

  // ---- theorems ----

  /** The balance covers the fee pot and, for each live contract, what is funded and not yet settled. */
  ghost predicate Solvent(s: State) {
    s.balance >= s.fees + Total(Reserve, s.accounts)
  }

  lemma SolventRun(clock: Clock, run: seq<Command>)
    requires ModestRun(run)
    ensures Solvent(After(Genesis(clock), run))
  {
    hide Ok, After, BooksAfter, ModestRun, AllNetPaid;
    BooksBalance(clock, run);
    ModestRunSound(clock, run);
  }

  /** Over all runs, rollbacks and full fees included, solvency has this exact price. */
  lemma SolventExactly(clock: Clock, run: seq<Command>)
    ensures var b := BooksAfter(Genesis(clock), run);
            Solvent(After(Genesis(clock), run)) <==> b.rolledBack + b.unrecovered + b.cancelledFees <= b.stranded
  {
    hide Ok, After, BooksAfter;
    BooksBalance(clock, run);
  }

  /** What a call takes from the slack of a solvent escrow, read from the storage it is called in: the fees a
      cancellation returns to the client, or the payout a rollback takes back together with a fee the pot no
      longer holds. No other call takes anything. */
  function Taken(s: State, cmd: Command): int {
    match cmd
    case Cancel(id, _) => if id in s.accounts then Sum(Fee, s.accounts[id].milestones) else 0
    case RollBackMilestone(id, _, index) =>
      if id in s.accounts && index < |s.accounts[id].milestones| then
        var m := s.accounts[id].milestones[index];
        if m.released && m.protocolFee <= s.fees then m.amount - m.protocolFee else m.amount
      else 0
    case _ => 0
  }

  /** A successful call on a solvent escrow leaves it solvent exactly when what it takes fits into the slack; a
      resolution only adds to the slack. */
  lemma SolventStep(s: State, cmd: Command)
    requires Ok(s) && Solvent(s) && Step(s, cmd).Success?
    ensures Solvent(Step(s, cmd).value) <==> Taken(s, cmd) <= Slack(s)
    ensures !cmd.ResolveDispute? ==> Slack(Step(s, cmd).value) == Slack(s) - Taken(s, cmd)
  {
    hide *;
    StepSlack(s, cmd);
    SlackIs(s);
    SlackIs(Step(s, cmd).value);
    StepMoves(s, cmd);
    MovedAccounts(s, cmd, Step(s, cmd).value);
    TakenPosting(s, cmd);
  }

  lemma SlackIs(s: State)
    ensures Solvent(s) <==> 0 <= Slack(s)
  {
  }

  /** The postings behind what a call takes. */
  lemma TakenPosting(s: State, cmd: Command)
    requires Ok(s)
    requires Target(s, cmd).Some? && !cmd.Create? ==>
               var id := Target(s, cmd).value; id in s.accounts && Enabled(s, cmd, s.accounts[id])
    ensures var p := Posting(s, cmd);
            && Taken(s, cmd) == p.rolledBack + p.unrecovered + p.cancelledFees
            && 0 <= p.stranded && (!cmd.ResolveDispute? ==> p.stranded == 0)
            && (cmd.ResolveDispute? ==> Taken(s, cmd) == 0)
  {
    hide Ok, Value, AccountOk;
    match cmd
    case Cancel(id, _) =>
      AccountAt(s, id);
      LiveBooks(s.accounts[id]);
      SumBounds(s.accounts[id].milestones);
    case RollBackMilestone(id, _, index) =>
      AccountAt(s, id);
      SettledMeansFunded(s.accounts[id], index);
    case ResolveDispute(id, _, _) =>
      AccountAt(s, id);
      ReserveNonNegative(s.accounts[id]);
    case _ =>
  }

  lemma ReservesCover(s: State, id: nat)
    requires Ok(s)
    ensures Total(Reserve, s.accounts) >= 0
    ensures id in s.accounts ==> Value(Reserve, s.accounts[id]) <= Total(Reserve, s.accounts)
  {
    hide Value, AccountOk;
    forall i | i in s.accounts ensures Value(Reserve, s.accounts[i]) >= 0 {
      AccountAt(s, i);
      ReserveNonNegative(s.accounts[i]);
    }
    TotalNonNegative(Reserve, s.accounts);
  }

  predicate PaysOut(cmd: Command) {
    cmd.Release? || cmd.Refund? || cmd.Cancel? || cmd.WithdrawFees?
  }

  /** None of the checks around the payment reports a short balance. */
  lemma ReleaseErrors(s: State, id: nat, caller: Address, index: nat)
    ensures Release.Releasable(s, id, caller, index) != Failure(TransferFailed)
    ensures Release.Releasable(s, id, caller, index).Success? ==>
              && id in s.accounts && s.accounts[id].contract.status == Funded
              && index < |s.accounts[id].milestones| && !Settled(s.accounts[id].milestones[index])
              && Release.Releasable(s, id, caller, index).value == s.accounts[id].milestones[index]
  {
  }

  lemma FundingErrors(s: State, c: Contract, gross: int)
    ensures Release.Funding(s, c, gross) != Failure(TransferFailed)
    ensures Release.Funding(s, c, gross).Success? ==> Fees.ReleaseFee(s.config, gross) == Release.Funding(s, c, gross)
  {
  }

  lemma BookErrors(s: State, c: Contract, fees: int, gross: int, fee: int, id: nat, a: Account)
    ensures Release.Book(c, fees, gross, fee) != Failure(TransferFailed)
    ensures Release.Complete(s, id, a) != Failure(TransferFailed)
  {
  }

  lemma ReleaseShort(s: State, id: nat, caller: Address, index: nat)
    requires Release.Release(s, id, caller, index) == Failure(TransferFailed)
    ensures id in s.accounts && s.accounts[id].contract.status == Funded
    ensures index < |s.accounts[id].milestones| && !Settled(s.accounts[id].milestones[index])
    ensures var m := s.accounts[id].milestones[index];
            && Fees.ReleaseFee(s.config, m.amount).Success?
            && var net := m.amount - Fees.ReleaseFee(s.config, m.amount).value;
               net < 0 || s.balance < net
  {
    hide Release.Releasable, Release.Funding, Release.Book, Release.Complete, MilestoneApprovals.Clear, Fees.ReleaseFee,
      Release.MarkReleased, Settled;
    ReleaseErrors(s, id, caller, index);
    var m := Release.Releasable(s, id, caller, index).value;
    var a := s.accounts[id];
    FundingErrors(s, a.contract, m.amount);
    var fee := Release.Funding(s, a.contract, m.amount).value;
    if 0 <= m.amount - fee <= s.balance {
      BookErrors(s, a.contract, s.fees, m.amount, fee, id, a);
      var books := Release.Book(a.contract, s.fees, m.amount, fee).value;
      BookErrors(MilestoneApprovals.Clear(s.(balance := s.balance - (m.amount - fee), fees := books.1), Slot(id, index)),
                 a.contract, s.fees, m.amount, fee, id,
                 Account(books.0, a.milestones[index := Release.MarkReleased(m, fee)]));
    }
  }

  lemma ReleaseCovered(s: State, id: nat, caller: Address, index: nat)
    requires Ok(s) && Solvent(s)
    ensures Release.Release(s, id, caller, index) != Failure(TransferFailed)
  {
    hide *;
    if Release.Release(s, id, caller, index) == Failure(TransferFailed) {
      ReleaseShort(s, id, caller, index);
      OkFacts(s);
      AccountAt(s, id);
      AmountPositive(s.accounts[id], index);
      ReleaseFeeOk(s, s.accounts[id].milestones[index].amount);
      AmountReserved(s.accounts[id], index);
      ReservesCover(s, id);
      SolventIs(s);
      assert false;
    }
  }

  lemma SolventIs(s: State)
    requires Solvent(s)
    ensures s.balance >= s.fees + Total(Reserve, s.accounts)
  {
  }

  lemma AmountReserved(a: Account, index: nat)
    requires AccountOk(a) && a.contract.status == Funded && index < |a.milestones| && !Settled(a.milestones[index])
    ensures a.milestones[index].amount <= Value(Reserve, a)
  {
    UnsettledCovered(a.milestones, index);
  }

  lemma RefundShort(s: State, id: nat, indices: seq<nat>)
    requires Refund.Refund(s, id, indices) == Failure(TransferFailed)
    requires AccountsOk(s.accounts)
    ensures Refund.RefundTotal(s, id, indices).Success?
    ensures s.balance < Refund.RefundTotal(s, id, indices).value
  {
    if Refund.RefundTotal(s, id, indices).Success? {
      RefundShape(s, id, indices);
    } else {
      RequestErrors(s.accounts[id].milestones, indices, s.clock.timestamp);
    }
  }

  lemma {:induction false} RequestErrors(ms: seq<Milestone>, indices: seq<nat>, now: nat)
    ensures Refund.Requested(ms, indices, now) != Failure(TransferFailed)
  {
    if indices != [] {
      RequestErrors(ms, indices[..|indices| - 1], now);
    }
  }

  lemma RefundCovered(s: State, id: nat, indices: seq<nat>)
    requires Ok(s) && Solvent(s)
    ensures Refund.Refund(s, id, indices) != Failure(TransferFailed)
  {
    hide *;
    if Refund.Refund(s, id, indices) == Failure(TransferFailed) {
      OkFacts(s);
      RefundShort(s, id, indices);
      RefundShape(s, id, indices);
      AccountAt(s, id);
      AfterRefundOk(s.accounts[id], indices, s.clock.timestamp, Refund.RefundTotal(s, id, indices).value);
      ReservesCover(s, id);
      SolventIs(s);
      assert false;
    }
  }

  lemma CancelShort(s: State, id: nat, caller: Address)
    requires Refund.Cancel(s, id, caller) == Failure(TransferFailed)
    ensures id in s.accounts && s.accounts[id].contract.releasedAmount == 0
    ensures s.accounts[id].contract.status == Created || s.accounts[id].contract.status == Funded
    ensures s.balance < Value(Claim, s.accounts[id])
  {
  }

  lemma CancelCovered(s: State, id: nat, caller: Address)
    requires Ok(s) && Solvent(s) && AllNetPaid(s.accounts)
    ensures Refund.Cancel(s, id, caller) != Failure(TransferFailed)
  {
    if Refund.Cancel(s, id, caller) == Failure(TransferFailed) {
      hide Ok, Refund.Cancel, AccountOk;
      CancelShort(s, id, caller);
      OkFacts(s);
      AccountAt(s, id);
      LiveBooks(s.accounts[id]);
      NothingReleased(s.accounts[id].milestones);
      ReservesCover(s, id);
      assert false;
    }
  }

  lemma WithdrawCovered(s: State, amount: int)
    requires Ok(s) && Solvent(s)
    ensures Fees.Withdraw(s, amount) != Failure(TransferFailed)
  {
    hide Ok;
    ReservesCover(s, 0);
  }

  /** In modest runs no release, refund, cancellation or fee withdrawal ever finds the balance short. */
  lemma NeverShort(clock: Clock, run: seq<Command>, cmd: Command)
    requires ModestRun(run) && PaysOut(cmd)
    ensures Step(After(Genesis(clock), run), cmd) != Failure(TransferFailed)
  {
    hide Ok, After, BooksAfter, ModestRun, AllNetPaid, Solvent, Clean, Release.Release, Refund.Refund, Refund.Cancel, Fees.Withdraw;
    SolventRun(clock, run);
    ModestRunSound(clock, run);
    var s := After(Genesis(clock), run);
    match cmd
    case Release(id, caller, index) => ReleaseCovered(s, id, caller, index);
    case Refund(id, indices) => RefundCovered(s, id, indices);
    case Cancel(id, caller) => CancelCovered(s, id, caller);
    case WithdrawFees(amount) => WithdrawCovered(s, amount);
  }
}
