/** Where every stroop is, in every run: two exact equations between the token balance, the fee pot and
    the contracts' books. */
module Books {
  import opened Results
  import opened Types
  import opened AccountInvariant
  import opened AccountSums
  import opened AccountSteps
  import opened LedgerInvariant
  import opened Protocol
  import opened StepsKeepInvariant
  import opened Effects
  import Dispute
  import Milestones
  import Refund
  import Release

  /** What has left the escrow's own accounting, added up over a run. */
  datatype Books = Books(
    withdrawn: int,      // fees paid out to the treasury
    rolledBack: int,     // payouts whose milestone was reset by `rollback_milestone`
    unpaid: int,         // payouts assigned by dispute resolutions, which move no token
    unrecovered: int,    // fees a rollback found already withdrawn
    cancelledFees: int,  // fees that a cancellation returned to the client as well
    stranded: int)       // reserve of contracts closed by a dispute resolution

  const EMPTY_BOOKS := Books(0, 0, 0, 0, 0, 0)

  function Plus(a: Books, b: Books): Books {
    Books(a.withdrawn + b.withdrawn, a.rolledBack + b.rolledBack, a.unpaid + b.unpaid,
          a.unrecovered + b.unrecovered, a.cancelledFees + b.cancelledFees, a.stranded + b.stranded)
  }

  /** What one successful call adds to the books. */
  function Posting(s: State, cmd: Command): Books {
    match cmd
    case WithdrawFees(amount) => EMPTY_BOOKS.(withdrawn := amount)
    case RollBackMilestone(id, _, index) =>
      if id in s.accounts && index < |s.accounts[id].milestones| then
        var m := s.accounts[id].milestones[index];
        if m.released
        then EMPTY_BOOKS.(rolledBack := m.amount - m.protocolFee,
                          unrecovered := if m.protocolFee <= s.fees then 0 else m.protocolFee)
        else EMPTY_BOOKS.(rolledBack := m.amount)
      else EMPTY_BOOKS
    case Cancel(id, _) =>
      if id in s.accounts
      then EMPTY_BOOKS.(cancelledFees := Milestones.Sum(Milestones.GrossReleased, s.accounts[id].milestones))
      else EMPTY_BOOKS
    case ResolveDispute(id, _, _) =>
      if id in s.accounts
      then EMPTY_BOOKS.(unpaid := Value(Claim, s.accounts[id]), stranded := Value(Reserve, s.accounts[id]))
      else EMPTY_BOOKS
    case _ => EMPTY_BOOKS
  }

  function BooksAfter(s: State, run: seq<Command>): Books {
    if run == [] then EMPTY_BOOKS else
    var before, last := run[..|run| - 1], run[|run| - 1];
    if Step(After(s, before), last).Success?
    then Plus(BooksAfter(s, before), Posting(After(s, before), last))
    else BooksAfter(s, before)
  }

  /** Tokens held, withdrawn or rolled back are what the contracts still claim plus unpaid resolutions. */
  ghost predicate Custody(s: State, b: Books) {
    s.balance + b.withdrawn + b.rolledBack == Total(Claim, s.accounts) + b.unpaid
  }

  /** Tokens held are the fee pot plus the reserves of the live contracts, up to four exact corrections. */
  ghost predicate Backing(s: State, b: Books) {
    s.balance + b.rolledBack + b.unrecovered + b.cancelledFees
    == s.fees + Total(Reserve, s.accounts) + b.stranded
  }

  // ---- one contract ----

  /** The call's posting accounts for the contract's new claim and reserve. */
  predicate Posts(s: State, cmd: Command, a: Account, b: Account) {
    var p := Posting(s, cmd);
    && BalanceMove(s, cmd) + p.withdrawn + p.rolledBack == Value(Claim, b) - Value(Claim, a) + p.unpaid
    && BalanceMove(s, cmd) + p.rolledBack + p.unrecovered + p.cancelledFees
       == FeesMove(s, cmd) + Value(Reserve, b) - Value(Reserve, a) + p.stranded
  }

  lemma ReleasePosts(s: State, id: nat, caller: Address, index: nat)
    requires Ok(s) && id in s.accounts && Enabled(s, Command.Release(id, caller, index), s.accounts[id])
    ensures Posts(s, Command.Release(id, caller, index), s.accounts[id],
                  AfterRelease(s.accounts[id], index, StepsKeepInvariant.ReleaseFee(s, id, index)))
  {
    AccountAt(s, id);
    hide Ok, StepsKeepInvariant.ReleaseFee, AccountOk, Milestones.AllSettled;
    var a, fee := s.accounts[id], StepsKeepInvariant.ReleaseFee(s, id, index);
    ReleaseValues(a, index, fee);
  }

  /** A release takes its net payment from the claim and its gross amount from the reserve. */
  lemma ReleaseValues(a: Account, index: nat, fee: int)
    requires AccountOk(a) && a.contract.status == Funded
    requires index < |a.milestones| && !Milestones.Settled(a.milestones[index])
    requires 0 <= fee <= a.milestones[index].amount
    ensures var b := AfterRelease(a, index, fee);
            && Value(Claim, b) == Value(Claim, a) - (a.milestones[index].amount - fee)
            && Value(Reserve, b) == Value(Reserve, a) - a.milestones[index].amount
  {
    ReleasedSums(a, index, fee);
    Milestones.SumBounds(Released(a, index, fee).milestones);
  }

  lemma RefundPosts(s: State, id: nat, indices: seq<nat>)
    requires Ok(s) && id in s.accounts && Enabled(s, Command.Refund(id, indices), s.accounts[id])
    ensures Posts(s, Command.Refund(id, indices), s.accounts[id],
                  AfterRefund(s.accounts[id], indices, Refund.RefundTotal(s, id, indices).value))
  {
    hide Ok, Refund.RefundTotal, AccountOk, AfterRefund, Value;
    RefundValues(s, id, indices);
  }

  lemma RefundValues(s: State, id: nat, indices: seq<nat>)
    requires Ok(s) && Refund.RefundTotal(s, id, indices).Success? && id in s.accounts
    ensures var a, total := s.accounts[id], Refund.RefundTotal(s, id, indices).value;
            var b := AfterRefund(a, indices, total);
            && Value(Claim, b) == Value(Claim, a) - total
            && Value(Reserve, b) == Value(Reserve, a) - total
  {
    hide *;
    OkFacts(s);
    AccountAt(s, id);
    RefundShape(s, id, indices);
    AfterRefundOk(s.accounts[id], indices, s.clock.timestamp, Refund.RefundTotal(s, id, indices).value);
  }

  /** Nothing released net means that every released milestone was charged its whole amount as a fee. */
  lemma CancelPosts(s: State, id: nat, caller: Address)
    requires Ok(s) && id in s.accounts && Enabled(s, Command.Cancel(id, caller), s.accounts[id])
    ensures Posts(s, Command.Cancel(id, caller), s.accounts[id], AfterCancel(s.accounts[id]))
  {
    AccountAt(s, id);
    LiveBooks(s.accounts[id]);
    hide Ok, AccountOk;
  }

  lemma RollBackPosts(s: State, id: nat, caller: Address, index: nat)
    requires Ok(s) && id in s.accounts && Enabled(s, RollBackMilestone(id, caller, index), s.accounts[id])
    ensures Posts(s, RollBackMilestone(id, caller, index), s.accounts[id], AfterRollBack(s.accounts[id], index))
  {
    AccountAt(s, id);
    OkFacts(s);
    var a := s.accounts[id];
    RollBackValues(a, index);
    hide Ok, AccountOk, AccountsOk, DisputesOk, Value, AfterRollBack;
  }

  lemma RollBackValues(a: Account, index: nat)
    requires AccountOk(a) && a.contract.status == Funded
    requires index < |a.milestones| && Milestones.Settled(a.milestones[index])
    ensures var m := a.milestones[index];
            && 0 <= m.protocolFee
            && Value(Claim, AfterRollBack(a, index))
               == Value(Claim, a) + (if m.released then m.amount - m.protocolFee else m.amount)
            && Value(Reserve, AfterRollBack(a, index)) == Value(Reserve, a) + m.amount
  {
    AfterRollBackOk(a, index);
  }

  lemma ResolvePosts(s: State, id: nat, caller: Address, resolution: Resolution)
    requires id in s.accounts && Enabled(s, ResolveDispute(id, caller, resolution), s.accounts[id])
    ensures Posts(s, ResolveDispute(id, caller, resolution), s.accounts[id],
                  Rewritten(s, ResolveDispute(id, caller, resolution), s.accounts[id]))
  {
    hide Dispute.Payouts;
  }

  lemma DepositPosts(s: State, id: nat, caller: Address, amount: int, funds: int)
    requires Ok(s) && id in s.accounts && Enabled(s, Command.Deposit(id, caller, amount, funds), s.accounts[id])
    ensures Posts(s, Command.Deposit(id, caller, amount, funds), s.accounts[id], AfterDeposit(s.accounts[id], amount))
  {
    AccountAt(s, id);
    AfterDepositOk(s.accounts[id], amount);
    hide Ok, AccountOk, AfterDeposit, Value;
  }

  predicate Relabels(cmd: Command) {
    cmd.RaiseDispute? || cmd.RollBackDispute? || cmd.AcceptMigration? || cmd.SetArbiter? || cmd.IssueReputation?
  }

  /** Changes of status or parties leave claim and reserve alone. */
  lemma LabelPosts(s: State, cmd: Command, id: nat)
    requires Target(s, cmd) == Some(id) && Relabels(cmd)
    requires id in s.accounts && Enabled(s, cmd, s.accounts[id])
    requires id in s.rollbacks ==> SnapshotOk(s.rollbacks[id])
    ensures Posts(s, cmd, s.accounts[id], Rewritten(s, cmd, s.accounts[id]))
  {
    hide AccountOk;
  }

  lemma MoneyPosts(s: State, cmd: Command, id: nat)
    requires Ok(s) && Target(s, cmd) == Some(id) && !cmd.Create? && !Relabels(cmd)
    requires id in s.accounts && Enabled(s, cmd, s.accounts[id])
    ensures Posts(s, cmd, s.accounts[id], Rewritten(s, cmd, s.accounts[id]))
  {
    hide Ok, Posts;
    match cmd
    case Deposit(_, caller, amount, funds) => DepositPosts(s, id, caller, amount, funds);
    case Release(_, caller, index) => ReleasePosts(s, id, caller, index);
    case Refund(_, indices) => RefundPosts(s, id, indices);
    case Cancel(_, caller) => CancelPosts(s, id, caller);
    case RollBackMilestone(_, caller, index) => RollBackPosts(s, id, caller, index);
    case ResolveDispute(_, caller, resolution) => ResolvePosts(s, id, caller, resolution);
  }

  /** Every rewrite of a contract is accounted for. */
  lemma RewritePosts(s: State, cmd: Command, id: nat)
    requires Ok(s) && Target(s, cmd) == Some(id) && !cmd.Create?
    requires id in s.accounts && Enabled(s, cmd, s.accounts[id])
    ensures Posts(s, cmd, s.accounts[id], Rewritten(s, cmd, s.accounts[id]))
  {
    hide *;
    if Relabels(cmd) {
      OkFacts(s);
      LabelPosts(s, cmd, id);
    } else {
      MoneyPosts(s, cmd, id);
    }
  }

  /** A new contract claims and reserves nothing. */
  lemma CreatePosts(client: Address, freelancer: Address, arbiter: Option<Address>,
                    amounts: seq<int>, mode: ReleaseAuthorization)
    ensures Value(Claim, FreshAccount(client, freelancer, arbiter, amounts, mode)) == 0
    ensures Value(Reserve, FreshAccount(client, freelancer, arbiter, amounts, mode)) == 0
  {
    FreshSums(amounts);
  }

  // ---- the whole store ----

  /** Balance and pots moved as `cmd` says, and one contract (or none) was rewritten accordingly. */
  lemma StoreBalances(s: State, cmd: Command, t: State, id: nat, b: Books)
    requires Custody(s, b) && Backing(s, b)
    requires t.balance == s.balance + BalanceMove(s, cmd) && t.fees == s.fees + FeesMove(s, cmd)
    requires id in t.accounts && t.accounts == s.accounts[id := t.accounts[id]]
    requires var p := Posting(s, cmd);
             && BalanceMove(s, cmd) + p.withdrawn + p.rolledBack
                == Value(Claim, t.accounts[id]) - ValueAt(Claim, s.accounts, id) + p.unpaid
             && BalanceMove(s, cmd) + p.rolledBack + p.unrecovered + p.cancelledFees
                == FeesMove(s, cmd) + Value(Reserve, t.accounts[id]) - ValueAt(Reserve, s.accounts, id) + p.stranded
    ensures Custody(t, Plus(b, Posting(s, cmd))) && Backing(t, Plus(b, Posting(s, cmd)))
  {
    hide BalanceMove, FeesMove, Posting, Value;
    TotalStore(Claim, s.accounts, id, t.accounts[id]);
    TotalStore(Reserve, s.accounts, id, t.accounts[id]);
  }

  lemma RewriteBalances(s: State, cmd: Command, t: State, id: nat, b: Books)
    requires Ok(s) && Moved(s, cmd, t) && Target(s, cmd) == Some(id) && !cmd.Create?
    requires Custody(s, b) && Backing(s, b)
    ensures Custody(t, Plus(b, Posting(s, cmd))) && Backing(t, Plus(b, Posting(s, cmd)))
  {
    hide Ok, Enabled, Rewritten, Posting, BalanceMove, FeesMove, Value, Target, Custody, Backing, Plus;
    RewritePosts(s, cmd, id);
    StoreBalances(s, cmd, t, id, b);
  }

  lemma IdleBalances(s: State, cmd: Command, t: State, b: Books)
    requires Moved(s, cmd, t) && Target(s, cmd).None? && Custody(s, b) && Backing(s, b)
    ensures Custody(t, Plus(b, Posting(s, cmd))) && Backing(t, Plus(b, Posting(s, cmd)))
  {
    hide Posting, BalanceMove, FeesMove, Target;
    UnwrittenPosts(s, cmd);
  }

  /** Every successful call keeps both equations. */
  lemma StepBalances(s: State, cmd: Command, b: Books)
    requires Ok(s) && Step(s, cmd).Success? && Custody(s, b) && Backing(s, b)
    ensures Custody(Step(s, cmd).value, Plus(b, Posting(s, cmd)))
    ensures Backing(Step(s, cmd).value, Plus(b, Posting(s, cmd)))
  {
    hide *;
    StepMoves(s, cmd);
    var t := Step(s, cmd).value;
    if Target(s, cmd).None? {
      IdleBalances(s, cmd, t, b);
    } else if cmd.Create? {
      CreateBalances(s, cmd, t, b);
    } else {
      RewriteBalances(s, cmd, t, Target(s, cmd).value, b);
    }
  }

  lemma CreateBalances(s: State, cmd: Command, t: State, b: Books)
    requires cmd.Create? && Moved(s, cmd, t) && Custody(s, b) && Backing(s, b)
    ensures Custody(t, Plus(b, Posting(s, cmd))) && Backing(t, Plus(b, Posting(s, cmd)))
  {
    hide FreshAccount, Value;
    CreatePosts(cmd.client, cmd.freelancer, cmd.arbiter, cmd.amounts, cmd.mode);
    StoreBalances(s, cmd, t, s.nextId, b);
  }

  lemma UnwrittenPosts(s: State, cmd: Command)
    requires Target(s, cmd).None?
    ensures BalanceMove(s, cmd) + Posting(s, cmd).withdrawn + Posting(s, cmd).rolledBack == Posting(s, cmd).unpaid
    ensures BalanceMove(s, cmd) + Posting(s, cmd).rolledBack + Posting(s, cmd).unrecovered
            + Posting(s, cmd).cancelledFees == FeesMove(s, cmd) + Posting(s, cmd).stranded
  {
  }

  /** The custody and backing equations hold after every run of a new escrow, rollbacks included. */
  lemma {:induction false} BooksBalance(clock: Clock, run: seq<Command>)
    ensures Custody(After(Genesis(clock), run), BooksAfter(Genesis(clock), run))
    ensures Backing(After(Genesis(clock), run), BooksAfter(Genesis(clock), run))
  {
    hide Ok, Step, Posting, Custody, Backing;
    if run == [] {
      GenesisBalanced(clock);
    } else {
      var before, last := run[..|run| - 1], run[|run| - 1];
      BooksBalance(clock, before);
      GenesisOk(clock);
      RunKeeps(Genesis(clock), before);
      if Step(After(Genesis(clock), before), last).Success? {
        StepBalances(After(Genesis(clock), before), last, BooksAfter(Genesis(clock), before));
      }
    }
  }

  lemma GenesisBalanced(clock: Clock)
    ensures Custody(Genesis(clock), EMPTY_BOOKS) && Backing(Genesis(clock), EMPTY_BOOKS)
  {
  }

  /** The balance equation of the documentation adds the fee pot to the contracts' claims, which already contain
      it. It holds exactly when resolutions left as much unpaid as was withdrawn, rolled back and kept as fees. */
  lemma DocumentedBalance(clock: Clock, run: seq<Command>)
    ensures var s, b := After(Genesis(clock), run), BooksAfter(Genesis(clock), run);
            s.balance == Total(Claim, s.accounts) + s.fees <==> b.unpaid == b.withdrawn + b.rolledBack + s.fees
  {
    hide After, BooksAfter;
    BooksBalance(clock, run);
  }

  // ---- one call ----

  /** What the balance holds beyond the fee pot and the reserves. */
  ghost function Slack(s: State): int {
    s.balance - s.fees - Total(Reserve, s.accounts)
  }

  /** How far the documented equation is off. */
  ghost function DocumentedGap(s: State): int {
    s.balance - Total(Claim, s.accounts) - s.fees
  }

  /** How one successful call moves both, in terms of the storage it is called in. */
  lemma StepSlack(s: State, cmd: Command)
    requires Ok(s) && Step(s, cmd).Success?
    ensures var p, t := Posting(s, cmd), Step(s, cmd).value;
            && Slack(t) == Slack(s) + p.stranded - p.rolledBack - p.unrecovered - p.cancelledFees
            && DocumentedGap(t) == DocumentedGap(s) + p.unpaid - p.withdrawn - p.rolledBack - FeesMove(s, cmd)
  {
    var b := EMPTY_BOOKS.(unpaid := s.balance - Total(Claim, s.accounts), stranded := Slack(s));
    hide Ok, Step, Posting, FeesMove;
    StepBalances(s, cmd, b);
    StepFees(s, cmd);
  }

  lemma StepFees(s: State, cmd: Command)
    requires Ok(s) && Step(s, cmd).Success?
    ensures Step(s, cmd).value.fees == s.fees + FeesMove(s, cmd)
  {
    hide Ok, Step, Framed, Target, FeesMove, BalanceMove, Enabled, Rewritten;
    StepMoves(s, cmd);
  }

  /** Where the documented equation holds, a release keeps it exactly if it charges no fee, and a cancellation
      always; a resolution keeps it exactly if nothing was left to distribute. */
  lemma DocumentedStep(s: State, cmd: Command, id: nat)
    requires Ok(s) && Step(s, cmd).Success? && DocumentedGap(s) == 0 && Target(s, cmd) == Some(id) && !cmd.Create?
    ensures id in s.accounts
    ensures cmd.Cancel? ==> DocumentedGap(Step(s, cmd).value) == 0
    ensures cmd.Release? ==> cmd.index < |s.accounts[id].milestones|
    ensures cmd.Release? ==>
              (DocumentedGap(Step(s, cmd).value) == 0 <==> StepsKeepInvariant.ReleaseFee(s, id, cmd.index) == 0)
    ensures cmd.ResolveDispute? ==>
              (DocumentedGap(Step(s, cmd).value) == 0 <==> Value(Claim, s.accounts[id]) == 0)
  {
    hide Ok, Step, DocumentedGap, Slack, Rewritten, Value, StepsKeepInvariant.ReleaseFee, Framed, BalanceMove;
    StepSlack(s, cmd);
    StepMoves(s, cmd);
    MovedAccounts(s, cmd, Step(s, cmd).value);
  }
}
