/** The contract life cycle: what each status implies, which moves exist, and what is final. */
module StatusMachine {
  import opened Results
  import opened Types
  import opened AccountInvariant
  import opened AccountSums
  import opened AccountSteps
  import opened LedgerInvariant
  import opened Milestones
  import opened Protocol
  import opened StepsKeepInvariant
  import opened Effects
  import Dispute
  import Refund
  import Release

  // ---- what a status implies ----

  /** In every run: how the status, the funding and the milestones of each contract hang together. */
  lemma StatusImplies(clock: Clock, run: seq<Command>, id: nat)
    requires id in After(Genesis(clock), run).accounts
    ensures var a := After(Genesis(clock), run).accounts[id];
            var c, ms := a.contract, a.milestones;
            && c.totalDeposited == c.fundedAmount <= Sum(Amount, ms)
            && (c.status == Created ==> c.fundedAmount == 0 && NoneSettled(ms))
            && (c.status == PartiallyFunded ==> 0 < c.fundedAmount < Sum(Amount, ms) && NoneSettled(ms))
            && (c.status == Funded ==> c.fundedAmount == Sum(Amount, ms) && !AllSettled(ms))
            && (!Terminal(c.status) ==> TotalsMatch(a))
            && c.status != Accepted
  {
    GenesisOk(clock);
    RunKeeps(Genesis(clock), run);
    AccountAt(After(Genesis(clock), run), id);
    hide Ok, After;
  }

  /** No milestone is both released and refunded; an unreleased one carries no fee and no funded amount. */
  lemma FlagsExclusive(clock: Clock, run: seq<Command>, id: nat, k: nat)
    requires id in After(Genesis(clock), run).accounts
    requires k < |After(Genesis(clock), run).accounts[id].milestones|
    ensures var m := After(Genesis(clock), run).accounts[id].milestones[k];
            && !(m.released && m.refunded)
            && (m.released ==> m.fundedAmount == m.amount && 0 <= m.protocolFee <= m.amount)
            && (!m.released ==> m.fundedAmount == 0 && m.protocolFee == 0)
            && m.refundedAmount == if m.refunded then m.amount else 0
  {
    GenesisOk(clock);
    RunKeeps(Genesis(clock), run);
    AccountAt(After(Genesis(clock), run), id);
    hide Ok, After;
  }

  // ---- moves ----

  /** The status moves that successful calls can make. */
  predicate Move(from: Status, to: Status) {
    match from
    case Created => to == PartiallyFunded || to == Funded || to == Cancelled
    case PartiallyFunded => to == Funded || to == Disputed
    case Funded => to == Disputed || to == Completed || to == Refunded || to == Cancelled
    case Disputed => to == Funded || to == PartiallyFunded || to == Completed || to == Refunded
    case _ => false
  }

  lemma SnapshotStatus(s: State, id: nat)
    requires Ok(s) && id in s.rollbacks
    ensures s.rollbacks[id].contract.status == Funded || s.rollbacks[id].contract.status == PartiallyFunded
  {
  }

  lemma RewriteMoves(s: State, cmd: Command, a: Account)
    requires Ok(s) && Enabled(s, cmd, a)
    ensures a.contract.status == Rewritten(s, cmd, a).contract.status
            || Move(a.contract.status, Rewritten(s, cmd, a).contract.status)
  {
    if cmd.RollBackDispute? {
      SnapshotStatus(s, cmd.id);
    }
    hide Ok, AllSettled, AllRefunded, StepsKeepInvariant.ReleaseFee, Refund.RefundTotal, Dispute.Payouts;
  }

  /** Every successful call leaves a contract's status alone or makes one of the listed moves. */
  lemma StatusMoves(s: State, cmd: Command, id: nat)
    requires Ok(s) && id in s.accounts
    ensures id in Exec(s, cmd).accounts
    ensures var from, to := s.accounts[id].contract.status, Exec(s, cmd).accounts[id].contract.status;
            from == to || Move(from, to)
  {
    hide Ok, Step, Enabled, Rewritten, Move, Moved, Framed, Target;
    if Step(s, cmd).Success? {
      StepMoves(s, cmd);
      MovedAccounts(s, cmd, Step(s, cmd).value);
      if Target(s, cmd) == Some(id) && !cmd.Create? {
        RewriteMoves(s, cmd, s.accounts[id]);
      } else if cmd.Create? {
        assert id != s.nextId;
      }
    }
  }

  // ---- final states ----

  /** What a closed contract never changes again. */
  predicate SameBooks(a: Account, b: Account) {
    && b.milestones == a.milestones
    && b.contract.status == a.contract.status
    && b.contract.totalDeposited == a.contract.totalDeposited
    && b.contract.fundedAmount == a.contract.fundedAmount
    && b.contract.releasedAmount == a.contract.releasedAmount
    && b.contract.refundedAmount == a.contract.refundedAmount
    && b.contract.client == a.contract.client
    && b.contract.freelancer == a.contract.freelancer
  }

  lemma RewriteFinal(s: State, cmd: Command, a: Account)
    requires Enabled(s, cmd, a) && Terminal(a.contract.status)
    ensures SameBooks(a, Rewritten(s, cmd, a))
  {
    hide StepsKeepInvariant.ReleaseFee, Refund.RefundTotal, Dispute.Payouts;
  }

  lemma FinalStep(s: State, cmd: Command, id: nat)
    requires Ok(s) && id in s.accounts && Terminal(s.accounts[id].contract.status)
    ensures id in Exec(s, cmd).accounts && SameBooks(s.accounts[id], Exec(s, cmd).accounts[id])
  {
    hide Ok, Step, Enabled, Rewritten, Moved, Framed, Target;
    if Step(s, cmd).Success? {
      StepMoves(s, cmd);
      MovedAccounts(s, cmd, Step(s, cmd).value);
      if Target(s, cmd) == Some(id) && !cmd.Create? {
        RewriteFinal(s, cmd, s.accounts[id]);
      } else if cmd.Create? {
        assert id != s.nextId;
      }
    }
  }

  /** Completed, Cancelled and Refunded are absorbing: no run changes status, totals, milestones or parties. */
  lemma {:induction false} FinalForever(s: State, run: seq<Command>, id: nat)
    requires Ok(s) && id in s.accounts && Terminal(s.accounts[id].contract.status)
    ensures id in After(s, run).accounts && SameBooks(s.accounts[id], After(s, run).accounts[id])
  {
    hide Ok, Exec;
    if run != [] {
      var before := run[..|run| - 1];
      FinalForever(s, before, id);
      RunKeeps(s, before);
      FinalStep(After(s, before), run[|run| - 1], id);
    }
  }

  // ---- how contracts close ----

  /** How a call that closes a contract leaves its books. */
  predicate ClosedBy(cmd: Command, b: Account) {
    var c, ms := b.contract, b.milestones;
    match cmd
    case Release(_, _, _) =>
      c.status == Completed && c.refundedAmount < c.fundedAmount && AllSettled(ms)
      && c.releasedAmount + c.refundedAmount + Sum(Fee, ms) == c.fundedAmount
    case Refund(_, _) =>
      && AllSettled(ms)
      && c.releasedAmount + c.refundedAmount + Sum(Fee, ms) == c.fundedAmount
      && (c.status == Refunded <==> c.refundedAmount == c.fundedAmount)
      && (c.status == Refunded ==> c.releasedAmount == 0)
    case Cancel(_, _) => c.status == Cancelled && c.refundedAmount == c.fundedAmount && c.releasedAmount == 0
    case ResolveDispute(_, _, _) =>
      && c.releasedAmount + c.refundedAmount == c.fundedAmount
      && (c.status == Refunded <==> c.refundedAmount == c.fundedAmount)
      && (c.status == Refunded ==> c.releasedAmount == 0)
    case _ => false
  }

  lemma ReleaseCloses(s: State, id: nat, caller: Address, index: nat, a: Account)
    requires Enabled(s, Command.Release(id, caller, index), a)
    requires AccountOk(a) && AccountOk(AfterRelease(a, index, StepsKeepInvariant.ReleaseFee(s, id, index)))
    ensures var b := AfterRelease(a, index, StepsKeepInvariant.ReleaseFee(s, id, index));
            Terminal(b.contract.status) ==> ClosedBy(Command.Release(id, caller, index), b)
  {
    var fee := StepsKeepInvariant.ReleaseFee(s, id, index);
    ReleasedSums(a, index, fee);
    SumBounds(Released(a, index, fee).milestones);
    hide StepsKeepInvariant.ReleaseFee;
  }

  lemma RefundCloses(s: State, id: nat, indices: seq<nat>, a: Account, b: Account)
    requires Enabled(s, Command.Refund(id, indices), a) && AccountOk(a) && AccountOk(b)
    requires id in s.accounts && s.accounts[id] == a && AccountsOk(s.accounts)
    requires b == AfterRefund(a, indices, Refund.RefundTotal(s, id, indices).value)
    ensures Terminal(b.contract.status) ==> ClosedBy(Command.Refund(id, indices), b)
  {
    RefundShape(s, id, indices);
    var total := Refund.RefundTotal(s, id, indices).value;
    RefundKeeps(a, indices, s.clock.timestamp);
    RequestedSums(a.milestones, indices, s.clock.timestamp);
    LiveBooks(a);
    hide Refund.RefundTotal, Refund.Requested, AccountsOk;
    SumBounds(RefundedAccount(a, indices, total).milestones);
  }

  lemma OtherCloses(s: State, cmd: Command, a: Account)
    requires Enabled(s, cmd, a) && AccountOk(a) && AccountOk(Rewritten(s, cmd, a))
    requires !Terminal(a.contract.status) && Terminal(Rewritten(s, cmd, a).contract.status)
    requires !cmd.Release? && !cmd.Refund? && !cmd.RollBackDispute?
    ensures ClosedBy(cmd, Rewritten(s, cmd, a))
  {
    BooksBounded(a);
    BooksBounded(Rewritten(s, cmd, a));
    hide AccountOk, Sum, AllSettled, AllRefunded, Dispute.Payouts;
  }

  /** Settlement by every route: a contract is closed only by a release, a refund, a cancellation or a
      resolution, and each leaves the books fully distributed in its own way. */
  lemma Closes(s: State, cmd: Command, id: nat)
    requires Ok(s) && id in s.accounts && !Terminal(s.accounts[id].contract.status)
    requires id in Exec(s, cmd).accounts && Terminal(Exec(s, cmd).accounts[id].contract.status)
    ensures ClosedBy(cmd, Exec(s, cmd).accounts[id])
  {
    hide Ok, Step, Enabled, Rewritten, Moved, Framed, Target, AccountOk, ClosedBy;
    StepKeeps(s, cmd);
    OkFacts(s);
    AccountAt(s, id);
    AccountAt(Exec(s, cmd), id);
    if Step(s, cmd).Success? {
      StepMoves(s, cmd);
      MovedAccounts(s, cmd, Step(s, cmd).value);
      RewriteCloses(s, cmd, id);
    }
  }

  lemma RewriteCloses(s: State, cmd: Command, id: nat)
    requires Ok(s) && id in s.accounts && !Terminal(s.accounts[id].contract.status)
    requires Target(s, cmd) == Some(id) && !cmd.Create? && Enabled(s, cmd, s.accounts[id])
    requires AccountOk(Rewritten(s, cmd, s.accounts[id]))
    requires Terminal(Rewritten(s, cmd, s.accounts[id]).contract.status)
    ensures ClosedBy(cmd, Rewritten(s, cmd, s.accounts[id]))
  {
    OkFacts(s);
    AccountAt(s, id);
    hide Ok, AccountOk, AccountsOk, ClosedBy, Enabled;
    if cmd.Release? {
      ReleaseCloses(s, id, cmd.caller, cmd.index, s.accounts[id]);
    } else if cmd.Refund? {
      RefundCloses(s, id, cmd.indices, s.accounts[id], Rewritten(s, cmd, s.accounts[id]));
    } else if cmd.RollBackDispute? {
      assert false by { SnapshotBack(s, cmd, id); }
    } else {
      OtherCloses(s, cmd, s.accounts[id]);
    }
  }

  lemma SnapshotBack(s: State, cmd: Command, id: nat)
    requires Ok(s) && cmd.RollBackDispute? && id in s.accounts && Enabled(s, cmd, s.accounts[id])
    ensures !Terminal(Rewritten(s, cmd, s.accounts[id]).contract.status)
  {
    SnapshotStatus(s, cmd.id);
    hide Ok;
  }

  /** In every run: where the money of a closed contract went. */
  lemma TerminalBooks(clock: Clock, run: seq<Command>, id: nat)
    requires id in After(Genesis(clock), run).accounts
    ensures var a := After(Genesis(clock), run).accounts[id];
            var c := a.contract;
            && (c.status == Cancelled || c.status == Refunded ==> c.refundedAmount == c.fundedAmount && c.releasedAmount == 0)
            && (c.status == Completed ==>
                  && c.refundedAmount < c.fundedAmount
                  && (|| c.releasedAmount + c.refundedAmount == c.fundedAmount
                      || (AllSettled(a.milestones)
                          && c.releasedAmount + c.refundedAmount + Sum(Fee, a.milestones) == c.fundedAmount)))
  {
    GenesisOk(clock);
    RunKeeps(Genesis(clock), run);
    AccountAt(After(Genesis(clock), run), id);
    hide Ok, After;
  }

  // ---- milestone rollback ----

  /** The subtractions of a rollback never fail: it succeeds exactly when the admin asks for a settled milestone
      of a funded, unfinalized contract. */
  lemma RollBackExactly(s: State, id: nat, admin: Address, index: nat)
    requires Ok(s)
    ensures Release.RollBack(s, id, admin, index).Success? <==>
              && RequireInitialized(s.config).Holds? && RequireNotPaused(s.config).Holds?
              && RequireAdmin(s.config, admin).Holds?
              && id in s.accounts && id !in s.finalizations
              && s.accounts[id].contract.status == Funded
              && index < |s.accounts[id].milestones| && Settled(s.accounts[id].milestones[index])
    ensures Release.RollBack(s, id, admin, index) != Failure(AccountingInvariantViolated)
  {
    hide Ok, AccountOk, RequireInitialized, RequireNotPaused, RequireAdmin;
    if id in s.accounts && index < |s.accounts[id].milestones| {
      AccountAt(s, id);
      var a := s.accounts[id];
      if Settled(a.milestones[index]) && (a.contract.status == Funded || a.contract.status == PartiallyFunded) {
        SettledMeansFunded(a, index);
        AfterRollBackOk(a, index);
      }
    }
    GuardErrors(s.config, admin);
  }

  lemma GuardErrors(config: Config, admin: Address)
    ensures RequireInitialized(config) != Aborts(AccountingInvariantViolated)
    ensures RequireNotPaused(config) != Aborts(AccountingInvariantViolated)
    ensures RequireAdmin(config, admin) != Aborts(AccountingInvariantViolated)
  {
  }

  // ---- refusals ----

  /** A contract without deposits cannot be refunded. */
  lemma NoRefundFromCreated(clock: Clock, run: seq<Command>, id: nat, indices: seq<nat>)
    requires id in After(Genesis(clock), run).accounts
    requires After(Genesis(clock), run).accounts[id].contract.status == Created
    ensures Step(After(Genesis(clock), run), Command.Refund(id, indices)).Failure?
  {
    hide *;
    GenesisOk(clock);
    RunKeeps(Genesis(clock), run);
    var s := After(Genesis(clock), run);
    OkFacts(s);
    RefundStep(s, id, indices);
    if Refund.RefundTotal(s, id, indices).Success? {
      RefundShape(s, id, indices);
    }
  }

  lemma RefundStep(s: State, id: nat, indices: seq<nat>)
    ensures Step(s, Command.Refund(id, indices)).Success? ==> Refund.RefundTotal(s, id, indices).Success?
  {
    hide Refund.RefundTotal, Refund.Complete;
  }
}
