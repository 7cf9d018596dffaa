/** Calls and whole runs on the contract object: they follow the state machine step by step, so every theorem
    about runs of the state machine is a theorem about the object. */
module EscrowRuns {
  import opened Results
  import opened Types
  import opened EscrowContract
  import opened EscrowOutcomes
  import opened LedgerInvariant
  import opened Protocol
  import Calls
  import Creation
  import Deposit
  import Dispute
  import Fees
  import Finalize
  import MilestoneApprovals
  import Participants
  import Ratings
  import Refund
  import Release
  import Solvency
  import StepsKeepInvariant

  method Money(escrow: Escrow, cmd: Command) returns (error: Option<Error>)
    requires escrow.Valid() && StepsKeepInvariant.MovesMoney(cmd)
    modifies escrow
    ensures Outcome(old(escrow.Snapshot()), Step(old(escrow.Snapshot()), cmd), error, escrow.Snapshot())
    ensures escrow.Valid()
  {
    hide Ok, Outcome, Deposit.Deposit, Release.Release, Refund.Refund, Refund.Cancel, Release.RollBack, Fees.Withdraw;
    match cmd
    case Deposit(id, caller, amount, funds) => error := escrow.DepositFunds(id, caller, amount, funds);
    case Release(id, caller, index) => error := escrow.ReleaseMilestone(id, caller, index);
    case Refund(id, indices) => var total; error, total := escrow.RefundMilestones(id, indices);
    case Cancel(id, caller) => error := escrow.CancelContract(id, caller);
    case RollBackMilestone(id, caller, index) => error := escrow.RollBackMilestone(id, caller, index);
    case WithdrawFees(amount) => error := escrow.WithdrawFees(amount);
  }

  method Disputes(escrow: Escrow, cmd: Command) returns (error: Option<Error>)
    requires escrow.Valid() && StepsKeepInvariant.SettlesDispute(cmd)
    modifies escrow
    ensures Outcome(old(escrow.Snapshot()), Step(old(escrow.Snapshot()), cmd), error, escrow.Snapshot())
    ensures escrow.Valid()
  {
    hide Ok, Dispute.Raise, Dispute.Resolve, Dispute.RollBack, Dispute.LoadMetadata, Finalize.Finalize,
      Finalize.Batch, Finalize.Reopen;
    match cmd
    case RaiseDispute(id, caller) => error := escrow.RaiseDispute(id, caller);
    case ResolveDispute(id, caller, resolution) => error := escrow.ResolveDispute(id, caller, resolution);
    case RollBackDispute(id) => error := escrow.RollBackDispute(id);
    case LoadDispute(id) => var r := escrow.LoadDisputeMetadata(id); error := ErrorOf(r);
    case Finalize(id, caller) => error := escrow.FinalizeContract(id, caller);
    case FinalizeBatch(items) => var r := escrow.FinalizeContractsBatch(items); error := ErrorOf(r);
    case Reopen(id, caller) => error := escrow.ReopenContract(id, caller);
  }

  function ErrorOf<T>(r: Result<T, Error>): Option<Error> {
    if r.Failure? then Some(r.error) else None
  }

  method Parties(escrow: Escrow, cmd: Command) returns (error: Option<Error>)
    requires escrow.Valid() && StepsKeepInvariant.ManagesParties(cmd)
    modifies escrow
    ensures Outcome(old(escrow.Snapshot()), Step(old(escrow.Snapshot()), cmd), error, escrow.Snapshot())
    ensures escrow.Valid()
  {
    hide Ok, Outcome, Creation.Create, Participants.Propose, Participants.Accept, Participants.CancelMigration,
      Participants.SetArbiter, Ratings.Issue;
    match cmd
    case Create(client, freelancer, arbiter, amounts, mode) =>
      var id; error, id := escrow.CreateContract(client, freelancer, arbiter, amounts, mode);
    case ProposeMigration(id, caller, proposed) => error := escrow.ProposeMigration(id, caller, proposed);
    case AcceptMigration(id, caller) => error := escrow.AcceptMigration(id, caller);
    case CancelMigration(id, caller) => error := escrow.CancelMigration(id, caller);
    case SetArbiter(id, caller, arbiter) => error := escrow.SetArbiter(id, caller, arbiter);
    case IssueReputation(id, caller, rating, comment) => error := escrow.IssueReputation(id, caller, rating, comment);
  }

  method Others(escrow: Escrow, cmd: Command) returns (error: Option<Error>)
    requires escrow.Valid()
    requires !StepsKeepInvariant.MovesMoney(cmd) && !StepsKeepInvariant.SettlesDispute(cmd)
             && !StepsKeepInvariant.ManagesParties(cmd)
    modifies escrow
    ensures Outcome(old(escrow.Snapshot()), Step(old(escrow.Snapshot()), cmd), error, escrow.Snapshot())
    ensures escrow.Valid()
  {
    hide Ok, Creation.Initialize, Creation.Govern, Creation.Tick, MilestoneApprovals.Approve, MilestoneApprovals.Revoke,
      MilestoneApprovals.Inspect;
    match cmd
    case Initialize(admin) => error := escrow.Initialize(admin);
    case Govern(settings) => error := escrow.Govern(settings);
    case Tick(ledgers, seconds) => escrow.Tick(ledgers, seconds); error := None;
    case Approve(id, caller, index) => error := escrow.ApproveMilestone(id, caller, index);
    case Revoke(id, caller, index) => error := escrow.RevokeApproval(id, caller, index);
    case Inspect(id, index) => var _ := escrow.GetMilestoneApprovals(id, index); error := None;
  }

  /** One call, whichever it is: it goes through exactly when it is allowed, and does what the step says. */
  method Call(escrow: Escrow, cmd: Command) returns (error: Option<Error>)
    requires escrow.Valid()
    modifies escrow
    ensures Outcome(old(escrow.Snapshot()), Step(old(escrow.Snapshot()), cmd), error, escrow.Snapshot())
    ensures error.None? <==> Calls.Allowed(old(escrow.Snapshot()), cmd)
    ensures escrow.Valid()
  {
    Calls.StepExactly(escrow.Snapshot(), cmd);
    OutcomeIs(escrow.Snapshot(), Step(escrow.Snapshot(), cmd));
    hide Ok, Outcome, Step, Calls.Allowed;
    if StepsKeepInvariant.MovesMoney(cmd) {
      error := Money(escrow, cmd);
    } else if StepsKeepInvariant.SettlesDispute(cmd) {
      error := Disputes(escrow, cmd);
    } else if StepsKeepInvariant.ManagesParties(cmd) {
      error := Parties(escrow, cmd);
    } else {
      error := Others(escrow, cmd);
    }
  }

  /** A sequence of calls leaves the object in the state the run reaches, whatever fails on the way. */
  method CallAll(escrow: Escrow, run: seq<Command>)
    requires escrow.Valid()
    modifies escrow
    ensures escrow.Snapshot() == After(old(escrow.Snapshot()), run)
    ensures escrow.Valid()
  {
    ghost var s := escrow.Snapshot();
    assert run[..0] == [];
    for i := 0 to |run|
      invariant escrow.Valid() && escrow.Snapshot() == After(s, run[..i])
    {
      hide Ok, Step;
      assert run[..i + 1][..i] == run[..i];
      var _ := Call(escrow, run[i]);
    }
    assert run[..|run|] == run;
  }

  /** A new object after any modest run covers its fees and reserves, and pays whoever the next call pays. */
  method SolventObject(clock: Clock, run: seq<Command>, cmd: Command) returns (escrow: Escrow, error: Option<Error>)
    requires Solvency.ModestRun(run) && Solvency.PaysOut(cmd)
    ensures fresh(escrow) && escrow.Valid()
    ensures error != Some(TransferFailed)
  {
    escrow := new Escrow(clock);
    CallAll(escrow, run);
    Solvency.NeverShort(clock, run, cmd);
    hide Ok, Step, After;
    error := Call(escrow, cmd);
  }
}
