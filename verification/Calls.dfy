/** For every command, the exact condition under which it goes through. */
module Calls {
  import opened Results
  import opened Types
  import opened LedgerInvariant
  import opened MoneyCalls
  import opened Protocol
  import opened StepsKeepInvariant
  import ApprovalCalls
  import BatchSettlement
  import Creation
  import Deposit
  import Dispute
  import DisputeCalls
  import Fees
  import Finalize
  import MilestoneApprovals
  import Participants
  import PartyCalls
  import Ratings
  import Refund
  import Release
  import ReputationLedger

  ghost predicate Allowed(s: State, cmd: Command) {
    match cmd
    case Initialize(_) => !s.config.initialized
    case Govern(config) => config.feeBps <= 10_000
    case Tick(_, _) => true
    case Create(client, freelancer, arbiter, amounts, mode) =>
      Creatable(s, client, freelancer, arbiter, amounts, mode)
    case Deposit(id, caller, amount, payerFunds) => Depositable(s, id, caller, amount, payerFunds)
    case Approve(id, caller, index) => ApprovalCalls.Approvable(s, id, caller, index)
    case Revoke(id, caller, index) => ApprovalCalls.Revocable(s, id, caller, index)
    case Inspect(_, _) => true
    case Release(id, caller, index) => Payable(s, id, caller, index)
    case Refund(id, indices) => Reclaimable(s, id, indices)
    case Cancel(id, caller) => Cancellable(s, id, caller)
    case RollBackMilestone(id, caller, index) => Undoable(s, id, caller, index)
    case RaiseDispute(id, caller) => DisputeCalls.Raisable(s, id, caller)
    case ResolveDispute(id, caller, resolution) => DisputeCalls.Resolvable(s, id, caller, resolution)
    case RollBackDispute(id) => DisputeCalls.Withdrawable(s, id)
    case LoadDispute(id) => DisputeCalls.Loadable(s, id)
    case Finalize(id, caller) => DisputeCalls.Finalizable(s, id, caller)
    case FinalizeBatch(items) => Running(s) && 0 < |items| <= 10
    case Reopen(id, caller) => DisputeCalls.Reopenable(s, id, caller)
    case ProposeMigration(id, caller, proposed) => PartyCalls.Proposable(s, id, caller, proposed)
    case AcceptMigration(id, caller) => PartyCalls.Acceptable(s, id, caller)
    case CancelMigration(id, caller) => PartyCalls.Retractable(s, id, caller)
    case SetArbiter(id, caller, arbiter) => PartyCalls.ArbiterSettable(s, id, caller, arbiter)
    case IssueReputation(id, caller, rating, comment) => PartyCalls.Ratable(s, id, caller, rating, comment)
    case WithdrawFees(amount) => Drawable(s, amount)
  }

  lemma MoneyExactly(s: State, cmd: Command)
    requires Ok(s) && MovesMoney(cmd)
    ensures Step(s, cmd).Success? <==> Allowed(s, cmd)
  {
    hide Ok, Deposit.Deposit, Release.Release, Refund.Refund, Refund.Cancel, Release.RollBack, Fees.Withdraw,
         Depositable, Payable, Reclaimable, Cancellable, Undoable, Drawable;
    match cmd
    case Deposit(id, caller, amount, payerFunds) => DepositExactly(s, id, caller, amount, payerFunds);
    case Release(id, caller, index) => ReleaseCallExactly(s, id, caller, index);
    case Refund(id, indices) => RefundCallExactly(s, id, indices);
    case Cancel(id, caller) => CancelExactly(s, id, caller);
    case RollBackMilestone(id, caller, index) => UndoExactly(s, id, caller, index);
    case WithdrawFees(amount) => WithdrawExactly(s, amount);
  }

  lemma BatchAllowed(s: State, items: seq<SettlementItem>)
    requires Ok(s)
    ensures Finalize.Batch(s, items).Success? <==> Running(s) && 0 < |items| <= 10
  {
    BatchSettlement.BatchExactly(s, items);
    ApprovalCalls.Guards(s.config, Address(0));
    hide Ok, Finalize.Batch, BatchSettlement.Singles, RequireNotPaused;
  }

  lemma DisputesExactly(s: State, cmd: Command)
    requires Ok(s) && SettlesDispute(cmd)
    ensures Step(s, cmd).Success? <==> Allowed(s, cmd)
  {
    hide Ok, Dispute.Raise, Dispute.Resolve, Dispute.RollBack, Dispute.LoadMetadata, Finalize.Finalize, Finalize.Batch,
         Finalize.Reopen, DisputeCalls.Raisable, DisputeCalls.Resolvable, DisputeCalls.Withdrawable,
         DisputeCalls.Loadable, DisputeCalls.Finalizable, DisputeCalls.Reopenable, RequireNotPaused;
    match cmd
    case RaiseDispute(id, caller) => DisputeCalls.RaiseExactly(s, id, caller);
    case ResolveDispute(id, caller, resolution) => DisputeCalls.ResolveCallExactly(s, id, caller, resolution);
    case RollBackDispute(id) =>
      assert Dispute.RollBack(s, id).Success? <==> DisputeCalls.Withdrawable(s, id) by {
        DisputeCalls.RollBackDisputeExactly(s, id);
      }
    case LoadDispute(id) =>
      assert Dispute.LoadMetadata(s, id).Success? <==> DisputeCalls.Loadable(s, id) by {
        DisputeCalls.LoadExactly(s, id);
      }
    case Finalize(id, caller) => DisputeCalls.FinalizeExactly(s, id, caller);
    case FinalizeBatch(items) => BatchAllowed(s, items);
    case Reopen(id, caller) =>
      assert Finalize.Reopen(s, id, caller).Success? <==> DisputeCalls.Reopenable(s, id, caller) by {
        DisputeCalls.ReopenExactly(s, id, caller);
      }
  }

  lemma PartiesExactly(s: State, cmd: Command)
    requires Ok(s) && ManagesParties(cmd)
    ensures Step(s, cmd).Success? <==> Allowed(s, cmd)
  {
    hide Ok, Creation.Create, Participants.Propose, Participants.Accept, Participants.CancelMigration,
         Participants.SetArbiter, Ratings.Issue, Creatable, PartyCalls.Proposable, PartyCalls.Acceptable,
         PartyCalls.Retractable, PartyCalls.ArbiterSettable, PartyCalls.Ratable;
    match cmd
    case Create(client, freelancer, arbiter, amounts, mode) =>
      CreateExactly(s, client, freelancer, arbiter, amounts, mode);
    case ProposeMigration(id, caller, proposed) => PartyCalls.ProposeExactly(s, id, caller, proposed);
    case AcceptMigration(id, caller) => PartyCalls.AcceptLeaves(s, id, caller);
    case CancelMigration(id, caller) => PartyCalls.CancelMigrationExactly(s, id, caller);
    case SetArbiter(id, caller, arbiter) => PartyCalls.SetArbiterExactly(s, id, caller, arbiter);
    case IssueReputation(id, caller, rating, comment) => PartyCalls.IssueCallExactly(s, id, caller, rating, comment);
  }

  lemma OthersExactly(s: State, cmd: Command)
    requires !MovesMoney(cmd) && !SettlesDispute(cmd) && !ManagesParties(cmd)
    ensures Step(s, cmd).Success? <==> Allowed(s, cmd)
  {
    hide MilestoneApprovals.Approve, MilestoneApprovals.Revoke, MilestoneApprovals.Inspect, ApprovalCalls.Approvable,
         ApprovalCalls.Revocable;
    match cmd
    case Approve(id, caller, index) => ApprovalCalls.ApproveExactly(s, id, caller, index);
    case Revoke(id, caller, index) => ApprovalCalls.RevokeExactly(s, id, caller, index);
    case _ =>
  }

  /** Every call goes through exactly when its condition, read from the storage before it, holds. */
  lemma StepExactly(s: State, cmd: Command)
    requires Ok(s)
    ensures Step(s, cmd).Success? <==> Allowed(s, cmd)
  {
    hide Ok, Step, Allowed;
    if MovesMoney(cmd) {
      MoneyExactly(s, cmd);
    } else if SettlesDispute(cmd) {
      DisputesExactly(s, cmd);
    } else if ManagesParties(cmd) {
      PartiesExactly(s, cmd);
    } else {
      OthersExactly(s, cmd);
    }
  }
}
