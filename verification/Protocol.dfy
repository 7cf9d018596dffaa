/** The escrow as a state machine: every entrypoint is a command, a run is a sequence of commands. */
module Protocol {
  import opened Results
  import opened Types
  import Creation
  import Deposit
  import MilestoneApprovals
  import Release
  import Refund
  import Dispute
  import Finalize
  import Participants
  import Ratings
  import Fees

  datatype Command =
    | Initialize(admin: Address)
    | Govern(config: Config)
    | Tick(ledgers: nat, seconds: nat)
    | Create(client: Address, freelancer: Address, arbiter: Option<Address>,
             amounts: seq<int>, mode: ReleaseAuthorization)
    | Deposit(id: nat, caller: Address, amount: int, payerFunds: int)
    | Approve(id: nat, caller: Address, index: nat)
    | Revoke(id: nat, caller: Address, index: nat)
    | Inspect(id: nat, index: nat)
    | Release(id: nat, caller: Address, index: nat)
    | Refund(id: nat, indices: seq<nat>)
    | Cancel(id: nat, caller: Address)
    | RollBackMilestone(id: nat, caller: Address, index: nat)
    | RaiseDispute(id: nat, caller: Address)
    | ResolveDispute(id: nat, caller: Address, resolution: Resolution)
    | RollBackDispute(id: nat)
    | LoadDispute(id: nat)
    | Finalize(id: nat, caller: Address)
    | FinalizeBatch(items: seq<SettlementItem>)
    | Reopen(id: nat, caller: Address)
    | ProposeMigration(id: nat, caller: Address, proposed: Address)
    | AcceptMigration(id: nat, caller: Address)
    | CancelMigration(id: nat, caller: Address)
    | SetArbiter(id: nat, caller: Address, arbiter: Option<Address>)
    | IssueReputation(id: nat, caller: Address, rating: nat, comment: string)
    | WithdrawFees(amount: int)

  /** The outcome of one call. */
  function Step(s: State, cmd: Command): Result<State, Error> {
    match cmd
    case Initialize(admin) => Creation.Initialize(s, admin)
    case Govern(config) => Creation.Govern(s, config)
    case Tick(ledgers, seconds) => Success(Creation.Tick(s, ledgers, seconds))
    case Create(client, freelancer, arbiter, amounts, mode) =>
      Creation.Create(s, client, freelancer, arbiter, amounts, mode)
    case Deposit(id, caller, amount, payerFunds) => Deposit.Deposit(s, id, caller, amount, payerFunds)
    case Approve(id, caller, index) => MilestoneApprovals.Approve(s, id, caller, index)
    case Revoke(id, caller, index) => MilestoneApprovals.Revoke(s, id, caller, index)
    case Inspect(id, index) => Success(MilestoneApprovals.Inspect(s, Slot(id, index)))
    case Release(id, caller, index) => Release.Release(s, id, caller, index)
    case Refund(id, indices) => Refund.Refund(s, id, indices)
    case Cancel(id, caller) => Refund.Cancel(s, id, caller)
    case RollBackMilestone(id, caller, index) => Release.RollBack(s, id, caller, index)
    case RaiseDispute(id, caller) => Dispute.Raise(s, id, caller)
    case ResolveDispute(id, caller, resolution) => Dispute.Resolve(s, id, caller, resolution)
    case RollBackDispute(id) => Dispute.RollBack(s, id)
    case LoadDispute(id) => var r :- Dispute.LoadMetadata(s, id); Success(r.0)
    case Finalize(id, caller) => Finalize.Finalize(s, id, caller)
    case FinalizeBatch(items) => var r :- Finalize.Batch(s, items); Success(r.0)
    case Reopen(id, caller) => Finalize.Reopen(s, id, caller)
    case ProposeMigration(id, caller, proposed) => Participants.Propose(s, id, caller, proposed)
    case AcceptMigration(id, caller) => Participants.Accept(s, id, caller)
    case CancelMigration(id, caller) => Participants.CancelMigration(s, id, caller)
    case SetArbiter(id, caller, arbiter) => Participants.SetArbiter(s, id, caller, arbiter)
    case IssueReputation(id, caller, rating, comment) => Ratings.Issue(s, id, caller, rating, comment)
    case WithdrawFees(amount) => Fees.Withdraw(s, amount)
  }

  /** A call that aborts leaves no trace. */
  function Exec(s: State, cmd: Command): State {
    var r := Step(s, cmd);
    if r.Success? then r.value else s
  }

  /** The state after a run. */
  function After(s: State, run: seq<Command>): State {
    if run == [] then s else Exec(After(s, run[..|run| - 1]), run[|run| - 1])
  }
}
