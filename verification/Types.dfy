/** Domain types and storage layout of the escrow (`types.rs`, `finalize.rs`, `migration.rs`, `ttl.rs`). */
module Types {
  import opened Results

  // Limits and scaling constants.
  const U32_MAX: int := 0xFFFF_FFFF
  const I128_MAX: int := 0x7FFF_FFFF_FFFF_FFFF_FFFF_FFFF_FFFF_FFFF
  const I128_MIN: int := -0x8000_0000_0000_0000_0000_0000_0000_0000
  const MAX_SINGLE_AMOUNT: int := 100_000_000_000_000_000
  const MAX_MILESTONES: int := 10
  const MAX_BATCH_SETTLEMENT: int := 10
  const INITIAL_CONTRACT_ID: nat := 1
  const BPS_DENOMINATOR: int := 10_000
  const PARTIAL_REFUND_FREELANCER_SHARE: int := 30
  const PARTIAL_REFUND_DENOMINATOR: int := 100
  const MIN_RATING: int := 1
  const MAX_RATING: int := 5
  const MAX_COMMENT_BYTES: int := 200
  const RATING_SCALE: int := 10_000

  // Lifetimes of temporary entries, in ledgers.
  const LEDGERS_PER_DAY: nat := 17_280
  const APPROVAL_TTL: nat := LEDGERS_PER_DAY * 7
  const APPROVAL_BUMP_THRESHOLD: nat := LEDGERS_PER_DAY
  const MIGRATION_TTL: nat := LEDGERS_PER_DAY * 21

  datatype Address = Address(key: nat)

  /** `TransferFailed` and `ArithmeticTrap` are raised by the host: a token transfer that the
      payer cannot cover, and an unchecked i128 operation that leaves its range. */
  datatype Error =
    | InvalidParticipant | EmptyMilestones | InvalidMilestoneAmount | InvalidDepositAmount
    | ContractNotFound | EmptyRefundRequest | DuplicateMilestoneInRefund
    | AlreadyReleased | AlreadyRefunded | InsufficientFunds | AlreadyInitialized
    | InsufficientAccumulatedFees | NotInitialized | UnauthorizedRole | ContractPaused
    | EmergencyActive | InvalidState | InvalidRating | SelfRating | ReputationAlreadyIssued
    | NotCompleted | InvalidStatusTransition | ArbiterRequired | InvalidDisputeSplit
    | AccountingInvariantViolated | PotentialOverflow | AlreadyFinalized | AmountMustBePositive
    | SettlementTokenNotConfigured | TotalCapExceeded | TooManyMilestones
    | MissingArbiter | InvalidArbiter | ContractCancelled | ContractRefunded | EmptyComment
    | CommentTooLong | RollbackNotAllowed | RollbackStateChanged | IndexOutOfBounds
    | MilestoneAlreadyReleased | AlreadyApproved | InsufficientApprovals | MilestoneNotOverdue
    | AlreadyCancelled | InvalidContractId | ContractIdCollision | ContractIdOverflow
    | DisputeNotFound | UnsupportedDisputeStorageVersion | BatchSettlementEmpty
    | BatchSettlementTooLarge | InvalidProtocolParameters
    | TransferFailed | ArithmeticTrap

  datatype Status =
    Created | Accepted | Funded | Completed | Disputed | Cancelled | Refunded | PartiallyFunded

  datatype ReleaseAuthorization = ClientOnly | ArbiterOnly | ClientAndArbiter | MultiSig

  datatype Contract = Contract(
    client: Address,
    freelancer: Address,
    arbiter: Option<Address>,
    status: Status,
    totalDeposited: int,
    fundedAmount: int,
    releasedAmount: int,
    refundedAmount: int,
    releaseAuthorization: ReleaseAuthorization,
    reputationIssued: bool)

  datatype Milestone = Milestone(
    amount: int,
    fundedAmount: int,
    protocolFee: int,
    released: bool,
    refunded: bool,
    refundedAmount: int,
    deadline: Option<nat>)

  /** A contract record together with its milestone vector; the two are always stored as a pair. */
  datatype Account = Account(contract: Contract, milestones: seq<Milestone>)

  /** Key of the approval record of one milestone. */
  datatype Slot = Slot(contractId: nat, index: nat)

  datatype Approvals = Approvals(client: bool, freelancer: bool, arbiter: bool)

  /** An entry of temporary storage: the host drops it after ledger `liveUntil`. */
  datatype Temporary<T> = Temporary(value: T, liveUntil: nat)

  datatype Migration = Migration(
    currentClient: Address,
    proposedClient: Address,
    requestedAtLedger: nat,
    expiresAtLedger: nat)

  datatype DisputeSplit = DisputeSplit(clientAmount: int, freelancerAmount: int)

  datatype Resolution = FullRefund | PartialRefund | FullPayout | Split(split: DisputeSplit)

  /** Dispute metadata in its legacy (unversioned) and current layouts. */
  datatype StoredDispute =
    | LayoutV0(raisedBy: Address, reasonHash: nat, raisedAt: nat)
    | LayoutV1(schemaVersion: nat, raisedBy: Address, reasonHash: nat, raisedAt: nat)

  const DISPUTE_STORAGE_VERSION: nat := 1

  datatype MilestoneSummary = MilestoneSummary(index: nat, amount: int, released: bool, refunded: bool)

  datatype Summary = Summary(
    client: Address,
    freelancer: Address,
    arbiter: Option<Address>,
    status: Status,
    reputationIssued: bool,
    totalAmount: int,
    fundedAmount: int,
    releasedAmount: int,
    refundableBalance: int,
    releasedMilestoneCount: nat,
    milestones: seq<MilestoneSummary>)

  datatype Finalization = Finalization(finalizer: Address, timestamp: nat, summary: Summary)

  datatype Reputation = Reputation(completedContracts: int, totalRating: int, lastRating: int)

  datatype SettlementItem = SettlementItem(contractId: nat, finalizer: Address)

  datatype SettlementResult =
    SettlementResult(index: nat, contractId: nat, success: bool, errorCode: Option<Error>)

  /** Governance-owned settings. */
  datatype Config = Config(
    initialized: bool,
    admin: Option<Address>,
    paused: bool,
    emergency: bool,
    tokenBound: bool,
    feeBps: nat,
    maxTotal: Option<int>)

  /** Ledger sequence, ledger time and the host's minimum lifetime of a temporary entry. */
  datatype Clock = Clock(ledger: nat, timestamp: nat, minTempTtl: nat)

  /** Everything the escrow stores, with the token balance it holds. */
  datatype State = State(
    config: Config,
    clock: Clock,
    nextId: nat,
    accounts: map<nat, Account>,
    approvals: map<Slot, Temporary<Approvals>>,
    migrations: map<nat, Temporary<Migration>>,
    finalizations: map<nat, Finalization>,
    disputes: map<nat, StoredDispute>,
    disputeVersions: map<nat, nat>,
    rollbacks: map<nat, Account>,
    credits: map<Address, int>,
    reputations: map<Address, Reputation>,
    fees: int,
    balance: int)

  /** A freshly deployed escrow. */
  function Genesis(clock: Clock): State {
    State(Config(false, None, false, false, false, 0, None), clock, INITIAL_CONTRACT_ID,
          map[], map[], map[], map[], map[], map[], map[], map[], map[], 0, 0)
  }

  // ---- guards shared by the entrypoints ----

  function RequireInitialized(config: Config): Guard<Error> {
    Need(config.initialized, NotInitialized)
  }

  function RequireNotPaused(config: Config): Guard<Error> {
    if config.paused then Aborts(ContractPaused)
    else if config.emergency then Aborts(EmergencyActive)
    else Holds
  }

  function RequireAdmin(config: Config, caller: Address): Guard<Error> {
    if config.admin.None? then Aborts(NotInitialized)
    else Need(config.admin.value == caller, UnauthorizedRole)
  }

  function Load(s: State, id: nat): Result<Account, Error> {
    if id in s.accounts then Success(s.accounts[id]) else Failure(ContractNotFound)
  }

  function RequireNotFinalized(s: State, id: nat): Guard<Error> {
    Need(id !in s.finalizations, AlreadyFinalized)
  }

  /** Load a contract for mutation: it must exist and carry no finalization record. */
  function LoadMutable(s: State, id: nat): Result<Account, Error> {
    var account :- Load(s, id);
    :- RequireNotFinalized(s, id);
    Success(account)
  }

  function Store(s: State, id: nat, account: Account): State {
    s.(accounts := s.accounts[id := account])
  }

  function CreditsOf(credits: map<Address, int>, who: Address): int {
    if who in credits then credits[who] else 0
  }

  function ReputationOf(reputations: map<Address, Reputation>, who: Address): Reputation {
    if who in reputations then reputations[who] else Reputation(0, 0, 0)
  }

  predicate InRange(x: int) {
    I128_MIN <= x <= I128_MAX
  }

  /** An i128 operation: its mathematical value if that fits, else `error`. */
  function Checked(x: int, error: Error): Result<int, Error> {
    if InRange(x) then Success(x) else Failure(error)
  }

  /** Grant one pending reputation credit. */
  function GrantCredit(s: State, who: Address): Result<State, Error> {
    var pending :- Checked(CreditsOf(s.credits, who) + 1, ArithmeticTrap);
    Success(s.(credits := s.credits[who := pending]))
  }

  /** The i128 quotient of Rust, which truncates toward zero. */
  function TruncatedDiv(a: int, b: int): int
    requires b > 0
  {
    if a >= 0 then a / b else -((-a) / b)
  }
}
