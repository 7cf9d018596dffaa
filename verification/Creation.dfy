/** Contract creation and initialization (`create_contract.rs`, `lib.rs`). */
module Creation {
  import opened Results
  import opened Types
  import opened Authorization
  import Amounts

  function FreshMilestone(amount: int): Milestone {
    Milestone(amount, 0, 0, false, false, 0, None)
  }

  function FreshMilestones(amounts: seq<int>): (ms: seq<Milestone>)
    ensures |ms| == |amounts|
    ensures forall k :: 0 <= k < |ms| ==> ms[k] == FreshMilestone(amounts[k])
  {
    if amounts == [] then []
    else FreshMilestones(amounts[..|amounts| - 1]) + [FreshMilestone(amounts[|amounts| - 1])]
  }

  function FreshContract(client: Address, freelancer: Address, arbiter: Option<Address>,
                         mode: ReleaseAuthorization): Contract {
    Contract(client, freelancer, arbiter, Created, 0, 0, 0, 0, mode, false)
  }

  function CapOf(config: Config): int {
    if config.maxTotal.Some? then config.maxTotal.value else I128_MAX
  }

  /** Validation errors other than the cap are all reported as an invalid amount. */
  function MappedAmountError(e: Error): Error {
    if e == TotalCapExceeded then TotalCapExceeded else InvalidMilestoneAmount
  }

  function CheckAmounts(config: Config, amounts: seq<int>): Guard<Error> {
    var total := Amounts.ValidatedTotal(amounts, CapOf(config));
    if total.Failure? then Aborts(MappedAmountError(total.error)) else Holds
  }

  function Create(s: State, client: Address, freelancer: Address, arbiter: Option<Address>,
                  amounts: seq<int>, mode: ReleaseAuthorization): Result<State, Error> {
    var config := s.config;
    :- RequireNotPaused(config);
    :- Need(client != freelancer, InvalidParticipant);
    :- Need(NeedsArbiter(mode) ==> arbiter.Some?, MissingArbiter);
    :- Need(arbiter != Some(client) && arbiter != Some(freelancer), InvalidArbiter);
    :- Need(amounts != [], EmptyMilestones);
    :- Need(|amounts| <= MAX_MILESTONES, TooManyMilestones);
    :- CheckAmounts(config, amounts);
    :- Need(s.nextId !in s.accounts, ContractIdCollision);
    :- Need(s.nextId < U32_MAX, ContractIdOverflow);
    var account := Account(FreshContract(client, freelancer, arbiter, mode), FreshMilestones(amounts));
    Success(Store(s, s.nextId, account).(nextId := s.nextId + 1))
  }

  /** One-time initialization; it also restarts the id counter. */
  function Initialize(s: State, admin: Address): Result<State, Error> {
    if s.config.initialized then Failure(AlreadyInitialized)
    else Success(s.(config := s.config.(initialized := true, admin := Some(admin)),
               nextId := INITIAL_CONTRACT_ID))
  }

  /** The remaining governance setters, as one step: any settings with a legal fee rate. */
  function Govern(s: State, config: Config): Result<State, Error> {
    if config.feeBps > BPS_DENOMINATOR then Failure(InvalidProtocolParameters)
    else Success(s.(config := config.(initialized := s.config.initialized)))
  }

  /** Ledgers close between calls. */
  function Tick(s: State, ledgers: nat, seconds: nat): State {
    s.(clock := s.clock.(ledger := s.clock.ledger + ledgers, timestamp := s.clock.timestamp + seconds))
  }
}
