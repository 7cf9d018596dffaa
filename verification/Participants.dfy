/** Changes of a contract's participants (`migration.rs`, `contracts.rs`). */
module Participants {
  import opened Results
  import opened Types
  import opened Authorization
  import opened TempStorage

  predicate MigrationAllowed(status: Status) {
    status != Completed && status != Cancelled && status != Refunded && status != Disputed
  }

  function Pending(s: State, id: nat): Option<Migration> {
    Read(s.migrations, id, s.clock)
  }

  function SaturatingAdd(a: nat, b: nat): nat {
    if a + b <= U32_MAX then a + b else U32_MAX
  }

  function Propose(s: State, id: nat, current: Address, proposed: Address): Result<State, Error> {
    var config := s.config;
    :- RequireNotPaused(config);
    var account :- LoadMutable(s, id);
    var c := account.contract;
    :- Need(current == c.client, UnauthorizedRole);
    :- Need(proposed != c.client && proposed != c.freelancer, InvalidParticipant);
    :- Need(MigrationAllowed(c.status), InvalidStatusTransition);
    :- Need(Pending(s, id).None?, InvalidState);
    var now := s.clock.ledger;
    var pending := Migration(current, proposed, now, SaturatingAdd(now, MIGRATION_TTL));
    Success(s.(migrations := Write(s.migrations, id, pending, s.clock, MIGRATION_TTL, MIGRATION_TTL)))
  }

  function Accept(s: State, id: nat, newClient: Address): Result<State, Error> {
    var config := s.config;
    :- RequireNotPaused(config);
    var account :- LoadMutable(s, id);
    :- Need(MigrationAllowed(account.contract.status), InvalidStatusTransition);
    var pending := Pending(s, id);
    :- Need(pending.Some?, InvalidState);
    :- Need(pending.value.proposedClient == newClient, UnauthorizedRole);
    Success(Store(s, id, account.(contract := account.contract.(client := newClient)))
            .(migrations := s.migrations - {id}))
  }

  /** Withdrawing a proposal is not gated by the pause flags. */
  function CancelMigration(s: State, id: nat, current: Address): Result<State, Error> {
    var account :- LoadMutable(s, id);
    :- Need(current == account.contract.client, UnauthorizedRole);
    :- Need(Pending(s, id).Some?, InvalidState);
    Success(s.(migrations := s.migrations - {id}))
  }

  function SetArbiter(s: State, id: nat, admin: Address, arbiter: Option<Address>): Result<State, Error> {
    var config := s.config;
    :- RequireInitialized(config);
    :- RequireNotPaused(config);
    :- Need(id != 0, InvalidContractId);
    :- RequireAdmin(config, admin);
    var account :- LoadMutable(s, id);
    var c := account.contract;
    :- Need(arbiter != Some(c.client) && arbiter != Some(c.freelancer), InvalidArbiter);
    :- Need(NeedsArbiter(c.releaseAuthorization) ==> arbiter.Some?, MissingArbiter);
    Success(Store(s, id, account.(contract := c.(arbiter := arbiter))))
  }
}
