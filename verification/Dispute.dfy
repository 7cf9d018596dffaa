/** Disputes: payouts, versioned metadata, raise, resolve and rollback (`dispute.rs`, `rollback.rs`). */
module Dispute {
  import opened Results
  import opened Types
  import Amounts

  /** Client and freelancer legs of a resolution. */
  function Payouts(c: Contract, resolution: Resolution): Result<(int, int), Error> {
    var available :- Amounts.CheckedAvailable(c.fundedAmount, c.releasedAmount, c.refundedAmount,
                                              AccountingInvariantViolated);
    match resolution
    case FullRefund => Success((available, 0))
    case PartialRefund =>
      var product :- Checked(available * PARTIAL_REFUND_FREELANCER_SHARE, PotentialOverflow);
      var freelancer := TruncatedDiv(product, PARTIAL_REFUND_DENOMINATOR);
      var client :- Checked(available - freelancer, PotentialOverflow);
      Success((client, freelancer))
    case FullPayout => Success((0, available))
    case Split(split) =>
      :- Need(split.clientAmount >= 0 && split.freelancerAmount >= 0, InvalidDisputeSplit);
      :- Need(split.clientAmount <= MAX_SINGLE_AMOUNT && split.freelancerAmount <= MAX_SINGLE_AMOUNT,
              InvalidDisputeSplit);
      :- Need(split.clientAmount <= available && split.freelancerAmount <= available, InvalidDisputeSplit);
      var total :- Checked(split.clientAmount + split.freelancerAmount, PotentialOverflow);
      :- Need(total == available, InvalidDisputeSplit);
      Success((split.clientAmount, split.freelancerAmount))
  }

  function FinalStatus(c: Contract): Status {
    if c.refundedAmount == c.fundedAmount then Refunded else Completed
  }

  // ---- versioned metadata ----

  function VersionOf(s: State, id: nat): nat {
    if id in s.disputeVersions then s.disputeVersions[id] else 0
  }

  function StoreMetadata(s: State, id: nat, meta: StoredDispute): State {
    var stamped := LayoutV1(DISPUTE_STORAGE_VERSION, meta.raisedBy, meta.reasonHash, meta.raisedAt);
    s.(disputes := s.disputes[id := stamped],
       disputeVersions := s.disputeVersions[id := DISPUTE_STORAGE_VERSION])
  }

  function RemoveMetadata(s: State, id: nat): State {
    s.(disputes := s.disputes - {id}, disputeVersions := s.disputeVersions - {id})
  }

  function MigrateV0(v0: StoredDispute): StoredDispute {
    LayoutV1(DISPUTE_STORAGE_VERSION, v0.raisedBy, v0.reasonHash, v0.raisedAt)
  }

  /** Load the metadata, rewriting older layouts; a layout that contradicts its marker traps. */
  function LoadMetadata(s: State, id: nat): Result<(State, StoredDispute), Error> {
    if VersionOf(s, id) == DISPUTE_STORAGE_VERSION then
      :- Need(id in s.disputes, DisputeNotFound);
      :- Need(s.disputes[id].LayoutV1?, ArithmeticTrap);
      Success((s, s.disputes[id]))
    else if VersionOf(s, id) == 0 then
      if id in s.disputes then
        :- Need(s.disputes[id].LayoutV0?, ArithmeticTrap);
        var v1 := MigrateV0(s.disputes[id]);
        Success((StoreMetadata(s, id, v1), v1))
      else
        var account :- Load(s, id);
        :- Need(account.contract.status == Disputed, DisputeNotFound);
        var v1 := LayoutV1(DISPUTE_STORAGE_VERSION, account.contract.client, 0, 0);
        Success((StoreMetadata(s, id, v1), v1))
    else
      Failure(UnsupportedDisputeStorageVersion)
  }

  // ---- entrypoints ----

  /** Open a dispute; the account as it was is kept for a possible rollback. */
  function Raise(s: State, id: nat, caller: Address): Result<State, Error> {
    var config := s.config;
    :- RequireInitialized(config);
    :- RequireNotPaused(config);
    var account :- LoadMutable(s, id);
    var c := account.contract;
    :- Need(caller == c.client || caller == c.freelancer, UnauthorizedRole);
    :- Need(c.arbiter.Some?, ArbiterRequired);
    :- Need(c.status == Funded || c.status == PartiallyFunded, InvalidState);
    var disputed := Store(s, id, account.(contract := c.(status := Disputed)))
                    .(rollbacks := s.rollbacks[id := account]);
    Success(StoreMetadata(disputed, id, LayoutV1(DISPUTE_STORAGE_VERSION, caller, 0, s.clock.timestamp)))
  }

  /** Apply the arbiter's decision to the books; no token moves. */
  function Resolve(s: State, id: nat, arbiter: Address, resolution: Resolution): Result<State, Error> {
    var config := s.config;
    :- RequireInitialized(config);
    :- RequireNotPaused(config);
    var account :- LoadMutable(s, id);
    var c := account.contract;
    :- Need(c.status == Disputed, InvalidStatusTransition);
    :- Need(c.arbiter == Some(arbiter), UnauthorizedRole);
    var loaded :- LoadMetadata(s, id);
    var legs :- Payouts(c, resolution);
    var refunded :- Checked(c.refundedAmount + legs.0, PotentialOverflow);
    var released :- Checked(c.releasedAmount + legs.1, PotentialOverflow);
    :- Need(released + refunded == c.fundedAmount, AccountingInvariantViolated);
    var settled := c.(refundedAmount := refunded, releasedAmount := released);
    var final := settled.(status := FinalStatus(settled));
    var credited :- if final.status == Completed then GrantCredit(loaded.0, c.freelancer) else Success(loaded.0);
    Success(RemoveMetadata(Store(credited, id, account.(contract := final)), id))
  }

  /** Undo an untouched dispute. */
  function RollBack(s: State, id: nat): Result<State, Error> {
    var config := s.config;
    :- RequireInitialized(config);
    :- RequireNotPaused(config);
    :- Need(config.admin.Some?, NotInitialized);
    var account :- LoadMutable(s, id);
    :- Need(account.contract.status == Disputed, RollbackNotAllowed);
    :- Need(id in s.rollbacks, RollbackNotAllowed);
    var record := s.rollbacks[id];
    :- Need(record.contract.status == Funded || record.contract.status == PartiallyFunded, RollbackNotAllowed);
    var expected := record.contract.(status := Disputed);
    :- Need(account.contract == expected && account.milestones == record.milestones, RollbackStateChanged);
    var restored := account.(contract := account.contract.(status := record.contract.status));
    Success(Store(s, id, restored).(rollbacks := s.rollbacks - {id}))
  }
}
