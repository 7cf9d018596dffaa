/** Batch finalization against a fold of single finalizations, and the dispute metadata loader. */
module BatchSettlement {
  import opened Results
  import opened Types
  import opened AccountInvariant
  import opened LedgerInvariant
  import opened StepsKeepInvariant
  import opened Authorization
  import Dispute
  import Effects
  import Finalize

  /** The reference: call `finalize_contract` on each item, keeping what succeeds. */
  function Singles(s: State, items: seq<SettlementItem>): (r: (State, seq<SettlementResult>))
    ensures |r.1| == |items|
  {
    if items == [] then (s, []) else
    var n := |items| - 1;
    var before := Singles(s, items[..n]);
    var single := Finalize.Finalize(before.0, items[n].contractId, items[n].finalizer);
    if single.Success?
    then (single.value, before.1 + [SettlementResult(n, items[n].contractId, true, None)])
    else (before.0, before.1 + [SettlementResult(n, items[n].contractId, false, Some(single.error))])
  }

  /** The repeated checks of a batch give exactly the verdict of the single call. */
  lemma PreCheckExact(s: State, item: SettlementItem)
    requires Ok(s) && RequireNotPaused(s.config).Holds?
    ensures var single := Finalize.Finalize(s, item.contractId, item.finalizer);
            var check := Finalize.PreCheck(s, item);
            if check.Holds? then single.Success? else single == Failure(check.error)
  {
    if item.contractId in s.accounts {
      AccountAt(s, item.contractId);
      SummarizeSucceeds(s.accounts[item.contractId]);
    }
    hide Ok, AccountOk, Finalize.Summarize, RequireNotPaused;
  }

  lemma FinalizeKeepsConfig(s: State, id: nat, finalizer: Address)
    requires Ok(s) && Finalize.Finalize(s, id, finalizer).Success?
    ensures Finalize.Finalize(s, id, finalizer).value.config == s.config
    ensures Ok(Finalize.Finalize(s, id, finalizer).value)
  {
    hide Ok, Finalize.Finalize;
    Effects.FinalizeFrame(s, id, finalizer);
    FinalizeKeeps(s, id, finalizer);
  }

  lemma {:induction false} SinglesOk(s: State, items: seq<SettlementItem>)
    requires Ok(s)
    ensures Ok(Singles(s, items).0) && Singles(s, items).0.config == s.config
  {
    hide Ok, Finalize.Finalize;
    if items != [] {
      var n := |items| - 1;
      SinglesOk(s, items[..n]);
      var before := Singles(s, items[..n]).0;
      if Finalize.Finalize(before, items[n].contractId, items[n].finalizer).Success? {
        FinalizeKeepsConfig(before, items[n].contractId, items[n].finalizer);
      }
    }
  }

  /** Entry by entry, duplicates included, a batch is the fold of single calls, and no delegated call aborts it. */
  lemma {:induction false} ItemsAreSingles(s: State, items: seq<SettlementItem>)
    requires Ok(s) && RequireNotPaused(s.config).Holds?
    ensures Finalize.Items(s, items) == Success(Singles(s, items))
  {
    hide Ok, Finalize.Finalize, Finalize.PreCheck, RequireNotPaused;
    if items != [] {
      var n := |items| - 1;
      ItemsAreSingles(s, items[..n]);
      SinglesOk(s, items[..n]);
      PreCheckExact(Singles(s, items[..n]).0, items[n]);
    }
  }

  /** A batch is refused only for the pause flags and its size; otherwise it is the fold of single calls. */
  lemma BatchExactly(s: State, items: seq<SettlementItem>)
    requires Ok(s)
    ensures Finalize.Batch(s, items).Success? <==>
              RequireNotPaused(s.config).Holds? && 0 < |items| <= MAX_BATCH_SETTLEMENT
    ensures Finalize.Batch(s, items).Success? ==> Finalize.Batch(s, items).value == Singles(s, items)
  {
    hide Ok, Finalize.Items, RequireNotPaused;
    if RequireNotPaused(s.config).Holds? {
      ItemsAreSingles(s, items);
    }
  }

  lemma {:induction false} SinglesRecord(s: State, items: seq<SettlementItem>, i: nat)
    requires i < |items|
    ensures Singles(s, items).1[i].success ==> items[i].contractId in Singles(s, items).0.finalizations
    ensures forall id :: id in s.finalizations ==> id in Singles(s, items).0.finalizations
  {
    hide Finalize.Finalize;
    var n := |items| - 1;
    SinglesGrow(s, items[..n]);
    if i < n {
      SinglesRecord(s, items[..n], i);
    }
    if Finalize.Finalize(Singles(s, items[..n]).0, items[n].contractId, items[n].finalizer).Success? {
      FinalizeGrows(Singles(s, items[..n]).0, items[n].contractId, items[n].finalizer);
    }
  }

  lemma {:induction false} SinglesGrow(s: State, items: seq<SettlementItem>)
    ensures forall id :: id in s.finalizations ==> id in Singles(s, items).0.finalizations
  {
    hide Finalize.Finalize;
    if items != [] {
      var n := |items| - 1;
      SinglesGrow(s, items[..n]);
      if Finalize.Finalize(Singles(s, items[..n]).0, items[n].contractId, items[n].finalizer).Success? {
        FinalizeGrows(Singles(s, items[..n]).0, items[n].contractId, items[n].finalizer);
      }
    }
  }

  lemma FinalizeGrows(s: State, id: nat, finalizer: Address)
    requires Finalize.Finalize(s, id, finalizer).Success?
    ensures var t := Finalize.Finalize(s, id, finalizer).value;
            id in t.finalizations && forall other :: other in s.finalizations ==> other in t.finalizations
  {
    hide Finalize.Finalize, Finalize.Summarize;
    FinalizeShape(s, id, finalizer);
  }

  lemma FinalizedRefused(s: State, id: nat, finalizer: Address)
    requires id in s.finalizations && id in s.accounts && RequireNotPaused(s.config).Holds?
    ensures Finalize.Finalize(s, id, finalizer) == Failure(AlreadyFinalized)
  {
    hide Finalize.Summarize;
  }

  /** A contract listed twice is closed once: the later entry reports the record of the earlier one. */
  lemma DuplicateRefused(s: State, items: seq<SettlementItem>, i: nat)
    requires Ok(s) && RequireNotPaused(s.config).Holds? && items != [] && i < |items| - 1
    requires items[i].contractId == items[|items| - 1].contractId
    requires Singles(s, items[..|items| - 1]).1[i].success
    ensures Singles(s, items).1[|items| - 1]
         == SettlementResult(|items| - 1, items[i].contractId, false, Some(AlreadyFinalized))
  {
    hide Ok, Finalize.Finalize, RequireNotPaused;
    var n := |items| - 1;
    SinglesRecord(s, items[..n], i);
    SinglesOk(s, items[..n]);
    var before := Singles(s, items[..n]).0;
    RecordHasAccount(before, items[i].contractId);
    FinalizedRefused(before, items[n].contractId, items[n].finalizer);
  }

  lemma RecordHasAccount(s: State, id: nat)
    requires Ok(s) && id in s.finalizations
    ensures id in s.accounts
  {
  }

  // ---- dispute metadata ----

  /** What a load returns and stores: a current entry as it is, an older one restamped, a missing one of a
      disputed contract filled in for its client. */
  lemma LoadShape(s: State, id: nat)
    requires DisputesOk(s.disputes, s.disputeVersions) && Dispute.LoadMetadata(s, id).Success?
    ensures var (t, meta) := Dispute.LoadMetadata(s, id).value;
            && meta.LayoutV1?
            && (if id in s.disputes && id in s.disputeVersions then t == s && meta == s.disputes[id]
                else t == Dispute.StoreMetadata(s, id, meta))
            && (id in s.disputes ==> meta.raisedBy == s.disputes[id].raisedBy
                                     && meta.reasonHash == s.disputes[id].reasonHash
                                     && meta.raisedAt == s.disputes[id].raisedAt)
  {
  }

  lemma StoredLoads(s: State, id: nat, meta: StoredDispute)
    ensures var t := Dispute.StoreMetadata(s, id, meta);
            && Dispute.LoadMetadata(t, id) == Success((t, t.disputes[id]))
            && t.disputes[id] == LayoutV1(DISPUTE_STORAGE_VERSION, meta.raisedBy, meta.reasonHash, meta.raisedAt)
  {
  }

  lemma LoadCurrent(s: State, id: nat)
    requires DisputesOk(s.disputes, s.disputeVersions) && id in s.disputes && id in s.disputeVersions
    ensures Dispute.LoadMetadata(s, id) == Success((s, s.disputes[id]))
  {
  }

  /** Loading never fails for a disputed contract, and loading again changes nothing more. */
  lemma LoadIdempotent(s: State, id: nat)
    requires Ok(s)
    ensures id in s.accounts && s.accounts[id].contract.status == Disputed ==> Dispute.LoadMetadata(s, id).Success?
    ensures Dispute.LoadMetadata(s, id).Success? ==>
              var (t, meta) := Dispute.LoadMetadata(s, id).value;
              && Dispute.LoadMetadata(t, id).Success? && Dispute.LoadMetadata(t, id).value.0 == t
              && Dispute.LoadMetadata(t, id).value.1.raisedBy == meta.raisedBy
              && Dispute.LoadMetadata(t, id).value.1.reasonHash == meta.reasonHash
              && Dispute.LoadMetadata(t, id).value.1.raisedAt == meta.raisedAt
              && (id in s.disputes ==> meta.raisedBy == s.disputes[id].raisedBy
                                       && meta.reasonHash == s.disputes[id].reasonHash
                                       && meta.raisedAt == s.disputes[id].raisedAt)
  {
    OkFacts(s);
    LoadMetadataKeeps(s, id);
    hide Ok, AccountsOk, SnapshotOk, DisputesOk, Dispute.LoadMetadata, Dispute.StoreMetadata;
    if Dispute.LoadMetadata(s, id).Success? {
      LoadShape(s, id);
      if id in s.disputes && id in s.disputeVersions {
        LoadCurrent(s, id);
      } else {
        StoredLoads(s, id, Dispute.LoadMetadata(s, id).value.1);
      }
    }
  }
}
