/** A finalization record freezes its contract, over whole runs. */
module FinalizationFreeze {
  import opened Results
  import opened Types
  import opened AccountInvariant
  import opened LedgerInvariant
  import opened Protocol
  import opened StepsKeepInvariant
  import opened Effects
  import Finalize

  /** Nothing but the reputation flag has changed. */
  predicate SameUpToRating(a: Account, b: Account) {
    b == a.(contract := a.contract.(reputationIssued := b.contract.reputationIssued))
  }

  predicate Reopens(cmd: Command, id: nat) {
    cmd.Reopen? && cmd.id == id
  }

  lemma FinalizeAdds(s: State, id: nat, finalizer: Address, other: nat)
    requires Finalize.Finalize(s, id, finalizer).Success? && other in s.finalizations
    ensures var t := Finalize.Finalize(s, id, finalizer).value;
            other in t.finalizations && t.finalizations[other] == s.finalizations[other]
  {
    hide Finalize.Finalize, Finalize.Summarize;
    FinalizeShape(s, id, finalizer);
  }

  lemma {:induction false} ItemsAdd(s: State, items: seq<SettlementItem>, other: nat)
    requires Finalize.Items(s, items).Success? && other in s.finalizations
    ensures var t := Finalize.Items(s, items).value.0;
            other in t.finalizations && t.finalizations[other] == s.finalizations[other]
  {
    hide Finalize.Finalize, Finalize.PreCheck;
    if items != [] {
      var n := |items| - 1;
      ItemsAdd(s, items[..n], other);
      var before := Finalize.Items(s, items[..n]).value.0;
      if Finalize.PreCheck(before, items[n]).Holds? {
        FinalizeAdds(before, items[n].contractId, items[n].finalizer, other);
      }
    }
  }

  lemma ReopenKeepsOthers(s: State, id: nat, caller: Address, other: nat)
    requires Ok(s) && Finalize.Reopen(s, id, caller).Success? && other in s.finalizations && other != id
    ensures var t := Finalize.Reopen(s, id, caller).value;
            other in t.finalizations && t.finalizations[other] == s.finalizations[other]
  {
    hide Ok, Finalize.Reopen;
    ReopenKeeps(s, id, caller);
  }

  lemma RecordsSide(s: State, cmd: Command, id: nat)
    requires Ok(s) && Step(s, cmd).Success? && id in s.finalizations && !Reopens(cmd, id)
    requires cmd.Finalize? || cmd.FinalizeBatch? || cmd.Reopen?
    ensures var t := Step(s, cmd).value;
            id in t.finalizations && t.finalizations[id] == s.finalizations[id]
  {
    hide Ok, Finalize.Finalize, Finalize.Items, Finalize.Reopen;
    match cmd
    case Finalize(other, caller) => FinalizeAdds(s, other, caller, id);
    case FinalizeBatch(items) => ItemsAdd(s, items, id);
    case Reopen(other, caller) => ReopenKeepsOthers(s, other, caller, id);
  }

  /** Only reopening a contract removes or replaces its record. */
  lemma RecordStays(s: State, cmd: Command, id: nat)
    requires Ok(s) && Step(s, cmd).Success? && id in s.finalizations && !Reopens(cmd, id)
    ensures var t := Step(s, cmd).value;
            id in t.finalizations && t.finalizations[id] == s.finalizations[id]
  {
    hide Ok, Step, Moved, Reopens;
    if cmd.Finalize? || cmd.FinalizeBatch? || cmd.Reopen? {
      RecordsSide(s, cmd, id);
    } else {
      StepMoves(s, cmd);
    }
  }

  /** While a record exists, the only rewrite of its contract sets the reputation flag. */
  lemma AccountStays(s: State, cmd: Command, id: nat)
    requires Ok(s) && Step(s, cmd).Success? && id in s.finalizations && id in s.accounts
    ensures var t := Step(s, cmd).value;
            id in t.accounts && SameUpToRating(s.accounts[id], t.accounts[id])
  {
    hide *;
    StepMoves(s, cmd);
    MovedAccounts(s, cmd, Step(s, cmd).value);
    FrozenRewrite(s, cmd, id);
    SameIsSame(s.accounts[id]);
    if cmd.Create? {
      TargetOfCreate(s, cmd);
    }
  }

  lemma TargetOfCreate(s: State, cmd: Command)
    requires cmd.Create?
    ensures Target(s, cmd) == Some(s.nextId)
  {
  }

  lemma SameIsSame(a: Account)
    ensures SameUpToRating(a, a)
  {
  }

  lemma FrozenRewrite(s: State, cmd: Command, id: nat)
    requires id in s.accounts
    ensures cmd.IssueReputation? && Enabled(s, cmd, s.accounts[id]) ==>
              SameUpToRating(s.accounts[id], Rewritten(s, cmd, s.accounts[id]))
  {
  }

  lemma RecordFrozen(s: State, id: nat)
    requires Ok(s) && id in s.finalizations
    ensures id in s.accounts && Frozen(s.accounts[id], s.finalizations[id])
  {
    OkParts(s);
    hide Ok, AccountsOk, CreditsOk, RatingsOk, SnapshotsOk, MigrationsOk, DisputesOk, PotsOk, Frozen;
  }

  /** While a contract is not reopened, no run of any calls on any contracts changes its record or, up to the
      reputation flag, the contract and its milestones; summarizing it again gives the stored summary. */
  lemma {:induction false} FrozenForever(s: State, run: seq<Command>, id: nat)
    requires Ok(s) && id in s.finalizations
    requires forall k :: 0 <= k < |run| ==> !Reopens(run[k], id)
    ensures var t := After(s, run);
            && id in t.finalizations && t.finalizations[id] == s.finalizations[id]
            && id in s.accounts && id in t.accounts && SameUpToRating(s.accounts[id], t.accounts[id])
            && Frozen(t.accounts[id], t.finalizations[id])
  {
    hide Ok, Step, Frozen;
    RecordFrozen(s, id);
    if run != [] {
      var before, last := run[..|run| - 1], run[|run| - 1];
      FrozenForever(s, before, id);
      RunKeeps(s, before);
      RunKeeps(s, run);
      RecordFrozen(After(s, before), id);
      if Step(After(s, before), last).Success? {
        RecordStays(After(s, before), last, id);
        AccountStays(After(s, before), last, id);
      }
      RecordFrozen(After(s, run), id);
    }
  }
}
