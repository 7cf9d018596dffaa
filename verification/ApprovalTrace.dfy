/** Where the approvals behind a release come from, over whole runs. */
module ApprovalTrace {
  import opened Results
  import opened Types
  import opened Authorization
  import opened LedgerInvariant
  import opened Protocol
  import opened StepsKeepInvariant
  import opened Effects
  import opened TempStorage
  import MilestoneApprovals
  import Release

  /** The milestone has a live approval record with this role's flag. */
  predicate FlagLive(s: State, slot: Slot, role: Role) {
    var live := MilestoneApprovals.LiveApprovals(s, slot);
    live.Some? && HasFlag(live.value, role)
  }

  /** The call is an approval of the milestone by the address that holds the role at that moment. */
  predicate SetsFlag(s: State, cmd: Command, slot: Slot, role: Role) {
    && cmd.Approve? && Slot(cmd.id, cmd.index) == slot
    && Step(s, cmd).Success?
    && cmd.id in s.accounts && CallerRole(cmd.caller, s.accounts[cmd.id].contract) == Some(role)
  }

  /** The call writes, and so may renew, the milestone's approval record. */
  predicate Touches(s: State, cmd: Command, slot: Slot) {
    && (cmd.Approve? || cmd.Revoke? || cmd.Inspect?)
    && Slot(cmd.id, cmd.index) == slot
    && Step(s, cmd).Success?
  }

  /** The state before call `k` of a run of a new escrow. */
  function Before(clock: Clock, run: seq<Command>, k: nat): State
    requires k <= |run|
  {
    After(Genesis(clock), run[..k])
  }

  // ---- one call ----

  lemma RecordFlags(s: State, slot: Slot, approvals: Approvals, other: Slot)
    ensures var t := MilestoneApprovals.Record(s, slot, approvals);
            var live := MilestoneApprovals.LiveApprovals(t, other);
            if other == slot then live.Some? ==> live.value == approvals
            else live == MilestoneApprovals.LiveApprovals(s, other)
  {
  }

  lemma ClearFlags(s: State, slot: Slot, other: Slot)
    ensures var live := MilestoneApprovals.LiveApprovals(MilestoneApprovals.Clear(s, slot), other);
            if other == slot then live.None? else live == MilestoneApprovals.LiveApprovals(s, other)
  {
  }

  lemma ApproveFlags(s: State, id: nat, caller: Address, index: nat, slot: Slot, role: Role)
    requires MilestoneApprovals.Approve(s, id, caller, index).Success?
    requires FlagLive(MilestoneApprovals.Approve(s, id, caller, index).value, slot, role)
    ensures FlagLive(s, slot, role)
            || (slot == Slot(id, index) && id in s.accounts
                && CallerRole(caller, s.accounts[id].contract) == Some(role))
  {
    hide MilestoneApprovals.Record, MilestoneApprovals.LiveApprovals, RequireNotPaused, RequireReleaseAuthorization;
    ApproveRecords(s, id, caller, index);
    var live := MilestoneApprovals.LiveApprovals(s, Slot(id, index));
    var approvals := if live.Some? then live.value else MilestoneApprovals.NO_APPROVALS;
    var r := CallerRole(caller, s.accounts[id].contract).value;
    hide CallerRole, MilestoneApprovals.Approve;
    RecordFlags(s, Slot(id, index), WithFlag(approvals, r, true), slot);
  }

  lemma ApproveRecords(s: State, id: nat, caller: Address, index: nat)
    requires MilestoneApprovals.Approve(s, id, caller, index).Success?
    ensures id in s.accounts && CallerRole(caller, s.accounts[id].contract).Some?
    ensures var live := MilestoneApprovals.LiveApprovals(s, Slot(id, index));
            var approvals := if live.Some? then live.value else MilestoneApprovals.NO_APPROVALS;
            var role := CallerRole(caller, s.accounts[id].contract).value;
            && !HasFlag(approvals, role)
            && MilestoneApprovals.Approve(s, id, caller, index).value
               == MilestoneApprovals.Record(s, Slot(id, index), WithFlag(approvals, role, true))
  {
    hide MilestoneApprovals.Record, MilestoneApprovals.LiveApprovals, RequireNotPaused, HasFlag, WithFlag, CallerRole;
  }

  lemma RevokeFlags(s: State, id: nat, caller: Address, index: nat, slot: Slot, role: Role)
    requires MilestoneApprovals.Revoke(s, id, caller, index).Success?
    requires FlagLive(MilestoneApprovals.Revoke(s, id, caller, index).value, slot, role)
    ensures FlagLive(s, slot, role)
  {
    hide MilestoneApprovals.Record, MilestoneApprovals.Clear, MilestoneApprovals.LiveApprovals, CallerRole;
    var live := MilestoneApprovals.LiveApprovals(s, Slot(id, index)).value;
    var r := CallerRole(caller, s.accounts[id].contract).value;
    RecordFlags(s, Slot(id, index), WithFlag(live, r, false), slot);
    ClearFlags(s, Slot(id, index), slot);
  }

  /** A release or a rollback at most removes the record of its own milestone; a release does remove it. */
  lemma MoneyApprovals(s: State, cmd: Command)
    requires Ok(s) && (cmd.Release? || cmd.RollBackMilestone?) && Step(s, cmd).Success?
    ensures var t := Step(s, cmd).value;
            && t.clock == s.clock
            && (t.approvals == s.approvals || t.approvals == s.approvals - {Slot(cmd.id, cmd.index)})
            && (cmd.Release? ==> t.approvals == s.approvals - {Slot(cmd.id, cmd.index)})
  {
    hide Ok, Release.Release, Release.RollBack, AfterRelease, AfterRollBack;
    if cmd.Release? {
      ReleaseEffect(s, cmd.id, cmd.caller, cmd.index);
    } else {
      RollBackEffect(s, cmd.id, cmd.caller, cmd.index);
    }
  }

  lemma FewerFlags(s: State, t: State, slot: Slot, role: Role, gone: Slot)
    requires t.clock == s.clock && t.approvals == s.approvals - {gone} && FlagLive(t, slot, role)
    ensures FlagLive(s, slot, role) && slot != gone
  {
  }

  /** Time passes for every record alike: what is live later was live before. */
  lemma LaterFlags(s: State, t: State, slot: Slot, role: Role)
    requires t.approvals == s.approvals && s.clock.ledger <= t.clock.ledger && FlagLive(t, slot, role)
    ensures FlagLive(s, slot, role)
  {
  }

  lemma StepClock(s: State, cmd: Command)
    requires Ok(s) && Step(s, cmd).Success?
    ensures var t := Step(s, cmd).value;
            && s.clock.ledger <= t.clock.ledger && t.clock.minTempTtl == s.clock.minTempTtl
            && (!cmd.Tick? ==> t.clock == s.clock)
            && (!TouchesApprovals(cmd) ==> t.approvals == s.approvals)
  {
    if !cmd.Tick? {
      hide Ok, Step, Moved;
      StepMoves(s, cmd);
    }
  }

  /** A flag that is live after a call was live before it, or was set by it. */
  lemma FlagStep(s: State, cmd: Command, slot: Slot, role: Role)
    requires Ok(s) && FlagLive(Exec(s, cmd), slot, role)
    ensures FlagLive(s, slot, role) || SetsFlag(s, cmd, slot, role)
  {
    hide Ok, FlagLive, MilestoneApprovals.Approve, MilestoneApprovals.Revoke, MilestoneApprovals.Inspect;
    if Step(s, cmd).Success? {
      if cmd.Approve? {
        ApproveFlags(s, cmd.id, cmd.caller, cmd.index, slot, role);
      } else if cmd.Revoke? {
        RevokeFlags(s, cmd.id, cmd.caller, cmd.index, slot, role);
      } else if cmd.Inspect? {
        InspectFlags(s, Slot(cmd.id, cmd.index), slot, role);
      } else {
        OtherFlags(s, cmd, slot, role);
      }
    }
  }

  lemma InspectFlags(s: State, slot: Slot, other: Slot, role: Role)
    requires FlagLive(MilestoneApprovals.Inspect(s, slot), other, role)
    ensures FlagLive(s, other, role)
  {
    hide MilestoneApprovals.Record, MilestoneApprovals.LiveApprovals;
    var live := MilestoneApprovals.LiveApprovals(s, slot);
    if live.Some? {
      RecordFlags(s, slot, live.value, other);
    }
  }

  lemma OtherFlags(s: State, cmd: Command, slot: Slot, role: Role)
    requires Ok(s) && Step(s, cmd).Success? && !cmd.Approve? && !cmd.Revoke? && !cmd.Inspect?
    requires FlagLive(Step(s, cmd).value, slot, role)
    ensures FlagLive(s, slot, role)
  {
    hide Ok, Step, FlagLive;
    var t := Step(s, cmd).value;
    StepClock(s, cmd);
    if cmd.Release? || cmd.RollBackMilestone? {
      MoneyApprovals(s, cmd);
      if t.approvals == s.approvals {
        LaterFlags(s, t, slot, role);
      } else {
        FewerFlags(s, t, slot, role, Slot(cmd.id, cmd.index));
      }
    } else {
      LaterFlags(s, t, slot, role);
    }
  }

  // ---- flags over a run ----

  /** The flag was set by call `k` and has been live ever since. */
  ghost predicate SetSince(clock: Clock, run: seq<Command>, k: nat, slot: Slot, role: Role) {
    && k < |run|
    && SetsFlag(Before(clock, run, k), run[k], slot, role)
    && forall j :: k < j <= |run| ==> FlagLive(Before(clock, run, j), slot, role)
  }

  /** Every live flag was set by the holder of its role, and has not been cleared, revoked or expired since. */
  lemma {:induction false} FlagOrigin(clock: Clock, run: seq<Command>, slot: Slot, role: Role)
    requires FlagLive(After(Genesis(clock), run), slot, role)
    ensures exists k :: SetSince(clock, run, k, slot, role)
  {
    hide Ok, Exec, FlagLive, SetsFlag;
    if run == [] {
      assert false by { NoFlags(clock, slot, role); }
    } else {
      var n := |run| - 1;
      GenesisOk(clock);
      RunKeeps(Genesis(clock), run[..n]);
      FlagStep(After(Genesis(clock), run[..n]), run[n], slot, role);
      assert run[..|run|] == run;
      if SetsFlag(After(Genesis(clock), run[..n]), run[n], slot, role) {
        assert SetSince(clock, run, n, slot, role);
      } else {
        FlagOrigin(clock, run[..n], slot, role);
        var k :| SetSince(clock, run[..n], k, slot, role);
        SinceExtends(clock, run, k, slot, role);
      }
    }
  }

  /** The states of a prefix are the first states of the run. */
  lemma PrefixState(clock: Clock, run: seq<Command>, n: nat, j: nat)
    requires j <= n <= |run|
    ensures Before(clock, run[..n], j) == Before(clock, run, j)
  {
    assert run[..n][..j] == run[..j];
  }

  lemma SinceExtends(clock: Clock, run: seq<Command>, k: nat, slot: Slot, role: Role)
    requires run != [] && SetSince(clock, run[..|run| - 1], k, slot, role)
    requires FlagLive(Before(clock, run, |run|), slot, role)
    ensures SetSince(clock, run, k, slot, role)
  {
    hide Before, FlagLive, SetsFlag;
    var n := |run| - 1;
    PrefixState(clock, run, n, k);
    forall j | k < j <= |run| ensures FlagLive(Before(clock, run, j), slot, role) {
      if j <= n {
        PrefixState(clock, run, n, j);
      }
    }
  }

  lemma NoFlags(clock: Clock, slot: Slot, role: Role)
    ensures !FlagLive(Genesis(clock), slot, role)
  {
  }

  // ---- touches over a run ----

  /** Call `i` was the last to write the record, and the record lives at most the approval lifetime beyond it. */
  ghost predicate LastTouch(clock: Clock, run: seq<Command>, i: nat, slot: Slot) {
    && i < |run|
    && Touches(Before(clock, run, i), run[i], slot)
    && (forall j :: i < j < |run| ==> !Touches(Before(clock, run, j), run[j], slot))
    && var now := Before(clock, run, |run|);
       && Before(clock, run, i).clock.ledger <= now.clock.ledger
       && (slot in now.approvals ==>
             now.approvals[slot].liveUntil <= Before(clock, run, i).clock.ledger + APPROVAL_TTL)
  }

  predicate Bounded(s: State, slot: Slot, touched: nat) {
    slot in s.approvals ==> s.approvals[slot].liveUntil <= touched + APPROVAL_TTL
  }

  /** A write never leaves a record living longer than the approval lifetime from now. */
  lemma RecordLives(s: State, slot: Slot, approvals: Approvals)
    requires s.clock.minTempTtl <= APPROVAL_TTL
    requires Bounded(s, slot, s.clock.ledger)
    ensures Bounded(MilestoneApprovals.Record(s, slot, approvals), slot, s.clock.ledger)
  {
  }

  /** Calls that do not touch the record keep or remove it; calls that do bound it from now. */
  lemma TouchStep(s: State, cmd: Command, slot: Slot, touched: nat)
    requires Ok(s) && Step(s, cmd).Success? && s.clock.minTempTtl <= APPROVAL_TTL
    requires touched <= s.clock.ledger && Bounded(s, slot, touched)
    ensures Touches(s, cmd, slot) ==> Bounded(Step(s, cmd).value, slot, s.clock.ledger)
    ensures !Touches(s, cmd, slot) ==> Bounded(Step(s, cmd).value, slot, touched)
    ensures !Touches(s, cmd, slot) && slot in Step(s, cmd).value.approvals ==> slot in s.approvals
  {
    hide Ok, MilestoneApprovals.Approve, MilestoneApprovals.Revoke, MilestoneApprovals.Inspect;
    if cmd.Approve? || cmd.Revoke? || cmd.Inspect? {
      WriteBounded(s, cmd, slot, touched);
    } else {
      hide Step;
      StepClock(s, cmd);
      if cmd.Release? || cmd.RollBackMilestone? {
        MoneyApprovals(s, cmd);
      }
    }
  }

  /** The record written by an approval call, if it keeps one. */
  lemma WriteBounded(s: State, cmd: Command, slot: Slot, touched: nat)
    requires cmd.Approve? || cmd.Revoke? || cmd.Inspect?
    requires Step(s, cmd).Success? && s.clock.minTempTtl <= APPROVAL_TTL
    requires touched <= s.clock.ledger && Bounded(s, slot, touched)
    ensures var t := Step(s, cmd).value;
            if Slot(cmd.id, cmd.index) == slot then Bounded(t, slot, s.clock.ledger)
            else Bounded(t, slot, touched) && (slot in t.approvals ==> slot in s.approvals)
  {
    Written(s, cmd);
    hide Step, MilestoneApprovals.Record;
    var t, own := Step(s, cmd).value, Slot(cmd.id, cmd.index);
    if t != s && t != MilestoneApprovals.Clear(s, own) {
      var approvals :| t == MilestoneApprovals.Record(s, own, approvals);
      if own == slot {
        RecordLives(s, own, approvals);
      } else {
        RecordOther(s, own, approvals, slot);
      }
    }
  }

  lemma RecordOther(s: State, own: Slot, approvals: Approvals, slot: Slot)
    requires own != slot
    ensures var t := MilestoneApprovals.Record(s, own, approvals);
            (slot in t.approvals <==> slot in s.approvals)
            && (slot in s.approvals ==> t.approvals[slot] == s.approvals[slot])
  {
  }

  lemma Written(s: State, cmd: Command)
    requires cmd.Approve? || cmd.Revoke? || cmd.Inspect?
    requires Step(s, cmd).Success?
    ensures var t, own := Step(s, cmd).value, Slot(cmd.id, cmd.index);
            t == s || t == MilestoneApprovals.Clear(s, own)
            || exists approvals :: t == MilestoneApprovals.Record(s, own, approvals)
  {
    hide MilestoneApprovals.Record, MilestoneApprovals.Clear, MilestoneApprovals.LiveApprovals;
    if cmd.Approve? {
      hide MilestoneApprovals.Approve;
      ApproveRecords(s, cmd.id, cmd.caller, cmd.index);
    } else if cmd.Revoke? {
      hide MilestoneApprovals.Approve, MilestoneApprovals.Inspect, CallerRole, WithFlag, HasFlag;
    } else {
      hide MilestoneApprovals.Approve, MilestoneApprovals.Revoke;
    }
  }

  lemma {:induction false} MinTtlStays(clock: Clock, run: seq<Command>)
    ensures After(Genesis(clock), run).clock.minTempTtl == clock.minTempTtl
  {
    hide Ok, Step;
    if run != [] {
      var before, last := run[..|run| - 1], run[|run| - 1];
      MinTtlStays(clock, before);
      GenesisOk(clock);
      RunKeeps(Genesis(clock), before);
      if Step(After(Genesis(clock), before), last).Success? {
        StepClock(After(Genesis(clock), before), last);
      }
    }
  }

  lemma NoRecords(clock: Clock, slot: Slot)
    ensures slot !in After(Genesis(clock), []).approvals
  {
  }

  /** A record that outlives a call without being touched by it keeps its last touch. */
  lemma TouchExtends(clock: Clock, run: seq<Command>, i: nat, slot: Slot)
    requires run != [] && LastTouch(clock, run[..|run| - 1], i, slot)
    requires !Touches(Before(clock, run, |run| - 1), run[|run| - 1], slot)
    requires Before(clock, run, |run| - 1).clock.ledger <= Before(clock, run, |run|).clock.ledger
    requires Bounded(Before(clock, run, |run|), slot, Before(clock, run, i).clock.ledger)
    ensures LastTouch(clock, run, i, slot)
  {
    hide Before, Touches;
    var n := |run| - 1;
    PrefixState(clock, run, n, i);
    PrefixState(clock, run, n, n);
    forall j | i < j < |run| ensures !Touches(Before(clock, run, j), run[j], slot) {
      if j < n {
        PrefixState(clock, run, n, j);
        assert run[..n][j] == run[j];
      }
    }
  }

  lemma LastTouchBounds(clock: Clock, run: seq<Command>, i: nat, slot: Slot)
    requires LastTouch(clock, run, i, slot)
    ensures i < |run| && Before(clock, run, i).clock.ledger <= Before(clock, run, |run|).clock.ledger
    ensures Bounded(Before(clock, run, |run|), slot, Before(clock, run, i).clock.ledger)
  {
    hide Before, Touches;
  }

  lemma FreshTouch(clock: Clock, run: seq<Command>, slot: Slot)
    requires run != []
    requires Touches(Before(clock, run, |run| - 1), run[|run| - 1], slot)
    requires Before(clock, run, |run| - 1).clock.ledger <= Before(clock, run, |run|).clock.ledger
    requires Bounded(Before(clock, run, |run|), slot, Before(clock, run, |run| - 1).clock.ledger)
    ensures LastTouch(clock, run, |run| - 1, slot)
  {
    hide Before, Touches;
  }

  lemma NotTouched(s: State, cmd: Command, slot: Slot)
    requires Step(s, cmd).Failure?
    ensures !Touches(s, cmd, slot)
  {
  }

  /** Every stored record has a last touch, and lives at most the approval lifetime beyond it. */
  lemma {:induction false} HasLastTouch(clock: Clock, run: seq<Command>, slot: Slot)
    requires clock.minTempTtl <= APPROVAL_TTL && slot in After(Genesis(clock), run).approvals
    ensures exists i :: LastTouch(clock, run, i, slot)
  {
    if run == [] {
      assert false by { NoRecords(clock, slot); }
    } else {
      var n := |run| - 1;
      var s := After(Genesis(clock), run[..n]);
      GenesisOk(clock);
      RunKeeps(Genesis(clock), run[..n]);
      MinTtlStays(clock, run[..n]);
      States(clock, run);
      hide Ok, Step, Touches, LastTouch, Bounded, Before, After;
      if Step(s, run[n]).Failure? || slot in s.approvals {
        HasLastTouch(clock, run[..n], slot);
        var i :| LastTouch(clock, run[..n], i, slot);
        LastTouchBounds(clock, run[..n], i, slot);
        PrefixState(clock, run, n, i);
        PrefixState(clock, run, n, n);
        NextTouch(clock, run, i, slot);
      } else {
        AnyBound(s, slot);
        StepClock(s, run[n]);
        TouchStep(s, run[n], slot, s.clock.ledger);
        FreshTouch(clock, run, slot);
      }
    }
  }

  lemma States(clock: Clock, run: seq<Command>)
    requires run != []
    ensures var n := |run| - 1;
            && Before(clock, run, n) == After(Genesis(clock), run[..n])
            && Before(clock, run, |run|) == After(Genesis(clock), run)
            && After(Genesis(clock), run) == Exec(After(Genesis(clock), run[..n]), run[n])
  {
    hide Exec;
    assert run[..|run|] == run;
  }

  lemma AnyBound(s: State, slot: Slot)
    requires slot !in s.approvals
    ensures Bounded(s, slot, s.clock.ledger)
  {
  }

  /** One more call either touches the record or keeps its last touch. */
  lemma NextTouch(clock: Clock, run: seq<Command>, i: nat, slot: Slot)
    requires run != [] && LastTouch(clock, run[..|run| - 1], i, slot)
    requires Ok(Before(clock, run, |run| - 1)) && Before(clock, run, |run| - 1).clock.minTempTtl <= APPROVAL_TTL
    ensures exists j :: LastTouch(clock, run, j, slot)
  {
    var n := |run| - 1;
    var s, cmd := Before(clock, run, n), run[n];
    States(clock, run);
    hide Ok, Step, Touches, LastTouch, Bounded, Before, After;
    LastTouchBounds(clock, run[..n], i, slot);
    PrefixState(clock, run, n, i);
    PrefixState(clock, run, n, n);
    if Step(s, cmd).Failure? {
      NotTouched(s, cmd, slot);
      TouchExtends(clock, run, i, slot);
    } else {
      StepClock(s, cmd);
      TouchStep(s, cmd, slot, Before(clock, run, i).clock.ledger);
      if Touches(s, cmd, slot) {
        FreshTouch(clock, run, slot);
      } else {
        TouchExtends(clock, run, i, slot);
      }
    }
  }

  /** While a flag is live, the record was touched within the approval lifetime, and not before the flag was set. */
  lemma TouchedInTime(clock: Clock, run: seq<Command>, k: nat, j: nat, slot: Slot, role: Role)
    requires clock.minTempTtl <= APPROVAL_TTL && SetSince(clock, run, k, slot, role) && k < j <= |run|
    ensures exists i :: k <= i < j && Touches(Before(clock, run, i), run[i], slot)
              && Before(clock, run, j).clock.ledger <= Before(clock, run, i).clock.ledger + APPROVAL_TTL
  {
    var part := run[..j];
    assert Before(clock, run, j) == After(Genesis(clock), part);
    SinceParts(clock, run, k, j, slot, role);
    hide Ok, Step, Touches, Before, After, FlagLive, SetsFlag, LastTouch;
    LiveRecord(Before(clock, run, j), slot, role);
    HasLastTouch(clock, part, slot);
    var i: nat :| LastTouch(clock, part, i, slot);
    LastTouchIn(clock, run, j, i, k, slot);
  }

  lemma SinceParts(clock: Clock, run: seq<Command>, k: nat, j: nat, slot: Slot, role: Role)
    requires SetSince(clock, run, k, slot, role) && k < j <= |run|
    ensures Touches(Before(clock, run, k), run[k], slot) && FlagLive(Before(clock, run, j), slot, role)
  {
    SetTouches(Before(clock, run, k), run[k], slot, role);
  }

  /** The last touch of a prefix is not before any touch in it, and bounds the record that lives at its end. */
  lemma LastTouchIn(clock: Clock, run: seq<Command>, j: nat, i: nat, k: nat, slot: Slot)
    requires k < j <= |run| && LastTouch(clock, run[..j], i, slot)
    requires Touches(Before(clock, run, k), run[k], slot)
    requires slot in Before(clock, run, j).approvals
    requires Before(clock, run, j).clock.ledger <= Before(clock, run, j).approvals[slot].liveUntil
    ensures k <= i < j && Touches(Before(clock, run, i), run[i], slot)
    ensures Before(clock, run, j).clock.ledger <= Before(clock, run, i).clock.ledger + APPROVAL_TTL
  {
    hide Touches, Before;
    var part := run[..j];
    PrefixState(clock, run, j, i);
    PrefixState(clock, run, j, j);
    PrefixState(clock, run, j, k);
    assert part[k] == run[k] && part[i] == run[i];
  }

  lemma LiveRecord(s: State, slot: Slot, role: Role)
    requires FlagLive(s, slot, role)
    ensures slot in s.approvals && s.clock.ledger <= s.approvals[slot].liveUntil
  {
  }

  lemma SetTouches(s: State, cmd: Command, slot: Slot, role: Role)
    requires SetsFlag(s, cmd, slot, role)
    ensures Touches(s, cmd, slot)
  {
  }

  // ---- theorems ----

  lemma ReleaseNeedsFlags(s: State, id: nat, caller: Address, index: nat)
    requires Step(s, Command.Release(id, caller, index)).Success?
    ensures id in s.accounts
    ensures var live := MilestoneApprovals.LiveApprovals(s, Slot(id, index));
            live.Some? && Sufficient(live.value, s.accounts[id].contract.releaseAuthorization)
  {
    hide Release.Funding, Release.Book, Release.Complete, MilestoneApprovals.LiveApprovals, RequireNotPaused, MayRelease;
  }

  /** Every release happens under a live record that satisfies the contract's mode, and each of its flags was set
      by the holder of that role and has been live ever since: never cleared, revoked or expired. */
  lemma ReleaseApproved(clock: Clock, run: seq<Command>, id: nat, caller: Address, index: nat)
    requires Step(After(Genesis(clock), run), Command.Release(id, caller, index)).Success?
    ensures var s := After(Genesis(clock), run);
            var live := MilestoneApprovals.LiveApprovals(s, Slot(id, index));
            && id in s.accounts && live.Some?
            && Sufficient(live.value, s.accounts[id].contract.releaseAuthorization)
            && forall role :: HasFlag(live.value, role) ==> exists k :: SetSince(clock, run, k, Slot(id, index), role)
  {
    var s := After(Genesis(clock), run);
    ReleaseNeedsFlags(s, id, caller, index);
    hide Step, After, Sufficient, HasFlag, MilestoneApprovals.LiveApprovals;
    var live := MilestoneApprovals.LiveApprovals(s, Slot(id, index)).value;
    forall role | HasFlag(live, role) ensures exists k :: SetSince(clock, run, k, Slot(id, index), role) {
      FlagOrigin(clock, run, Slot(id, index), role);
    }
  }

  lemma ReleaseClears(s: State, id: nat, caller: Address, index: nat, role: Role)
    requires Ok(s) && Step(s, Command.Release(id, caller, index)).Success?
    ensures !FlagLive(Step(s, Command.Release(id, caller, index)).value, Slot(id, index), role)
  {
    hide Ok, Step;
    MoneyApprovals(s, Command.Release(id, caller, index));
  }

  /** One set of approvals authorises at most one release: every flag behind a later release of the same milestone,
      after a rollback, was set after the earlier release. */
  lemma FreshApprovals(clock: Clock, run: seq<Command>, m: nat, id: nat, caller: Address, index: nat, k: nat, role: Role)
    requires m < |run| && run[m] == Command.Release(id, caller, index)
    requires Step(Before(clock, run, m), run[m]).Success?
    requires SetSince(clock, run, k, Slot(id, index), role)
    ensures m < k
  {
    var s := Before(clock, run, m);
    assert run[..m + 1][..m] == run[..m];
    assert Before(clock, run, m + 1) == Step(s, run[m]).value;
    GenesisOk(clock);
    RunKeeps(Genesis(clock), run[..m]);
    ReleaseClears(s, id, caller, index, role);
    hide Ok, Step, After, Before, FlagLive;
    assert !FlagLive(Before(clock, run, m + 1), Slot(id, index), role);
  }

  /** An approval call does not simply reset the record's lifetime: a record that lives on is set back to the full
      lifetime exactly when at most one day of it is left (or all of it); otherwise its expiry stays. */
  lemma ApprovalExpiry(s: State, id: nat, caller: Address, index: nat)
    requires MilestoneApprovals.Approve(s, id, caller, index).Success?
    requires Slot(id, index) in s.approvals && Live(s.approvals[Slot(id, index)], s.clock.ledger)
    requires Bounded(s, Slot(id, index), s.clock.ledger)
    ensures var t, slot := MilestoneApprovals.Approve(s, id, caller, index).value, Slot(id, index);
            var before := s.approvals[slot].liveUntil;
            && slot in t.approvals
            && (t.approvals[slot].liveUntil == s.clock.ledger + APPROVAL_TTL <==>
                  before <= s.clock.ledger + APPROVAL_BUMP_THRESHOLD || before == s.clock.ledger + APPROVAL_TTL)
            && (before > s.clock.ledger + APPROVAL_BUMP_THRESHOLD ==> t.approvals[slot].liveUntil == before)
  {
    ApproveRecords(s, id, caller, index);
    hide MilestoneApprovals.Approve, CallerRole, WithFlag, HasFlag;
  }
}
