/** Contract ids over whole runs: `initialize` restarts the counter, which decides whether creation can work. */
module IdAllocation {
  import opened Results
  import opened Types
  import opened AccountInvariant
  import opened LedgerInvariant
  import opened Protocol
  import opened StepsKeepInvariant
  import opened Effects
  import Creation

  /** Ids are handed out without gaps: exactly those below the counter are taken. */
  ghost predicate Dense(s: State) {
    forall id: nat :: id in s.accounts <==> INITIAL_CONTRACT_ID <= id < s.nextId
  }

  /** The counter stands at an id that is already taken. */
  predicate Stuck(s: State) {
    s.config.initialized && s.nextId in s.accounts
  }

  /** The run initializes the escrow after a contract was created. */
  ghost predicate LateInitialize(clock: Clock, run: seq<Command>) {
    exists k :: LateAt(clock, run, k)
  }

  predicate LateAt(clock: Clock, run: seq<Command>, k: int) {
    && 0 <= k < |run| && run[k].Initialize?
    && Step(After(Genesis(clock), run[..k]), run[k]).Success?
    && After(Genesis(clock), run[..k]).accounts != map[]
  }

  /** How a call moves the counter and the set of taken ids. */
  predicate Counts(s: State, cmd: Command, t: State) {
    && t.nextId == (if cmd.Create? then s.nextId + 1 else if cmd.Initialize? then INITIAL_CONTRACT_ID else s.nextId)
    && t.accounts.Keys == (if cmd.Create? then s.accounts.Keys + {s.nextId} else s.accounts.Keys)
    && (cmd.Create? ==> s.nextId !in s.accounts)
    && t.config.initialized == (s.config.initialized || cmd.Initialize?)
    && (cmd.Initialize? ==> !s.config.initialized)
  }

  lemma CounterStep(s: State, cmd: Command)
    requires Ok(s) && Step(s, cmd).Success?
    ensures Counts(s, cmd, Step(s, cmd).value)
  {
    hide Ok, Step, Moved, Framed, Enabled, Rewritten, Target, FreshAccount;
    StepMoves(s, cmd);
    MovedAccounts(s, cmd, Step(s, cmd).value);
    FramedCounter(s, cmd, Step(s, cmd).value);
    TargetOf(s, cmd);
    if cmd.Create? {
      CreateCounter(s, cmd);
    } else if cmd.Initialize? || cmd.Govern? {
      SettingsCounter(s, cmd);
    }
  }

  lemma FramedCounter(s: State, cmd: Command, t: State)
    requires Framed(s, cmd, t)
    ensures cmd.Initialize? || cmd.Govern? || t.config == s.config
    ensures cmd.Initialize? || cmd.Create? || t.nextId == s.nextId
  {
  }

  lemma TargetOf(s: State, cmd: Command)
    ensures cmd.Create? ==> Target(s, cmd) == Some(s.nextId)
  {
  }

  lemma CreateCounter(s: State, cmd: Command)
    requires cmd.Create? && Step(s, cmd).Success?
    ensures Step(s, cmd).value.nextId == s.nextId + 1
  {
    hide Creation.Create, FreshAccount;
    CreateShape(s, cmd.client, cmd.freelancer, cmd.arbiter, cmd.amounts, cmd.mode);
  }

  lemma SettingsCounter(s: State, cmd: Command)
    requires (cmd.Initialize? || cmd.Govern?) && Step(s, cmd).Success?
    ensures var t := Step(s, cmd).value;
            if cmd.Initialize? then !s.config.initialized && t.config.initialized && t.nextId == INITIAL_CONTRACT_ID
            else t.config.initialized == s.config.initialized
  {
  }

  // ---- runs ----

  /** Until an initialization comes too late the ids are dense; from then on the counter is stuck. */
  lemma {:induction false} CounterOverRun(clock: Clock, run: seq<Command>)
    ensures if LateInitialize(clock, run) then Stuck(After(Genesis(clock), run)) else Dense(After(Genesis(clock), run))
  {
    if run == [] {
      GenesisDense(clock);
    } else {
      var n := |run| - 1;
      var s, cmd := After(Genesis(clock), run[..n]), run[n];
      CounterOverRun(clock, run[..n]);
      GenesisOk(clock);
      RunKeeps(Genesis(clock), run[..n]);
      LateExtends(clock, run);
      assert After(Genesis(clock), run) == Exec(s, cmd);
      hide *;
      CounterCase(s, cmd);
      ExecIs(s, cmd);
    }
  }

  lemma ExecIs(s: State, cmd: Command)
    ensures Exec(s, cmd) == if Step(s, cmd).Success? then Step(s, cmd).value else s
  {
    hide Step;
  }

  lemma GenesisDense(clock: Clock)
    ensures Dense(After(Genesis(clock), [])) && !LateInitialize(clock, [])
  {
  }

  /** One more call makes an initialization late only if it is that initialization. */
  lemma LateExtends(clock: Clock, run: seq<Command>)
    requires run != []
    ensures LateInitialize(clock, run) <==>
              LateInitialize(clock, run[..|run| - 1]) || LateAt(clock, run, |run| - 1)
    ensures LateAt(clock, run, |run| - 1) <==> Late(After(Genesis(clock), run[..|run| - 1]), run[|run| - 1])
  {
    hide Step, After;
    var n := |run| - 1;
    forall k | 0 <= k < n ensures LateAt(clock, run, k) <==> LateAt(clock, run[..n], k) {
      assert run[..n][..k] == run[..k];
    }
    forall k | k < 0 || k >= n ensures !LateAt(clock, run[..n], k) {}
    forall k | k < 0 || k > n ensures !LateAt(clock, run, k) {}
  }

  predicate Late(s: State, cmd: Command) {
    cmd.Initialize? && Step(s, cmd).Success? && s.accounts != map[]
  }

  lemma CounterPositive(s: State)
    requires Ok(s)
    ensures 1 <= s.nextId && INITIAL_CONTRACT_ID <= s.nextId
  {
    hide AccountsOk, CreditsOk, RatingsOk, RecordsOk, SnapshotsOk, MigrationsOk, DisputesOk, PotsOk;
  }

  lemma CounterCase(s: State, cmd: Command)
    requires Ok(s)
    ensures Stuck(s) ==> Stuck(Exec(s, cmd)) && !Late(s, cmd)
    ensures Dense(s) ==> if Late(s, cmd) then Stuck(Exec(s, cmd)) else Dense(Exec(s, cmd))
  {
    hide *;
    CounterPositive(s);
    ExecIs(s, cmd);
    LateIs(s, cmd);
    if Step(s, cmd).Success? {
      CounterStep(s, cmd);
      if Stuck(s) {
        StuckCase(s, cmd, Step(s, cmd).value);
      }
      if Dense(s) {
        DenseCase(s, cmd, Step(s, cmd).value);
      }
    }
  }

  lemma LateIs(s: State, cmd: Command)
    ensures Late(s, cmd) <==> cmd.Initialize? && Step(s, cmd).Success? && s.accounts != map[]
  {
    hide Step;
  }

  lemma StuckCase(s: State, cmd: Command, t: State)
    requires Stuck(s) && Counts(s, cmd, t)
    ensures Stuck(t) && !cmd.Initialize?
  {
    assert s.nextId in s.accounts.Keys;
  }

  lemma DenseCase(s: State, cmd: Command, t: State)
    requires Dense(s) && Counts(s, cmd, t) && INITIAL_CONTRACT_ID <= s.nextId
    ensures if cmd.Initialize? && s.accounts != map[] then Stuck(t) else Dense(t)
  {
    if cmd.Initialize? && s.accounts != map[] {
      var id :| id in s.accounts;
      assert INITIAL_CONTRACT_ID in s.accounts.Keys;
    } else {
      if cmd.Initialize? {
        assert t.accounts.Keys == {};
      }
      forall id: nat ensures id in t.accounts <==> INITIAL_CONTRACT_ID <= id < t.nextId {
        assert id in t.accounts <==> id in t.accounts.Keys;
      }
    }
  }

  /** Creation can collide with an existing id exactly when some contract was created before the initialization. */
  lemma CollisionExactly(clock: Clock, run: seq<Command>)
    ensures After(Genesis(clock), run).nextId in After(Genesis(clock), run).accounts <==> LateInitialize(clock, run)
  {
    CounterOverRun(clock, run);
    hide After, LateInitialize;
  }

  /** From then on no contract can ever be created again. */
  lemma {:induction false} StuckForever(s: State, run: seq<Command>, cmd: Command)
    requires Ok(s) && Stuck(s) && cmd.Create?
    ensures Stuck(After(s, run)) && Step(After(s, run), cmd).Failure?
  {
    hide Ok, Exec, Step, Stuck;
    if run != [] {
      var before := run[..|run| - 1];
      StuckForever(s, before, cmd);
      RunKeeps(s, before);
      CounterCase(After(s, before), run[|run| - 1]);
    }
    StuckRefuses(After(s, run), cmd);
  }

  lemma StuckRefuses(s: State, cmd: Command)
    requires Stuck(s) && cmd.Create?
    ensures Step(s, cmd).Failure?
  {
    if Step(s, cmd).Success? {
      hide Creation.Create, FreshAccount;
      CreateShape(s, cmd.client, cmd.freelancer, cmd.arbiter, cmd.amounts, cmd.mode);
    }
  }
}
