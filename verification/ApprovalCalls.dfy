/** Exactly when an approval or a revocation goes through, what it does to every flag, and why it is refused. */
module ApprovalCalls {
  import opened Results
  import opened Types
  import opened ApprovalTrace
  import opened Authorization
  import MilestoneApprovals

  /** The pause, initialization and admin guards, spelled out. */
  lemma Guards(config: Config, caller: Address)
    ensures RequireNotPaused(config).Holds? <==> !config.paused && !config.emergency
    ensures RequireNotPaused(config).Aborts? ==>
              if config.paused then RequireNotPaused(config).error == ContractPaused
              else RequireNotPaused(config).error == EmergencyActive
    ensures RequireInitialized(config).Holds? <==> config.initialized
    ensures RequireAdmin(config, caller).Holds? <==> config.admin == Some(caller)
  {
  }

  /** The caller acts in this role: the client in no other, the freelancer never as arbiter. */
  predicate Acts(role: Role, caller: Address, c: Contract) {
    match role
    case Client => caller == c.client
    case Freelancer => caller == c.freelancer && caller != c.client
    case Arbiter => c.arbiter == Some(caller) && caller != c.client && caller != c.freelancer
  }

  lemma RoleIs(caller: Address, c: Contract)
    ensures forall role :: Acts(role, caller, c) <==> CallerRole(caller, c) == Some(role)
  {
  }

  /** Exactly one flag differs: `role` on `slot`, which now reads `value`. */
  ghost predicate OnlyFlag(s: State, t: State, slot: Slot, role: Role, value: bool) {
    && FlagLive(t, slot, role) == value
    && (forall other :: other != role ==> FlagLive(t, slot, other) == FlagLive(s, slot, other))
    && (forall elsewhere, r :: elsewhere != slot ==> FlagLive(t, elsewhere, r) == FlagLive(s, elsewhere, r))
  }

  ghost predicate Approvable(s: State, id: nat, caller: Address, index: nat) {
    && index < MAX_MILESTONES
    && !s.config.paused && !s.config.emergency
    && id in s.accounts && id !in s.finalizations
    && var c, ms := s.accounts[id].contract, s.accounts[id].milestones;
       && (c.status == Funded || c.status == PartiallyFunded)
       && index < |ms| && !ms[index].released
       && exists role :: Acts(role, caller, c) && MayApprove(role, c.releaseAuthorization)
                         && !FlagLive(s, Slot(id, index), role)
  }

  /** An approval goes through exactly on these conditions. */
  lemma ApproveExactly(s: State, id: nat, caller: Address, index: nat)
    ensures MilestoneApprovals.Approve(s, id, caller, index).Success? <==> Approvable(s, id, caller, index)
  {
    Guards(s.config, caller);
    hide MilestoneApprovals.Record, MilestoneApprovals.LiveApprovals, RequireNotPaused;
    if id in s.accounts {
      RoleIs(caller, s.accounts[id].contract);
      NoneFlagged();
    }
  }

  lemma NoneFlagged()
    ensures forall role :: !HasFlag(MilestoneApprovals.NO_APPROVALS, role)
  {
  }

  /** What is true when an approval is refused, error by error. */
  lemma ApproveReasons(s: State, id: nat, caller: Address, index: nat)
    requires MilestoneApprovals.Approve(s, id, caller, index).Failure?
    ensures match MilestoneApprovals.Approve(s, id, caller, index).error {
              case IndexOutOfBounds =>
                index >= MAX_MILESTONES || (id in s.accounts && index >= |s.accounts[id].milestones|)
              case ContractPaused => s.config.paused
              case EmergencyActive => s.config.emergency
              case AlreadyFinalized => id in s.finalizations
              case ContractNotFound => id !in s.accounts
              case InvalidState =>
                && id in s.accounts
                && s.accounts[id].contract.status != Funded && s.accounts[id].contract.status != PartiallyFunded
              case MilestoneAlreadyReleased =>
                id in s.accounts && index < |s.accounts[id].milestones| && s.accounts[id].milestones[index].released
              case UnauthorizedRole =>
                && id in s.accounts
                && var c := s.accounts[id].contract;
                   forall role :: Acts(role, caller, c) ==> !MayApprove(role, c.releaseAuthorization)
              case AlreadyApproved =>
                && id in s.accounts
                && exists role :: Acts(role, caller, s.accounts[id].contract) && FlagLive(s, Slot(id, index), role)
              case _ => false
            }
  {
    Guards(s.config, caller);
    hide MilestoneApprovals.Record, MilestoneApprovals.LiveApprovals, RequireNotPaused;
    if id in s.accounts {
      RoleIs(caller, s.accounts[id].contract);
      NoneFlagged();
    }
  }

  lemma RecordReads(s: State, slot: Slot, flags: Approvals)
    ensures MilestoneApprovals.LiveApprovals(MilestoneApprovals.Record(s, slot, flags), slot) == Some(flags)
    ensures slot in MilestoneApprovals.Record(s, slot, flags).approvals
  {
  }

  lemma WithFlagReads(flags: Approvals, role: Role, value: bool)
    ensures forall other ::
              HasFlag(WithFlag(flags, role, value), other) == if other == role then value else HasFlag(flags, other)
  {
  }

  /** Writing flags that differ in one role changes that flag alone. */
  lemma RecordOnly(s: State, slot: Slot, flags: Approvals, role: Role, value: bool)
    requires forall other :: HasFlag(flags, other) == FlagLive(s, slot, other)
    ensures OnlyFlag(s, MilestoneApprovals.Record(s, slot, WithFlag(flags, role, value)), slot, role, value)
  {
    var t := MilestoneApprovals.Record(s, slot, WithFlag(flags, role, value));
    RecordReads(s, slot, WithFlag(flags, role, value));
    WithFlagReads(flags, role, value);
    forall elsewhere | elsewhere != slot
      ensures MilestoneApprovals.LiveApprovals(t, elsewhere) == MilestoneApprovals.LiveApprovals(s, elsewhere)
    {
      RecordFlags(s, slot, WithFlag(flags, role, value), elsewhere);
    }
    hide MilestoneApprovals.Record, MilestoneApprovals.LiveApprovals, HasFlag, WithFlag;
  }

  /** An approval sets exactly the flag of the caller's role, on exactly this milestone, and touches nothing else. */
  lemma ApproveSets(s: State, id: nat, caller: Address, index: nat, role: Role)
    requires MilestoneApprovals.Approve(s, id, caller, index).Success?
    requires id in s.accounts && Acts(role, caller, s.accounts[id].contract)
    ensures var t := MilestoneApprovals.Approve(s, id, caller, index).value;
            t == s.(approvals := t.approvals) && OnlyFlag(s, t, Slot(id, index), role, true)
  {
    var slot := Slot(id, index);
    RoleIs(caller, s.accounts[id].contract);
    NoneFlagged();
    ApproveRecords(s, id, caller, index);
    hide MilestoneApprovals.Approve, MilestoneApprovals.Record, MilestoneApprovals.LiveApprovals, OnlyFlag, CallerRole;
    var live := MilestoneApprovals.LiveApprovals(s, slot);
    RecordOnly(s, slot, if live.Some? then live.value else MilestoneApprovals.NO_APPROVALS, role, true);
  }

  ghost predicate Revocable(s: State, id: nat, caller: Address, index: nat) {
    && id in s.accounts
    && index < |s.accounts[id].milestones| && !s.accounts[id].milestones[index].released
    && exists role :: Acts(role, caller, s.accounts[id].contract) && FlagLive(s, Slot(id, index), role)
  }

  /** A revocation goes through exactly when the caller's own flag is live on an unreleased milestone. */
  lemma RevokeExactly(s: State, id: nat, caller: Address, index: nat)
    ensures MilestoneApprovals.Revoke(s, id, caller, index).Success? <==> Revocable(s, id, caller, index)
    ensures MilestoneApprovals.Revoke(s, id, caller, index).Failure? ==>
              match MilestoneApprovals.Revoke(s, id, caller, index).error {
                case ContractNotFound => id !in s.accounts
                case IndexOutOfBounds => id in s.accounts && index >= |s.accounts[id].milestones|
                case MilestoneAlreadyReleased =>
                  id in s.accounts && index < |s.accounts[id].milestones| && s.accounts[id].milestones[index].released
                case UnauthorizedRole =>
                  id in s.accounts && forall role :: !Acts(role, caller, s.accounts[id].contract)
                case InsufficientApprovals =>
                  && id in s.accounts
                  && forall role :: Acts(role, caller, s.accounts[id].contract) ==> !FlagLive(s, Slot(id, index), role)
                case _ => false
              }
  {
    hide MilestoneApprovals.Record, MilestoneApprovals.Clear, MilestoneApprovals.LiveApprovals;
    if id in s.accounts {
      RoleIs(caller, s.accounts[id].contract);
    }
  }

  lemma RevokeRecords(s: State, id: nat, caller: Address, index: nat)
    requires MilestoneApprovals.Revoke(s, id, caller, index).Success?
    ensures id in s.accounts && CallerRole(caller, s.accounts[id].contract).Some?
    ensures MilestoneApprovals.LiveApprovals(s, Slot(id, index)).Some?
    ensures var flags := MilestoneApprovals.LiveApprovals(s, Slot(id, index)).value;
            var rest := WithFlag(flags, CallerRole(caller, s.accounts[id].contract).value, false);
            MilestoneApprovals.Revoke(s, id, caller, index).value
            == if rest == MilestoneApprovals.NO_APPROVALS then MilestoneApprovals.Clear(s, Slot(id, index))
               else MilestoneApprovals.Record(s, Slot(id, index), rest)
  {
    hide MilestoneApprovals.Record, MilestoneApprovals.Clear, MilestoneApprovals.LiveApprovals, HasFlag, WithFlag,
         CallerRole;
  }

  /** A revocation takes away exactly the caller's flag: every other flag, of this and any other milestone, is as
      live as before; the record is gone exactly when no flag is left. */
  lemma RevokeClears(s: State, id: nat, caller: Address, index: nat, role: Role)
    requires MilestoneApprovals.Revoke(s, id, caller, index).Success?
    requires id in s.accounts && Acts(role, caller, s.accounts[id].contract)
    ensures var t, slot := MilestoneApprovals.Revoke(s, id, caller, index).value, Slot(id, index);
            && t == s.(approvals := t.approvals) && OnlyFlag(s, t, slot, role, false)
            && (slot !in t.approvals <==> forall other :: !FlagLive(t, slot, other))
  {
    var slot := Slot(id, index);
    RoleIs(caller, s.accounts[id].contract);
    RevokeRecords(s, id, caller, index);
    hide MilestoneApprovals.Revoke, CallerRole, OnlyFlag;
    var flags := MilestoneApprovals.LiveApprovals(s, slot).value;
    if WithFlag(flags, role, false) == MilestoneApprovals.NO_APPROVALS {
      ClearOnly(s, slot, flags, role);
    } else {
      hide MilestoneApprovals.Record, MilestoneApprovals.LiveApprovals;
      RecordOnly(s, slot, flags, role, false);
      RecordReads(s, slot, WithFlag(flags, role, false));
      SomeFlag(WithFlag(flags, role, false));
      var left :| HasFlag(WithFlag(flags, role, false), left);
      assert FlagLive(MilestoneApprovals.Record(s, slot, WithFlag(flags, role, false)), slot, left);
    }
  }

  lemma SomeFlag(flags: Approvals)
    requires flags != MilestoneApprovals.NO_APPROVALS
    ensures exists role :: HasFlag(flags, role)
  {
    assert HasFlag(flags, Client) == flags.client && HasFlag(flags, Freelancer) == flags.freelancer
        && HasFlag(flags, Arbiter) == flags.arbiter;
  }

  lemma ClearOnly(s: State, slot: Slot, flags: Approvals, role: Role)
    requires MilestoneApprovals.LiveApprovals(s, slot) == Some(flags)
    requires WithFlag(flags, role, false) == MilestoneApprovals.NO_APPROVALS
    ensures OnlyFlag(s, MilestoneApprovals.Clear(s, slot), slot, role, false)
    ensures slot !in MilestoneApprovals.Clear(s, slot).approvals
    ensures forall other :: !FlagLive(MilestoneApprovals.Clear(s, slot), slot, other)
  {
    var t := MilestoneApprovals.Clear(s, slot);
    WithFlagReads(flags, role, false);
    NoneFlagged();
    forall elsewhere
      ensures MilestoneApprovals.LiveApprovals(t, elsewhere)
           == if elsewhere == slot then None else MilestoneApprovals.LiveApprovals(s, elsewhere)
    {
      ClearFlags(s, slot, elsewhere);
    }
    hide MilestoneApprovals.Clear, MilestoneApprovals.LiveApprovals, HasFlag, WithFlag;
  }

  /** Reading approvals changes no flag of any milestone. */
  lemma InspectKeepsFlags(s: State, slot: Slot, other: Slot, role: Role)
    ensures FlagLive(MilestoneApprovals.Inspect(s, slot), other, role) == FlagLive(s, other, role)
  {
    var live := MilestoneApprovals.LiveApprovals(s, slot);
    if live.Some? {
      RecordReads(s, slot, live.value);
      RecordFlags(s, slot, live.value, other);
    }
    hide MilestoneApprovals.Record, MilestoneApprovals.LiveApprovals;
  }
}
