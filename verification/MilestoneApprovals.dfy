/** Temporary milestone approvals (`approvals.rs`). */
module MilestoneApprovals {
  import opened Results
  import opened Types
  import opened Authorization
  import opened TempStorage

  const NO_APPROVALS := Approvals(false, false, false)

  function LiveApprovals(s: State, slot: Slot): Option<Approvals> {
    Read(s.approvals, slot, s.clock)
  }

  function Record(s: State, slot: Slot, approvals: Approvals): (t: State)
    ensures t == s.(approvals := t.approvals)
  {
    s.(approvals := Write(s.approvals, slot, approvals, s.clock, APPROVAL_BUMP_THRESHOLD, APPROVAL_TTL))
  }

  function Clear(s: State, slot: Slot): (t: State)
    ensures t == s.(approvals := t.approvals)
  {
    s.(approvals := s.approvals - {slot})
  }

  function Approve(s: State, id: nat, caller: Address, index: nat): Result<State, Error> {
    var slot := Slot(id, index);
    :- Need(index < MAX_MILESTONES, IndexOutOfBounds);
    :- RequireNotPaused(s.config);
    :- RequireNotFinalized(s, id);
    var account :- Load(s, id);
    var c := account.contract;
    :- Need(c.status == Funded || c.status == PartiallyFunded, InvalidState);
    :- Need(index < |account.milestones|, IndexOutOfBounds);
    :- Need(!account.milestones[index].released, MilestoneAlreadyReleased);
    :- RequireReleaseAuthorization(caller, c);
    var live := LiveApprovals(s, slot);
    var approvals := if live.Some? then live.value else NO_APPROVALS;
    var role := CallerRole(caller, c).value;
    :- Need(!HasFlag(approvals, role), AlreadyApproved);
    Success(Record(s, slot, WithFlag(approvals, role, true)))
  }

  function Revoke(s: State, id: nat, caller: Address, index: nat): Result<State, Error> {
    var account :- Load(s, id);
    :- Need(index < |account.milestones|, IndexOutOfBounds);
    :- Need(!account.milestones[index].released, MilestoneAlreadyReleased);
    var role := CallerRole(caller, account.contract);
    :- Need(role.Some?, UnauthorizedRole);
    var live := LiveApprovals(s, Slot(id, index));
    :- Need(live.Some?, InsufficientApprovals);
    :- Need(HasFlag(live.value, role.value), InsufficientApprovals);
    var rest := WithFlag(live.value, role.value, false);
    Success(if rest == NO_APPROVALS then Clear(s, Slot(id, index)) else Record(s, Slot(id, index), rest))
  }

  /** `get_milestone_approvals`: a read that renews an entry close to expiry. */
  function Inspect(s: State, slot: Slot): State {
    var live := LiveApprovals(s, slot);
    if live.Some? then Record(s, slot, live.value) else s
  }

  /** Missing, expired and insufficient approvals all fail closed. */
  function CheckApprovals(s: State, c: Contract, slot: Slot): Guard<Error> {
    var live := LiveApprovals(s, slot);
    Need(live.Some? && Sufficient(live.value, c.releaseAuthorization), InsufficientApprovals)
  }
}
