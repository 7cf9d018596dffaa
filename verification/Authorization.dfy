/** Role lookup and release-mode matching (`authorization.rs`). */
module Authorization {
  import opened Results
  import opened Types

  datatype Role = Client | Freelancer | Arbiter

  /** The client role shadows the others, the freelancer role shadows the arbiter's. */
  function CallerRole(caller: Address, c: Contract): Option<Role> {
    if caller == c.client then Some(Client)
    else if caller == c.freelancer then Some(Freelancer)
    else if c.arbiter == Some(caller) then Some(Arbiter)
    else None
  }

  /** Roles whose approval a release mode can use. */
  predicate MayApprove(role: Role, mode: ReleaseAuthorization) {
    match mode
    case ClientOnly => role == Client
    case ArbiterOnly => role == Arbiter
    case ClientAndArbiter => role == Client || role == Arbiter
    case MultiSig => role == Client || role == Freelancer
  }

  function RequireReleaseAuthorization(caller: Address, c: Contract): Guard<Error> {
    var role := CallerRole(caller, c);
    Need(role.Some? && MayApprove(role.value, c.releaseAuthorization), UnauthorizedRole)
  }

  /** The inline check of `release_milestone`, which compares addresses and ignores role shadowing. */
  predicate MayRelease(caller: Address, c: Contract) {
    match c.releaseAuthorization
    case ClientOnly => caller == c.client
    case ArbiterOnly => c.arbiter == Some(caller)
    case ClientAndArbiter => caller == c.client || c.arbiter == Some(caller)
    case MultiSig => caller == c.client || caller == c.freelancer
  }

  predicate NeedsArbiter(mode: ReleaseAuthorization) {
    mode == ArbiterOnly || mode == ClientAndArbiter
  }

  /** Flags that a release mode accepts. */
  predicate Sufficient(approvals: Approvals, mode: ReleaseAuthorization) {
    match mode
    case ClientOnly => approvals.client
    case ArbiterOnly => approvals.arbiter
    case ClientAndArbiter => approvals.client || approvals.arbiter
    case MultiSig => approvals.client && approvals.freelancer
  }

  predicate HasFlag(approvals: Approvals, role: Role) {
    match role
    case Client => approvals.client
    case Freelancer => approvals.freelancer
    case Arbiter => approvals.arbiter
  }

  function WithFlag(approvals: Approvals, role: Role, value: bool): Approvals {
    match role
    case Client => approvals.(client := value)
    case Freelancer => approvals.(freelancer := value)
    case Arbiter => approvals.(arbiter := value)
  }

  /** In `MultiSig` mode every role that may approve has approved; in the other modes some such role has. */
  ghost predicate Quorum(approvals: Approvals, mode: ReleaseAuthorization) {
    if mode == MultiSig then forall role :: MayApprove(role, mode) ==> HasFlag(approvals, role)
    else exists role :: MayApprove(role, mode) && HasFlag(approvals, role)
  }

  /** The flags a mode accepts are exactly a quorum of the roles whose approval it can use. */
  lemma SufficientExactly(approvals: Approvals, mode: ReleaseAuthorization)
    ensures Sufficient(approvals, mode) <==> Quorum(approvals, mode)
  {
    assert MayApprove(Client, ClientOnly) && MayApprove(Arbiter, ArbiterOnly) && MayApprove(Client, ClientAndArbiter)
        && MayApprove(Arbiter, ClientAndArbiter) && MayApprove(Client, MultiSig) && MayApprove(Freelancer, MultiSig);
    assert HasFlag(approvals, Client) == approvals.client && HasFlag(approvals, Freelancer) == approvals.freelancer
        && HasFlag(approvals, Arbiter) == approvals.arbiter;
  }
}
