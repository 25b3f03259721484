/** Which transitions of the security state are valid, who may request them, and what they need. */
module SecurityPolicy {
  import opened AuthorityRecord

  datatype Actor = LocalOperator | SecurityDetector | RecoveryService

  datatype Reason =
    | OperatorLockdown | InvariantViolation | IntegrityCheckFailed | CredentialCompromiseSuspected
    | AuthorityBoundaryViolation | DependencyDegraded | RecoveryStarted | RecoveryVerified | RecoveryPartial
    | RecoveryFailed | OperatorDegradedMode

  datatype Direction = Reduce | Preserve | Broaden

  datatype Need = Containment | Recovering | Administration

  predicate ValidTransition(a: SecurityState, b: SecurityState) {
    match a
    case Normal => b in {Degraded, CompromisedSuspected, Lockdown}
    case Degraded => b in {Normal, CompromisedSuspected, Lockdown, RecoveryRequired}
    case CompromisedSuspected => b in {Lockdown, RecoveryRequired}
    case Lockdown => b == RecoveryRequired
    case RecoveryRequired => b in {Normal, Degraded, CompromisedSuspected, Lockdown}
  }

  function DirectionOf(a: SecurityState, b: SecurityState): Direction {
    if a == Normal && b != Normal then Reduce else if a != Normal && b == Normal then Broaden else Preserve
  }

  predicate Finding(reason: Reason) {
    reason in {InvariantViolation, IntegrityCheckFailed, CredentialCompromiseSuspected, AuthorityBoundaryViolation}
  }

  /** The reasons each actor may give for entering a state, on any valid edge into it. */
  predicate MayEnter(requested: SecurityState, actor: Actor, reason: Reason) {
    match requested
    case Degraded =>
      || (actor == LocalOperator && reason in {OperatorDegradedMode, DependencyDegraded})
      || (actor == SecurityDetector && reason == DependencyDegraded)
    case CompromisedSuspected => actor in {LocalOperator, SecurityDetector} && Finding(reason)
    case Lockdown =>
      || (actor == LocalOperator && (Finding(reason) || reason == OperatorLockdown))
      || (actor == SecurityDetector && Finding(reason))
    case RecoveryRequired => actor in {LocalOperator, RecoveryService} && reason == RecoveryStarted
    case Normal => actor in {LocalOperator, RecoveryService} && reason == RecoveryVerified
  }

  predicate Authorized(a: SecurityState, b: SecurityState, actor: Actor, reason: Reason) {
    ValidTransition(a, b) && MayEnter(b, actor, reason)
  }

  predicate Allows(state: SecurityState, need: Need, direction: Direction) {
    match need
    case Containment => direction in {Reduce, Preserve}
    case Recovering => state != Normal && direction == Preserve
    case Administration => direction in {Reduce, Preserve} || state in {Normal, Degraded, RecoveryRequired}
  }

  /** The capabilities a transition requires of the state it leaves. */
  predicate Capable(a: SecurityState, b: SecurityState) {
    var direction := DirectionOf(a, b);
    && Allows(a, Administration, direction)
    && if direction == Broaden || b == RecoveryRequired then Allows(a, Recovering, Preserve)
       else Allows(a, Containment, direction)
  }

  /** What the capability check asks: easing to normal only from a degraded state or recovery, and recovery only of a
      restricted state. */
  lemma {:induction false} CapableExactly(a: SecurityState, b: SecurityState)
    ensures Capable(a, b) <==>
      (b == Normal ==> a != CompromisedSuspected && a != Lockdown) && (b == RecoveryRequired ==> a != Normal)
  {
  }

  /** So on valid edges it never refuses: the edges and the matrix decide. */
  lemma {:induction false} ValidIsCapable(a: SecurityState, b: SecurityState)
    requires ValidTransition(a, b)
    ensures Capable(a, b)
  {
    CapableExactly(a, b);
  }
}
