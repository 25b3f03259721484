/** When each authority request is accepted and what it leaves behind, in terms of the request and what is stored. */
module AuthorityEffects {
  import opened Basics
  import opened AuthorityRecord
  import opened SecurityPolicy
  import opened RecoveryInventory
  import opened RecoveryReconciliation
  import opened Authorizations
  import opened AuthorityModel
  import opened AuthorityInvariant
  import opened AuthorityRuns

  // ----- the policy of ordinary transitions

  /** How much a state restricts; recovery stands outside the scale. */
  function Severity(state: SecurityState): Option<nat> {
    match state
    case Normal => Some(0)
    case Degraded => Some(1)
    case CompromisedSuspected => Some(2)
    case Lockdown => Some(3)
    case RecoveryRequired => None
  }

  predicate Raises(a: SecurityState, b: SecurityState) {
    match (Severity(a), Severity(b))
    case (Some(from), Some(to)) => from < to
    case _ => false
  }

  /** Restrictions may always be raised. They are only eased from a degraded state to normal, or through recovery, which
      every restricted state may enter and which leads anywhere. */
  predicate PolicyEdge(a: SecurityState, b: SecurityState) {
    || Raises(a, b) || (a == Degraded && b == Normal)
    || (b == RecoveryRequired && a != Normal && a != RecoveryRequired) || (a == RecoveryRequired && b != RecoveryRequired)
  }

  lemma {:induction false} EdgesExactly(a: SecurityState, b: SecurityState)
    ensures ValidTransition(a, b) <==> PolicyEdge(a, b)
  {
  }

  /** The states a reason leads to. */
  function StatesFor(reason: Reason): set<SecurityState> {
    match reason
    case InvariantViolation => {CompromisedSuspected, Lockdown}
    case IntegrityCheckFailed => {CompromisedSuspected, Lockdown}
    case CredentialCompromiseSuspected => {CompromisedSuspected, Lockdown}
    case AuthorityBoundaryViolation => {CompromisedSuspected, Lockdown}
    case DependencyDegraded => {Degraded}
    case OperatorDegradedMode => {Degraded}
    case OperatorLockdown => {Lockdown}
    case RecoveryStarted => {RecoveryRequired}
    case RecoveryVerified => {Normal}
    case RecoveryPartial => {}
    case RecoveryFailed => {}
  }

  /** The operator may give every reason; the detector gives those it observes, the recovery service those of recovery. */
  predicate Gives(actor: Actor, reason: Reason) {
    match actor
    case LocalOperator => true
    case SecurityDetector => CompromisedSuspected in StatesFor(reason) || reason == DependencyDegraded
    case RecoveryService => reason == RecoveryStarted || reason == RecoveryVerified
  }

  /** Who may request which edge: whoever may give a reason that leads to the state requested. */
  lemma {:induction false} AuthorizedExactly(a: SecurityState, b: SecurityState, actor: Actor, reason: Reason)
    ensures Authorized(a, b, actor, reason) <==> PolicyEdge(a, b) && b in StatesFor(reason) && Gives(actor, reason)
  {
    EdgesExactly(a, b);
  }

  // ----- ordinary transitions

  /** Outside recovery, at the version the caller saw, to another state, along an edge of the policy. */
  ghost predicate MayMove(s: System, req: TransitionRequest) {
    && !s.record.pending && s.record.version == req.expectedVersion && !Blank(req.actorId)
    && req.requested != s.record.state && !IdUsed(s.trail, req.id)
    && PolicyEdge(s.record.state, req.requested)
    && req.requested in StatesFor(req.reason) && Gives(req.actor, req.reason)
  }

  /** The state requested already holds. */
  ghost predicate AlreadyThere(s: System, req: TransitionRequest) {
    && !s.record.pending && s.record.version == req.expectedVersion && !Blank(req.actorId) && req.requested == s.record.state
  }

  /** An accepted request leaves the state it asks for, one version on and with one audit row about it; asking for the
      present state is accepted without effect. Nothing else is accepted. */
  lemma {:induction false} TransitionExactly(s: System, req: TransitionRequest, now: Time)
    requires SystemSound(s)
    ensures TransitionSpec(s, req, now).0 != s <==> MayMove(s, req)
    ensures var (t, r) := TransitionSpec(s, req, now);
      && (r.Ok? <==> MayMove(s, req) || AlreadyThere(s, req))
      && (r.Ok? ==> t.record.state == req.requested && r.value.state == req.requested
                    && r.value.version == t.record.version && r.value.epoch == s.record.epoch)
      && (MayMove(s, req) ==>
            && t == s.(record := t.record, trail := t.trail)
            && t.record == s.record.(state := req.requested, version := s.record.version + 1)
            && r.value.transition == Some(req.id) && |t.trail| == |s.trail| + 1 && s.trail <= t.trail
            && var row := t.trail[|s.trail|];
               && row.id == req.id && row.previous == s.record.state && row.next == req.requested
               && row.actor == req.actor && row.reason == req.reason && row.related == req.related
               && row.version == s.record.version + 1 && row.epoch == s.record.epoch && row.createdAt == now)
      && (AlreadyThere(s, req) ==> r.value.transition == None)
  {
    AuthorizedExactly(s.record.state, req.requested, req.actor, req.reason);
    EdgesExactly(s.record.state, req.requested);
    if ValidTransition(s.record.state, req.requested) {
      ValidIsCapable(s.record.state, req.requested);
    }
  }

  // ----- where the present state comes from

  /** The step makes this the state: an accepted request that asks for it, or a restoration to NORMAL. */
  ghost predicate Names(s: System, step: Step, state: SecurityState) {
    (step.Move? && MayMove(s, step.move) && step.move.requested == state) || (Restores(s, step) && state == Normal)
  }

  lemma {:induction false} StepNames(s: System, step: Step)
    requires SystemSound(s) && !After(s, step).record.pending
    ensures Names(s, step, After(s, step).record.state) || (!s.record.pending && After(s, step).record.state == s.record.state)
  {
    if step.Move? {
      TransitionExactly(s, step.move, step.now);
    } else if s.record.pending {
      StepClearsFence(s, step);
      RestoredIsNormal(s, step);
    }
  }

  lemma {:induction false} RestoredIsNormal(s: System, step: Step)
    requires SystemSound(s) && Restores(s, step)
    ensures After(s, step).record.state == Normal
  {
    if step.RestoreReconstruction? {
      CombinedRestorationSucceeds(s, step.restoration, step.replacement, step.newEpoch, step.now, step.id, step.secondId);
    }
  }

  /** From a moment on the system was outside recovery in the state it ends in. */
  ghost predicate Holds(s: System, steps: seq<Step>, from: nat) {
    from <= |steps| && forall k | from <= k <= |steps| ::
      !Run(s, steps[..k]).record.pending && Run(s, steps[..k]).record.state == Run(s, steps).record.state
  }

  lemma {:induction false} HoldsLater(s: System, steps: seq<Step>, from: nat)
    requires steps != [] && Holds(After(s, steps[0]), steps[1..], from)
    ensures Holds(s, steps, from + 1)
  {
    forall k | from + 1 <= k <= |steps|
      ensures !Run(s, steps[..k]).record.pending && Run(s, steps[..k]).record.state == Run(s, steps).record.state
    {
      assert steps[..k][1..] == steps[1..][..k - 1] && steps[..k][0] == steps[0];
    }
  }

  /** Outside recovery, the state a run ends in is the one that its last naming step named, or the one it began in. */
  lemma {:induction false} StateWasNamed(s: System, steps: seq<Step>) returns (k: Option<nat>)
    requires SystemSound(s) && !Run(s, steps).record.pending
    ensures k == None ==> Holds(s, steps, 0)
    ensures k.Some? ==> k.value < |steps| && Holds(s, steps, k.value + 1)
    ensures k.Some? ==> var before := Run(s, steps[..k.value]);
      SystemSound(before) && Names(before, steps[k.value], Run(s, steps).record.state)
    decreases |steps|
  {
    if steps == [] {
      assert forall k | 0 <= k <= |steps| :: steps[..k] == steps;
      return None;
    }
    var next := After(s, steps[0]);
    StepKeepsSound(s, steps[0]);
    var later := StateWasNamed(next, steps[1..]);
    if later.Some? {
      var j := later.value;
      assert steps[..j + 1][1..] == steps[1..][..j] && steps[..j + 1][0] == steps[0];
      HoldsLater(s, steps, j + 1);
      return Some(j + 1);
    }
    assert steps[1..][..0] == [];
    assert !next.record.pending && next.record.state == Run(s, steps).record.state;
    StepNames(s, steps[0]);
    HoldsLater(s, steps, 0);
    assert steps[..0] == [];
    if Names(s, steps[0], next.record.state) {
      return Some(0);
    }
    return None;
  }

  // ----- startup and reconstruction

  /** Starting for recovery outside recovery raises the fence: it remembers the state and version it interrupts, and counts as
      a new version. Any other start changes nothing. The answer is the authority then in force. */
  lemma {:induction false} InitializeExactly(s: System, mode: StartupMode, otherHistory: bool, now: Time)
    requires SystemSound(s)
    ensures var (t, r) := InitializeSpec(s, mode, otherHistory, now);
      && t == s.(record := t.record) && (r.Ok? ==> Load(t.record) == Some(r.value))
      && (r.Ok? <==> mode != Fresh || (s.trail == [] && !otherHistory && s.record.version == 1 && s.record.state == Normal
                                       && !s.record.pending && !s.record.validationPending))
      && if mode == Recovery && !s.record.pending then
           && BasisOf(t.record) == Some(Basis(s.record.epoch, RecoveryRequired, s.record.version + 1, true,
                                              Some(Origin(s.record.state, s.record.version, now))))
           && t.record.validationPending == s.record.validationPending
         else t == s
  {
  }

  /** The fence of a reconstruction is raised exactly on a row nothing was ever done to, and takes state, version and epoch
      from the manifest. */
  lemma {:induction false} EstablishedExactly(s: System, m: Manifest, now: Time)
    requires SystemSound(s)
    ensures var (t, r) := EstablishFenceSpec(s, m, now);
      && (r.Ok? <==> s.record.state == Normal && s.record.version == 1 && !s.record.pending && !s.record.validationPending)
      && t == s.(record := t.record) && (r.Err? ==> t == s)
      && (r.Ok? ==>
            && t.record.validationPending
            && BasisOf(t.record) == Some(Basis(m.epoch, RecoveryRequired, m.version + 1, true, Some(Origin(m.state, m.version, now)))))
  {
  }

  /** Only a fence raised for the same manifest is published as ready. */
  lemma {:induction false} PublishedExactly(s: System, m: Manifest, otherChecks: bool)
    requires SystemSound(s)
    ensures var (t, r) := PublishReadinessSpec(s, m, otherChecks);
      && (r.Ok? <==>
            && otherChecks && s.record.validationPending && s.record.state == m.state
            && exists startedAt :: BasisOf(s.record) ==
                 Some(Basis(m.epoch, RecoveryRequired, m.version + 1, true, Some(Origin(m.state, m.version, startedAt)))))
      && t == (if r.Ok? then s.(record := s.record.(validationPending := false)) else s)
  {
    SoundHasBasis(s.record);
    if PublishReadinessSpec(s, m, otherChecks).1.Ok? {
      assert BasisOf(s.record) ==
        Some(Basis(m.epoch, RecoveryRequired, m.version + 1, true, Some(Origin(m.state, m.version, s.record.startedAt.value))));
    }
  }

  // ----- recovery contexts

  /** The inventory lists each piece of evidence and each operation once, within the bound. */
  ghost predicate Recordable(inventory: Inventory) {
    && |inventory.evidence| <= 100 && |inventory.operations| <= 100 && Distinct(inventory.evidence)
    && forall i, j | 0 <= i < j < |inventory.operations| ::
         inventory.operations[i].kind != inventory.operations[j].kind || inventory.operations[i].id != inventory.operations[j].id
  }

  /** A new context is captured exactly behind a published fence, for the present basis, before it expires. It holds the
      inventory of the moment, and is complete exactly if the inventory is. */
  lemma {:induction false} CapturedExactly(s: System, req: CaptureRequest, inventory: Inventory, now: Time)
    requires SystemSound(s) && req.id !in s.contexts && req.id !in s.contextAudit
    ensures var (t, r) := CaptureSpec(s, req, inventory, now);
      && (r.Ok? <==>
            && s.record.pending && !s.record.validationPending && BasisOf(s.record) == Some(req.expectedBasis)
            && s.record.startedAt.value <= now < req.expiresAt && Recordable(inventory))
      && (r.Err? ==> t == s)
      && (r.Ok? ==>
            && t == s.(contexts := t.contexts, contextAudit := t.contextAudit)
            && t.contexts == s.contexts[req.id := t.contexts[req.id]] && t.contexts[req.id].document == r.value
            && r.value.id == req.id && r.value.basis == req.expectedBasis && r.value.incident.epoch == s.record.epoch
            && r.value.evidence == inventory.evidence && r.value.operations == inventory.operations
            && (r.value.status == if inventory.partial then Partial else Complete)
            && r.value.createdAt == now && r.value.expiresAt == req.expiresAt)
  {
    SoundHasBasis(s.record);
  }

  /** The identity of a stored context answers only the request that captured it, with what was captured then. */
  lemma {:induction false} CaptureReplays(s: System, req: CaptureRequest, inventory: Inventory, now: Time)
    requires SystemSound(s) && req.id in s.contexts
    ensures CaptureSpec(s, req, inventory, now) ==
      (s, if !s.record.validationPending && s.contexts[req.id].command == req then Ok(s.contexts[req.id].document) else Err(Conflict))
  {
    SoundHasBasis(s.record);
    assert ContextSound(s, req.id);
  }

  // ----- grants and executions

  /** The identity of a stored grant answers only the request that was granted. */
  lemma {:induction false} GrantReplays(s: System, req: GrantRequest, now: Time)
    requires SystemSound(s) && req.id in s.store.grants
    ensures IssueGrantSpec(s, req, now) ==
      (s, if s.store.grants[req.id].command == req then Ok(s.store.grants[req.id].document) else Err(Conflict))
  {
    assert GrantSound(s.store, req.id);
  }

  /** A new grant is issued exactly for the present epoch, before it expires, if its scope and basis name the context it is
      bound to; not for recovery while a reconstruction is unpublished. */
  lemma {:induction false} GrantedExactly(s: System, req: GrantRequest, now: Time)
    requires SystemSound(s) && req.id !in s.store.grants
    ensures var (t, r) := IssueGrantSpec(s, req, now);
      && (r.Ok? <==>
            && req.expectedEpoch == s.record.epoch && now < req.expiresAt && Distinct(req.scope) && Distinct(req.basis)
            && (req.context.Some? ==>
                  ContextScope(req.context.value) in req.scope && Reference(ContextBasis, req.context.value) in req.basis)
            && (s.record.validationPending ==> req.context == None && req.capability != RecoveryAction)
            && req.id !in s.store.audit)
      && (r.Err? ==> t == s)
      && (r.Ok? ==>
            && t == s.(store := t.store) && t.store.executions == s.store.executions
            && t.store.grants == s.store.grants[req.id := t.store.grants[req.id]] && t.store.grants[req.id].document == r.value
            && r.value == Grant(req.id, req.principal, req.capability, req.scope, s.record.epoch, req.basis, now, req.expiresAt,
                                req.replay, req.context))
  {
  }

  /** A new execution is issued exactly under a grant of the present epoch that is in force and covers its scope, its time
      and its context; not for recovery while a reconstruction is unpublished. */
  lemma {:induction false} ExecutionIssuedExactly(s: System, req: ExecutionRequest, now: Time)
    requires SystemSound(s) && req.id !in s.store.executions && req.operator in s.store.grants
    ensures var (t, r) := IssueExecutionSpec(s, req, now); var grant := s.store.grants[req.operator].document;
      && (r.Ok? <==>
            && req.expectedEpoch == s.record.epoch == grant.epoch
            && grant.issuedAt <= now < req.expiresAt <= grant.expiresAt
            && Distinct(req.scope) && Elements(req.scope) <= Elements(grant.scope)
            && (req.context.Some? ==> grant.context == req.context && ContextScope(req.context.value) in req.scope)
            && (s.record.validationPending ==> req.context == None && grant.context == None && grant.capability != RecoveryAction)
            && req.id !in s.store.audit)
      && (r.Err? ==> t == s)
      && (r.Ok? ==>
            && t == s.(store := t.store) && t.store.grants == s.store.grants
            && t.store.executions == s.store.executions[req.id := t.store.executions[req.id]]
            && t.store.executions[req.id].document == r.value
            && r.value == Execution(req.id, req.execution, req.operator, grant.capability, req.scope, s.record.epoch, now,
                                    req.expiresAt, req.replay, req.context))
  {
    assert GrantSound(s.store, req.operator);
  }

  // ----- restoration and epoch replacement

  /** The stored context is complete, current, and still all there is. */
  ghost predicate ContextStands(s: System, context: Context, now: Time) {
    && Some(context.basis) == BasisOf(s.record) && context.createdAt <= now < context.expiresAt && context.status == Complete
    && |s.Stored().AllEvidence()| <= 100 && s.Stored().AllEvidence() == Elements(context.evidence)
    && s.Stored().AllOpen() == {}
  }

  /** A restoration is prepared exactly if a published fence stands at the epoch and version named, the context stands, and
      the execution, issued under the named grant and this epoch, authorizes recovery of this context now. That the grant is
      in force and bound to the context as well follows. */
  lemma {:induction false} PreparedExactly(s: System, req: RestorationRequest, now: Time)
    requires SystemSound(s)
    ensures Prepared(s, req, now) <==>
      && s.record.pending && !s.record.validationPending
      && s.record.epoch == req.expectedEpoch && s.record.version == req.expectedVersion
      && req.context in s.contexts && ContextStands(s, s.contexts[req.context].document, now)
      && req.execution in s.store.executions
      && var execution := s.store.executions[req.execution].document;
         && execution.operator == req.operator && execution.epoch == s.record.epoch
         && execution.issuedAt <= now < execution.expiresAt
         && execution.capability == RecoveryAction && execution.context == Some(req.context)
  {
    SoundHasBasis(s.record);
    assert req.context in s.contexts ==> ContextSound(s, req.context);
    assert req.operator in s.store.grants ==> GrantSound(s.store, req.operator);
    if req.execution in s.store.executions {
      assert ExecutionSound(s.store, req.execution);
      assert GrantSound(s.store, s.store.executions[req.execution].document.operator);
    }
  }

  /** A prepared restoration leaves the system NORMAL under the same epoch, one version on, with one audit row naming what was
      presented; any other leaves everything as it was. */
  lemma {:induction false} RestoredExactly(s: System, req: RestorationRequest, now: Time, id: Id)
    requires SystemSound(s)
    ensures var (t, r) := CompleteSpec(s, req, now, id);
      if Prepared(s, req, now) && !IdUsed(s.trail, id) then
        && r.Ok? && t == s.(record := t.record, trail := s.trail + [r.value])
        && BasisOf(t.record) == Some(Basis(s.record.epoch, Normal, s.record.version + 1, false, None)) && !t.record.validationPending
        && r.value.id == id && r.value.previous == RecoveryRequired && r.value.next == Normal
        && r.value.actor == RecoveryService && r.value.reason == RecoveryVerified && r.value.createdAt == now
        && r.value.version == s.record.version + 1 && r.value.epoch == s.record.epoch
        && Elements(r.value.related) == {req.restoration, req.context, req.operator, req.execution}
      else r.Err? && t == s
  {
  }

  /** The audit row of the restoration named, under the epoch to be replaced. */
  predicate Proves(row: Transition, req: ReplaceRequest) {
    && row.id == req.restorationTransition && row.previous == RecoveryRequired && row.next == Normal
    && row.epoch == req.expectedEpoch && req.restoration in row.related
  }

  lemma {:induction false} ProofInTrail(trail: seq<Transition>, req: ReplaceRequest)
    ensures ProvesRestoration(trail, req) <==> exists row :: row in trail && Proves(row, req)
  {
    if row :| row in trail && Proves(row, req) {
      var i :| 0 <= i < |trail| && trail[i] == row;
    }
    if i :| 0 <= i < |trail| && Proves(trail[i], req) {
      assert trail[i] in trail;
    }
  }

  /** The epoch is replaced exactly in a NORMAL system at the epoch and version named, by another one, on proof of a
      restoration under it; nothing but epoch and version changes. */
  lemma {:induction false} ReplacedExactly(s: System, req: ReplaceRequest, now: Time, id: Id)
    requires SystemSound(s)
    ensures var (t, r) := ReplaceSpec(s, req, now, id);
      if && !s.record.pending && s.record.state == Normal && s.record.epoch == req.expectedEpoch
         && s.record.version == req.expectedVersion && req.newEpoch != req.expectedEpoch
         && (exists row :: row in s.trail && Proves(row, req))
         && (forall row | row in s.trail :: row.id != id)
      then
        && r.Ok? && t == s.(record := s.record.(epoch := req.newEpoch, version := s.record.version + 1), trail := s.trail + [r.value])
        && r.value.id == id && r.value.previous == Normal && r.value.next == Normal
        && r.value.version == s.record.version + 1 && r.value.epoch == req.newEpoch && r.value.createdAt == now
        && r.value.actor == RecoveryService && r.value.reason == RecoveryVerified
        && Elements(r.value.related) == {req.replacement, req.restoration, req.restorationTransition, req.expectedEpoch}
      else r.Err? && t == s
  {
    ProofInTrail(s.trail, req);
    assert IdUsed(s.trail, id) <==> exists row :: row in s.trail && row.id == id;
  }

  /** A combined restoration leaves the system NORMAL under the new epoch, two versions on, with the audit row of the restoration
      under the old epoch followed by that of the replacement, which is the answer; or everything as it was. */
  lemma {:induction false} ReconstructedExactly(
    s: System, req: RestorationRequest, replacement: Id, newEpoch: EpochId, now: Time, id: Id, secondId: Id)
    requires SystemSound(s)
    ensures var (t, r) := CompleteReconstructionSpec(s, req, replacement, newEpoch, now, id, secondId);
      if && Prepared(s, req, now) && newEpoch != s.record.epoch && secondId != id
         && !IdUsed(s.trail, id) && !IdUsed(s.trail, secondId)
      then
        && r.Ok? && t == s.(record := t.record, trail := t.trail)
        && BasisOf(t.record) == Some(Basis(newEpoch, Normal, s.record.version + 2, false, None)) && !t.record.validationPending
        && |t.trail| == |s.trail| + 2 && s.trail <= t.trail && t.trail[|s.trail| + 1] == r.value
        && var first := t.trail[|s.trail|];
           && first.id == id && first.previous == RecoveryRequired && first.next == Normal
           && first.epoch == s.record.epoch && first.version == s.record.version + 1
           && r.value.id == secondId && r.value.previous == Normal && r.value.next == Normal
           && r.value.epoch == newEpoch && r.value.version == s.record.version + 2
           && Elements(r.value.related) == {replacement, req.restoration, id, s.record.epoch}
      else r.Err? && t == s
  {
    CombinedRestorationSucceeds(s, req, replacement, newEpoch, now, id, secondId);
    RestoredExactly(s, req, now, id);
  }
}
