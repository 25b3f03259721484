/** Theorems over every run of authority requests, while the evidence and the attempts change underneath. */
module AuthorityRuns {
  import opened Basics
  import opened AuthorityRecord
  import opened SecurityPolicy
  import opened RecoveryInventory
  import opened Authorizations
  import opened AuthorityModel
  import opened AuthorityInvariant

  datatype Step =
    | Move(move: TransitionRequest, now: Time)
    | Start(mode: StartupMode, otherHistory: bool, now: Time)
    | EstablishFence(manifest: Manifest, now: Time)
    | PublishReadiness(manifest: Manifest, otherChecks: bool)
    | Capture(capture: CaptureRequest, inventory: Inventory, now: Time)
    | IssueGrant(grant: GrantRequest, now: Time)
    | IssueExecution(execution: ExecutionRequest, now: Time)
    | Restore(restoration: RestorationRequest, now: Time, id: Id)
    | RestoreReconstruction(restoration: RestorationRequest, replacement: Id, newEpoch: EpochId, now: Time, id: Id, secondId: Id)
    | Replace(replace: ReplaceRequest, now: Time, id: Id)
    | Import(archive: System)
    | Elsewhere(history: Stored)

  ghost function After(s: System, step: Step): System {
    match step
    case Move(move, now) => TransitionSpec(s, move, now).0
    case Start(mode, otherHistory, now) => InitializeSpec(s, mode, otherHistory, now).0
    case EstablishFence(manifest, now) => EstablishFenceSpec(s, manifest, now).0
    case PublishReadiness(manifest, otherChecks) => PublishReadinessSpec(s, manifest, otherChecks).0
    case Capture(capture, inventory, now) => if Reports(s.Stored(), inventory) then CaptureSpec(s, capture, inventory, now).0 else s
    case IssueGrant(grant, now) => IssueGrantSpec(s, grant, now).0
    case IssueExecution(execution, now) => IssueExecutionSpec(s, execution, now).0
    case Restore(restoration, now, id) => CompleteSpec(s, restoration, now, id).0
    case RestoreReconstruction(restoration, replacement, newEpoch, now, id, secondId) =>
      CompleteReconstructionSpec(s, restoration, replacement, newEpoch, now, id, secondId).0
    case Replace(replace, now, id) => ReplaceSpec(s, replace, now, id).0
    case Import(archive) => if Archived(s, archive) then ImportSpec(s, archive) else s
    case Elsewhere(history) => s.(history := history)
  }

  ghost function Run(s: System, steps: seq<Step>): System
    decreases |steps|
  {
    if steps == [] then s else Run(After(s, steps[0]), steps[1..])
  }

  lemma {:induction false} GrantStepKeepsSound(s: System, grant: GrantRequest, now: Time)
    requires SystemSound(s)
    ensures SystemSound(IssueGrantSpec(s, grant, now).0)
  {
    IssueGrantKeepsSound(s.store, Load(s.record).value, grant, now);
    OtherRowsKept(s, IssueGrantSpec(s, grant, now).0);
  }

  lemma {:induction false} ExecutionStepKeepsSound(s: System, execution: ExecutionRequest, now: Time)
    requires SystemSound(s)
    ensures SystemSound(IssueExecutionSpec(s, execution, now).0)
  {
    IssueExecutionKeepsSound(s.store, Load(s.record).value, execution, now);
    OtherRowsKept(s, IssueExecutionSpec(s, execution, now).0);
  }

  lemma {:induction false} StepKeepsSound(s: System, step: Step)
    requires SystemSound(s)
    ensures SystemSound(After(s, step))
  {
    match step
    case Move(move, now) => TransitionKeepsSound(s, move, now);
    case Start(mode, otherHistory, now) => InitializeKeepsSound(s, mode, otherHistory, now);
    case EstablishFence(manifest, now) => EstablishFenceKeepsSound(s, manifest, now);
    case PublishReadiness(manifest, otherChecks) => PublishReadinessKeepsSound(s, manifest, otherChecks);
    case Capture(capture, inventory, now) => CaptureKeepsSound(s, capture, inventory, now);
    case IssueGrant(grant, now) => GrantStepKeepsSound(s, grant, now);
    case IssueExecution(execution, now) => ExecutionStepKeepsSound(s, execution, now);
    case Restore(restoration, now, id) => CompleteKeepsSound(s, restoration, now, id);
    case RestoreReconstruction(restoration, replacement, newEpoch, now, id, secondId) =>
      CompleteReconstructionKeepsSound(s, restoration, replacement, newEpoch, now, id, secondId);
    case Replace(replace, now, id) => ReplaceKeepsSound(s, replace, now, id);
    case Import(archive) =>
      if Archived(s, archive) {
        ImportKeepsSound(s, archive);
      }
    case Elsewhere(history) => OtherRowsKept(s, After(s, step));
  }

  /** In every reachable state the row loads and gives a basis, every stored artifact reads back, and the audit trail
      accounts for the present authority. */
  lemma {:induction false} RunKeepsSound(s: System, steps: seq<Step>)
    requires SystemSound(s)
    ensures SystemSound(Run(s, steps)) && BasisOf(Run(s, steps).record).Some?
    decreases |steps|
  {
    if steps == [] {
      SoundHasBasis(s.record);
    } else {
      StepKeepsSound(s, steps[0]);
      RunKeepsSound(After(s, steps[0]), steps[1..]);
    }
  }

  // ----- versions

  /** What a version identifies: state, epoch and fence, but not whether a reconstruction was validated. */
  function Effective(r: Record): (SecurityState, Id, bool) {
    (if r.pending then RecoveryRequired else r.state, r.epoch, r.pending)
  }

  ghost predicate Advances(a: Record, b: Record) {
    a.version <= b.version && (a.version == b.version ==> Effective(a) == Effective(b))
  }

  lemma {:induction false} StepAdvances(s: System, step: Step)
    requires SystemSound(s)
    ensures Advances(s.record, After(s, step).record)
  {
  }

  /** Versions never fall, and every change of the effective state, the epoch or the fence raises the version: two moments
      of a run with the same version have the same authority. */
  lemma {:induction false} RunAdvances(s: System, steps: seq<Step>)
    requires SystemSound(s)
    ensures Advances(s.record, Run(s, steps).record)
    decreases |steps|
  {
    if steps != [] {
      StepAdvances(s, steps[0]);
      StepKeepsSound(s, steps[0]);
      RunAdvances(After(s, steps[0]), steps[1..]);
    }
  }

  // ----- the fence

  /** The step is a restoration, and everything a restoration has to check holds at that moment. */
  ghost predicate ClearsFence(s: System, step: Step) {
    (step.Restore? || step.RestoreReconstruction?) && Prepared(s, step.restoration, step.now)
  }

  /** A restoration whose checks pass and whose audit rows can be stored. */
  ghost predicate Restores(s: System, step: Step) {
    && ClearsFence(s, step) && !IdUsed(s.trail, step.id)
    && (step.RestoreReconstruction? ==>
          step.newEpoch != s.record.epoch && step.secondId != step.id && !IdUsed(s.trail, step.secondId))
  }

  lemma {:induction false} StepClearsFence(s: System, step: Step)
    requires SystemSound(s) && s.record.pending
    ensures !After(s, step).record.pending <==> Restores(s, step)
  {
    if step.RestoreReconstruction? {
      CombinedRestorationSucceeds(s, step.restoration, step.replacement, step.newEpoch, step.now, step.id, step.secondId);
    }
  }

  /** Only a restoration clears a recovery fence, however the fence was raised and whatever happened meanwhile. */
  lemma {:induction false} FenceClearedByRestoration(s: System, steps: seq<Step>) returns (k: nat)
    requires SystemSound(s) && s.record.pending && !Run(s, steps).record.pending
    ensures k < |steps|
    ensures var before := Run(s, steps[..k]); SystemSound(before) && before.record.pending && Restores(before, steps[k])
    decreases |steps|
  {
    var next := After(s, steps[0]);
    StepClearsFence(s, steps[0]);
    if !next.record.pending {
      k := 0;
      assert steps[..0] == [];
    } else {
      StepKeepsSound(s, steps[0]);
      var j := FenceClearedByRestoration(next, steps[1..]);
      k := j + 1;
      assert steps[..k][1..] == steps[1..][..j];
    }
  }

  /** What held when a fence was cleared, in terms of what was stored: the context was captured for this very row and is
      unexpired, all evidence ever recorded is in it, no operation is unresolved, and an unexpired execution issued under
      the present epoch, within its grant, authorizes recovery of this context. */
  lemma {:induction false} ClearedFenceFacts(s: System, step: Step)
    requires SystemSound(s) && ClearsFence(s, step)
    ensures var req := step.restoration;
      && s.record.pending && !s.record.validationPending && req.context in s.contexts
      && var context := s.contexts[req.context].document;
         && BasisOf(s.record) == Some(context.basis) && context.createdAt <= step.now < context.expiresAt
         && s.Stored().AllEvidence() == Elements(context.evidence) && s.Stored().AllOpen() == {}
    ensures var req := step.restoration;
      && req.execution in s.store.executions
      && var execution := s.store.executions[req.execution].document;
         && execution.epoch == s.record.epoch && execution.issuedAt <= step.now < execution.expiresAt
         && execution.capability == RecoveryAction && execution.context == Some(req.context)
         && ContextScope(req.context) in execution.scope
         && execution.operator in s.store.grants && Contained(execution, s.store.grants[execution.operator].document)
  {
    var req := step.restoration;
    assert ContextSound(s, req.context);
    assert ExecutionSound(s.store, req.execution);
    assert GrantSound(s.store, req.operator);
  }

  // ----- a cleared fence uses up what cleared it

  lemma {:induction false} StepKeepsContexts(s: System, step: Step, id: Id)
    requires id in s.contexts
    ensures id in After(s, step).contexts && After(s, step).contexts[id] == s.contexts[id]
  {
  }

  /** A stored context was captured for an older version of the row. */
  ghost predicate Outdated(s: System, context: Id) {
    context in s.contexts && s.contexts[context].version < s.record.version
  }

  lemma {:induction false} OutdatedIsRefused(s: System, step: Step)
    requires (step.Restore? || step.RestoreReconstruction?) && Outdated(s, step.restoration.context)
    ensures !ClearsFence(s, step) && After(s, step) == s
  {
  }

  lemma {:induction false} RunKeepsOutdated(s: System, steps: seq<Step>, context: Id)
    requires SystemSound(s) && Outdated(s, context)
    ensures Outdated(Run(s, steps), context)
    decreases |steps|
  {
    if steps != [] {
      StepKeepsContexts(s, steps[0], context);
      StepAdvances(s, steps[0]);
      StepKeepsSound(s, steps[0]);
      RunKeepsOutdated(After(s, steps[0]), steps[1..], context);
    }
  }

  lemma {:induction false} RunKeepsArtifacts(s: System, steps: seq<Step>)
    requires SystemSound(s)
    ensures StoreGrows(s.store, Run(s, steps).store)
    decreases |steps|
  {
    if steps != [] {
      StepKeepsArtifacts(s, steps[0]);
      StepKeepsSound(s, steps[0]);
      RunKeepsArtifacts(After(s, steps[0]), steps[1..]);
    }
  }

  lemma {:induction false} ClearingOutdates(s: System, step: Step)
    requires SystemSound(s) && Restores(s, step)
    ensures Outdated(After(s, step), step.restoration.context)
  {
    StepClearsFence(s, step);
    ClearedFenceFacts(s, step);
    StepAdvances(s, step);
    StepKeepsContexts(s, step, step.restoration.context);
    assert ContextSound(s, step.restoration.context);
  }

  /** Two restorations present a common artifact. */
  predicate ShareArtifact(a: RestorationRequest, b: RestorationRequest) {
    a.context == b.context || a.operator == b.operator || a.execution == b.execution
  }

  /** The grant and the execution that a restoration presents are bound to its context. */
  ghost predicate BoundTo(s: System, req: RestorationRequest, context: Id) {
    && req.operator in s.store.grants && s.store.grants[req.operator].document.context == Some(context)
    && req.execution in s.store.executions && s.store.executions[req.execution].document.context == Some(context)
  }

  lemma {:induction false} PreparedIsBound(s: System, req: RestorationRequest, now: Time)
    requires SystemSound(s) && Presentable(s, req, now)
    ensures BoundTo(s, req, req.context)
  {
    assert ExecutionSound(s.store, req.execution);
    assert GrantSound(s.store, req.operator);
  }

  /** Whatever happens after a fence was cleared, the context, the grant and the execution that cleared it never restore
      authority again: a later restoration presenting any of them changes nothing. */
  lemma {:induction false} RestorationUsesUp(s: System, step: Step, steps: seq<Step>, later: Step)
    requires SystemSound(s) && Restores(s, step)
    requires (later.Restore? || later.RestoreReconstruction?) && ShareArtifact(step.restoration, later.restoration)
    ensures var u := Run(After(s, step), steps); !ClearsFence(u, later) && After(u, later) == u
  {
    var t, u := After(s, step), Run(After(s, step), steps);
    var context := step.restoration.context;
    PreparedIsBound(s, step.restoration, step.now);
    ClearingOutdates(s, step);
    StepKeepsSound(s, step);
    StepKeepsArtifacts(s, step);
    RunKeepsArtifacts(t, steps);
    RunKeepsSound(t, steps);
    RunKeepsOutdated(t, steps, context);
    assert BoundTo(u, step.restoration, context);
    if ClearsFence(u, later) {
      PreparedIsBound(u, later.restoration, later.now);
      OutdatedIsRefused(u, later);
    }
  }

  // ----- returning to normal

  /** An ordinary transition to NORMAL: verified recovery, declared by the operator or the recovery service. */
  ghost predicate DeclaresRecovery(s: System, step: Step) {
    && step.Move? && step.move.requested == Normal && step.move.reason == RecoveryVerified
    && step.move.actor != SecurityDetector && s.record.state in {Degraded, RecoveryRequired} && !s.record.pending
    && step.move.expectedVersion == s.record.version
    && !Blank(step.move.actorId) && !IdUsed(s.trail, step.move.id)
  }

  /** Exactly when one step makes a restricted system NORMAL again. That the state left allows it never decides. */
  lemma {:induction false} StepReturnsToNormal(s: System, step: Step)
    requires SystemSound(s) && Effective(s.record).0 != Normal
    ensures Effective(After(s, step).record).0 == Normal <==> DeclaresRecovery(s, step) || Restores(s, step)
  {
    if step.Move? && ValidTransition(s.record.state, Normal) {
      ValidIsCapable(s.record.state, Normal);
    }
    if step.RestoreReconstruction? {
      CombinedRestorationSucceeds(s, step.restoration, step.replacement, step.newEpoch, step.now, step.id, step.secondId);
    }
  }

  /** Whatever happens in a run, a restricted system only becomes NORMAL again through a verified recovery declared at the
      present version, never by a detector, or through a restoration whose checks passed. */
  lemma {:induction false} NormalIsEarned(s: System, steps: seq<Step>) returns (k: nat)
    requires SystemSound(s) && Effective(s.record).0 != Normal && Effective(Run(s, steps).record).0 == Normal
    ensures k < |steps|
    ensures var before := Run(s, steps[..k]);
      && SystemSound(before) && Effective(before.record).0 != Normal
      && (DeclaresRecovery(before, steps[k]) || Restores(before, steps[k]))
    decreases |steps|
  {
    var next := After(s, steps[0]);
    if Effective(next.record).0 == Normal {
      StepReturnsToNormal(s, steps[0]);
      k := 0;
      assert steps[..0] == [];
    } else {
      StepKeepsSound(s, steps[0]);
      var j := NormalIsEarned(next, steps[1..]);
      k := j + 1;
      assert steps[..k][1..] == steps[1..][..j];
    }
  }

  /** A restoration of the epoch is in the audit trail. */
  ghost predicate RestorationRecorded(trail: seq<Transition>, epoch: Id) {
    exists i | 0 <= i < |trail| :: trail[i].previous == RecoveryRequired && trail[i].next == Normal && trail[i].epoch == epoch
  }

  lemma {:induction false} StepChangesEpoch(s: System, step: Step)
    requires SystemSound(s) && After(s, step).record.epoch != s.record.epoch
    ensures if step.EstablishFence? then s.trail == [] && s.record.version == 1
            else RestorationRecorded(After(s, step).trail, s.record.epoch)
  {
    if step.RestoreReconstruction? {
      var (restored, first) := CompleteSpec(s, step.restoration, step.now, step.id);
      assert restored.trail[|s.trail|] == RestorationRow(s, step.restoration, step.now, step.id);
      assert After(s, step).trail[|s.trail|] == restored.trail[|s.trail|];
    } else if step.Replace? {
      var i :| 0 <= i < |s.trail| && s.trail[i].id == step.replace.restorationTransition
        && s.trail[i].previous == RecoveryRequired && s.trail[i].next == Normal && s.trail[i].epoch == step.replace.expectedEpoch;
      assert After(s, step).trail[i] == s.trail[i];
    }
  }

  /** The trail only grows, and an epoch is only ever given up on an unused database or after a recorded restoration of it. */
  lemma {:induction false} EpochChangesAreProven(s: System, steps: seq<Step>)
    requires SystemSound(s) && s.trail != [] && Run(s, steps).record.epoch != s.record.epoch
    ensures RestorationRecorded(Run(s, steps).trail, s.record.epoch)
    decreases |steps|
  {
    var t := After(s, steps[0]);
    StepKeepsSound(s, steps[0]);
    TrailOnlyGrows(s, steps[0]);
    if t.record.epoch != s.record.epoch {
      StepChangesEpoch(s, steps[0]);
      RecordedStays(t, steps[1..], s.record.epoch);
    } else {
      EpochChangesAreProven(t, steps[1..]);
    }
  }

  lemma {:induction false} TrailOnlyGrows(s: System, step: Step)
    requires SystemSound(s)
    ensures s.trail <= After(s, step).trail
  {
  }

  lemma {:induction false} RecordedStays(s: System, steps: seq<Step>, epoch: Id)
    requires SystemSound(s) && RestorationRecorded(s.trail, epoch)
    ensures RestorationRecorded(Run(s, steps).trail, epoch)
    decreases |steps|
  {
    if steps != [] {
      TrailOnlyGrows(s, steps[0]);
      StepKeepsSound(s, steps[0]);
      RecordedStays(After(s, steps[0]), steps[1..], epoch);
    }
  }

  // ----- epochs and executions

  /** No stored execution bears the epoch a step introduces. */
  ghost predicate FreshEpoch(s: System, step: Step) {
    After(s, step).record.epoch != s.record.epoch ==>
      forall id | id in s.store.executions :: s.store.executions[id].document.epoch != After(s, step).record.epoch
  }

  ghost predicate FreshEpochs(s: System, steps: seq<Step>)
    decreases |steps|
  {
    steps == [] || (FreshEpoch(s, steps[0]) && FreshEpochs(After(s, steps[0]), steps[1..]))
  }

  lemma {:induction false} StepKeepsArtifacts(s: System, step: Step)
    requires SystemSound(s)
    ensures StoreGrows(s.store, After(s, step).store)
    ensures step.Import? || forall id | id in After(s, step).store.executions && id !in s.store.executions ::
      After(s, step).store.executions[id].document.epoch == s.record.epoch
  {
    if step.Import? && Archived(s, step.archive) {
      ImportKeepsSound(s, step.archive);
    } else if step.IssueGrant? {
      IssueGrantKeepsSound(s.store, Load(s.record).value, step.grant, step.now);
      GrantsLeaveExecutions(s.store, Load(s.record).value, step.grant, step.now);
    } else if step.IssueExecution? {
      IssueExecutionKeepsSound(s.store, Load(s.record).value, step.execution, step.now);
      IssuedUnderCurrent(s.store, Load(s.record).value, step.execution, step.now);
    } else {
      assert After(s, step).store == s.store;
    }
  }

  /** An execution of a former epoch is never accepted again, as long as no step brings back the epoch of a stored execution. */
  lemma {:induction false} FormerEpochStaysRetired(s: System, steps: seq<Step>, id: Id)
    requires SystemSound(s) && FreshEpochs(s, steps)
    requires id in s.store.executions && s.store.executions[id].document.epoch != s.record.epoch
    ensures var t := Run(s, steps);
      && id in t.store.executions && t.store.executions[id] == s.store.executions[id]
      && t.store.executions[id].document.epoch != t.record.epoch
      && forall now, context, capability :: RequireExecution(t, id, now, context, capability).Err?
    decreases |steps|
  {
    if steps == [] {
      forall now, context, capability
        ensures RequireExecution(s, id, now, context, capability).Err?
      {
        AcceptedExactly(s.store, Load(s.record).value, id, now, context, capability);
      }
    } else {
      StepKeepsArtifacts(s, steps[0]);
      StepKeepsSound(s, steps[0]);
      FormerEpochStaysRetired(After(s, steps[0]), steps[1..], id);
    }
  }

  /** Replacing the epoch by one no execution ever had retires every execution issued so far, for good; submitting the
      request of one of them again still returns it. */
  lemma {:induction false} ReplacementRetires(
    s: System, req: ReplaceRequest, now: Time, id: Id, steps: seq<Step>, execution: Id, later: Time)
    requires SystemSound(s) && ReplaceSpec(s, req, now, id).1.Ok? && execution in s.store.executions
    requires FreshEpochs(s, [Replace(req, now, id)] + steps)
    ensures var t := Run(ReplaceSpec(s, req, now, id).0, steps);
      && (forall moment, context, capability :: RequireExecution(t, execution, moment, context, capability).Err?)
      && IssueExecutionSpec(t, s.store.executions[execution].command, later) == (t, Ok(s.store.executions[execution].document))
  {
    var step := Replace(req, now, id);
    var s1 := After(s, step);
    assert ([step] + steps)[0] == step && ([step] + steps)[1..] == steps;
    assert FreshEpoch(s, step);
    StepKeepsSound(s, step);
    FormerEpochStaysRetired(s1, steps, execution);
    RunKeepsSound(s1, steps);
    var t := Run(s1, steps);
    assert ExecutionSound(s.store, execution);
    ReissueReplays(t.store, Load(t.record).value, s.store.executions[execution].command, later);
  }

  /** An unexpired execution is accepted at the end of a run exactly if the present epoch is then its own, whatever epochs
      came in between. */
  lemma {:induction false} AcceptedUnderItsEpoch(s: System, steps: seq<Step>, id: Id, now: Time)
    requires SystemSound(s) && id in s.store.executions
    requires var execution := s.store.executions[id].document; execution.issuedAt <= now < execution.expiresAt
    ensures var t := Run(s, steps);
      RequireExecution(t, id, now, None, None).Ok? <==> t.record.epoch == s.store.executions[id].document.epoch
    decreases |steps|
  {
    if steps == [] {
      AcceptedExactly(s.store, Load(s.record).value, id, now, None, None);
    } else {
      StepKeepsArtifacts(s, steps[0]);
      StepKeepsSound(s, steps[0]);
      AcceptedUnderItsEpoch(After(s, steps[0]), steps[1..], id, now);
    }
  }
}
