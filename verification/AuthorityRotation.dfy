/** Replacing the epoch through a whole recovery is always possible, and an epoch that comes back brings its executions back. */
module AuthorityRotation {
  import opened Basics
  import opened AuthorityRecord
  import opened RecoveryInventory
  import opened Authorizations
  import opened AuthorityModel
  import opened AuthorityInvariant
  import opened AuthorityRuns

  /** The identities one recovery uses. */
  datatype Ids = Ids(context: Id, grant: Id, execution: Id, restoration: Id, replacement: Id, first: Id, second: Id)

  ghost predicate Unused(s: System, ids: Ids) {
    && ids.context !in s.contexts && ids.context !in s.contextAudit
    && ids.grant != ids.execution && ids.first != ids.second
    && ids.grant !in s.store.grants && ids.grant !in s.store.audit
    && ids.execution !in s.store.executions && ids.execution !in s.store.audit
    && !IdUsed(s.trail, ids.first) && !IdUsed(s.trail, ids.second)
  }

  /** Outside recovery, with few enough recorded evidence and nothing unresolved. */
  ghost predicate Calm(s: System) {
    && SystemSound(s) && !s.record.pending
    && |s.Stored().AllEvidence()| <= BOUND && s.Stored().AllOpen() == {}
  }

  function FencedBasis(r: Record, now: Time): Basis {
    Basis(r.epoch, RecoveryRequired, r.version + 1, true, Some(Origin(r.state, r.version, now)))
  }

  function CaptureFor(s: System, ids: Ids, now: Time): CaptureRequest {
    CaptureRequest(ids.context, FencedBasis(s.record, now), now + 1)
  }

  function GrantFor(s: System, ids: Ids, now: Time): GrantRequest {
    GrantRequest(ids.grant, s.record.epoch, "operator", RecoveryAction, [ContextScope(ids.context)],
      [Reference(ContextBasis, ids.context)], now + 1, ids.grant, Some(ids.context))
  }

  function ExecutionFor(s: System, ids: Ids, now: Time): ExecutionRequest {
    ExecutionRequest(ids.execution, s.record.epoch, ids.execution, ids.grant, [ContextScope(ids.context)], now + 1,
      ids.execution, Some(ids.context))
  }

  function RestorationFor(s: System, ids: Ids): RestorationRequest {
    RestorationRequest(ids.restoration, ids.context, ids.grant, ids.execution, s.record.epoch, s.record.version + 1)
  }

  /** Raise the fence, capture, authorize, and restore with a new epoch. */
  function Rotation(s: System, ids: Ids, inventory: Inventory, newEpoch: EpochId, now: Time): seq<Step> {
    [Start(Recovery, false, now), Capture(CaptureFor(s, ids, now), inventory, now), IssueGrant(GrantFor(s, ids, now), now),
     Step.IssueExecution(ExecutionFor(s, ids, now), now),
     RestoreReconstruction(RestorationFor(s, ids), ids.replacement, newEpoch, now, ids.first, ids.second)]
  }

  lemma {:induction false} Listing<T>(s: set<T>) returns (list: seq<T>)
    ensures Distinct(list) && Elements(list) == s && |list| == |s|
  {
    if s == {} {
      list := [];
    } else {
      var x :| x in s;
      var rest := Listing(s - {x});
      assert forall y | y in rest :: y in Elements(rest);
      list := rest + [x];
      assert Elements(list) == Elements(rest) + {x};
    }
  }

  lemma {:induction false} CalmInventory(s: System) returns (inventory: Inventory)
    requires Calm(s)
    ensures Reports(s.Stored(), inventory) && !inventory.partial && inventory.operations == []
    ensures Elements(inventory.evidence) == s.Stored().AllEvidence()
  {
    var evidence := Listing(s.Stored().AllEvidence());
    inventory := Inventory(evidence, [], false);
    assert Elements(inventory.operations) == {};
  }

  /** After raising the fence and capturing. */
  lemma {:induction false} FenceAndCapture(s: System, ids: Ids, inventory: Inventory, now: Time)
    requires Calm(s) && Unused(s, ids) && Reports(s.Stored(), inventory)
    requires !inventory.partial && inventory.operations == []
    ensures var s1 := After(s, Start(Recovery, false, now)); var t := After(s1, Capture(CaptureFor(s, ids, now), inventory, now));
      && t.record == Fenced(s.record, now) && t.store == s.store && t.trail == s.trail && t.history == s.history
      && t.contexts.Keys == s.contexts.Keys + {ids.context} && t.contextAudit.Keys == s.contextAudit.Keys + {ids.context}
      && BasisOf(t.record) == Some(FencedBasis(s.record, now))
      && DecodeContext(t, t.contexts[ids.context]) ==
           Some(ContextOf(CaptureFor(s, ids, now), FencedBasis(s.record, now), inventory, now))
  {
    var s1 := After(s, Start(Recovery, false, now));
    assert s1.record == Fenced(s.record, now) && s1.Stored() == s.Stored();
    assert BasisOf(s1.record) == Some(FencedBasis(s.record, now));
    assert ContextOf(CaptureFor(s, ids, now), FencedBasis(s.record, now), inventory, now).Consistent();
  }

  lemma {:induction false} GrantIssued(store: Store, current: Loaded, request: GrantRequest, now: Time)
    requires request.id !in store.grants && request.id !in store.audit && !current.validationPending
    requires request.expectedEpoch == current.epoch
    requires ValidGrant(GrantOf(request, current.epoch, now), current.epoch, now, request.context)
    ensures var more := Authorizations.IssueGrant(store, current, request, now).0;
      && more.grants.Keys == store.grants.Keys + {request.id} && more.executions == store.executions
      && more.audit.Keys == store.audit.Keys + {request.id}
      && more.grants[request.id].document == GrantOf(request, current.epoch, now)
  {
  }

  lemma {:induction false} ExecutionIssued(store: Store, current: Loaded, request: ExecutionRequest, grant: Grant, now: Time)
    requires StoreSound(store) && request.id !in store.executions && request.id !in store.audit && !current.validationPending
    requires request.expectedEpoch == current.epoch && request.operator in store.grants
    requires store.grants[request.operator].document == grant
    requires ValidExecution(ExecutionOf(request, grant.capability, current.epoch, now), grant, current.epoch, now)
    ensures var more := Authorizations.IssueExecution(store, current, request, now).0;
      && more.grants == store.grants && more.executions.Keys == store.executions.Keys + {request.id}
      && more.audit.Keys == store.audit.Keys + {request.id}
      && more.executions[request.id].document == ExecutionOf(request, grant.capability, current.epoch, now)
  {
    assert GrantSound(store, request.operator);
  }

  lemma {:induction false} StepIssuesGrant(s: System, request: GrantRequest, now: Time)
    requires SystemSound(s) && request.id !in s.store.grants && request.id !in s.store.audit && !s.record.validationPending
    requires request.expectedEpoch == s.record.epoch
    requires ValidGrant(GrantOf(request, s.record.epoch, now), s.record.epoch, now, request.context)
    ensures var t := After(s, IssueGrant(request, now));
      && SystemSound(t) && t == s.(store := t.store) && StoreGrows(s.store, t.store)
      && t.store.grants.Keys == s.store.grants.Keys + {request.id} && t.store.executions == s.store.executions
      && t.store.audit.Keys == s.store.audit.Keys + {request.id}
      && t.store.grants[request.id].document == GrantOf(request, s.record.epoch, now)
  {
    GrantIssued(s.store, Load(s.record).value, request, now);
    StepKeepsSound(s, IssueGrant(request, now));
    StepKeepsArtifacts(s, IssueGrant(request, now));
  }

  lemma {:induction false} StepIssuesExecution(s: System, request: ExecutionRequest, grant: Grant, now: Time)
    requires SystemSound(s) && request.id !in s.store.executions && request.id !in s.store.audit && !s.record.validationPending
    requires request.expectedEpoch == s.record.epoch && request.operator in s.store.grants
    requires s.store.grants[request.operator].document == grant
    requires ValidExecution(ExecutionOf(request, grant.capability, s.record.epoch, now), grant, s.record.epoch, now)
    ensures var t := After(s, Step.IssueExecution(request, now));
      && SystemSound(t) && t == s.(store := t.store) && StoreGrows(s.store, t.store)
      && t.store.grants == s.store.grants && t.store.executions.Keys == s.store.executions.Keys + {request.id}
      && t.store.audit.Keys == s.store.audit.Keys + {request.id}
      && t.store.executions[request.id].document == ExecutionOf(request, grant.capability, s.record.epoch, now)
  {
    ExecutionIssued(s.store, Load(s.record).value, request, grant, now);
    StepKeepsSound(s, Step.IssueExecution(request, now));
    StepKeepsArtifacts(s, Step.IssueExecution(request, now));
  }

  /** After issuing the grant and the execution. */
  lemma {:induction false} Authorize(s: System, t: System, ids: Ids, now: Time)
    requires SystemSound(t) && Unused(s, ids) && t.store == s.store && t.record == Fenced(s.record, now) && !t.record.validationPending
    ensures var u := After(After(t, IssueGrant(GrantFor(s, ids, now), now)), Step.IssueExecution(ExecutionFor(s, ids, now), now));
      && SystemSound(u) && u == t.(store := u.store) && StoreGrows(s.store, u.store)
      && u.store.grants.Keys == s.store.grants.Keys + {ids.grant}
      && u.store.executions.Keys == s.store.executions.Keys + {ids.execution}
      && u.store.audit.Keys == s.store.audit.Keys + {ids.grant, ids.execution}
      && u.store.grants[ids.grant].document == GrantOf(GrantFor(s, ids, now), s.record.epoch, now)
      && u.store.executions[ids.execution].document ==
           ExecutionOf(ExecutionFor(s, ids, now), RecoveryAction, s.record.epoch, now)
  {
    StepIssuesGrant(t, GrantFor(s, ids, now), now);
    StepIssuesExecution(After(t, IssueGrant(GrantFor(s, ids, now), now)), ExecutionFor(s, ids, now),
      GrantOf(GrantFor(s, ids, now), s.record.epoch, now), now);
  }

  lemma {:induction false} RunFive(s: System, a: Step, b: Step, c: Step, d: Step, e: Step)
    ensures Run(s, [a, b, c, d, e]) == After(After(After(After(After(s, a), b), c), d), e)
  {
    var s1 := After(s, a);
    var s2 := After(s1, b);
    var s3 := After(s2, c);
    var s4 := After(s3, d);
    assert [a, b, c, d, e][1..] == [b, c, d, e] && [b, c, d, e][1..] == [c, d, e] && [c, d, e][1..] == [d, e];
    assert [d, e][1..] == [e] && [e][1..] == [];
    assert Run(s4, [e]) == After(s4, e);
    assert Run(s3, [d, e]) == Run(s4, [e]);
    assert Run(s2, [c, d, e]) == Run(s3, [d, e]);
    assert Run(s1, [b, c, d, e]) == Run(s2, [c, d, e]);
  }

  /** What the last request of a rotation finds. */
  ghost predicate Ready(s: System, u: System, ids: Ids, inventory: Inventory, now: Time) {
    && u.record == Fenced(s.record, now) && u.trail == s.trail && u.history == s.history
    && BasisOf(u.record) == Some(FencedBasis(s.record, now))
    && ids.context in u.contexts && ids.grant in u.store.grants && ids.execution in u.store.executions
    && DecodeContext(u, u.contexts[ids.context]) ==
         Some(ContextOf(CaptureFor(s, ids, now), FencedBasis(s.record, now), inventory, now))
    && u.store.grants[ids.grant].document == GrantOf(GrantFor(s, ids, now), s.record.epoch, now)
    && u.store.executions[ids.execution].document ==
         ExecutionOf(ExecutionFor(s, ids, now), RecoveryAction, s.record.epoch, now)
  }

  lemma {:induction false} ReadyIsPrepared(s: System, u: System, ids: Ids, inventory: Inventory, now: Time)
    requires Calm(s) && SystemSound(u) && Ready(s, u, ids, inventory, now) && !u.record.validationPending
    requires !inventory.partial && Elements(inventory.evidence) == s.Stored().AllEvidence()
    ensures Prepared(u, RestorationFor(s, ids), now)
  {
    var grant := GrantOf(GrantFor(s, ids, now), s.record.epoch, now);
    var execution := ExecutionOf(ExecutionFor(s, ids, now), RecoveryAction, s.record.epoch, now);
    assert ValidExecution(execution, grant, s.record.epoch, now);
    assert GrantSound(u.store, ids.grant) && ExecutionSound(u.store, ids.execution);
    assert Authorizes(u, RestorationFor(s, ids), s.record.epoch, now);
    assert u.Stored() == s.Stored();
  }

  ghost predicate TwoMoreRows(s: System, t: System, ids: Ids) {
    && |t.trail| == |s.trail| + 2 && s.trail <= t.trail
    && t.trail[|s.trail|].id == ids.first && t.trail[|s.trail| + 1].id == ids.second
  }

  /** The state a rotation leaves: NORMAL under the new epoch, two audit rows more, every artifact kept, no other identity
      used. */
  ghost predicate Rotated(s: System, t: System, ids: Ids, newEpoch: EpochId) {
    && SystemSound(t) && t.record == Record(Normal, s.record.version + 3, newEpoch, false, None, None, None, false)
    && StoreGrows(s.store, t.store) && t.history == s.history && TwoMoreRows(s, t, ids)
    && t.contexts.Keys == s.contexts.Keys + {ids.context} && t.contextAudit.Keys == s.contextAudit.Keys + {ids.context}
    && t.store.grants.Keys == s.store.grants.Keys + {ids.grant}
    && t.store.executions.Keys == s.store.executions.Keys + {ids.execution}
    && t.store.audit.Keys == s.store.audit.Keys + {ids.grant, ids.execution}
  }

  lemma {:induction false} LastStep(s: System, u: System, ids: Ids, newEpoch: EpochId, now: Time)
    requires SystemSound(u) && Prepared(u, RestorationFor(s, ids), now) && Unused(s, ids) && u.trail == s.trail
    requires u.record == Fenced(s.record, now) && newEpoch != s.record.epoch && !u.record.validationPending
    ensures var t := After(u, RestoreReconstruction(RestorationFor(s, ids), ids.replacement, newEpoch, now, ids.first, ids.second));
      && SystemSound(t) && t.record == Record(Normal, s.record.version + 3, newEpoch, false, None, None, None, false)
      && t.store == u.store && t.history == u.history && TwoMoreRows(s, t, ids)
      && t.contexts == u.contexts && t.contextAudit == u.contextAudit
  {
    CombinedRestorationSucceeds(u, RestorationFor(s, ids), ids.replacement, newEpoch, now, ids.first, ids.second);
    CompleteReconstructionKeepsSound(u, RestorationFor(s, ids), ids.replacement, newEpoch, now, ids.first, ids.second);
  }

  /** From any calm state five requests lead to any other epoch. */
  lemma {:induction false} RotationSucceeds(s: System, ids: Ids, inventory: Inventory, newEpoch: EpochId, now: Time)
    requires Calm(s) && Unused(s, ids) && newEpoch != s.record.epoch && Reports(s.Stored(), inventory)
    requires !inventory.partial && inventory.operations == [] && Elements(inventory.evidence) == s.Stored().AllEvidence()
    ensures Rotated(s, Run(s, Rotation(s, ids, inventory, newEpoch, now)), ids, newEpoch)
  {
    var a, b := Start(Recovery, false, now), Capture(CaptureFor(s, ids, now), inventory, now);
    var c, d := IssueGrant(GrantFor(s, ids, now), now), Step.IssueExecution(ExecutionFor(s, ids, now), now);
    var e := RestoreReconstruction(RestorationFor(s, ids), ids.replacement, newEpoch, now, ids.first, ids.second);
    RunFive(s, a, b, c, d, e);
    var t := After(After(s, a), b);
    StepKeepsSound(s, a);
    StepKeepsSound(After(s, a), b);
    FenceAndCapture(s, ids, inventory, now);
    var u := After(After(t, c), d);
    Authorize(s, t, ids, now);
    assert Ready(s, u, ids, inventory, now);
    ReadyIsPrepared(s, u, ids, inventory, now);
    LastStep(s, u, ids, newEpoch, now);
  }

  /** The code only demands that a new epoch differs from the present one. An unexpired execution of a former epoch, refused
      until then, is accepted again after a rotation back to that epoch. */
  lemma {:induction false} OldEpochRevives(s: System, ids: Ids, id: Id, now: Time) returns (steps: seq<Step>)
    requires Calm(s) && Unused(s, ids) && id in s.store.executions
    requires var execution := s.store.executions[id].document;
      && execution.epoch.number != 0 && execution.epoch != s.record.epoch && execution.issuedAt <= now < execution.expiresAt
    ensures RequireExecution(s, id, now, None, None).Err?
    ensures Rotated(s, Run(s, steps), ids, s.store.executions[id].document.epoch)
    ensures RequireExecution(Run(s, steps), id, now, None, None) == Ok(s.store.executions[id].document)
  {
    var execution := s.store.executions[id].document;
    var inventory := CalmInventory(s);
    steps := Rotation(s, ids, inventory, execution.epoch, now);
    RotationSucceeds(s, ids, inventory, execution.epoch, now);
    var t := Run(s, steps);
    AcceptedExactly(s.store, Load(s.record).value, id, now, None, None);
    AcceptedExactly(t.store, Load(t.record).value, id, now, None, None);
    assert ExecutionSound(t.store, id);
  }

  // ----- a reachable run

  const FRESH := System(Record(Normal, 1, Id(1), false, None, None, None, false), [], map[], map[],
    Store(map[], map[], map[]), Stored.Stored({}, {}, {}, {}, {}, map[], map[]))

  function IdsFrom(n: nat): Ids {
    Ids(Id(n), Id(n + 1), Id(n + 2), Id(n + 3), Id(n + 4), Id(n + 5), Id(n + 6))
  }

  /** An operator grant over the security state, and an execution under it. */
  const GRANT := GrantRequest(Id(10), Id(1), "operator", Authorizations.AuthorityAdministration, [SecurityStateScope],
    [Reference(CommandBasis, Id(10))], 100, Id(10), None)

  const EXECUTION := ExecutionRequest(Id(11), Id(1), Id(11), Id(10), [SecurityStateScope], 100, Id(11), None)

  lemma {:induction false} RunTwo(s: System, a: Step, b: Step)
    ensures Run(s, [a, b]) == After(After(s, a), b)
  {
    assert [a, b][1..] == [b] && [b][1..] == [];
    assert Run(After(s, a), [b]) == After(After(s, a), b);
  }

  /** A database in which nothing but that grant and that execution happened, under the first epoch. */
  ghost predicate Begun(s: System) {
    && SystemSound(s) && s == FRESH.(store := s.store)
    && s.store.grants.Keys == {Id(10)} && s.store.executions.Keys == {Id(11)} && s.store.audit.Keys == {Id(10), Id(11)}
    && s.store.executions[Id(11)].document.epoch == Id(1)
    && s.store.executions[Id(11)].document.issuedAt == 0 && s.store.executions[Id(11)].document.expiresAt == 100
  }

  lemma {:induction false} Begin() returns (steps: seq<Step>)
    ensures Begun(Run(FRESH, steps))
  {
    var a, b := IssueGrant(GRANT, 0), Step.IssueExecution(EXECUTION, 0);
    steps := [a, b];
    RunTwo(FRESH, a, b);
    StepIssuesGrant(FRESH, GRANT, 0);
    StepIssuesExecution(After(FRESH, a), EXECUTION, GrantOf(GRANT, Id(1), 0), 0);
  }

  lemma {:induction false} Leave(s: System, now: Time) returns (steps: seq<Step>)
    requires Begun(s)
    ensures var t := Run(s, steps);
      && Calm(t) && Unused(t, IdsFrom(30)) && t.record.epoch == Id(2)
      && Id(11) in t.store.executions && t.store.executions[Id(11)] == s.store.executions[Id(11)]
  {
    TrailIsEvidence(s);
    var inventory := CalmInventory(s);
    steps := Rotation(s, IdsFrom(20), inventory, Id(2), now);
    RotationSucceeds(s, IdsFrom(20), inventory, Id(2), now);
    Left(s, Run(s, steps));
  }

  lemma {:induction false} Left(s: System, t: System)
    requires Begun(s) && Rotated(s, t, IdsFrom(20), Id(2))
    ensures Calm(t) && Unused(t, IdsFrom(30))
  {
    TrailIsEvidence(t);
  }

  /** With no other history the evidence is the audit trail. */
  lemma {:induction false} TrailIsEvidence(s: System)
    requires s.history == FRESH.history && |s.trail| <= 2
    ensures |s.Stored().AllEvidence()| <= BOUND && s.Stored().AllOpen() == {}
  {
    var named := set i | 0 <= i < |s.trail| :: Evidence(SecurityTransition, s.trail[i].id);
    forall e | e in s.Stored().AllEvidence()
      ensures e in named
    {
    }
    var both := (if |s.trail| > 0 then {Evidence(SecurityTransition, s.trail[0].id)} else {})
      + if |s.trail| > 1 then {Evidence(SecurityTransition, s.trail[1].id)} else {};
    assert named <= both;
    SubsetCardinality(s.Stored().AllEvidence(), both);
  }

  /** A run from a new database in which an execution is accepted, refused once its epoch is replaced, and accepted again
      once a second replacement brings the epoch back. */
  lemma {:induction false} EpochComesBack() returns (issue: seq<Step>, leave: seq<Step>, back: seq<Step>, id: Id, now: Time)
    ensures RequireExecution(Run(FRESH, issue), id, now, None, None).Ok?
    ensures RequireExecution(Run(Run(FRESH, issue), leave), id, now, None, None).Err?
    ensures RequireExecution(Run(Run(Run(FRESH, issue), leave), back), id, now, None, None).Ok?
  {
    id, now := Id(11), 2;
    issue := Begin();
    var s := Run(FRESH, issue);
    AcceptedExactly(s.store, Load(s.record).value, id, now, None, None);
    leave := Leave(s, now);
    back := OldEpochRevives(Run(s, leave), IdsFrom(30), id, now);
  }
}
