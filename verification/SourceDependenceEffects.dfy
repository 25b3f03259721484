/** When each request on relationships is accepted and what it leaves behind, in terms of the request and the stored rows. */
module SourceDependenceEffects {
  import opened Basics
  import opened SourceRelationships
  import opened CycleProof
  import opened RelationshipJournal
  import opened SourceDependenceModel
  import opened SourceDependenceInvariant
  import opened SourceDependenceRuns

  /** Known task, authority granted, and identities nothing recorded bears. */
  ghost predicate Admissible(s: State, task: Id, call: Call, operationId: Id) {
    && task in s.tasks && call.authority.Some?
    && forall c | c in s.changes :: c.operationId != operationId && c.id != call.newChange
  }

  /** The relationship belongs to the task and has the revision the caller saw. */
  ghost predicate AtRevision(s: State, task: Id, id: Id, revision: nat) {
    id in s.rows && s.rows[id].task == task && s.rows[id].revision == revision
  }

  /** Exactly one row has changed, into the given one; one journal entry and one event say so. */
  ghost predicate OnlyChanged(
    s: State, t: State, row: Relationship, call: Call, operationId: Id, operation: Operation, reason: string)
  {
    && t.tasks == s.tasks && t.sources == s.sources
    && t.rows.Keys == s.rows.Keys + {row.id} && t.rows[row.id] == row
    && (forall id | id in s.rows && id != row.id :: t.rows[id] == s.rows[id])
    && |t.changes| == |s.changes| + 1 && s.changes <= t.changes && t.events == s.events + [Event(row.task, operationId, row)]
    && var c := t.changes[|s.changes|];
       && c.id == call.newChange && c.operationId == operationId && c.relationship == row.id && c.task == row.task
       && c.operation == operation && c.actor == call.actor && c.reason == reason && c.createdAt == call.now
       && call.authority == Some(c.authority) && c.resulting == row && c.reverses == None
       && c.previous == (if row.id in s.rows then Some(s.rows[row.id]) else None)
  }

  /** The row in another lifecycle and direction, one revision on; its identity and ends stay. */
  ghost predicate MovedOn(before: Relationship, after: Relationship, lifecycle: Lifecycle, direction: Direction, call: Call) {
    && SameIdentity(before, after) && after.revision == before.revision + 1
    && after.lifecycle == lifecycle && after.direction == direction
    && after.latestChange == call.newChange && after.updatedAt == call.now
  }

  // ----- retraction

  /** A retraction is accepted exactly if the relationship is active and at the revision the caller saw. It then only makes
      the relationship retracted; the direction stays. */
  lemma {:induction false} RetractedExactly(s: State, limits: Limits, task: Id, call: Call, req: Request)
    requires Coherent(s) && req.Mutate? && req.retract && Admissible(s, task, call, req.operationId)
    ensures var (t, r) := Handle(s, limits, task, call, req);
      if AtRevision(s, task, req.relationship, req.expectedRevision) && s.rows[req.relationship].lifecycle == Active then
        && r.Ok? && OnlyChanged(s, t, r.value, call, req.operationId, RETRACT, req.reason)
        && var before := s.rows[req.relationship]; MovedOn(before, r.value, Retracted, before.direction, call)
      else r.Err? && t == s
  {
    assert req.relationship in s.rows ==> RowCoherent(s, req.relationship);
  }

  // ----- setting lifecycle and direction

  /** What a request to set lifecycle and direction asks for: active, and the present direction, unless it says otherwise. */
  ghost predicate AsksFor(req: Request, current: Relationship, lifecycle: Lifecycle, direction: Direction)
    requires req.Mutate?
  {
    && (req.lifecycle.Some? ==> lifecycle == req.lifecycle.value) && (req.lifecycle == None ==> lifecycle == Active)
    && (req.direction.Some? ==> direction == req.direction.value) && (req.direction == None ==> direction == current.direction)
  }

  /** The edge that a derivation of that direction declares is proved harmless without the row itself. */
  ghost predicate Harmless(s: State, limits: Limits, row: Relationship, direction: Direction) {
    var (derived, upstream) := if direction == LowToHigh then (row.low, row.high) else (row.high, row.low);
    Search(s.rows, row.task, Some(row.id), limits).ProofExists(derived, upstream)
  }

  /** The request may be carried out: fresh, fitting the kind, not idle, and harmless if it leaves a derivation active. */
  ghost predicate MaySet(s: State, limits: Limits, before: Relationship, revision: nat, lifecycle: Lifecycle, direction: Direction) {
    && before.revision == revision
    && (before.kind == CommonOrigin <==> direction == NoDirection)
    && (lifecycle != before.lifecycle || direction != before.direction)
    && (lifecycle == Active && before.kind == DerivedFrom ==> Harmless(s, limits, before, direction))
  }

  lemma {:induction false} SetAccepted(
    s: State, limits: Limits, task: Id, call: Call, req: Request, lifecycle: Lifecycle, direction: Direction)
    requires req.Mutate? && !req.retract && Admissible(s, task, call, req.operationId)
    requires req.relationship in s.rows && s.rows[req.relationship].task == task && s.rows[req.relationship].id == req.relationship
    requires AsksFor(req, s.rows[req.relationship], lifecycle, direction)
    ensures var (t, r) := MutateSpec(s, limits, task, call, req); var before := s.rows[req.relationship];
      && (r.Ok? <==> MaySet(s, limits, before, req.expectedRevision, lifecycle, direction))
      && (r.Err? ==> t == s)
      && (r.Ok? ==> exists command ::
            var row := NextRow(before, direction, lifecycle, call);
            r.value == row && t == Written(s, row,
              ChangeOf(call, call.authority.value, req.operationId, SET, Some(before), row, req.reason, None, command)))
  {
    var before := s.rows[req.relationship];
    assert Requested(before, req) == (lifecycle, direction);
    if before.kind == CommonOrigin <==> direction == NoDirection {
      HarmlessIsActivation(s, limits, before, NextRow(before, direction, lifecycle, call), direction);
    }
    assert FindOperation(s.changes, req.operationId) == None && !ChangeIdUsed(s.changes, call.newChange);
  }

  lemma {:induction false} WrittenOnlyChanges(
    s: State, row: Relationship, call: Call, operationId: Id, operation: Operation, reason: string, command: Command)
    requires call.authority.Some? && row.revision >= 1
    ensures var previous := if row.id in s.rows then Some(s.rows[row.id]) else None;
      OnlyChanged(s, Written(s, row,
        ChangeOf(call, call.authority.value, operationId, operation, previous, row, reason, None, command)),
        row, call, operationId, operation, reason)
  {
  }

  lemma {:induction false} HarmlessIsActivation(
    s: State, limits: Limits, before: Relationship, row: Relationship, direction: Direction)
    requires SameIdentity(before, row) && row.direction == direction && (row.kind == CommonOrigin <==> direction == NoDirection)
    ensures MayActivate(s, limits, row) <==>
      (row.lifecycle == Active && before.kind == DerivedFrom ==> Harmless(s, limits, before, direction))
  {
  }

  /** Such a request is refused exactly for a stale revision, a direction that does not fit the kind, no change at all, or a
      derivation left active without proof that it closes no cycle. Accepted, it leaves what was asked for. */
  lemma {:induction false} SetExactly(
    s: State, limits: Limits, task: Id, call: Call, req: Request, lifecycle: Lifecycle, direction: Direction)
    requires Coherent(s) && req.Mutate? && !req.retract && Admissible(s, task, call, req.operationId)
    requires req.relationship in s.rows && s.rows[req.relationship].task == task
    requires AsksFor(req, s.rows[req.relationship], lifecycle, direction)
    ensures var (t, r) := Handle(s, limits, task, call, req); var before := s.rows[req.relationship];
      if MaySet(s, limits, before, req.expectedRevision, lifecycle, direction) then
        && r.Ok? && OnlyChanged(s, t, r.value, call, req.operationId, SET, req.reason)
        && MovedOn(before, r.value, lifecycle, direction, call)
      else r.Err? && t == s
  {
    var before := s.rows[req.relationship];
    assert RowCoherent(s, req.relationship);
    SetAccepted(s, limits, task, call, req, lifecycle, direction);
    var row := NextRow(before, direction, lifecycle, call);
    if MaySet(s, limits, before, req.expectedRevision, lifecycle, direction) {
      var command :| MutateSpec(s, limits, task, call, req).0 == Written(s, row,
        ChangeOf(call, call.authority.value, req.operationId, SET, Some(before), row, req.reason, None, command));
      WrittenOnlyChanges(s, row, call, req.operationId, SET, req.reason, command);
    }
  }

  /** Without its relationship nothing can be mutated. */
  lemma {:induction false} UnknownIsRefused(s: State, limits: Limits, task: Id, call: Call, req: Request)
    requires req.Mutate? && Admissible(s, task, call, req.operationId)
    requires req.relationship !in s.rows || s.rows[req.relationship].task != task
    ensures Handle(s, limits, task, call, req) == (s, Err(NotFound))
  {
  }

  // ----- creation

  /** The two ends a creation names, each in the pair of fields that belongs to its kind. */
  ghost predicate NamesEnds(req: Request, first: Id, second: Id)
    requires req.Create?
  {
    && first != second
    && if req.kind == DerivedFrom then
         req.derived == Some(first) && req.upstream == Some(second) && req.a == None && req.b == None
       else
         req.a == Some(first) && req.b == Some(second) && req.derived == None && req.upstream == None
  }

  ghost predicate Joins(row: Relationship, task: Id, kind: Kind, first: Id, second: Id) {
    row.task == task && row.kind == kind && {row.low, row.high} == {first, second}
  }

  /** A creation is accepted exactly if both ends are sources of the task, no relationship of the kind joins them yet, in
      whatever lifecycle, and a derivation is proved to close no cycle. The new row is active, at revision one, and a
      derivation leads from the derived source to the upstream one. */
  lemma {:induction false} CreatedExactly(
    s: State, limits: Limits, task: Id, call: Call, req: Request, first: Id, second: Id)
    requires Coherent(s) && req.Create? && Admissible(s, task, call, req.operationId) && NamesEnds(req, first, second)
    requires call.newRelationship !in s.rows
    ensures var (t, r) := Handle(s, limits, task, call, req);
      if && BelongsTo(s, first, task) && BelongsTo(s, second, task)
         && (forall id | id in s.rows :: !Joins(s.rows[id], task, req.kind, first, second))
         && (req.kind == DerivedFrom ==> Search(s.rows, task, None, limits).ProofExists(first, second))
      then
        && r.Ok? && OnlyChanged(s, t, r.value, call, req.operationId, CREATE, req.reason)
        && r.value.id == call.newRelationship && Joins(r.value, task, req.kind, first, second) && r.value.Valid()
        && r.value.lifecycle == Active && r.value.revision == 1
        && r.value.latestChange == call.newChange && r.value.updatedAt == call.now
        && (req.kind == DerivedFrom ==> r.value.DerivedEnd() == first && r.value.UpstreamEnd() == second)
      else r.Err? && t == s
  {
    PairTaken(s, task, req, first, second);
    CreateAccepted(s, limits, task, call, req, first, second);
    var ends := Normalize(req).value;
    if CreateSpec(s, limits, task, call, req).1.Ok? {
      var row := CreateSpec(s, limits, task, call, req).1.value;
      var command :| CreateSpec(s, limits, task, call, req).0 == Written(s, row,
        ChangeOf(call, call.authority.value, req.operationId, CREATE, None, row, req.reason, None, command));
      WrittenOnlyChanges(s, row, call, req.operationId, CREATE, req.reason, command);
    }
  }

  lemma {:induction false} PairTaken(s: State, task: Id, req: Request, first: Id, second: Id)
    requires Coherent(s) && req.Create? && NamesEnds(req, first, second)
    ensures Normalize(req).Ok? && Normalize(req).value.derived == first && Normalize(req).value.upstream == second
    ensures var ends := Normalize(req).value;
      SameEndsAndKind(s.rows, task, ends.low, ends.high, req.kind) == {} <==>
        forall id | id in s.rows :: !Joins(s.rows[id], task, req.kind, first, second)
  {
    var ends := Normalize(req).value;
    forall id | id in s.rows
      ensures id in SameEndsAndKind(s.rows, task, ends.low, ends.high, req.kind) <==> Joins(s.rows[id], task, req.kind, first, second)
    {
      assert RowCoherent(s, id);
      PairInOrder(s.rows[id].low, s.rows[id].high, ends.low, ends.high);
    }
  }

  lemma {:induction false} CreateAccepted(s: State, limits: Limits, task: Id, call: Call, req: Request, first: Id, second: Id)
    requires req.Create? && Admissible(s, task, call, req.operationId) && call.newRelationship !in s.rows
    requires Normalize(req).Ok? && Normalize(req).value.derived == first && Normalize(req).value.upstream == second
    ensures var ends := Normalize(req).value; var (t, r) := CreateSpec(s, limits, task, call, req);
      && (r.Ok? <==>
            && BelongsTo(s, first, task) && BelongsTo(s, second, task)
            && SameEndsAndKind(s.rows, task, ends.low, ends.high, req.kind) == {}
            && (req.kind == DerivedFrom ==> Search(s.rows, task, None, limits).ProofExists(first, second)))
      && (r.Err? ==> t == s)
      && (r.Ok? ==>
            && r.value == Relationship(call.newRelationship, task, ends.low, ends.high, req.kind, ends.direction, Active, 1,
                 call.newChange, call.now)
            && exists command :: t == Written(s, r.value,
                 ChangeOf(call, call.authority.value, req.operationId, CREATE, None, r.value, req.reason, None, command)))
  {
    var ends := Normalize(req).value;
    assert ends.low in {first, second} && ends.high in {first, second};
    assert first in {ends.low, ends.high} && second in {ends.low, ends.high};
    assert FindOperation(s.changes, req.operationId) == None && !ChangeIdUsed(s.changes, call.newChange);
  }

  lemma {:induction false} PairInOrder(a: Id, b: Id, c: Id, d: Id)
    requires a.number < b.number && c.number < d.number
    ensures {a, b} == {c, d} <==> a == c && b == d
  {
    if {a, b} == {c, d} {
      assert a in {c, d} && b in {c, d} && c in {a, b} && d in {a, b};
    }
  }

  /** A creation that does not name two ends as its kind asks is refused. */
  lemma {:induction false} MalformedIsRefused(s: State, limits: Limits, task: Id, call: Call, req: Request)
    requires req.Create? && Admissible(s, task, call, req.operationId)
    requires forall first, second :: !NamesEnds(req, first, second)
    ensures Handle(s, limits, task, call, req) == (s, Err(Conflict))
  {
    if Normalize(req).Ok? {
      assert NamesEnds(req, Normalize(req).value.derived, Normalize(req).value.upstream);
    }
  }

  /** An accepted reversal is journaled as the reversal of the change it names, with the reason given. */
  lemma {:induction false} ReversalIsRecorded(s: State, limits: Limits, task: Id, call: Call, req: Request)
    requires req.Reverse? && Handle(s, limits, task, call, req).0 != s
    ensures var (t, r) := Handle(s, limits, task, call, req);
      && |t.changes| == |s.changes| + 1 && s.changes <= t.changes && r.Ok? && req.relationship in s.rows
      && t.events == s.events + [Event(r.value.task, req.operationId, r.value)]
      && var c := t.changes[|s.changes|];
         && c.id == call.newChange && c.operationId == req.operationId && c.operation == REVERSE && c.reverses == Some(req.change)
         && c.previous == Some(s.rows[req.relationship]) && c.resulting == r.value && c.reason == req.reason
         && c.actor == call.actor && c.createdAt == call.now
  {
  }

  // ----- what a retraction does to the graph

  lemma {:induction false} OneRowPerEdge(s: State, a: Id, b: Id, task: Id)
    requires Coherent(s) && a in s.rows && b in s.rows && s.rows[a].ActiveDerived(task) && s.rows[b].ActiveDerived(task)
    requires s.rows[a].DerivedEnd() == s.rows[b].DerivedEnd() && s.rows[a].UpstreamEnd() == s.rows[b].UpstreamEnd()
    ensures a == b
  {
    assert RowCoherent(s, a) && RowCoherent(s, b);
  }

  /** Only admissible requests change anything. */
  lemma {:induction false} ChangedIsAdmissible(s: State, limits: Limits, task: Id, call: Call, req: Request)
    requires req.Mutate? && Handle(s, limits, task, call, req).0 != s
    ensures Admissible(s, task, call, req.operationId)
  {
  }

  /** Retracting an active derivation takes exactly its edge out of the derivations of its task. */
  lemma {:induction false} RetractionRemovesEdge(s: State, limits: Limits, task: Id, call: Call, req: Request)
    requires Coherent(s) && req.Mutate? && req.retract && Handle(s, limits, task, call, req).0 != s
    requires s.rows[req.relationship].kind == DerivedFrom
    ensures var row := s.rows[req.relationship];
      DerivedEdges(Handle(s, limits, task, call, req).0.rows, task) ==
        DerivedEdges(s.rows, task) - {(row.DerivedEnd(), row.UpstreamEnd())}
  {
    var row, t := s.rows[req.relationship], Handle(s, limits, task, call, req).0;
    ChangedIsAdmissible(s, limits, task, call, req);
    RetractedExactly(s, limits, task, call, req);
    forall e
      ensures e in DerivedEdges(t.rows, task) <==> e in DerivedEdges(s.rows, task) && e != (row.DerivedEnd(), row.UpstreamEnd())
    {
      EdgeAfterRetraction(s, t, task, row, e);
    }
  }

  lemma {:induction false} EdgeAfterRetraction(s: State, t: State, task: Id, row: Relationship, e: (Id, Id))
    requires Coherent(s) && row.id in s.rows && s.rows[row.id] == row && row.ActiveDerived(task)
    requires t.rows.Keys == s.rows.Keys && t.rows[row.id].lifecycle == Retracted
    requires forall id | id in s.rows && id != row.id :: t.rows[id] == s.rows[id]
    ensures e in DerivedEdges(t.rows, task) <==> e in DerivedEdges(s.rows, task) && e != (row.DerivedEnd(), row.UpstreamEnd())
  {
    if e in DerivedEdges(t.rows, task) {
      var id :| id in t.rows && t.rows[id].ActiveDerived(task) && e == (t.rows[id].DerivedEnd(), t.rows[id].UpstreamEnd());
      assert id != row.id && t.rows[id] == s.rows[id];
      if e == (row.DerivedEnd(), row.UpstreamEnd()) {
        OneRowPerEdge(s, id, row.id, task);
      }
    }
    if e in DerivedEdges(s.rows, task) && e != (row.DerivedEnd(), row.UpstreamEnd()) {
      var id :| id in s.rows && s.rows[id].ActiveDerived(task) && e == (s.rows[id].DerivedEnd(), s.rows[id].UpstreamEnd());
      assert t.rows[id] == s.rows[id];
    }
  }

  /** Retracting is always possible for whoever knows the present revision, is never misled, and needs no search. */
  lemma {:induction false} RetractionIsSafe(s: State, limits: Limits, task: Id, call: Call, req: Request)
    requires Coherent(s) && req.Mutate? && req.retract
    ensures !Misled(s, limits, Serve(task, call, req))
    ensures NoCycles(s) ==> NoCycles(Handle(s, limits, task, call, req).0)
  {
    if Handle(s, limits, task, call, req).0 != s {
      ChangedIsAdmissible(s, limits, task, call, req);
      RetractedExactly(s, limits, task, call, req);
    }
    if NoCycles(s) {
      StepKeepsAcyclic(s, limits, Serve(task, call, req));
    }
  }
}
