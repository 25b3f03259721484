/** What every reachable state of the relationship tables satisfies. */
module SourceDependenceInvariant {
  import opened Basics
  import opened SourceRelationships
  import opened RelationshipJournal
  import opened SourceDependenceModel

  /** What no change to a relationship ever alters. */
  predicate SameIdentity(a: Relationship, b: Relationship) {
    a.id == b.id && a.task == b.task && a.low == b.low && a.high == b.high && a.kind == b.kind
  }

  ghost predicate BelongsTo(s: State, source: Id, task: Id) {
    source in s.sources && s.sources[source] == task
  }

  ghost predicate RowCoherent(s: State, id: Id)
    requires id in s.rows
  {
    var row := s.rows[id];
    && row.id == id && row.Valid() && row.task in s.tasks
    && BelongsTo(s, row.low, row.task) && BelongsTo(s, row.high, row.task)
    && Contiguous(row, Journal(s.changes, row.task, id))
  }

  ghost predicate ChangeCoherent(s: State, change: Change) {
    && change.relationship in s.rows && change.task == s.rows[change.relationship].task
    && SameIdentity(change.resulting, s.rows[change.relationship]) && change.resulting.Valid()
  }

  /** At most one relationship of a kind joins two sources of a task. */
  ghost predicate PairsUnique(s: State) {
    forall a, b | a in s.rows && b in s.rows && s.rows[a].task == s.rows[b].task && s.rows[a].kind == s.rows[b].kind
      && s.rows[a].low == s.rows[b].low && s.rows[a].high == s.rows[b].high :: a == b
  }

  ghost predicate IdentitiesUnique(changes: seq<Change>) {
    forall i, j | 0 <= i < j < |changes| ::
      changes[i].id != changes[j].id && changes[i].operationId != changes[j].operationId
  }

  /** One audit event per journal row. */
  ghost predicate Audited(s: State) {
    && |s.events| == |s.changes|
    && forall i | 0 <= i < |s.events| ::
      s.events[i] == Event(s.changes[i].task, s.changes[i].operationId, s.changes[i].resulting)
  }

  ghost predicate Coherent(s: State) {
    && (forall id | id in s.rows :: RowCoherent(s, id))
    && (forall c | c in s.changes :: ChangeCoherent(s, c))
    && PairsUnique(s)
    && IdentitiesUnique(s.changes)
    && Audited(s)
  }

  /** The revision counts the changes, and the last change produced the current row. */
  lemma {:induction false} RevisionCountsChanges(s: State, id: Id)
    requires Coherent(s) && id in s.rows
    ensures var records := Journal(s.changes, s.rows[id].task, id);
      |records| == s.rows[id].revision && records != [] && records[|records| - 1].resulting == s.rows[id]
  {
    var records := Journal(s.changes, s.rows[id].task, id);
    assert RowCoherent(s, id);
    assert ContinuesAt(s.rows[id], records, |records| - 1);
  }

  /** The relation between a write and the state it is applied to. */
  ghost predicate Extends(s: State, row: Relationship, change: Change) {
    && row.Valid() && row.task in s.tasks && BelongsTo(s, row.low, row.task) && BelongsTo(s, row.high, row.task)
    && change.relationship == row.id && change.task == row.task && change.resulting == row && row.latestChange == change.id
    && change.revision == row.revision && change.previousRevision == row.revision - 1
    && (forall c | c in s.changes :: c.id != change.id && c.operationId != change.operationId)
    && if row.id in s.rows then
         && SameIdentity(row, s.rows[row.id]) && row.revision == s.rows[row.id].revision + 1
         && change.previous == Some(s.rows[row.id]) && change.operation != CREATE
       else
         && row.revision == 1 && change.previous == None && change.operation == CREATE
         && SameEndsAndKind(s.rows, row.task, row.low, row.high, row.kind) == {}
  }

  lemma {:induction false} NoJournalYet(s: State, task: Id, id: Id)
    requires Coherent(s) && id !in s.rows
    ensures Journal(s.changes, task, id) == []
  {
    forall c | c in s.changes
      ensures c.relationship != id
    {
      assert ChangeCoherent(s, c);
    }
    JournalEmpty(s.changes, task, id);
  }

  lemma {:induction false} WrittenJournal(s: State, row: Relationship, change: Change)
    requires Coherent(s) && Extends(s, row, change)
    ensures Contiguous(row, Journal(Written(s, row, change).changes, row.task, row.id))
  {
    var records := Journal(s.changes, row.task, row.id);
    JournalGrows(s.changes, change, row.task, row.id);
    if row.id in s.rows {
      RevisionCountsChanges(s, row.id);
      assert RowCoherent(s, row.id);
      ContiguousAppend(s.rows[row.id], records, row, change);
    } else {
      NoJournalYet(s, row.task, row.id);
      assert ContinuesAt(row, [change], 0);
    }
  }

  lemma {:induction false} WrittenRows(s: State, row: Relationship, change: Change)
    requires Coherent(s) && Extends(s, row, change)
    ensures var t := Written(s, row, change); forall id | id in t.rows :: RowCoherent(t, id)
  {
    var t := Written(s, row, change);
    forall id | id in t.rows
      ensures RowCoherent(t, id)
    {
      if id == row.id {
        WrittenJournal(s, row, change);
      } else {
        assert RowCoherent(s, id);
        JournalGrows(s.changes, change, s.rows[id].task, id);
        assert Journal(t.changes, s.rows[id].task, id) == Journal(s.changes, s.rows[id].task, id);
      }
    }
  }

  lemma {:induction false} WrittenPairs(s: State, row: Relationship, change: Change)
    requires Coherent(s) && Extends(s, row, change)
    ensures PairsUnique(Written(s, row, change))
  {
    var t := Written(s, row, change);
    forall a, b | a in t.rows && b in t.rows && t.rows[a].task == t.rows[b].task && t.rows[a].kind == t.rows[b].kind
      && t.rows[a].low == t.rows[b].low && t.rows[a].high == t.rows[b].high
      ensures a == b
    {
      if row.id !in s.rows {
        assert a != row.id ==> a !in SameEndsAndKind(s.rows, row.task, row.low, row.high, row.kind);
        assert b != row.id ==> b !in SameEndsAndKind(s.rows, row.task, row.low, row.high, row.kind);
      }
    }
  }

  lemma {:induction false} WrittenIsCoherent(s: State, row: Relationship, change: Change)
    requires Coherent(s) && Extends(s, row, change)
    ensures Coherent(Written(s, row, change))
  {
    var t := Written(s, row, change);
    WrittenRows(s, row, change);
    WrittenPairs(s, row, change);
    forall c | c in t.changes
      ensures ChangeCoherent(t, c)
    {
      assert c != change ==> ChangeCoherent(s, c);
    }
  }

  /** The stored command of an accepted request, in terms of the row it wrote. */
  function CommandFor(actor: string, req: Request, row: Relationship): Command {
    match req
    case Create(_, _, _, _, kind, reason, _) => CreateCommand(actor, kind, row.low, row.high, row.direction, reason)
    case Mutate(_, _, _, _, _, _, _) => MutateCommandOf(actor, req, row.kind, row.direction, row.lifecycle)
    case Reverse(_, _, _, _, _) => ReverseCommandOf(actor, req)
  }

  /** What accepting a new request guarantees about the written row and change. */
  ghost predicate Accepted(s: State, limits: Limits, task: Id, call: Call, req: Request, row: Relationship, change: Change) {
    && Extends(s, row, change)
    && row.task == task && change.operationId == req.operationId && change.actor == call.actor && change.createdAt == call.now
    && FindOperation(s.changes, req.operationId) == None
    && change.command == Some(CommandFor(call.actor, req, row))
    && if req.Create? then
         && Normalize(req).Ok? && Normalize(req).value.low == row.low && Normalize(req).value.high == row.high
         && Normalize(req).value.direction == row.direction
         && row.id !in s.rows
         && (row.ActiveDerived(task) ==> SearchFor(s, limits, task, None).ProofExists(row.DerivedEnd(), row.UpstreamEnd()))
       else
         && row.id in s.rows
         && row.id == req.relationship
         && MayActivate(s, limits, row)
  }

  lemma {:induction false} CreateWrites(s: State, limits: Limits, task: Id, call: Call, req: Request)
    requires Coherent(s) && req.Create? && CreateSpec(s, limits, task, call, req).0 != s
    ensures var (t, r) := CreateSpec(s, limits, task, call, req);
      && r.Ok? && |t.changes| == |s.changes| + 1
      && t == Written(s, r.value, t.changes[|s.changes|])
      && Accepted(s, limits, task, call, req, r.value, t.changes[|s.changes|])
  {
  }

  lemma {:induction false} MutateWrites(s: State, limits: Limits, task: Id, call: Call, req: Request)
    requires Coherent(s) && req.Mutate? && MutateSpec(s, limits, task, call, req).0 != s
    ensures var (t, r) := MutateSpec(s, limits, task, call, req);
      && r.Ok? && |t.changes| == |s.changes| + 1
      && t == Written(s, r.value, t.changes[|s.changes|])
      && Accepted(s, limits, task, call, req, r.value, t.changes[|s.changes|])
  {
    assert req.relationship in s.rows ==> RowCoherent(s, req.relationship);
  }

  lemma {:induction false} ReverseWrites(s: State, limits: Limits, task: Id, call: Call, req: Request)
    requires Coherent(s) && req.Reverse? && ReverseSpec(s, limits, task, call, req).0 != s
    ensures var (t, r) := ReverseSpec(s, limits, task, call, req);
      && r.Ok? && |t.changes| == |s.changes| + 1
      && t == Written(s, r.value, t.changes[|s.changes|])
      && Accepted(s, limits, task, call, req, r.value, t.changes[|s.changes|])
  {
    assert RowCoherent(s, req.relationship);
    RestoredIsValid(s, task, req.relationship, FindChange(s.changes, task, req.relationship, req.change).value);
  }

  /** A request that changes the state is accepted, and writes one row, one journal entry and one event. */
  lemma {:induction false} AcceptedWrites(s: State, limits: Limits, task: Id, call: Call, req: Request)
    requires Coherent(s) && Handle(s, limits, task, call, req).0 != s
    ensures var (t, r) := Handle(s, limits, task, call, req);
      && r.Ok? && |t.changes| == |s.changes| + 1
      && t == Written(s, r.value, t.changes[|s.changes|])
      && Accepted(s, limits, task, call, req, r.value, t.changes[|s.changes|])
  {
    match req
    case Create(_, _, _, _, _, _, _) =>
      CreateWrites(s, limits, task, call, req);
    case Mutate(_, _, _, _, _, _, _) =>
      MutateWrites(s, limits, task, call, req);
    case Reverse(_, _, _, _, _) =>
      ReverseWrites(s, limits, task, call, req);
  }

  /** Every request, accepted or refused, keeps rows, journal and audit trail coherent. */
  lemma {:induction false} HandleKeepsCoherent(s: State, limits: Limits, task: Id, call: Call, req: Request)
    requires Coherent(s)
    ensures Coherent(Handle(s, limits, task, call, req).0)
  {
    var (t, r) := Handle(s, limits, task, call, req);
    if t != s {
      AcceptedWrites(s, limits, task, call, req);
      WrittenIsCoherent(s, r.value, t.changes[|s.changes|]);
    }
  }

  /** The state a reversal restores is a valid state of the same relationship. */
  lemma {:induction false} RestoredIsValid(s: State, task: Id, id: Id, target: Change)
    requires Coherent(s) && id in s.rows && s.rows[id].task == task
    requires target in s.changes && target.relationship == id && target.task == task
    ensures target.previous.Some? ==> target.previous.value.Valid() && SameIdentity(target.previous.value, s.rows[id])
    ensures var (lifecycle, direction) := Restored(s.rows[id], target);
      s.rows[id].kind == CommonOrigin <==> direction == NoDirection
  {
    var records := Journal(s.changes, task, id);
    JournalMembers(s.changes, task, id);
    assert RowCoherent(s, id);
    var i :| 0 <= i < |records| && records[i] == target;
    assert ContinuesAt(s.rows[id], records, i);
    if i > 0 {
      assert ChangeCoherent(s, records[i - 1]);
    }
  }
}
