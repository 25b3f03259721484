/** The service object: one method per request, each a transaction over the tables it owns. */
module SourceDependence {
  import opened Basics
  import opened SourceRelationships
  import opened CycleProof
  import opened RelationshipJournal
  import opened SourceDependenceModel
  import opened SourceDependenceInvariant
  import opened Projection

  class SourceDependenceService {
    const limits: Limits
    var tasks: set<Id>
    var sources: map<Id, Id>
    var rows: Rows
    var changes: seq<Change>
    var events: seq<Event>

    ghost function Contents(): State
      reads this
    {
      State(tasks, sources, rows, changes, events)
    }

    ghost predicate Valid()
      reads this
    {
      limits.Valid() && Coherent(Contents())
    }

    constructor (limits: Limits)
      requires limits.Valid()
      ensures Valid() && this.limits == limits && Contents() == State({}, map[], map[], [], [])
    {
      this.limits := limits;
      tasks, sources, rows, changes, events := {}, map[], map[], [], [];
    }

    /** Add the row, its first or next journal entry and the audit event. */
    method Commit(row: Relationship, change: Change)
      modifies this
      ensures Contents() == Written(old(Contents()), row, change)
    {
      rows := rows[row.id := row];
      changes := changes + [change];
      events := events + [Event(row.task, change.operationId, row)];
    }

    method CreateRelationship(task: Id, call: Call, req: Request) returns (r: Result<Relationship>)
      requires Valid() && req.Create?
      modifies this
      ensures Valid() && (Contents(), r) == CreateSpec(old(Contents()), limits, task, call, req)
    {
      HandleKeepsCoherent(Contents(), limits, task, call, req);
      if task !in tasks {
        return Err(NotFound);
      }
      if call.authority == None {
        return Err(Denied);
      }
      var normalized := Normalize(req);
      if normalized.Err? {
        return Err(normalized.error);
      }
      var ends := normalized.value;
      var command := CreateCommandOf(call.actor, req, ends);
      var prior := FindOperation(changes, req.operationId);
      if prior.Some? {
        return RetryOrConflict(prior.value, task, call.actor, command);
      }
      if ends.low !in sources || sources[ends.low] != task || ends.high !in sources || sources[ends.high] != task {
        return Err(Conflict);
      }
      if req.kind == DerivedFrom {
        var outcome := ValidateNoCycle(Search(rows, task, None, limits), ends.derived, ends.upstream);
        if outcome != Proven {
          return Err(Conflict);
        }
      }
      if SameEndsAndKind(rows, task, ends.low, ends.high, req.kind) != {} {
        return Err(Conflict);
      }
      if call.newRelationship in rows || ChangeIdUsed(changes, call.newChange) {
        return Err(Invalid);
      }
      var row := Relationship(call.newRelationship, task, ends.low, ends.high, req.kind, ends.direction, Active, 1,
        call.newChange, call.now);
      Commit(row, ChangeOf(call, call.authority.value, req.operationId, CREATE, None, row, req.reason, None, command));
      return Ok(row);
    }

    /** Search for a cycle only if the row would be an active derived edge. */
    method CheckActivation(row: Relationship) returns (ok: bool)
      requires Valid() && row.low != row.high
      ensures ok <==> MayActivate(Contents(), limits, row)
    {
      if row.lifecycle == Active && row.kind == DerivedFrom {
        if row.direction == NoDirection {
          return false;
        }
        var outcome := ValidateNoCycle(Search(rows, row.task, Some(row.id), limits), row.DerivedEnd(), row.UpstreamEnd());
        return outcome == Proven;
      }
      return true;
    }

    method MutateRelationship(task: Id, call: Call, req: Request) returns (r: Result<Relationship>)
      requires Valid() && req.Mutate?
      modifies this
      ensures Valid() && (Contents(), r) == MutateSpec(old(Contents()), limits, task, call, req)
    {
      HandleKeepsCoherent(Contents(), limits, task, call, req);
      if task !in tasks {
        return Err(NotFound);
      }
      if call.authority == None {
        return Err(Denied);
      }
      var prior := FindOperation(changes, req.operationId);
      if prior.Some? {
        var stored := prior.value.resulting;
        return RetryOrConflict(prior.value, task, call.actor,
          MutateCommandOf(call.actor, req, stored.kind, stored.direction, stored.lifecycle));
      }
      if req.relationship !in rows || rows[req.relationship].task != task {
        return Err(NotFound);
      }
      var current := rows[req.relationship];
      if current.revision != req.expectedRevision {
        return Err(Conflict);
      }
      var (lifecycle, direction) := Requested(current, req);
      if (current.kind == CommonOrigin) != (direction == NoDirection) {
        return Err(Conflict);
      }
      var row := NextRow(current, direction, lifecycle, call);
      var mayActivate := CheckActivation(row);
      if !mayActivate || (lifecycle == current.lifecycle && direction == current.direction) {
        return Err(Conflict);
      }
      if ChangeIdUsed(changes, call.newChange) {
        return Err(Invalid);
      }
      Commit(row, ChangeOf(call, call.authority.value, req.operationId, if req.retract then RETRACT else SET,
        Some(current), row, req.reason, None, MutateCommandOf(call.actor, req, current.kind, direction, lifecycle)));
      return Ok(row);
    }

    method ReverseRelationship(task: Id, call: Call, req: Request) returns (r: Result<Relationship>)
      requires Valid() && req.Reverse?
      modifies this
      ensures Valid() && (Contents(), r) == ReverseSpec(old(Contents()), limits, task, call, req)
    {
      HandleKeepsCoherent(Contents(), limits, task, call, req);
      if task !in tasks {
        return Err(NotFound);
      }
      if call.authority == None {
        return Err(Denied);
      }
      var command := ReverseCommandOf(call.actor, req);
      var prior := FindOperation(changes, req.operationId);
      if prior.Some? {
        return RetryOrConflict(prior.value, task, call.actor, command);
      }
      if req.relationship !in rows || rows[req.relationship].task != task {
        return Err(NotFound);
      }
      var current := rows[req.relationship];
      var found := FindChange(changes, task, req.relationship, req.change);
      if found == None {
        return Err(NotFound);
      }
      var target := found.value;
      if target.operation == REVERSE || target.createdAt < call.now - REVERSAL_WINDOW {
        return Err(Conflict);
      }
      if current.revision != req.expectedRevision || target.revision != current.revision {
        return Err(Conflict);
      }
      var (lifecycle, direction) := Restored(current, target);
      var row := NextRow(current, direction, lifecycle, call);
      var mayActivate := CheckActivation(row);
      if !mayActivate {
        return Err(Conflict);
      }
      if ChangeIdUsed(changes, call.newChange) {
        return Err(Invalid);
      }
      Commit(row, ChangeOf(call, call.authority.value, req.operationId, REVERSE, Some(current), row,
        req.reason, Some(target.id), command));
      return Ok(row);
    }

    /** The validated history of one relationship, oldest change first. It never fails on reachable tables. */
    method History(task: Id, relationship: Id) returns (r: Result<seq<Change>>)
      requires Valid()
      ensures r == if relationship !in rows || rows[relationship].task != task then Err(NotFound)
                   else Ok(Journal(changes, task, relationship))
    {
      if relationship !in rows || rows[relationship].task != task {
        return Err(NotFound);
      }
      assert RowCoherent(Contents(), relationship);
      var records := Journal(changes, task, relationship);
      var ok := ValidatedHistory(rows[relationship], records);
      if !ok {
        return Err(Conflict);
      }
      return Ok(records);
    }

    /** Project the relationships around some sources of a task. */
    method Project(task: Id, rootIds: seq<Id>, mayRead: bool) returns (r: Result<Projected>)
      requires Valid()
      ensures r.Err? <==>
        || task !in tasks || !mayRead || |Elements(rootIds)| > limits.roots
        || exists root | root in rootIds :: root !in sources || sources[root] != task
      ensures r == Err(NotFound) <==> task !in tasks
      ensures r.Ok? ==> Describes(View(rows, task, Elements(rootIds), limits), r.value)
    {
      if task !in tasks {
        return Err(NotFound);
      }
      if !mayRead {
        return Err(Denied);
      }
      if |Elements(rootIds)| > limits.roots || exists root | root in rootIds :: root !in sources || sources[root] != task {
        return Err(Conflict);
      }
      var p := ProjectView(View(rows, task, Elements(rootIds), limits));
      return Ok(p);
    }
  }
}
