/**
 Requests on source relationships as atomic steps: relationship rows, their append-only change journal
 and the audit events change together or not at all.
 */
module SourceDependenceModel {
  import opened Basics
  import opened SourceRelationships
  import opened CycleProof
  import opened RelationshipJournal

  const REVERSAL_WINDOW: int := 48 * 3600

  datatype Event = Event(task: Id, operationId: Id, resulting: Relationship)

  datatype State = State(
    tasks: set<Id>, sources: map<Id, Id>, rows: Rows, changes: seq<Change>, events: seq<Event>)

  /** Who calls, what authority the security lock granted, the identities drawn, and the clock. */
  datatype Call = Call(actor: string, authority: Option<Authority>, newRelationship: Id, newChange: Id, now: Time)

  datatype Request =
    | Create(derived: Option<Id>, upstream: Option<Id>, a: Option<Id>, b: Option<Id>, kind: Kind,
             reason: string, operationId: Id)
    | Mutate(relationship: Id, expectedRevision: nat, retract: bool, lifecycle: Option<Lifecycle>,
             direction: Option<Direction>, reason: string, operationId: Id)
    | Reverse(relationship: Id, change: Id, expectedRevision: nat, reason: string, operationId: Id)

  datatype Ends = Ends(derived: Id, upstream: Id, low: Id, high: Id, direction: Direction)

  /** The endpoints of a creation in canonical order, or a conflict for a malformed request. */
  function Normalize(req: Request): (r: Result<Ends>)
    requires req.Create?
    ensures r.Ok? ==> r.value.low.number < r.value.high.number && r.value.derived != r.value.upstream
    ensures r.Ok? ==> {r.value.low, r.value.high} == {r.value.derived, r.value.upstream}
    ensures r.Ok? ==> (r.value.direction == NoDirection <==> req.kind == CommonOrigin)
    ensures r.Ok? && req.kind == DerivedFrom ==> (r.value.direction == LowToHigh <==> r.value.derived == r.value.low)
  {
    var (first, second, spareFirst, spareSecond) :=
      if req.kind == DerivedFrom then (req.derived, req.upstream, req.a, req.b)
      else (req.a, req.b, req.derived, req.upstream);
    if first == None || second == None || spareFirst != None || spareSecond != None || first == second then Err(Conflict)
    else
      var (derived, upstream) := (first.value, second.value);
      var (low, high) := if derived.number < upstream.number then (derived, upstream) else (upstream, derived);
      var direction := if req.kind == CommonOrigin then NoDirection
                       else if derived == low then LowToHigh else HighToLow;
      Ok(Ends(derived, upstream, low, high, direction))
  }

  /** The journal row recorded under an operation identity. */
  function FindOperation(changes: seq<Change>, operationId: Id): (r: Option<Change>)
    ensures r.Some? ==> r.value in changes && r.value.operationId == operationId
    ensures r == None ==> forall c | c in changes :: c.operationId != operationId
  {
    if changes == [] then None
    else if changes[0].operationId == operationId then Some(changes[0])
    else FindOperation(changes[1..], operationId)
  }

  function FindChange(changes: seq<Change>, task: Id, relationship: Id, id: Id): (r: Option<Change>)
    ensures r.Some? ==> r.value in changes && r.value.id == id && r.value.relationship == relationship && r.value.task == task
    ensures r == None ==> forall c | c in changes :: c.id != id || c.relationship != relationship || c.task != task
  {
    if changes == [] then None
    else if changes[0].id == id && changes[0].relationship == relationship && changes[0].task == task then Some(changes[0])
    else FindChange(changes[1..], task, relationship, id)
  }

  predicate ChangeIdUsed(changes: seq<Change>, id: Id) {
    exists c | c in changes :: c.id == id
  }

  /** A repeated operation identity returns the recorded result or conflicts. */
  function RetryOrConflict(change: Change, task: Id, actor: string, command: Command): Result<Relationship> {
    if change.task != task || change.actor != actor || change.command != Some(command) then Err(Conflict)
    else Ok(change.resulting)
  }

  function SameEndsAndKind(rows: Rows, task: Id, low: Id, high: Id, kind: Kind): set<Id> {
    set id | id in rows && rows[id].task == task && rows[id].low == low && rows[id].high == high && rows[id].kind == kind
  }

  function CreateCommandOf(actor: string, req: Request, ends: Ends): Command
    requires req.Create?
  {
    CreateCommand(actor, req.kind, ends.low, ends.high, ends.direction, req.reason)
  }

  function MutateCommandOf(actor: string, req: Request, kind: Kind, direction: Direction, lifecycle: Lifecycle): Command
    requires req.Mutate?
  {
    MutateCommand(actor, if req.retract then RETRACT else SET, req.relationship, kind, direction, lifecycle,
      req.reason, req.expectedRevision)
  }

  function ReverseCommandOf(actor: string, req: Request): Command
    requires req.Reverse?
  {
    ReverseCommand(actor, req.relationship, req.change, req.reason, req.expectedRevision)
  }

  /** A row, its journal entry and its audit event, as one transaction adds them. */
  function Written(s: State, row: Relationship, change: Change): State {
    s.(rows := s.rows[row.id := row], changes := s.changes + [change],
       events := s.events + [Event(row.task, change.operationId, row)])
  }

  function NextRow(current: Relationship, direction: Direction, lifecycle: Lifecycle, call: Call): Relationship {
    current.(direction := direction, lifecycle := lifecycle, revision := current.revision + 1,
             latestChange := call.newChange, updatedAt := call.now)
  }

  function ChangeOf(
    call: Call, authority: Authority, operationId: Id, operation: Operation, previous: Option<Relationship>,
    row: Relationship, reason: string, reverses: Option<Id>, command: Command): Change
    requires row.revision >= 1
  {
    Change(call.newChange, operationId, row.id, row.task, row.revision - 1, row.revision, operation, previous, row,
      call.actor, reason, authority, reverses, Some(command), call.now)
  }

  function SearchFor(s: State, limits: Limits, task: Id, excluded: Option<Id>): Search {
    Search(s.rows, task, excluded, limits)
  }

  ghost function CreateSpec(s: State, limits: Limits, task: Id, call: Call, req: Request): (State, Result<Relationship>)
    requires req.Create?
  {
    if task !in s.tasks then (s, Err(NotFound))
    else if call.authority == None then (s, Err(Denied))
    else match Normalize(req)
      case Err(e) => (s, Err(e))
      case Ok(ends) =>
        var command := CreateCommandOf(call.actor, req, ends);
        var prior := FindOperation(s.changes, req.operationId);
        if prior.Some? then (s, RetryOrConflict(prior.value, task, call.actor, command))
        else if ends.low !in s.sources || s.sources[ends.low] != task
             || ends.high !in s.sources || s.sources[ends.high] != task then (s, Err(Conflict))
        else if req.kind == DerivedFrom && !SearchFor(s, limits, task, None).ProofExists(ends.derived, ends.upstream)
        then (s, Err(Conflict))
        else if SameEndsAndKind(s.rows, task, ends.low, ends.high, req.kind) != {} then (s, Err(Conflict))
        else if call.newRelationship in s.rows || ChangeIdUsed(s.changes, call.newChange) then (s, Err(Invalid))
        else
          var row := Relationship(call.newRelationship, task, ends.low, ends.high, req.kind, ends.direction, Active, 1,
                       call.newChange, call.now);
          (Written(s, row, ChangeOf(call, call.authority.value, req.operationId, CREATE, None, row, req.reason, None, command)),
           Ok(row))
  }

  /** Lifecycle and direction a mutation asks for. */
  function Requested(current: Relationship, req: Request): (Lifecycle, Direction)
    requires req.Mutate?
  {
    if req.retract then (Retracted, current.direction)
    else (if req.lifecycle.Some? then req.lifecycle.value else Active,
          if req.direction.Some? then req.direction.value else current.direction)
  }

  ghost predicate MayActivate(s: State, limits: Limits, row: Relationship) {
    row.lifecycle == Active && row.kind == DerivedFrom ==>
      row.direction != NoDirection &&
      SearchFor(s, limits, row.task, Some(row.id)).ProofExists(row.DerivedEnd(), row.UpstreamEnd())
  }

  ghost function MutateSpec(s: State, limits: Limits, task: Id, call: Call, req: Request): (State, Result<Relationship>)
    requires req.Mutate?
  {
    if task !in s.tasks then (s, Err(NotFound))
    else if call.authority == None then (s, Err(Denied))
    else
      var prior := FindOperation(s.changes, req.operationId);
      if prior.Some? then
        var stored := prior.value.resulting;
        (s, RetryOrConflict(prior.value, task, call.actor,
              MutateCommandOf(call.actor, req, stored.kind, stored.direction, stored.lifecycle)))
      else if req.relationship !in s.rows || s.rows[req.relationship].task != task then (s, Err(NotFound))
      else
        var current := s.rows[req.relationship];
        var (lifecycle, direction) := Requested(current, req);
        var row := NextRow(current, direction, lifecycle, call);
        if current.revision != req.expectedRevision then (s, Err(Conflict))
        else if (current.kind == CommonOrigin) != (direction == NoDirection) then (s, Err(Conflict))
        else if !MayActivate(s, limits, row) then (s, Err(Conflict))
        else if lifecycle == current.lifecycle && direction == current.direction then (s, Err(Conflict))
        else if ChangeIdUsed(s.changes, call.newChange) then (s, Err(Invalid))
        else
          var command := MutateCommandOf(call.actor, req, current.kind, direction, lifecycle);
          (Written(s, row, ChangeOf(call, call.authority.value, req.operationId,
             if req.retract then RETRACT else SET, Some(current), row, req.reason, None, command)), Ok(row))
  }

  /** Lifecycle and direction before a change; undoing a creation retracts. */
  function Restored(current: Relationship, target: Change): (Lifecycle, Direction) {
    match target.previous
    case None => (Retracted, current.direction)
    case Some(previous) => (previous.lifecycle, previous.direction)
  }

  ghost function ReverseSpec(s: State, limits: Limits, task: Id, call: Call, req: Request): (State, Result<Relationship>)
    requires req.Reverse?
  {
    if task !in s.tasks then (s, Err(NotFound))
    else if call.authority == None then (s, Err(Denied))
    else
      var command := ReverseCommandOf(call.actor, req);
      var prior := FindOperation(s.changes, req.operationId);
      if prior.Some? then (s, RetryOrConflict(prior.value, task, call.actor, command))
      else if req.relationship !in s.rows || s.rows[req.relationship].task != task then (s, Err(NotFound))
      else
        var current := s.rows[req.relationship];
        match FindChange(s.changes, task, req.relationship, req.change)
        case None => (s, Err(NotFound))
        case Some(target) =>
          var (lifecycle, direction) := Restored(current, target);
          var row := NextRow(current, direction, lifecycle, call);
          if target.operation == REVERSE || target.createdAt < call.now - REVERSAL_WINDOW then (s, Err(Conflict))
          else if current.revision != req.expectedRevision || target.revision != current.revision then (s, Err(Conflict))
          else if !MayActivate(s, limits, row) then (s, Err(Conflict))
          else if ChangeIdUsed(s.changes, call.newChange) then (s, Err(Invalid))
          else
            (Written(s, row, ChangeOf(call, call.authority.value, req.operationId, REVERSE, Some(current), row,
               req.reason, Some(target.id), command)), Ok(row))
  }

  /** One request, as one atomic step. */
  ghost function Handle(s: State, limits: Limits, task: Id, call: Call, req: Request): (State, Result<Relationship>) {
    match req
    case Create(_, _, _, _, _, _, _) => CreateSpec(s, limits, task, call, req)
    case Mutate(_, _, _, _, _, _, _) => MutateSpec(s, limits, task, call, req)
    case Reverse(_, _, _, _, _) => ReverseSpec(s, limits, task, call, req)
  }
}
