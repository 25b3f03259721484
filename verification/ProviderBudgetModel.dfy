/** Reserving, dispatching and finishing provider attempts under a per-task limit. Each request is one atomic step under
    the task lock, at an arbitrary moment of an arbitrary clock. */
module ProviderBudgetModel {
  import opened Basics

  datatype Status = PENDING | DISPATCHED | UNKNOWN | SUCCEEDED | FAILED | EXPIRED

  /** What a provider call ended in. */
  type Outcome = s: Status | s in {SUCCEEDED, FAILED, UNKNOWN} witness FAILED

  datatype Attempt = Attempt(
    task: Id, status: Status, startedAt: Time, expiresAt: Time, finishedAt: Option<Time>, reason: Option<string>)

  datatype EventKind = DraftReserved | DraftDispatched | DraftUncertain | DraftGenerated | DraftFailed | DraftExpired

  datatype AuditEvent = AuditEvent(task: Id, operation: Id, kind: EventKind)

  datatype State = State(tasks: set<Id>, attempts: map<Id, Attempt>, events: seq<AuditEvent>)

  function EventFor(status: Status): EventKind {
    match status
    case PENDING => DraftReserved
    case DISPATCHED => DraftDispatched
    case UNKNOWN => DraftUncertain
    case SUCCEEDED => DraftGenerated
    case FAILED => DraftFailed
    case EXPIRED => DraftExpired
  }

  /** The statuses that use up the budget. */
  predicate Counts(status: Status) {
    status == PENDING || status == DISPATCHED || status == UNKNOWN || status == SUCCEEDED
  }

  function Used(attempts: map<Id, Attempt>, task: Id): set<Id> {
    set operation | operation in attempts && attempts[operation].task == task && Counts(attempts[operation].status)
  }

  function Overdue(attempts: map<Id, Attempt>, task: Id, now: Time): set<Id> {
    set operation | operation in attempts && attempts[operation].task == task && attempts[operation].status == PENDING
      && attempts[operation].expiresAt <= now
  }

  const RESERVATION_EXPIRED := "reservation_expired"

  function Expire(a: Attempt, now: Time): Attempt {
    a.(status := EXPIRED, finishedAt := Some(now), reason := Some(RESERVATION_EXPIRED))
  }

  function ExpireAll(attempts: map<Id, Attempt>, overdue: set<Id>, now: Time): map<Id, Attempt> {
    map operation | operation in attempts ::
      if operation in overdue then Expire(attempts[operation], now) else attempts[operation]
  }

  function ExpiryEvents(task: Id, operations: seq<Id>): seq<AuditEvent> {
    seq(|operations|, i requires 0 <= i < |operations| => AuditEvent(task, operations[i], DraftExpired))
  }

  /** One attempt gets a new status, and one event says so. */
  function Change(s: State, operation: Id, a: Attempt): State {
    s.(attempts := s.attempts[operation := a], events := s.events + [AuditEvent(a.task, operation, EventFor(a.status))])
  }

  /** The state a reservation starts from once overdue reservations have expired. */
  function AfterExpiry(s: State, task: Id, now: Time): State {
    var overdue := Overdue(s.attempts, task, now);
    State(s.tasks, ExpireAll(s.attempts, overdue, now), s.events + ExpiryEvents(task, Sorted(overdue)))
  }

  /** Overdue reservations expire first. When the limit is reached nothing is kept, not even those. */
  function ReserveSpec(s: State, task: Id, operation: Id, limit: int, timeout: int, now: Time): (State, Result<Attempt>) {
    if task !in s.tasks then (s, Err(NotFound))
    else if operation in s.attempts then (s, Err(Conflict))
    else
      var expired := AfterExpiry(s, task, now);
      if |Used(expired.attempts, task)| >= limit then (s, Err(Denied))
      else
        var attempt := Attempt(task, PENDING, now, now + timeout, None, None);
        (Change(expired, operation, attempt), Ok(attempt))
  }

  /** A reservation found expired is recorded as such although the request fails. */
  function DispatchSpec(s: State, operation: Id, capability: bool, now: Time): (State, Result<()>) {
    if !capability then (s, Err(Denied))
    else if operation !in s.attempts then (s, Err(Conflict))
    else
      var a := s.attempts[operation];
      if a.task !in s.tasks then (s, Err(NotFound))
      else if a.status != PENDING then (s, Err(Conflict))
      else if a.expiresAt <= now then (Change(s, operation, Expire(a, now)), Err(Conflict))
      else (Change(s, operation, a.(status := DISPATCHED)), Ok(()))
  }

  predicate MayFinish(from: Status, to: Outcome) {
    from == DISPATCHED || from == UNKNOWN || (from == PENDING && to == FAILED)
  }

  /** An outcome that is already recorded is accepted again without effect. */
  function FinishSpec(s: State, operation: Id, outcome: Outcome, reason: Option<string>, payloadFits: bool, now: Time)
    : (State, Result<()>)
  {
    if operation !in s.attempts then (s, Err(Conflict))
    else
      var a := s.attempts[operation];
      if a.task !in s.tasks then (s, Err(NotFound))
      else if !payloadFits then (s, Err(Conflict))
      else if a.status == outcome then (s, Ok(()))
      else if !MayFinish(a.status, outcome) then (s, Err(Conflict))
      else
        var finishedAt := if outcome == UNKNOWN then None else Some(now);
        (Change(s, operation, a.(status := outcome, finishedAt := finishedAt, reason := reason)), Ok(()))
  }

  function RecoverSpec(s: State, task: Id, operation: Id, now: Time): (State, Result<()>) {
    if operation !in s.attempts then (s, Err(Conflict))
    else
      var a := s.attempts[operation];
      if a.task !in s.tasks then (s, Err(NotFound))
      else if a.task != task then (s, Err(Conflict))
      else if a.status == UNKNOWN then (s, Ok(()))
      else if a.status != DISPATCHED || a.expiresAt > now then (s, Err(Conflict))
      else FinishSpec(s, operation, UNKNOWN, Some("provider_outcome_unknown"), true, now)
  }

  // ----- what every reachable state satisfies

  /** The changes of status the requests can make. */
  predicate Edge(a: Status, b: Status) {
    match a
    case PENDING => b == DISPATCHED || b == FAILED || b == EXPIRED
    case DISPATCHED => b == SUCCEEDED || b == FAILED || b == UNKNOWN
    case UNKNOWN => b == SUCCEEDED || b == FAILED
    case _ => false
  }

  predicate Final(status: Status) {
    status == SUCCEEDED || status == FAILED || status == EXPIRED
  }

  /** The events about one operation, in order. */
  ghost function Trail(events: seq<AuditEvent>, operation: Id): seq<AuditEvent> {
    if events == [] then []
    else
      var last := events[|events| - 1];
      Trail(events[..|events| - 1], operation) + if last.operation == operation then [last] else []
  }

  /** The events record one reservation and then every change of status, each once. */
  ghost predicate Records(trail: seq<AuditEvent>, a: Attempt) {
    if |trail| <= 1 then |trail| == 1 && a.status == PENDING && trail[0] == AuditEvent(a.task, trail[0].operation, DraftReserved)
    else
      var last := trail[|trail| - 1];
      && last.task == a.task && last.kind == EventFor(a.status)
      && exists before: Status :: Edge(before, a.status) && Records(trail[..|trail| - 1], a.(status := before))
  }

  ghost predicate AttemptSound(s: State, operation: Id)
    requires operation in s.attempts
  {
    var a := s.attempts[operation];
    && a.task in s.tasks && Records(Trail(s.events, operation), a)
    && (a.finishedAt.Some? <==> Final(a.status))
  }

  ghost predicate Sound(s: State) {
    && (forall operation {:trigger AttemptSound(s, operation)} | operation in s.attempts :: AttemptSound(s, operation))
    && (forall e | e in s.events :: e.operation in s.attempts)
  }

  lemma {:induction false} TrailAppend(events: seq<AuditEvent>, e: AuditEvent, operation: Id)
    ensures Trail(events + [e], operation) == Trail(events, operation) + if e.operation == operation then [e] else []
  {
    assert (events + [e])[..|events|] == events;
  }

  lemma {:induction false} NoTrail(events: seq<AuditEvent>, operation: Id)
    requires forall e | e in events :: e.operation != operation
    ensures Trail(events, operation) == []
  {
    if events != [] {
      NoTrail(events[..|events| - 1], operation);
    }
  }

  /** A status only depends on the rest of the attempt through its task. */
  lemma {:induction false} RecordsTask(trail: seq<AuditEvent>, a: Attempt, b: Attempt)
    requires a.task == b.task && a.status == b.status && Records(trail, a)
    ensures Records(trail, b)
  {
    if |trail| > 1 {
      var before: Status :| Edge(before, a.status) && Records(trail[..|trail| - 1], a.(status := before));
      RecordsTask(trail[..|trail| - 1], a.(status := before), b.(status := before));
    }
  }

  lemma {:induction false} OtherStaysSound(s: State, operation: Id, a: Attempt, other: Id)
    requires other in s.attempts && other != operation && AttemptSound(s, other)
    ensures AttemptSound(Change(s, operation, a), other)
  {
    TrailAppend(s.events, AuditEvent(a.task, operation, EventFor(a.status)), other);
    assert Trail(Change(s, operation, a).events, other) == Trail(s.events, other);
  }

  lemma {:induction false} NewIsSound(s: State, operation: Id, a: Attempt)
    requires a.task in s.tasks && a.status == PENDING && a.finishedAt == None && forall e | e in s.events :: e.operation != operation
    ensures AttemptSound(Change(s, operation, a), operation)
  {
    var e := AuditEvent(a.task, operation, EventFor(a.status));
    NoTrail(s.events, operation);
    TrailAppend(s.events, e, operation);
    assert Trail(Change(s, operation, a).events, operation) == [e];
  }

  lemma {:induction false} ChangedIsSound(s: State, operation: Id, a: Attempt)
    requires operation in s.attempts && AttemptSound(s, operation) && (a.finishedAt.Some? <==> Final(a.status))
    requires a.task == s.attempts[operation].task && Edge(s.attempts[operation].status, a.status)
    ensures AttemptSound(Change(s, operation, a), operation)
  {
    var e := AuditEvent(a.task, operation, EventFor(a.status));
    TrailAppend(s.events, e, operation);
    Extended(Trail(s.events, operation), s.attempts[operation], e, a);
  }

  /** A legal change of one attempt keeps the state sound. */
  lemma {:induction false} ChangeKeepsSound(s: State, operation: Id, a: Attempt)
    requires Sound(s) && a.task in s.tasks && (a.finishedAt.Some? <==> Final(a.status))
    requires if operation in s.attempts then a.task == s.attempts[operation].task && Edge(s.attempts[operation].status, a.status)
             else a.status == PENDING
    ensures Sound(Change(s, operation, a))
  {
    var t := Change(s, operation, a);
    forall other | other in t.attempts
      ensures AttemptSound(t, other)
    {
      if other != operation {
        assert AttemptSound(s, other);
        OtherStaysSound(s, operation, a, other);
      } else if operation in s.attempts {
        assert AttemptSound(s, operation);
        ChangedIsSound(s, operation, a);
      } else {
        NewIsSound(s, operation, a);
      }
    }
  }

  lemma {:induction false} Extended(trail: seq<AuditEvent>, a: Attempt, e: AuditEvent, b: Attempt)
    requires Records(trail, a) && b.task == a.task && Edge(a.status, b.status)
    requires e.task == b.task && e.kind == EventFor(b.status)
    ensures Records(trail + [e], b)
  {
    assert (trail + [e])[..|trail|] == trail;
    RecordsTask(trail, a, b.(status := a.status));
  }

  // ----- expiring several reservations

  /** Expiring the listed reservations one by one. */
  ghost function ExpireEach(s: State, operations: seq<Id>, now: Time): State
    requires forall operation | operation in operations :: operation in s.attempts
  {
    if operations == [] then s
    else
      var last := |operations| - 1;
      var before := ExpireEach(s, operations[..last], now);
      if operations[last] in before.attempts then
        Change(before, operations[last], Expire(before.attempts[operations[last]], now))
      else before
  }

  ghost predicate PendingIn(s: State, task: Id, operations: seq<Id>) {
    && Distinct(operations)
    && forall operation | operation in operations ::
         operation in s.attempts && s.attempts[operation].task == task && s.attempts[operation].status == PENDING
  }

  lemma {:induction false} ExpireEachFacts(s: State, task: Id, operations: seq<Id>, now: Time)
    requires PendingIn(s, task, operations)
    ensures ExpireEach(s, operations, now) ==
      State(s.tasks, ExpireAll(s.attempts, Elements(operations), now), s.events + ExpiryEvents(task, operations))
  {
    if operations == [] {
      assert ExpireAll(s.attempts, Elements(operations), now) == s.attempts;
      assert s.events + ExpiryEvents(task, operations) == s.events;
    } else {
      var last := |operations| - 1;
      var front, x := operations[..last], operations[last];
      assert operations == front + [x];
      ExpireEachFacts(s, task, front, now);
      assert Elements(operations) == Elements(front) + {x} && x !in front;
      assert ExpiryEvents(task, operations) == ExpiryEvents(task, front) + [AuditEvent(task, x, DraftExpired)];
      ExpireOneMore(s.attempts, Elements(front), x, now);
    }
  }

  lemma {:induction false} ExpireOneMore(attempts: map<Id, Attempt>, done: set<Id>, x: Id, now: Time)
    requires x in attempts && x !in done
    ensures ExpireAll(attempts, done + {x}, now) == ExpireAll(attempts, done, now)[x := Expire(attempts[x], now)]
  {
  }

  lemma {:induction false} ExpireEachKeepsSound(s: State, task: Id, operations: seq<Id>, now: Time)
    requires Sound(s) && PendingIn(s, task, operations)
    ensures Sound(ExpireEach(s, operations, now))
  {
    if operations != [] {
      var last := |operations| - 1;
      var front, x := operations[..last], operations[last];
      assert operations == front + [x];
      ExpireEachKeepsSound(s, task, front, now);
      ExpireEachFacts(s, task, front, now);
      var before := ExpireEach(s, front, now);
      assert AttemptSound(s, x) && x !in front;
      ChangeKeepsSound(before, x, Expire(before.attempts[x], now));
    }
  }

  lemma {:induction false} AscendingDistinct(ids: seq<Id>)
    requires Ascending(ids)
    ensures Distinct(ids)
  {
  }

  lemma {:induction false} AfterExpirySound(s: State, task: Id, now: Time)
    requires Sound(s)
    ensures Sound(AfterExpiry(s, task, now))
  {
    var overdue := Overdue(s.attempts, task, now);
    var operations := Sorted(overdue);
    AscendingDistinct(operations);
    assert forall operation | operation in operations :: operation in Elements(operations);
    ExpireEachFacts(s, task, operations, now);
    ExpireEachKeepsSound(s, task, operations, now);
  }
}
