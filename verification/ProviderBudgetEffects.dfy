/** When each budget request is accepted and what it records. */
module ProviderBudgetEffects {
  import opened Basics
  import opened ProviderBudgetModel

  /** One attempt has changed, into the given one, and one event of the kind says so. */
  ghost predicate OnlyChanged(s: State, t: State, operation: Id, a: Attempt, kind: EventKind) {
    && t.tasks == s.tasks && t.attempts == s.attempts[operation := a]
    && t.events == s.events + [AuditEvent(a.task, operation, kind)]
  }

  /** The event that reports an outcome. */
  ghost predicate Reports(outcome: Outcome, kind: EventKind) {
    && (outcome == SUCCEEDED ==> kind == DraftGenerated) && (outcome == FAILED ==> kind == DraftFailed)
    && (outcome == UNKNOWN ==> kind == DraftUncertain)
  }

  /** Attempts that were dispatched, or whose outcome is unknown, take any outcome; a reservation can only fail; an outcome
      recorded before may be reported again. The status recorded is the one reported, finished now unless still unknown. */
  lemma {:induction false} FinishedExactly(
    s: State, operation: Id, outcome: Outcome, reason: Option<string>, payloadFits: bool, now: Time)
    requires Sound(s) && operation in s.attempts
    ensures var (t, r) := FinishSpec(s, operation, outcome, reason, payloadFits, now); var a := s.attempts[operation];
      && (r.Ok? <==>
            payloadFits && (a.status == outcome || a.status in {DISPATCHED, UNKNOWN} || (a.status == PENDING && outcome == FAILED)))
      && (r.Err? || a.status == outcome ==> t == s)
      && (r.Ok? && a.status != outcome ==>
            exists kind :: Reports(outcome, kind) &&
              OnlyChanged(s, t, operation,
                a.(status := outcome, reason := reason, finishedAt := if outcome == UNKNOWN then None else Some(now)), kind))
  {
    assert AttemptSound(s, operation);
    assert Reports(outcome, EventFor(outcome));
  }

  /** Remote work starts exactly on a pending reservation still in time. One past its time is recorded as expired instead. */
  lemma {:induction false} DispatchedExactly(s: State, operation: Id, capability: bool, now: Time)
    requires Sound(s) && operation in s.attempts
    ensures var (t, r) := DispatchSpec(s, operation, capability, now); var a := s.attempts[operation];
      if !capability || a.status != PENDING then r.Err? && t == s
      else if a.expiresAt <= now then
        r.Err? && OnlyChanged(s, t, operation,
          a.(status := EXPIRED, finishedAt := Some(now), reason := Some("reservation_expired")), DraftExpired)
      else r.Ok? && OnlyChanged(s, t, operation, a.(status := DISPATCHED), DraftDispatched)
  {
    assert AttemptSound(s, operation);
  }

  /** An operator writes off exactly a dispatch of the task past its time; writing off an unknown outcome again is accepted
      without effect. */
  lemma {:induction false} RecoveredExactly(s: State, task: Id, operation: Id, now: Time)
    requires Sound(s) && operation in s.attempts
    ensures var (t, r) := RecoverSpec(s, task, operation, now); var a := s.attempts[operation];
      if a.task == task && a.status == DISPATCHED && a.expiresAt <= now then
        r.Ok? && OnlyChanged(s, t, operation, a.(status := UNKNOWN, reason := Some("provider_outcome_unknown"), finishedAt := None),
          DraftUncertain)
      else t == s && (r.Ok? <==> a.task == task && a.status == UNKNOWN)
  {
    assert AttemptSound(s, operation);
  }

  /** A reservation past its time. */
  predicate PastDue(a: Attempt, task: Id, now: Time) {
    a.task == task && a.status == PENDING && a.expiresAt <= now
  }

  /** One expiry event for each reservation of the task past its time. */
  ghost predicate ExpiriesOf(s: State, task: Id, now: Time, expiries: seq<AuditEvent>) {
    && Distinct(expiries)
    && forall e :: e in expiries <==>
         e.task == task && e.kind == DraftExpired && e.operation in s.attempts && PastDue(s.attempts[e.operation], task, now)
  }

  lemma {:induction false} ExpiryEventsExactly(s: State, task: Id, now: Time)
    ensures ExpiriesOf(s, task, now, ExpiryEvents(task, Sorted(Overdue(s.attempts, task, now))))
  {
    var overdue := Overdue(s.attempts, task, now);
    var operations := Sorted(overdue);
    var expiries := ExpiryEvents(task, operations);
    AscendingDistinct(operations);
    forall e
      ensures e in expiries <==>
        e.task == task && e.kind == DraftExpired && e.operation in s.attempts && PastDue(s.attempts[e.operation], task, now)
    {
      if e.operation in overdue {
        assert e.operation in Elements(operations);
        var i :| 0 <= i < |operations| && operations[i] == e.operation;
        assert expiries[i] == AuditEvent(task, e.operation, DraftExpired);
      }
      if e in expiries {
        var i :| 0 <= i < |expiries| && expiries[i] == e;
        assert operations[i] in Elements(operations);
      }
    }
  }

  /** An accepted reservation is pending for the time given; the overdue ones of the task have expired, and no other attempt is
      touched. One event each says so, the reservation last. A refused one keeps nothing. */
  lemma {:induction false} ReservationRecords(s: State, task: Id, operation: Id, limit: int, timeout: int, now: Time)
    ensures var (t, r) := ReserveSpec(s, task, operation, limit, timeout, now);
      if r.Err? then t == s
      else
        && t.tasks == s.tasks && r.value == Attempt(task, PENDING, now, now + timeout, None, None)
        && t.attempts.Keys == s.attempts.Keys + {operation} && operation !in s.attempts && t.attempts[operation] == r.value
        && (forall other | other in s.attempts ::
              var a := s.attempts[other];
              t.attempts[other] == if PastDue(a, task, now)
                then a.(status := EXPIRED, finishedAt := Some(now), reason := Some("reservation_expired")) else a)
        && exists expiries ::
             ExpiriesOf(s, task, now, expiries) && t.events == s.events + expiries + [AuditEvent(task, operation, DraftReserved)]
  {
    ExpiryEventsExactly(s, task, now);
  }
}
