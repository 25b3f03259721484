/** The budget service, and its theorems over every interleaving of requests. */
module ProviderBudget {
  import opened Basics
  import opened ProviderBudgetModel

  class ProviderBudgetService {
    var tasks: set<Id>
    var attempts: map<Id, Attempt>
    var events: seq<AuditEvent>

    ghost function Contents(): State
      reads this
    {
      State(tasks, attempts, events)
    }

    ghost predicate Valid()
      reads this
    {
      Sound(Contents())
    }

    constructor ()
      ensures Valid() && Contents() == State({}, map[], [])
    {
      tasks, attempts, events := {}, map[], [];
    }

    /** Change one attempt and stage the audit event of its new status. */
    method Record(operation: Id, a: Attempt)
      modifies this`attempts, this`events
      ensures Contents() == Change(old(Contents()), operation, a)
    {
      attempts := attempts[operation := a];
      events := events + [AuditEvent(a.task, operation, EventFor(a.status))];
    }

    /** Expire the overdue reservations of a task. */
    method ExpireOverdue(task: Id, now: Time)
      requires Valid()
      modifies this`attempts, this`events
      ensures Valid() && Contents() == AfterExpiry(old(Contents()), task, now)
    {
      ghost var s := Contents();
      var expired := Sorted(Overdue(attempts, task, now));
      AscendingDistinct(expired);
      assert forall operation | operation in expired :: operation in Elements(expired);
      for i := 0 to |expired|
        invariant PendingIn(s, task, expired[..i])
        invariant Contents() == ExpireEach(s, expired[..i], now)
      {
        NextExpiry(s, task, expired, i, now);
        Record(expired[i], Expire(attempts[expired[i]], now));
      }
      assert expired[..|expired|] == expired;
      ExpireEachFacts(s, task, expired, now);
      AfterExpirySound(s, task, now);
    }

    /** Reserve an attempt if the budget allows; otherwise roll everything back. */
    method Reserve(task: Id, operation: Id, limit: int, timeout: int, now: Time) returns (r: Result<Attempt>)
      requires Valid()
      modifies this`attempts, this`events
      ensures Valid() && (Contents(), r) == ReserveSpec(old(Contents()), task, operation, limit, timeout, now)
    {
      if task !in tasks {
        return Err(NotFound);
      }
      if operation in attempts {
        return Err(Conflict);
      }
      var savedAttempts, savedEvents := attempts, events;
      ExpireOverdue(task, now);
      if |Used(attempts, task)| >= limit {
        attempts, events := savedAttempts, savedEvents;
        return Err(Denied);
      }
      var attempt := Attempt(task, PENDING, now, now + timeout, None, None);
      ChangeKeepsSound(Contents(), operation, attempt);
      Record(operation, attempt);
      return Ok(attempt);
    }

    method Dispatch(operation: Id, capability: bool, now: Time) returns (r: Result<()>)
      requires Valid()
      modifies this`attempts, this`events
      ensures Valid() && (Contents(), r) == DispatchSpec(old(Contents()), operation, capability, now)
    {
      DispatchKeepsSound(Contents(), operation, capability, now);
      if !capability {
        return Err(Denied);
      }
      if operation !in attempts {
        return Err(Conflict);
      }
      var attempt := attempts[operation];
      if attempt.task !in tasks {
        return Err(NotFound);
      }
      if attempt.status != PENDING {
        return Err(Conflict);
      }
      if attempt.expiresAt <= now {
        Record(operation, Expire(attempt, now));
        return Err(Conflict);
      }
      Record(operation, attempt.(status := DISPATCHED));
      return Ok(());
    }

    method Finish(operation: Id, outcome: Outcome, reason: Option<string>, payloadFits: bool, now: Time) returns (r: Result<()>)
      requires Valid()
      modifies this`attempts, this`events
      ensures Valid() && (Contents(), r) == FinishSpec(old(Contents()), operation, outcome, reason, payloadFits, now)
    {
      FinishKeepsSound(Contents(), operation, outcome, reason, payloadFits, now);
      if operation !in attempts {
        return Err(Conflict);
      }
      var attempt := attempts[operation];
      if attempt.task !in tasks {
        return Err(NotFound);
      }
      if !payloadFits {
        return Err(Conflict);
      }
      if attempt.status == outcome {
        return Ok(());
      }
      if attempt.status != DISPATCHED && attempt.status != UNKNOWN && !(attempt.status == PENDING && outcome == FAILED) {
        return Err(Conflict);
      }
      attempt := attempt.(status := outcome);
      attempt := attempt.(finishedAt := if outcome == UNKNOWN then None else Some(now));
      attempt := attempt.(reason := reason);
      Record(operation, attempt);
      return Ok(());
    }

    /** Acknowledge that the outcome of an overdue dispatch is unknown. */
    method Recover(task: Id, operation: Id, now: Time) returns (r: Result<()>)
      requires Valid()
      modifies this`attempts, this`events
      ensures Valid() && (Contents(), r) == RecoverSpec(old(Contents()), task, operation, now)
    {
      if operation !in attempts {
        return Err(Conflict);
      }
      var attempt := attempts[operation];
      if attempt.task !in tasks {
        return Err(NotFound);
      }
      if attempt.task != task {
        return Err(Conflict);
      }
      if attempt.status == UNKNOWN {
        return Ok(());
      }
      if attempt.status != DISPATCHED || attempt.expiresAt > now {
        return Err(Conflict);
      }
      r := Finish(operation, UNKNOWN, Some("provider_outcome_unknown"), true, now);
    }
  }

  lemma {:induction false} NextExpiry(s: State, task: Id, expired: seq<Id>, i: nat, now: Time)
    requires i < |expired| && PendingIn(s, task, expired) && PendingIn(s, task, expired[..i])
    ensures PendingIn(s, task, expired[..i + 1])
    ensures var before := ExpireEach(s, expired[..i], now);
      && expired[i] in before.attempts
      && ExpireEach(s, expired[..i + 1], now) == Change(before, expired[i], Expire(before.attempts[expired[i]], now))
  {
    assert expired[..i + 1][..i] == expired[..i] && expired[..i + 1][i] == expired[i];
    ExpireEachFacts(s, task, expired[..i], now);
  }

  // ----- every run

  datatype Step =
    | AddTask(task: Id)
    | Reserving(task: Id, operation: Id, limit: int, timeout: int, now: Time)
    | Dispatching(operation: Id, capability: bool, now: Time)
    | Finishing(operation: Id, outcome: Outcome, reason: Option<string>, payloadFits: bool, now: Time)
    | Recovering(task: Id, operation: Id, now: Time)

  ghost function After(s: State, step: Step): State {
    match step
    case AddTask(task) => s.(tasks := s.tasks + {task})
    case Reserving(task, operation, limit, timeout, now) => ReserveSpec(s, task, operation, limit, timeout, now).0
    case Dispatching(operation, capability, now) => DispatchSpec(s, operation, capability, now).0
    case Finishing(operation, outcome, reason, payloadFits, now) => FinishSpec(s, operation, outcome, reason, payloadFits, now).0
    case Recovering(task, operation, now) => RecoverSpec(s, task, operation, now).0
  }

  ghost function Run(s: State, steps: seq<Step>): State
    decreases |steps|
  {
    if steps == [] then s else Run(After(s, steps[0]), steps[1..])
  }

  lemma {:induction false} DispatchKeepsSound(s: State, operation: Id, capability: bool, now: Time)
    requires Sound(s)
    ensures Sound(DispatchSpec(s, operation, capability, now).0)
  {
    if operation in s.attempts {
      var a := s.attempts[operation];
      assert AttemptSound(s, operation);
      if a.status == PENDING {
        ChangeKeepsSound(s, operation, Expire(a, now));
        ChangeKeepsSound(s, operation, a.(status := DISPATCHED));
      }
    }
  }

  lemma {:induction false} FinishKeepsSound(
    s: State, operation: Id, outcome: Outcome, reason: Option<string>, payloadFits: bool, now: Time)
    requires Sound(s)
    ensures Sound(FinishSpec(s, operation, outcome, reason, payloadFits, now).0)
  {
    if FinishSpec(s, operation, outcome, reason, payloadFits, now).0 != s {
      assert AttemptSound(s, operation);
      var a := s.attempts[operation];
      var finishedAt := if outcome == UNKNOWN then None else Some(now);
      ChangeKeepsSound(s, operation, a.(status := outcome, finishedAt := finishedAt, reason := reason));
    }
  }

  lemma {:induction false} ReserveKeepsSound(s: State, task: Id, operation: Id, limit: int, timeout: int, now: Time)
    requires Sound(s)
    ensures Sound(ReserveSpec(s, task, operation, limit, timeout, now).0)
  {
    AfterExpirySound(s, task, now);
    if ReserveSpec(s, task, operation, limit, timeout, now).1.Ok? {
      ChangeKeepsSound(AfterExpiry(s, task, now), operation, Attempt(task, PENDING, now, now + timeout, None, None));
    }
  }

  lemma {:induction false} StepKeepsSound(s: State, step: Step)
    requires Sound(s)
    ensures Sound(After(s, step))
  {
    match step
    case AddTask(task) =>
      forall operation | operation in s.attempts
        ensures AttemptSound(After(s, step), operation)
      {
        assert AttemptSound(s, operation);
      }
    case Reserving(task, operation, limit, timeout, now) => ReserveKeepsSound(s, task, operation, limit, timeout, now);
    case Dispatching(operation, capability, now) => DispatchKeepsSound(s, operation, capability, now);
    case Finishing(operation, outcome, reason, payloadFits, now) =>
      FinishKeepsSound(s, operation, outcome, reason, payloadFits, now);
    case Recovering(task, operation, now) =>
      if operation in s.attempts {
        FinishKeepsSound(s, operation, UNKNOWN, Some("provider_outcome_unknown"), true, now);
      }
  }

  /** In every reachable state the events about an attempt are one reservation and then one event for each change of its
      status, along the legal changes, ending in the stored status. */
  lemma {:induction false} RunKeepsSound(s: State, steps: seq<Step>)
    requires Sound(s)
    ensures Sound(Run(s, steps))
    decreases |steps|
  {
    if steps != [] {
      StepKeepsSound(s, steps[0]);
      RunKeepsSound(After(s, steps[0]), steps[1..]);
    }
  }

  /** After any interleaving: one reservation event and one event for each change of status, along the legal changes, the
      last one naming the stored status; a finishing time exactly for final attempts; no event about anything else. */
  lemma {:induction false} EventsMirrorStatus(s0: State, steps: seq<Step>, operation: Id)
    requires Sound(s0)
    ensures var s := Run(s0, steps);
      if operation in s.attempts then
        var a := s.attempts[operation];
        && Records(Trail(s.events, operation), a) && (a.finishedAt.Some? <==> Final(a.status))
        && Trail(s.events, operation)[|Trail(s.events, operation)| - 1].kind == EventFor(a.status)
      else Trail(s.events, operation) == []
  {
    var s := Run(s0, steps);
    RunKeepsSound(s0, steps);
    if operation in s.attempts {
      assert AttemptSound(s, operation);
    } else {
      NoTrail(s.events, operation);
    }
  }

  // ----- the budget

  lemma {:induction false} ExpiryUses(s: State, task: Id, now: Time, other: Id)
    ensures Used(AfterExpiry(s, task, now).attempts, other) <= Used(s.attempts, other)
  {
  }

  lemma {:induction false} ChangeUses(s: State, operation: Id, a: Attempt, task: Id)
    requires operation in s.attempts && a.task == s.attempts[operation].task
    requires Counts(a.status) ==> Counts(s.attempts[operation].status)
    ensures Used(Change(s, operation, a).attempts, task) <= Used(s.attempts, task)
  {
  }

  lemma {:induction false} ReserveUses(s: State, task: Id, operation: Id, limit: int, timeout: int, now: Time, other: Id)
    ensures var t := ReserveSpec(s, task, operation, limit, timeout, now).0;
      |Used(t.attempts, other)| <= |Used(s.attempts, other)| || (other == task && |Used(t.attempts, other)| <= limit)
  {
    var expired := AfterExpiry(s, task, now);
    ExpiryUses(s, task, now, other);
    SubsetCardinality(Used(expired.attempts, other), Used(s.attempts, other));
    if ReserveSpec(s, task, operation, limit, timeout, now).1.Ok? {
      AddedUses(expired, operation, Attempt(task, PENDING, now, now + timeout, None, None), other);
    }
  }

  lemma {:induction false} AddedUses(s: State, operation: Id, a: Attempt, task: Id)
    requires operation !in s.attempts
    ensures Used(Change(s, operation, a).attempts, task) <= Used(s.attempts, task) + {operation}
    ensures a.task != task ==> Used(Change(s, operation, a).attempts, task) <= Used(s.attempts, task)
    ensures |Used(Change(s, operation, a).attempts, task)| <= |Used(s.attempts, task)| + if a.task == task then 1 else 0
  {
    var before, after := Used(s.attempts, task), Used(Change(s, operation, a).attempts, task);
    if a.task == task {
      SubsetCardinality(after, before + {operation});
    } else {
      SubsetCardinality(after, before);
    }
  }

  lemma {:induction false} StepUses(s: State, step: Step, task: Id, limit: int)
    requires step.Reserving? && step.task == task ==> step.limit <= limit
    ensures |Used(After(s, step).attempts, task)| <= |Used(s.attempts, task)| || |Used(After(s, step).attempts, task)| <= limit
  {
    match step
    case AddTask(_) =>
    case Reserving(of, operation, l, timeout, now) => ReserveUses(s, of, operation, l, timeout, now, task);
    case _ =>
      var t := After(s, step);
      if t != s {
        var operation := step.operation;
        ChangeUses(s, operation, t.attempts[operation], task);
        SubsetCardinality(Used(t.attempts, task), Used(s.attempts, task));
      }
  }

  /** However requests interleave and whatever the clock does: as long as every reservation for a task is made under at
      most the limit, the attempts that count never exceed it. */
  lemma {:induction false} BudgetHolds(s: State, steps: seq<Step>, task: Id, limit: int)
    requires |Used(s.attempts, task)| <= limit
    requires forall step | step in steps && step.Reserving? && step.task == task :: step.limit <= limit
    ensures |Used(Run(s, steps).attempts, task)| <= limit
    decreases |steps|
  {
    if steps != [] {
      assert steps[0] in steps;
      StepUses(s, steps[0], task, limit);
      BudgetHolds(After(s, steps[0]), steps[1..], task, limit);
    }
  }

  // ----- the life of one attempt

  /** One step leaves an attempt alone or makes one legal change of its status. */
  ghost predicate Moves(a: Attempt, b: Attempt) {
    a == b || (Edge(a.status, b.status) && b.task == a.task && b.startedAt == a.startedAt && b.expiresAt == a.expiresAt)
  }

  lemma {:induction false} StepMoves(s: State, step: Step, operation: Id)
    requires operation in s.attempts
    ensures operation in After(s, step).attempts && Moves(s.attempts[operation], After(s, step).attempts[operation])
  {
  }

  /** The order in which statuses can be reached. */
  predicate Reaches(a: Status, b: Status) {
    a == b || Edge(a, b) || (a == PENDING && (b == UNKNOWN || b == SUCCEEDED))
  }

  /** Succeeded, failed and expired attempts never change again in any way; a dispatched attempt never expires and never
      becomes pending again; an attempt is never removed. */
  lemma {:induction false} AttemptLife(s: State, steps: seq<Step>, operation: Id)
    requires operation in s.attempts
    ensures var t := Run(s, steps);
      && operation in t.attempts && Reaches(s.attempts[operation].status, t.attempts[operation].status)
      && (Final(s.attempts[operation].status) ==> t.attempts[operation] == s.attempts[operation])
      && (s.attempts[operation].status == DISPATCHED ==>
            t.attempts[operation].status != EXPIRED && t.attempts[operation].status != PENDING)
    decreases |steps|
  {
    if steps != [] {
      StepMoves(s, steps[0], operation);
      AttemptLife(After(s, steps[0]), steps[1..], operation);
    }
  }

  /** An outcome once recorded may be reported again without effect, at any later time. */
  lemma {:induction false} OutcomeRepeats(
    s: State, steps: seq<Step>, operation: Id, outcome: Outcome, reason: Option<string>, now: Time)
    requires Sound(s) && operation in s.attempts && s.attempts[operation].status == outcome && outcome != UNKNOWN
    ensures var t := Run(s, steps); FinishSpec(t, operation, outcome, reason, true, now) == (t, Ok(()))
  {
    AttemptLife(s, steps, operation);
    RunKeepsSound(s, steps);
    assert AttemptSound(Run(s, steps), operation);
  }

  /** The attempts that count and are not reservations past their time. */
  ghost function Standing(attempts: map<Id, Attempt>, task: Id, now: Time): set<Id> {
    Used(attempts, task) - Overdue(attempts, task, now)
  }

  /** A reservation is made exactly when the task is known, the identity unused and fewer attempts stand than the limit. */
  lemma {:induction false} ReservedExactly(s: State, task: Id, operation: Id, limit: int, timeout: int, now: Time)
    ensures ReserveSpec(s, task, operation, limit, timeout, now).1.Ok? <==>
      task in s.tasks && operation !in s.attempts && |Standing(s.attempts, task, now)| < limit
  {
    assert Used(AfterExpiry(s, task, now).attempts, task) == Standing(s.attempts, task, now);
  }

  /** Remote work starts only on a reservation still in time, and only an overdue dispatch is written off. */
  lemma {:induction false} TimelyEffects(s: State, operation: Id, capability: bool, task: Id, now: Time)
    ensures DispatchSpec(s, operation, capability, now).1.Ok? ==>
      capability && operation in s.attempts && s.attempts[operation].status == PENDING && now < s.attempts[operation].expiresAt
    ensures RecoverSpec(s, task, operation, now).0 != s ==>
      && operation in s.attempts && s.attempts[operation].task == task
      && s.attempts[operation].status == DISPATCHED && s.attempts[operation].expiresAt <= now
  {
  }

  lemma {:induction false} StepFromPending(s: State, step: Step, operation: Id)
    requires operation in s.attempts && s.attempts[operation].status == PENDING
    ensures operation in After(s, step).attempts
    ensures After(s, step).attempts[operation].status == DISPATCHED ==>
      step.Dispatching? && step.operation == operation && step.capability && step.now < s.attempts[operation].expiresAt
  {
    if step.Dispatching? {
      TimelyEffects(s, step.operation, step.capability, s.attempts[operation].task, step.now);
    }
  }

  /** A reservation that was dispatched, whatever became of it, was dispatched in time and with the capability. */
  lemma {:induction false} DispatchedInTime(s: State, steps: seq<Step>, operation: Id) returns (k: nat)
    requires operation in s.attempts && s.attempts[operation].status == PENDING && operation in Run(s, steps).attempts
    requires Run(s, steps).attempts[operation].status in {DISPATCHED, UNKNOWN, SUCCEEDED}
    ensures k < |steps| && steps[k].Dispatching? && steps[k].operation == operation && steps[k].capability
    ensures steps[k].now < s.attempts[operation].expiresAt
    decreases |steps|
  {
    var t := After(s, steps[0]);
    StepMoves(s, steps[0], operation);
    StepFromPending(s, steps[0], operation);
    if t.attempts[operation].status == DISPATCHED {
      k := 0;
    } else {
      AttemptLife(t, steps[1..], operation);
      var j := DispatchedInTime(t, steps[1..], operation);
      k := j + 1;
    }
  }

  /** A dispatched attempt only becomes unknown when the caller reports so, or when the operator writes it off overdue. */
  lemma {:induction false} UnknownHasReason(s: State, steps: seq<Step>, operation: Id) returns (k: nat)
    requires operation in s.attempts && s.attempts[operation].status == DISPATCHED && operation in Run(s, steps).attempts
    requires Run(s, steps).attempts[operation].status == UNKNOWN
    ensures k < |steps|
    ensures
      || (steps[k].Finishing? && steps[k].operation == operation && steps[k].outcome == UNKNOWN)
      || (steps[k].Recovering? && steps[k].operation == operation && s.attempts[operation].expiresAt <= steps[k].now)
    decreases |steps|
  {
    var t := After(s, steps[0]);
    StepMoves(s, steps[0], operation);
    if t.attempts[operation].status == UNKNOWN {
      k := 0;
    } else {
      AttemptLife(t, steps[1..], operation);
      var j := UnknownHasReason(t, steps[1..], operation);
      k := j + 1;
    }
  }
}
