/** Theorems over every mix of the writers of cycles. */
module CycleRuns {
  import opened Basics
  import opened ResearchStatus
  import opened CycleModel
  import opened CycleInvariant

  datatype Step =
    | Create(task: Id, objectives: seq<string>)
    | PlanNext(task: Id, capable: bool, objectives: seq<string>)
    | Start(task: Id, number: int, capable: bool, start: StartRequest)
    | Progress(task: Id, progress: ProgressRequest)
    | FinishAttempt(attempt: Id, status: AttemptStatus, stage: string, why: Option<string>)
    | RecordOutcome(task: Id, number: int, capable: bool, requireActive: bool, outcome: Outcome, snapshot: Snapshot)
    | Recover(task: Id, number: int, capable: bool, shown: (TaskStatus, Cycle), reason: string)
    | Interrupt(task: Id, number: int, attempt: Id, caller: Caller, capable: bool)
    | ChangeStatus(task: Id, capable: bool, expected: TaskStatus, wanted: TaskStatus)

  const EMPTY := State(map[], map[], [])

  ghost function After(s: State, step: Step): State {
    match step
    case Create(task, objectives) => CreateSpec(s, task, objectives).0
    case PlanNext(task, capable, objectives) => PlanNextSpec(s, task, capable, objectives).0
    case Start(task, number, capable, start) => StartSpec(s, task, number, capable, start).0
    case Progress(task, progress) => ProgressSpec(s, task, progress).0
    case FinishAttempt(attempt, status, stage, why) => FinishAttemptSpec(s, attempt, status, stage, why)
    case RecordOutcome(task, number, capable, requireActive, outcome, snapshot) =>
      if Ends(outcome.status) then OutcomeSpec(s, task, number, capable, requireActive, outcome, snapshot).0 else s
    case Recover(task, number, capable, shown, reason) => RecoverSpec(s, task, number, capable, shown, reason).0
    case Interrupt(task, number, attempt, caller, capable) => InterruptSpec(s, task, number, attempt, caller, capable).0
    case ChangeStatus(task, capable, expected, wanted) => ChangeStatusSpec(s, task, capable, expected, wanted).0
  }

  ghost function Run(s: State, steps: seq<Step>): State
    decreases |steps|
  {
    if steps == [] then s else Run(After(s, steps[0]), steps[1..])
  }

  /** What a step did: write one cycle, or leave every cycle where it was. */
  datatype Effect = Wrote(task: Id, position: nat) | Kept

  ghost predicate Happened(s: State, t: State, e: Effect) {
    match e
    case Kept => Keeps(s, t) && TasksSound(t)
    case Wrote(task, i) =>
      && task in t.tasks && i < |t.tasks[task].cycles| && Writes(s, t, task, i, t.tasks[task].cycles[i])
      && s.interruptions <= t.interruptions
      && forall e | e in t.interruptions :: e in s.interruptions || InterruptionSound(t, e)
  }

  lemma {:induction false} NothingHappened(s: State)
    requires Sound(s)
    ensures Happened(s, s, Kept)
  {
  }

  lemma {:induction false} StartEffect(s: State, task: Id, number: int, capable: bool, req: StartRequest) returns (e: Effect)
    requires Sound(s)
    ensures Happened(s, StartSpec(s, task, number, capable, req).0, e)
  {
    if StartSpec(s, task, number, capable, req).0 == s {
      e := Kept;
    } else {
      StartWrites(s, task, number, capable, req);
      e := Wrote(task, IndexOf(s.tasks[task].cycles, number).value);
    }
  }

  lemma {:induction false} ProgressEffect(s: State, task: Id, req: ProgressRequest) returns (e: Effect)
    requires Sound(s)
    ensures Happened(s, ProgressSpec(s, task, req).0, e)
  {
    if ProgressSpec(s, task, req).1.Err? {
      e := Kept;
    } else {
      ProgressWrites(s, task, req);
      e := Wrote(task, IndexOf(s.tasks[task].cycles, req.number).value);
    }
  }

  lemma {:induction false} OutcomeEffect(
    s: State, task: Id, number: int, capable: bool, requireActive: bool, o: Outcome, snapshot: Snapshot) returns (e: Effect)
    requires Sound(s) && Ends(o.status)
    ensures Happened(s, OutcomeSpec(s, task, number, capable, requireActive, o, snapshot).0, e)
  {
    if OutcomeSpec(s, task, number, capable, requireActive, o, snapshot).1.Err? {
      e := Kept;
    } else {
      OutcomeWrites(s, task, number, capable, requireActive, o, snapshot);
      e := Wrote(task, IndexOf(s.tasks[task].cycles, number).value);
    }
  }

  lemma {:induction false} RecoverEffect(s: State, task: Id, number: int, capable: bool, shown: (TaskStatus, Cycle), reason: string)
    returns (e: Effect)
    requires Sound(s)
    ensures Happened(s, RecoverSpec(s, task, number, capable, shown, reason).0, e)
  {
    if RecoverSpec(s, task, number, capable, shown, reason).1.Err? {
      e := Kept;
    } else {
      RecoverWrites(s, task, number, capable, shown, reason);
      e := Wrote(task, IndexOf(s.tasks[task].cycles, number).value);
    }
  }

  lemma {:induction false} InterruptEffect(s: State, task: Id, number: int, attempt: Id, caller: Caller, capable: bool)
    returns (e: Effect)
    requires Sound(s)
    ensures Happened(s, InterruptSpec(s, task, number, attempt, caller, capable).0, e)
  {
    if InterruptSpec(s, task, number, attempt, caller, capable).0 == s {
      e := Kept;
    } else {
      InterruptWrites(s, task, number, attempt, caller, capable);
      InterruptRecords(s, task, number, attempt, caller, capable);
      e := Wrote(task, IndexOf(s.tasks[task].cycles, number).value);
    }
  }

  lemma {:induction false} StepEffect(s: State, step: Step) returns (e: Effect)
    requires Sound(s)
    ensures Happened(s, After(s, step), e)
  {
    e := Kept;
    match step
    case Create(task, objectives) => CreateKeeps(s, task, objectives);
    case PlanNext(task, capable, objectives) => PlanNextKeeps(s, task, capable, objectives);
    case Start(task, number, capable, start) => e := StartEffect(s, task, number, capable, start);
    case Progress(task, progress) => e := ProgressEffect(s, task, progress);
    case FinishAttempt(attempt, status, stage, why) => FinishAttemptKeeps(s, attempt, status, stage, why);
    case RecordOutcome(task, number, capable, requireActive, outcome, snapshot) =>
      if Ends(outcome.status) {
        e := OutcomeEffect(s, task, number, capable, requireActive, outcome, snapshot);
      } else {
        NothingHappened(s);
      }
    case Recover(task, number, capable, shown, reason) => e := RecoverEffect(s, task, number, capable, shown, reason);
    case Interrupt(task, number, attempt, caller, capable) => e := InterruptEffect(s, task, number, attempt, caller, capable);
    case ChangeStatus(task, capable, expected, wanted) => ChangeStatusKeeps(s, task, capable, expected, wanted);
  }

  lemma {:induction false} EffectKeepsSound(s: State, t: State, e: Effect)
    requires Sound(s) && Happened(s, t, e)
    ensures Sound(t)
  {
    match e
    case Kept => KeptIsSound(s, t);
    case Wrote(task, i) => WritesKeepSound(s, t, task, i, t.tasks[task].cycles[i]);
  }

  lemma {:induction false} StepKeepsSound(s: State, step: Step)
    requires Sound(s)
    ensures Sound(After(s, step))
  {
    var e := StepEffect(s, step);
    EffectKeepsSound(s, After(s, step), e);
  }

  lemma {:induction false} InterruptKeepsSound(s: State, task: Id, number: int, attempt: Id, caller: Caller, capable: bool)
    requires Sound(s)
    ensures Sound(InterruptSpec(s, task, number, attempt, caller, capable).0)
  {
    StepKeepsSound(s, Interrupt(task, number, attempt, caller, capable));
  }

  /** At most one cycle of an investigation is active, a running attempt belongs to it and is the only one, and the results
      of objectives only associate what the cycle collected: in every state any mix of requests reaches. */
  lemma {:induction false} RunKeepsSound(s: State, steps: seq<Step>)
    requires Sound(s)
    ensures Sound(Run(s, steps))
    decreases |steps|
  {
    if steps != [] {
      StepKeepsSound(s, steps[0]);
      RunKeepsSound(After(s, steps[0]), steps[1..]);
    }
  }

  // ----- progress is never lost

  /** The cycle is still there, with everything it had; a finished one is exactly as it was. */
  ghost predicate Lives(s: State, t: State, task: Id, i: nat) {
    && task in s.tasks && task in t.tasks && i < |s.tasks[task].cycles| && i < |t.tasks[task].cycles|
    && Extends(s.tasks[task].cycles[i], t.tasks[task].cycles[i])
    && (Ends(s.tasks[task].cycles[i].status) ==> t.tasks[task].cycles[i] == s.tasks[task].cycles[i])
  }

  lemma {:induction false} EffectLives(s: State, t: State, e: Effect, task: Id, i: nat)
    requires Sound(s) && Happened(s, t, e) && task in s.tasks && i < |s.tasks[task].cycles|
    ensures Lives(s, t, task, i)
  {
    ExtendsItself(s.tasks[task].cycles[i]);
  }

  lemma {:induction false} ExtendsTransitive(a: Cycle, b: Cycle, c: Cycle)
    requires Extends(a, b) && Extends(b, c)
    ensures Extends(a, c)
  {
    ExtendTwice(a.results, b.results, c.results);
  }

  /** Through any mix of progress, outcomes, recoveries and interruptions, the evidence, the claims and the results of every
      cycle only grow at their ends, and a finished cycle never changes. */
  lemma {:induction false} NothingLost(s: State, steps: seq<Step>, task: Id, i: nat)
    requires Sound(s) && task in s.tasks && i < |s.tasks[task].cycles|
    ensures Lives(s, Run(s, steps), task, i)
    decreases |steps|
  {
    if steps == [] {
      ExtendsItself(s.tasks[task].cycles[i]);
    } else {
      var t := After(s, steps[0]);
      var e := StepEffect(s, steps[0]);
      EffectKeepsSound(s, t, e);
      EffectLives(s, t, e, task, i);
      NothingLost(t, steps[1..], task, i);
      ExtendsTransitive(s.tasks[task].cycles[i], t.tasks[task].cycles[i], Run(s, steps).tasks[task].cycles[i]);
    }
  }

  /** A running attempt always has exactly one place: the single active cycle of its investigation. */
  lemma {:induction false} RunningAttemptPlace(s0: State, steps: seq<Step>, id: Id) returns (i: nat)
    requires Sound(s0)
    requires var s := Run(s0, steps); id in s.attempts && s.attempts[id].status == RUNNING
    ensures var s := Run(s0, steps); var task := s.attempts[id].task;
      && HasCycle(s, task, s.attempts[id].number, i) && s.tasks[task].cycles[i].status == Active
      && (forall j | 0 <= j < |s.tasks[task].cycles| && s.tasks[task].cycles[j].status == Active :: j == i)
      && Running(s.attempts, task, s.attempts[id].number) == {id}
  {
    RunKeepsSound(s0, steps);
    var s := Run(s0, steps);
    assert AttemptSound(s, id);
    var task := s.attempts[id].task;
    i :| HasCycle(s, task, s.attempts[id].number, i) && s.tasks[task].cycles[i].status == Active;
    assert TaskSound(s.tasks[task]);
    forall j | 0 <= j < |s.tasks[task].cycles| && s.tasks[task].cycles[j].status == Active
      ensures j == i
    {
    }
    assert id in Running(s.attempts, task, s.attempts[id].number);
  }

  // ----- interruption

  lemma {:induction false} InterruptionsGrow(s: State, steps: seq<Step>)
    requires Sound(s)
    ensures s.interruptions <= Run(s, steps).interruptions && s.attempts.Keys <= Run(s, steps).attempts.Keys
    decreases |steps|
  {
    if steps != [] {
      var e := StepEffect(s, steps[0]);
      StepKeepsSound(s, steps[0]);
      InterruptionsGrow(After(s, steps[0]), steps[1..]);
    }
  }

  lemma {:induction false} FindStable(events: seq<Interruption>, more: seq<Interruption>, task: Id, attempt: Id)
    requires events <= more && FindInterruption(events, task, attempt).Some?
    ensures FindInterruption(more, task, attempt) == FindInterruption(events, task, attempt)
  {
    if !(events[0].task == task && events[0].attempt == attempt) {
      FindStable(events[1..], more[1..], task, attempt);
    }
  }

  lemma {:induction false} FindAppended(events: seq<Interruption>, e: Interruption)
    requires FindInterruption(events, e.task, e.attempt) == None
    ensures FindInterruption(events + [e], e.task, e.attempt) == Some(e)
  {
    if events != [] {
      assert (events + [e])[1..] == events[1..] + [e];
      FindAppended(events[1..], e);
    }
  }

  /** The closure an accepted interruption leaves in the trail. */
  lemma {:induction false} InterruptLeaves(s: State, task: Id, number: int, attempt: Id, caller: Caller, capable: bool)
    requires Sound(s) && InterruptSpec(s, task, number, attempt, caller, capable).1.Ok?
    ensures FindInterruption(InterruptSpec(s, task, number, attempt, caller, capable).0.interruptions, task, attempt) ==
      Some(Interruption(task, attempt, number, caller))
  {
    if FindInterruption(s.interruptions, task, attempt) == None {
      FindAppended(s.interruptions, Interruption(task, attempt, number, caller));
    }
  }

  lemma {:induction false} RepeatAccepted(s: State, task: Id, number: int, attempt: Id, caller: Caller)
    requires Sound(s) && FindInterruption(s.interruptions, task, attempt) == Some(Interruption(task, attempt, number, caller))
    ensures InterruptSpec(s, task, number, attempt, caller, true) == (s, Ok(()))
  {
    var e := Interruption(task, attempt, number, caller);
    assert InterruptionSound(s, e);
    var j: nat :| HasCycle(s, task, number, j) && StillInterrupted(s.tasks[task].cycles[j], s.attempts[attempt]);
    assert TaskSound(s.tasks[task]);
    SameNumberSamePlace(s.tasks[task], IndexOf(s.tasks[task].cycles, number).value, j);
  }

  /** An accepted interruption may be requested again by the same caller at any later time, whatever happened meanwhile: it
      is accepted without effect, and never conflicts with what the first closure left. */
  lemma {:induction false} InterruptRepeats(
    s: State, task: Id, number: int, attempt: Id, caller: Caller, capable: bool, steps: seq<Step>)
    requires Sound(s) && InterruptSpec(s, task, number, attempt, caller, capable).1.Ok?
    ensures var t := Run(InterruptSpec(s, task, number, attempt, caller, capable).0, steps);
      InterruptSpec(t, task, number, attempt, caller, true) == (t, Ok(()))
  {
    var s1 := InterruptSpec(s, task, number, attempt, caller, capable).0;
    StepKeepsSound(s, Interrupt(task, number, attempt, caller, capable));
    InterruptLeaves(s, task, number, attempt, caller, capable);
    InterruptionsGrow(s1, steps);
    RunKeepsSound(s1, steps);
    FindStable(s1.interruptions, Run(s1, steps).interruptions, task, attempt);
    RepeatAccepted(Run(s1, steps), task, number, attempt, caller);
  }

  // ----- who writes, and to what

  /** Progress is only committed in an active investigation, to its active cycle, by the running attempt of that very cycle,
      although only the task of the attempt is compared. */
  lemma {:induction false} ProgressOnOwnCycle(s: State, task: Id, req: ProgressRequest)
    requires Sound(s) && ProgressSpec(s, task, req).1.Ok?
    ensures task in s.tasks && s.tasks[task].status == TaskActive
    ensures req.attempt in s.attempts && Running(s.attempts, task, req.number) == {req.attempt}
  {
    var i := IndexOf(s.tasks[task].cycles, req.number).value;
    assert AttemptSound(s, req.attempt);
    var j: nat :| HasCycle(s, task, s.attempts[req.attempt].number, j) && s.tasks[task].cycles[j].status == Active;
    assert TaskSound(s.tasks[task]);
    assert i == j;
    assert req.attempt in Running(s.attempts, task, req.number);
  }
}
