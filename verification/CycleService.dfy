/** The service object: one method per writer of cycles, each a transaction under the task lock. */
module Cycles {
  import opened Basics
  import opened ResearchStatus
  import opened CycleModel
  import opened CycleInvariant
  import opened CycleRuns

  class CycleService {
    var tasks: map<Id, Task>
    var attempts: map<Id, Attempt>
    var interruptions: seq<Interruption>

    ghost function Contents(): State
      reads this
    {
      State(tasks, attempts, interruptions)
    }

    ghost predicate Valid()
      reads this
    {
      Sound(Contents())
    }

    constructor ()
      ensures Valid() && Contents() == EMPTY
    {
      tasks, attempts, interruptions := map[], map[], [];
    }

    method CreateTask(task: Id, objectives: seq<string>) returns (r: Result<()>)
      requires Valid()
      modifies this`tasks
      ensures Valid() && (Contents(), r) == CreateSpec(old(Contents()), task, objectives)
    {
      StepKeepsSound(Contents(), Create(task, objectives));
      if task in tasks {
        return Err(Invalid);
      }
      tasks := tasks[task := Task(TaskActive, [Cycle(1, objectives, Planned, [], [], [], [], [], "", None)])];
      return Ok(());
    }

    method PlanNextCycle(task: Id, capable: bool, objectives: seq<string>) returns (r: Result<()>)
      requires Valid()
      modifies this`tasks
      ensures Valid() && (Contents(), r) == PlanNextSpec(old(Contents()), task, capable, objectives)
    {
      StepKeepsSound(Contents(), PlanNext(task, capable, objectives));
      if !capable {
        return Err(Denied);
      }
      if task !in tasks {
        return Err(NotFound);
      }
      var t := tasks[task];
      if t.status != TaskActive || AnyActive(t.cycles) || objectives == [] {
        return Err(Conflict);
      }
      var next := Cycle(MaxNumber(t.cycles) + 1, objectives, Planned, [], [], [], [], [], "", None);
      tasks := tasks[task := t.(cycles := t.cycles + [next])];
      return Ok(());
    }

    method StartCycle(task: Id, number: int, capable: bool, req: StartRequest) returns (r: Result<()>)
      requires Valid()
      modifies this`tasks, this`attempts
      ensures Valid() && (Contents(), r) == StartSpec(old(Contents()), task, number, capable, req)
    {
      StepKeepsSound(Contents(), Start(task, number, capable, req));
      if !capable {
        return Err(Denied);
      }
      if task !in tasks {
        return Err(NotFound);
      }
      var t := tasks[task];
      if t.status != TaskActive {
        return Err(Conflict);
      }
      var i := IndexOf(t.cycles, number);
      if i == None {
        return Err(NotFound);
      }
      var cycle := t.cycles[i.value];
      if (req.indices.Some? && !ValidSelection(req.indices.value, cycle)) || !req.methodAllowed {
        return Err(Invalid);
      }
      if OtherActive(t.cycles, number, req.exclusive) {
        return Err(Conflict);
      }
      if cycle.status == Active {
        return Ok(());
      }
      if cycle.status != Planned {
        return Err(Conflict);
      }
      if req.attempt.Some? && req.attempt.value in attempts {
        return Err(Invalid);
      }
      tasks := tasks[task := t.(cycles := t.cycles[i.value := cycle.(status := Active)])];
      if req.attempt.Some? {
        attempts := attempts[req.attempt.value := Attempt(task, number, RUNNING, "STARTED", [], [], None)];
      }
      return Ok(());
    }

    /** Add the sources and claims to the result of every given objective. */
    method MergeProgress(cycle: Cycle, indices: seq<nat>, sources: seq<Id>, claims: seq<Id>)
      returns (results: seq<ObjectiveResult>)
      ensures results == MergeSame(cycle.results, indices, sources, claims)
    {
      results := cycle.results;
      for i := 0 to |indices|
        invariant results == MergeSame(cycle.results, indices[..i], sources, claims)
      {
        assert indices[..i + 1][..i] == indices[..i];
        results := MergeInto(results, indices[i], sources, claims);
      }
      assert indices[..|indices|] == indices;
    }

    /** Commit what a runner collected to the cycle and to its attempt. */
    method RecordProgress(task: Id, req: ProgressRequest) returns (r: Result<()>)
      requires Valid()
      modifies this`tasks, this`attempts
      ensures Valid() && (Contents(), r) == ProgressSpec(old(Contents()), task, req)
    {
      StepKeepsSound(Contents(), Progress(task, req));
      if task !in tasks {
        return Err(Conflict);
      }
      var t := tasks[task];
      var i := IndexOf(t.cycles, req.number);
      if i == None || t.status != TaskActive || t.cycles[i.value].status != Active {
        return Err(Conflict);
      }
      var cycle := t.cycles[i.value];
      if req.indices == [] || exists index | index in req.indices :: index >= |cycle.objectives| {
        return Err(Invalid);
      }
      var results := MergeProgress(cycle, req.indices, req.sources, req.claims);
      var evidence, claims := Dedup(cycle.evidence + req.sources), Dedup(cycle.claims + req.claims);
      if |results| > RESULT_BOUND || |evidence| > EVIDENCE_BOUND || |claims| > EVIDENCE_BOUND
        || exists one | one in results :: one.index >= |cycle.objectives|
      {
        return Err(Invalid);
      }
      if req.attempt !in attempts || attempts[req.attempt].task != task || attempts[req.attempt].status != RUNNING {
        return Err(Conflict);
      }
      var updated := cycle.(results := results, evidence := evidence, claims := claims,
                            attempted := AttemptedOf(cycle, results), unresolved := cycle.objectives);
      tasks := tasks[task := t.(cycles := t.cycles[i.value := updated])];
      var a := attempts[req.attempt];
      attempts := attempts[req.attempt := a.(evidence := Dedup(a.evidence + req.sources),
                                             claims := Dedup(a.claims + req.claims), stage := req.stage)];
      return Ok(());
    }

    /** Merge the submitted results into the saved ones. */
    method MergeOutcome(cycle: Cycle, o: Outcome) returns (merged: Outcome)
      ensures merged == WithProgress(cycle, o)
    {
      var results := cycle.results;
      for i := 0 to |o.results|
        invariant results == MergeAll(cycle.results, o.results[..i])
      {
        assert o.results[..i + 1][..i] == o.results[..i];
        results := MergeInto(results, o.results[i].index, o.results[i].sources, o.results[i].claims);
      }
      assert o.results[..|o.results|] == o.results;
      merged := o.(evidence := Dedup(cycle.evidence + o.evidence), claims := Dedup(cycle.claims + o.claims),
                   attempted := Dedup(cycle.attempted + o.attempted), results := results);
    }

    method RecordCycleOutcome(task: Id, number: int, capable: bool, requireActive: bool, o: Outcome, snapshot: Snapshot)
      returns (r: Result<()>)
      requires Valid() && Ends(o.status)
      modifies this`tasks, this`attempts
      ensures Valid() && (Contents(), r) == OutcomeSpec(old(Contents()), task, number, capable, requireActive, o, snapshot)
    {
      StepKeepsSound(Contents(), RecordOutcome(task, number, capable, requireActive, o, snapshot));
      if task !in tasks {
        return Err(NotFound);
      }
      if !capable {
        return Err(Denied);
      }
      var t := tasks[task];
      if requireActive && t.status != TaskActive {
        return Err(Conflict);
      }
      var i := IndexOf(t.cycles, number);
      if i == None {
        return Err(NotFound);
      }
      var cycle := t.cycles[i.value];
      if cycle.status != Active || !UniqueIndexes(o.results) {
        return Err(Conflict);
      }
      var merged := MergeOutcome(cycle, o);
      if !OutcomeFits(cycle, merged, snapshot) {
        return Err(Conflict);
      }
      tasks := tasks[task := t.(cycles := t.cycles[i.value := Ended(cycle, merged)])];
      var status := AttemptStatusFor(o.status);
      attempts := CloseAll(attempts, Running(attempts, task, number), status, StageFor(status), Some("cycle_outcome_recorded"));
      return Ok(());
    }

    method RecoverCycle(task: Id, number: int, capable: bool, shown: (TaskStatus, Cycle), reason: string) returns (r: Result<()>)
      requires Valid()
      modifies this`tasks, this`attempts
      ensures Valid() && (Contents(), r) == RecoverSpec(old(Contents()), task, number, capable, shown, reason)
    {
      StepKeepsSound(Contents(), Recover(task, number, capable, shown, reason));
      if !capable {
        return Err(Denied);
      }
      if task !in tasks {
        return Err(NotFound);
      }
      var t := tasks[task];
      var i := IndexOf(t.cycles, number);
      if i == None {
        return Err(NotFound);
      }
      var cycle := t.cycles[i.value];
      if cycle.status != Active || shown != (t.status, cycle) {
        return Err(Conflict);
      }
      var running := Sorted(Running(attempts, task, number));
      attempts := CloseAll(attempts, if running == [] then {} else {running[0]}, INTERRUPTED, "INTERRUPTED", Some(reason));
      cycle := cycle.(status := Failed, summary := "Operator recovery: " + reason);
      cycle := cycle.(reason := Some(reason), unresolved := cycle.objectives);
      t := t.(cycles := t.cycles[i.value := cycle]);
      if t.status == TaskActive {
        t := t.(status := TaskPaused);
      }
      tasks := tasks[task := t];
      return Ok(());
    }

    /** Close the cycle together with its one running attempt. */
    method CloseInterrupted(task: Id, number: int, attempt: Id, caller: Caller, capable: bool) returns (r: Result<()>)
      requires Valid()
      modifies this
      ensures Valid() && (Contents(), r) == InterruptSpec(old(Contents()), task, number, attempt, caller, capable)
    {
      InterruptKeepsSound(Contents(), task, number, attempt, caller, capable);
      if task !in tasks {
        return Err(Conflict);
      }
      if !capable {
        return Err(Denied);
      }
      var t := tasks[task];
      var i := IndexOf(t.cycles, number);
      if i == None || attempt !in attempts || attempts[attempt].task != task || attempts[attempt].number != number {
        return Err(Conflict);
      }
      var cycle, a := t.cycles[i.value], attempts[attempt];
      var prior := FindInterruption(interruptions, task, attempt);
      if prior.Some? {
        return if prior.value.caller != caller || prior.value.number != number || !StillInterrupted(cycle, a)
               then Err(Conflict) else Ok(());
      }
      if cycle.status != Active || a.status != RUNNING || Running(attempts, task, number) != {attempt} {
        return Err(Conflict);
      }
      CommitInterruption(task, i.value, attempt, caller);
      return Ok(());
    }

    method CommitInterruption(task: Id, i: nat, attempt: Id, caller: Caller)
      requires task in tasks && i < |tasks[task].cycles| && attempt in attempts
      modifies this
      ensures var s := old(Contents()); var cycle := s.tasks[task].cycles[i];
        Contents() == SetCycle(s, task, i, Interrupted(cycle)).(
          attempts := s.attempts[attempt := Close(s.attempts[attempt], INTERRUPTED, "INTERRUPTED", Some(INTERRUPTED_REASON))],
          interruptions := s.interruptions + [Interruption(task, attempt, cycle.number, caller)])
    {
      var t := tasks[task];
      tasks := tasks[task := t.(cycles := t.cycles[i := Interrupted(t.cycles[i])])];
      attempts := attempts[attempt := Close(attempts[attempt], INTERRUPTED, "INTERRUPTED", Some(INTERRUPTED_REASON))];
      interruptions := interruptions + [Interruption(task, attempt, t.cycles[i].number, caller)];
    }

    method ChangeStatus(task: Id, capable: bool, expected: TaskStatus, status: TaskStatus) returns (r: Result<()>)
      requires Valid()
      modifies this`tasks
      ensures Valid() && (Contents(), r) == ChangeStatusSpec(old(Contents()), task, capable, expected, status)
    {
      StepKeepsSound(Contents(), CycleRuns.Step.ChangeStatus(task, capable, expected, status));
      if !capable {
        return Err(Denied);
      }
      if task !in tasks {
        return Err(NotFound);
      }
      var t := tasks[task];
      if t.status == status {
        return Ok(());
      }
      if t.status != expected || !AllowedStatus(t.status, status) {
        return Err(Conflict);
      }
      tasks := tasks[task := t.(status := status)];
      return Ok(());
    }
  }
}
