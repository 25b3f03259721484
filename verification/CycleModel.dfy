/** The cycles of an investigation and everything that writes to them: planning, starting, runner progress, outcomes,
    operator recovery and security interruption. Each request is one atomic step under the task lock. */
module CycleModel {
  import opened Basics
  import opened ResearchStatus

  /** What was collected for one objective. */
  datatype ObjectiveResult = ObjectiveResult(index: nat, sources: seq<Id>, claims: seq<Id>)

  datatype Cycle = Cycle(
    number: int, objectives: seq<string>, status: CycleStatus, evidence: seq<Id>, claims: seq<Id>,
    results: seq<ObjectiveResult>, attempted: seq<string>, unresolved: seq<string>, summary: string, reason: Option<string>)

  datatype Task = Task(status: TaskStatus, cycles: seq<Cycle>)

  datatype AttemptStatus = RUNNING | COMPLETED | BLOCKED | FAILED | INTERRUPTED

  datatype Attempt = Attempt(
    task: Id, number: int, status: AttemptStatus, stage: string, evidence: seq<Id>, claims: seq<Id>, reason: Option<string>)

  datatype Caller = SourceRunner | AgentRunner

  /** The audit event of a security interruption. */
  datatype Interruption = Interruption(task: Id, attempt: Id, number: int, caller: Caller)

  datatype State = State(tasks: map<Id, Task>, attempts: map<Id, Attempt>, interruptions: seq<Interruption>)

  const INTERRUPTED_REASON := "security_policy_interrupted"
  const EVIDENCE_BOUND := 100
  const RESULT_BOUND := 3

  /** The elements in the order of their first occurrence. */
  function Dedup<T(==)>(s: seq<T>): seq<T> {
    if s == [] then []
    else
      var front, last := Dedup(s[..|s| - 1]), s[|s| - 1];
      if last in front then front else front + [last]
  }

  function IndexOf(cycles: seq<Cycle>, number: int): (r: Option<nat>)
    ensures r.Some? ==> r.value < |cycles| && cycles[r.value].number == number
    ensures r == None ==> forall i | 0 <= i < |cycles| :: cycles[i].number != number
  {
    if cycles == [] then None
    else if cycles[0].number == number then Some(0)
    else
      match IndexOf(cycles[1..], number)
      case None => None
      case Some(i) => Some(i + 1)
  }

  predicate AnyActive(cycles: seq<Cycle>) {
    exists i | 0 <= i < |cycles| :: cycles[i].status == Active
  }

  function MaxNumber(cycles: seq<Cycle>): int {
    if cycles == [] then 0
    else
      var last, before := cycles[|cycles| - 1].number, MaxNumber(cycles[..|cycles| - 1]);
      if last > before then last else before
  }

  function SetCycle(s: State, task: Id, i: nat, cycle: Cycle): State
    requires task in s.tasks && i < |s.tasks[task].cycles|
  {
    s.(tasks := s.tasks[task := s.tasks[task].(cycles := s.tasks[task].cycles[i := cycle])])
  }

  /** The running attempts of a cycle. */
  function Running(attempts: map<Id, Attempt>, task: Id, number: int): set<Id> {
    set id | id in attempts && attempts[id].task == task && attempts[id].number == number && attempts[id].status == RUNNING
  }

  function Close(a: Attempt, status: AttemptStatus, stage: string, reason: Option<string>): Attempt {
    a.(status := status, stage := stage, reason := reason)
  }

  function CloseAll(
    attempts: map<Id, Attempt>, ids: set<Id>, status: AttemptStatus, stage: string, reason: Option<string>): map<Id, Attempt>
  {
    map id | id in attempts :: if id in ids then Close(attempts[id], status, stage, reason) else attempts[id]
  }

  // ----- planning and starting

  function CreateSpec(s: State, task: Id, objectives: seq<string>): (State, Result<()>) {
    if task in s.tasks then (s, Err(Invalid))
    else
      var first := Cycle(1, objectives, Planned, [], [], [], [], [], "", None);
      (s.(tasks := s.tasks[task := Task(TaskActive, [first])]), Ok(()))
  }

  /** The objectives are what the planner proposes; none means that there is nothing to plan. */
  function PlanNextSpec(s: State, task: Id, capable: bool, objectives: seq<string>): (State, Result<()>) {
    if !capable then (s, Err(Denied))
    else if task !in s.tasks then (s, Err(NotFound))
    else
      var t := s.tasks[task];
      if t.status != TaskActive || AnyActive(t.cycles) || objectives == [] then (s, Err(Conflict))
      else
        var next := Cycle(MaxNumber(t.cycles) + 1, objectives, Planned, [], [], [], [], [], "", None);
        (s.(tasks := s.tasks[task := t.(cycles := t.cycles + [next])]), Ok(()))
  }

  datatype StartRequest = StartRequest(exclusive: bool, indices: Option<seq<int>>, methodAllowed: bool, attempt: Option<Id>)

  predicate ValidSelection(indices: seq<int>, cycle: Cycle) {
    indices != [] && forall index | index in indices :: 0 <= index < |cycle.objectives|
  }

  predicate OtherActive(cycles: seq<Cycle>, number: int, exclusive: bool) {
    exists i | 0 <= i < |cycles| :: cycles[i].status == Active && (exclusive || cycles[i].number != number)
  }

  /** Starting the active cycle again, unless exclusively, is accepted without effect. */
  function StartSpec(s: State, task: Id, number: int, capable: bool, req: StartRequest): (State, Result<()>) {
    if !capable then (s, Err(Denied))
    else if task !in s.tasks then (s, Err(NotFound))
    else if s.tasks[task].status != TaskActive then (s, Err(Conflict))
    else match IndexOf(s.tasks[task].cycles, number)
      case None => (s, Err(NotFound))
      case Some(i) =>
        var cycle := s.tasks[task].cycles[i];
        if (req.indices.Some? && !ValidSelection(req.indices.value, cycle)) || !req.methodAllowed then (s, Err(Invalid))
        else if OtherActive(s.tasks[task].cycles, number, req.exclusive) then (s, Err(Conflict))
        else if cycle.status == Active then (s, Ok(()))
        else if cycle.status != Planned then (s, Err(Conflict))
        else if req.attempt.Some? && req.attempt.value in s.attempts then (s, Err(Invalid))
        else
          var started := SetCycle(s, task, i, cycle.(status := Active));
          match req.attempt
          case None => (started, Ok(()))
          case Some(id) =>
            (started.(attempts := s.attempts[id := Attempt(task, number, RUNNING, "STARTED", [], [], None)]), Ok(()))
  }

  // ----- progress

  function Combine(r: ObjectiveResult, sources: seq<Id>, claims: seq<Id>): ObjectiveResult {
    r.(sources := Dedup(r.sources + sources), claims := Dedup(r.claims + claims))
  }

  /** Add to the result of an objective, creating it when it is the first. */
  function MergeInto(results: seq<ObjectiveResult>, index: nat, sources: seq<Id>, claims: seq<Id>): seq<ObjectiveResult> {
    if results == [] then [Combine(ObjectiveResult(index, [], []), sources, claims)]
    else if results[0].index == index then [Combine(results[0], sources, claims)] + results[1..]
    else [results[0]] + MergeInto(results[1..], index, sources, claims)
  }

  function MergeSame(results: seq<ObjectiveResult>, indices: seq<nat>, sources: seq<Id>, claims: seq<Id>): seq<ObjectiveResult> {
    if indices == [] then results
    else
      var n := |indices| - 1;
      MergeInto(MergeSame(results, indices[..n], sources, claims), indices[n], sources, claims)
  }

  function MergeAll(results: seq<ObjectiveResult>, items: seq<ObjectiveResult>): seq<ObjectiveResult> {
    if items == [] then results
    else
      var n := |items| - 1;
      MergeInto(MergeAll(results, items[..n]), items[n].index, items[n].sources, items[n].claims)
  }

  function AttemptedOf(cycle: Cycle, results: seq<ObjectiveResult>): seq<string>
    requires forall r | r in results :: r.index < |cycle.objectives|
  {
    Dedup(seq(|results|, i requires 0 <= i < |results| => cycle.objectives[results[i].index]))
  }

  /** The cycle after some progress, unless the progress is out of bounds. */
  function Progressed(cycle: Cycle, indices: seq<nat>, sources: seq<Id>, claims: seq<Id>): Option<Cycle> {
    var results := MergeSame(cycle.results, indices, sources, claims);
    var evidence, allClaims := Dedup(cycle.evidence + sources), Dedup(cycle.claims + claims);
    if indices == [] || exists index | index in indices :: index >= |cycle.objectives| then None
    else if |results| > RESULT_BOUND || |evidence| > EVIDENCE_BOUND || |allClaims| > EVIDENCE_BOUND then None
    else if exists r | r in results :: r.index >= |cycle.objectives| then None
    else
      Some(cycle.(results := results, evidence := evidence, claims := allClaims, attempted := AttemptedOf(cycle, results),
                  unresolved := cycle.objectives))
  }

  /** A runner attached to an attempt records sources or claims for some objectives of the cycle it works on. */
  datatype ProgressRequest = ProgressRequest(
    number: int, attempt: Id, indices: seq<nat>, sources: seq<Id>, claims: seq<Id>, stage: string)

  function ProgressSpec(s: State, task: Id, req: ProgressRequest): (State, Result<()>) {
    if task !in s.tasks || IndexOf(s.tasks[task].cycles, req.number) == None then (s, Err(Conflict))
    else
      var i := IndexOf(s.tasks[task].cycles, req.number).value;
      var cycle := s.tasks[task].cycles[i];
      if s.tasks[task].status != TaskActive || cycle.status != Active then (s, Err(Conflict))
      else match Progressed(cycle, req.indices, req.sources, req.claims)
        case None => (s, Err(Invalid))
        case Some(updated) =>
          if req.attempt !in s.attempts || s.attempts[req.attempt].task != task || s.attempts[req.attempt].status != RUNNING
          then (s, Err(Conflict))
          else
            var a := s.attempts[req.attempt];
            var b := a.(evidence := Dedup(a.evidence + req.sources), claims := Dedup(a.claims + req.claims), stage := req.stage);
            (SetCycle(s, task, i, updated).(attempts := s.attempts[req.attempt := b]), Ok(()))
  }

  /** A runner closes its own attempt; an attempt already closed stays as it is. */
  function FinishAttemptSpec(s: State, attempt: Id, status: AttemptStatus, stage: string, reason: Option<string>): State {
    if attempt in s.attempts && s.attempts[attempt].status == RUNNING && status != RUNNING then
      s.(attempts := s.attempts[attempt := Close(s.attempts[attempt], status, stage, reason)])
    else s
  }

  // ----- outcomes

  datatype Outcome = Outcome(
    status: CycleStatus, summary: string, evidence: seq<Id>, claims: seq<Id>, unresolved: seq<string>, attempted: seq<string>,
    results: seq<ObjectiveResult>)

  /** Sources of the investigation, and the sources each active claim cites. */
  datatype Snapshot = Snapshot(sources: set<Id>, claims: map<Id, set<Id>>)

  predicate Ends(status: CycleStatus) {
    status == Completed || status == Blocked || status == Failed
  }

  /** The outcome with everything the cycle had already recorded. */
  function WithProgress(cycle: Cycle, o: Outcome): Outcome {
    o.(evidence := Dedup(cycle.evidence + o.evidence), claims := Dedup(cycle.claims + o.claims),
       attempted := Dedup(cycle.attempted + o.attempted), results := MergeAll(cycle.results, o.results))
  }

  predicate UniqueIndexes(results: seq<ObjectiveResult>) {
    forall i, j | 0 <= i < j < |results| :: results[i].index != results[j].index
  }

  predicate ResultFits(cycle: Cycle, o: Outcome, snapshot: Snapshot, r: ObjectiveResult) {
    && r.index < |cycle.objectives| && cycle.objectives[r.index] in o.attempted
    && Elements(r.sources) <= Elements(o.evidence) && Elements(r.claims) <= Elements(o.claims)
    && forall claim | claim in r.claims ::
         claim in snapshot.claims && exists source | source in r.sources :: source in snapshot.claims[claim]
  }

  predicate OutcomeFits(cycle: Cycle, o: Outcome, snapshot: Snapshot) {
    && |o.evidence| <= EVIDENCE_BOUND && |o.claims| <= EVIDENCE_BOUND && |o.attempted| <= RESULT_BOUND && |o.results| <= RESULT_BOUND
    && Elements(o.evidence) <= snapshot.sources && Elements(o.claims) <= snapshot.claims.Keys
    && Elements(o.attempted) <= Elements(cycle.objectives) && Elements(o.unresolved) <= Elements(cycle.objectives)
    && UniqueIndexes(o.results) && forall r | r in o.results :: ResultFits(cycle, o, snapshot, r)
  }

  function Ended(cycle: Cycle, o: Outcome): Cycle {
    cycle.(status := o.status, summary := o.summary, evidence := o.evidence, claims := o.claims, unresolved := o.unresolved,
           attempted := o.attempted, results := o.results)
  }

  function AttemptStatusFor(status: CycleStatus): AttemptStatus {
    match status
    case Completed => COMPLETED
    case Blocked => BLOCKED
    case _ => FAILED
  }

  function StageFor(status: AttemptStatus): string {
    match status
    case RUNNING => "RUNNING"
    case COMPLETED => "COMPLETED"
    case BLOCKED => "BLOCKED"
    case FAILED => "FAILED"
    case INTERRUPTED => "INTERRUPTED"
  }

  function OutcomeSpec(s: State, task: Id, number: int, capable: bool, requireActive: bool, o: Outcome, snapshot: Snapshot)
    : (State, Result<()>)
    requires Ends(o.status)
  {
    if task !in s.tasks then (s, Err(NotFound))
    else if !capable then (s, Err(Denied))
    else if requireActive && s.tasks[task].status != TaskActive then (s, Err(Conflict))
    else match IndexOf(s.tasks[task].cycles, number)
      case None => (s, Err(NotFound))
      case Some(i) =>
        var cycle := s.tasks[task].cycles[i];
        var merged := WithProgress(cycle, o);
        if cycle.status != Active || !UniqueIndexes(o.results) || !OutcomeFits(cycle, merged, snapshot) then (s, Err(Conflict))
        else
          var status := AttemptStatusFor(o.status);
          (SetCycle(s, task, i, Ended(cycle, merged)).(
             attempts := CloseAll(s.attempts, Running(s.attempts, task, number), status, StageFor(status),
                                  Some("cycle_outcome_recorded"))),
           Ok(()))
  }

  // ----- recovery, interruption, task status

  /** The operator acts on the task status and the cycle that were displayed. At most one attempt of a cycle is running;
      were there more, only one would be closed. */
  function RecoverSpec(s: State, task: Id, number: int, capable: bool, shown: (TaskStatus, Cycle), reason: string)
    : (State, Result<()>)
  {
    if !capable then (s, Err(Denied))
    else if task !in s.tasks then (s, Err(NotFound))
    else match IndexOf(s.tasks[task].cycles, number)
      case None => (s, Err(NotFound))
      case Some(i) =>
        var t := s.tasks[task];
        var cycle := t.cycles[i];
        if cycle.status != Active || shown != (t.status, cycle) then (s, Err(Conflict))
        else
          var running := Sorted(Running(s.attempts, task, number));
          var closed := if running == [] then {} else {running[0]};
          var failed := cycle.(status := Failed, summary := "Operator recovery: " + reason, reason := Some(reason),
                               unresolved := cycle.objectives);
          var updated := t.(cycles := t.cycles[i := failed], status := if t.status == TaskActive then TaskPaused else t.status);
          (s.(tasks := s.tasks[task := updated],
              attempts := CloseAll(s.attempts, closed, INTERRUPTED, "INTERRUPTED", Some(reason))), Ok(()))
  }

  function FindInterruption(events: seq<Interruption>, task: Id, attempt: Id): (r: Option<Interruption>)
    ensures r.Some? ==> r.value in events && r.value.task == task && r.value.attempt == attempt
    ensures r == None ==> forall e | e in events :: e.task != task || e.attempt != attempt
  {
    if events == [] then None
    else if events[0].task == task && events[0].attempt == attempt then Some(events[0])
    else FindInterruption(events[1..], task, attempt)
  }

  predicate StillInterrupted(cycle: Cycle, a: Attempt) {
    && cycle.status == Blocked && cycle.reason == Some(INTERRUPTED_REASON)
    && a.status == INTERRUPTED && a.stage == "INTERRUPTED" && a.reason == Some(INTERRUPTED_REASON)
  }

  function Interrupted(cycle: Cycle): Cycle {
    cycle.(status := Blocked, summary := "Security policy interrupted this cycle; committed progress retained.",
           reason := Some(INTERRUPTED_REASON))
  }

  /** Close exactly one running attempt and its cycle. The same request again is accepted without effect. */
  function InterruptSpec(s: State, task: Id, number: int, attempt: Id, caller: Caller, capable: bool): (State, Result<()>) {
    if task !in s.tasks then (s, Err(Conflict))
    else if !capable then (s, Err(Denied))
    else match IndexOf(s.tasks[task].cycles, number)
      case None => (s, Err(Conflict))
      case Some(i) =>
        if attempt !in s.attempts || s.attempts[attempt].task != task || s.attempts[attempt].number != number
        then (s, Err(Conflict))
        else
          var cycle, a := s.tasks[task].cycles[i], s.attempts[attempt];
          match FindInterruption(s.interruptions, task, attempt)
          case Some(prior) =>
            if prior.caller != caller || prior.number != number || !StillInterrupted(cycle, a) then (s, Err(Conflict))
            else (s, Ok(()))
          case None =>
            if cycle.status != Active || a.status != RUNNING || Running(s.attempts, task, number) != {attempt}
            then (s, Err(Conflict))
            else
              (SetCycle(s, task, i, Interrupted(cycle)).(
                 attempts := s.attempts[attempt := Close(a, INTERRUPTED, "INTERRUPTED", Some(INTERRUPTED_REASON))],
                 interruptions := s.interruptions + [Interruption(task, attempt, number, caller)]),
               Ok(()))
  }

  function ChangeStatusSpec(s: State, task: Id, capable: bool, expected: TaskStatus, status: TaskStatus): (State, Result<()>) {
    if !capable then (s, Err(Denied))
    else if task !in s.tasks then (s, Err(NotFound))
    else
      var t := s.tasks[task];
      if t.status == status then (s, Ok(()))
      else if t.status != expected || !AllowedStatus(t.status, status) then (s, Err(Conflict))
      else (s.(tasks := s.tasks[task := t.(status := status)]), Ok(()))
  }
}
