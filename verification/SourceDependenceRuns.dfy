/** Theorems over every run of requests, interleaved with new tasks and sources. */
module SourceDependenceRuns {
  import opened Basics
  import opened Graphs
  import opened SourceRelationships
  import opened CycleSafety
  import opened RelationshipJournal
  import opened SourceDependenceModel
  import opened SourceDependenceInvariant
  import opened Projection

  datatype Step =
    | Serve(task: Id, call: Call, req: Request)
    | AddTask(added: Id)
    | AddSources(more: map<Id, Id>)

  const EMPTY := State({}, map[], map[], [], [])

  ghost function After(s: State, limits: Limits, step: Step): State {
    match step
    case Serve(task, call, req) => Handle(s, limits, task, call, req).0
    case AddTask(added) => s.(tasks := s.tasks + {added})
    case AddSources(more) => s.(sources := more + s.sources)
  }

  ghost function Run(s: State, limits: Limits, steps: seq<Step>): State
    decreases |steps|
  {
    if steps == [] then s else Run(After(s, limits, steps[0]), limits, steps[1..])
  }

  lemma {:induction false} StepKeepsCoherent(s: State, limits: Limits, step: Step)
    requires Coherent(s)
    ensures Coherent(After(s, limits, step))
  {
    var t := After(s, limits, step);
    if step.Serve? {
      HandleKeepsCoherent(s, limits, step.task, step.call, step.req);
    } else {
      forall id | id in t.rows
        ensures RowCoherent(t, id)
      {
        assert RowCoherent(s, id);
      }
      forall c | c in t.changes
        ensures ChangeCoherent(t, c)
      {
        assert ChangeCoherent(s, c);
      }
    }
  }

  /** In every reachable state the history of every relationship passes the integrity check. */
  lemma {:induction false} RunKeepsCoherent(s: State, limits: Limits, steps: seq<Step>)
    requires Coherent(s)
    ensures Coherent(Run(s, limits, steps))
    decreases |steps|
  {
    if steps != [] {
      StepKeepsCoherent(s, limits, steps[0]);
      RunKeepsCoherent(After(s, limits, steps[0]), limits, steps[1..]);
    }
  }

  lemma {:induction false} HistoryAlwaysReads(s0: State, limits: Limits, steps: seq<Step>, id: Id)
    requires Coherent(s0) && id in Run(s0, limits, steps).rows
    ensures var s := Run(s0, limits, steps); var row := s.rows[id]; var records := Journal(s.changes, row.task, id);
      Contiguous(row, records) && |records| == row.revision
  {
    RunKeepsCoherent(s0, limits, steps);
    var s := Run(s0, limits, steps);
    assert RowCoherent(s, id);
    RevisionCountsChanges(s, id);
  }

  ghost predicate NoCycles(s: State) {
    forall task :: AcyclicTask(s.rows, task)
  }

  /** The search behind a mutation or reversal that left an active derived row, if the step was one. */
  ghost predicate Activates(s: State, limits: Limits, step: Step) {
    step.Serve? && !step.req.Create? &&
    var (t, r) := Handle(s, limits, step.task, step.call, step.req);
    t != s && r.Ok? && r.value.ActiveDerived(step.task)
  }

  ghost function ActivatedRow(s: State, limits: Limits, step: Step): Relationship
    requires Activates(s, limits, step)
  {
    Handle(s, limits, step.task, step.call, step.req).1.value
  }

  /** The step changed a derivation whose own old row kept the upstream source's page from showing all of its rows. */
  ghost predicate Misled(s: State, limits: Limits, step: Step) {
    Activates(s, limits, step) &&
    var row := ActivatedRow(s, limits, step);
    Overlooks(SearchFor(s, limits, step.task, Some(row.id)), row.UpstreamEnd())
  }

  /** One of the rows it did not show leads from the upstream source back to the derived one. */
  ghost predicate ClosesHidden(s: State, limits: Limits, step: Step) {
    Activates(s, limits, step) &&
    var row := ActivatedRow(s, limits, step);
    HiddenPath(SearchFor(s, limits, step.task, Some(row.id)), row.DerivedEnd(), row.UpstreamEnd())
  }

  /** No step of the run is misled. Creations, retractions, repeats and refusals never are. */
  ghost predicate SeeingRun(s: State, limits: Limits, steps: seq<Step>)
    decreases |steps|
  {
    steps == [] || (!Misled(s, limits, steps[0]) && SeeingRun(After(s, limits, steps[0]), limits, steps[1..]))
  }

  /** Being misled takes a change of a derivation that is active before and after, at an upstream source with more rows than
      one query returns. */
  lemma {:induction false} MisledIsCrowdedFlip(s: State, limits: Limits, step: Step)
    requires Coherent(s) && Misled(s, limits, step)
    ensures var row := ActivatedRow(s, limits, step);
      && row.id in s.rows && s.rows[row.id].ActiveDerived(step.task)
      && |DerivedTouching(s.rows, step.task, row.UpstreamEnd())| > limits.examined + 1
  {
    var row := ActivatedRow(s, limits, step);
    assert row.id in SearchFor(s, limits, step.task, Some(row.id)).Fetched(row.UpstreamEnd());
  }

  /** What an accepted request does to the derivations of its task: an edge with a hidden path back is the only danger. */
  lemma {:induction false} AcceptedKeepsAcyclic(
    s: State, limits: Limits, task: Id, call: Call, req: Request, row: Relationship, change: Change)
    requires Coherent(s) && NoCycles(s) && Accepted(s, limits, task, call, req, row, change)
    ensures NoCycles(Written(s, row, change)) <==>
      !(!req.Create? && row.ActiveDerived(task)
        && HiddenPath(SearchFor(s, limits, task, Some(row.id)), row.DerivedEnd(), row.UpstreamEnd()))
  {
    var q := SearchFor(s, limits, task, if req.Create? then None else Some(row.id));
    assert AcyclicTask(s.rows, task);
    WritingKeepsAcyclic(q, row.id, row);
    if row.ActiveDerived(task) {
      NothingHidden(q, row.DerivedEnd(), row.UpstreamEnd());
    }
    var rows := s.rows[row.id := row];
    forall other | other != task
      ensures AcyclicTask(rows, other)
    {
      OtherTaskUntouched(s, row, other);
    }
    assert NoCycles(Written(s, row, change)) <==> AcyclicTask(rows, task);
  }

  lemma {:induction false} OtherTaskUntouched(s: State, row: Relationship, other: Id)
    requires NoCycles(s) && row.task != other
    ensures AcyclicTask(s.rows[row.id := row], other)
  {
    var rows := s.rows[row.id := row];
    assert DerivedEdges(rows, other) <= DerivedEdges(s.rows, other);
    assert AcyclicTask(s.rows, other);
    AcyclicSubset(DerivedEdges(rows, other), DerivedEdges(s.rows, other));
  }

  /** Exactly when a step leaves the derivations of every task acyclic. */
  lemma {:induction false} StepKeepsAcyclicExactly(s: State, limits: Limits, step: Step)
    requires Coherent(s) && NoCycles(s)
    ensures NoCycles(After(s, limits, step)) <==> !ClosesHidden(s, limits, step)
  {
    var t := After(s, limits, step);
    if step.Serve? && t != s {
      AcceptedWrites(s, limits, step.task, step.call, step.req);
      AcceptedKeepsAcyclic(s, limits, step.task, step.call, step.req,
        Handle(s, limits, step.task, step.call, step.req).1.value, t.changes[|s.changes|]);
    } else {
      assert t.rows == s.rows;
    }
  }

  lemma {:induction false} AcceptedHiddenOverlooks(
    s: State, limits: Limits, task: Id, call: Call, req: Request, row: Relationship, change: Change)
    requires Accepted(s, limits, task, call, req, row, change) && !req.Create? && row.ActiveDerived(task)
    ensures var q := SearchFor(s, limits, task, Some(row.id));
      HiddenPath(q, row.DerivedEnd(), row.UpstreamEnd()) ==> Overlooks(q, row.UpstreamEnd())
  {
    NothingHidden(SearchFor(s, limits, task, Some(row.id)), row.DerivedEnd(), row.UpstreamEnd());
  }

  lemma {:induction false} HiddenIsMisled(s: State, limits: Limits, step: Step)
    requires Coherent(s) && ClosesHidden(s, limits, step)
    ensures Misled(s, limits, step)
  {
    AcceptedWrites(s, limits, step.task, step.call, step.req);
    AcceptedHiddenOverlooks(s, limits, step.task, step.call, step.req, ActivatedRow(s, limits, step),
      After(s, limits, step).changes[|s.changes|]);
  }

  lemma {:induction false} StepKeepsAcyclic(s: State, limits: Limits, step: Step)
    requires Coherent(s) && NoCycles(s) && !Misled(s, limits, step)
    ensures NoCycles(After(s, limits, step))
  {
    StepKeepsAcyclicExactly(s, limits, step);
    if ClosesHidden(s, limits, step) {
      HiddenIsMisled(s, limits, step);
    }
  }

  /** The declared derivations of every task stay acyclic over every run in which no step is misled. */
  lemma {:induction false} RunKeepsAcyclic(s: State, limits: Limits, steps: seq<Step>)
    requires Coherent(s) && NoCycles(s) && SeeingRun(s, limits, steps)
    ensures NoCycles(Run(s, limits, steps))
    decreases |steps|
  {
    if steps != [] {
      StepKeepsCoherent(s, limits, steps[0]);
      StepKeepsAcyclic(s, limits, steps[0]);
      RunKeepsAcyclic(After(s, limits, steps[0]), limits, steps[1..]);
    }
  }

  /** No step of the run closes a cycle through a hidden row. */
  ghost predicate NothingHiddenCloses(s: State, limits: Limits, steps: seq<Step>)
    decreases |steps|
  {
    steps == [] || (!ClosesHidden(s, limits, steps[0]) && NothingHiddenCloses(After(s, limits, steps[0]), limits, steps[1..]))
  }

  ghost predicate AlwaysAcyclic(s: State, limits: Limits, steps: seq<Step>)
    decreases |steps|
  {
    NoCycles(s) && (steps == [] || AlwaysAcyclic(After(s, limits, steps[0]), limits, steps[1..]))
  }

  /** Exactly when the derivations stay acyclic all along a run. */
  lemma {:induction false} RunStaysAcyclicExactly(s: State, limits: Limits, steps: seq<Step>)
    requires Coherent(s) && NoCycles(s)
    ensures AlwaysAcyclic(s, limits, steps) <==> NothingHiddenCloses(s, limits, steps)
    decreases |steps|
  {
    if steps != [] {
      StepKeepsCoherent(s, limits, steps[0]);
      StepKeepsAcyclicExactly(s, limits, steps[0]);
      if NoCycles(After(s, limits, steps[0])) {
        RunStaysAcyclicExactly(After(s, limits, steps[0]), limits, steps[1..]);
      }
    }
  }

  lemma {:induction false} FindOperationStable(changes: seq<Change>, more: seq<Change>, operationId: Id)
    requires FindOperation(changes, operationId).Some?
    ensures FindOperation(changes + more, operationId) == FindOperation(changes, operationId)
  {
    if changes[0].operationId != operationId {
      FindOperationStable(changes[1..], more, operationId);
      assert (changes + more)[1..] == changes[1..] + more;
    }
  }

  lemma {:induction false} FindOperationLast(changes: seq<Change>, last: Change)
    requires FindOperation(changes, last.operationId) == None
    ensures FindOperation(changes + [last], last.operationId) == Some(last)
  {
    if changes != [] {
      FindOperationLast(changes[1..], last);
      assert (changes + [last])[1..] == changes[1..] + [last];
    }
  }

  /** The journal is append-only and tasks are never removed. */
  lemma {:induction false} RunExtends(s: State, limits: Limits, steps: seq<Step>)
    requires Coherent(s)
    ensures s.changes <= Run(s, limits, steps).changes && s.tasks <= Run(s, limits, steps).tasks
    decreases |steps|
  {
    if steps != [] {
      var t := After(s, limits, steps[0]);
      StepKeepsCoherent(s, limits, steps[0]);
      if steps[0].Serve? && t != s {
        AcceptedWrites(s, limits, steps[0].task, steps[0].call, steps[0].req);
      }
      RunExtends(t, limits, steps[1..]);
    }
  }

  lemma {:induction false} FoundAfterRun(s: State, limits: Limits, row: Relationship, change: Change, steps: seq<Step>)
    requires Coherent(s) && Extends(s, row, change) && FindOperation(s.changes, change.operationId) == None
    ensures var u := Run(Written(s, row, change), limits, steps);
      FindOperation(u.changes, change.operationId) == Some(change) && row.task in u.tasks
  {
    var t := Written(s, row, change);
    var u := Run(t, limits, steps);
    WrittenIsCoherent(s, row, change);
    FindOperationLast(s.changes, change);
    RunExtends(t, limits, steps);
    assert u.changes == t.changes + u.changes[|t.changes|..];
    FindOperationStable(t.changes, u.changes[|t.changes|..], change.operationId);
  }

  /** Whoever submits it, a used operation identity never changes state. */
  lemma {:induction false} UsedOperationIsInert(s: State, limits: Limits, task: Id, call: Call, req: Request)
    requires FindOperation(s.changes, req.operationId).Some?
    ensures Handle(s, limits, task, call, req).0 == s
  {
    match req
    case Create(_, _, _, _, _, _, _) =>
    case Mutate(_, _, _, _, _, _, _) =>
    case Reverse(_, _, _, _, _) =>
  }

  /** Once a change is recorded, no later request with its operation identity changes anything, whoever submits it,
      whatever it asks for and whatever happened meanwhile. */
  lemma {:induction false} UsedOperationStaysInert(
    s: State, limits: Limits, steps: seq<Step>, change: Change, task: Id, call: Call, req: Request)
    requires Coherent(s) && change in s.changes && req.operationId == change.operationId
    ensures var u := Run(s, limits, steps); Handle(u, limits, task, call, req).0 == u
  {
    var u := Run(s, limits, steps);
    RunExtends(s, limits, steps);
    assert change in u.changes;
    UsedOperationIsInert(u, limits, task, call, req);
  }

  /** What the service compares of two requests under one operation identity: the canonical creation, or everything but the
      direction and lifecycle of a mutation, which are read back from the recorded result. */
  ghost predicate SameRequest(a: Request, b: Request) {
    if a.Create? && b.Create? then
      && Normalize(a).Ok? && Normalize(b).Ok? && a.kind == b.kind && a.reason == b.reason
      && Normalize(a).value.low == Normalize(b).value.low && Normalize(a).value.high == Normalize(b).value.high
      && Normalize(a).value.direction == Normalize(b).value.direction
    else if a.Mutate? && b.Mutate? then
      && a.relationship == b.relationship && a.expectedRevision == b.expectedRevision && a.retract == b.retract
      && a.reason == b.reason
    else if a.Reverse? && b.Reverse? then
      && a.relationship == b.relationship && a.change == b.change && a.expectedRevision == b.expectedRevision
      && a.reason == b.reason
    else false
  }

  /** The answer to a request whose operation identity is recorded. */
  lemma {:induction false} RecordedAnswer(u: State, limits: Limits, task: Id, call: Call, req: Request, change: Change)
    requires FindOperation(u.changes, req.operationId) == Some(change)
    ensures var (t, r) := Handle(u, limits, task, call, req);
      && t == u
      && (r.Ok? <==>
            && task in u.tasks && call.authority.Some? && change.task == task && change.actor == call.actor
            && (req.Create? ==> Normalize(req).Ok?)
            && change.command == Some(match req
                 case Create(_, _, _, _, _, _, _) => CreateCommandOf(call.actor, req, Normalize(req).value)
                 case Mutate(_, _, _, _, _, _, _) => CommandFor(call.actor, req, change.resulting)
                 case Reverse(_, _, _, _, _) => CommandFor(call.actor, req, change.resulting)))
      && (r.Ok? ==> r.value == change.resulting)
  {
    match req
    case Create(_, _, _, _, _, _, _) =>
    case Mutate(_, _, _, _, _, _, _) =>
    case Reverse(_, _, _, _, _) =>
  }

  lemma {:induction false} AnsweredIfSame(
    s: State, limits: Limits, task: Id, call: Call, req: Request, row: Relationship, change: Change,
    u: State, task2: Id, again: Call, other: Request)
    requires Accepted(s, limits, task, call, req, row, change) && other.operationId == req.operationId
    requires FindOperation(u.changes, other.operationId) == Some(change) && task in u.tasks
    ensures Handle(u, limits, task2, again, other).1.Ok? <==>
      task2 == task && again.authority.Some? && again.actor == call.actor && SameRequest(req, other)
    ensures Handle(u, limits, task2, again, other).1.Ok? ==> Handle(u, limits, task2, again, other) == (u, Ok(row))
  {
    RecordedAnswer(u, limits, task2, again, other, change);
  }

  /** When a used operation identity is answered, at any later time: exactly for the same task, actor and request, and then
      with the first result. Every other reuse is refused. */
  lemma {:induction false} ReuseAnsweredExactly(
    s: State, limits: Limits, task: Id, call: Call, req: Request, steps: seq<Step>, task2: Id, again: Call, other: Request)
    requires Coherent(s) && Handle(s, limits, task, call, req).0 != s && other.operationId == req.operationId
    ensures var (t, r) := Handle(s, limits, task, call, req); var u := Run(t, limits, steps);
      && (Handle(u, limits, task2, again, other).1.Ok? <==>
            task2 == task && again.authority.Some? && again.actor == call.actor && SameRequest(req, other))
      && (Handle(u, limits, task2, again, other).1.Ok? ==> Handle(u, limits, task2, again, other) == (u, r))
      && Handle(u, limits, task2, again, other).0 == u
  {
    var (t, r) := Handle(s, limits, task, call, req);
    AcceptedWrites(s, limits, task, call, req);
    var change := t.changes[|s.changes|];
    FoundAfterRun(s, limits, r.value, change, steps);
    AnsweredIfSame(s, limits, task, call, req, r.value, change, Run(t, limits, steps), task2, again, other);
    UsedOperationIsInert(Run(t, limits, steps), limits, task2, again, other);
  }

  lemma {:induction false} AcceptedIsItself(s: State, limits: Limits, task: Id, call: Call, req: Request)
    requires Coherent(s) && Handle(s, limits, task, call, req).0 != s
    ensures SameRequest(req, req)
  {
    AcceptedWrites(s, limits, task, call, req);
  }

  /**
   An exact repeat of an accepted request by the same actor returns the result of the first acceptance and
   changes nothing, whatever happened in between.
   */
  lemma {:induction false} ExactRepeat(s: State, limits: Limits, task: Id, call: Call, req: Request, steps: seq<Step>, again: Call)
    requires Coherent(s) && Handle(s, limits, task, call, req).0 != s
    requires again.actor == call.actor && again.authority.Some?
    ensures var (t, r) := Handle(s, limits, task, call, req); var u := Run(t, limits, steps);
      Handle(u, limits, task, again, req) == (u, r)
  {
    AcceptedIsItself(s, limits, task, call, req);
    ReuseAnsweredExactly(s, limits, task, call, req, steps, task, again, req);
  }

  /** After any run the repeat of an accepted mutation is answered with its first result, even when it asks for another
      direction or lifecycle. */
  lemma {:induction false} MutationRepeatAnswered(
    s: State, limits: Limits, task: Id, call: Call, req: Request, steps: seq<Step>, again: Call,
    lifecycle: Option<Lifecycle>, direction: Option<Direction>)
    requires Coherent(s) && req.Mutate? && Handle(s, limits, task, call, req).0 != s
    requires again.actor == call.actor && again.authority.Some?
    ensures var (t, r) := Handle(s, limits, task, call, req); var u := Run(t, limits, steps);
      Handle(u, limits, task, again, req.(lifecycle := lifecycle, direction := direction)) == (u, r)
  {
    ReuseAnsweredExactly(s, limits, task, call, req, steps, task, again, req.(lifecycle := lifecycle, direction := direction));
  }

  lemma {:induction false} SameIdSameChange(changes: seq<Change>, a: Change, b: Change)
    requires IdentitiesUnique(changes) && a in changes && b in changes && a.id == b.id
    ensures a == b
  {
    var i :| 0 <= i < |changes| && changes[i] == a;
    var j :| 0 <= j < |changes| && changes[j] == b;
    assert !(i < j) && !(j < i);
  }

  lemma {:induction false} LastOfJournal(s: State, id: Id) returns (latest: Change)
    requires Coherent(s) && id in s.rows
    ensures var records := Journal(s.changes, s.rows[id].task, id);
      records != [] && latest == records[|records| - 1] && latest.previous == Before(records, |records| - 1)
    ensures latest in s.changes && latest.id == s.rows[id].latestChange && latest.resulting == s.rows[id]
    ensures latest.relationship == id && latest.task == s.rows[id].task && latest.revision == s.rows[id].revision
  {
    var records := Journal(s.changes, s.rows[id].task, id);
    RevisionCountsChanges(s, id);
    assert RowCoherent(s, id);
    latest := records[|records| - 1];
    assert ContinuesAt(s.rows[id], records, |records| - 1);
    JournalMembers(s.changes, s.rows[id].task, id);
    assert latest in records;
  }

  lemma {:induction false} RevisionIdentifies(s: State, change: Change, latest: Change)
    requires Coherent(s) && change in s.changes && change.relationship in s.rows
    requires latest == LastOf(s, change.relationship) && change.revision == s.rows[change.relationship].revision
    ensures change == latest
  {
    var id := change.relationship;
    var records := Journal(s.changes, s.rows[id].task, id);
    RevisionCountsChanges(s, id);
    assert RowCoherent(s, id) && ChangeCoherent(s, change);
    JournalMembers(s.changes, s.rows[id].task, id);
    assert change in records;
    var i :| 0 <= i < |records| && records[i] == change;
    assert ContinuesAt(s.rows[id], records, i);
  }

  ghost function LastOf(s: State, id: Id): Change
    requires Coherent(s) && id in s.rows
  {
    RevisionCountsChanges(s, id);
    var records := Journal(s.changes, s.rows[id].task, id);
    records[|records| - 1]
  }

  /** The latest change of a row is the one its latest-change identity names. */
  lemma {:induction false} LatestChange(s: State, task: Id, id: Id, change: Id) returns (latest: Change)
    requires Coherent(s) && id in s.rows && s.rows[id].task == task
    ensures latest == LastOf(s, id) && latest in s.changes && latest.id == s.rows[id].latestChange
    ensures var found := FindChange(s.changes, task, id, change);
      found.Some? && found.value.revision == s.rows[id].revision <==> change == s.rows[id].latestChange
    ensures change == s.rows[id].latestChange ==> FindChange(s.changes, task, id, change) == Some(latest)
  {
    latest := LastOfJournal(s, id);
    var found := FindChange(s.changes, task, id, change);
    if found.Some? {
      if found.value.revision == s.rows[id].revision {
        RevisionIdentifies(s, found.value, latest);
      }
      if change == latest.id {
        SameIdSameChange(s.changes, found.value, latest);
      }
    }
  }

  /** Lifecycle and direction before the latest change of a row; retracted before its creation. */
  ghost function Earlier(s: State, id: Id): (Lifecycle, Direction)
    requires Coherent(s) && id in s.rows
  {
    RevisionCountsChanges(s, id);
    var records := Journal(s.changes, s.rows[id].task, id);
    match Before(records, |records| - 1)
    case None => (Retracted, s.rows[id].direction)
    case Some(before) => (before.lifecycle, before.direction)
  }

  lemma {:induction false} NamesLatest(s: State, task: Id, id: Id, change: Id, latest: Change)
    requires Coherent(s) && id in s.rows && s.rows[id].task == task && latest in s.changes && latest.id == s.rows[id].latestChange
    ensures var found := FindChange(s.changes, task, id, change);
      && (found.Some? && found.value.revision == s.rows[id].revision <==> change == s.rows[id].latestChange)
      && (change == s.rows[id].latestChange ==> found == Some(latest))
    ensures s.rows[id].id == id && Restored(s.rows[id], latest) == Earlier(s, id)
  {
    var last := LatestChange(s, task, id, change);
    var again := LastOfJournal(s, id);
    SameIdSameChange(s.changes, last, latest);
    assert RowCoherent(s, id);
  }

  /**
   A reversal is accepted exactly when it names the latest change of the row at its current revision, that
   change is not itself a reversal and is at most 48 hours old, and the earlier state may be active again.
   It then brings back the earlier lifecycle and direction under a new revision.
   */
  lemma {:induction false} ReverseRestores(s: State, limits: Limits, task: Id, call: Call, req: Request, latest: Change)
    requires Coherent(s) && req.Reverse? && FindOperation(s.changes, req.operationId) == None
    requires task in s.tasks && call.authority.Some? && !ChangeIdUsed(s.changes, call.newChange)
    requires req.relationship in s.rows && s.rows[req.relationship].task == task
    requires latest in s.changes && latest.id == s.rows[req.relationship].latestChange
    ensures var current := s.rows[req.relationship]; var (lifecycle, direction) := Earlier(s, req.relationship);
      var row := NextRow(current, direction, lifecycle, call); var (t, r) := Handle(s, limits, task, call, req);
      if && req.change == current.latestChange && req.expectedRevision == current.revision
         && latest.operation != REVERSE && call.now <= latest.createdAt + 48 * 3600
         && MayActivate(s, limits, row)
      then r == Ok(row) && t.rows == s.rows[req.relationship := row] && t != s
      else r.Err? && t == s
  {
    NamesLatest(s, task, req.relationship, req.change, latest);
  }

  /**
   Undo: reversing the change just accepted brings back the lifecycle and direction from before it (retracted
   for a creation), leaves every other row alone, and still advances the revision.
   */
  lemma {:induction false} ReverseUndoes(
    s: State, limits: Limits, task: Id, call: Call, req: Request, row: Relationship, change: Change,
    undo: Call, undoReq: Request)
    requires Coherent(s) && Accepted(s, limits, task, call, req, row, change)
    requires undoReq.Reverse? && undoReq.relationship == row.id
    requires var t := Written(s, row, change); Handle(t, limits, task, undo, undoReq).0 != t
    ensures var (lifecycle, direction) :=
        if row.id in s.rows then (s.rows[row.id].lifecycle, s.rows[row.id].direction) else (Retracted, row.direction);
      Handle(Written(s, row, change), limits, task, undo, undoReq).0.rows ==
        s.rows[row.id := NextRow(row, direction, lifecycle, undo)]
  {
    WrittenIsCoherent(s, row, change);
    EarlierThanWrite(s, row, change);
    AcceptedReversal(Written(s, row, change), limits, task, undo, undoReq);
  }

  lemma {:induction false} AcceptedReversal(s: State, limits: Limits, task: Id, call: Call, req: Request)
    requires Coherent(s) && req.Reverse? && Handle(s, limits, task, call, req).0 != s
    ensures req.relationship in s.rows && var (lifecycle, direction) := Earlier(s, req.relationship);
      Handle(s, limits, task, call, req).0.rows ==
        s.rows[req.relationship := NextRow(s.rows[req.relationship], direction, lifecycle, call)]
  {
    UndoPossible(s, limits, task, call, req);
    var latest := LastOfJournal(s, req.relationship);
    ReverseRestores(s, limits, task, call, req, latest);
  }

  lemma {:induction false} EarlierThanWrite(s: State, row: Relationship, change: Change)
    requires Coherent(s) && Extends(s, row, change) && Coherent(Written(s, row, change))
    ensures Earlier(Written(s, row, change), row.id) ==
      if row.id in s.rows then (s.rows[row.id].lifecycle, s.rows[row.id].direction) else (Retracted, row.direction)
  {
    JournalGrows(s.changes, change, row.task, row.id);
    if row.id in s.rows {
      RevisionCountsChanges(s, row.id);
    } else {
      NoJournalYet(s, row.task, row.id);
    }
  }

  lemma {:induction false} UndoPossible(s: State, limits: Limits, task: Id, call: Call, req: Request)
    requires req.Reverse? && Handle(s, limits, task, call, req).0 != s
    ensures task in s.tasks && call.authority.Some? && !ChangeIdUsed(s.changes, call.newChange)
    ensures FindOperation(s.changes, req.operationId) == None
    ensures req.relationship in s.rows && s.rows[req.relationship].task == task
  {
  }

  lemma {:induction false} EmptyHasNoCycles()
    ensures NoCycles(EMPTY)
  {
    forall task
      ensures AcyclicTask(EMPTY.rows, task)
    {
      SuccessorsFirstAcyclic(DerivedEdges(EMPTY.rows, task), []);
    }
  }

  /** After any such run from coherent acyclic tables, no projection of any task reports invalid data. */
  lemma {:induction false} ProjectionsStayValid(
    s0: State, limits: Limits, steps: seq<Step>, task: Id, roots: set<Id>, p: Projected)
    requires Coherent(s0) && NoCycles(s0) && SeeingRun(s0, limits, steps)
    requires Describes(View(Run(s0, limits, steps).rows, task, roots, limits), p)
    ensures !p.invalid && (p.complete <==> p.overflow == None)
  {
    RunKeepsAcyclic(s0, limits, steps);
    AcyclicIsValid(View(Run(s0, limits, steps).rows, task, roots, limits), p);
  }
}
