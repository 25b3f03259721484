/** Theorems over every run of memory requests, interleaved with new tasks, sources and cycle references. */
module MemoryRuns {
  import opened Basics
  import opened StableSort
  import opened MemoryModel
  import opened MemoryLinks
  import opened MemoryJournal
  import opened MemoryInvariant
  import opened Memory

  datatype Step =
    | Stage(authority: Authority, proposal: Proposal)
    | Reverse(authority: Authority, original: Id, reversal: Reversal)
    | SetTask(id: Id, task: Task)
    | AddSources(more: map<Id, Id>)
    | SetCycleClaims(cited: map<Id, set<Id>>)

  const EMPTY := State(map[], map[], map[], map[], map[], [])

  ghost function After(s: State, step: Step): State {
    match step
    case Stage(authority, p) => StageSpec(s, authority, p).0
    case Reverse(authority, original, reversal) => ReverseSpec(s, authority, original, reversal).0
    case SetTask(id, task) => s.(tasks := s.tasks[id := task])
    case AddSources(more) => s.(sources := more + s.sources)
    case SetCycleClaims(cited) => s.(cycleClaims := cited)
  }

  ghost function Run(s: State, steps: seq<Step>): State
    decreases |steps|
  {
    if steps == [] then s else Run(After(s, steps[0]), steps[1..])
  }

  lemma {:induction false} EnvironmentKeepsGood(s: State, step: Step)
    requires Good(s) && !step.Stage? && !step.Reverse?
    ensures Good(After(s, step))
  {
    var t := After(s, step);
    forall target | target in t.records
      ensures RecordFits(t, target)
    {
      assert RecordFits(s, target);
    }
    forall key | key in t.links
      ensures LinkFits(t, key)
    {
      assert LinkFits(s, key);
    }
  }

  lemma {:induction false} StepKeepsGood(s: State, step: Step)
    requires Good(s)
    ensures Good(After(s, step))
  {
    match step
    case Stage(authority, p) => StageKeepsGood(s, authority, p);
    case Reverse(authority, original, reversal) => ReverseKeepsGood(s, authority, original, reversal);
    case _ => EnvironmentKeepsGood(s, step);
  }

  /** Tables and journal agree, and references hold, in every state a run reaches. */
  lemma {:induction false} RunKeepsGood(s: State, steps: seq<Step>)
    requires Good(s)
    ensures Good(Run(s, steps))
    decreases |steps|
  {
    if steps != [] {
      StepKeepsGood(s, steps[0]);
      RunKeepsGood(After(s, steps[0]), steps[1..]);
    }
  }

  /** Whatever was staged, archived, deleted, restored or reversed: claims cite sources and assessments active claims
      of their own task, and a hypothesis has one assessment. */
  lemma {:induction false} ReferentialIntegrity(s0: State, steps: seq<Step>, target: Target, link: Link)
    requires Good(s0)
    requires var s := Run(s0, steps); target in s.records && link in Read(s, target).data.links
    ensures var s := Run(s0, steps); var task := s.records[target].task;
      if target.kind == Claim then link.other in s.sources && s.sources[link.other] == task
      else
        var claim := Target(Claim, link.other);
        claim in s.records && s.records[claim].task == task && s.records[claim].lifecycle == Active
    ensures var s := Run(s0, steps); target.kind == Assessment ==>
      forall other | other in s.records && other.kind == Assessment && other != target ::
        s.records[other].task != s.records[target].task || s.records[other].hypothesis != s.records[target].hypothesis
  {
    RunKeepsGood(s0, steps);
    var s := Run(s0, steps);
    ReadIsCanonical(s.links, target);
    assert LinkFits(s, LinkKey(target, link.other));
  }

  /** The invariant holds of empty tables; tables with legacy rows at version one satisfy it as well. */
  lemma {:induction false} EmptyIsGood()
    ensures Good(EMPTY)
  {
  }

  // ----- what one write changes

  /** What a step that commits did: one document of one target, and one change. */
  datatype Commit = Commit(task: Id, target: Target, after: Document, change: Change)

  ghost predicate Commits(s: State, t: State, w: Commit) {
    Admitted(s, w.task, w.target, w.after, w.change) && t == Written(s, w.task, w.target, w.after, w.change)
  }

  lemma {:induction false} StageCommits(s: State, authority: Authority, p: Proposal) returns (w: Commit)
    requires Good(s) && StageSpec(s, authority, p).0 != s
    ensures Commits(s, StageSpec(s, authority, p).0, w) && StageSpec(s, authority, p).1 == Ok(w.change)
    ensures w.target == p.target && w.change.id == p.changeId && w.change.request == Propose(p)
    ensures w.change.task == w.task == authority.task && w.change.actor == authority.actor != Model
    ensures authority.task in s.tasks && Prepare(s, authority, p).Ok? && w.after == Prepare(s, authority, p).value.after
  {
    StageAdmits(s, authority, p);
    var prepared := Prepare(s, authority, p).value;
    w := Commit(authority.task, p.target, prepared.after,
      ChangeOf(s, authority, p.changeId, p.target, p.operation, p.reason, prepared.before, prepared.after, Propose(p), None));
  }

  lemma {:induction false} ReverseCommits(s: State, authority: Authority, original: Id, reversal: Reversal) returns (w: Commit)
    requires Good(s) && ReverseSpec(s, authority, original, reversal).0 != s
    ensures var (t, r) := ReverseSpec(s, authority, original, reversal); Commits(s, t, w) && r == Ok(w.change)
    ensures var change := FindChange(s.journal, original).value;
      w.target == change.target && change.target in s.records && w.after == Undone(change, Read(s, change.target))
      && w.change.reverses == Some(original)
      && change.task == w.task == authority.task && change.task in s.tasks && change.reverses == None
  {
    var change := FindChange(s.journal, original).value;
    ReverseAdmits(s, authority, original, reversal, change);
    var before := Read(s, change.target);
    var after := Undone(change, before);
    w := Commit(authority.task, change.target, after,
      ChangeOf(s, authority, reversal.changeId, change.target, REVERSE, reversal.reason, Some(before), after,
        Undo(original, reversal), Some(original)));
  }

  lemma {:induction false} PreparedKeepsProvenance(s: State, authority: Authority, p: Proposal)
    requires authority.task in s.tasks && Prepare(s, authority, p).Ok? && p.target.kind == Claim && p.target in s.records
    ensures Provenance(Read(s, p.target).data) <= Provenance(Prepare(s, authority, p).value.after.data)
  {
  }

  /** A step leaves the memory tables alone or commits one write. */
  lemma {:induction false} StepCommits(s: State, step: Step) returns (w: Option<Commit>)
    requires Good(s)
    ensures var t := After(s, step);
      if w == None then t.records == s.records && t.links == s.links && t.journal == s.journal
      else Commits(s, t, w.value)
  {
    w := None;
    if step.Stage? && After(s, step) != s {
      var done := StageCommits(s, step.authority, step.proposal);
      w := Some(done);
    } else if step.Reverse? && After(s, step) != s {
      var done := ReverseCommits(s, step.authority, step.original, step.reversal);
      w := Some(done);
    }
  }

  /** The journal and the set of records only grow, and a record stays in its task. */
  ghost predicate Grows(s: State, t: State) {
    && s.journal <= t.journal && s.tasks.Keys <= t.tasks.Keys
    && forall target | target in s.records ::
      target in t.records && t.records[target].task == s.records[target].task && s.records[target].version <= t.records[target].version
  }

  lemma {:induction false} CommitGrows(s: State, t: State, w: Commit)
    requires Commits(s, t, w)
    ensures Grows(s, t)
  {
  }

  lemma {:induction false} StepGrows(s: State, step: Step)
    requires Good(s)
    ensures Grows(s, After(s, step))
  {
    var w := StepCommits(s, step);
    if w.Some? {
      CommitGrows(s, After(s, step), w.value);
    }
  }

  lemma {:induction false} RunGrows(s: State, steps: seq<Step>)
    requires Good(s)
    ensures Grows(s, Run(s, steps))
    decreases |steps|
  {
    if steps != [] {
      StepKeepsGood(s, steps[0]);
      StepGrows(s, steps[0]);
      RunGrows(After(s, steps[0]), steps[1..]);
    }
  }

  // ----- past versions

  /** The state of a target at a version is the current one or is in the journal. */
  ghost predicate Remembered(s: State, target: Target, version: nat, document: Document) {
    || (target in s.records && s.records[target].version == version && Read(s, target) == document)
    || (exists c | c in s.journal :: c.target == target && c.version == version && c.resulting == document)
    || (exists c | c in s.journal :: c.target == target && c.previousVersion == version && c.previous == Some(document))
  }

  lemma {:induction false} CommitRemembers(s: State, t: State, w: Commit, target: Target, version: nat, document: Document)
    requires Commits(s, t, w) && Remembered(s, target, version, document)
    ensures Remembered(t, target, version, document)
  {
    assert forall c | c in s.journal :: c in t.journal;
    if target in s.records && s.records[target].version == version && Read(s, target) == document {
      if target == w.target {
        assert w.change in t.journal;
      } else {
        OthersRead(s, w.task, w.target, w.after, w.change, target);
      }
    }
  }

  lemma {:induction false} StepRemembers(s: State, step: Step, target: Target, version: nat, document: Document)
    requires Good(s) && Remembered(s, target, version, document)
    ensures Remembered(After(s, step), target, version, document)
  {
    var w := StepCommits(s, step);
    if w.Some? {
      CommitRemembers(s, After(s, step), w.value, target, version, document);
    }
  }

  lemma {:induction false} RunRemembers(s: State, steps: seq<Step>, target: Target, version: nat, document: Document)
    requires Good(s) && Remembered(s, target, version, document)
    ensures Remembered(Run(s, steps), target, version, document)
    decreases |steps|
  {
    if steps != [] {
      StepRemembers(s, steps[0], target, version, document);
      StepKeepsGood(s, steps[0]);
      RunRemembers(After(s, steps[0]), steps[1..], target, version, document);
    }
  }

  /** A sound history answers with what is remembered. */
  lemma {:induction false} HistoryAnswers(s: State, task: Id, target: Target, version: nat, document: Document)
    requires LatestStored(s) && Remembered(s, target, version, document) && version >= 1
    requires target in s.records && s.records[target].task == task
    requires Entries(s.journal, task, target.id) != [] && !TwoKinds(s.journal, task, target.id)
    requires Entries(s.journal, task, target.id)[0].target == target
    ensures StateIn(Entries(s.journal, task, target.id), version) == Ok(document)
  {
    var changes := Entries(s.journal, task, target.id);
    SingleKindReads(s, task, target.id);
    SoundAnswers(target, changes, version);
    EntriesMembers(s.journal, task, target.id);
    assert changes[|changes| - 1] in changes;
    if c: Change :| c in s.journal && c.target == target && c.version == version && c.resulting == document {
      var i :| 0 <= i < |changes| && changes[i] == c;
    } else if c: Change :| c in s.journal && c.target == target && c.previousVersion == version && c.previous == Some(document) {
      var i :| 0 <= i < |changes| && changes[i] == c;
    }
  }

  /** Whatever happens later, asking for the present version returns the present state, as long as the identity is
      not used for a record of the other kind. Holds for legacy rows too, once they have been changed. */
  lemma {:induction false} PastVersionsStay(s: State, steps: seq<Step>, target: Target)
    requires Good(s) && target in s.records
    requires var t := Run(s, steps);
      Latest(t.journal, target).Some? && !TwoKinds(t.journal, s.records[target].task, target.id)
    ensures var t := Run(s, steps); var changes := Entries(t.journal, s.records[target].task, target.id);
      && SoundHistory(target, changes) && changes != []
      && StateIn(changes, s.records[target].version) == Ok(Read(s, target))
      && forall version | version >= 1 :: StateIn(changes, version).Ok? <==> version <= Version(t, target)
  {
    var t := Run(s, steps);
    var task := s.records[target].task;
    RunKeepsGood(s, steps);
    RunGrows(s, steps);
    assert RecordFits(s, target);
    RunRemembers(s, steps, target, s.records[target].version, Read(s, target));
    GoodStoresLatest(t);
    assert Stored(t, Latest(t.journal, target).value);
    JournaledFirst(t.journal, Latest(t.journal, target).value);
    HistoryAnswers(t, task, target, s.records[target].version, Read(s, target));
    SingleKindReads(t, task, target.id);
    AnswersUpTo(t, task, target);
  }

  lemma {:induction false} JournaledFirst(journal: seq<Change>, c: Change)
    requires c in journal && !TwoKinds(journal, c.task, c.target.id)
    ensures var changes := Entries(journal, c.task, c.target.id); changes != [] && changes[0].target == c.target
  {
    var changes := Entries(journal, c.task, c.target.id);
    EntriesMembers(journal, c.task, c.target.id);
    assert c in changes;
    assert changes[0] in changes;
    assert changes[0].target.kind == c.target.kind;
  }

  lemma {:induction false} AnswersUpTo(t: State, task: Id, target: Target)
    requires var changes := Entries(t.journal, task, target.id);
      changes != [] && SoundHistory(target, changes) && Stored(t, changes[|changes| - 1])
      && changes[|changes| - 1].target == target
    ensures forall version | version >= 1 ::
      StateIn(Entries(t.journal, task, target.id), version).Ok? <==> version <= t.records[target].version
  {
    var changes := Entries(t.journal, task, target.id);
    forall version | version >= 1
      ensures StateIn(changes, version).Ok? <==> version <= t.records[target].version
    {
      SoundAnswers(target, changes, version);
    }
  }

  // ----- reversal

  /** The write is all that changed. */
  ghost predicate OnlyWrote(s: State, t: State, target: Target, after: Document) {
    && Before(t, target) == Some(after) && Version(t, target) == Version(s, target) + 1
    && forall other | other != target :: Before(t, other) == Before(s, other) && Version(t, other) == Version(s, other)
  }

  lemma {:induction false} CommitEffect(s: State, t: State, w: Commit)
    requires Commits(s, t, w)
    ensures OnlyWrote(s, t, w.target, w.after)
  {
    WrittenReads(s, w.task, w.target, w.after, w.change);
    forall other | other != w.target
      ensures Before(t, other) == Before(s, other) && Version(t, other) == Version(s, other)
    {
      if other in s.records {
        OthersRead(s, w.task, w.target, w.after, w.change, other);
      }
    }
  }

  /** A payload as stored: its links ordered by their other end. */
  ghost predicate StoresPayload(payload: Data, stored: Data) {
    && stored == payload.(links := stored.links) && Canonical(stored.links)
    && multiset(stored.links) == multiset(payload.links)
  }

  function LifecycleAfter(operation: Operation): Lifecycle {
    match operation
    case ARCHIVE => Archived
    case LOGICAL_DELETE => LogicallyDeleted
    case _ => Active
  }

  lemma {:induction false} SortedStays(links: seq<Link>)
    requires Canonical(links)
    ensures SortLinks(links) == links
  {
    var key := (link: Link) => link.other.number;
    assert KeysDiffer(links, key);
    SortIsStable(links, key);
    SameElements(SortBy(links, key), links);
    DistinctStrict(links, key);
    StrictUnique(SortBy(links, key), links, key);
  }

  /** An accepted proposal, made for the present version, stores the payload of a creation or update, and otherwise only
      moves the lifecycle. No other record changes. */
  lemma {:induction false} StageEffect(s: State, authority: Authority, p: Proposal)
    requires Good(s) && StageSpec(s, authority, p).0 != s
    ensures Version(s, p.target) == (if p.operation == CREATE then 0 else p.expectedVersion)
    ensures (p.operation == CREATE ==> p.expectedVersion == 0) ==> Version(s, p.target) == p.expectedVersion
    ensures Before(StageSpec(s, authority, p).0, p.target).Some?
    ensures var t := StageSpec(s, authority, p).0; var after := Before(t, p.target).value;
      && OnlyWrote(s, t, p.target, after) && after.lifecycle == LifecycleAfter(p.operation)
      && (p.operation == CREATE || p.operation == UPDATE ==> p.payload.Some? && StoresPayload(p.payload.value, after.data))
      && (p.operation != CREATE && p.operation != UPDATE ==>
            Before(s, p.target).Some? && after == Before(s, p.target).value.(lifecycle := after.lifecycle))
  {
    var w := StageCommits(s, authority, p);
    CommitEffect(s, StageSpec(s, authority, p).0, w);
    PreparedDocument(s, authority, p);
  }

  lemma {:induction false} PreparedDocument(s: State, authority: Authority, p: Proposal)
    requires authority.task in s.tasks && Prepare(s, authority, p).Ok?
    ensures Version(s, p.target) == (if p.operation == CREATE then 0 else p.expectedVersion)
    ensures var after := Prepare(s, authority, p).value.after;
      && after.lifecycle == LifecycleAfter(p.operation)
      && (p.operation == CREATE || p.operation == UPDATE ==> p.payload.Some? && StoresPayload(p.payload.value, after.data))
      && (p.operation != CREATE && p.operation != UPDATE ==>
            Before(s, p.target).Some? && after == Before(s, p.target).value.(lifecycle := after.lifecycle))
  {
    var before := Before(s, p.target);
    var raw := Proposed(before, p).value;
    var after := raw.(data := raw.data.(links := SortLinks(raw.data.links)));
    SortOrders(raw.data.links);
    ValidateAdmits(s, authority.task, p.target, before, after, false);
    if p.operation != CREATE && p.operation != UPDATE {
      ReadIsCanonical(s.links, p.target);
      SortedStays(raw.data.links);
    }
  }

  lemma {:induction false} ReverseChecks(s: State, authority: Authority, original: Id, reversal: Reversal)
    requires ReverseSpec(s, authority, original, reversal).0 != s
    ensures FindChange(s.journal, original).Some?
    ensures var change := FindChange(s.journal, original).value;
      change.target in s.records && s.records[change.target].version == change.version
  {
  }

  lemma {:induction false} ReversesLatest(s: State, authority: Authority, original: Id, reversal: Reversal)
    requires Good(s) && ReverseSpec(s, authority, original, reversal).0 != s
    ensures var change := FindChange(s.journal, original).value;
      Latest(s.journal, change.target) == Some(change) && Before(s, change.target) == Some(change.resulting)
  {
    ReverseChecks(s, authority, original, reversal);
    CurrentChange(s, FindChange(s.journal, original).value);
  }

  /** An accepted reversal undoes the latest change of its target and nothing else: the target reads as it did before
      that change (a creation becomes a logical deletion), at a new version. */
  lemma {:induction false} ReversalRestores(s: State, authority: Authority, original: Id, reversal: Reversal)
    requires Good(s) && ReverseSpec(s, authority, original, reversal).0 != s
    ensures var t := ReverseSpec(s, authority, original, reversal).0; var change := FindChange(s.journal, original).value;
      && Latest(s.journal, change.target) == Some(change) && Before(s, change.target) == Some(change.resulting)
      && OnlyWrote(s, t, change.target, Undone(change, change.resulting))
  {
    ReversesLatest(s, authority, original, reversal);
    var w := ReverseCommits(s, authority, original, reversal);
    CommitEffect(s, ReverseSpec(s, authority, original, reversal).0, w);
  }

  lemma {:induction false} ReversalOf(s: State, authority: Authority, change: Change, reversal: Reversal)
    requires Good(s) && change in s.journal && ReverseSpec(s, authority, change.id, reversal).0 != s
    ensures Before(s, change.target) == Some(change.resulting) && Version(s, change.target) == change.version
    ensures OnlyWrote(s, ReverseSpec(s, authority, change.id, reversal).0, change.target, Undone(change, change.resulting))
  {
    FoundById(s.journal, change);
    ReverseChecks(s, authority, change.id, reversal);
    ReversalRestores(s, authority, change.id, reversal);
  }

  /** Reversing a staged change right away or much later, when it is accepted, brings back exactly what the target
      read as before the change was staged. */
  lemma {:induction false} ReversalUndoesStage(
    s: State, authority: Authority, p: Proposal, steps: seq<Step>, operator: Authority, reversal: Reversal)
    requires Good(s) && StageSpec(s, authority, p).0 != s
    requires var u := Run(StageSpec(s, authority, p).0, steps); ReverseSpec(u, operator, p.changeId, reversal).0 != u
    ensures var u := Run(StageSpec(s, authority, p).0, steps); var v := ReverseSpec(u, operator, p.changeId, reversal).0;
      && Version(v, p.target) == Version(s, p.target) + 2
      && Before(v, p.target) == match Before(s, p.target)
           case Some(document) => Some(document)
           case None => Some(Before(u, p.target).value.(lifecycle := LogicallyDeleted))
  {
    var s1 := StageSpec(s, authority, p).0;
    var w := StageCommits(s, authority, p);
    CommitEffect(s, s1, w);
    StageKeepsGood(s, authority, p);
    RunKeepsGood(s1, steps);
    RunGrows(s1, steps);
    var u := Run(s1, steps);
    assert w.change in s1.journal && w.change in u.journal;
    ReversalOf(u, operator, w.change, reversal);
  }

  /** The stored state never drifts from an accepted change: when the versions match, so do the states. */
  lemma {:induction false} StateNeverDrifts(s0: State, steps: seq<Step>, change: Change)
    requires Good(s0)
    requires var s := Run(s0, steps);
      change in s.journal && change.target in s.records && s.records[change.target].version == change.version
    ensures var s := Run(s0, steps); Read(s, change.target) == change.resulting
  {
    RunKeepsGood(s0, steps);
    CurrentChange(Run(s0, steps), change);
  }

  lemma {:induction false} FoundById(journal: seq<Change>, c: Change)
    requires c in journal && IdentitiesUnique(journal)
    ensures FindChange(journal, c.id) == Some(c)
  {
  }

  lemma {:induction false} AnsweredIfSame(u: State, again: Authority, other: Proposal, change: Change)
    requires FindChange(u.journal, other.changeId) == Some(change) && change.task in u.tasks && change.actor != Model
    ensures StageSpec(u, again, other).0 == u
    ensures StageSpec(u, again, other).1 == Ok(change) || StageSpec(u, again, other).1.Err?
    ensures StageSpec(u, again, other).1.Ok? <==>
      && again.canCommit && again.capability && again.task == change.task && again.actor == change.actor
      && change.request == Propose(other)
  {
  }

  /** When a used change identity is answered, at any later time: exactly for the same proposal by the same actor in the
      same task, and then with the first result. Every other proposal of that identity is refused. */
  lemma {:induction false} StageReuseExactly(
    s: State, authority: Authority, p: Proposal, steps: seq<Step>, again: Authority, other: Proposal)
    requires Good(s) && StageSpec(s, authority, p).0 != s && other.changeId == p.changeId
    ensures var (s1, r) := StageSpec(s, authority, p); var u := Run(s1, steps);
      && (StageSpec(u, again, other).1.Ok? <==>
            again.canCommit && again.capability && again.task == authority.task && again.actor == authority.actor && other == p)
      && (StageSpec(u, again, other).1.Ok? ==> StageSpec(u, again, other).1 == r)
      && StageSpec(u, again, other).0 == u
  {
    var s1 := StageSpec(s, authority, p).0;
    var w := StageCommits(s, authority, p);
    StageKeepsGood(s, authority, p);
    RunKeepsGood(s1, steps);
    RunGrows(s1, steps);
    var u := Run(s1, steps);
    assert w.change in s1.journal && w.change in u.journal;
    FoundById(u.journal, w.change);
    AnsweredIfSame(u, again, other, w.change);
  }

  /** So submitting an accepted proposal again, however much later, changes nothing and returns its first result. */
  lemma {:induction false} StageRepeats(s: State, authority: Authority, p: Proposal, steps: seq<Step>, again: Authority)
    requires Good(s) && StageSpec(s, authority, p).0 != s
    requires again.task == authority.task && again.actor == authority.actor && again.canCommit && again.capability
    ensures var s1 := StageSpec(s, authority, p).0; var u := Run(s1, steps);
      StageSpec(u, again, p) == (u, StageSpec(s, authority, p).1)
  {
    StageReuseExactly(s, authority, p, steps, again, p);
  }

  lemma {:induction false} FoundReversal(journal: seq<Change>, c: Change, original: Id)
    requires c in journal && IdentitiesUnique(journal) && c.reverses == Some(original)
    ensures FindReversal(journal, original) == Some(c)
  {
  }

  lemma {:induction false} DuplicateReturned(u: State, again: Authority, original: Id, other: Reversal, change: Change, first: Change)
    requires FindChange(u.journal, original) == Some(change) && FindReversal(u.journal, original) == Some(first)
    requires change.task in u.tasks && change.reverses == None
    ensures ReverseSpec(u, again, original, other).0 == u
    ensures ReverseSpec(u, again, original, other).1 == Ok(first) || ReverseSpec(u, again, original, other).1.Err?
    ensures ReverseSpec(u, again, original, other).1.Ok? <==>
      again.canCommit && again.actor == LocalOperator && again.capability && again.task == change.task && !Blank(other.reason)
  {
  }

  /** A change is reversed at most once: every later request changes nothing, and returns the first reversal exactly if it
      could have been made by the operator of the same task, whatever identity and reason it gives. */
  lemma {:induction false} ReversedOnce(
    s: State, operator: Authority, original: Id, reversal: Reversal, steps: seq<Step>, again: Authority, other: Reversal)
    requires Good(s) && ReverseSpec(s, operator, original, reversal).0 != s
    ensures var (s1, r) := ReverseSpec(s, operator, original, reversal); var u := Run(s1, steps);
      && (ReverseSpec(u, again, original, other).1.Ok? <==>
            again.canCommit && again.actor == LocalOperator && again.capability && again.task == operator.task && !Blank(other.reason))
      && (ReverseSpec(u, again, original, other).1.Ok? ==> ReverseSpec(u, again, original, other).1 == r)
      && ReverseSpec(u, again, original, other).0 == u
  {
    var s1 := ReverseSpec(s, operator, original, reversal).0;
    var change := FindChange(s.journal, original).value;
    var w := ReverseCommits(s, operator, original, reversal);
    ReverseKeepsGood(s, operator, original, reversal);
    RunKeepsGood(s1, steps);
    RunGrows(s1, steps);
    var u := Run(s1, steps);
    assert w.change in s1.journal && w.change in u.journal && change in s1.journal && change in u.journal;
    FoundById(u.journal, change);
    FoundReversal(u.journal, w.change, original);
    DuplicateReturned(u, again, original, other, change, w.change);
  }

  /** When a request to reverse a change is accepted as new, for reachable states: nothing is asked about the stored state,
      because it cannot have drifted. */
  ghost predicate Reversible(s: State, authority: Authority, original: Id, reversal: Reversal) {
    && authority.canCommit && authority.actor == LocalOperator && !Blank(reversal.reason)
    && authority.task in s.tasks && authority.capability
    && FindReversal(s.journal, original) == None && FindChange(s.journal, reversal.changeId) == None
    && match FindChange(s.journal, original)
       case None => false
       case Some(change) =>
         && change.task == authority.task && change.reverses == None && authority.now < change.time + 48 * 3600
         && Latest(s.journal, change.target) == Some(change)
         && Fits(s, authority.task, change.target, Undone(change, change.resulting))
         && (change.target.kind == Claim && Undone(change, change.resulting) != change.resulting ==>
               !DependedOn(s, authority.task, change.target.id))
  }

  lemma {:induction false} LatestIsStored(s: State, change: Change)
    requires Good(s) && change in s.journal
    ensures change.target in s.records && s.records[change.target].task == change.task
    ensures s.records[change.target].version == change.version <==> Latest(s.journal, change.target) == Some(change)
    ensures Latest(s.journal, change.target) == Some(change) ==> Read(s, change.target) == change.resulting
  {
    assert RecordFits(s, change.target);
    LatestIsNewest(s.journal, change);
  }

  /** Exactly the latest change of a target is reversed, by the operator, in time, once, and if its inverse is valid. */
  lemma {:induction false} ReversedExactly(s: State, authority: Authority, original: Id, reversal: Reversal)
    requires Good(s)
    ensures ReverseSpec(s, authority, original, reversal).0 != s <==> Reversible(s, authority, original, reversal)
  {
    var found := FindChange(s.journal, original);
    if found.Some? {
      LatestIsStored(s, found.value);
      if authority.task in s.tasks {
        ValidExactly(s, authority.task, found.value.target, Some(found.value.resulting),
          Undone(found.value, found.value.resulting), true);
      }
    }
    if Reversible(s, authority, original, reversal) {
      var t := ReverseSpec(s, authority, original, reversal).0;
      assert |t.journal| == |s.journal| + 1;
    }
  }

  /** A model never commits; an extracting component only ever creates unverified claims in active investigations. */
  lemma {:induction false} AutomatedChangesAreClaims(s: State, authority: Authority, p: Proposal)
    requires StageSpec(s, authority, p).0 != s && authority.actor != LocalOperator
    ensures authority.actor == ClaimExtractor && p.operation == CREATE && p.target.kind == Claim
    ensures p.payload.Some? && p.payload.value.status == "unverified" && s.tasks[authority.task].active
  {
  }

  /** What the actor of a change may have done. */
  ghost predicate ByItsActor(c: Change) {
    && c.actor != Model
    && (c.actor == ClaimExtractor ==>
          c.operation == CREATE && c.target.kind == Claim && c.previous == None && c.resulting.data.status == "unverified")
  }

  ghost predicate JournalByActors(s: State) {
    forall c | c in s.journal :: ByItsActor(c)
  }

  lemma {:induction false} StageByActor(s: State, authority: Authority, p: Proposal)
    requires StageSpec(s, authority, p).0 != s
    ensures var t := StageSpec(s, authority, p).0;
      |t.journal| == |s.journal| + 1 && t.journal[..|s.journal|] == s.journal && ByItsActor(t.journal[|s.journal|])
  {
    if authority.actor != LocalOperator {
      AutomatedChangesAreClaims(s, authority, p);
    }
  }

  lemma {:induction false} StepByActors(s: State, step: Step)
    requires JournalByActors(s)
    ensures JournalByActors(After(s, step))
  {
    var t := After(s, step);
    if step.Stage? && t != s {
      StageByActor(s, step.authority, step.proposal);
      assert t.journal == s.journal + [t.journal[|s.journal|]];
    }
  }

  /** In every reachable journal a model changed nothing, and an extracting component only created unverified claims:
      whatever was updated, archived, deleted, restored, reversed or assessed, the operator did. */
  lemma {:induction false} RunByActors(s: State, steps: seq<Step>)
    requires JournalByActors(s)
    ensures JournalByActors(Run(s, steps))
    decreases |steps|
  {
    if steps != [] {
      StepByActors(s, steps[0]);
      RunByActors(After(s, steps[0]), steps[1..]);
    }
  }

  // ----- provenance

  lemma {:induction false} StepKeepsProvenance(s: State, step: Step, target: Target)
    requires Good(s) && target.kind == Claim && target in s.records && !step.Reverse?
    ensures target in After(s, step).records
    ensures Provenance(Read(s, target).data) <= Provenance(Read(After(s, step), target).data)
  {
    if step.Stage? && After(s, step) != s {
      var w := StageCommits(s, step.authority, step.proposal);
      CommitEffect(s, After(s, step), w);
      if w.target == target {
        PreparedKeepsProvenance(s, step.authority, step.proposal);
      } else {
        assert Before(After(s, step), target) == Before(s, target);
      }
    } else {
      assert After(s, step).records == s.records && After(s, step).links == s.links;
    }
  }

  /** Without reversals, a claim never loses a source it once cited. */
  lemma {:induction false} RunKeepsProvenance(s: State, steps: seq<Step>, target: Target)
    requires Good(s) && target.kind == Claim && target in s.records && forall step | step in steps :: !step.Reverse?
    ensures target in Run(s, steps).records
    ensures Provenance(Read(s, target).data) <= Provenance(Read(Run(s, steps), target).data)
    decreases |steps|
  {
    if steps != [] {
      StepKeepsProvenance(s, steps[0], target);
      StepKeepsGood(s, steps[0]);
      RunKeepsProvenance(After(s, steps[0]), steps[1..], target);
    }
  }

  // ----- an identity used twice

  lemma {:induction false} RunFour(s: State, a: Step, b: Step, c: Step, d: Step)
    ensures Run(s, [a, b, c, d]) == After(After(After(After(s, a), b), c), d)
  {
    assert [a, b, c, d][1..] == [b, c, d] && [b, c, d][1..] == [c, d] && [c, d][1..] == [d] && [d][1..] == [];
    var s3 := After(After(After(s, a), b), c);
    assert Run(s3, [d]) == After(s3, d);
    assert Run(After(s, a), [b, c, d]) == Run(After(After(s, a), b), [c, d]);
  }

  lemma {:induction false} SingleLinkFacts(link: Link)
    ensures UniqueOthers([link]) && SortLinks([link]) == [link]
  {
    assert Others([link]) == [link.other];
    assert Elements(Others([link])) == {link.other};
    SortOrders([link]);
    assert |SortLinks([link])| == |multiset(SortLinks([link]))| == 1;
    assert SortLinks([link])[0] in multiset([link]);
  }

  lemma {:induction false} BothKindsFail(journal: seq<Change>, task: Id, id: Id)
    requires TwoKinds(journal, task, id)
    ensures var changes := Entries(journal, task, id);
      changes != [] && !SoundHistory(Target(changes[0].target.kind, id), changes)
  {
    EntriesMembers(journal, task, id);
    var a :| a in journal && a.task == task && a.target == Target(Claim, id);
    assert a in Entries(journal, task, id);
    TwoKindsUnsound(journal, task, id, Entries(journal, task, id)[0].target.kind);
  }

  /** The operator may create a record with one fitting link. */
  lemma {:induction false} CreationAccepted(s: State, authority: Authority, p: Proposal, link: Link)
    requires authority.actor == LocalOperator && authority.canCommit && authority.capability && authority.task in s.tasks
    requires p.operation == CREATE && p.payload.Some? && p.payload.value.links == [link]
    requires p.target !in s.records && FindChange(s.journal, p.changeId) == None
    requires if p.target.kind == Claim then SourcesOfTask(s, authority.task, [link])
             else
               && p.hypothesis.Some? && p.hypothesis.value in s.tasks[authority.task].hypotheses
               && !HypothesisTaken(s, authority.task, p.hypothesis, p.target) && ActiveClaimsOfTask(s, authority.task, [link])
    ensures var t := StageSpec(s, authority, p).0;
      && t.tasks == s.tasks && t.sources == s.sources
      && |t.journal| == |s.journal| + 1 && t.journal[..|s.journal|] == s.journal
      && t.journal[|s.journal|].target == p.target && t.journal[|s.journal|].task == authority.task
      && t.journal[|s.journal|].id == p.changeId
      && t.records.Keys == s.records.Keys + {p.target}
      && t.records[p.target].task == authority.task && t.records[p.target].lifecycle == Active
  {
    SingleLinkFacts(link);
    assert Prepare(s, authority, p).Ok?;
  }

  const OPERATOR := Authority(LocalOperator, Id(3), true, true, 0)

  const CLAIM := Proposal(
    Id(5), Target(Claim, Id(4)), CREATE, 0, "", Some(Data("a", 0.5, "unverified", [Link(Id(1), Supporting, 0.5)])), None)

  const ASSESSMENT := Proposal(
    Id(6), Target(Assessment, Id(4)), CREATE, 0, "", Some(Data("b", 0.5, "supported", [Link(Id(4), Supporting, 0.5)])), Some(Id(2)))

  lemma {:induction false} BothCreated(s: State)
    requires s == State(map[Id(3) := Task(true, {Id(2)})], map[Id(1) := Id(3)], map[], map[], map[], [])
    ensures TwoKinds(StageSpec(StageSpec(s, OPERATOR, CLAIM).0, OPERATOR, ASSESSMENT).0.journal, Id(3), Id(4))
  {
    CreationAccepted(s, OPERATOR, CLAIM, Link(Id(1), Supporting, 0.5));
    var t := StageSpec(s, OPERATOR, CLAIM).0;
    CreationAccepted(t, OPERATOR, ASSESSMENT, Link(Id(4), Supporting, 0.5));
    var u := StageSpec(t, OPERATOR, ASSESSMENT).0;
    assert u.journal[0] in u.journal && u.journal[1] in u.journal;
  }

  /** Claim and assessment identities are separate, so one identity may name both; its history then no longer reads, although
      tables and journal agree. */
  lemma {:induction false} HistoryCanFail() returns (steps: seq<Step>, task: Id, id: Id)
    ensures var s := Run(EMPTY, steps); var changes := Entries(s.journal, task, id);
      Good(s) && changes != [] && !SoundHistory(Target(changes[0].target.kind, id), changes)
  {
    task, id := Id(3), Id(4);
    var begin, supply := SetTask(task, Task(true, {Id(2)})), AddSources(map[Id(1) := task]);
    steps := [begin, supply, Stage(OPERATOR, CLAIM), Stage(OPERATOR, ASSESSMENT)];
    RunFour(EMPTY, begin, supply, Stage(OPERATOR, CLAIM), Stage(OPERATOR, ASSESSMENT));
    BothCreated(After(After(EMPTY, begin), supply));
    BothKindsFail(Run(EMPTY, steps).journal, task, id);
    EmptyIsGood();
    RunKeepsGood(EMPTY, steps);
  }
}
