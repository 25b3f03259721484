/** Exactly when a proposal is accepted, in terms of the proposal and the stored records, and what the journal says of it. */
module MemoryEffects {
  import opened Basics
  import opened StableSort
  import opened MemoryModel
  import opened MemoryLinks
  import opened MemoryInvariant
  import opened MemoryRuns

  /** The caller may commit for a known task, and the change identity is unused. */
  ghost predicate MayPropose(s: State, authority: Authority, changeId: Id) {
    && authority.canCommit && authority.actor != Model && authority.capability && authority.task in s.tasks
    && forall c | c in s.journal :: c.id != changeId
  }

  /** The target is stored for the task at the version the proposal was made for. */
  ghost predicate AtVersion(s: State, task: Id, target: Target, version: nat) {
    target in s.records && s.records[target].task == task && s.records[target].version == version
  }

  /** The operator may create anything; an extractor creates unverified claims in active investigations. */
  ghost predicate MayCreate(s: State, authority: Authority, kind: Kind, payload: Data)
    requires authority.task in s.tasks
  {
    authority.actor == LocalOperator || (kind == Claim && payload.status == "unverified" && s.tasks[authority.task].active)
  }

  ghost predicate Creatable(s: State, authority: Authority, p: Proposal)
    requires authority.task in s.tasks
  {
    && p.target !in s.records && p.payload.Some? && MayCreate(s, authority, p.target.kind, p.payload.value)
    && Fits(s, authority.task, p.target, Document(p.payload.value, Active, if p.target.kind == Claim then None else p.hypothesis))
  }

  /** An active record of the version proposed for takes a payload that fits; a claim keeps the sources it cites, and a claim
      that others depend on keeps everything. */
  ghost predicate Updatable(s: State, authority: Authority, p: Proposal)
    requires authority.task in s.tasks
  {
    && AtVersion(s, authority.task, p.target, p.expectedVersion) && s.records[p.target].lifecycle == Active
    && authority.actor == LocalOperator && p.payload.Some?
    && Fits(s, authority.task, p.target, Document(p.payload.value, Active, s.records[p.target].hypothesis))
    && (p.target.kind == Claim ==>
          && (forall link | link in Read(s, p.target).data.links ::
                exists kept :: kept in p.payload.value.links && kept.other == link.other && kept.support == link.support)
          && (DependedOn(s, authority.task, p.target.id) ==> StoresPayload(p.payload.value, Read(s, p.target).data)))
  }

  /** The lifecycles an operation starts from. */
  predicate StartsFrom(operation: Operation, lifecycle: Lifecycle) {
    match operation
    case ARCHIVE => lifecycle == Active
    case LOGICAL_DELETE => lifecycle == Active || lifecycle == Archived
    case RESTORE => lifecycle == Archived || lifecycle == LogicallyDeleted
    case _ => false
  }

  /** The operator archives, deletes or restores a claim nothing depends on, or an assessment whose hypothesis the
      investigation still has. */
  ghost predicate Movable(s: State, authority: Authority, p: Proposal)
    requires authority.task in s.tasks
  {
    && AtVersion(s, authority.task, p.target, p.expectedVersion) && StartsFrom(p.operation, s.records[p.target].lifecycle)
    && authority.actor == LocalOperator
    && if p.target.kind == Claim then !DependedOn(s, authority.task, p.target.id)
       else
         s.records[p.target].hypothesis.Some? && s.records[p.target].hypothesis.value in s.tasks[authority.task].hypotheses
  }

  ghost predicate Stageable(s: State, authority: Authority, p: Proposal) {
    && MayPropose(s, authority, p.changeId)
    && match p.operation
       case CREATE => Creatable(s, authority, p)
       case UPDATE => Updatable(s, authority, p)
       case _ => Movable(s, authority, p)
  }

  lemma {:induction false} StagedIfPrepared(s: State, authority: Authority, p: Proposal)
    ensures StageSpec(s, authority, p).0 != s <==> MayPropose(s, authority, p.changeId) && Prepare(s, authority, p).Ok?
    ensures MayPropose(s, authority, p.changeId) ==> (StageSpec(s, authority, p).1.Ok? <==> Prepare(s, authority, p).Ok?)
  {
    var t := StageSpec(s, authority, p).0;
    if MayPropose(s, authority, p.changeId) && Prepare(s, authority, p).Ok? {
      assert FindChange(s.journal, p.changeId) == None;
      assert |t.journal| == |s.journal| + 1;
    }
  }

  /** Ordering the links changes nothing that is checked. */
  lemma {:induction false} OrderIsIrrelevant(s: State, task: Id, target: Target, document: Document, sorted: seq<Link>)
    requires task in s.tasks && multiset(sorted) == multiset(document.data.links)
    ensures Fits(s, task, target, document.(data := document.data.(links := sorted))) <==> Fits(s, task, target, document)
    ensures Provenance(document.data.(links := sorted)) == Provenance(document.data)
  {
    SameMembers(sorted, document.data.links);
    SameCounts(sorted, document.data.links);
  }

  lemma {:induction false} SameMembers(a: seq<Link>, b: seq<Link>)
    requires multiset(a) == multiset(b)
    ensures |a| == |b| && forall link :: link in a <==> link in b
  {
    assert |a| == |multiset(a)| && |b| == |multiset(b)|;
    assert forall link :: link in a <==> link in multiset(a);
    assert forall link :: link in b <==> link in multiset(b);
  }

  lemma {:induction false} SameCounts(a: seq<Link>, b: seq<Link>)
    requires multiset(a) == multiset(b)
    ensures OneLinkPerEnd(a) <==> OneLinkPerEnd(b)
  {
    SameMembers(a, b);
    UniqueByCount(a);
    UniqueByCount(b);
    assert Elements(Others(a)) == Elements(Others(b)) by {
      OthersMembers(a);
      OthersMembers(b);
    }
  }

  lemma {:induction false} OthersMembers(links: seq<Link>)
    ensures forall id :: id in Elements(Others(links)) <==> exists link :: link in links && link.other == id
  {
    forall id
      ensures id in Elements(Others(links)) <==> exists link :: link in links && link.other == id
    {
      if link :| link in links && link.other == id {
        var i :| 0 <= i < |links| && links[i] == link;
        assert Others(links)[i] == id;
      }
      if id in Elements(Others(links)) {
        var i :| 0 <= i < |links| && Others(links)[i] == id;
        assert links[i] in links;
      }
    }
  }

  lemma {:induction false} PrepareCreation(s: State, authority: Authority, p: Proposal)
    requires Good(s) && authority.task in s.tasks && p.operation == CREATE
    ensures Prepare(s, authority, p).Ok? <==> Creatable(s, authority, p)
  {
    if p.target !in s.records && p.payload.Some? {
      var raw := Document(p.payload.value, Active, if p.target.kind == Claim then None else p.hypothesis);
      var after := raw.(data := raw.data.(links := SortLinks(raw.data.links)));
      SortOrders(raw.data.links);
      OrderIsIrrelevant(s, authority.task, p.target, raw, SortLinks(raw.data.links));
      ValidExactly(s, authority.task, p.target, None, after, false);
    }
  }

  lemma {:induction false} SameProvenance(earlier: Data, data: Data)
    ensures Provenance(earlier) <= Provenance(data) <==>
      forall link | link in earlier.links ::
        exists kept :: kept in data.links && kept.other == link.other && kept.support == link.support
  {
    if Provenance(earlier) <= Provenance(data) {
      forall link | link in earlier.links
        ensures exists kept :: kept in data.links && kept.other == link.other && kept.support == link.support
      {
        assert (link.other, link.support) in Provenance(earlier);
        assert (link.other, link.support) in Provenance(data);
      }
    }
  }

  lemma {:induction false} SortedIsUnique(links: seq<Link>, canonical: seq<Link>)
    requires Canonical(canonical) && multiset(canonical) == multiset(links)
    ensures SortLinks(links) == canonical
  {
    var key := (link: Link) => link.other.number;
    SameMembers(canonical, links);
    SameCounts(canonical, links);
    assert KeysDiffer(canonical, key) && KeysDiffer(links, key);
    SortIsCanonical(links, canonical, key);
    SortedStays(canonical);
  }

  lemma {:induction false} StoredAsIs(payload: Data, stored: Data)
    requires Canonical(stored.links)
    ensures stored == payload.(links := SortLinks(payload.links)) <==> StoresPayload(payload, stored)
  {
    SortOrders(payload.links);
    if StoresPayload(payload, stored) {
      SortedIsUnique(payload.links, stored.links);
    }
  }

  lemma {:induction false} UpdatePrepared(s: State, authority: Authority, p: Proposal, before: Document, after: Document)
    requires authority.task in s.tasks && p.operation == UPDATE && p.payload.Some?
    requires AtVersion(s, authority.task, p.target, p.expectedVersion) && before == Read(s, p.target)
    requires p.target.kind == Claim ==> before.hypothesis == None
    requires after == Document(p.payload.value.(links := SortLinks(p.payload.value.links)), Active, before.hypothesis)
    ensures Prepare(s, authority, p).Ok? <==>
      && before.lifecycle == Active && authority.actor == LocalOperator
      && Validate(s, authority.task, p.target, Some(before), after, false) == None
  {
    var raw := Document(p.payload.value, Active, before.hypothesis);
    assert Before(s, p.target) == Some(before);
    assert before.lifecycle == Active ==> Proposed(Some(before), p) == Ok(raw);
    assert raw.(data := raw.data.(links := SortLinks(raw.data.links))) == after;
  }

  lemma {:induction false} PrepareUpdate(s: State, authority: Authority, p: Proposal)
    requires Good(s) && authority.task in s.tasks && p.operation == UPDATE
    ensures Prepare(s, authority, p).Ok? <==> Updatable(s, authority, p)
  {
    if AtVersion(s, authority.task, p.target, p.expectedVersion) && p.payload.Some? {
      var before := Read(s, p.target);
      assert RecordFits(s, p.target);
      var raw := Document(p.payload.value, Active, before.hypothesis);
      var after := raw.(data := raw.data.(links := SortLinks(raw.data.links)));
      SortOrders(raw.data.links);
      OrderIsIrrelevant(s, authority.task, p.target, raw, SortLinks(raw.data.links));
      UpdatePrepared(s, authority, p, before, after);
      ValidExactly(s, authority.task, p.target, Some(before), after, false);
      SameProvenance(before.data, p.payload.value);
      ReadIsCanonical(s.links, p.target);
      StoredAsIs(p.payload.value, before.data);
    }
  }

  /** What is stored fits, but for the hypotheses of the investigation, which it may have lost. */
  lemma {:induction false} StoredFits(s: State, target: Target, lifecycle: Lifecycle)
    requires Good(s) && target in s.records
    ensures s.records[target].task in s.tasks
    ensures var task := s.records[target].task;
      Fits(s, task, target, Read(s, target).(lifecycle := lifecycle)) <==>
        target.kind == Claim
        || (s.records[target].hypothesis.Some? && s.records[target].hypothesis.value in s.tasks[task].hypotheses)
  {
    assert RecordFits(s, target);
    ReadIsCanonical(s.links, target);
    var document := Read(s, target);
    forall link | link in document.data.links
      ensures LinkFits(s, LinkKey(target, link.other))
    {
    }
  }

  lemma {:induction false} MovePrepared(s: State, authority: Authority, p: Proposal, before: Document)
    requires authority.task in s.tasks && p.operation != CREATE && p.operation != UPDATE
    requires AtVersion(s, authority.task, p.target, p.expectedVersion) && before == Read(s, p.target)
    requires SortLinks(before.data.links) == before.data.links
    ensures Prepare(s, authority, p).Ok? <==>
      && StartsFrom(p.operation, before.lifecycle) && authority.actor == LocalOperator
      && Validate(s, authority.task, p.target, Some(before), before.(lifecycle := LifecycleAfter(p.operation)), false) == None
  {
    var after := before.(lifecycle := LifecycleAfter(p.operation));
    assert after.(data := after.data.(links := before.data.links)) == after;
    assert Before(s, p.target) == Some(before);
    assert StartsFrom(p.operation, before.lifecycle) ==> Proposed(Some(before), p) == Ok(after);
  }

  lemma {:induction false} PrepareMove(s: State, authority: Authority, p: Proposal)
    requires Good(s) && authority.task in s.tasks && p.operation != CREATE && p.operation != UPDATE
    ensures Prepare(s, authority, p).Ok? <==> Movable(s, authority, p)
  {
    if AtVersion(s, authority.task, p.target, p.expectedVersion) {
      var before := Read(s, p.target);
      ReadIsCanonical(s.links, p.target);
      SortedStays(before.data.links);
      MovePrepared(s, authority, p, before);
      if StartsFrom(p.operation, before.lifecycle) {
        MoveIsValid(s, authority.task, p.target, before, LifecycleAfter(p.operation));
      }
    }
  }

  /** Only dependents, or a lost hypothesis, keep a stored document from another lifecycle. */
  lemma {:induction false} MoveIsValid(s: State, task: Id, target: Target, before: Document, lifecycle: Lifecycle)
    requires Good(s) && target in s.records && s.records[target].task == task && task in s.tasks
    requires before == Read(s, target) && lifecycle != before.lifecycle
    ensures Validate(s, task, target, Some(before), before.(lifecycle := lifecycle), false) == None <==>
      if target.kind == Claim then !DependedOn(s, task, target.id)
      else s.records[target].hypothesis.Some? && s.records[target].hypothesis.value in s.tasks[task].hypotheses
  {
    StoredFits(s, target, lifecycle);
    ValidExactly(s, task, target, Some(before), before.(lifecycle := lifecycle), false);
  }

  /** A proposal changes the state exactly under these conditions, and is then the next entry of the journal. Otherwise a
      proposal of an unused identity is refused. */
  lemma {:induction false} StagedExactly(s: State, authority: Authority, p: Proposal)
    requires Good(s)
    ensures StageSpec(s, authority, p).0 != s <==> Stageable(s, authority, p)
    ensures MayPropose(s, authority, p.changeId) && !Stageable(s, authority, p) ==> StageSpec(s, authority, p).1.Err?
  {
    StagedIfPrepared(s, authority, p);
    if MayPropose(s, authority, p.changeId) {
      match p.operation
      case CREATE => PrepareCreation(s, authority, p);
      case UPDATE => PrepareUpdate(s, authority, p);
      case _ => PrepareMove(s, authority, p);
    }
  }

  /** One entry is added to the journal: what was proposed, by whom and when, and the states before and after. */
  ghost predicate Journaled(s: State, t: State, target: Target, c: Change) {
    && t.journal == s.journal + [c] && c.target == target && target in t.records
    && c.previous == Before(s, target) && c.previousVersion == Version(s, target)
    && c.resulting == c.proposed == Read(t, target) && c.version == Version(t, target) && c.task == t.records[target].task
    && |c.provenance| == |c.resulting.data.links|
    && forall i | 0 <= i < |c.provenance| :: c.provenance[i] == c.resulting.data.links[i].other
  }

  lemma {:induction false} CommitIsJournaled(s: State, t: State, w: Commit)
    requires Commits(s, t, w) && OnlyWrote(s, t, w.target, w.after)
    requires |w.change.provenance| == |w.after.data.links|
    requires forall i | 0 <= i < |w.after.data.links| :: w.change.provenance[i] == w.after.data.links[i].other
    ensures Journaled(s, t, w.target, w.change)
  {
  }

  lemma {:induction false} StageIsJournaled(s: State, authority: Authority, p: Proposal)
    requires Good(s) && StageSpec(s, authority, p).0 != s
    ensures var (t, r) := StageSpec(s, authority, p);
      && r.Ok? && Journaled(s, t, p.target, r.value)
      && r.value.id == p.changeId && r.value.task == authority.task && r.value.operation == p.operation
      && r.value.actor == authority.actor && r.value.time == authority.now && r.value.reason == p.reason
      && r.value.request == Propose(p) && r.value.reverses == None
  {
    var w := StageCommits(s, authority, p);
    CommitEffect(s, StageSpec(s, authority, p).0, w);
  }

  lemma {:induction false} ReversalIsJournaled(s: State, authority: Authority, original: Id, reversal: Reversal)
    requires Good(s) && ReverseSpec(s, authority, original, reversal).0 != s
    ensures var (t, r) := ReverseSpec(s, authority, original, reversal);
      && r.Ok? && Journaled(s, t, FindChange(s.journal, original).value.target, r.value)
      && r.value.id == reversal.changeId && r.value.task == authority.task && r.value.operation == REVERSE
      && r.value.actor == authority.actor && r.value.time == authority.now && r.value.reason == reversal.reason
      && r.value.request == Undo(original, reversal) && r.value.reverses == Some(original)
  {
    var w := ReverseCommits(s, authority, original, reversal);
    CommitEffect(s, ReverseSpec(s, authority, original, reversal).0, w);
    CommitIsJournaled(s, ReverseSpec(s, authority, original, reversal).0, w);
  }
}
