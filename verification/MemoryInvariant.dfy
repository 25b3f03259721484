/** What every reachable memory state satisfies: tables against journal, and references across records. */
module MemoryInvariant {
  import opened Basics
  import opened MemoryModel
  import opened MemoryLinks
  import opened MemoryJournal

  /** The stored record and its link rows are what the latest change left; unjournaled records are at version one. */
  ghost predicate Agrees(s: State, target: Target)
    requires target in s.records
  {
    var r := s.records[target];
    match Latest(s.journal, target)
    case None => r.version == 1
    case Some(c) => c.version == r.version && c.resulting == Read(s, target) && c.task == r.task
  }

  ghost predicate RecordFits(s: State, target: Target)
    requires target in s.records
  {
    var r := s.records[target];
    && r.id == target.id && r.task in s.tasks && r.version >= 1 && (r.hypothesis.Some? <==> target.kind == Assessment)
    && ReadLinks(s.links, target) != []
    && Agrees(s, target)
  }

  /** Claims cite sources of their own task, assessments cite active claims of their own task. */
  ghost predicate LinkFits(s: State, key: LinkKey) {
    && key.owner in s.records
    && var task := s.records[key.owner].task;
       if key.owner.kind == Claim then key.other in s.sources && s.sources[key.other] == task
       else
         var claim := Target(Claim, key.other);
         claim in s.records && s.records[claim].task == task && s.records[claim].lifecycle == Active
  }

  /** No two assessments, whatever their lifecycle, assess one hypothesis of a task. */
  ghost predicate HypothesesUnique(s: State) {
    forall a, b | a in s.records && b in s.records && a.kind == Assessment && b.kind == Assessment
      && s.records[a].task == s.records[b].task && s.records[a].hypothesis == s.records[b].hypothesis :: a == b
  }

  /** Change identities are unique, and no change is reversed twice. */
  ghost predicate IdentitiesUnique(journal: seq<Change>) {
    forall i, j | 0 <= i < j < |journal| ::
      journal[i].id != journal[j].id && (journal[i].reverses.Some? ==> journal[i].reverses != journal[j].reverses)
  }

  ghost predicate RecordsFit(s: State) {
    forall target {:trigger RecordFits(s, target)} | target in s.records :: RecordFits(s, target)
  }

  ghost predicate ReferencesFit(s: State) {
    forall key {:trigger LinkFits(s, key)} | key in s.links :: LinkFits(s, key)
  }

  ghost predicate JournalFits(s: State) {
    Chained(s.journal) && IdentitiesUnique(s.journal) && forall c | c in s.journal :: c.target in s.records
  }

  ghost predicate Good(s: State) {
    RecordsFit(s) && ReferencesFit(s) && HypothesesUnique(s) && JournalFits(s)
  }

  /** The links of a document may be stored for a target of the task. */
  ghost predicate LinksFit(s: State, task: Id, target: Target, links: seq<Link>) {
    if target.kind == Claim then SourcesOfTask(s, task, links) else ActiveClaimsOfTask(s, task, links)
  }

  /** What is known of a write when it is committed. */
  ghost predicate Admitted(s: State, task: Id, target: Target, after: Document, change: Change) {
    && task in s.tasks && (target in s.records ==> s.records[target].task == task)
    && Proper(target.kind, after) && LinksFit(s, task, target, after.data.links)
    && (target.kind == Claim && target in s.records && Read(s, target) != after ==> !HasDependents(s, task, target.id))
    && (target.kind == Assessment ==> !HypothesisTaken(s, task, after.hypothesis, target))
    && (target in s.records ==> s.records[target].hypothesis == after.hypothesis)
    && change.task == task && change.target == target && change.previous == Before(s, target)
    && change.proposed == after && change.resulting == after
    && change.previousVersion == Version(s, target) && change.version == Version(s, target) + 1
    && forall c | c in s.journal :: c.id != change.id && (change.reverses.Some? ==> c.reverses != change.reverses)
  }

  lemma {:induction false} WrittenReads(s: State, task: Id, target: Target, after: Document, change: Change)
    requires Admitted(s, task, target, after, change)
    ensures Read(Written(s, task, target, after, change), target) == after
  {
    RoundTrip(s.links, target, after.data.links);
  }

  /** Everything another record reads as stays the same. */
  lemma {:induction false} OthersRead(s: State, task: Id, target: Target, after: Document, change: Change, other: Target)
    requires Admitted(s, task, target, after, change) && other != target && other in s.records
    ensures Read(Written(s, task, target, after, change), other) == Read(s, other)
  {
    OthersUntouched(s.links, target, after.data.links, other);
  }

  lemma {:induction false} WrittenRecordFits(s: State, task: Id, target: Target, after: Document, change: Change)
    requires RecordsFit(s) && Admitted(s, task, target, after, change)
    ensures RecordFits(Written(s, task, target, after, change), target)
  {
    WrittenReads(s, task, target, after, change);
    assert target in s.records ==> RecordFits(s, target);
  }

  lemma {:induction false} OtherRecordFits(s: State, task: Id, target: Target, after: Document, change: Change, other: Target)
    requires RecordsFit(s) && Admitted(s, task, target, after, change) && other != target && other in s.records
    ensures RecordFits(Written(s, task, target, after, change), other)
  {
    OthersRead(s, task, target, after, change, other);
    assert RecordFits(s, other);
    var t := Written(s, task, target, after, change);
    assert t.journal[..|s.journal|] == s.journal;
  }

  lemma {:induction false} ChangeExtends(s: State, task: Id, target: Target, after: Document, change: Change)
    requires Admitted(s, task, target, after, change) && JournalFits(s)
    requires target in s.records ==> RecordFits(s, target)
    ensures Extends(Latest(s.journal, target), change)
  {
    if target in s.records {
      ReadIsCanonical(s.links, target);
    } else {
      assert Latest(s.journal, target) == None;
    }
  }

  lemma {:induction false} WrittenJournalFits(s: State, task: Id, target: Target, after: Document, change: Change)
    requires Admitted(s, task, target, after, change) && JournalFits(s)
    requires target in s.records ==> RecordFits(s, target)
    ensures JournalFits(Written(s, task, target, after, change))
  {
    var journal := s.journal + [change];
    ChangeExtends(s, task, target, after, change);
    assert journal[..|journal| - 1] == s.journal && journal[|journal| - 1] == change;
    AppendUnique(s.journal, change);
  }

  lemma {:induction false} AppendUnique(journal: seq<Change>, change: Change)
    requires IdentitiesUnique(journal)
    requires forall c | c in journal :: c.id != change.id && (change.reverses.Some? ==> c.reverses != change.reverses)
    ensures IdentitiesUnique(journal + [change])
  {
    assert forall i | 0 <= i < |journal| :: journal[i] in journal;
  }

  lemma {:induction false} WrittenLinkFits(s: State, task: Id, target: Target, after: Document, change: Change, key: LinkKey)
    requires Admitted(s, task, target, after, change) && key in Written(s, task, target, after, change).links
    requires ReferencesFit(s)
    ensures LinkFits(Written(s, task, target, after, change), key)
  {
    AddedLinks(WithoutOwner(s.links, target), target, after.data.links);
    if key.owner == target {
      var i :| 0 <= i < |after.data.links| && Others(after.data.links)[i] == key.other;
      assert after.data.links[i] in after.data.links;
    } else {
      assert key in s.links && LinkFits(s, key);
      if key.owner.kind == Assessment && target == Target(Claim, key.other) {
        assert HasDependents(s, task, target.id);
        assert Read(s, target) == after;
      }
    }
  }

  lemma {:induction false} WrittenHypotheses(s: State, task: Id, target: Target, after: Document, change: Change)
    requires HypothesesUnique(s) && Admitted(s, task, target, after, change)
    ensures HypothesesUnique(Written(s, task, target, after, change))
  {
    var t := Written(s, task, target, after, change);
    forall a, b | a in t.records && b in t.records && a.kind == Assessment && b.kind == Assessment
      && t.records[a].task == t.records[b].task && t.records[a].hypothesis == t.records[b].hypothesis
      ensures a == b
    {
    }
  }

  lemma {:induction false} WrittenRecordsFit(s: State, task: Id, target: Target, after: Document, change: Change)
    requires RecordsFit(s) && Admitted(s, task, target, after, change)
    ensures RecordsFit(Written(s, task, target, after, change))
  {
    var t := Written(s, task, target, after, change);
    forall other | other in t.records
      ensures RecordFits(t, other)
    {
      if other == target {
        WrittenRecordFits(s, task, target, after, change);
      } else {
        OtherRecordFits(s, task, target, after, change, other);
      }
    }
  }

  /** Every admitted write keeps the invariant. */
  lemma {:induction false} WrittenIsGood(s: State, task: Id, target: Target, after: Document, change: Change)
    requires Good(s) && Admitted(s, task, target, after, change)
    ensures Good(Written(s, task, target, after, change))
  {
    WrittenRecordsFit(s, task, target, after, change);
    var t := Written(s, task, target, after, change);
    forall key | key in t.links
      ensures LinkFits(t, key)
    {
      WrittenLinkFits(s, task, target, after, change, key);
    }
    WrittenHypotheses(s, task, target, after, change);
    WrittenJournalFits(s, task, target, after, change);
  }

  // ----- when a document may be stored

  /** Each link ends somewhere else, and there is one. */
  ghost predicate OneLinkPerEnd(links: seq<Link>) {
    links != [] && forall i, j | 0 <= i < j < |links| :: links[i].other != links[j].other
  }

  ghost predicate Cites(s: State, target: Target, claim: Id)
    requires target in s.records
  {
    target.kind == Assessment && exists link :: link in Read(s, target).data.links && link.other == claim
  }

  /** An assessment, whatever its lifecycle, cites the claim, or a cycle of the task lists it. */
  ghost predicate DependedOn(s: State, task: Id, claim: Id) {
    || (exists target :: target in s.records && Cites(s, target, claim))
    || (task in s.cycleClaims && claim in s.cycleClaims[task])
  }

  /** A claim cites sources of the task; an assessment cites active claims of the task and is the only one of a hypothesis
      of the task. */
  ghost predicate Fits(s: State, task: Id, target: Target, document: Document)
    requires task in s.tasks
  {
    && OneLinkPerEnd(document.data.links)
    && if target.kind == Claim then
         forall link | link in document.data.links :: link.other in s.sources && s.sources[link.other] == task
       else
         && (forall link | link in document.data.links ::
               var claim := Target(Claim, link.other);
               claim in s.records && s.records[claim].task == task && s.records[claim].lifecycle == Active)
         && document.hypothesis.Some? && document.hypothesis.value in s.tasks[task].hypotheses
         && forall other | other in s.records && other.kind == Assessment && other != target && s.records[other].task == task ::
              s.records[other].hypothesis != document.hypothesis
  }

  lemma {:induction false} DependentsCite(s: State, task: Id, claim: Id)
    requires ReferencesFit(s)
    ensures HasDependents(s, task, claim) <==> DependedOn(s, task, claim)
  {
    if key :| key in s.links && key.owner.kind == Assessment && key.other == claim {
      assert LinkFits(s, key);
      ReadIsCanonical(s.links, key.owner);
      var link := Link(claim, s.links[key].0, s.links[key].1);
      assert LinkKey(key.owner, link.other) == key;
      assert link in Read(s, key.owner).data.links && Cites(s, key.owner, claim);
    }
    if exists target :: target in s.records && Cites(s, target, claim) {
      var target :| target in s.records && Cites(s, target, claim);
      var link :| link in Read(s, target).data.links && link.other == claim;
      ReadIsCanonical(s.links, target);
      assert LinkKey(target, claim) in s.links;
    }
  }

  lemma {:induction false} UniqueByCount(links: seq<Link>)
    ensures UniqueOthers(links) <==> forall i, j | 0 <= i < j < |links| :: links[i].other != links[j].other
  {
    var others := Others(links);
    if UniqueOthers(links) {
      CountedDistinct(others);
      forall i, j | 0 <= i < j < |links|
        ensures links[i].other != links[j].other
      {
        assert others[i] != others[j];
      }
    } else if forall i, j | 0 <= i < j < |links| :: links[i].other != links[j].other {
      assert Distinct(others);
      DistinctCount(others);
    }
  }

  /** Exactly when a document may replace another one, or become the first. */
  lemma {:induction false} ValidExactly(
    s: State, task: Id, target: Target, before: Option<Document>, after: Document, allowRemoval: bool)
    requires ReferencesFit(s) && task in s.tasks
    ensures Validate(s, task, target, before, after, allowRemoval) == None <==>
      && Fits(s, task, target, after)
      && (target.kind == Claim && before.Some? ==>
            && (allowRemoval || Provenance(before.value.data) <= Provenance(after.data))
            && (before.value != after ==> !DependedOn(s, task, target.id)))
  {
    UniqueByCount(after.data.links);
    DependentsCite(s, task, target.id);
  }

  // ----- the two services only write what is admitted

  lemma {:induction false} ValidateAdmits(
    s: State, task: Id, target: Target, before: Option<Document>, after: Document, allowRemoval: bool)
    requires task in s.tasks && before == Before(s, target)
    requires Validate(s, task, target, before, after, allowRemoval) == None && Ordered(after.data.links)
    ensures after.data.links != [] && Canonical(after.data.links) && LinksFit(s, task, target, after.data.links)
    ensures target.kind == Claim && target in s.records && Read(s, target) != after ==> !HasDependents(s, task, target.id)
    ensures target.kind == Assessment ==> after.hypothesis.Some? && !HypothesisTaken(s, task, after.hypothesis, target)
  {
    UniqueIsCanonical(after.data.links);
  }

  lemma {:induction false} ProposedHypothesis(before: Option<Document>, p: Proposal)
    requires Proposed(before, p).Ok?
    requires before.Some? ==> (before.value.hypothesis.Some? <==> p.target.kind == Assessment)
    ensures var after := Proposed(before, p).value;
      (before.Some? ==> after.hypothesis == before.value.hypothesis) && (p.target.kind == Claim ==> after.hypothesis == None)
  {
  }

  /** An accepted proposal leaves a well-formed write behind. */
  lemma {:induction false} StageAdmits(s: State, authority: Authority, p: Proposal)
    requires Good(s) && authority.task in s.tasks && FindChange(s.journal, p.changeId) == None
    requires Prepare(s, authority, p).Ok?
    ensures var prepared := Prepare(s, authority, p).value;
      Admitted(s, authority.task, p.target, prepared.after,
        ChangeOf(s, authority, p.changeId, p.target, p.operation, p.reason, prepared.before, prepared.after, Propose(p), None))
  {
    var before := Before(s, p.target);
    var raw := Proposed(before, p).value;
    var after := raw.(data := raw.data.(links := SortLinks(raw.data.links)));
    SortOrders(raw.data.links);
    ValidateAdmits(s, authority.task, p.target, before, after, false);
    assert p.target in s.records ==> RecordFits(s, p.target);
    ProposedHypothesis(before, p);
  }

  /** The change a reversal may undo is the latest one of its target, and the stored state is still its result. */
  lemma {:induction false} CurrentChange(s: State, change: Change)
    requires Good(s) && change in s.journal && s.records[change.target].version == change.version
    ensures Latest(s.journal, change.target) == Some(change) && Read(s, change.target) == change.resulting
  {
    assert RecordFits(s, change.target);
    LatestIsNewest(s.journal, change);
  }

  lemma {:induction false} ReverseAdmits(s: State, authority: Authority, original: Id, reversal: Reversal, change: Change)
    requires Good(s) && authority.task in s.tasks && change in s.journal && change.id == original
    requires change.task == authority.task && FindReversal(s.journal, original) == None
    requires FindChange(s.journal, reversal.changeId) == None
    requires s.records[change.target].task == authority.task && s.records[change.target].version == change.version
    requires var before := Read(s, change.target);
      Validate(s, authority.task, change.target, Some(before), Undone(change, before), true) == None
    ensures var before := Read(s, change.target); var after := Undone(change, before);
      Admitted(s, authority.task, change.target, after,
        ChangeOf(s, authority, reversal.changeId, change.target, REVERSE, reversal.reason, Some(before), after,
          Undo(original, reversal), Some(original)))
  {
    CurrentChange(s, change);
    EntryExtends(s.journal, change);
    assert RecordFits(s, change.target);
    ReadIsCanonical(s.links, change.target);
    var before := Read(s, change.target);
    ValidateAdmits(s, authority.task, change.target, Some(before), Undone(change, before), true);
  }

  lemma {:induction false} StageKeepsGood(s: State, authority: Authority, p: Proposal)
    requires Good(s)
    ensures Good(StageSpec(s, authority, p).0)
  {
    if StageSpec(s, authority, p).0 != s {
      StageAdmits(s, authority, p);
      var prepared := Prepare(s, authority, p).value;
      WrittenIsGood(s, authority.task, p.target, prepared.after,
        ChangeOf(s, authority, p.changeId, p.target, p.operation, p.reason, prepared.before, prepared.after, Propose(p), None));
    }
  }

  lemma {:induction false} ReverseKeepsGood(s: State, authority: Authority, original: Id, reversal: Reversal)
    requires Good(s)
    ensures Good(ReverseSpec(s, authority, original, reversal).0)
  {
    if ReverseSpec(s, authority, original, reversal).0 != s {
      var change := FindChange(s.journal, original).value;
      ReverseAdmits(s, authority, original, reversal, change);
      var before := Read(s, change.target);
      var after := Undone(change, before);
      WrittenIsGood(s, authority.task, change.target, after,
        ChangeOf(s, authority, reversal.changeId, change.target, REVERSE, reversal.reason, Some(before), after,
          Undo(original, reversal), Some(original)));
    }
  }
}
