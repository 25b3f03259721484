/** What earlier cycles finished and what they left open. */
module PlannerLedger {
  import opened Basics
  import opened StableSort
  import opened PlannerEvidence
  import opened PlannerReviews
  import opened ResearchStatus

  /** An objective and its basis, with the references as sets: sorting them without repetition stands for the set. */
  datatype Identity = Identity(objective: string, basis: Basis, claims: set<Id>, sources: set<Id>)

  /** Objectives are the same when their stripped text and their basis agree, whatever the order of the references. */
  function IdentityOf(objective: string, basis: Basis): Identity {
    Identity(Strip(objective), basis.(claims := [], sources := []), Elements(basis.claims), Elements(basis.sources))
  }

  /** What one occurrence of an objective in a finished cycle says about it. */
  datatype Event = Finished(objective: string, basis: Basis) | Reopened(objective: string, basis: Basis) | Left(objective: string)

  /** The completed identities, and the open objectives in the order in which they were first opened. */
  datatype Ledger = Ledger(completed: set<Identity>, outstanding: seq<(string, Basis)>)

  function Put(entries: seq<(string, Basis)>, objective: string, basis: Basis): seq<(string, Basis)> {
    if entries == [] then [(objective, basis)]
    else if entries[0].0 == objective then [(objective, basis)] + entries[1..]
    else [entries[0]] + Put(entries[1..], objective, basis)
  }

  function Drop(entries: seq<(string, Basis)>, objective: string): seq<(string, Basis)> {
    if entries == [] then []
    else if entries[0].0 == objective then entries[1..]
    else [entries[0]] + Drop(entries[1..], objective)
  }

  function Apply(ledger: Ledger, event: Event): Ledger {
    match event
    case Finished(objective, basis) =>
      Ledger(ledger.completed + {IdentityOf(objective, basis)}, Drop(ledger.outstanding, objective))
    case Reopened(objective, basis) =>
      Ledger(ledger.completed - {IdentityOf(objective, basis)}, Put(ledger.outstanding, objective, basis))
    case Left(objective) => ledger.(outstanding := Put(ledger.outstanding, objective, Plain(IncompleteCycle)))
  }

  function Replay(events: seq<Event>): Ledger {
    if events == [] then Ledger({}, []) else Apply(Replay(events[..|events| - 1]), events[|events| - 1])
  }

  predicate Closed(cycle: Cycle) {
    cycle.status == Completed || cycle.status == Blocked || cycle.status == Failed
  }

  function StripAll(texts: seq<string>): set<string> {
    set text | text in texts :: Strip(text)
  }

  /** Objectives a finished cycle left unresolved; all of them when it did not complete and named none. */
  function UnresolvedOf(cycle: Cycle): set<string> {
    if cycle.status != Completed && cycle.unresolved == [] then StripAll(cycle.objectives) else StripAll(cycle.unresolved)
  }

  function BasisAt(cycle: Cycle, index: nat): Basis {
    if index < |cycle.planningBasis| then cycle.planningBasis[index] else Plain(IncompleteCycle)
  }

  /** A reviewed occurrence is a candidate again, so that a stale or negative review can reopen it. */
  function EventAt(cycle: Cycle, index: nat): seq<Event>
    requires index < |cycle.objectives|
  {
    var objective := Strip(cycle.objectives[index]);
    if LatestReview(cycle.reviews, index).Some? || objective in UnresolvedOf(cycle) then
      [Reopened(objective, BasisAt(cycle, index))]
    else if cycle.status == Completed then [Finished(objective, BasisAt(cycle, index))]
    else []
  }

  function EventsUpTo(cycle: Cycle, n: nat): seq<Event>
    requires n <= |cycle.objectives|
  {
    if n == 0 then [] else EventsUpTo(cycle, n - 1) + EventAt(cycle, n - 1)
  }

  /** Unresolved texts the cycle does not list among its objectives, in the order they are given. */
  function LeftOf(cycle: Cycle, texts: seq<string>): seq<Event> {
    if texts == [] then []
    else
      var last := Strip(texts[|texts| - 1]);
      LeftOf(cycle, texts[..|texts| - 1]) + if last != "" && last !in StripAll(cycle.objectives) then [Left(last)] else []
  }

  function EventsOf(cycle: Cycle): seq<Event> {
    EventsUpTo(cycle, |cycle.objectives|) + LeftOf(cycle, cycle.unresolved)
  }

  function EventsOfAll(cycles: seq<Cycle>): seq<Event> {
    if cycles == [] then []
    else
      var last := cycles[|cycles| - 1];
      EventsOfAll(cycles[..|cycles| - 1]) + if Closed(last) then EventsOf(last) else []
  }

  function OldestFirst(cycles: seq<Cycle>): seq<Cycle> {
    SortBy(cycles, (cycle: Cycle) => cycle.number)
  }

  /** Go through the finished cycles, oldest first, and keep the two collections up to date. */
  method ReadLedger(cycles: seq<Cycle>) returns (ledger: Ledger)
    ensures ledger == Replay(EventsOfAll(OldestFirst(cycles)))
  {
    var ordered := OldestFirst(cycles);
    ledger := Ledger({}, []);
    for n := 0 to |ordered|
      invariant ledger == Replay(EventsOfAll(ordered[..n]))
    {
      assert ordered[..n + 1][..n] == ordered[..n];
      if Closed(ordered[n]) {
        ledger := ReadCycle(ordered[n], ledger, EventsOfAll(ordered[..n]));
      } else {
        assert EventsOfAll(ordered[..n + 1]) == EventsOfAll(ordered[..n]);
      }
    }
    assert ordered[..|ordered|] == ordered;
  }

  lemma {:induction false} ReplayOne(events: seq<Event>, event: Event)
    ensures Replay(events + [event]) == Apply(Replay(events), event)
  {
    assert (events + [event])[..|events|] == events;
  }

  lemma {:induction false} Regroup(a: seq<Event>, b: seq<Event>, c: seq<Event>)
    ensures a + (b + c) == (a + b) + c && a + [] == a
  {
  }

  method ReadCycle(cycle: Cycle, before: Ledger, ghost past: seq<Event>) returns (ledger: Ledger)
    requires before == Replay(past)
    ensures ledger == Replay(past + EventsOf(cycle))
  {
    ghost var first, second := EventsUpTo(cycle, |cycle.objectives|), LeftOf(cycle, cycle.unresolved);
    var listed := ReadObjectives(cycle, before, past);
    ledger := ReadUnresolved(cycle, listed, past + first);
    Regroup(past, first, second);
  }

  function ApplyAll(ledger: Ledger, events: seq<Event>): Ledger
    decreases |events|
  {
    if events == [] then ledger else ApplyAll(Apply(ledger, events[0]), events[1..])
  }

  lemma {:induction false} ReplayAll(events: seq<Event>, more: seq<Event>)
    ensures Replay(events + more) == ApplyAll(Replay(events), more)
    decreases |more|
  {
    if more == [] {
      Regroup(events, [], []);
    } else {
      Regroup(events, [more[0]], more[1..]);
      assert [more[0]] + more[1..] == more;
      ReplayFirst(events, more[0], more[1..]);
      ReplayAll(events + [more[0]], more[1..]);
    }
  }

  lemma {:induction false} ReplayFirst(events: seq<Event>, event: Event, rest: seq<Event>)
    ensures ApplyAll(Replay(events), [event] + rest) == ApplyAll(Replay(events + [event]), rest)
  {
    ReplayOne(events, event);
    assert ([event] + rest)[1..] == rest;
  }

  /** The ledger after the first n objectives of a cycle. */
  ghost predicate ReadUpTo(cycle: Cycle, past: seq<Event>, n: nat, ledger: Ledger) {
    n <= |cycle.objectives| && ledger == Replay(past + EventsUpTo(cycle, n))
  }

  lemma {:induction false} NextObjective(cycle: Cycle, i: nat, past: seq<Event>, ledger: Ledger)
    requires i < |cycle.objectives| && ReadUpTo(cycle, past, i, ledger)
    ensures ReadUpTo(cycle, past, i + 1, ApplyAll(ledger, EventAt(cycle, i)))
  {
    Regroup(past, EventsUpTo(cycle, i), EventAt(cycle, i));
    ReplayAll(past + EventsUpTo(cycle, i), EventAt(cycle, i));
  }

  lemma {:induction false} NothingRead(cycle: Cycle, past: seq<Event>)
    ensures ReadUpTo(cycle, past, 0, Replay(past))
  {
    Regroup(past, [], []);
  }

  method ReadObjectives(cycle: Cycle, before: Ledger, ghost past: seq<Event>) returns (ledger: Ledger)
    requires before == Replay(past)
    ensures ReadUpTo(cycle, past, |cycle.objectives|, ledger)
  {
    ledger := before;
    NothingRead(cycle, past);
    for i := 0 to |cycle.objectives|
      invariant ReadUpTo(cycle, past, i, ledger)
    {
      NextObjective(cycle, i, past, ledger);
      ledger := ReadObjective(cycle, i, ledger);
    }
  }

  method ReadObjective(cycle: Cycle, i: nat, before: Ledger) returns (ledger: Ledger)
    requires i < |cycle.objectives|
    ensures ledger == ApplyAll(before, EventAt(cycle, i))
  {
    ledger := before;
    var objective := Strip(cycle.objectives[i]);
    var reason := BasisAt(cycle, i);
    var identity := IdentityOf(objective, reason);
    if LatestReview(cycle.reviews, i).Some? || objective in UnresolvedOf(cycle) {
      ledger := Ledger(ledger.completed - {identity}, Put(ledger.outstanding, objective, reason));
    } else if cycle.status == Completed {
      ledger := Ledger(ledger.completed + {identity}, Drop(ledger.outstanding, objective));
    }
  }

  lemma {:induction false} NextUnresolved(cycle: Cycle, i: nat, past: seq<Event>)
    requires i < |cycle.unresolved|
    ensures var objective := Strip(cycle.unresolved[i]);
      Replay(past + LeftOf(cycle, cycle.unresolved[..i + 1])) ==
        if objective != "" && objective !in StripAll(cycle.objectives)
        then Apply(Replay(past + LeftOf(cycle, cycle.unresolved[..i])), Left(objective))
        else Replay(past + LeftOf(cycle, cycle.unresolved[..i]))
  {
    var front := LeftOf(cycle, cycle.unresolved[..i]);
    assert cycle.unresolved[..i + 1][..i] == cycle.unresolved[..i];
    var event := Left(Strip(cycle.unresolved[i]));
    Regroup(past, front, [event]);
    Regroup(front, [], []);
    ReplayOne(past + front, event);
  }

  method ReadUnresolved(cycle: Cycle, before: Ledger, ghost past: seq<Event>) returns (ledger: Ledger)
    requires before == Replay(past)
    ensures ledger == Replay(past + LeftOf(cycle, cycle.unresolved))
  {
    ledger := before;
    Regroup(past, [], []);
    for i := 0 to |cycle.unresolved|
      invariant ledger == Replay(past + LeftOf(cycle, cycle.unresolved[..i]))
    {
      NextUnresolved(cycle, i, past);
      var objective := Strip(cycle.unresolved[i]);
      if objective != "" && objective !in StripAll(cycle.objectives) {
        ledger := ledger.(outstanding := Put(ledger.outstanding, objective, Plain(IncompleteCycle)));
      }
    }
    assert cycle.unresolved[..|cycle.unresolved|] == cycle.unresolved;
  }

  /** The event that came last among those marked. */
  ghost predicate LastOf(marks: seq<bool>, i: nat) {
    i < |marks| && marks[i] && forall j | i < j < |marks| :: !marks[j]
  }

  lemma {:induction false} LastOfAppend(marks: seq<bool>, mark: bool)
    ensures mark ==> forall i :: LastOf(marks + [mark], i) <==> i == |marks|
    ensures !mark ==> forall i :: LastOf(marks + [mark], i) <==> LastOf(marks, i)
  {
    var all := marks + [mark];
    if mark {
      assert all[|marks|];
    } else {
      forall i: nat
        ensures LastOf(all, i) <==> LastOf(marks, i)
      {
        assert forall j | 0 <= j < |marks| :: all[j] == marks[j];
      }
    }
  }

  predicate AboutIdentity(event: Event, identity: Identity) {
    !event.Left? && IdentityOf(event.objective, event.basis) == identity
  }

  ghost function MarkIdentity(events: seq<Event>, identity: Identity): seq<bool> {
    seq(|events|, i requires 0 <= i < |events| => AboutIdentity(events[i], identity))
  }

  ghost function MarkObjective(events: seq<Event>, objective: string): seq<bool> {
    seq(|events|, i requires 0 <= i < |events| => events[i].objective == objective)
  }

  lemma {:induction false} ApplyCompleted(ledger: Ledger, event: Event, identity: Identity)
    ensures identity in Apply(ledger, event).completed <==>
      if AboutIdentity(event, identity) then event.Finished? else identity in ledger.completed
  {
  }

  /** An identity counts as completed exactly when the last occurrence about it was finished. */
  lemma {:induction false} CompletedIsLast(events: seq<Event>, identity: Identity)
    ensures identity in Replay(events).completed <==>
      exists i: nat :: LastOf(MarkIdentity(events, identity), i) && events[i].Finished?
  {
    if events != [] {
      var n := |events| - 1;
      CompletedIsLast(events[..n], identity);
      ApplyCompleted(Replay(events[..n]), events[n], identity);
      LastOfAppend(MarkIdentity(events[..n], identity), AboutIdentity(events[n], identity));
      MarkIdentitySplit(events, identity);
    }
  }

  lemma {:induction false} MarkIdentitySplit(events: seq<Event>, identity: Identity)
    requires events != []
    ensures var n := |events| - 1;
      MarkIdentity(events, identity) == MarkIdentity(events[..n], identity) + [AboutIdentity(events[n], identity)]
  {
  }

  predicate Keys(entries: seq<(string, Basis)>, objective: string) {
    exists i | 0 <= i < |entries| :: entries[i].0 == objective
  }

  ghost predicate UniqueKeys(entries: seq<(string, Basis)>) {
    forall i, j | 0 <= i < j < |entries| :: entries[i].0 != entries[j].0
  }

  lemma {:induction false} PutKeys(entries: seq<(string, Basis)>, objective: string, basis: Basis)
    requires UniqueKeys(entries)
    ensures UniqueKeys(Put(entries, objective, basis)) && (objective, basis) in Put(entries, objective, basis)
    ensures forall other :: Keys(Put(entries, objective, basis), other) <==> Keys(entries, other) || other == objective
  {
    if entries != [] {
      var head, rest := entries[0], entries[1..];
      assert entries == [head] + rest;
      if head.0 != objective {
        PutKeys(rest, objective, basis);
        ConsKeys(head, Put(rest, objective, basis));
      } else {
        ConsKeys((objective, basis), rest);
      }
      ConsKeys(head, rest);
    }
  }

  lemma {:induction false} ConsKeys(head: (string, Basis), rest: seq<(string, Basis)>)
    ensures forall other :: Keys([head] + rest, other) <==> Keys(rest, other) || other == head.0
    ensures UniqueKeys([head] + rest) <==> UniqueKeys(rest) && !Keys(rest, head.0)
  {
    var all := [head] + rest;
    assert all[0] == head && forall i | 0 <= i < |rest| :: all[i + 1] == rest[i];
  }

  lemma {:induction false} DropKeys(entries: seq<(string, Basis)>, objective: string)
    requires UniqueKeys(entries)
    ensures UniqueKeys(Drop(entries, objective))
    ensures forall other :: Keys(Drop(entries, objective), other) <==> Keys(entries, other) && other != objective
  {
    if entries != [] {
      var head, rest := entries[0], entries[1..];
      assert entries == [head] + rest;
      ConsKeys(head, rest);
      if head.0 != objective {
        DropKeys(rest, objective);
        ConsKeys(head, Drop(rest, objective));
      }
    }
  }

  lemma {:induction false} ApplyOutstanding(ledger: Ledger, event: Event, objective: string)
    requires UniqueKeys(ledger.outstanding)
    ensures UniqueKeys(Apply(ledger, event).outstanding)
    ensures Keys(Apply(ledger, event).outstanding, objective) <==>
      if event.objective == objective then !event.Finished? else Keys(ledger.outstanding, objective)
  {
    match event
    case Finished(o, _) => DropKeys(ledger.outstanding, o);
    case Reopened(o, b) => PutKeys(ledger.outstanding, o, b);
    case Left(o) => PutKeys(ledger.outstanding, o, Plain(IncompleteCycle));
  }

  /** An objective is outstanding exactly when the last occurrence of it was not finished; each is listed once. */
  lemma {:induction false} OutstandingIsLast(events: seq<Event>, objective: string)
    ensures UniqueKeys(Replay(events).outstanding)
    ensures Keys(Replay(events).outstanding, objective) <==>
      exists i: nat :: LastOf(MarkObjective(events, objective), i) && !events[i].Finished?
  {
    if events != [] {
      var n := |events| - 1;
      OutstandingIsLast(events[..n], objective);
      ApplyOutstanding(Replay(events[..n]), events[n], objective);
      LastOfAppend(MarkObjective(events[..n], objective), events[n].objective == objective);
      MarkObjectiveSplit(events, objective);
    }
  }

  lemma {:induction false} MarkObjectiveSplit(events: seq<Event>, objective: string)
    requires events != []
    ensures var n := |events| - 1;
      MarkObjective(events, objective) == MarkObjective(events[..n], objective) + [events[n].objective == objective]
  {
  }

  // ----- the order in which unresolved objectives are visited

  /** The same cycle, with its unresolved objectives visited in another order or more than once. */
  ghost predicate Rearranged(a: Cycle, b: Cycle) {
    b == a.(unresolved := b.unresolved) && StripAll(a.unresolved) == StripAll(b.unresolved)
  }

  ghost predicate AllRearranged(a: seq<Cycle>, b: seq<Cycle>) {
    |a| == |b| && forall i | 0 <= i < |a| :: Rearranged(a[i], b[i])
  }

  /** The same completed identities and open objectives, perhaps in another order. */
  ghost predicate SameLedger(a: Ledger, b: Ledger) {
    && a.completed == b.completed && UniqueKeys(a.outstanding) && UniqueKeys(b.outstanding)
    && forall entry :: entry in a.outstanding <==> entry in b.outstanding
  }

  lemma {:induction false} PutEntries(entries: seq<(string, Basis)>, objective: string, basis: Basis, entry: (string, Basis))
    requires UniqueKeys(entries)
    ensures entry in Put(entries, objective, basis) <==>
      if entry.0 == objective then entry.1 == basis else entry in entries
  {
    if entries != [] {
      var head, rest := entries[0], entries[1..];
      assert entries == [head] + rest;
      ConsKeys(head, rest);
      if head.0 == objective {
        assert entry in rest ==> Keys(rest, entry.0);
      } else {
        PutEntries(rest, objective, basis, entry);
      }
    }
  }

  lemma {:induction false} DropEntries(entries: seq<(string, Basis)>, objective: string, entry: (string, Basis))
    requires UniqueKeys(entries)
    ensures entry in Drop(entries, objective) <==> entry.0 != objective && entry in entries
  {
    if entries != [] {
      var head, rest := entries[0], entries[1..];
      assert entries == [head] + rest;
      ConsKeys(head, rest);
      if head.0 == objective {
        assert entry in rest ==> Keys(rest, entry.0);
      } else {
        DropEntries(rest, objective, entry);
      }
    }
  }

  lemma {:induction false} ApplySame(a: Ledger, b: Ledger, event: Event)
    requires SameLedger(a, b)
    ensures SameLedger(Apply(a, event), Apply(b, event))
  {
    ApplyOutstanding(a, event, event.objective);
    ApplyOutstanding(b, event, event.objective);
    forall entry: (string, Basis)
      ensures entry in Apply(a, event).outstanding <==> entry in Apply(b, event).outstanding
    {
      match event
      case Finished(o, _) =>
        DropEntries(a.outstanding, o, entry);
        DropEntries(b.outstanding, o, entry);
      case Reopened(o, basis) =>
        PutEntries(a.outstanding, o, basis, entry);
        PutEntries(b.outstanding, o, basis, entry);
      case Left(o) =>
        PutEntries(a.outstanding, o, Plain(IncompleteCycle), entry);
        PutEntries(b.outstanding, o, Plain(IncompleteCycle), entry);
    }
  }

  lemma {:induction false} ApplyAllSame(a: Ledger, b: Ledger, events: seq<Event>)
    requires SameLedger(a, b)
    ensures SameLedger(ApplyAll(a, events), ApplyAll(b, events))
    decreases |events|
  {
    if events != [] {
      ApplySame(a, b, events[0]);
      ApplyAllSame(Apply(a, events[0]), Apply(b, events[0]), events[1..]);
    }
  }

  /** An unresolved text that the cycle does not list among its objectives. */
  predicate LeftOver(cycle: Cycle, texts: seq<string>, objective: string) {
    objective != "" && objective in StripAll(texts) && objective !in StripAll(cycle.objectives)
  }

  lemma {:induction false} ApplyOne(ledger: Ledger, events: seq<Event>, event: Event)
    ensures ApplyAll(ledger, events + [event]) == Apply(ApplyAll(ledger, events), event)
    ensures ApplyAll(ledger, events + []) == ApplyAll(ledger, events)
    decreases |events|
  {
    assert events + [] == events;
    if events == [] {
      assert [event][1..] == [];
    } else {
      assert (events + [event])[1..] == events[1..] + [event];
      ApplyOne(Apply(ledger, events[0]), events[1..], event);
    }
  }

  /** Whatever their order, the unresolved texts leave the same entries. */
  lemma {:induction false} LeftEntries(ledger: Ledger, cycle: Cycle, texts: seq<string>)
    requires UniqueKeys(ledger.outstanding)
    ensures var after := ApplyAll(ledger, LeftOf(cycle, texts));
      && after.completed == ledger.completed && UniqueKeys(after.outstanding)
      && forall entry :: entry in after.outstanding <==>
           if LeftOver(cycle, texts, entry.0) then entry.1 == Plain(IncompleteCycle) else entry in ledger.outstanding
  {
    if texts != [] {
      var n := |texts| - 1;
      var front, last := texts[..n], Strip(texts[n]);
      var before := ApplyAll(ledger, LeftOf(cycle, front));
      assert texts == front + [texts[n]];
      LeftEntries(ledger, cycle, front);
      ApplyOne(ledger, LeftOf(cycle, front), Left(last));
      assert StripAll(texts) == StripAll(front) + {last};
      if LeftOver(cycle, texts, last) {
        PutKeys(before.outstanding, last, Plain(IncompleteCycle));
        forall entry: (string, Basis)
          ensures entry in Put(before.outstanding, last, Plain(IncompleteCycle)) <==>
            if LeftOver(cycle, texts, entry.0) then entry.1 == Plain(IncompleteCycle) else entry in ledger.outstanding
        {
          PutEntries(before.outstanding, last, Plain(IncompleteCycle), entry);
        }
      }
    }
  }

  lemma {:induction false} SameEvents(a: Cycle, b: Cycle, n: nat)
    requires Rearranged(a, b) && n <= |a.objectives|
    ensures UnresolvedOf(a) == UnresolvedOf(b) && EventsUpTo(a, n) == EventsUpTo(b, n)
  {
    assert a.unresolved != [] ==> Strip(a.unresolved[0]) in StripAll(a.unresolved);
    assert b.unresolved != [] ==> Strip(b.unresolved[0]) in StripAll(b.unresolved);
    if n > 0 {
      SameEvents(a, b, n - 1);
    }
  }

  lemma {:induction false} CycleSame(past: seq<Event>, other: seq<Event>, a: Cycle, b: Cycle)
    requires Rearranged(a, b) && SameLedger(Replay(past), Replay(other))
    ensures SameLedger(Replay(past + EventsOf(a)), Replay(other + EventsOf(b)))
  {
    var listed := EventsUpTo(a, |a.objectives|);
    var lefts, rights := LeftOf(a, a.unresolved), LeftOf(b, b.unresolved);
    SameEvents(a, b, |a.objectives|);
    Regroup(past, listed, lefts);
    Regroup(other, listed, rights);
    ReplayAll(past, listed);
    ReplayAll(other, listed);
    ReplayAll(past + listed, lefts);
    ReplayAll(other + listed, rights);
    ApplyAllSame(Replay(past), Replay(other), listed);
    LeftEntries(Replay(past + listed), a, a.unresolved);
    LeftEntries(Replay(other + listed), b, b.unresolved);
    assert forall objective :: LeftOver(a, a.unresolved, objective) <==> LeftOver(b, b.unresolved, objective);
  }

  /** The ledger does not depend on the order in which the unresolved objectives of a cycle are visited. */
  lemma {:induction false} LedgerInAnyOrder(a: seq<Cycle>, b: seq<Cycle>)
    requires AllRearranged(a, b)
    ensures SameLedger(Replay(EventsOfAll(a)), Replay(EventsOfAll(b)))
  {
    if a != [] {
      var n := |a| - 1;
      LedgerInAnyOrder(a[..n], b[..n]);
      assert Rearranged(a[n], b[n]);
      if Closed(a[n]) {
        CycleSame(EventsOfAll(a[..n]), EventsOfAll(b[..n]), a[n], b[n]);
      } else {
        assert EventsOfAll(a) == EventsOfAll(a[..n]) && EventsOfAll(b) == EventsOfAll(b[..n]);
      }
    }
  }
}
