/** When each request on cycles is accepted and what exactly it records. */
module CycleEffects {
  import opened Basics
  import opened ResearchStatus
  import opened CycleModel
  import opened CycleInvariant

  // ----- what a list of results records

  ghost function SourcesFor(results: seq<ObjectiveResult>, index: nat): set<Id> {
    set i, x | 0 <= i < |results| && results[i].index == index && x in results[i].sources :: x
  }

  ghost function ClaimsFor(results: seq<ObjectiveResult>, index: nat): set<Id> {
    set i, x | 0 <= i < |results| && results[i].index == index && x in results[i].claims :: x
  }

  ghost function IndexesOf(results: seq<ObjectiveResult>): set<nat> {
    set i | 0 <= i < |results| :: results[i].index
  }

  /** For this index the results have gained the sources and claims, and no others. */
  ghost predicate GainedFor(a: seq<ObjectiveResult>, b: seq<ObjectiveResult>, index: nat, sources: set<Id>, claims: set<Id>) {
    SourcesFor(b, index) == SourcesFor(a, index) + sources && ClaimsFor(b, index) == ClaimsFor(a, index) + claims
  }

  lemma {:induction false} ConsResults(head: ObjectiveResult, rest: seq<ObjectiveResult>, index: nat)
    ensures IndexesOf([head] + rest) == {head.index} + IndexesOf(rest)
    ensures SourcesFor([head] + rest, index) == (if head.index == index then Elements(head.sources) else {}) + SourcesFor(rest, index)
    ensures ClaimsFor([head] + rest, index) == (if head.index == index then Elements(head.claims) else {}) + ClaimsFor(rest, index)
  {
    var all := [head] + rest;
    assert all[0] == head && forall i | 0 <= i < |rest| :: all[i + 1] == rest[i];
    forall x
      ensures x in SourcesFor(all, index) <==> (head.index == index && x in head.sources) || x in SourcesFor(rest, index)
      ensures x in ClaimsFor(all, index) <==> (head.index == index && x in head.claims) || x in ClaimsFor(rest, index)
    {
      if x in SourcesFor(rest, index) {
        var i :| 0 <= i < |rest| && rest[i].index == index && x in rest[i].sources;
        assert all[i + 1].index == index && x in all[i + 1].sources;
      }
      if x in ClaimsFor(rest, index) {
        var i :| 0 <= i < |rest| && rest[i].index == index && x in rest[i].claims;
        assert all[i + 1].index == index && x in all[i + 1].claims;
      }
    }
    forall k
      ensures k in IndexesOf(all) <==> k == head.index || k in IndexesOf(rest)
    {
      if k in IndexesOf(rest) {
        var i :| 0 <= i < |rest| && rest[i].index == k;
        assert all[i + 1].index == k;
      }
    }
  }

  lemma {:induction false} CombineGains(r: ObjectiveResult, sources: seq<Id>, claims: seq<Id>)
    ensures Combine(r, sources, claims).index == r.index
    ensures Elements(Combine(r, sources, claims).sources) == Elements(r.sources) + Elements(sources)
    ensures Elements(Combine(r, sources, claims).claims) == Elements(r.claims) + Elements(claims)
  {
    DedupFacts(r.sources + sources);
    DedupFacts(r.claims + claims);
  }

  lemma {:induction false} MergeIntoGains(results: seq<ObjectiveResult>, at: nat, sources: seq<Id>, claims: seq<Id>, index: nat)
    ensures var more := MergeInto(results, at, sources, claims);
      && IndexesOf(more) == IndexesOf(results) + {at}
      && GainedFor(results, more, index, if index == at then Elements(sources) else {}, if index == at then Elements(claims) else {})
  {
    var first := ObjectiveResult(at, [], []);
    if results == [] {
      CombineGains(first, sources, claims);
      ConsResults(Combine(first, sources, claims), [], index);
      assert [Combine(first, sources, claims)] + [] == [Combine(first, sources, claims)];
    } else {
      var head, rest := results[0], results[1..];
      assert results == [head] + rest;
      ConsResults(head, rest, index);
      if head.index == at {
        CombineGains(head, sources, claims);
        ConsResults(Combine(head, sources, claims), rest, index);
      } else {
        MergeIntoGains(rest, at, sources, claims, index);
        ConsResults(head, MergeInto(rest, at, sources, claims), index);
      }
    }
  }

  lemma {:induction false} MergeSameGains(
    results: seq<ObjectiveResult>, indices: seq<nat>, sources: seq<Id>, claims: seq<Id>, index: nat)
    ensures var more := MergeSame(results, indices, sources, claims);
      && IndexesOf(more) == IndexesOf(results) + Elements(indices)
      && GainedFor(results, more, index, if index in indices then Elements(sources) else {},
                   if index in indices then Elements(claims) else {})
  {
    if indices != [] {
      var n := |indices| - 1;
      assert indices == indices[..n] + [indices[n]];
      assert Elements(indices) == Elements(indices[..n]) + {indices[n]};
      MergeSameGains(results, indices[..n], sources, claims, index);
      MergeIntoGains(MergeSame(results, indices[..n], sources, claims), indices[n], sources, claims, index);
    }
  }

  lemma {:induction false} MergeAllGains(results: seq<ObjectiveResult>, items: seq<ObjectiveResult>, index: nat)
    ensures var more := MergeAll(results, items);
      && IndexesOf(more) == IndexesOf(results) + IndexesOf(items)
      && GainedFor(results, more, index, SourcesFor(items, index), ClaimsFor(items, index))
  {
    if items != [] {
      var n := |items| - 1;
      assert items == items[..n] + [items[n]];
      MergeAllGains(results, items[..n], index);
      MergeIntoGains(MergeAll(results, items[..n]), items[n].index, items[n].sources, items[n].claims, index);
      SnocResults(items[..n], items[n], index);
    }
  }

  lemma {:induction false} SnocResults(front: seq<ObjectiveResult>, last: ObjectiveResult, index: nat)
    ensures IndexesOf(front + [last]) == IndexesOf(front) + {last.index}
    ensures SourcesFor(front + [last], index) == SourcesFor(front, index) + if last.index == index then Elements(last.sources) else {}
    ensures ClaimsFor(front + [last], index) == ClaimsFor(front, index) + if last.index == index then Elements(last.claims) else {}
  {
    if front == [] {
      assert [] + [last] == [last] + [];
      ConsResults(last, [], index);
    } else {
      assert front == [front[0]] + front[1..] && front + [last] == [front[0]] + (front[1..] + [last]);
      SnocResults(front[1..], last, index);
      ConsResults(front[0], front[1..], index);
      ConsResults(front[0], front[1..] + [last], index);
    }
  }

  lemma {:induction false} UniqueCount(results: seq<ObjectiveResult>)
    requires UniqueIndexes(results)
    ensures |IndexesOf(results)| == |results|
  {
    if results != [] {
      var n := |results| - 1;
      assert results == results[..n] + [results[n]];
      var front := IndexesOf(results[..n]);
      SnocResults(results[..n], results[n], 0);
      UniqueCount(results[..n]);
      assert results[n].index !in front;
      assert |front + {results[n].index}| == |front| + 1;
    }
  }

  lemma {:induction false} DedupCount<T>(a: seq<T>, b: seq<T>)
    ensures Elements(Dedup(a + b)) == Elements(a) + Elements(b) && |Dedup(a + b)| == |Elements(a) + Elements(b)|
  {
    DedupFacts(a + b);
    assert Elements(Dedup(a + b)) == Elements(a) + Elements(b);
    DistinctCount(Dedup(a + b));
  }

  // ----- progress

  /** One cycle was replaced, and one attempt. */
  ghost predicate OnlyReplaced(s: State, t: State, task: Id, i: nat, attempt: Id)
    requires task in s.tasks && i < |s.tasks[task].cycles| && attempt in s.attempts
  {
    && task in t.tasks && i < |t.tasks[task].cycles| && attempt in t.attempts
    && t == s.(tasks := s.tasks[task := s.tasks[task].(cycles := s.tasks[task].cycles[i := t.tasks[task].cycles[i]])],
               attempts := s.attempts[attempt := t.attempts[attempt]])
  }

  /** The cycle has recorded the sources and claims for the objectives given, and nothing else. */
  ghost predicate Recorded(a: Cycle, b: Cycle, indices: seq<nat>, sources: set<Id>, claims: set<Id>) {
    && b == a.(evidence := b.evidence, claims := b.claims, results := b.results, attempted := b.attempted, unresolved := a.objectives)
    && a.evidence <= b.evidence && Distinct(b.evidence) && Elements(b.evidence) == Elements(a.evidence) + sources
    && a.claims <= b.claims && Distinct(b.claims) && Elements(b.claims) == Elements(a.claims) + claims
    && UniqueIndexes(b.results) && ResultsExtend(a.results, b.results)
    && IndexesOf(b.results) == IndexesOf(a.results) + Elements(indices)
    && (forall index :: GainedFor(a.results, b.results, index, if index in indices then sources else {},
                                  if index in indices then claims else {}))
    && forall text :: text in b.attempted <==>
         exists index :: index in IndexesOf(b.results) && index < |a.objectives| && a.objectives[index] == text
  }

  /** A running attempt of the investigation works for the active cycle, the objectives exist, and no bound is exceeded. */
  ghost predicate MayProgress(s: State, task: Id, req: ProgressRequest, cycle: Cycle)
    requires task in s.tasks
  {
    && s.tasks[task].status == TaskActive && cycle.status == Active
    && req.attempt in s.attempts && s.attempts[req.attempt].task == task && s.attempts[req.attempt].status == RUNNING
    && req.indices != [] && (forall index | index in req.indices :: index < |cycle.objectives|)
    && |IndexesOf(cycle.results) + Elements(req.indices)| <= 3
    && |Elements(cycle.evidence) + Elements(req.sources)| <= 100 && |Elements(cycle.claims) + Elements(req.claims)| <= 100
  }

  lemma {:induction false} FoundAt(s: State, task: Id, number: int, i: nat)
    requires Sound(s) && HasCycle(s, task, number, i)
    ensures IndexOf(s.tasks[task].cycles, number) == Some(i)
  {
    assert TaskSound(s.tasks[task]);
  }

  lemma {:induction false} IndexInResults(results: seq<ObjectiveResult>, bound: nat)
    ensures (exists r | r in results :: r.index >= bound) <==> exists index :: index in IndexesOf(results) && index >= bound
  {
    if index :| index in IndexesOf(results) && index >= bound {
      var i :| 0 <= i < |results| && results[i].index == index;
      assert results[i] in results;
    }
    if r :| r in results && r.index >= bound {
      var i :| 0 <= i < |results| && results[i] == r;
      assert results[i].index in IndexesOf(results);
    }
  }

  lemma {:induction false} ResultsInBounds(cycle: Cycle)
    requires CycleSound(cycle)
    ensures forall index | index in IndexesOf(cycle.results) :: index < |cycle.objectives|
  {
    forall index | index in IndexesOf(cycle.results)
      ensures index < |cycle.objectives|
    {
      var i :| 0 <= i < |cycle.results| && cycle.results[i].index == index;
      assert cycle.results[i] in cycle.results && ResultSound(cycle, cycle.results[i]);
    }
  }

  /** Progress fits a sound cycle exactly when the objectives exist and the bounds hold. */
  lemma {:induction false} FitsExactly(cycle: Cycle, indices: seq<nat>, sources: seq<Id>, claims: seq<Id>)
    requires CycleSound(cycle)
    ensures Progressed(cycle, indices, sources, claims).Some? <==>
      && indices != [] && (forall index | index in indices :: index < |cycle.objectives|)
      && |IndexesOf(cycle.results) + Elements(indices)| <= 3
      && |Elements(cycle.evidence) + Elements(sources)| <= 100 && |Elements(cycle.claims) + Elements(claims)| <= 100
  {
    var results := MergeSame(cycle.results, indices, sources, claims);
    MergeSameGains(cycle.results, indices, sources, claims, 0);
    DedupCount(cycle.evidence, sources);
    DedupCount(cycle.claims, claims);
    MergedUnique(cycle, indices, sources, claims);
    UniqueCount(results);
    IndexInResults(results, |cycle.objectives|);
    ResultsInBounds(cycle);
    assert forall index :: index in Elements(indices) <==> index in indices;
  }

  lemma {:induction false} MergedUnique(cycle: Cycle, indices: seq<nat>, sources: seq<Id>, claims: seq<Id>)
    requires CycleSound(cycle)
    ensures UniqueIndexes(MergeSame(cycle.results, indices, sources, claims))
    ensures ResultsExtend(cycle.results, MergeSame(cycle.results, indices, sources, claims))
  {
    ListsGrow(cycle, sources, claims);
    MergeSameFacts(cycle.results, indices, sources, claims,
      Elements(Dedup(cycle.evidence + sources)), Elements(Dedup(cycle.claims + claims)));
  }

  lemma {:induction false} AttemptedExactly(cycle: Cycle, results: seq<ObjectiveResult>, text: string)
    requires forall r | r in results :: r.index < |cycle.objectives|
    ensures text in AttemptedOf(cycle, results) <==>
      exists index :: index in IndexesOf(results) && index < |cycle.objectives| && cycle.objectives[index] == text
  {
    var named := seq(|results|, i requires 0 <= i < |results| => cycle.objectives[results[i].index]);
    DedupFacts(named);
    if index :| index in IndexesOf(results) && index < |cycle.objectives| && cycle.objectives[index] == text {
      var i :| 0 <= i < |results| && results[i].index == index;
      assert named[i] == text;
    }
    if text in named {
      var i :| 0 <= i < |named| && named[i] == text;
      assert results[i].index in IndexesOf(results);
    }
  }

  lemma {:induction false} ProgressedRecords(cycle: Cycle, indices: seq<nat>, sources: seq<Id>, claims: seq<Id>)
    requires CycleSound(cycle) && Progressed(cycle, indices, sources, claims).Some?
    ensures Recorded(cycle, Progressed(cycle, indices, sources, claims).value, indices, Elements(sources), Elements(claims))
  {
    var b := Progressed(cycle, indices, sources, claims).value;
    DedupExtends(cycle.evidence, sources);
    DedupExtends(cycle.claims, claims);
    DedupCount(cycle.evidence, sources);
    DedupCount(cycle.claims, claims);
    MergedUnique(cycle, indices, sources, claims);
    forall index
      ensures IndexesOf(b.results) == IndexesOf(cycle.results) + Elements(indices)
      ensures GainedFor(cycle.results, b.results, index, if index in indices then Elements(sources) else {},
                        if index in indices then Elements(claims) else {})
    {
      MergeSameGains(cycle.results, indices, sources, claims, index);
    }
    assert IndexesOf(b.results) == IndexesOf(cycle.results) + Elements(indices) by {
      MergeSameGains(cycle.results, indices, sources, claims, 0);
    }
    forall text
      ensures text in b.attempted <==>
        exists index :: index in IndexesOf(b.results) && index < |cycle.objectives| && cycle.objectives[index] == text
    {
      AttemptedExactly(cycle, b.results, text);
    }
  }

  /** Progress is accepted exactly under these conditions, and then the cycle and the attempt record what was submitted and
      nothing else. */
  lemma {:induction false} ProgressExactly(s: State, task: Id, req: ProgressRequest, i: nat)
    requires Sound(s) && HasCycle(s, task, req.number, i)
    ensures var (t, r) := ProgressSpec(s, task, req); var cycle := s.tasks[task].cycles[i];
      if MayProgress(s, task, req, cycle) then
        && r.Ok? && OnlyReplaced(s, t, task, i, req.attempt)
        && Recorded(cycle, t.tasks[task].cycles[i], req.indices, Elements(req.sources), Elements(req.claims))
        && var (a, b) := (s.attempts[req.attempt], t.attempts[req.attempt]);
           && b == a.(evidence := b.evidence, claims := b.claims, stage := req.stage)
           && Elements(b.evidence) == Elements(a.evidence) + Elements(req.sources) && Distinct(b.evidence)
           && Elements(b.claims) == Elements(a.claims) + Elements(req.claims) && Distinct(b.claims)
      else r.Err? && t == s
  {
    var cycle := s.tasks[task].cycles[i];
    FoundAt(s, task, req.number, i);
    assert TaskSound(s.tasks[task]);
    FitsExactly(cycle, req.indices, req.sources, req.claims);
    if MayProgress(s, task, req, cycle) {
      ProgressedRecords(cycle, req.indices, req.sources, req.claims);
      var a := s.attempts[req.attempt];
      DedupCount(a.evidence, req.sources);
      DedupCount(a.claims, req.claims);
      DedupFacts(a.evidence + req.sources);
      DedupFacts(a.claims + req.claims);
    }
  }

  // ----- outcomes

  /** What an outcome may say of one objective, with what was committed before: the objective was attempted, its sources and
      claims are those of the cycle, and each claim is an active one that cites one of its sources. */
  ghost predicate Supported(cycle: Cycle, o: Outcome, snapshot: Snapshot, index: nat) {
    && index < |cycle.objectives| && (cycle.objectives[index] in cycle.attempted || cycle.objectives[index] in o.attempted)
    && SourcesFor(cycle.results, index) + SourcesFor(o.results, index) <= Elements(cycle.evidence) + Elements(o.evidence)
    && ClaimsFor(cycle.results, index) + ClaimsFor(o.results, index) <= Elements(cycle.claims) + Elements(o.claims)
    && forall claim | claim in ClaimsFor(cycle.results, index) + ClaimsFor(o.results, index) ::
         claim in snapshot.claims && exists source ::
           source in SourcesFor(cycle.results, index) + SourcesFor(o.results, index) && source in snapshot.claims[claim]
  }

  /** The outcome together with what was committed fits the cycle and the investigation. */
  ghost predicate MayEnd(cycle: Cycle, o: Outcome, snapshot: Snapshot) {
    && cycle.status == Active && UniqueIndexes(o.results)
    && |Elements(cycle.evidence) + Elements(o.evidence)| <= 100 && |Elements(cycle.claims) + Elements(o.claims)| <= 100
    && |Elements(cycle.attempted) + Elements(o.attempted)| <= 3 && |IndexesOf(cycle.results) + IndexesOf(o.results)| <= 3
    && Elements(cycle.evidence) + Elements(o.evidence) <= snapshot.sources
    && Elements(cycle.claims) + Elements(o.claims) <= snapshot.claims.Keys
    && Elements(cycle.attempted) + Elements(o.attempted) <= Elements(cycle.objectives)
    && Elements(o.unresolved) <= Elements(cycle.objectives)
    && forall index | index in IndexesOf(cycle.results) + IndexesOf(o.results) :: Supported(cycle, o, snapshot, index)
  }

  /** The cycle has ended as the outcome says, with everything committed before and everything the outcome adds. */
  ghost predicate EndedAs(a: Cycle, b: Cycle, o: Outcome) {
    && b == a.(status := o.status, summary := o.summary, unresolved := o.unresolved, evidence := b.evidence, claims := b.claims,
               results := b.results, attempted := b.attempted)
    && a.evidence <= b.evidence && Elements(b.evidence) == Elements(a.evidence) + Elements(o.evidence)
    && a.claims <= b.claims && Elements(b.claims) == Elements(a.claims) + Elements(o.claims)
    && Elements(b.attempted) == Elements(a.attempted) + Elements(o.attempted)
    && UniqueIndexes(b.results) && ResultsExtend(a.results, b.results)
    && IndexesOf(b.results) == IndexesOf(a.results) + IndexesOf(o.results)
    && forall index :: GainedFor(a.results, b.results, index, SourcesFor(o.results, index), ClaimsFor(o.results, index))
  }

  lemma {:induction false} OneResult(results: seq<ObjectiveResult>, i: nat)
    requires UniqueIndexes(results) && i < |results|
    ensures SourcesFor(results, results[i].index) == Elements(results[i].sources)
    ensures ClaimsFor(results, results[i].index) == Elements(results[i].claims)
  {
  }

  lemma {:induction false} ResultFitsExactly(cycle: Cycle, o: Outcome, merged: Outcome, snapshot: Snapshot, i: nat)
    requires UniqueIndexes(merged.results) && i < |merged.results|
    requires Elements(merged.evidence) == Elements(cycle.evidence) + Elements(o.evidence)
    requires Elements(merged.claims) == Elements(cycle.claims) + Elements(o.claims)
    requires Elements(merged.attempted) == Elements(cycle.attempted) + Elements(o.attempted)
    requires var index := merged.results[i].index;
      GainedFor(cycle.results, merged.results, index, SourcesFor(o.results, index), ClaimsFor(o.results, index))
    ensures ResultFits(cycle, merged, snapshot, merged.results[i]) <==> Supported(cycle, o, snapshot, merged.results[i].index)
  {
    var r := merged.results[i];
    OneResult(merged.results, i);
    assert Elements(r.claims) == ClaimsFor(cycle.results, r.index) + ClaimsFor(o.results, r.index);
    assert Elements(r.sources) == SourcesFor(cycle.results, r.index) + SourcesFor(o.results, r.index);
    assert forall x :: x in r.claims <==> x in Elements(r.claims);
    assert forall x :: x in r.sources <==> x in Elements(r.sources);
    assert forall text :: text in merged.attempted <==> text in Elements(merged.attempted);
    assert forall text :: text in Elements(cycle.attempted) + Elements(o.attempted) <==>
      text in cycle.attempted || text in o.attempted;
  }

  /** What merging a fitting outcome gives. */
  ghost predicate Merged(cycle: Cycle, o: Outcome, merged: Outcome) {
    && merged == o.(evidence := merged.evidence, claims := merged.claims, attempted := merged.attempted, results := merged.results)
    && cycle.evidence <= merged.evidence && Elements(merged.evidence) == Elements(cycle.evidence) + Elements(o.evidence)
    && cycle.claims <= merged.claims && Elements(merged.claims) == Elements(cycle.claims) + Elements(o.claims)
    && Elements(merged.attempted) == Elements(cycle.attempted) + Elements(o.attempted)
    && UniqueIndexes(merged.results) && ResultsExtend(cycle.results, merged.results)
    && IndexesOf(merged.results) == IndexesOf(cycle.results) + IndexesOf(o.results)
    && |merged.results| == |IndexesOf(merged.results)| && |merged.attempted| == |Elements(merged.attempted)|
    && |merged.evidence| == |Elements(merged.evidence)| && |merged.claims| == |Elements(merged.claims)|
    && forall index :: GainedFor(cycle.results, merged.results, index, SourcesFor(o.results, index), ClaimsFor(o.results, index))
  }

  lemma {:induction false} MergeIsUnique(cycle: Cycle, o: Outcome)
    requires CycleSound(cycle)
    ensures var more := MergeAll(cycle.results, o.results); UniqueIndexes(more) && ResultsExtend(cycle.results, more)
  {
    WithinCycle(cycle);
    WithinMore(cycle.results, Elements(cycle.evidence), Elements(cycle.claims), AllSources(cycle, o), AllClaims(cycle, o));
    forall i | 0 <= i < |o.results|
      ensures forall x | x in o.results[i].sources :: x in AllSources(cycle, o)
      ensures forall x | x in o.results[i].claims :: x in AllClaims(cycle, o)
    {
    }
    MergeAllFacts(cycle.results, o.results, AllSources(cycle, o), AllClaims(cycle, o));
  }

  lemma {:induction false} MergedExactly(cycle: Cycle, o: Outcome)
    requires CycleSound(cycle)
    ensures Merged(cycle, o, WithProgress(cycle, o))
  {
    var merged := WithProgress(cycle, o);
    DedupExtends(cycle.evidence, o.evidence);
    DedupExtends(cycle.claims, o.claims);
    DedupCount(cycle.evidence, o.evidence);
    DedupCount(cycle.claims, o.claims);
    DedupCount(cycle.attempted, o.attempted);
    MergeIsUnique(cycle, o);
    UniqueCount(merged.results);
    forall index
      ensures IndexesOf(merged.results) == IndexesOf(cycle.results) + IndexesOf(o.results)
      ensures GainedFor(cycle.results, merged.results, index, SourcesFor(o.results, index), ClaimsFor(o.results, index))
    {
      MergeAllGains(cycle.results, o.results, index);
    }
    assert IndexesOf(merged.results) == IndexesOf(cycle.results) + IndexesOf(o.results) by {
      MergeAllGains(cycle.results, o.results, 0);
    }
  }

  lemma {:induction false} AllSupported(cycle: Cycle, o: Outcome, merged: Outcome, snapshot: Snapshot)
    requires Merged(cycle, o, merged)
    ensures (forall r | r in merged.results :: ResultFits(cycle, merged, snapshot, r)) <==>
      forall index | index in IndexesOf(cycle.results) + IndexesOf(o.results) :: Supported(cycle, o, snapshot, index)
  {
    forall i | 0 <= i < |merged.results|
      ensures ResultFits(cycle, merged, snapshot, merged.results[i]) <==> Supported(cycle, o, snapshot, merged.results[i].index)
    {
      ResultFitsExactly(cycle, o, merged, snapshot, i);
    }
    if forall r | r in merged.results :: ResultFits(cycle, merged, snapshot, r) {
      forall index | index in IndexesOf(merged.results)
        ensures Supported(cycle, o, snapshot, index)
      {
        var i :| 0 <= i < |merged.results| && merged.results[i].index == index;
        assert merged.results[i] in merged.results;
      }
    } else {
      var r :| r in merged.results && !ResultFits(cycle, merged, snapshot, r);
      var i :| 0 <= i < |merged.results| && merged.results[i] == r;
      assert r.index in IndexesOf(merged.results);
    }
  }

  lemma {:induction false} MayEndExactly(cycle: Cycle, o: Outcome, snapshot: Snapshot)
    requires CycleSound(cycle)
    ensures cycle.status == Active && UniqueIndexes(o.results) && OutcomeFits(cycle, WithProgress(cycle, o), snapshot) <==>
      MayEnd(cycle, o, snapshot)
  {
    MergedExactly(cycle, o);
    AllSupported(cycle, o, WithProgress(cycle, o), snapshot);
  }

  /** The attempts of a cycle that were running are closed in this way, and no other attempt is touched. */
  ghost predicate RunningClosed(s: State, t: State, task: Id, number: int, status: AttemptStatus, stage: string, reason: string) {
    && t.attempts.Keys == s.attempts.Keys
    && forall id | id in s.attempts ::
         var a := s.attempts[id];
         t.attempts[id] == if a.task == task && a.number == number && a.status == RUNNING
                           then a.(status := status, stage := stage, reason := Some(reason)) else a
  }

  /** An ended cycle leaves its attempt completed, blocked or failed, as it is itself. */
  ghost predicate ClosedAs(s: State, t: State, task: Id, number: int, status: CycleStatus) {
    && (status == CycleStatus.Completed ==> RunningClosed(s, t, task, number, COMPLETED, "COMPLETED", "cycle_outcome_recorded"))
    && (status == Blocked ==> RunningClosed(s, t, task, number, BLOCKED, "BLOCKED", "cycle_outcome_recorded"))
    && (status == CycleStatus.Failed ==>
          RunningClosed(s, t, task, number, AttemptStatus.FAILED, "FAILED", "cycle_outcome_recorded"))
  }

  lemma {:induction false} AllClosed(s: State, t: State, task: Id, number: int, status: CycleStatus)
    requires Ends(status)
    requires t.attempts == CloseAll(s.attempts, Running(s.attempts, task, number), AttemptStatusFor(status),
      StageFor(AttemptStatusFor(status)), Some("cycle_outcome_recorded"))
    ensures ClosedAs(s, t, task, number, status)
  {
  }

  lemma {:induction false} EndedRecords(cycle: Cycle, o: Outcome)
    requires CycleSound(cycle)
    ensures EndedAs(cycle, Ended(cycle, WithProgress(cycle, o)), o)
  {
    MergedExactly(cycle, o);
  }

  lemma {:induction false} OutcomeAccepted(
    s: State, task: Id, number: int, capable: bool, requireActive: bool, o: Outcome, snapshot: Snapshot, i: nat)
    requires Sound(s) && HasCycle(s, task, number, i) && Ends(o.status)
    ensures var (t, r) := OutcomeSpec(s, task, number, capable, requireActive, o, snapshot); var cycle := s.tasks[task].cycles[i];
      if capable && (requireActive ==> s.tasks[task].status == TaskActive) && MayEnd(cycle, o, snapshot) then
        && r.Ok?
        && t == SetCycle(s, task, i, Ended(cycle, WithProgress(cycle, o))).(attempts := t.attempts)
        && t.attempts == CloseAll(s.attempts, Running(s.attempts, task, number), AttemptStatusFor(o.status),
             StageFor(AttemptStatusFor(o.status)), Some("cycle_outcome_recorded"))
      else r.Err? && t == s
  {
    FoundAt(s, task, number, i);
    assert TaskSound(s.tasks[task]);
    MayEndExactly(s.tasks[task].cycles[i], o, snapshot);
  }

  /** An outcome is accepted exactly if it may be recorded and fits together with what was committed; it then ends the cycle
      with both, and closes the running attempt with the corresponding status. */
  lemma {:induction false} OutcomeExactly(
    s: State, task: Id, number: int, capable: bool, requireActive: bool, o: Outcome, snapshot: Snapshot, i: nat)
    requires Sound(s) && HasCycle(s, task, number, i)
    requires o.status == CycleStatus.Completed || o.status == Blocked || o.status == CycleStatus.Failed
    ensures var (t, r) := OutcomeSpec(s, task, number, capable, requireActive, o, snapshot); var cycle := s.tasks[task].cycles[i];
      if capable && (requireActive ==> s.tasks[task].status == TaskActive) && MayEnd(cycle, o, snapshot) then
        && r.Ok? && HasCycle(t, task, number, i) && EndedAs(cycle, t.tasks[task].cycles[i], o)
        && t == s.(tasks := s.tasks[task := s.tasks[task].(cycles := s.tasks[task].cycles[i := t.tasks[task].cycles[i]])],
                   attempts := t.attempts)
        && ClosedAs(s, t, task, number, o.status)
      else r.Err? && t == s
  {
    assert TaskSound(s.tasks[task]);
    OutcomeAccepted(s, task, number, capable, requireActive, o, snapshot, i);
    var cycle, t := s.tasks[task].cycles[i], OutcomeSpec(s, task, number, capable, requireActive, o, snapshot).0;
    if capable && (requireActive ==> s.tasks[task].status == TaskActive) && MayEnd(cycle, o, snapshot) {
      EndedRecords(cycle, o);
      var c := Ended(cycle, WithProgress(cycle, o));
      assert t.tasks[task].cycles[i] == c && c.number == number;
      AllClosed(s, t, task, number, o.status);
    }
  }

  // ----- planning, starting, recovering, interrupting, status

  /** The next cycle is planned exactly in an active investigation none of whose cycles is active, when there is something to
      do. It has a number above all others and starts empty. */
  lemma {:induction false} PlannedExactly(s: State, task: Id, capable: bool, objectives: seq<string>)
    requires Sound(s) && task in s.tasks
    ensures var (t, r) := PlanNextSpec(s, task, capable, objectives); var cycles := s.tasks[task].cycles;
      if && capable && s.tasks[task].status == TaskActive && objectives != []
         && forall i | 0 <= i < |cycles| :: cycles[i].status != Active
      then
        && r.Ok? && task in t.tasks && t == s.(tasks := s.tasks[task := s.tasks[task].(cycles := t.tasks[task].cycles)])
        && |t.tasks[task].cycles| == |cycles| + 1 && cycles <= t.tasks[task].cycles
        && var next := t.tasks[task].cycles[|cycles|];
           && next.objectives == objectives && next.status == Planned && next.reason == None && next.summary == ""
           && next.evidence == [] && next.claims == [] && next.results == [] && next.attempted == [] && next.unresolved == []
           && next.number == if cycles == [] then 1 else if cycles[|cycles| - 1].number < 0 then 1 else cycles[|cycles| - 1].number + 1
      else r.Err? && t == s
  {
    assert TaskSound(s.tasks[task]);
    LastIsMax(s.tasks[task].cycles);
  }

  lemma {:induction false} LastIsMax(cycles: seq<Cycle>)
    requires NumbersRise(cycles)
    ensures MaxNumber(cycles) ==
      if cycles == [] then 0 else if cycles[|cycles| - 1].number < 0 then 0 else cycles[|cycles| - 1].number
  {
    if cycles != [] {
      LastIsMax(cycles[..|cycles| - 1]);
    }
  }

  /** A planned cycle of an active investigation starts exactly if no cycle is active and the selected objectives exist; the
      attempt that is started with it runs and is empty. Starting the active cycle again is accepted, unless exclusively. */
  lemma {:induction false} StartedExactly(s: State, task: Id, number: int, capable: bool, req: StartRequest, i: nat)
    requires Sound(s) && HasCycle(s, task, number, i) && (req.attempt.Some? ==> req.attempt.value !in s.attempts)
    ensures var (t, r) := StartSpec(s, task, number, capable, req); var cycles := s.tasks[task].cycles;
      && (r.Ok? <==>
            && capable && s.tasks[task].status == TaskActive && req.methodAllowed
            && (req.indices.Some? ==> req.indices.value != [] && forall k | k in req.indices.value :: 0 <= k < |cycles[i].objectives|)
            && if cycles[i].status == Active then !req.exclusive
               else cycles[i].status == Planned && forall j | 0 <= j < |cycles| :: cycles[j].status != Active)
      && (r.Ok? && cycles[i].status == Planned ==>
            && t == s.(tasks := s.tasks[task := s.tasks[task].(cycles := cycles[i := cycles[i].(status := Active)])],
                       attempts := t.attempts)
            && t.attempts == match req.attempt
                 case None => s.attempts
                 case Some(id) => s.attempts[id := Attempt(task, number, RUNNING, "STARTED", [], [], None)])
      && (r.Err? || cycles[i].status == Active ==> t == s)
  {
    FoundAt(s, task, number, i);
    assert TaskSound(s.tasks[task]);
    if s.tasks[task].cycles[i].status == Active && req.exclusive {
      assert OtherActive(s.tasks[task].cycles, number, req.exclusive);
    }
  }

  /** The operator fails exactly the active cycle as it was shown; its progress stays, its attempt is interrupted, and an
      active investigation is paused. */
  lemma {:induction false} RecoveredExactly(
    s: State, task: Id, number: int, capable: bool, shown: (TaskStatus, Cycle), reason: string, i: nat)
    requires Sound(s) && HasCycle(s, task, number, i)
    ensures var (t, r) := RecoverSpec(s, task, number, capable, shown, reason); var cycle := s.tasks[task].cycles[i];
      if capable && cycle.status == Active && shown.0 == s.tasks[task].status && shown.1 == cycle then
        && r.Ok? && HasCycle(t, task, number, i) && t == s.(tasks := s.tasks[task := t.tasks[task]], attempts := t.attempts)
        && t.tasks[task].cycles == s.tasks[task].cycles[i := t.tasks[task].cycles[i]]
        && (t.tasks[task].status == if s.tasks[task].status == TaskActive then TaskPaused else s.tasks[task].status)
        && t.tasks[task].cycles[i] == cycle.(status := CycleStatus.Failed, summary := "Operator recovery: " + reason,
             reason := Some(reason), unresolved := cycle.objectives)
        && RunningClosed(s, t, task, number, INTERRUPTED, "INTERRUPTED", reason)
      else r.Err? && t == s
  {
    FoundAt(s, task, number, i);
    OnlyRunning(s, task, number);
  }

  /** An interruption takes effect exactly on the running attempt of the active cycle, once: the cycle is blocked with its
      progress kept, the attempt is interrupted, and one event says so. */
  lemma {:induction false} InterruptedExactly(s: State, task: Id, number: int, attempt: Id, caller: Caller, capable: bool, i: nat)
    requires Sound(s) && HasCycle(s, task, number, i)
    ensures var (t, r) := InterruptSpec(s, task, number, attempt, caller, capable); var cycle := s.tasks[task].cycles[i];
      && (t != s <==>
            && capable && cycle.status == Active && attempt in s.attempts && s.attempts[attempt].task == task
            && s.attempts[attempt].number == number && s.attempts[attempt].status == RUNNING)
      && (t != s ==>
            && r.Ok? && t == s.(tasks := s.tasks[task := s.tasks[task].(cycles := t.tasks[task].cycles)], attempts := t.attempts,
                                interruptions := s.interruptions + [Interruption(task, attempt, number, caller)])
            && t.tasks[task].cycles == s.tasks[task].cycles[i := cycle.(status := Blocked,
                 summary := "Security policy interrupted this cycle; committed progress retained.",
                 reason := Some("security_policy_interrupted"))]
            && RunningClosed(s, t, task, number, INTERRUPTED, "INTERRUPTED", "security_policy_interrupted"))
      && (r.Ok? && t == s ==> Interruption(task, attempt, number, caller) in s.interruptions && capable)
  {
    FoundAt(s, task, number, i);
    if attempt in s.attempts && s.attempts[attempt].task == task && s.attempts[attempt].number == number {
      NotYetInterrupted(s, task, number, attempt);
    }
  }

  lemma {:induction false} NotYetInterrupted(s: State, task: Id, number: int, attempt: Id)
    requires Sound(s) && attempt in s.attempts && s.attempts[attempt].task == task && s.attempts[attempt].number == number
    ensures s.attempts[attempt].status == RUNNING ==>
      FindInterruption(s.interruptions, task, attempt) == None && Running(s.attempts, task, number) == {attempt}
  {
    var prior := FindInterruption(s.interruptions, task, attempt);
    if prior.Some? {
      assert InterruptionSound(s, prior.value);
    }
    if s.attempts[attempt].status == RUNNING {
      forall id | id in Running(s.attempts, task, number)
        ensures id == attempt
      {
      }
    }
  }

  /** What an investigation that has not ended may become: it may always be abandoned, blocked or made active, it is paused
      once it has been active, and concluded once it was begun. */
  predicate Enters(from: TaskStatus, to: TaskStatus) {
    match to
    case TaskPlanned => false
    case TaskActive => true
    case TaskPaused => from != TaskPlanned
    case TaskBlocked => true
    case TaskConcluded => from != TaskPlanned
    case TaskAbandoned => true
    case TaskArchived => false
  }

  /** The status of an investigation moves exactly from the one expected, along an allowed edge. Concluded and abandoned
      investigations can only be archived, and nothing follows that. */
  lemma {:induction false} StatusExactly(s: State, task: Id, capable: bool, expected: TaskStatus, status: TaskStatus)
    requires task in s.tasks
    ensures var (t, r) := ChangeStatusSpec(s, task, capable, expected, status); var now := s.tasks[task].status;
      && (r.Ok? <==> capable && (now == status || (now == expected && AllowedStatus(now, status))))
      && t == (if r.Ok? then s.(tasks := s.tasks[task := s.tasks[task].(status := status)]) else s)
    ensures AllowedStatus(expected, status) <==> if status == TaskArchived then expected in {TaskConcluded, TaskAbandoned}
              else expected in {TaskPlanned, TaskActive, TaskPaused, TaskBlocked} && status != expected && Enters(expected, status)
  {
    assert s.tasks[task := s.tasks[task].(status := s.tasks[task].status)] == s.tasks;
  }

  /** A runner closes its attempt once: a running one takes the status, stage and reason, and nothing else ever changes. */
  lemma {:induction false} AttemptFinishedExactly(
    s: State, attempt: Id, status: AttemptStatus, stage: string, reason: Option<string>)
    requires status != RUNNING
    ensures var t := FinishAttemptSpec(s, attempt, status, stage, reason);
      && t == s.(attempts := t.attempts) && t.attempts.Keys == s.attempts.Keys
      && forall id | id in s.attempts ::
           t.attempts[id] == if id == attempt && s.attempts[id].status == RUNNING
                             then s.attempts[id].(status := status, stage := stage, reason := reason) else s.attempts[id]
  {
  }

  /** A new investigation is active and has one planned, empty cycle. */
  lemma {:induction false} TaskCreated(s: State, task: Id, objectives: seq<string>)
    requires task !in s.tasks
    ensures var (t, r) := CreateSpec(s, task, objectives);
      && r.Ok? && t == s.(tasks := t.tasks) && t.tasks.Keys == s.tasks.Keys + {task}
      && (forall other | other in s.tasks :: t.tasks[other] == s.tasks[other])
      && t.tasks[task].status == TaskActive && |t.tasks[task].cycles| == 1
      && var first := t.tasks[task].cycles[0];
         && first.number == 1 && first.objectives == objectives && first.status == Planned && first.results == []
         && first.evidence == [] && first.claims == [] && first.attempted == [] && first.unresolved == []
  {
  }
}
