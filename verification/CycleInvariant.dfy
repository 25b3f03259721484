/** What every reachable state of the cycles satisfies, and what a write may do to a cycle. */
module CycleInvariant {
  import opened Basics
  import opened ResearchStatus
  import opened CycleModel

  ghost predicate ResultSound(c: Cycle, r: ObjectiveResult) {
    && r.index < |c.objectives| && c.objectives[r.index] in c.attempted && Distinct(r.sources) && Distinct(r.claims)
    && (forall x | x in r.sources :: x in c.evidence) && (forall x | x in r.claims :: x in c.claims)
  }

  /** Objective results have unique valid indexes and only associate what the cycle itself collected. */
  ghost predicate CycleSound(c: Cycle) {
    && Distinct(c.evidence) && Distinct(c.claims) && |c.evidence| <= EVIDENCE_BOUND && |c.claims| <= EVIDENCE_BOUND
    && UniqueIndexes(c.results) && |c.results| <= RESULT_BOUND
    && (forall r | r in c.results :: ResultSound(c, r))
    && (c.status == Planned ==> c.evidence == [] && c.claims == [] && c.results == [])
    && (c.status == Planned || c.status == Active ==> AttemptedByResults(c))
  }

  /** While a cycle runs, the attempted objectives are those with a result. */
  ghost predicate AttemptedByResults(c: Cycle) {
    forall text | text in c.attempted :: exists i | 0 <= i < |c.results| ::
      c.results[i].index < |c.objectives| && c.objectives[c.results[i].index] == text
  }

  ghost predicate NumbersRise(cycles: seq<Cycle>) {
    forall i, j | 0 <= i < j < |cycles| :: cycles[i].number < cycles[j].number
  }

  ghost predicate OneActive(cycles: seq<Cycle>) {
    forall i, j | 0 <= i < |cycles| && 0 <= j < |cycles| && cycles[i].status == Active && cycles[j].status == Active :: i == j
  }

  /** At most one cycle of an investigation is active. */
  ghost predicate TaskSound(t: Task) {
    NumbersRise(t.cycles) && OneActive(t.cycles) && forall i | 0 <= i < |t.cycles| :: CycleSound(t.cycles[i])
  }

  ghost predicate HasCycle(s: State, task: Id, number: int, i: nat) {
    task in s.tasks && i < |s.tasks[task].cycles| && s.tasks[task].cycles[i].number == number
  }

  /** Running attempts belong to the active cycle. */
  ghost predicate AttemptSound(s: State, id: Id)
    requires id in s.attempts
  {
    exists i: nat :: HasCycle(s, s.attempts[id].task, s.attempts[id].number, i)
      && (s.attempts[id].status == RUNNING ==> s.tasks[s.attempts[id].task].cycles[i].status == Active)
  }

  ghost predicate OneRunning(s: State) {
    forall a, b | a in s.attempts && b in s.attempts && s.attempts[a].task == s.attempts[b].task
      && s.attempts[a].status == RUNNING && s.attempts[b].status == RUNNING :: a == b
  }

  /** What an interruption closed is still closed as it was. */
  ghost predicate InterruptionSound(s: State, e: Interruption) {
    && e.attempt in s.attempts && s.attempts[e.attempt].task == e.task && s.attempts[e.attempt].number == e.number
    && exists i: nat :: HasCycle(s, e.task, e.number, i) && StillInterrupted(s.tasks[e.task].cycles[i], s.attempts[e.attempt])
  }

  ghost predicate TasksSound(s: State) {
    forall task {:trigger TaskSound(s.tasks[task])} | task in s.tasks :: TaskSound(s.tasks[task])
  }

  ghost predicate AttemptsSound(s: State) {
    forall id {:trigger AttemptSound(s, id)} | id in s.attempts :: AttemptSound(s, id)
  }

  ghost predicate InterruptionsSound(s: State) {
    forall e {:trigger InterruptionSound(s, e)} | e in s.interruptions :: InterruptionSound(s, e)
  }

  ghost predicate Sound(s: State) {
    TasksSound(s) && AttemptsSound(s) && OneRunning(s) && InterruptionsSound(s)
  }

  // ----- progress

  ghost predicate ResultExtends(a: ObjectiveResult, b: ObjectiveResult) {
    b.index == a.index && a.sources <= b.sources && a.claims <= b.claims
  }

  ghost predicate ResultsExtend(a: seq<ObjectiveResult>, b: seq<ObjectiveResult>) {
    |a| <= |b| && forall i | 0 <= i < |a| :: ResultExtends(a[i], b[i])
  }

  /** Nothing that was committed to the cycle is lost: every list is extended at its end. */
  ghost predicate Extends(a: Cycle, b: Cycle) {
    && b.number == a.number && b.objectives == a.objectives
    && a.evidence <= b.evidence && a.claims <= b.claims && ResultsExtend(a.results, b.results)
    && (forall text | text in a.attempted :: text in b.attempted)
  }

  lemma {:induction false} DedupFacts<T>(s: seq<T>)
    ensures Distinct(Dedup(s)) && |Dedup(s)| <= |s|
    ensures forall x :: x in Dedup(s) <==> x in s
  {
    if s != [] {
      var n := |s| - 1;
      DedupFacts(s[..n]);
      assert s == s[..n] + [s[n]];
    }
  }

  lemma {:induction false} DedupKeeps<T>(a: seq<T>, b: seq<T>)
    requires Distinct(a)
    ensures a <= Dedup(a + b)
  {
    if b != [] {
      var n := |b| - 1;
      DedupKeeps(a, b[..n]);
      assert (a + b)[..|a + b| - 1] == a + b[..n];
    } else {
      assert a + b == a;
      DistinctDedup(a);
    }
  }

  lemma {:induction false} DistinctDedup<T>(a: seq<T>)
    requires Distinct(a)
    ensures Dedup(a) == a
  {
    if a != [] {
      var n := |a| - 1;
      DistinctDedup(a[..n]);
      assert a == a[..n] + [a[n]];
    }
  }

  /** Deduplicated concatenation: an extension with no repetition and no other members. */
  lemma {:induction false} DedupExtends<T>(a: seq<T>, b: seq<T>)
    requires Distinct(a)
    ensures a <= Dedup(a + b) && Distinct(Dedup(a + b))
    ensures forall x :: x in Dedup(a + b) <==> x in a || x in b
  {
    DedupKeeps(a, b);
    DedupFacts(a + b);
  }

  /** Results with distinct lists drawn from the given sources and claims. */
  ghost predicate ResultWithin(r: ObjectiveResult, sources: set<Id>, claims: set<Id>) {
    && Distinct(r.sources) && Distinct(r.claims)
    && (forall x | x in r.sources :: x in sources) && (forall x | x in r.claims :: x in claims)
  }

  ghost predicate ResultsWithin(results: seq<ObjectiveResult>, sources: set<Id>, claims: set<Id>) {
    forall i | 0 <= i < |results| :: ResultWithin(results[i], sources, claims)
  }

  lemma {:induction false} CombineFacts(r: ObjectiveResult, sources: seq<Id>, claims: seq<Id>, s: set<Id>, c: set<Id>)
    requires ResultWithin(r, s, c) && (forall x | x in sources :: x in s) && (forall x | x in claims :: x in c)
    ensures ResultWithin(Combine(r, sources, claims), s, c) && ResultExtends(r, Combine(r, sources, claims))
  {
    DedupExtends(r.sources, sources);
    DedupExtends(r.claims, claims);
  }

  /** Merging extends the results, keeps the indexes unique, and adds none but the given one. */
  lemma {:induction false} MergeIntoFacts(
    results: seq<ObjectiveResult>, index: nat, sources: seq<Id>, claims: seq<Id>, s: set<Id>, c: set<Id>)
    requires UniqueIndexes(results) && ResultsWithin(results, s, c)
    requires (forall x | x in sources :: x in s) && (forall x | x in claims :: x in c)
    ensures var more := MergeInto(results, index, sources, claims);
      && UniqueIndexes(more) && ResultsWithin(more, s, c) && ResultsExtend(results, more)
      && forall i | 0 <= i < |more| :: more[i].index == index || (i < |results| && more[i].index == results[i].index)
  {
    if results == [] {
      CombineFacts(ObjectiveResult(index, [], []), sources, claims, s, c);
    } else {
      CombineFacts(results[0], sources, claims, s, c);
      if results[0].index != index {
        MergeIntoFacts(results[1..], index, sources, claims, s, c);
        var rest := MergeInto(results[1..], index, sources, claims);
        forall i | 0 <= i < |rest|
          ensures rest[i].index != results[0].index
        {
          assert rest[i].index == index || (i < |results[1..]| && rest[i].index == results[i + 1].index);
        }
      }
    }
  }

  lemma {:induction false} ExtendTwice(a: seq<ObjectiveResult>, b: seq<ObjectiveResult>, c: seq<ObjectiveResult>)
    requires ResultsExtend(a, b) && ResultsExtend(b, c)
    ensures ResultsExtend(a, c)
  {
    forall i | 0 <= i < |a|
      ensures ResultExtends(a[i], c[i])
    {
      assert ResultExtends(a[i], b[i]) && ResultExtends(b[i], c[i]);
    }
  }

  ghost predicate IndexesFrom(more: seq<ObjectiveResult>, results: seq<ObjectiveResult>, indices: seq<nat>) {
    forall i | 0 <= i < |more| :: more[i].index in indices || (i < |results| && more[i].index == results[i].index)
  }

  lemma {:induction false} MergeSameFacts(
    results: seq<ObjectiveResult>, indices: seq<nat>, sources: seq<Id>, claims: seq<Id>, s: set<Id>, c: set<Id>)
    requires UniqueIndexes(results) && ResultsWithin(results, s, c)
    requires (forall x | x in sources :: x in s) && (forall x | x in claims :: x in c)
    ensures var more := MergeSame(results, indices, sources, claims);
      UniqueIndexes(more) && ResultsWithin(more, s, c) && ResultsExtend(results, more) && IndexesFrom(more, results, indices)
  {
    if indices != [] {
      var n := |indices| - 1;
      var before := MergeSame(results, indices[..n], sources, claims);
      MergeSameFacts(results, indices[..n], sources, claims, s, c);
      MergeIntoFacts(before, indices[n], sources, claims, s, c);
      ExtendTwice(results, before, MergeSame(results, indices, sources, claims));
      assert indices == indices[..n] + [indices[n]];
    }
  }

  lemma {:induction false} MergeAllFacts(results: seq<ObjectiveResult>, items: seq<ObjectiveResult>, s: set<Id>, c: set<Id>)
    requires UniqueIndexes(results) && ResultsWithin(results, s, c)
    requires forall i | 0 <= i < |items| :: (forall x | x in items[i].sources :: x in s) && (forall x | x in items[i].claims :: x in c)
    ensures var more := MergeAll(results, items);
      UniqueIndexes(more) && ResultsWithin(more, s, c) && ResultsExtend(results, more)
  {
    if items != [] {
      var n := |items| - 1;
      var before := MergeAll(results, items[..n]);
      MergeAllFacts(results, items[..n], s, c);
      MergeIntoFacts(before, items[n].index, items[n].sources, items[n].claims, s, c);
      ExtendTwice(results, before, MergeAll(results, items));
    }
  }

  lemma {:induction false} WithinCycle(c: Cycle)
    requires CycleSound(c)
    ensures ResultsWithin(c.results, Elements(c.evidence), Elements(c.claims))
  {
    forall i | 0 <= i < |c.results|
      ensures ResultWithin(c.results[i], Elements(c.evidence), Elements(c.claims))
    {
      assert c.results[i] in c.results && ResultSound(c, c.results[i]);
    }
  }

  lemma {:induction false} WithinMore(results: seq<ObjectiveResult>, s: set<Id>, c: set<Id>, s2: set<Id>, c2: set<Id>)
    requires ResultsWithin(results, s, c) && s <= s2 && c <= c2
    ensures ResultsWithin(results, s2, c2)
  {
    forall i | 0 <= i < |results|
      ensures ResultWithin(results[i], s2, c2)
    {
      assert ResultWithin(results[i], s, c);
    }
  }

  /** The results of a sound cycle, merged with lists that are also added to the cycle, fit the new lists. */
  lemma {:induction false} ListsGrow(cycle: Cycle, sources: seq<Id>, claims: seq<Id>)
    requires CycleSound(cycle)
    ensures var evidence, all := Dedup(cycle.evidence + sources), Dedup(cycle.claims + claims);
      && Distinct(evidence) && Distinct(all) && cycle.evidence <= evidence && cycle.claims <= all
      && ResultsWithin(cycle.results, Elements(evidence), Elements(all))
      && (forall x | x in sources :: x in Elements(evidence)) && (forall x | x in claims :: x in Elements(all))
  {
    DedupExtends(cycle.evidence, sources);
    DedupExtends(cycle.claims, claims);
    WithinCycle(cycle);
    WithinMore(cycle.results, Elements(cycle.evidence), Elements(cycle.claims),
      Elements(Dedup(cycle.evidence + sources)), Elements(Dedup(cycle.claims + claims)));
  }

  lemma {:induction false} AttemptedHasAll(cycle: Cycle, results: seq<ObjectiveResult>)
    requires forall r | r in results :: r.index < |cycle.objectives|
    ensures forall i | 0 <= i < |results| ::
      results[i].index < |cycle.objectives| && cycle.objectives[results[i].index] in AttemptedOf(cycle, results)
    ensures AttemptedByResults(cycle.(results := results, attempted := AttemptedOf(cycle, results)))
  {
    var named := seq(|results|, i requires 0 <= i < |results| => cycle.objectives[results[i].index]);
    DedupFacts(named);
    forall i | 0 <= i < |results|
      ensures results[i].index < |cycle.objectives| && cycle.objectives[results[i].index] in AttemptedOf(cycle, results)
    {
      assert results[i] in results && named[i] in named;
    }
    forall text | text in AttemptedOf(cycle, results)
      ensures exists i | 0 <= i < |results| :: cycle.objectives[results[i].index] == text
    {
      var i :| 0 <= i < |named| && named[i] == text;
    }
  }

  lemma {:induction false} AttemptedStays(cycle: Cycle, results: seq<ObjectiveResult>)
    requires AttemptedByResults(cycle) && ResultsExtend(cycle.results, results)
    requires forall r | r in results :: r.index < |cycle.objectives|
    ensures forall text | text in cycle.attempted :: text in AttemptedOf(cycle, results)
  {
    AttemptedHasAll(cycle, results);
    forall text | text in cycle.attempted
      ensures text in AttemptedOf(cycle, results)
    {
      var i :| 0 <= i < |cycle.results| && cycle.results[i].index < |cycle.objectives|
        && cycle.objectives[cycle.results[i].index] == text;
      assert ResultExtends(cycle.results[i], results[i]);
    }
  }

  /** Progress keeps the cycle sound and loses nothing. */
  lemma {:induction false} ProgressedFacts(cycle: Cycle, indices: seq<nat>, sources: seq<Id>, claims: seq<Id>)
    requires CycleSound(cycle) && cycle.status == Active && Progressed(cycle, indices, sources, claims).Some?
    ensures var c := Progressed(cycle, indices, sources, claims).value; CycleSound(c) && Extends(cycle, c) && c.status == Active
  {
    var c := Progressed(cycle, indices, sources, claims).value;
    ListsGrow(cycle, sources, claims);
    MergeSameFacts(cycle.results, indices, sources, claims, Elements(c.evidence), Elements(c.claims));
    AttemptedHasAll(cycle, c.results);
    AttemptedStays(cycle, c.results);
    assert AttemptedByResults(c);
    forall r | r in c.results
      ensures ResultSound(c, r)
    {
      var i :| 0 <= i < |c.results| && c.results[i] == r;
      assert ResultWithin(c.results[i], Elements(c.evidence), Elements(c.claims));
    }
  }

  /** An accepted outcome keeps the cycle sound and loses nothing. */
  lemma {:induction false} EndedFacts(cycle: Cycle, o: Outcome, snapshot: Snapshot)
    requires CycleSound(cycle) && Ends(o.status) && OutcomeFits(cycle, WithProgress(cycle, o), snapshot)
    ensures var c := Ended(cycle, WithProgress(cycle, o)); CycleSound(c) && Extends(cycle, c)
  {
    var merged := WithProgress(cycle, o);
    var c := Ended(cycle, merged);
    DedupExtends(cycle.evidence, o.evidence);
    DedupExtends(cycle.claims, o.claims);
    DedupFacts(cycle.attempted + o.attempted);
    WithinCycle(cycle);
    var sources, claims := AllSources(cycle, o), AllClaims(cycle, o);
    WithinMore(cycle.results, Elements(cycle.evidence), Elements(cycle.claims), sources, claims);
    MergeAllFacts(cycle.results, o.results, sources, claims);
    forall r | r in c.results
      ensures ResultSound(c, r)
    {
      assert ResultFits(cycle, merged, snapshot, r);
      var i :| 0 <= i < |c.results| && c.results[i] == r;
      assert ResultWithin(c.results[i], sources, claims);
      assert forall x | x in r.sources :: x in Elements(r.sources);
      assert forall x | x in r.claims :: x in Elements(r.claims);
    }
  }

  /** Everything the submitted and the saved results mention. */
  ghost function AllSources(cycle: Cycle, o: Outcome): set<Id> {
    Elements(cycle.evidence) + set i, x | 0 <= i < |o.results| && x in o.results[i].sources :: x
  }

  ghost function AllClaims(cycle: Cycle, o: Outcome): set<Id> {
    Elements(cycle.claims) + set i, x | 0 <= i < |o.results| && x in o.results[i].claims :: x
  }

  // ----- writing to one cycle

  /** An attempt that is not running stays as it is; none changes its cycle. */
  ghost predicate AttemptFollows(a: Attempt, b: Attempt) {
    b.task == a.task && b.number == a.number && (a.status != RUNNING ==> b == a)
  }

  ghost predicate AttemptsFollow(before: map<Id, Attempt>, after: map<Id, Attempt>) {
    forall id | id in before :: id in after && AttemptFollows(before[id], after[id])
  }

  /** The cycle at a position was planned or active and is replaced; its attempts run only while it is active. */
  ghost predicate Writes(s: State, t: State, task: Id, i: nat, c: Cycle) {
    && task in s.tasks && i < |s.tasks[task].cycles|
    && t.tasks.Keys == s.tasks.Keys && (forall other | other in s.tasks && other != task :: t.tasks[other] == s.tasks[other])
    && t.tasks[task].cycles == s.tasks[task].cycles[i := c]
    && var was := s.tasks[task].cycles[i];
       && CycleSound(c) && Extends(was, c) && (was.status == Planned || was.status == Active)
       && (c.status == Active ==> was.status == Active || !AnyActive(s.tasks[task].cycles))
       && AttemptsFollow(s.attempts, t.attempts)
       && (forall id | id in t.attempts && t.attempts[id].task == task && t.attempts[id].number == c.number
             && t.attempts[id].status == RUNNING :: c.status == Active)
       && (forall id | id in t.attempts && id !in s.attempts ::
             t.attempts[id].task == task && t.attempts[id].number == c.number && was.status == Planned && c.status == Active)
       && (forall a, b | a in t.attempts && a !in s.attempts && b in t.attempts && b !in s.attempts :: a == b)
  }

  lemma {:induction false} WrittenTaskSound(s: State, t: State, task: Id, i: nat, c: Cycle)
    requires Sound(s) && Writes(s, t, task, i, c)
    ensures TasksSound(t)
  {
    forall other | other in t.tasks
      ensures TaskSound(t.tasks[other])
    {
      assert TaskSound(s.tasks[other]);
    }
  }

  lemma {:induction false} SameNumberSamePlace(t: Task, i: nat, j: nat)
    requires TaskSound(t) && i < |t.cycles| && j < |t.cycles| && t.cycles[i].number == t.cycles[j].number
    ensures i == j
  {
  }

  lemma {:induction false} WrittenHasCycle(s: State, t: State, task: Id, i: nat, c: Cycle, other: Id, number: int, j: nat)
    requires Writes(s, t, task, i, c) && HasCycle(s, other, number, j)
    ensures HasCycle(t, other, number, j)
    ensures !(other == task && j == i) ==> t.tasks[other].cycles[j] == s.tasks[other].cycles[j]
  {
  }

  lemma {:induction false} WrittenAttemptSound(s: State, t: State, task: Id, i: nat, c: Cycle, id: Id)
    requires Sound(s) && Writes(s, t, task, i, c) && id in t.attempts
    ensures AttemptSound(t, id)
  {
    if id in s.attempts {
      assert AttemptSound(s, id);
      var a := s.attempts[id];
      var j: nat :| HasCycle(s, a.task, a.number, j) && (a.status == RUNNING ==> s.tasks[a.task].cycles[j].status == Active);
      WrittenHasCycle(s, t, task, i, c, a.task, a.number, j);
      assert HasCycle(t, t.attempts[id].task, t.attempts[id].number, j);
    } else {
      assert HasCycle(t, task, c.number, i);
    }
  }

  lemma {:induction false} RunningOnActive(s: State, id: Id, task: Id, i: nat)
    requires Sound(s) && id in s.attempts && s.attempts[id].status == RUNNING && s.attempts[id].task == task
    ensures task in s.tasks && AnyActive(s.tasks[task].cycles)
    ensures i < |s.tasks[task].cycles| && s.tasks[task].cycles[i].number == s.attempts[id].number ==>
      s.tasks[task].cycles[i].status == Active
  {
    assert AttemptSound(s, id);
    var j: nat :| HasCycle(s, task, s.attempts[id].number, j) && s.tasks[task].cycles[j].status == Active;
    assert TaskSound(s.tasks[task]);
    if i < |s.tasks[task].cycles| && s.tasks[task].cycles[i].number == s.attempts[id].number {
      SameNumberSamePlace(s.tasks[task], i, j);
    }
  }

  lemma {:induction false} WrittenOneRunning(s: State, t: State, task: Id, i: nat, c: Cycle)
    requires Sound(s) && Writes(s, t, task, i, c)
    ensures OneRunning(t)
  {
    forall a, b | a in t.attempts && b in t.attempts && t.attempts[a].task == t.attempts[b].task
      && t.attempts[a].status == RUNNING && t.attempts[b].status == RUNNING
      ensures a == b
    {
      if a in s.attempts && b in s.attempts {
        assert AttemptFollows(s.attempts[a], t.attempts[a]) && AttemptFollows(s.attempts[b], t.attempts[b]);
      } else if a in s.attempts {
        NoneRunsBesideNew(s, t, task, i, c, a, b);
      } else if b in s.attempts {
        NoneRunsBesideNew(s, t, task, i, c, b, a);
      }
    }
  }

  lemma {:induction false} NoneRunsBesideNew(s: State, t: State, task: Id, i: nat, c: Cycle, a: Id, b: Id)
    requires Sound(s) && Writes(s, t, task, i, c)
    requires a in s.attempts && a in t.attempts && b in t.attempts && b !in s.attempts && t.attempts[a].task == t.attempts[b].task
    ensures t.attempts[a].status != RUNNING
  {
    assert AttemptFollows(s.attempts[a], t.attempts[a]);
    if s.attempts[a].status == RUNNING {
      RunningOnActive(s, a, task, i);
    }
  }

  lemma {:induction false} WrittenInterruption(s: State, t: State, task: Id, i: nat, c: Cycle, e: Interruption)
    requires Sound(s) && Writes(s, t, task, i, c) && e in s.interruptions
    ensures InterruptionSound(t, e)
  {
    assert InterruptionSound(s, e);
    var j: nat :| HasCycle(s, e.task, e.number, j) && StillInterrupted(s.tasks[e.task].cycles[j], s.attempts[e.attempt]);
    WrittenHasCycle(s, t, task, i, c, e.task, e.number, j);
    assert AttemptFollows(s.attempts[e.attempt], t.attempts[e.attempt]);
  }

  /** Every such write keeps the invariant. */
  lemma {:induction false} WritesKeepSound(s: State, t: State, task: Id, i: nat, c: Cycle)
    requires Sound(s) && Writes(s, t, task, i, c)
    requires forall e | e in t.interruptions :: e in s.interruptions || InterruptionSound(t, e)
    ensures Sound(t)
  {
    WrittenTaskSound(s, t, task, i, c);
    forall id | id in t.attempts
      ensures AttemptSound(t, id)
    {
      WrittenAttemptSound(s, t, task, i, c, id);
    }
    WrittenOneRunning(s, t, task, i, c);
    forall e | e in t.interruptions
      ensures InterruptionSound(t, e)
    {
      if e in s.interruptions {
        WrittenInterruption(s, t, task, i, c, e);
      }
    }
  }

  // ----- every request keeps the invariant

  lemma {:induction false} ExtendsItself(c: Cycle)
    ensures Extends(c, c)
  {
  }

  lemma {:induction false} StartWrites(s: State, task: Id, number: int, capable: bool, req: StartRequest)
    requires Sound(s) && StartSpec(s, task, number, capable, req).0 != s
    ensures IndexOf(s.tasks[task].cycles, number).Some?
    ensures var i := IndexOf(s.tasks[task].cycles, number).value; var t := StartSpec(s, task, number, capable, req).0;
      Writes(s, t, task, i, t.tasks[task].cycles[i]) && t.interruptions == s.interruptions
  {
    var i := IndexOf(s.tasks[task].cycles, number).value;
    assert TaskSound(s.tasks[task]);
    assert CycleSound(s.tasks[task].cycles[i]);
  }

  lemma {:induction false} ProgressWrites(s: State, task: Id, req: ProgressRequest)
    requires Sound(s) && ProgressSpec(s, task, req).1.Ok?
    ensures task in s.tasks && IndexOf(s.tasks[task].cycles, req.number).Some?
    ensures var i := IndexOf(s.tasks[task].cycles, req.number).value; var t := ProgressSpec(s, task, req).0;
      Writes(s, t, task, i, t.tasks[task].cycles[i]) && t.interruptions == s.interruptions
  {
    var i := IndexOf(s.tasks[task].cycles, req.number).value;
    assert TaskSound(s.tasks[task]);
    ProgressedFacts(s.tasks[task].cycles[i], req.indices, req.sources, req.claims);
  }

  lemma {:induction false} OutcomeWrites(
    s: State, task: Id, number: int, capable: bool, requireActive: bool, o: Outcome, snapshot: Snapshot)
    requires Sound(s) && Ends(o.status) && OutcomeSpec(s, task, number, capable, requireActive, o, snapshot).1.Ok?
    ensures task in s.tasks && IndexOf(s.tasks[task].cycles, number).Some?
    ensures var i := IndexOf(s.tasks[task].cycles, number).value;
      var t := OutcomeSpec(s, task, number, capable, requireActive, o, snapshot).0;
      Writes(s, t, task, i, t.tasks[task].cycles[i]) && t.interruptions == s.interruptions
  {
    var i := IndexOf(s.tasks[task].cycles, number).value;
    assert TaskSound(s.tasks[task]);
    EndedFacts(s.tasks[task].cycles[i], o, snapshot);
  }

  lemma {:induction false} OnlyRunning(s: State, task: Id, number: int)
    requires Sound(s)
    ensures var running := Sorted(Running(s.attempts, task, number));
      Running(s.attempts, task, number) == if running == [] then {} else {running[0]}
  {
    var set1 := Running(s.attempts, task, number);
    var running := Sorted(set1);
    if running != [] {
      assert running[0] in Elements(running);
    }
  }

  lemma {:induction false} RecoverWrites(s: State, task: Id, number: int, capable: bool, shown: (TaskStatus, Cycle), reason: string)
    requires Sound(s) && RecoverSpec(s, task, number, capable, shown, reason).1.Ok?
    ensures task in s.tasks && IndexOf(s.tasks[task].cycles, number).Some?
    ensures var i := IndexOf(s.tasks[task].cycles, number).value;
      var t := RecoverSpec(s, task, number, capable, shown, reason).0;
      Writes(s, t, task, i, t.tasks[task].cycles[i]) && t.interruptions == s.interruptions
  {
    var i := IndexOf(s.tasks[task].cycles, number).value;
    assert TaskSound(s.tasks[task]);
    assert CycleSound(s.tasks[task].cycles[i]);
    OnlyRunning(s, task, number);
  }

  lemma {:induction false} InterruptWrites(s: State, task: Id, number: int, attempt: Id, caller: Caller, capable: bool)
    requires Sound(s) && InterruptSpec(s, task, number, attempt, caller, capable).0 != s
    ensures task in s.tasks && IndexOf(s.tasks[task].cycles, number).Some?
    ensures var i := IndexOf(s.tasks[task].cycles, number).value;
      var t := InterruptSpec(s, task, number, attempt, caller, capable).0;
      && Writes(s, t, task, i, t.tasks[task].cycles[i])
      && t.interruptions == s.interruptions + [Interruption(task, attempt, number, caller)]
  {
    var i := IndexOf(s.tasks[task].cycles, number).value;
    assert TaskSound(s.tasks[task]);
    assert CycleSound(s.tasks[task].cycles[i]);
    assert forall id | id in s.attempts && s.attempts[id].task == task && s.attempts[id].number == number
      && s.attempts[id].status == RUNNING :: id in Running(s.attempts, task, number);
  }

  lemma {:induction false} InterruptRecords(s: State, task: Id, number: int, attempt: Id, caller: Caller, capable: bool)
    requires InterruptSpec(s, task, number, attempt, caller, capable).0 != s
    ensures InterruptionSound(InterruptSpec(s, task, number, attempt, caller, capable).0, Interruption(task, attempt, number, caller))
  {
    var i := IndexOf(s.tasks[task].cycles, number).value;
    var t := InterruptSpec(s, task, number, attempt, caller, capable).0;
    assert HasCycle(t, task, number, i) && StillInterrupted(t.tasks[task].cycles[i], t.attempts[attempt]);
  }

  /** Adding a planned cycle, or changing the status of an investigation, leaves every cycle where it was. */
  ghost predicate Keeps(s: State, t: State) {
    && (forall task | task in s.tasks :: task in t.tasks && s.tasks[task].cycles <= t.tasks[task].cycles)
    && AttemptsFollow(s.attempts, t.attempts) && t.attempts.Keys == s.attempts.Keys && t.interruptions == s.interruptions
  }

  lemma {:induction false} KeptIsSound(s: State, t: State)
    requires Sound(s) && Keeps(s, t) && TasksSound(t)
    ensures Sound(t)
  {
    forall id | id in t.attempts
      ensures AttemptSound(t, id)
    {
      assert AttemptSound(s, id);
      var a := s.attempts[id];
      assert AttemptFollows(a, t.attempts[id]);
      var j: nat :| HasCycle(s, a.task, a.number, j) && (a.status == RUNNING ==> s.tasks[a.task].cycles[j].status == Active);
      assert HasCycle(t, a.task, a.number, j) && t.tasks[a.task].cycles[j] == s.tasks[a.task].cycles[j];
    }
    forall e | e in t.interruptions
      ensures InterruptionSound(t, e)
    {
      assert InterruptionSound(s, e);
      var j: nat :| HasCycle(s, e.task, e.number, j) && StillInterrupted(s.tasks[e.task].cycles[j], s.attempts[e.attempt]);
      assert HasCycle(t, e.task, e.number, j) && t.tasks[e.task].cycles[j] == s.tasks[e.task].cycles[j];
      assert AttemptFollows(s.attempts[e.attempt], t.attempts[e.attempt]);
    }
    forall a, b | a in t.attempts && b in t.attempts && t.attempts[a].task == t.attempts[b].task
      && t.attempts[a].status == RUNNING && t.attempts[b].status == RUNNING
      ensures a == b
    {
      assert AttemptFollows(s.attempts[a], t.attempts[a]) && AttemptFollows(s.attempts[b], t.attempts[b]);
    }
  }

  lemma {:induction false} MaxNumberIsMax(cycles: seq<Cycle>)
    ensures forall i | 0 <= i < |cycles| :: cycles[i].number <= MaxNumber(cycles)
  {
    if cycles != [] {
      MaxNumberIsMax(cycles[..|cycles| - 1]);
    }
  }

  lemma {:induction false} PlanNextKeeps(s: State, task: Id, capable: bool, objectives: seq<string>)
    requires Sound(s)
    ensures var t := PlanNextSpec(s, task, capable, objectives).0; Keeps(s, t) && TasksSound(t)
  {
    var t := PlanNextSpec(s, task, capable, objectives).0;
    forall other | other in t.tasks
      ensures TaskSound(t.tasks[other])
    {
      assert TaskSound(s.tasks[other]);
      if other == task {
        MaxNumberIsMax(s.tasks[task].cycles);
      }
    }
  }

  lemma {:induction false} CreateKeeps(s: State, task: Id, objectives: seq<string>)
    requires Sound(s)
    ensures var t := CreateSpec(s, task, objectives).0; Keeps(s, t) && TasksSound(t)
  {
    var t := CreateSpec(s, task, objectives).0;
    forall other | other in t.tasks
      ensures TaskSound(t.tasks[other])
    {
      assert other in s.tasks ==> TaskSound(s.tasks[other]);
    }
  }

  lemma {:induction false} ChangeStatusKeeps(s: State, task: Id, capable: bool, expected: TaskStatus, status: TaskStatus)
    requires Sound(s)
    ensures var t := ChangeStatusSpec(s, task, capable, expected, status).0; Keeps(s, t) && TasksSound(t)
  {
    var t := ChangeStatusSpec(s, task, capable, expected, status).0;
    forall other | other in t.tasks
      ensures TaskSound(t.tasks[other])
    {
      assert TaskSound(s.tasks[other]);
    }
  }

  lemma {:induction false} FinishAttemptKeeps(s: State, attempt: Id, status: AttemptStatus, stage: string, reason: Option<string>)
    requires Sound(s)
    ensures var t := FinishAttemptSpec(s, attempt, status, stage, reason); Keeps(s, t) && TasksSound(t)
  {
  }
}
