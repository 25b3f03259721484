/**
 The bounded search that must prove a new derived edge safe before it is written. It either proves
 the derived source unreachable from the upstream source, or refuses.
 */
module CycleProof {
  import opened Basics
  import opened Graphs
  import opened BreadthFirst
  import opened SourceRelationships

  datatype ProofOutcome = Proven | WouldCycle | BeyondLimits

  /** What one search runs over: the task's rows, the row it must ignore, and the bounds. */
  datatype Search = Search(rows: Rows, task: Id, excluded: Option<Id>, limits: Limits) {

    /** The rows one query returns: sorted, cut at one more than the examination limit. */
    function Fetched(source: Id): (r: seq<Id>)
      ensures Elements(r) <= DerivedTouching(rows, task, source)
      ensures forall id | id in r :: id in rows && rows[id].ActiveDerived(task) && rows[id].Touches(source)
    {
      var r := FirstSorted(DerivedTouching(rows, task, source), limits.examined + 1);
      assert forall id | id in r :: id in Elements(r);
      r
    }

    /** What the search looks at for one source: the excluded row is skipped after the cut. */
    ghost function Seen(source: Id): set<Id> {
      set id | id in Fetched(source) && Some(id) != excluded
    }

    ghost function SeenFrom(sources: set<Id>): set<Id> {
      set s, id | s in sources && id in Seen(s) :: id
    }

    /** The edges the search can follow. */
    ghost function SeenEdges(): set<(Id, Id)> {
      set id | id in rows && id in Seen(rows[id].DerivedEnd()) :: (rows[id].DerivedEnd(), rows[id].UpstreamEnd())
    }

    ghost function Horizon(upstream: Id): set<Id> {
      Ball(SeenEdges(), {upstream}, limits.hops)
    }

    /** Everything upstream lies within the allowed hops, sources and examined rows. */
    ghost predicate WithinLimits(upstream: Id) {
      && Closed(SeenEdges(), Horizon(upstream))
      && |Horizon(upstream)| <= limits.visited
      && |SeenFrom(Horizon(upstream))| <= limits.examined
    }

    /** The exact condition under which the search lets the edge from derived to upstream be written. */
    ghost predicate ProofExists(derived: Id, upstream: Id) {
      WithinLimits(upstream) && derived !in Horizon(upstream)
    }

    lemma {:induction false} UnreadAtFirst(source: Id)
      ensures EdgesOut(SeenEdges(), source) == Unread(rows, Fetched(source), 0, source, excluded)
      ensures Seen(source) == Considered(Fetched(source), excluded)
    {
      var records := Fetched(source);
      forall e | e in EdgesOut(SeenEdges(), source)
        ensures e in Unread(rows, records, 0, source, excluded)
      {
        var id :| id in rows && id in Seen(rows[id].DerivedEnd()) && e == (rows[id].DerivedEnd(), rows[id].UpstreamEnd());
        var j :| 0 <= j < |records| && records[j] == id;
      }
      forall e | e in Unread(rows, records, 0, source, excluded)
        ensures e in EdgesOut(SeenEdges(), source)
      {
        var j :| 0 <= j < |records| && Some(records[j]) != excluded
          && rows[records[j]].DerivedEnd() == source && e == (source, rows[records[j]].UpstreamEnd());
        assert records[j] in Seen(source);
      }
    }

    lemma {:induction false} SeenFromOneMore(searched: set<Id>, source: Id)
      ensures SeenFrom(searched + {source}) == SeenFrom(searched) + Seen(source)
    {
    }

    lemma {:induction false} TooManyExamined(upstream: Id, sources: set<Id>, examined: set<Id>)
      requires sources <= Horizon(upstream) && examined <= SeenFrom(sources) && |examined| > limits.examined
      ensures !WithinLimits(upstream)
    {
      SubsetCardinality(examined, SeenFrom(Horizon(upstream)));
    }
  }

  /** The rows of a page that the search considers. */
  ghost function Considered(records: seq<Id>, excluded: Option<Id>): set<Id> {
    set id | id in records && Some(id) != excluded
  }

  /** The examined rows after the first k rows of a page. */
  ghost function Counted(base: set<Id>, records: seq<Id>, k: nat, excluded: Option<Id>): set<Id>
    requires k <= |records|
  {
    if k == 0 then base
    else if Some(records[k - 1]) == excluded then Counted(base, records, k - 1, excluded)
    else Counted(base, records, k - 1, excluded) + {records[k - 1]}
  }

  lemma {:induction false} CountedAll(base: set<Id>, records: seq<Id>, k: nat, excluded: Option<Id>)
    requires k <= |records|
    ensures Counted(base, records, k, excluded) == base + Considered(records[..k], excluded)
  {
    if k > 0 {
      CountedAll(base, records, k - 1, excluded);
      assert records[..k] == records[..k - 1] + [records[k - 1]];
    }
  }

  /** The edges out of a source declared by the rows of its page from position k on. */
  ghost function Unread(rows: Rows, records: seq<Id>, k: nat, source: Id, excluded: Option<Id>): set<(Id, Id)>
    requires k <= |records|
    requires forall id | id in records :: id in rows
  {
    set j | k <= j < |records| && Some(records[j]) != excluded && rows[records[j]].DerivedEnd() == source ::
      (source, rows[records[j]].UpstreamEnd())
  }

  lemma {:induction false} ReadOne(rows: Rows, records: seq<Id>, k: nat, source: Id, excluded: Option<Id>)
    requires k < |records|
    requires forall id | id in records :: id in rows
    ensures var r := rows[records[k]];
      Unread(rows, records, k, source, excluded) <= Unread(rows, records, k + 1, source, excluded) +
        (if Some(records[k]) != excluded && r.DerivedEnd() == source then {(source, r.UpstreamEnd())} else {})
    ensures var r := rows[records[k]]; Some(records[k]) != excluded && r.DerivedEnd() == source ==>
      (source, r.UpstreamEnd()) in Unread(rows, records, 0, source, excluded)
  {
  }

  /** The bookkeeping between any two steps; the keys of the depths are the visited sources. */
  ghost predicate Running(
    f: Frontier, edges: set<(Id, Id)>, limits: Limits, derived: Id, upstream: Id, depths: map<Id, nat>, todo: set<(Id, Id)>)
  {
    match limits
    case Limits(_, maxVisited, _, maxHops, _) =>
      && f.Searching(edges, {upstream}, depths, todo)
      && |depths.Keys| <= maxVisited && derived !in depths
      && (forall v | v in depths :: depths[v] <= maxHops)
  }

  /** Following edge e to a source not seen before. */
  lemma {:induction false} Visit(
    f: Frontier, edges: set<(Id, Id)>, limits: Limits, derived: Id, upstream: Id, depths: map<Id, nat>,
    todo: set<(Id, Id)>, e: (Id, Id), left: set<(Id, Id)>, n: nat, further: map<Id, nat>)
    requires Running(f, edges, limits, derived, upstream, depths, todo) && todo <= left + {e}
    requires e in edges && e.0 in depths && depths[e.0] == f.level && e.1 !in depths
    requires e.1 != derived && f.level < limits.hops && |depths.Keys| < limits.visited
    requires n == f.level + 1 && further == depths[e.1 := n]
    ensures Running(f.Put(e.1), edges, limits, derived, upstream, further, left)
  {
    Discover(f, edges, {upstream}, depths, todo, e, left, n);
    assert further.Keys == depths.Keys + {e.1};
  }

  /** A source not seen before that may not be visited lies beyond the limits. */
  lemma {:induction false} CannotVisit(
    f: Frontier, edges: set<(Id, Id)>, limits: Limits, derived: Id, upstream: Id, depths: map<Id, nat>,
    todo: set<(Id, Id)>, e: (Id, Id))
    requires Running(f, edges, limits, derived, upstream, depths, todo)
    requires e in edges && e.0 in depths && depths[e.0] == f.level && e.1 !in depths
    requires f.level >= limits.hops || |depths.Keys| >= limits.visited
    ensures !Closed(edges, Ball(edges, {upstream}, limits.hops)) || |Ball(edges, {upstream}, limits.hops)| > limits.visited
  {
    StepFrom(edges, upstream, depths, e, limits.hops);
    DepthsInBall(edges, {upstream}, depths, limits.hops);
    if Closed(edges, Ball(edges, {upstream}, limits.hops)) && f.level < limits.hops {
      SubsetCardinality(depths.Keys + {e.1}, Ball(edges, {upstream}, limits.hops));
    }
  }

  /** Refusals, in terms of the ball of allowed hops and of the rows that count as examined. */
  ghost predicate Refused(
    outcome: ProofOutcome, edges: set<(Id, Id)>, limits: Limits, derived: Id, upstream: Id, countable: set<Id>)
  {
    var ball := Ball(edges, {upstream}, limits.hops);
    match outcome
    case Proven => false
    case WouldCycle => Reaches(edges, upstream, derived) && (Closed(edges, ball) ==> derived in ball)
    case BeyondLimits => !Closed(edges, ball) || |ball| > limits.visited || |countable| > limits.examined
  }

  /** The considered row of a source declares edge e, or an edge into that source. */
  method FollowEdge(
    edgeDerived: Id, edgeUpstream: Id, limits: Limits, derived: Id, ghost upstream: Id, source: Id,
    queue0: seq<Id>, depths0: map<Id, nat>, ghost edges: set<(Id, Id)>, ghost f0: Frontier,
    ghost todo: set<(Id, Id)>, ghost left: set<(Id, Id)>, ghost countable: set<Id>)
    returns (outcome: ProofOutcome, queue: seq<Id>, depths: map<Id, nat>, ghost f: Frontier)
    requires Running(f0, edges, limits, derived, upstream, depths0, todo) && f0.Queued(queue0)
    requires source in depths0 && depths0[source] == f0.level
    requires if edgeDerived == source then (source, edgeUpstream) in edges && todo <= left + {(source, edgeUpstream)}
             else todo <= left
    ensures outcome == Proven ==> Running(f, edges, limits, derived, upstream, depths, left) && f.Queued(queue)
    ensures outcome == Proven ==> f.(next := f0.next) == f0 && source in depths && depths[source] == f.level
    ensures outcome != Proven ==> Refused(outcome, edges, limits, derived, upstream, countable)
  {
    outcome, queue, depths, f := Proven, queue0, depths0, f0;
    ghost var e := (edgeDerived, edgeUpstream);
    if edgeDerived != source {
      NothingNew(f, edges, {upstream}, depths, todo, e, left);
      return;
    }
    if edgeUpstream == derived {
      StepFrom(edges, upstream, depths, e, limits.hops);
      outcome := WouldCycle;
      return;
    }
    if edgeUpstream in depths {
      NothingNew(f, edges, {upstream}, depths, todo, e, left);
      return;
    }
    if depths[source] >= limits.hops || |depths.Keys| >= limits.visited {
      CannotVisit(f, edges, limits, derived, upstream, depths, todo, e);
      outcome := BeyondLimits;
      return;
    }
    var depth := depths[source] + 1;
    var further := depths[edgeUpstream := depth];
    Visit(f, edges, limits, derived, upstream, depths, todo, e, left, depth, further);
    PutQueued(f, queue, edgeUpstream);
    queue, depths, f := queue + [edgeUpstream], further, f.Put(edgeUpstream);
  }

  /** Count a row as examined unless that would exceed the limit. */
  method Examine(id: Id, examined0: set<Id>, limit: nat, ghost countable: set<Id>) returns (ok: bool, examined: set<Id>)
    requires examined0 <= countable && id in countable && |examined0| <= limit
    ensures ok ==> examined == examined0 + {id} && |examined| <= limit
    ensures !ok ==> |countable| > limit
  {
    ok, examined := true, examined0;
    if id !in examined {
      if |examined| >= limit {
        ProperSubset(examined, id, countable);
        ok := false;
      } else {
        examined := examined + {id};
      }
    }
  }

  /** One page of rows to scan for a source that has just left the queue. */
  datatype Page = Page(
    rows: Rows, records: seq<Id>, excluded: Option<Id>, limits: Limits, derived: Id, source: Id)
  {
    ghost function Todo(k: nat): set<(Id, Id)>
      requires k <= |records| && forall id | id in records :: id in rows
    {
      Unread(rows, records, k, source, excluded)
    }
  }

  /** What a scan is measured against: the graph, the frontier before it, and the rows that may count. */
  datatype Aim = Aim(edges: set<(Id, Id)>, upstream: Id, before: Frontier, examined: set<Id>)

  ghost predicate Scanned(
    p: Page, aim: Aim, k: nat, queue: seq<Id>, depths: map<Id, nat>, examined: set<Id>, f: Frontier)
  {
    && k <= |p.records| && (forall id | id in p.records :: id in p.rows)
    && EdgesOut(aim.edges, p.source) == p.Todo(0)
    && Running(f, aim.edges, p.limits, p.derived, aim.upstream, depths, p.Todo(k))
    && f.Queued(queue) && f.(next := aim.before.next) == aim.before
    && p.source in depths && depths[p.source] == f.level
    && examined == Counted(aim.examined, p.records, k, p.excluded) && |examined| <= p.limits.examined
  }

  /** One row: skip the excluded one, count it, and follow the edge it declares. */
  method ScanRow(p: Page, ghost aim: Aim, k: nat, queue0: seq<Id>, depths0: map<Id, nat>, examined0: set<Id>, ghost f0: Frontier)
    returns (outcome: ProofOutcome, queue: seq<Id>, depths: map<Id, nat>, examined: set<Id>, ghost f: Frontier)
    requires Scanned(p, aim, k, queue0, depths0, examined0, f0) && k < |p.records|
    ensures outcome == Proven ==> Scanned(p, aim, k + 1, queue, depths, examined, f)
    ensures outcome != Proven ==> Refused(outcome, aim.edges, p.limits, p.derived, aim.upstream,
      aim.examined + Considered(p.records, p.excluded))
  {
    ReadOne(p.rows, p.records, k, p.source, p.excluded);
    outcome, queue, depths, examined, f := Proven, queue0, depths0, examined0, f0;
    var id := p.records[k];
    if Some(id) == p.excluded {
      NothingNew(f, aim.edges, {aim.upstream}, depths, p.Todo(k), (p.source, p.source), p.Todo(k + 1));
      return;
    }
    ghost var countable := aim.examined + Considered(p.records, p.excluded);
    CountedAll(aim.examined, p.records, k, p.excluded);
    var ok;
    ok, examined := Examine(id, examined, p.limits.examined, countable);
    if !ok {
      outcome := BeyondLimits;
      return;
    }
    outcome, queue, depths, f := FollowEdge(
      p.rows[id].DerivedEnd(), p.rows[id].UpstreamEnd(), p.limits, p.derived, aim.upstream, p.source,
      queue, depths, aim.edges, f, p.Todo(k), p.Todo(k + 1), countable);
  }

  method ScanPage(p: Page, ghost aim: Aim, queue0: seq<Id>, depths0: map<Id, nat>, examined0: set<Id>, ghost f0: Frontier)
    returns (outcome: ProofOutcome, queue: seq<Id>, depths: map<Id, nat>, examined: set<Id>, ghost f: Frontier)
    requires Scanned(p, aim, 0, queue0, depths0, examined0, f0)
    ensures outcome == Proven ==> Scanned(p, aim, |p.records|, queue, depths, examined, f)
    ensures outcome != Proven ==> Refused(outcome, aim.edges, p.limits, p.derived, aim.upstream,
      aim.examined + Considered(p.records, p.excluded))
  {
    outcome, queue, depths, examined, f := Proven, queue0, depths0, examined0, f0;
    for k := 0 to |p.records|
      invariant outcome == Proven && Scanned(p, aim, k, queue, depths, examined, f)
    {
      outcome, queue, depths, examined, f := ScanRow(p, aim, k, queue, depths, examined, f);
      if outcome != Proven {
        return;
      }
    }
  }

  /** Between sources: all rows of the dequeued sources have been examined. */
  ghost predicate Progress(q: Search, derived: Id, upstream: Id, depths: map<Id, nat>, examined: set<Id>, f: Frontier) {
    && Running(f, q.SeenEdges(), q.limits, derived, upstream, depths, {})
    && examined == q.SeenFrom(f.done) && |examined| <= q.limits.examined
  }

  lemma {:induction false} NextSource(
    q: Search, derived: Id, upstream: Id, queue: seq<Id>, depths: map<Id, nat>, examined: set<Id>, f: Frontier)
    returns (g: Frontier)
    requires Progress(q, derived, upstream, depths, examined, f) && f.Queued(queue) && queue != []
    ensures queue[0] in depths && depths[queue[0]] == g.level && queue[0] !in f.done
    ensures g.done == f.done + {queue[0]} && g.done <= depths.Keys <= q.Horizon(upstream) && g.Queued(queue[1..])
    ensures Running(g, q.SeenEdges(), q.limits, derived, upstream, depths, EdgesOut(q.SeenEdges(), queue[0]))
  {
    var edges := q.SeenEdges();
    DepthsInBall(edges, {upstream}, depths, q.limits.hops);
    g := f;
    if f.now == {} {
      NextLevel(f, edges, {upstream}, depths);
      NextLevelQueued(f, queue);
      g := f.Advance();
    }
    TakeFirstQueued(g, queue);
    TakeFirst(g, edges, {upstream}, depths, queue[0]);
    g := g.Take(queue[0]);
  }

  lemma {:induction false} ProofComplete(q: Search, derived: Id, upstream: Id, depths: map<Id, nat>, examined: set<Id>, f: Frontier)
    requires Progress(q, derived, upstream, depths, examined, f) && f.Queued([])
    ensures q.ProofExists(derived, upstream)
  {
    var edges := q.SeenEdges();
    SearchEnds(f, edges, {upstream}, depths);
    DepthsInBall(edges, {upstream}, depths, q.limits.hops);
    BallWithinClosed(edges, {upstream}, q.limits.hops, depths.Keys);
    assert depths.Keys == q.Horizon(upstream);
  }

  lemma {:induction false} PageRead(p: Page, aim: Aim, queue: seq<Id>, depths: map<Id, nat>, examined: set<Id>, f: Frontier)
    requires Scanned(p, aim, |p.records|, queue, depths, examined, f)
    ensures Running(f, aim.edges, p.limits, p.derived, aim.upstream, depths, {})
    ensures examined == aim.examined + Considered(p.records, p.excluded)
  {
    assert p.Todo(|p.records|) == {};
    CountedAll(aim.examined, p.records, |p.records|, p.excluded);
    assert p.records[..|p.records|] == p.records;
  }

  lemma {:induction false} PageOpened(
    q: Search, derived: Id, upstream: Id, source: Id, p: Page, aim: Aim,
    queue: seq<Id>, depths: map<Id, nat>, examined: set<Id>, g: Frontier)
    requires p == Page(q.rows, q.Fetched(source), q.excluded, q.limits, derived, source)
    requires aim == Aim(q.SeenEdges(), upstream, g, examined) && |examined| <= q.limits.examined
    requires source in depths && depths[source] == g.level && g.Queued(queue)
    requires Running(g, q.SeenEdges(), q.limits, derived, upstream, depths, EdgesOut(q.SeenEdges(), source))
    ensures Scanned(p, aim, 0, queue, depths, examined, g)
  {
    q.UnreadAtFirst(source);
  }

  lemma {:induction false} RefusalStands(q: Search, derived: Id, upstream: Id, done: set<Id>, outcome: ProofOutcome)
    requires done <= q.Horizon(upstream)
    requires outcome != Proven && Refused(outcome, q.SeenEdges(), q.limits, derived, upstream, q.SeenFrom(done))
    ensures outcome == WouldCycle ==> Reaches(q.SeenEdges(), upstream, derived) && !q.ProofExists(derived, upstream)
    ensures outcome == BeyondLimits ==> !q.WithinLimits(upstream)
  {
    if |q.SeenFrom(done)| > q.limits.examined {
      q.TooManyExamined(upstream, done, q.SeenFrom(done));
    }
  }

  method SearchNext(
    q: Search, derived: Id, ghost upstream: Id, queue0: seq<Id>, depths0: map<Id, nat>, examined0: set<Id>, ghost f0: Frontier)
    returns (outcome: ProofOutcome, queue: seq<Id>, depths: map<Id, nat>, examined: set<Id>, ghost f: Frontier)
    requires Progress(q, derived, upstream, depths0, examined0, f0) && f0.Queued(queue0) && queue0 != []
    ensures outcome == Proven ==> Progress(q, derived, upstream, depths, examined, f) && f.Queued(queue)
    ensures outcome == Proven ==> f0.done < f.done <= q.Horizon(upstream)
    ensures outcome == WouldCycle ==> Reaches(q.SeenEdges(), upstream, derived) && !q.ProofExists(derived, upstream)
    ensures outcome == BeyondLimits ==> !q.WithinLimits(upstream)
  {
    ghost var g := NextSource(q, derived, upstream, queue0, depths0, examined0, f0);
    var source := queue0[0];
    var p := Page(q.rows, q.Fetched(source), q.excluded, q.limits, derived, source);
    ghost var aim := Aim(q.SeenEdges(), upstream, g, examined0);
    PageOpened(q, derived, upstream, source, p, aim, queue0[1..], depths0, examined0, g);
    outcome, queue, depths, examined, f := ScanPage(p, aim, queue0[1..], depths0, examined0, g);
    q.UnreadAtFirst(source);
    q.SeenFromOneMore(f0.done, source);
    if outcome == Proven {
      PageRead(p, aim, queue, depths, examined, f);
    } else {
      RefusalStands(q, derived, upstream, g.done, outcome);
    }
  }

  method ValidateNoCycle(q: Search, derived: Id, upstream: Id) returns (outcome: ProofOutcome)
    requires derived != upstream && q.limits.Valid()
    ensures outcome == Proven <==> q.ProofExists(derived, upstream)
    ensures outcome == WouldCycle ==> Reaches(q.SeenEdges(), upstream, derived)
    ensures outcome == BeyondLimits ==> !q.WithinLimits(upstream)
  {
    var queue: seq<Id> := [upstream];
    var depths: map<Id, nat> := map[upstream := 0];
    var examined: set<Id> := {};
    ghost var f := Frontier({}, {upstream}, {}, 0);
    assert Elements(queue) == {upstream};
    SearchStarts(q.SeenEdges(), queue, depths);
    while queue != []
      invariant Progress(q, derived, upstream, depths, examined, f) && f.Queued(queue)
      decreases q.Horizon(upstream) - f.done
    {
      outcome, queue, depths, examined, f := SearchNext(q, derived, upstream, queue, depths, examined, f);
      if outcome != Proven {
        return;
      }
    }
    ProofComplete(q, derived, upstream, depths, examined, f);
    return Proven;
  }
}
