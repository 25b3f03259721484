/** What an accepted cycle proof means for the real graph, and where the bounded query can mislead it. */
module CycleSafety {
  import opened Basics
  import opened Graphs
  import opened SourceRelationships
  import opened CycleProof

  function Without(rows: Rows, excluded: Option<Id>): Rows {
    match excluded
    case None => rows
    case Some(id) => rows - {id}
  }

  ghost predicate SeesAll(q: Search, source: Id) {
    forall id | id in DerivedTouching(q.rows, q.task, source) && Some(id) != q.excluded :: id in q.Fetched(source)
  }

  /** At most one row more than the examination limit is active and derived at this source. */
  ghost predicate Fits(q: Search, source: Id) {
    |DerivedTouching(q.rows, q.task, source)| <= q.limits.examined + 1
  }

  lemma {:induction false} FetchedAll(q: Search, source: Id)
    requires Fits(q, source)
    ensures SeesAll(q, source)
  {
    assert forall id | id in DerivedTouching(q.rows, q.task, source) :: id in Elements(q.Fetched(source));
  }

  /** The page of the source leaves rows out although it looks complete, because the excluded row takes up a place on it. */
  ghost predicate Overlooks(q: Search, source: Id) {
    q.excluded.Some? && q.excluded.value in q.Fetched(source) && !Fits(q, source)
  }

  lemma {:induction false} SeenWithoutExcluded(q: Search, source: Id)
    requires !Fits(q, source) && (q.excluded.Some? ==> q.excluded.value !in q.Fetched(source))
    ensures |q.Seen(source)| > q.limits.examined
  {
    AscendingCardinality(q.Fetched(source));
    assert q.Seen(source) == Elements(q.Fetched(source));
  }

  /**
   When the search stays within its limits, it has seen every row of a source it searched exactly when the source
   has no more rows than one query returns. Otherwise the excluded row is on the page, and made room for a blind spot.
   */
  lemma {:induction false} BlindSpots(q: Search, upstream: Id, source: Id)
    requires q.WithinLimits(upstream) && source in q.Horizon(upstream)
    ensures SeesAll(q, source) <==> Fits(q, source)
    ensures !SeesAll(q, source) <==> Overlooks(q, source)
    ensures q.excluded == None ==> Fits(q, source)
  {
    assert q.Seen(source) <= q.SeenFrom(q.Horizon(upstream));
    SubsetCardinality(q.Seen(source), q.SeenFrom(q.Horizon(upstream)));
    if Fits(q, source) {
      FetchedAll(q, source);
    } else {
      if q.excluded.Some? ==> q.excluded.value !in q.Fetched(source) {
        SeenWithoutExcluded(q, source);
      }
      if SeesAll(q, source) {
        Oversized(q, source);
      }
    }
  }

  /** A page that shows every row of an oversized source must leave out the excluded one, and is too long. */
  lemma {:induction false} Oversized(q: Search, source: Id)
    requires SeesAll(q, source) && !Fits(q, source)
    ensures |q.Seen(source)| > q.limits.examined
  {
    var records := q.Fetched(source);
    var touching := DerivedTouching(q.rows, q.task, source);
    AscendingCardinality(records);
    match q.excluded
    case None =>
      assert q.Seen(source) == Elements(records);
    case Some(id) =>
      assert touching - {id} <= Elements(records);
      if id in records {
        assert touching <= Elements(records);
        SubsetCardinality(touching, Elements(records));
        assert false;
      }
      assert q.Seen(source) == Elements(records);
  }

  lemma {:induction false} RealEdgeSeen(q: Search, e: (Id, Id))
    requires e in DerivedEdges(Without(q.rows, q.excluded), q.task) && SeesAll(q, e.0)
    ensures e in q.SeenEdges()
  {
    var rest := Without(q.rows, q.excluded);
    var id :| id in rest && rest[id].ActiveDerived(q.task) && e == (rest[id].DerivedEnd(), rest[id].UpstreamEnd());
    assert id in DerivedTouching(q.rows, q.task, e.0);
    assert id in q.Seen(q.rows[id].DerivedEnd());
  }

  /** The excluded row, if there is one, joins the two ends of the edge to be written. */
  ghost predicate ExcludesOwnRow(q: Search, derived: Id, upstream: Id) {
    q.excluded.Some? && q.excluded.value in q.rows ==>
      var row := q.rows[q.excluded.value]; {row.low, row.high} == {derived, upstream}
  }

  /** Of all sources searched, only the upstream source itself can hide rows. */
  lemma {:induction false} OnlyUpstreamHides(q: Search, derived: Id, upstream: Id, source: Id)
    requires q.ProofExists(derived, upstream) && ExcludesOwnRow(q, derived, upstream) && source in q.Horizon(upstream)
    ensures source != upstream ==> SeesAll(q, source)
    ensures SeesAll(q, source) <==> !Overlooks(q, source)
  {
    BlindSpots(q, upstream, source);
    if Overlooks(q, source) {
      var row := q.rows[q.excluded.value];
      assert row.Touches(source);
      assert source in {row.low, row.high};
    }
  }

  /** A derivation of the source whose row the page leaves out. */
  ghost predicate Hidden(q: Search, source: Id, id: Id) {
    && id in DerivedTouching(q.rows, q.task, source) && Some(id) != q.excluded && id !in q.Fetched(source)
    && q.rows[id].DerivedEnd() == source
  }

  lemma {:induction false} LeavesHorizon(q: Search, derived: Id, upstream: Id, e: (Id, Id)) returns (id: Id)
    requires q.ProofExists(derived, upstream) && ExcludesOwnRow(q, derived, upstream)
    requires e in DerivedEdges(Without(q.rows, q.excluded), q.task) && e.0 in q.Horizon(upstream) && e.1 !in q.Horizon(upstream)
    ensures e.0 == upstream && Hidden(q, upstream, id) && q.rows[id].UpstreamEnd() == e.1
  {
    OnlyUpstreamHides(q, derived, upstream, e.0);
    if SeesAll(q, e.0) {
      RealEdgeSeen(q, e);
    }
    var rest := Without(q.rows, q.excluded);
    id :| id in rest && rest[id].ActiveDerived(q.task) && e == (rest[id].DerivedEnd(), rest[id].UpstreamEnd());
    assert id in DerivedTouching(q.rows, q.task, e.0);
    FetchedIsFollowed(q, id);
  }

  lemma {:induction false} FetchedIsFollowed(q: Search, id: Id)
    requires id in q.rows && Some(id) != q.excluded
    ensures id in q.Fetched(q.rows[id].DerivedEnd()) ==> (q.rows[id].DerivedEnd(), q.rows[id].UpstreamEnd()) in q.SeenEdges()
  {
    if id in q.Fetched(q.rows[id].DerivedEnd()) {
      assert id in q.Seen(q.rows[id].DerivedEnd());
    }
  }

  lemma {:induction false} EscapingEdge(edges: set<(Id, Id)>, inside: set<Id>, path: seq<Id>, b: Id) returns (e: (Id, Id))
    requires Walk(edges, path) && path[0] in inside && path[|path| - 1] == b && b !in inside
    ensures e in edges && e.0 in inside && e.1 !in inside && Reaches(edges, e.1, b)
  {
    if path[1] in inside {
      e := EscapingEdge(edges, inside, path[1..], b);
    } else {
      e := (path[0], path[1]);
      assert WalkFromTo(edges, path[1..], path[1], b);
    }
  }

  /** Some hidden derivation of the upstream source leads on to the derived one. */
  ghost predicate HiddenPath(q: Search, derived: Id, upstream: Id) {
    exists id :: Hidden(q, upstream, id) &&
      Reaches(DerivedEdges(Without(q.rows, q.excluded), q.task), q.rows[id].UpstreamEnd(), derived)
  }

  lemma {:induction false} CycleIsHidden(q: Search, actual: set<(Id, Id)>, derived: Id, upstream: Id, path: seq<Id>)
    requires q.ProofExists(derived, upstream) && ExcludesOwnRow(q, derived, upstream)
    requires actual == DerivedEdges(Without(q.rows, q.excluded), q.task) && WalkFromTo(actual, path, upstream, derived)
    ensures HiddenPath(q, derived, upstream)
  {
    BallGrows(q.SeenEdges(), {upstream}, 0, q.limits.hops);
    var e := EscapingEdge(actual, q.Horizon(upstream), path, derived);
    var id := LeavesHorizon(q, derived, upstream, e);
  }

  lemma {:induction false} HiddenIsCycle(q: Search, derived: Id, upstream: Id, id: Id)
    requires Hidden(q, upstream, id)
    requires Reaches(DerivedEdges(Without(q.rows, q.excluded), q.task), q.rows[id].UpstreamEnd(), derived)
    ensures Reaches(DerivedEdges(Without(q.rows, q.excluded), q.task), upstream, derived)
  {
    var rest := Without(q.rows, q.excluded);
    assert id in rest && rest[id].ActiveDerived(q.task);
    EdgeFirst(DerivedEdges(rest, q.task), upstream, q.rows[id].UpstreamEnd(), derived);
  }

  lemma {:induction false} EdgeFirst(edges: set<(Id, Id)>, a: Id, b: Id, c: Id)
    requires (a, b) in edges && Reaches(edges, b, c)
    ensures Reaches(edges, a, c)
  {
    var path: seq<Id> :| WalkFromTo(edges, path, b, c);
    assert WalkFromTo(edges, [a] + path, a, c);
  }

  /** Exactly when an accepted edge closes a cycle: a derivation of the upstream source that the page left out leads on to
      the derived source. */
  lemma {:induction false} AcceptedCycleIsHidden(q: Search, derived: Id, upstream: Id)
    requires q.ProofExists(derived, upstream) && ExcludesOwnRow(q, derived, upstream)
    ensures Reaches(DerivedEdges(Without(q.rows, q.excluded), q.task), upstream, derived) <==> HiddenPath(q, derived, upstream)
  {
    var actual := DerivedEdges(Without(q.rows, q.excluded), q.task);
    if Reaches(actual, upstream, derived) {
      var path: seq<Id> :| WalkFromTo(actual, path, upstream, derived);
      CycleIsHidden(q, actual, derived, upstream, path);
    }
    if HiddenPath(q, derived, upstream) {
      var id :| Hidden(q, upstream, id) && Reaches(actual, q.rows[id].UpstreamEnd(), derived);
      HiddenIsCycle(q, derived, upstream, id);
    }
  }

  lemma {:induction false} SearchedIsReachable(q: Search, upstream: Id, source: Id)
    requires source in q.Horizon(upstream)
    ensures Reaches(DerivedEdges(Without(q.rows, q.excluded), q.task), upstream, source)
  {
    var actual := DerivedEdges(Without(q.rows, q.excluded), q.task);
    SeenWithin(q);
    var path := BallHasWalk(q.SeenEdges(), upstream, q.limits.hops, source);
    assert WalkFromTo(actual, path, upstream, source);
  }

  /** An accepted search proves that the derived source cannot be reached from the upstream source, unless the page of a
      source reachable from the upstream one overlooks rows. Without an excluded row none does. */
  lemma {:induction false} AcceptedIsUnreachable(q: Search, derived: Id, upstream: Id)
    requires q.ProofExists(derived, upstream)
    requires forall s | Reaches(DerivedEdges(Without(q.rows, q.excluded), q.task), upstream, s) :: !Overlooks(q, s)
    ensures !Reaches(DerivedEdges(Without(q.rows, q.excluded), q.task), upstream, derived)
  {
    forall s | s in q.Horizon(upstream)
      ensures SeesAll(q, s)
    {
      SearchedIsReachable(q, upstream, s);
      BlindSpots(q, upstream, s);
    }
    SeenIsSmall(q, derived, upstream);
  }

  ghost function RowsTouching(q: Search, sources: set<Id>): set<Id> {
    set s, id | s in sources && id in DerivedTouching(q.rows, q.task, s) && Some(id) != q.excluded :: id
  }

  /** The bounds, stated for the real graph. */
  ghost predicate SmallEnough(q: Search, upstream: Id) {
    var actual := DerivedEdges(Without(q.rows, q.excluded), q.task);
    var ball := Ball(actual, {upstream}, q.limits.hops);
    && Closed(actual, ball)
    && |ball| <= q.limits.visited
    && |RowsTouching(q, ball)| <= q.limits.examined
  }

  /** Fewer edges, but all that leave the ball, give the same ball. */
  lemma {:induction false} SameBall(few: set<(Id, Id)>, all: set<(Id, Id)>, roots: set<Id>, n: nat, hops: nat)
    requires few <= all && n <= hops && forall e | e in all && e.0 in Ball(all, roots, hops) :: e in few
    ensures Ball(few, roots, n) == Ball(all, roots, n)
  {
    if n > 0 {
      SameBall(few, all, roots, n - 1, hops);
      BallGrows(all, roots, n - 1, hops);
    }
  }

  lemma {:induction false} SeenWithin(q: Search)
    ensures q.SeenEdges() <= DerivedEdges(Without(q.rows, q.excluded), q.task)
  {
    forall e | e in q.SeenEdges()
      ensures e in DerivedEdges(Without(q.rows, q.excluded), q.task)
    {
      var id :| id in q.rows && id in q.Seen(q.rows[id].DerivedEnd()) && e == (q.rows[id].DerivedEnd(), q.rows[id].UpstreamEnd());
      assert id in Without(q.rows, q.excluded);
    }
  }

  lemma {:induction false} SeenRows(q: Search, sources: set<Id>)
    requires forall s | s in sources :: SeesAll(q, s)
    ensures q.SeenFrom(sources) == RowsTouching(q, sources)
  {
    forall s | s in sources
      ensures forall id :: id in q.Seen(s) <==> id in DerivedTouching(q.rows, q.task, s) && Some(id) != q.excluded
    {
      assert SeesAll(q, s);
      assert forall id | id in q.Fetched(s) :: id in Elements(q.Fetched(s));
    }
  }

  /** When every source of the real ball is fully seen, the search sees exactly that ball. */
  lemma {:induction false} SeenBallIsReal(q: Search, upstream: Id)
    requires forall s | s in Ball(DerivedEdges(Without(q.rows, q.excluded), q.task), {upstream}, q.limits.hops) :: SeesAll(q, s)
    ensures var actual := DerivedEdges(Without(q.rows, q.excluded), q.task);
      var ball := Ball(actual, {upstream}, q.limits.hops);
      && q.Horizon(upstream) == ball && q.SeenFrom(ball) == RowsTouching(q, ball)
      && (Closed(q.SeenEdges(), ball) <==> Closed(actual, ball))
  {
    var actual := DerivedEdges(Without(q.rows, q.excluded), q.task);
    var ball := Ball(actual, {upstream}, q.limits.hops);
    SeenWithin(q);
    forall e | e in actual && e.0 in ball
      ensures e in q.SeenEdges()
    {
      RealEdgeSeen(q, e);
    }
    SameBall(q.SeenEdges(), actual, {upstream}, q.limits.hops, q.limits.hops);
    SeenRows(q, ball);
  }

  lemma {:induction false} SmallIsSeen(q: Search, upstream: Id, source: Id)
    requires SmallEnough(q, upstream)
    requires source in Ball(DerivedEdges(Without(q.rows, q.excluded), q.task), {upstream}, q.limits.hops)
    ensures SeesAll(q, source)
  {
    var ball := Ball(DerivedEdges(Without(q.rows, q.excluded), q.task), {upstream}, q.limits.hops);
    var touching := DerivedTouching(q.rows, q.task, source);
    var own := if q.excluded.Some? then {q.excluded.value} else {};
    forall id | id in touching - own
      ensures id in RowsTouching(q, ball)
    {
      assert id in touching && Some(id) != q.excluded;
    }
    SubsetCardinality(touching - own, RowsTouching(q, ball));
    SubsetCardinality(touching, (touching - own) + own);
    FetchedAll(q, source);
  }

  /** Whatever it excludes, the search accepts every edge that closes no cycle in a small enough graph. */
  lemma {:induction false} SmallIsAccepted(q: Search, derived: Id, upstream: Id)
    requires SmallEnough(q, upstream)
    requires !Reaches(DerivedEdges(Without(q.rows, q.excluded), q.task), upstream, derived)
    ensures q.ProofExists(derived, upstream)
  {
    var actual := DerivedEdges(Without(q.rows, q.excluded), q.task);
    var ball := Ball(actual, {upstream}, q.limits.hops);
    forall s | s in ball
      ensures SeesAll(q, s)
    {
      SmallIsSeen(q, upstream, s);
    }
    SeenBallIsReal(q, upstream);
    if derived in ball {
      var path := BallHasWalk(actual, upstream, q.limits.hops, derived);
    }
  }

  /** What acceptance means when every searched source was fully seen. */
  lemma {:induction false} SeenIsSmall(q: Search, derived: Id, upstream: Id)
    requires q.ProofExists(derived, upstream) && forall s | s in q.Horizon(upstream) :: SeesAll(q, s)
    ensures SmallEnough(q, upstream)
    ensures !Reaches(DerivedEdges(Without(q.rows, q.excluded), q.task), upstream, derived)
  {
    var actual, horizon := DerivedEdges(Without(q.rows, q.excluded), q.task), q.Horizon(upstream);
    forall e | e in actual && e.0 in horizon
      ensures e.1 in horizon
    {
      RealEdgeSeen(q, e);
    }
    BallGrows(q.SeenEdges(), {upstream}, 0, q.limits.hops);
    BallWithinClosed(actual, {upstream}, q.limits.hops, horizon);
    SeenBallIsReal(q, upstream);
    if path: seq<Id> :| WalkFromTo(actual, path, upstream, derived) {
      WalkStaysInClosed(actual, horizon, path);
    }
  }

  /** Unless a source reachable from the upstream one has an overlooked page, the search accepts exactly the edges that
      close no cycle in a small enough graph. However crowded other sources are does not matter. */
  lemma {:induction false} AcceptsExactly(q: Search, derived: Id, upstream: Id)
    requires forall s | Reaches(DerivedEdges(Without(q.rows, q.excluded), q.task), upstream, s) :: !Overlooks(q, s)
    ensures q.ProofExists(derived, upstream) <==>
      SmallEnough(q, upstream) && !Reaches(DerivedEdges(Without(q.rows, q.excluded), q.task), upstream, derived)
  {
    if q.ProofExists(derived, upstream) {
      forall s | s in q.Horizon(upstream)
        ensures SeesAll(q, s)
      {
        SearchedIsReachable(q, upstream, s);
        BlindSpots(q, upstream, s);
      }
      SeenIsSmall(q, derived, upstream);
    } else if SmallEnough(q, upstream) && !Reaches(DerivedEdges(Without(q.rows, q.excluded), q.task), upstream, derived) {
      SmallIsAccepted(q, derived, upstream);
    }
  }

  /** Without an excluded row that is so unconditionally. */
  lemma {:induction false} CreationAcceptsExactly(q: Search, derived: Id, upstream: Id)
    requires q.excluded == None
    ensures q.ProofExists(derived, upstream) <==>
      SmallEnough(q, upstream) && !Reaches(DerivedEdges(q.rows, q.task), upstream, derived)
  {
    AcceptsExactly(q, derived, upstream);
  }

  /** With the row being written excluded, only the page of the upstream source matters. */
  lemma {:induction false} ChangeAcceptsExactly(q: Search, derived: Id, upstream: Id)
    requires ExcludesOwnRow(q, derived, upstream) && !Overlooks(q, upstream)
    ensures q.ProofExists(derived, upstream) <==>
      SmallEnough(q, upstream) && !Reaches(DerivedEdges(Without(q.rows, q.excluded), q.task), upstream, derived)
  {
    if q.ProofExists(derived, upstream) {
      forall s | s in q.Horizon(upstream)
        ensures SeesAll(q, s)
      {
        OnlyUpstreamHides(q, derived, upstream, s);
      }
      SeenIsSmall(q, derived, upstream);
    } else if SmallEnough(q, upstream) && !Reaches(DerivedEdges(Without(q.rows, q.excluded), q.task), upstream, derived) {
      SmallIsAccepted(q, derived, upstream);
    }
  }

  /** Writing a checked row keeps the task's derived graph acyclic exactly when it adds no edge with a hidden path back. */
  lemma {:induction false} WritingKeepsAcyclic(q: Search, id: Id, row: Relationship)
    requires AcyclicTask(q.rows, q.task)
    requires id !in Without(q.rows, q.excluded) && q.rows[id := row] == Without(q.rows, q.excluded)[id := row]
    requires row.ActiveDerived(q.task) ==>
      q.ProofExists(row.DerivedEnd(), row.UpstreamEnd()) && ExcludesOwnRow(q, row.DerivedEnd(), row.UpstreamEnd())
    ensures AcyclicTask(q.rows[id := row], q.task) <==>
      !(row.ActiveDerived(q.task) && HiddenPath(q, row.DerivedEnd(), row.UpstreamEnd()))
  {
    var rest := Without(q.rows, q.excluded);
    AcyclicSubset(DerivedEdges(rest, q.task), DerivedEdges(q.rows, q.task));
    EdgesAfterWriting(rest, q.task, id, row);
    if row.ActiveDerived(q.task) {
      AcceptedCycleIsHidden(q, row.DerivedEnd(), row.UpstreamEnd());
      AddEdgeAcyclic(DerivedEdges(rest, q.task), row.DerivedEnd(), row.UpstreamEnd());
    } else {
      assert DerivedEdges(rest[id := row], q.task) == DerivedEdges(rest, q.task);
    }
  }

  /** Hidden rows need an overlooked page. */
  lemma {:induction false} NothingHidden(q: Search, derived: Id, upstream: Id)
    requires q.ProofExists(derived, upstream) && ExcludesOwnRow(q, derived, upstream)
    ensures HiddenPath(q, derived, upstream) ==> Overlooks(q, upstream)
  {
    BallGrows(q.SeenEdges(), {upstream}, 0, q.limits.hops);
    OnlyUpstreamHides(q, derived, upstream, upstream);
  }

  lemma {:induction false} EdgesAfterWriting(rest: Rows, task: Id, id: Id, row: Relationship)
    requires id !in rest
    ensures DerivedEdges(rest[id := row], task) ==
      DerivedEdges(rest, task) + (if row.ActiveDerived(task) then {(row.DerivedEnd(), row.UpstreamEnd())} else {})
  {
    var all := rest[id := row];
    forall e | e in DerivedEdges(rest, task)
      ensures e in DerivedEdges(all, task)
    {
      var k :| k in rest && rest[k].ActiveDerived(task) && e == (rest[k].DerivedEnd(), rest[k].UpstreamEnd());
      assert all[k] == rest[k];
    }
    if row.ActiveDerived(task) {
      assert all[id].ActiveDerived(task);
    }
  }
}
