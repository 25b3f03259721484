/**
 The invariant shared by the two bounded searches over source relationships: recorded depths are
 exact distances from the roots, and whole levels are discovered before the next one is searched.
 */
module BreadthFirst {
  import opened Basics
  import opened Graphs

  /** n is the distance of v from the roots. */
  ghost predicate ExactAt(edges: set<(Id, Id)>, roots: set<Id>, v: Id, n: nat) {
    v in Ball(edges, roots, n) && (n > 0 ==> v !in Ball(edges, roots, n - 1))
  }

  ghost predicate ExactDepths(edges: set<(Id, Id)>, roots: set<Id>, depths: map<Id, nat>) {
    forall v {:trigger ExactAt(edges, roots, v, depths[v])} | v in depths :: ExactAt(edges, roots, v, depths[v])
  }

  /** Edges out of finished vertices lead to discovered vertices, except for the edges still to do. */
  ghost predicate Explored(edges: set<(Id, Id)>, done: set<Id>, discovered: set<Id>, todo: set<(Id, Id)>) {
    forall e | e in edges && e.0 in done && e !in todo :: e.1 in discovered
  }

  /** The queue: first the vertices of the current level, then those of the next. */
  datatype Frontier = Frontier(done: set<Id>, now: set<Id>, next: set<Id>, level: nat) {
    ghost predicate Queued(queue: seq<Id>) {
      && |queue| == |now| + |next|
      && Elements(queue[..|now|]) == now
      && Elements(queue[|now|..]) == next
    }

    ghost predicate Labels(depths: map<Id, nat>) {
      && depths.Keys == done + now + next
      && done !! now && done !! next && now !! next
      && (forall v | v in done :: depths[v] <= level)
      && (forall v | v in now :: depths[v] == level)
      && (forall v | v in next :: depths[v] == level + 1)
    }

    ghost predicate Searching(edges: set<(Id, Id)>, roots: set<Id>, depths: map<Id, nat>, todo: set<(Id, Id)>) {
      && Labels(depths)
      && roots <= depths.Keys
      && ExactDepths(edges, roots, depths)
      && Ball(edges, roots, level) <= depths.Keys
      && Explored(edges, done, depths.Keys, todo)
    }

    function Advance(): Frontier {
      Frontier(done, next, {}, level + 1)
    }

    function Take(v: Id): Frontier {
      Frontier(done + {v}, now - {v}, next, level)
    }

    function Put(v: Id): Frontier {
      this.(next := next + {v})
    }
  }

  ghost function EdgesOut(edges: set<(Id, Id)>, v: Id): set<(Id, Id)> {
    set e | e in edges && e.0 == v
  }

  lemma {:induction false} SearchStarts(edges: set<(Id, Id)>, roots: seq<Id>, depths: map<Id, nat>)
    requires |roots| == |Elements(roots)|
    requires depths == map v | v in Elements(roots) :: 0
    ensures Frontier({}, Elements(roots), {}, 0).Searching(edges, Elements(roots), depths, {})
    ensures Frontier({}, Elements(roots), {}, 0).Queued(roots)
  {
    assert roots[..|roots|] == roots;
  }

  /** Once every vertex of this level is finished, the next level has been discovered completely. */
  lemma {:induction false} NextLevel(f: Frontier, edges: set<(Id, Id)>, roots: set<Id>, depths: map<Id, nat>)
    requires f.Searching(edges, roots, depths, {}) && f.now == {}
    ensures f.Advance().Searching(edges, roots, depths, {})
  {
    forall x | x in Ball(edges, roots, f.level + 1)
      ensures x in depths
    {
      if x !in Ball(edges, roots, f.level) {
        var e :| e in edges && e.0 in Ball(edges, roots, f.level) && e.1 == x;
        DepthWithin(edges, roots, depths, e.0, f.level);
        assert e.0 in f.done;
      }
    }
  }

  lemma {:induction false} NextLevelQueued(f: Frontier, queue: seq<Id>)
    requires f.Queued(queue) && f.now == {}
    ensures f.Advance().Queued(queue)
  {
    assert queue[|f.now|..] == queue[..|f.next|] == queue;
  }

  lemma {:induction false} DepthWithin(edges: set<(Id, Id)>, roots: set<Id>, depths: map<Id, nat>, v: Id, n: nat)
    requires ExactDepths(edges, roots, depths) && v in depths && v in Ball(edges, roots, n)
    ensures depths[v] <= n
  {
    assert ExactAt(edges, roots, v, depths[v]);
    if depths[v] > n {
      BallGrows(edges, roots, n, depths[v] - 1);
    }
  }

  lemma {:induction false} TakeFirst(f: Frontier, edges: set<(Id, Id)>, roots: set<Id>, depths: map<Id, nat>, v: Id)
    requires f.Searching(edges, roots, depths, {}) && v in f.now
    ensures f.Take(v).Searching(edges, roots, depths, EdgesOut(edges, v))
  {
  }

  lemma {:induction false} TakeFirstQueued(f: Frontier, queue: seq<Id>)
    requires f.Queued(queue) && f.now != {}
    ensures queue[0] in f.now && f.Take(queue[0]).Queued(queue[1..])
  {
    var v, rest := queue[0], queue[1..|f.now|];
    assert queue[..|f.now|] == [v] + rest;
    assert f.now == {v} + Elements(rest) by {
      assert Elements([v] + rest) == {v} + Elements(rest);
    }
    ElementsAtMost(rest);
    assert v in Elements(rest) ==> f.now == Elements(rest);
    assert queue[1..][..|f.now| - 1] == rest;
    assert queue[1..][|f.now| - 1..] == queue[|f.now|..];
  }

  /** Following an edge out of a vertex of this level to a vertex not seen before. */
  lemma {:induction false} Discover(
    f: Frontier, edges: set<(Id, Id)>, roots: set<Id>, depths: map<Id, nat>,
    todo: set<(Id, Id)>, e: (Id, Id), left: set<(Id, Id)>, n: nat)
    requires f.Searching(edges, roots, depths, todo) && todo <= left + {e}
    requires e in edges && e.0 in depths && depths[e.0] == f.level && e.1 !in depths && n == f.level + 1
    ensures f.Put(e.1).Searching(edges, roots, depths[e.1 := n], left)
  {
    var d := depths[e.1 := n];
    assert d.Keys == depths.Keys + {e.1};
    assert ExactDepths(edges, roots, d) by {
      DiscoveredExact(edges, roots, depths, f.level, e);
    }
    assert f.Put(e.1).Labels(d);
  }

  lemma {:induction false} DiscoveredExact(edges: set<(Id, Id)>, roots: set<Id>, depths: map<Id, nat>, level: nat, e: (Id, Id))
    requires ExactDepths(edges, roots, depths) && Ball(edges, roots, level) <= depths.Keys
    requires e in edges && e.0 in depths && depths[e.0] == level && e.1 !in depths
    ensures ExactDepths(edges, roots, depths[e.1 := level + 1])
  {
    var d := depths[e.1 := level + 1];
    forall v | v in d
      ensures ExactAt(edges, roots, v, d[v])
    {
      if v == e.1 {
        assert ExactAt(edges, roots, e.0, depths[e.0]);
        assert e.1 in Successors(edges, Ball(edges, roots, level));
      } else {
        assert ExactAt(edges, roots, v, depths[v]);
      }
    }
  }

  lemma {:induction false} PutQueued(f: Frontier, queue: seq<Id>, v: Id)
    requires f.Queued(queue) && v !in f.next
    ensures f.Put(v).Queued(queue + [v])
  {
    assert (queue + [v])[..|f.now|] == queue[..|f.now|];
    assert (queue + [v])[|f.now|..] == queue[|f.now|..] + [v];
    assert Elements(queue[|f.now|..] + [v]) == Elements(queue[|f.now|..]) + {v};
  }

  lemma {:induction false} NothingNew(
    f: Frontier, edges: set<(Id, Id)>, roots: set<Id>, depths: map<Id, nat>,
    todo: set<(Id, Id)>, e: (Id, Id), left: set<(Id, Id)>)
    requires f.Searching(edges, roots, depths, todo)
    requires todo <= left || (todo <= left + {e} && e.1 in depths)
    ensures f.Searching(edges, roots, depths, left)
  {
  }

  lemma {:induction false} ElementsAtMost(s: seq<Id>)
    ensures |Elements(s)| <= |s|
  {
    if s != [] {
      ElementsAtMost(s[1..]);
      assert Elements(s) == {s[0]} + Elements(s[1..]);
    }
  }

  /** An edge out of a discovered vertex leads into the next ball. */
  lemma {:induction false} StepFrom(edges: set<(Id, Id)>, root: Id, depths: map<Id, nat>, e: (Id, Id), hops: nat)
    requires ExactDepths(edges, {root}, depths)
    requires e in edges && e.0 in depths && depths[e.0] <= hops
    ensures depths[e.0] < hops || Closed(edges, Ball(edges, {root}, hops)) ==> e.1 in Ball(edges, {root}, hops)
    ensures Reaches(edges, root, e.1)
  {
    var d := depths[e.0];
    assert ExactAt(edges, {root}, e.0, d);
    StepInBall(edges, {root}, e, d, hops);
    var path := BallHasWalk(edges, root, d + 1, e.1);
  }

  lemma {:induction false} StepInBall(edges: set<(Id, Id)>, roots: set<Id>, e: (Id, Id), d: nat, hops: nat)
    requires e in edges && e.0 in Ball(edges, roots, d) && d <= hops
    ensures e.1 in Ball(edges, roots, d + 1)
    ensures d < hops || Closed(edges, Ball(edges, roots, hops)) ==> e.1 in Ball(edges, roots, hops)
  {
    assert e.1 in Successors(edges, Ball(edges, roots, d));
    if d < hops {
      BallGrows(edges, roots, d + 1, hops);
    }
  }

  lemma {:induction false} DepthsInBall(edges: set<(Id, Id)>, roots: set<Id>, depths: map<Id, nat>, hops: nat)
    requires ExactDepths(edges, roots, depths)
    requires forall v | v in depths :: depths[v] <= hops
    ensures depths.Keys <= Ball(edges, roots, hops)
  {
    forall v | v in depths
      ensures v in Ball(edges, roots, hops)
    {
      assert ExactAt(edges, roots, v, depths[v]);
      BallGrows(edges, roots, depths[v], hops);
    }
  }

  /** A search that runs dry has found exactly what the roots reach, and nothing leads outside. */
  lemma {:induction false} SearchEnds(f: Frontier, edges: set<(Id, Id)>, roots: set<Id>, depths: map<Id, nat>)
    requires f.Searching(edges, roots, depths, {}) && f.now == f.next == {}
    ensures depths.Keys == f.done == Ball(edges, roots, f.level) && Closed(edges, depths.Keys)
  {
    DepthsInBall(edges, roots, depths, f.level);
  }
}
