/** Directed graphs as finite sets of edges: walks, acyclicity, and balls of a breadth-first search. */
module Graphs {

  ghost predicate Walk<T>(edges: set<(T, T)>, path: seq<T>) {
    |path| > 0 && forall i :: 0 <= i < |path| - 1 ==> (path[i], path[i + 1]) in edges
  }

  ghost predicate WalkFromTo<T>(edges: set<(T, T)>, path: seq<T>, a: T, b: T) {
    Walk(edges, path) && path[0] == a && path[|path| - 1] == b
  }

  ghost predicate Reaches<T(!new)>(edges: set<(T, T)>, a: T, b: T) {
    exists path: seq<T> :: WalkFromTo(edges, path, a, b)
  }

  /** No walk of one or more edges returns to its start. */
  ghost predicate Acyclic<T(!new)>(edges: set<(T, T)>) {
    forall path: seq<T> :: Walk(edges, path) && |path| >= 2 ==> path[0] != path[|path| - 1]
  }

  ghost function Successors<T>(edges: set<(T, T)>, from: set<T>): set<T> {
    set e | e in edges && e.0 in from :: e.1
  }

  ghost predicate Closed<T>(edges: set<(T, T)>, s: set<T>) {
    forall e | e in edges && e.0 in s :: e.1 in s
  }

  /** Everything at most n edges away from the roots. */
  ghost function Ball<T>(edges: set<(T, T)>, roots: set<T>, n: nat): set<T> {
    if n == 0 then roots
    else Ball(edges, roots, n - 1) + Successors(edges, Ball(edges, roots, n - 1))
  }

  lemma {:induction false} BallGrows<T>(edges: set<(T, T)>, roots: set<T>, m: nat, n: nat)
    requires m <= n
    ensures Ball(edges, roots, m) <= Ball(edges, roots, n)
    decreases n - m
  {
    if m < n {
      BallGrows(edges, roots, m + 1, n);
    }
  }

  lemma {:induction false} ClosedBallIsFinal<T>(edges: set<(T, T)>, roots: set<T>, m: nat, n: nat)
    requires m <= n && Closed(edges, Ball(edges, roots, m))
    ensures Ball(edges, roots, n) == Ball(edges, roots, m)
  {
    if m < n {
      ClosedBallIsFinal(edges, roots, m, n - 1);
    }
  }

  lemma {:induction false} BallWithinClosed<T>(edges: set<(T, T)>, roots: set<T>, n: nat, s: set<T>)
    requires roots <= s && Closed(edges, s)
    ensures Ball(edges, roots, n) <= s
  {
    if n > 0 {
      BallWithinClosed(edges, roots, n - 1, s);
    }
  }

  /** Ball membership and walks of bounded length are the same thing. */
  lemma {:induction false} BallHasWalk<T(!new)>(edges: set<(T, T)>, root: T, n: nat, x: T) returns (path: seq<T>)
    requires x in Ball(edges, {root}, n)
    ensures WalkFromTo(edges, path, root, x) && |path| <= n + 1
  {
    if n == 0 {
      path := [root];
    } else if x in Ball(edges, {root}, n - 1) {
      path := BallHasWalk(edges, root, n - 1, x);
    } else {
      var e :| e in edges && e.0 in Ball(edges, {root}, n - 1) && e.1 == x;
      var shorter := BallHasWalk(edges, root, n - 1, e.0);
      path := shorter + [x];
    }
  }

  lemma {:induction false} WalkStaysInClosed<T(!new)>(edges: set<(T, T)>, s: set<T>, path: seq<T>)
    requires Walk(edges, path) && path[0] in s && Closed(edges, s)
    ensures path[|path| - 1] in s
  {
    if |path| > 1 {
      var e := (path[0], path[1]);
      assert e in edges;
      assert e.1 in s;
      WalkStaysInClosed(edges, s, path[1..]);
    }
  }

  lemma {:induction false} AcyclicSubset<T(!new)>(small: set<(T, T)>, large: set<(T, T)>)
    requires small <= large && Acyclic(large)
    ensures Acyclic(small)
  {
    forall path: seq<T> | Walk(small, path) && |path| >= 2
      ensures path[0] != path[|path| - 1]
    {
      assert Walk(large, path);
    }
  }

  /** A walk that may use the extra edge (d, u) still contains a walk from u to d without it. */
  lemma {:induction false} WithoutExtraEdge<T(!new)>(edges: set<(T, T)>, d: T, u: T, path: seq<T>)
    requires WalkFromTo(edges + {(d, u)}, path, u, d)
    ensures Reaches(edges, u, d)
    decreases |path|
  {
    if i :| 0 <= i < |path| - 1 && path[i] == d && path[i + 1] == u {
      WithoutExtraEdge(edges, d, u, path[..i + 1]);
    } else {
      assert WalkFromTo(edges, path, u, d);
    }
  }

  lemma {:induction false} RotateToExtraEdge<T(!new)>(edges: set<(T, T)>, d: T, u: T, path: seq<T>, i: nat)
    requires Walk(edges + {(d, u)}, path) && path[0] == path[|path| - 1]
    requires i < |path| - 1 && path[i] == d && path[i + 1] == u
    ensures Reaches(edges, u, d)
  {
    var larger := edges + {(d, u)};
    var around := path[i + 1..] + path[1..i + 1];
    forall k | 0 <= k < |around| - 1
      ensures (around[k], around[k + 1]) in larger
    {
      var cut := |path| - (i + 1);
      if k < cut - 1 {
        assert (path[i + 1 + k], path[i + 2 + k]) in larger;
      } else if k == cut - 1 {
        assert (path[0], path[1]) in larger;
      } else {
        var j := k - cut + 1;
        assert (path[j], path[j + 1]) in larger;
      }
    }
    assert WalkFromTo(larger, around, u, d);
    WithoutExtraEdge(edges, d, u, around);
  }

  /** Adding one edge keeps a graph acyclic exactly when its target cannot already reach its source. */
  lemma {:induction false} AddEdgeAcyclic<T(!new)>(edges: set<(T, T)>, d: T, u: T)
    requires Acyclic(edges)
    ensures Acyclic(edges + {(d, u)}) <==> !Reaches(edges, u, d)
  {
    var larger := edges + {(d, u)};
    if !Reaches(edges, u, d) {
      forall path: seq<T> | Walk(larger, path) && |path| >= 2
        ensures path[0] != path[|path| - 1]
      {
        if i :| 0 <= i < |path| - 1 && path[i] == d && path[i + 1] == u {
          if path[0] == path[|path| - 1] {
            RotateToExtraEdge(edges, d, u, path, i);
          }
        } else {
          assert Walk(edges, path);
        }
      }
    }
    if Reaches(edges, u, d) {
      var path :| WalkFromTo(edges, path, u, d);
      var loop := [d] + path;
      assert forall k | 0 < k < |loop| - 1 :: (path[k - 1], path[k]) in edges;
      assert Walk(larger, loop) && loop[0] == loop[|loop| - 1];
    }
  }

  ghost predicate HasSuccessorIn<T(!new)>(edges: set<(T, T)>, s: set<T>, x: T) {
    exists y :: y in s && (x, y) in edges
  }

  /** Follow k edges inside a set in which every member has a successor. */

  lemma {:induction false} WalkInside<T(!new)>(edges: set<(T, T)>, s: set<T>, start: T, k: nat) returns (path: seq<T>)
    requires start in s
    requires forall x | x in s :: HasSuccessorIn(edges, s, x)
    ensures |path| == k + 1 && Walk(edges, path) && path[0] == start && forall x | x in path :: x in s
  {
    path := [start];
    if k > 0 {
      var y :| y in s && (start, y) in edges;
      var rest := WalkInside(edges, s, y, k - 1);
      path := [start] + rest;
    }
  }

  lemma {:induction false} DistinctFitsIn<T>(path: seq<T>, s: set<T>)
    requires forall x | x in path :: x in s
    requires forall i, j | 0 <= i < j < |path| :: path[i] != path[j]
    ensures |path| <= |s|
  {
    if path != [] {
      DistinctFitsIn(path[1..], s - {path[0]});
    }
  }

  /** A nonempty finite set in which every member has a successor contains a cycle. */
  lemma {:induction false} StuckSetHasCycle<T(!new)>(edges: set<(T, T)>, s: set<T>)
    requires s != {}
    requires forall x | x in s :: HasSuccessorIn(edges, s, x)
    ensures !Acyclic(edges)
  {
    var start :| start in s;
    var path := WalkInside(edges, s, start, |s|);
    if forall i, j | 0 <= i < j < |path| :: path[i] != path[j] {
      DistinctFitsIn(path, s);
      assert false;
    }
    var i, j :| 0 <= i < j < |path| && path[i] == path[j];
    assert Walk(edges, path[i..j + 1]);
  }

  /** Position of the elements in a sequence that lists successors before their predecessors. */
  ghost predicate SuccessorsFirst<T>(edges: set<(T, T)>, order: seq<T>) {
    forall e, i | e in edges && 0 <= i < |order| && order[i] == e.0 :: e.1 in order[..i]
  }

  lemma {:induction false} SuccessorsFirstWalk<T(!new)>(edges: set<(T, T)>, order: seq<T>, path: seq<T>, i: nat)
    requires SuccessorsFirst(edges, order) && Walk(edges, path) && |path| >= 2
    requires i < |order| && path[0] == order[i]
    ensures path[|path| - 1] in order[..i]
  {
    var e := (path[0], path[1]);
    assert e in edges && e.1 in order[..i];
    var j :| 0 <= j < i && order[j] == path[1];
    if |path| > 2 {
      SuccessorsFirstWalk(edges, order, path[1..], j);
      assert order[..j] <= order[..i];
    }
  }

  /** Such a listing of distinct vertices proves there is no cycle among them. */
  lemma {:induction false} SuccessorsFirstAcyclic<T(!new)>(edges: set<(T, T)>, order: seq<T>)
    requires SuccessorsFirst(edges, order)
    requires forall i, j | 0 <= i < j < |order| :: order[i] != order[j]
    requires forall e | e in edges :: e.0 in order
    ensures Acyclic(edges)
  {
    forall path: seq<T> | Walk(edges, path) && |path| >= 2
      ensures path[0] != path[|path| - 1]
    {
      assert (path[0], path[1]) in edges;
      var i :| 0 <= i < |order| && order[i] == path[0];
      SuccessorsFirstWalk(edges, order, path, i);
    }
  }
}
