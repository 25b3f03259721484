/** The three-colour depth-first search that looks for a directed cycle among derived relationships. */
module CycleDetection {
  import opened Basics
  import opened Graphs
  import opened SourceRelationships

  /** The derived edges among the given rows. */
  ghost function EdgesAmong(rows: Rows, ids: set<Id>): set<(Id, Id)> {
    set id | id in ids && id in rows && rows[id].kind == DerivedFrom :: (rows[id].DerivedEnd(), rows[id].UpstreamEnd())
  }

  type Adjacency = map<Id, set<Id>>

  /** Neighbour sets hold exactly the edges, and every end of an edge has an entry. */
  ghost predicate Represents(adjacency: Adjacency, edges: set<(Id, Id)>) {
    && (forall v, w :: v in adjacency && w in adjacency[v] <==> (v, w) in edges)
    && (forall e | e in edges :: e.0 in adjacency && e.1 in adjacency)
  }

  method BuildAdjacency(rows: Rows, ids: seq<Id>) returns (adjacency: Adjacency)
    requires forall id | id in ids :: id in rows
    ensures Represents(adjacency, EdgesAmong(rows, Elements(ids)))
  {
    adjacency := map[];
    for i := 0 to |ids|
      invariant Represents(adjacency, EdgesAmong(rows, Elements(ids[..i])))
    {
      var record := rows[ids[i]];
      ghost var before := EdgesAmong(rows, Elements(ids[..i]));
      assert Elements(ids[..i + 1]) == Elements(ids[..i]) + {ids[i]};
      if record.kind != DerivedFrom {
        assert EdgesAmong(rows, Elements(ids[..i + 1])) == before;
        continue;
      }
      var derived, upstream := record.DerivedEnd(), record.UpstreamEnd();
      assert EdgesAmong(rows, Elements(ids[..i + 1])) == before + {(derived, upstream)};
      adjacency := WithEdge(adjacency, derived, upstream);
    }
    assert ids[..|ids|] == ids;
  }

  function Neighbours(adjacency: Adjacency, v: Id): set<Id> {
    if v in adjacency then adjacency[v] else {}
  }

  function WithEdge(adjacency: Adjacency, v: Id, w: Id): (r: Adjacency)
    ensures forall edges :: Represents(adjacency, edges) ==> Represents(r, edges + {(v, w)})
  {
    var one := adjacency[v := Neighbours(adjacency, v) + {w}];
    one[w := Neighbours(one, w)]
  }

  datatype Colour = White | Grey | Black

  class ColourSearch {
    const adjacency: Adjacency
    ghost const edges: set<(Id, Id)>
    var state: map<Id, Colour>
    /** Black vertices in the order in which they were finished. */
    ghost var finished: seq<Id>

    constructor (adjacency: Adjacency, ghost edges: set<(Id, Id)>)
      requires Represents(adjacency, edges)
      ensures this.adjacency == adjacency && this.edges == edges && state == map[] && finished == []
      ensures Valid([])
    {
      this.adjacency, this.edges, state, finished := adjacency, edges, map[], [];
    }

    function ColourOf(v: Id): Colour
      reads this
    {
      if v in state then state[v] else White
    }

    /** Grey vertices form the current walk; finished vertices are black and list successors first. */
    ghost predicate Valid(stack: seq<Id>)
      reads this
    {
      && Represents(adjacency, edges)
      && (forall v :: ColourOf(v) == Grey <==> v in stack)
      && (forall v :: ColourOf(v) == Black <==> v in finished)
      && (stack != [] ==> Walk(edges, stack))
      && SuccessorsFirst(edges, finished)
      && (forall i, j | 0 <= i < j < |finished| :: finished[i] != finished[j])
      && (forall v | v in stack || v in finished :: v in adjacency)
    }

    /** Vertices not yet on the walk and not yet finished. */
    ghost function Unvisited(stack: seq<Id>): set<Id>
      reads this
    {
      adjacency.Keys - Elements(stack) - Elements(finished)
    }

    method Enter(v: Id, ghost stack: seq<Id>)
      requires Valid(stack) && v in adjacency && ColourOf(v) == White
      requires stack != [] ==> (stack[|stack| - 1], v) in edges
      modifies this
      ensures Valid(stack + [v]) && finished == old(finished)
    {
      state := state[v := Grey];
      ghost var longer := stack + [v];
      assert longer[|stack|] == v;
      assert forall u :: u in longer <==> u in stack || u == v;
    }

    method Leave(v: Id, ghost stack: seq<Id>)
      requires Valid(stack + [v]) && v !in stack
      requires forall w | (v, w) in edges :: w in finished
      modifies this
      ensures Valid(stack) && finished == old(finished) + [v]
    {
      assert (stack + [v])[|stack|] == v;
      assert forall u :: u in stack + [v] <==> u in stack || u == v;
      WalkWithoutLast(edges, stack, v);
      state := state[v := Black];
      FinishOne(edges, finished, v);
      finished := finished + [v];
    }

    /** Depth-first from a white vertex: true only on a cycle, otherwise the vertex is finished. */
    method Visit(v: Id, ghost stack: seq<Id>) returns (cycle: bool)
      requires Valid(stack) && v in adjacency && ColourOf(v) == White
      requires stack != [] ==> (stack[|stack| - 1], v) in edges
      modifies this
      ensures cycle ==> !Acyclic(edges)
      ensures !cycle ==> Valid(stack) && v in finished && old(finished) <= finished
      decreases Unvisited(stack)
    {
      ghost var walk := stack + [v];
      Enter(v, stack);
      assert walk[|stack|] == v;
      assert v !in stack;
      assert v in old(Unvisited(stack)) && v !in Unvisited(walk);
      var neighbours := Sorted(adjacency[v]);
      assert forall w :: w in neighbours <==> w in Elements(neighbours);
      for k := 0 to |neighbours|
        invariant Valid(walk) && old(finished) <= finished
        invariant forall j | 0 <= j < k :: neighbours[j] in finished
      {
        var w := neighbours[k];
        assert w in Elements(neighbours);
        assert (v, w) in edges;
        var colour := ColourOf(w);
        if colour == Grey {
          CloseWalk(edges, walk, w);
          return true;
        }
        if colour == White {
          assert Unvisited(walk) < old(Unvisited(stack));
          var found := Visit(w, walk);
          if found {
            return true;
          }
        }
      }
      Leave(v, stack);
      assert finished[|finished| - 1] == v;
      return false;
    }

    /** Visit every vertex that is still white, in order. */
    method FindCycle() returns (cycle: bool)
      requires Valid([])
      modifies this
      ensures cycle <==> !Acyclic(edges)
    {
      var vertices := Sorted(adjacency.Keys);
      for k := 0 to |vertices|
        invariant Valid([])
        invariant forall j | 0 <= j < k :: vertices[j] in finished
      {
        assert vertices[k] in Elements(vertices);
        var colour := ColourOf(vertices[k]);
        assert colour != Grey;
        if colour == White {
          cycle := Visit(vertices[k], []);
          if cycle {
            return;
          }
        }
      }
      AllFinished(adjacency, edges, vertices, finished);
      return false;
    }
  }

  lemma {:induction false} WalkWithoutLast(edges: set<(Id, Id)>, stack: seq<Id>, v: Id)
    requires Walk(edges, stack + [v])
    ensures stack != [] ==> Walk(edges, stack)
  {
    forall i | 0 <= i < |stack| - 1
      ensures (stack[i], stack[i + 1]) in edges
    {
      assert ((stack + [v])[i], (stack + [v])[i + 1]) in edges;
    }
  }

  lemma {:induction false} FinishOne(edges: set<(Id, Id)>, order: seq<Id>, v: Id)
    requires SuccessorsFirst(edges, order) && forall w | (v, w) in edges :: w in order
    ensures SuccessorsFirst(edges, order + [v])
  {
    var longer := order + [v];
    forall e, i | e in edges && 0 <= i < |longer| && longer[i] == e.0
      ensures e.1 in longer[..i]
    {
      if i < |order| {
        assert order[i] == e.0;
        assert longer[..i] == order[..i];
      } else {
        assert longer[..i] == order;
      }
    }
  }

  /** An edge from the end of a walk back onto it closes a cycle. */
  lemma {:induction false} CloseWalk(edges: set<(Id, Id)>, walk: seq<Id>, w: Id)
    requires Walk(edges, walk) && w in walk && (walk[|walk| - 1], w) in edges
    ensures !Acyclic(edges)
  {
    var i :| 0 <= i < |walk| && walk[i] == w;
    var loop := walk[i..] + [w];
    assert Walk(edges, loop) by {
      forall k | 0 <= k < |loop| - 1
        ensures (loop[k], loop[k + 1]) in edges
      {
        assert loop[k] == walk[i + k];
      }
    }
    assert loop[0] == loop[|loop| - 1];
  }

  lemma {:induction false} AllFinished(adjacency: Adjacency, edges: set<(Id, Id)>, vertices: seq<Id>, finished: seq<Id>)
    requires Represents(adjacency, edges) && Elements(vertices) == adjacency.Keys
    requires forall v | v in vertices :: v in finished
    requires SuccessorsFirst(edges, finished)
    requires forall i, j | 0 <= i < j < |finished| :: finished[i] != finished[j]
    ensures Acyclic(edges)
  {
    forall e | e in edges
      ensures e.0 in finished
    {
      assert e.0 in Elements(vertices);
    }
    SuccessorsFirstAcyclic(edges, finished);
  }

  /** True exactly when the derived edges among the given rows contain a directed cycle. */
  method HasDirectedCycle(rows: Rows, ids: seq<Id>) returns (cycle: bool)
    requires forall id | id in ids :: id in rows
    ensures cycle <==> !Acyclic(EdgesAmong(rows, Elements(ids)))
  {
    var adjacency := BuildAdjacency(rows, ids);
    var search := new ColourSearch(adjacency, EdgesAmong(rows, Elements(ids)));
    cycle := search.FindCycle();
  }
}
