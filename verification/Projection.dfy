/**
 The bounded projection of the relationships around a set of roots: a breadth-first walk that either
 covers the whole connected component or says which bound stopped it.
 */
module Projection {
  import opened Basics
  import opened Graphs
  import opened BreadthFirst
  import opened SourceRelationships
  import opened CycleDetection

  datatype Overflow = NodeLimit | EdgeLimit | DepthLimit

  /** The graph and bounds of one projection. */
  datatype View = View(rows: Rows, task: Id, roots: set<Id>, limits: Limits) {

    function Fetched(source: Id): (r: seq<Id>)
      ensures Elements(r) <= ActiveTouching(rows, task, source)
      ensures forall id | id in r :: id in ActiveTouching(rows, task, source)
      ensures |ActiveTouching(rows, task, source)| <= limits.examined ==> Elements(r) == ActiveTouching(rows, task, source)
      ensures |ActiveTouching(rows, task, source)| > limits.examined ==> |Elements(r)| > limits.examined
    {
      var r := FirstSorted(ActiveTouching(rows, task, source), limits.examined + 1);
      AscendingCardinality(r);
      assert forall id | id in r :: id in Elements(r);
      r
    }

    ghost function Edges(): set<(Id, Id)> {
      NeighbourEdges(rows, task)
    }

    ghost function Reach(): set<Id> {
      Ball(Edges(), roots, limits.hops)
    }

    /** Active relationships with an end among the sources. */
    ghost function RowsAt(sources: set<Id>): set<Id> {
      set s, id | s in sources && id in ActiveTouching(rows, task, s) :: id
    }

    /** The component around the roots fits the bounds. */
    ghost predicate Fits() {
      && Closed(Edges(), Reach())
      && |Reach()| <= limits.visited
      && |RowsAt(Reach())| <= limits.examined
    }

    /** What each overflow reason proves about the component. */
    ghost predicate Justified(overflow: Overflow) {
      match overflow
      case NodeLimit => |Reach()| > limits.visited
      case EdgeLimit => |RowsAt(Reach())| > limits.examined
      case DepthLimit => !Closed(Edges(), Reach())
    }

    lemma {:induction false} NeighbourEdge(source: Id, id: Id)
      requires id in ActiveTouching(rows, task, source)
      ensures (source, rows[id].Other(source)) in Edges()
    {
    }

    lemma {:induction false} RowsAtGrows(small: set<Id>, large: set<Id>, ids: set<Id>)
      requires small <= large && ids <= RowsAt(small)
      ensures |ids| <= |RowsAt(large)|
    {
      SubsetCardinality(ids, RowsAt(large));
    }

    lemma {:induction false} RowsAtOneMore(done: set<Id>, source: Id)
      ensures RowsAt(done + {source}) == RowsAt(done) + ActiveTouching(rows, task, source)
    {
    }
  }

  /** The variables of the walk. The keys of the depths are the visited sources. */
  datatype Walking = Walking(
    queue: seq<Id>, depths: map<Id, nat>, examined: set<Id>, frontier: set<Id>, omitted: bool, overflow: Option<Overflow>)

  /** The neighbour graph as one value, with the roots and the bounds. */
  datatype Setting = Setting(edges: set<(Id, Id)>, roots: set<Id>, limits: Limits) {
    ghost function Reach(): set<Id> {
      Ball(edges, roots, limits.hops)
    }
  }

  /** What each overflow proves, where countable rows are those that may count as examined. */
  ghost predicate Cause(g: Setting, overflow: Option<Overflow>, countable: set<Id>) {
    && (overflow == Some(NodeLimit) ==> |g.Reach()| > g.limits.visited)
    && (overflow == Some(EdgeLimit) ==> |countable| > g.limits.examined)
    && (overflow == Some(DepthLimit) ==> !Closed(g.edges, g.Reach()))
  }

  ghost predicate Distances(g: Setting, depths: map<Id, nat>) {
    && g.roots <= depths.Keys
    && ExactDepths(g.edges, g.roots, depths)
    && (forall s | s in depths :: depths[s] <= g.limits.hops)
    && |depths.Keys| <= (if |g.roots| > g.limits.visited then |g.roots| else g.limits.visited)
  }

  ghost predicate FrontierFits(g: Setting, w: Walking) {
    && |w.frontier| <= g.limits.frontier
    && (forall s | s in w.frontier :: s in Successors(g.edges, w.depths.Keys) && s !in w.depths)
    && (w.omitted ==> |w.frontier| == g.limits.frontier)
    && (w.overflow == None ==> w.frontier == {} && !w.omitted)
  }

  /** Facts that hold at every point, overflow or not. */
  ghost predicate Bounded(g: Setting, w: Walking, countable: set<Id>) {
    && Distances(g, w.depths)
    && FrontierFits(g, w)
    && Cause(g, w.overflow, countable)
    && w.examined <= countable && |w.examined| <= g.limits.examined
  }

  /** A page being scanned for one source: each row's identity with the other end of the row. */
  datatype Page = Page(source: Id, records: seq<(Id, Id)>, before: Frontier, countable: set<Id>) {
    ghost predicate Of(edges: set<(Id, Id)>) {
      forall j | 0 <= j < |records| :: (source, records[j].1) in edges && records[j].0 in countable
    }

    ghost function Followed(k: nat): set<(Id, Id)>
      requires k <= |records|
    {
      set j | 0 <= j < k :: (source, records[j].1)
    }

    ghost function Remaining(edges: set<(Id, Id)>, k: nat): set<(Id, Id)>
      requires k <= |records|
    {
      EdgesOut(edges, source) - Followed(k)
    }

    lemma {:induction false} RemainingShrinks(edges: set<(Id, Id)>, k: nat)
      requires k < |records|
      ensures Remaining(edges, k) <= Remaining(edges, k + 1) + {(source, records[k].1)}
    {
    }
  }

  /** While nothing has overflowed the breadth-first invariant holds. */
  ghost predicate Undisturbed(g: Setting, p: Page, k: nat, w: Walking, f: Frontier)
    requires k <= |p.records|
  {
    && f.Searching(g.edges, g.roots, w.depths, p.Remaining(g.edges, k))
    && f.Queued(w.queue) && f.(next := p.before.next) == p.before
  }

  ghost predicate Scanning(g: Setting, p: Page, k: nat, w: Walking, f: Frontier) {
    && k <= |p.records| && p.Of(g.edges)
    && Bounded(g, w, p.countable)
    && p.source in w.depths && w.depths[p.source] == p.before.level
    && (forall j | 0 <= j < k :: p.records[j].0 in w.examined)
    && (w.overflow == None ==> Undisturbed(g, p, k, w, f))
    && (w.overflow.Some? ==> p.before.level >= g.limits.hops || |w.depths.Keys| >= g.limits.visited)
  }

  /** Remember an unvisited neighbour, or note that the frontier is full. */
  function AddFrontier(limits: Limits, w: Walking, neighbour: Id): Walking {
    if neighbour in w.frontier then w
    else if |w.frontier| >= limits.frontier then w.(omitted := true)
    else w.(frontier := w.frontier + {neighbour})
  }

  lemma {:induction false} RowCounted(g: Setting, p: Page, k: nat, w: Walking, f: Frontier, counted: Walking)
    requires Scanning(g, p, k, w, f) && k < |p.records|
    requires p.records[k].0 in w.examined || |w.examined| < g.limits.examined
    requires counted == w.(examined := w.examined + {p.records[k].0})
    ensures Scanning(g, p, k, counted, f)
  {
    if p.records[k].0 in w.examined {
      assert w.examined + {p.records[k].0} == w.examined;
    }
  }

  lemma {:induction false} RowSeen(g: Setting, p: Page, k: nat, w: Walking, f: Frontier)
    requires Scanning(g, p, k, w, f) && k < |p.records| && p.records[k].0 in w.examined && p.records[k].1 in w.depths
    ensures Scanning(g, p, k + 1, w, f)
  {
    p.RemainingShrinks(g.edges, k);
    if w.overflow == None {
      NothingNew(f, g.edges, g.roots, w.depths, p.Remaining(g.edges, k), (p.source, p.records[k].1),
        p.Remaining(g.edges, k + 1));
    }
  }

  lemma {:induction false} DistancesGrow(g: Setting, depths: map<Id, nat>, n: Id, level: nat)
    requires Distances(g, depths) && n !in depths && level <= g.limits.hops && |depths.Keys| < g.limits.visited
    requires ExactDepths(g.edges, g.roots, depths[n := level])
    ensures Distances(g, depths[n := level])
  {
    assert depths[n := level].Keys == depths.Keys + {n};
  }

  lemma {:induction false} UndisturbedVisit(g: Setting, p: Page, k: nat, w: Walking, f: Frontier, n: Id, level: nat, next: Walking)
    requires k < |p.records| && Undisturbed(g, p, k, w, f) && (p.source, n) in g.edges && n == p.records[k].1
    requires p.source in w.depths && w.depths[p.source] == p.before.level == level - 1 && n !in w.depths
    requires next == w.(depths := w.depths[n := level], queue := w.queue + [n])
    ensures Undisturbed(g, p, k + 1, next, f.Put(n)) && ExactDepths(g.edges, g.roots, next.depths)
  {
    p.RemainingShrinks(g.edges, k);
    Discover(f, g.edges, g.roots, w.depths, p.Remaining(g.edges, k), (p.source, n), p.Remaining(g.edges, k + 1), level);
    PutQueued(f, w.queue, n);
  }

  lemma {:induction false} RowVisited(g: Setting, p: Page, k: nat, w: Walking, f: Frontier, n: Id, level: nat, next: Walking)
    requires Scanning(g, p, k, w, f) && k < |p.records| && p.records[k].0 in w.examined
    requires n == p.records[k].1 && n !in w.depths && level == w.depths[p.source] + 1
    requires level <= g.limits.hops && |w.depths.Keys| < g.limits.visited
    requires next == w.(depths := w.depths[n := level], queue := w.queue + [n])
    ensures Scanning(g, p, k + 1, next, f.Put(n))
  {
    assert w.overflow == None;
    UndisturbedVisit(g, p, k, w, f, n, level, next);
    DistancesGrow(g, w.depths, n, level);
    assert FrontierFits(g, next) && Bounded(g, next, p.countable);
  }

  lemma {:induction false} NeighbourRefused(g: Setting, depths: map<Id, nat>, f: Frontier, e: (Id, Id), todo: set<(Id, Id)>)
    requires Distances(g, depths) && f.Searching(g.edges, g.roots, depths, todo)
    requires e in g.edges && e.0 in depths && depths[e.0] == f.level && e.1 !in depths
    ensures f.level >= g.limits.hops ==> !Closed(g.edges, g.Reach())
    ensures f.level < g.limits.hops && |depths.Keys| >= g.limits.visited ==> |g.Reach()| > g.limits.visited
  {
    DepthsInBall(g.edges, g.roots, depths, g.limits.hops);
    assert ExactAt(g.edges, g.roots, e.0, f.level);
    StepInBall(g.edges, g.roots, e, f.level, g.limits.hops);
    if f.level < g.limits.hops && |depths.Keys| >= g.limits.visited {
      ProperSubset(depths.Keys, e.1, g.Reach());
    }
  }

  lemma {:induction false} FrontierKept(g: Setting, w: Walking, e: (Id, Id))
    requires FrontierFits(g, w.(overflow := None)) || FrontierFits(g, w)
    requires w.overflow.Some? && e in g.edges && e.0 in w.depths && e.1 !in w.depths
    ensures FrontierFits(g, AddFrontier(g.limits, w, e.1))
  {
    assert e.1 in Successors(g.edges, w.depths.Keys);
  }

  lemma {:induction false} RowRefused(g: Setting, p: Page, k: nat, w: Walking, f: Frontier, next: Walking)
    requires Scanning(g, p, k, w, f) && k < |p.records| && p.records[k].0 in w.examined && p.records[k].1 !in w.depths
    requires w.depths[p.source] >= g.limits.hops || |w.depths.Keys| >= g.limits.visited
    requires next == w.(overflow := if w.overflow.Some? then w.overflow
                        else if w.depths[p.source] >= g.limits.hops then Some(DepthLimit) else Some(NodeLimit))
    ensures Scanning(g, p, k + 1, AddFrontier(g.limits, next, p.records[k].1), f)
  {
    var e := (p.source, p.records[k].1);
    if w.overflow == None {
      NeighbourRefused(g, w.depths, f, e, p.Remaining(g.edges, k));
    }
    assert Cause(g, next.overflow, p.countable);
    FrontierKept(g, next, e);
    assert Bounded(g, AddFrontier(g.limits, next, e.1), p.countable);
  }

  /** One row of the page; stop tells whether the remaining rows are left unread. */
  method ScanRow(
    ghost g: Setting, ghost p: Page, source: Id, records: seq<(Id, Id)>, limits: Limits, k: nat, w0: Walking, ghost f0: Frontier)
    returns (w: Walking, stop: bool, ghost f: Frontier)
    requires Scanning(g, p, k, w0, f0) && k < |records|
    requires p.source == source && p.records == records && g.limits == limits
    ensures w0.examined <= w.examined && w0.depths.Keys <= w.depths.Keys
    ensures stop ==> Bounded(g, w, p.countable) && w.overflow.Some?
    ensures !stop ==> Scanning(g, p, k + 1, w, f)
  {
    var (id, neighbour) := records[k];
    if id !in w0.examined && |w0.examined| >= limits.examined {
      ProperSubset(w0.examined, id, p.countable);
      return w0.(overflow := Some(EdgeLimit)), true, f0;
    }
    w, stop, f := w0.(examined := w0.examined + {id}), false, f0;
    RowCounted(g, p, k, w0, f0, w);
    if neighbour in w.depths {
      RowSeen(g, p, k, w, f);
      return;
    }
    if w.depths[source] < limits.hops && |w.depths.Keys| < limits.visited {
      var level := w.depths[source] + 1;
      var next := w.(depths := w.depths[neighbour := level], queue := w.queue + [neighbour]);
      RowVisited(g, p, k, w, f, neighbour, level, next);
      return next, false, f.Put(neighbour);
    }
    var next := w.(overflow := if w.overflow.Some? then w.overflow
      else if w.depths[source] >= limits.hops then Some(DepthLimit) else Some(NodeLimit));
    RowRefused(g, p, k, w, f, next);
    stop := w.depths[source] < limits.hops && neighbour !in w.frontier && |w.frontier| >= limits.frontier;
    w := AddFrontier(limits, next, neighbour);
  }

  method ScanPage(
    ghost g: Setting, ghost p: Page, source: Id, records: seq<(Id, Id)>, limits: Limits, w0: Walking, ghost f0: Frontier)
    returns (w: Walking, ghost f: Frontier)
    requires Scanning(g, p, 0, w0, f0)
    requires p.source == source && p.records == records && g.limits == limits
    ensures Bounded(g, w, p.countable) && w0.examined <= w.examined && w0.depths.Keys <= w.depths.Keys
    ensures w.overflow == None ==> Scanning(g, p, |records|, w, f)
  {
    w, f := w0, f0;
    for k := 0 to |records|
      invariant Scanning(g, p, k, w, f) && w0.examined <= w.examined && w0.depths.Keys <= w.depths.Keys
    {
      var stop;
      w, stop, f := ScanRow(g, p, source, records, limits, k, w, f);
      if stop {
        return;
      }
    }
  }

  /** Between sources. While nothing has overflowed, exactly the rows of the dequeued sources are examined. */
  ghost predicate Progress(v: View, w: Walking, f: Frontier) {
    var g := Setting(v.Edges(), v.roots, v.limits);
    && Distances(g, w.depths) && FrontierFits(g, w)
    && w.examined <= v.RowsAt(w.depths.Keys) && |w.examined| <= v.limits.examined
    && (w.overflow.Some? ==> v.Justified(w.overflow.value))
    && (w.overflow == None ==> f.Searching(v.Edges(), v.roots, w.depths, {}) && f.Queued(w.queue))
    && (w.overflow == None ==> w.examined == v.RowsAt(f.done))
  }

  /** The rows of a page together with the other end of each. */
  function WithOthers(rows: Rows, ids: seq<Id>, source: Id): (r: seq<(Id, Id)>)
    requires forall j | 0 <= j < |ids| :: ids[j] in rows
    ensures |r| == |ids|
    ensures forall j | 0 <= j < |ids| :: r[j] == (ids[j], rows[ids[j]].Other(source))
  {
    if ids == [] then [] else [(ids[0], rows[ids[0]].Other(source))] + WithOthers(rows, ids[1..], source)
  }

  ghost predicate PageOf(v: View, source: Id, ids: seq<Id>, p: Page) {
    && p.source == source && |p.records| == |ids|
    && (forall j | 0 <= j < |ids| :: ids[j] in ActiveTouching(v.rows, v.task, source))
    && (forall j | 0 <= j < |ids| :: p.records[j] == (ids[j], v.rows[ids[j]].Other(source)))
  }

  lemma {:induction false} PageHasEdges(v: View, source: Id, ids: seq<Id>, p: Page)
    requires PageOf(v, source, ids, p) && Elements(ids) <= p.countable
    ensures p.Of(v.Edges())
    ensures p.Remaining(v.Edges(), 0) == EdgesOut(v.Edges(), source)
  {
    forall j | 0 <= j < |p.records|
      ensures (source, p.records[j].1) in v.Edges() && p.records[j].0 in p.countable
    {
      v.NeighbourEdge(source, ids[j]);
      assert ids[j] in Elements(ids);
    }
    assert p.Followed(0) == {};
  }

  lemma {:induction false} PageBegins(g: Setting, p: Page, w: Walking, f: Frontier)
    requires p.Of(g.edges) && p.before == f && w.examined <= p.countable
    requires p.Remaining(g.edges, 0) == EdgesOut(g.edges, p.source)
    requires w.overflow == None && |w.examined| <= g.limits.examined && Distances(g, w.depths) && FrontierFits(g, w)
    requires p.source in w.depths && w.depths[p.source] == f.level && f.Queued(w.queue)
    requires f.Searching(g.edges, g.roots, w.depths, EdgesOut(g.edges, p.source))
    ensures Scanning(g, p, 0, w, f)
  {
  }

  lemma {:induction false} EdgeFollowed(v: View, source: Id, ids: seq<Id>, p: Page, e: (Id, Id))
    requires PageOf(v, source, ids, p) && Elements(ids) == ActiveTouching(v.rows, v.task, source)
    requires e in EdgesOut(v.Edges(), source)
    ensures e in p.Followed(|p.records|)
  {
    var id :| id in v.rows && v.rows[id].task == v.task && v.rows[id].lifecycle == Active
      && (e == (v.rows[id].low, v.rows[id].high) || e == (v.rows[id].high, v.rows[id].low));
    assert id in Elements(ids);
    var j :| 0 <= j < |ids| && ids[j] == id;
    assert e == (source, p.records[j].1);
  }

  /** A page read to its end without overflow was complete, and its source is finished. */
  lemma {:induction false} PageFinished(v: View, g: Setting, source: Id, ids: seq<Id>, p: Page, w: Walking, f: Frontier)
    requires g.edges == v.Edges() && g.limits == v.limits
    requires PageOf(v, source, ids, p) && Scanning(g, p, |p.records|, w, f)
    requires |Elements(ids)| <= v.limits.examined ==> Elements(ids) == ActiveTouching(v.rows, v.task, source)
    ensures Elements(ids) == ActiveTouching(v.rows, v.task, source) && Elements(ids) <= w.examined
    ensures w.overflow == None ==> f.Searching(g.edges, g.roots, w.depths, {})
  {
    forall id | id in Elements(ids)
      ensures id in w.examined
    {
      var j :| 0 <= j < |ids| && ids[j] == id;
      assert p.records[j].0 in w.examined;
    }
    SubsetCardinality(Elements(ids), w.examined);
    forall e | e in EdgesOut(v.Edges(), source)
      ensures e in p.Followed(|p.records|)
    {
      EdgeFollowed(v, source, ids, p, e);
    }
    assert p.Remaining(g.edges, |p.records|) == {};
  }

  /** A source has left the queue and its page is about to be scanned. */
  ghost predicate PageReady(v: View, g: Setting, source: Id, w: Walking, done: set<Id>, f: Frontier) {
    && g == Setting(v.Edges(), v.roots, v.limits)
    && f.done == done + {source} && source !in done && f.done <= w.depths.Keys && f.Queued(w.queue)
    && source in w.depths && w.depths[source] == f.level && w.overflow == None
    && f.Searching(g.edges, g.roots, w.depths, EdgesOut(g.edges, source))
    && Distances(g, w.depths) && FrontierFits(g, w)
    && w.examined == v.RowsAt(done) && |w.examined| <= v.limits.examined
  }

  lemma {:induction false} NextSource(v: View, g: Setting, w: Walking, f: Frontier, next: Walking) returns (h: Frontier)
    requires Progress(v, w, f) && w.overflow == None && w.queue != []
    requires g == Setting(v.Edges(), v.roots, v.limits) && next == w.(queue := w.queue[1..])
    ensures PageReady(v, g, w.queue[0], next, f.done, h)
  {
    h := f;
    if f.now == {} {
      NextLevel(f, g.edges, g.roots, w.depths);
      NextLevelQueued(f, w.queue);
      h := f.Advance();
    }
    TakeFirstQueued(h, w.queue);
    TakeFirst(h, g.edges, g.roots, w.depths, w.queue[0]);
    h := h.Take(w.queue[0]);
  }

  /** The page's causes, carried over to the whole component. */
  lemma {:induction false} PageJustified(v: View, done: set<Id>, source: Id, w: Walking, countable: set<Id>)
    requires Bounded(Setting(v.Edges(), v.roots, v.limits), w, countable)
    requires countable <= v.RowsAt(done + {source}) && done + {source} <= w.depths.Keys
    ensures w.examined <= v.RowsAt(w.depths.Keys)
    ensures w.overflow.Some? ==> v.Justified(w.overflow.value)
  {
    DepthsInBall(v.Edges(), v.roots, w.depths, v.limits.hops);
    v.RowsAtGrows(done + {source}, v.Reach(), countable);
  }

  /** The rows a query returned for a source: all of them unless there are more than the bound. */
  ghost predicate PageComplete(v: View, source: Id, ids: seq<Id>) {
    && (forall j | 0 <= j < |ids| :: ids[j] in ActiveTouching(v.rows, v.task, source))
    && (|Elements(ids)| <= v.limits.examined ==> Elements(ids) == ActiveTouching(v.rows, v.task, source))
    && Elements(ids) <= ActiveTouching(v.rows, v.task, source)
  }

  method WalkSource(v: View, w0: Walking, ghost f0: Frontier) returns (w: Walking, ghost f: Frontier)
    requires Progress(v, w0, f0) && w0.overflow == None && w0.queue != []
    ensures Progress(v, w, f)
    ensures w.overflow == None ==> f0.done < f.done <= v.Reach()
  {
    var source, taken := w0.queue[0], w0.(queue := w0.queue[1..]);
    ghost var g := Setting(v.Edges(), v.roots, v.limits);
    ghost var next := NextSource(v, g, w0, f0, taken);
    var ids := FetchPage(v, source);
    w, f := WalkPage(v, g, source, ids, taken, f0.done, next);
  }

  method FetchPage(v: View, source: Id) returns (ids: seq<Id>)
    ensures PageComplete(v, source, ids)
  {
    ids := v.Fetched(source);
  }

  method WalkPage(v: View, ghost g: Setting, source: Id, ids: seq<Id>, w0: Walking, ghost done: set<Id>, ghost f0: Frontier)
    returns (w: Walking, ghost f: Frontier)
    requires PageComplete(v, source, ids) && PageReady(v, g, source, w0, done, f0)
    ensures Progress(v, w, f)
    ensures w.overflow == None ==> done < f.done <= v.Reach()
  {
    var records := WithOthers(v.rows, ids, source);
    ghost var p := Page(source, records, f0, w0.examined + Elements(ids));
    PageHasEdges(v, source, ids, p);
    PageBegins(g, p, w0, f0);
    w, f := ScanPage(g, p, source, records, v.limits, w0, f0);
    PageToProgress(v, g, source, ids, p, done, w, f);
  }

  lemma {:induction false} PageToProgress(
    v: View, g: Setting, source: Id, ids: seq<Id>, p: Page, done: set<Id>, w: Walking, f: Frontier)
    requires g == Setting(v.Edges(), v.roots, v.limits) && PageOf(v, source, ids, p)
    requires p.countable == v.RowsAt(done) + Elements(ids) && p.before.done == done + {source} && source !in done
    requires PageComplete(v, source, ids)
    requires Bounded(g, w, p.countable) && p.before.done <= w.depths.Keys
    requires w.overflow == None ==> Scanning(g, p, |p.records|, w, f)
    requires v.RowsAt(done) <= w.examined
    ensures Progress(v, w, f)
    ensures w.overflow == None ==> done < f.done <= v.Reach()
  {
    v.RowsAtOneMore(done, source);
    PageJustified(v, done, source, w, p.countable);
    if w.overflow == None {
      PageFinished(v, g, source, ids, p, w, f);
      DepthsInBall(v.Edges(), v.roots, w.depths, v.limits.hops);
    }
  }

  method StartWalk(v: View, roots: seq<Id>) returns (w: Walking, ghost f: Frontier)
    requires Elements(roots) == v.roots && |roots| == |v.roots|
    ensures Progress(v, w, f)
    ensures w.overflow == None ==> |v.roots| <= v.limits.visited
  {
    w := Walking(roots, map s | s in Elements(roots) :: 0, {}, {}, false, None);
    f := Frontier({}, v.roots, {}, 0);
    WalkStarts(v, roots, w, f);
    if |w.depths.Keys| > v.limits.visited {
      StartTooLarge(v, w);
      w := w.(overflow := Some(NodeLimit));
    }
  }

  /** The walk from the roots. The recorded depths are true shortest distances. */
  method Walk(v: View, roots: seq<Id>) returns (w: Walking)
    requires Elements(roots) == v.roots && |roots| == |v.roots|
    ensures Distances(Setting(v.Edges(), v.roots, v.limits), w.depths)
    ensures Final(v, w)
  {
    ghost var f;
    w, f := StartWalk(v, roots);
    while w.queue != [] && w.overflow == None
      invariant Progress(v, w, f)
      invariant w.overflow == None ==> |v.roots| <= v.limits.visited
      decreases w.overflow == None, v.Reach() - f.done
    {
      w, f := WalkSource(v, w, f);
    }
    WalkEnds(v, w, f);
  }

  /** What a finished walk guarantees. */
  ghost predicate Final(v: View, w: Walking) {
    && v.roots <= w.depths.Keys <= v.Reach()
    && w.examined <= v.RowsAt(w.depths.Keys) && |w.examined| <= v.limits.examined
    && FrontierFits(Setting(v.Edges(), v.roots, v.limits), w)
    && (w.overflow == None <==> v.Fits())
    && (w.overflow == None ==> w.depths.Keys == v.Reach() && w.examined == v.RowsAt(v.Reach()))
    && (w.overflow.Some? ==> v.Justified(w.overflow.value))
  }

  lemma {:induction false} WalkStarts(v: View, roots: seq<Id>, w: Walking, f: Frontier)
    requires Elements(roots) == v.roots && |roots| == |v.roots|
    requires w == Walking(roots, map s | s in Elements(roots) :: 0, {}, {}, false, None)
    requires f == Frontier({}, v.roots, {}, 0)
    ensures Progress(v, w, f)
  {
    SearchStarts(v.Edges(), roots, w.depths);
    assert w.depths.Keys == v.roots;
    assert v.RowsAt({}) == {};
  }

  lemma {:induction false} StartTooLarge(v: View, w: Walking)
    requires w.depths.Keys == v.roots && |v.roots| > v.limits.visited
    ensures v.Justified(NodeLimit)
  {
    BallGrows(v.Edges(), v.roots, 0, v.limits.hops);
    SubsetCardinality(v.roots, v.Reach());
  }

  lemma {:induction false} WalkCovers(v: View, w: Walking, f: Frontier)
    requires Progress(v, w, f) && w.queue == [] && w.overflow == None && |v.roots| <= v.limits.visited
    ensures w.depths.Keys == v.Reach() && w.examined == v.RowsAt(v.Reach()) && v.Fits()
  {
    SearchEnds(f, v.Edges(), v.roots, w.depths);
    DepthsInBall(v.Edges(), v.roots, w.depths, v.limits.hops);
    BallWithinClosed(v.Edges(), v.roots, v.limits.hops, w.depths.Keys);
  }

  lemma {:induction false} WalkEnds(v: View, w: Walking, f: Frontier)
    requires Progress(v, w, f) && (w.queue == [] || w.overflow.Some?)
    requires w.overflow == None ==> |v.roots| <= v.limits.visited
    ensures Final(v, w)
  {
    DepthsInBall(v.Edges(), v.roots, w.depths, v.limits.hops);
    if w.overflow == None {
      WalkCovers(v, w, f);
    } else {
      assert !v.Fits();
    }
  }

  /** The projection a caller receives; examined rows are given by identity. */
  datatype Projected = Projected(
    complete: bool, truncated: bool, visited: seq<Id>, examined: seq<Id>, frontier: seq<Id>, omitted: bool,
    overflow: Option<Overflow>, invalid: bool)

  /** The walk is exact when it claims to be, and otherwise a justified and bounded part of the component. */
  ghost predicate Describes(v: View, p: Projected) {
    var visited, examined := Elements(p.visited), Elements(p.examined);
    && Ascending(p.visited) && Ascending(p.examined) && Ascending(p.frontier)
    && (p.overflow == None <==> v.Fits())
    && (p.overflow.Some? ==> v.Justified(p.overflow.value))
    && (p.overflow == None ==> visited == v.Reach() && examined == v.RowsAt(visited) && p.frontier == [] && !p.omitted)
    && v.roots <= visited <= v.Reach()
    && |p.visited| <= (if |v.roots| > v.limits.visited then |v.roots| else v.limits.visited)
    && examined <= v.RowsAt(visited) && |p.examined| <= v.limits.examined
    && (forall s | s in p.frontier :: s in Successors(v.Edges(), visited) && s !in visited)
    && |p.frontier| <= v.limits.frontier && (p.omitted ==> |p.frontier| == v.limits.frontier)
    && (p.invalid <==> !Acyclic(EdgesAmong(v.rows, examined)))
    && p.truncated == p.overflow.Some? && p.complete == (p.overflow == None && !p.invalid)
  }

  lemma {:induction false} RowsAtAreRows(v: View, sources: set<Id>)
    ensures v.RowsAt(sources) <= v.rows.Keys
  {
  }

  method ProjectView(v: View) returns (p: Projected)
    ensures Describes(v, p)
  {
    var w := Walk(v, Sorted(v.roots));
    var examined, visited, frontier := Sorted(w.examined), Sorted(w.depths.Keys), Sorted(w.frontier);
    RowsAtAreRows(v, w.depths.Keys);
    assert forall id | id in examined :: id in Elements(examined);
    var invalid := HasDirectedCycle(v.rows, examined);
    p := Projected(w.overflow == None && !invalid, w.overflow.Some?, visited, examined, frontier,
      w.omitted, w.overflow, invalid);
    assert forall s | s in frontier :: s in Elements(frontier);
  }

  /** In an acyclic task no projection is ever reported invalid. */
  lemma {:induction false} AcyclicIsValid(v: View, p: Projected)
    requires Describes(v, p) && AcyclicTask(v.rows, v.task)
    ensures !p.invalid
  {
    var examined := Elements(p.examined);
    forall e | e in EdgesAmong(v.rows, examined)
      ensures e in DerivedEdges(v.rows, v.task)
    {
      var id :| id in examined && id in v.rows && v.rows[id].kind == DerivedFrom
        && e == (v.rows[id].DerivedEnd(), v.rows[id].UpstreamEnd());
      assert id in v.RowsAt(Elements(p.visited));
    }
    AcyclicSubset(EdgesAmong(v.rows, examined), DerivedEdges(v.rows, v.task));
  }

  ghost function EdgesFrom(edges: set<(Id, Id)>, sources: set<Id>): set<(Id, Id)> {
    set e | e in edges && e.0 in sources
  }

  /** A complete projection certifies a closed component whose derivations contain no cycle. */
  lemma {:induction false} CompleteCertifies(v: View, p: Projected)
    requires Describes(v, p) && p.complete
    ensures Closed(v.Edges(), Elements(p.visited))
    ensures forall id :: id in Elements(p.examined) <==> id in v.RowsAt(Elements(p.visited))
    ensures Acyclic(EdgesFrom(DerivedEdges(v.rows, v.task), Elements(p.visited)))
  {
    var inside := EdgesFrom(DerivedEdges(v.rows, v.task), Elements(p.visited));
    forall e | e in inside
      ensures e in EdgesAmong(v.rows, Elements(p.examined))
    {
      var id :| id in v.rows && v.rows[id].ActiveDerived(v.task) && e == (v.rows[id].DerivedEnd(), v.rows[id].UpstreamEnd());
      assert id in ActiveTouching(v.rows, v.task, e.0);
      assert id in v.RowsAt(Elements(p.visited));
    }
    AcyclicSubset(inside, EdgesAmong(v.rows, Elements(p.examined)));
  }
}
