/**
 A reachable state in which flipping the direction of an active relationship closes a cycle unnoticed.
 Five hundred sources derive from the hub, and the hub derives from a direct and from an indirect ancestor.
 When the direct edge is flipped, its own row takes up a place among the 501 rows the search fetches for the
 hub, so the edge to the indirect ancestor is never read.
 */
module BlindFlip {
  import opened Basics
  import opened Graphs
  import opened SourceRelationships
  import opened CycleProof
  import opened RelationshipJournal
  import opened SourceDependenceModel
  import opened SourceDependenceInvariant
  import opened SourceDependenceRuns

  const TASK := Id(0)
  const HUB := Id(1)
  const DIRECT := Id(2)
  const INDIRECT := Id(3)
  const SPOKES: nat := 500
  const EDGES: nat := 503

  /** The j-th edge created: derived source, upstream source, and the identity drawn for its row. */
  function Derived(j: nat): Id {
    if j <= SPOKES then Id(10 + j) else if j <= SPOKES + 2 then HUB else INDIRECT
  }

  function Upstream(j: nat): Id {
    if j <= SPOKES then HUB else if j == SPOKES + 2 then INDIRECT else DIRECT
  }

  function RowId(j: nat): Id {
    if j <= SPOKES then Id(j) else Id(if j == SPOKES + 1 then 0 else j - 1)
  }

  function EdgeStep(j: nat): Step {
    Serve(TASK, Call("operator", Some(Authority(Id(1), 1)), RowId(j), Id(j), 0),
      Create(Some(Derived(j)), Some(Upstream(j)), None, None, DerivedFrom, "declared", Id(j)))
  }

  function AllSources(): map<Id, Id> {
    map n | 1 <= n <= 10 + SPOKES :: Id(n) := TASK
  }

  function Build(n: nat): seq<Step> {
    if n == 0 then [AddTask(TASK), AddSources(AllSources())] else Build(n - 1) + [EdgeStep(n)]
  }

  ghost predicate RowIs(row: Relationship, j: nat) {
    && row.task == TASK && row.kind == DerivedFrom && row.lifecycle == Active && row.revision == 1
    && row.id == RowId(j) && row.direction != NoDirection
    && row.DerivedEnd() == Derived(j) && row.UpstreamEnd() == Upstream(j)
  }

  /** After n edges: exactly these rows, and only their operations in the journal. */
  ghost predicate Stage(s: State, n: nat) {
    && TASK in s.tasks
    && (forall k | 1 <= k <= 10 + SPOKES :: Id(k) in s.sources && s.sources[Id(k)] == TASK)
    && (forall j | 1 <= j <= n :: RowId(j) in s.rows && RowIs(s.rows[RowId(j)], j))
    && (forall id | id in s.rows :: exists j :: 1 <= j <= n && id == RowId(j))
    && (forall c | c in s.changes :: c.id.number <= n && c.operationId.number <= n)
  }

  /** A search from a source that nothing fetched derives is over at once, and accepts. */
  lemma {:induction false} ImmediateProof(q: Search, derived: Id, upstream: Id)
    requires derived != upstream && q.limits.Valid()
    requires forall id | id in q.Seen(upstream) :: q.rows[id].DerivedEnd() != upstream
    requires |q.Seen(upstream)| <= q.limits.examined
    ensures q.ProofExists(derived, upstream)
  {
    var edges := q.SeenEdges();
    assert Closed(edges, {upstream});
    BallWithinClosed(edges, {upstream}, q.limits.hops, {upstream});
    BallGrows(edges, {upstream}, 0, q.limits.hops);
    assert q.Horizon(upstream) == {upstream};
    q.SeenFromOneMore({}, upstream);
    assert {} + {upstream} == {upstream} && q.SeenFrom({}) == {};
  }

  ghost function Numbers(n: nat): set<Id> {
    if n == 0 then {} else Numbers(n - 1) + {Id(n - 1)}
  }

  lemma {:induction false} NumbersAre(n: nat)
    ensures |Numbers(n)| == n && forall id :: id in Numbers(n) <==> id.number < n
  {
    if n > 0 {
      NumbersAre(n - 1);
    }
  }

  lemma {:induction false} FewTouch(s: State, n: nat, upstream: Id)
    requires Stage(s, n) && n < EDGES && upstream == Upstream(n + 1)
    ensures |DerivedTouching(s.rows, TASK, upstream)| <= SPOKES
    ensures forall id | id in DerivedTouching(s.rows, TASK, upstream) :: s.rows[id].DerivedEnd() != upstream
  {
    var touching := DerivedTouching(s.rows, TASK, upstream);
    NumbersAre(SPOKES);
    NumbersAre(1);
    forall id | id in touching
      ensures s.rows[id].DerivedEnd() != upstream
      ensures if n < SPOKES then 1 <= id.number <= n else id == Id(0)
    {
      var j :| 1 <= j <= n && id == RowId(j);
      assert RowIs(s.rows[id], j);
    }
    if n < SPOKES {
      assert touching <= Numbers(SPOKES);
      SubsetCardinality(touching, Numbers(SPOKES));
    } else {
      assert touching <= {Id(0)};
      SubsetCardinality(touching, {Id(0)});
    }
  }

  lemma {:induction false} NothingRecorded(changes: seq<Change>, n: nat)
    requires forall c | c in changes :: c.id.number <= n && c.operationId.number <= n
    ensures FindOperation(changes, Id(n + 1)) == None && !ChangeIdUsed(changes, Id(n + 1))
  {
  }

  lemma {:induction false} NextEdge(s: State, n: nat, j: nat)
    requires Stage(s, n) && n < EDGES && j == n + 1
    ensures Stage(After(s, DEFAULT_LIMITS, EdgeStep(j)), j)
  {
    var q := SearchFor(s, DEFAULT_LIMITS, TASK, None);
    FewTouch(s, n, Upstream(j));
    assert q.Seen(Upstream(j)) <= DerivedTouching(s.rows, TASK, Upstream(j));
    SubsetCardinality(q.Seen(Upstream(j)), DerivedTouching(s.rows, TASK, Upstream(j)));
    ImmediateProof(q, Derived(j), Upstream(j));
    NothingRecorded(s.changes, n);
    NewPair(s, n);
    var row, change := EdgeAccepted(s, n);
    StageGrows(s, n, row, change);
  }

  lemma {:induction false} NewPair(s: State, n: nat)
    requires Stage(s, n) && n < EDGES
    ensures RowId(n + 1) !in s.rows
    ensures forall id | id in s.rows :: {s.rows[id].low, s.rows[id].high} != {Derived(n + 1), Upstream(n + 1)}
  {
    forall id | id in s.rows
      ensures {s.rows[id].low, s.rows[id].high} != {Derived(n + 1), Upstream(n + 1)} && id != RowId(n + 1)
    {
      var j :| 1 <= j <= n && id == RowId(j);
      assert RowIs(s.rows[id], j);
      assert {s.rows[id].low, s.rows[id].high} == {Derived(j), Upstream(j)};
      assert Derived(n + 1) !in {Derived(j), Upstream(j)} || Upstream(n + 1) !in {Derived(j), Upstream(j)};
    }
  }

  /** The creation is accepted; its row is the declared edge. */
  lemma {:induction false} EdgeAccepted(s: State, n: nat) returns (row: Relationship, change: Change)
    requires Stage(s, n) && n < EDGES
    requires SearchFor(s, DEFAULT_LIMITS, TASK, None).ProofExists(Derived(n + 1), Upstream(n + 1))
    requires FindOperation(s.changes, Id(n + 1)) == None && !ChangeIdUsed(s.changes, Id(n + 1))
    requires RowId(n + 1) !in s.rows
    requires forall id | id in s.rows :: {s.rows[id].low, s.rows[id].high} != {Derived(n + 1), Upstream(n + 1)}
    ensures After(s, DEFAULT_LIMITS, EdgeStep(n + 1)) == Written(s, row, change)
    ensures RowIs(row, n + 1) && change.id == change.operationId == Id(n + 1)
  {
    var step := EdgeStep(n + 1);
    var ends := Normalize(step.req).value;
    assert SameEndsAndKind(s.rows, TASK, ends.low, ends.high, DerivedFrom) == {};
    assert ends.low in s.sources && ends.high in s.sources;
    row := CreateSpec(s, DEFAULT_LIMITS, TASK, step.call, step.req).1.value;
    change := CreateSpec(s, DEFAULT_LIMITS, TASK, step.call, step.req).0.changes[|s.changes|];
  }

  lemma {:induction false} StageGrows(s: State, n: nat, row: Relationship, change: Change)
    requires Stage(s, n) && n < EDGES && RowIs(row, n + 1) && row.id !in s.rows
    requires change.id == change.operationId == Id(n + 1)
    ensures Stage(Written(s, row, change), n + 1)
  {
    var t := Written(s, row, change);
    forall id | id in t.rows
      ensures exists k :: 1 <= k <= n + 1 && id == RowId(k)
    {
      if id == row.id {
        assert 1 <= n + 1 && id == RowId(n + 1);
      } else {
        var k :| 1 <= k <= n && id == RowId(k);
        assert 1 <= k <= n + 1;
      }
    }
  }

  lemma {:induction false} RunThenStep(s: State, limits: Limits, steps: seq<Step>, last: Step)
    ensures Run(s, limits, steps + [last]) == After(Run(s, limits, steps), limits, last)
    decreases |steps|
  {
    if steps == [] {
      assert steps + [last] == [last];
      assert Run(After(s, limits, last), limits, [last][1..]) == After(s, limits, last);
    } else {
      assert (steps + [last])[1..] == steps[1..] + [last];
      RunThenStep(After(s, limits, steps[0]), limits, steps[1..], last);
    }
  }

  lemma {:induction false} BuildBegins()
    ensures Stage(Run(EMPTY, DEFAULT_LIMITS, Build(0)), 0)
  {
    assert Build(0) == [AddTask(TASK)] + [AddSources(AllSources())];
    RunThenStep(EMPTY, DEFAULT_LIMITS, [AddTask(TASK)], AddSources(AllSources()));
    assert [AddTask(TASK)] == [] + [AddTask(TASK)];
    RunThenStep(EMPTY, DEFAULT_LIMITS, [], AddTask(TASK));
  }

  lemma {:induction false} BuildReaches(n: nat)
    requires n <= EDGES
    ensures Stage(Run(EMPTY, DEFAULT_LIMITS, Build(n)), n)
  {
    if n == 0 {
      BuildBegins();
    } else {
      var before := Run(EMPTY, DEFAULT_LIMITS, Build(n - 1));
      BuildReaches(n - 1);
      NextEdge(before, n - 1, n);
      RunThenStep(EMPTY, DEFAULT_LIMITS, Build(n - 1), EdgeStep(n));
    }
  }

  lemma {:induction false} BuildCreates(n: nat)
    ensures forall step | step in Build(n) && step.Serve? :: step.req.Create?
  {
    if n > 0 {
      BuildCreates(n - 1);
    }
  }

  lemma {:induction false} CreationsAreSeeing(s: State, limits: Limits, steps: seq<Step>)
    requires forall step | step in steps && step.Serve? :: step.req.Create?
    ensures SeeingRun(s, limits, steps)
    decreases |steps|
  {
    if steps != [] {
      CreationsAreSeeing(After(s, limits, steps[0]), limits, steps[1..]);
    }
  }

  /** The first page of 502 consecutive identities misses the last one. */
  lemma {:induction false} FullPage(ids: set<Id>)
    requires ids == Numbers(SPOKES + 2)
    ensures var page := FirstSorted(ids, SPOKES + 1);
      |page| == SPOKES + 1 && Id(SPOKES + 1) !in page && Id(0) in page && |Elements(page)| == |page|
  {
    NumbersAre(SPOKES + 2);
    var page := FirstSorted(ids, SPOKES + 1);
    AscendingCardinality(page);
    assert Id(0) in ids && Id(SPOKES + 1) in ids;
    if Id(SPOKES + 1) in page {
      assert forall id | id in ids :: id in page;
      SubsetCardinality(ids, Elements(page));
      assert false;
    }
    assert page[0] in Elements(page);
  }

  lemma {:induction false} HubEdges(s: State)
    requires Stage(s, EDGES)
    ensures DerivedTouching(s.rows, TASK, HUB) == Numbers(SPOKES + 2)
  {
    NumbersAre(SPOKES + 2);
    forall id
      ensures id in DerivedTouching(s.rows, TASK, HUB) <==> id in Numbers(SPOKES + 2)
    {
      HubTouches(s, id);
    }
  }

  /** The hub's page is full before it reaches the row of the indirect ancestor. */
  lemma {:induction false} HubPage(s: State)
    requires Stage(s, EDGES)
    ensures var q := SearchFor(s, DEFAULT_LIMITS, TASK, Some(Id(0)));
      Id(SPOKES + 1) !in q.Seen(HUB) && |q.Seen(HUB)| <= SPOKES
  {
    var q := SearchFor(s, DEFAULT_LIMITS, TASK, Some(Id(0)));
    HubEdges(s);
    FullPage(DerivedTouching(s.rows, TASK, HUB));
    SeenIsPage(q, HUB, FirstSorted(DerivedTouching(s.rows, TASK, HUB), SPOKES + 1), Id(0));
  }

  lemma {:induction false} SeenIsPage(q: Search, source: Id, page: seq<Id>, excluded: Id)
    requires page == q.Fetched(source) && q.excluded == Some(excluded) && excluded in page && |Elements(page)| == |page|
    ensures |q.Seen(source)| < |page| && forall id | id in q.Seen(source) :: id in page
  {
    ProperSubset(q.Seen(source), excluded, Elements(page));
  }

  lemma {:induction false} HubTouches(s: State, id: Id)
    requires Stage(s, EDGES)
    ensures id in DerivedTouching(s.rows, TASK, HUB) <==> id.number < SPOKES + 2
  {
    if id in s.rows {
      var j :| 1 <= j <= EDGES && id == RowId(j);
      assert RowIs(s.rows[id], j);
    }
    if id.number < SPOKES + 2 {
      var j := if id.number == 0 then SPOKES + 1 else if id.number <= SPOKES then id.number else SPOKES + 2;
      assert id == RowId(j);
      assert RowIs(s.rows[RowId(j)], j);
    }
  }

  const FLIP := Serve(TASK, Call("operator", Some(Authority(Id(1), 1)), Id(0), Id(1000), 0),
    Mutate(Id(0), 1, false, None, Some(HighToLow), "flipped", Id(1000)))

  lemma {:induction false} FlipProven(s: State)
    requires Stage(s, EDGES)
    ensures SearchFor(s, DEFAULT_LIMITS, TASK, Some(Id(0))).ProofExists(DIRECT, HUB)
  {
    var q := SearchFor(s, DEFAULT_LIMITS, TASK, Some(Id(0)));
    HubPage(s);
    forall id | id in q.Seen(HUB)
      ensures q.rows[id].DerivedEnd() != HUB
    {
      var j :| 1 <= j <= EDGES && id == RowId(j);
      assert RowIs(s.rows[id], j);
    }
    ImmediateProof(q, DIRECT, HUB);
  }

  /** A direction change of an active row that passes every check is written. */
  lemma {:induction false} DirectionChanges(s: State, limits: Limits, task: Id, call: Call, req: Request, d: Direction)
    requires req.Mutate? && task in s.tasks && call.authority.Some? && req.relationship in s.rows
    requires FindOperation(s.changes, req.operationId) == None && !ChangeIdUsed(s.changes, call.newChange)
    requires var current := s.rows[req.relationship];
      && current.id == req.relationship && current.task == task && current.revision == req.expectedRevision
      && current.kind == DerivedFrom && d != NoDirection && d != current.direction
      && Requested(current, req) == (Active, d)
      && MayActivate(s, limits, NextRow(current, d, Active, call))
    ensures MutateSpec(s, limits, task, call, req).0.rows ==
      s.rows[req.relationship := NextRow(s.rows[req.relationship], d, Active, call)]
  {
  }

  lemma {:induction false} FlipAccepted(s: State) returns (row: Relationship)
    requires Stage(s, EDGES) && Coherent(s)
    ensures After(s, DEFAULT_LIMITS, FLIP).rows == s.rows[Id(0) := row]
    ensures row.ActiveDerived(TASK) && row.DerivedEnd() == DIRECT && row.UpstreamEnd() == HUB
  {
    FlipProven(s);
    var j := SPOKES + 1;
    assert RowId(j) == Id(0) && RowIs(s.rows[RowId(j)], j) && RowCoherent(s, Id(0));
    row := NextRow(s.rows[Id(0)], HighToLow, Active, FLIP.call);
    NothingRecordedAt(s.changes, 1000);
    DirectionChanges(s, DEFAULT_LIMITS, TASK, FLIP.call, FLIP.req, HighToLow);
  }

  lemma {:induction false} NothingRecordedAt(changes: seq<Change>, n: nat)
    requires forall c | c in changes :: c.id.number <= EDGES && c.operationId.number <= EDGES
    requires n > EDGES
    ensures FindOperation(changes, Id(n)) == None && !ChangeIdUsed(changes, Id(n))
  {
  }

  /** The acyclicity law fails without the degree hypothesis: an accepted flip of a reachable state closes a cycle. */
  lemma {:induction false} FlipClosesCycle()
    ensures var s := Run(EMPTY, DEFAULT_LIMITS, Build(EDGES));
      Coherent(s) && NoCycles(s) && !AcyclicTask(After(s, DEFAULT_LIMITS, FLIP).rows, TASK)
  {
    var s := Run(EMPTY, DEFAULT_LIMITS, Build(EDGES));
    BuildReaches(EDGES);
    RunKeepsCoherent(EMPTY, DEFAULT_LIMITS, Build(EDGES));
    BuildCreates(EDGES);
    CreationsAreSeeing(EMPTY, DEFAULT_LIMITS, Build(EDGES));
    EmptyHasNoCycles();
    RunKeepsAcyclic(EMPTY, DEFAULT_LIMITS, Build(EDGES));
    var row := FlipAccepted(s);
    CycleAfterFlip(s, row);
  }

  lemma {:induction false} CycleAfterFlip(s: State, row: Relationship)
    requires Stage(s, EDGES)
    requires row.ActiveDerived(TASK) && row.DerivedEnd() == DIRECT && row.UpstreamEnd() == HUB
    ensures !AcyclicTask(s.rows[Id(0) := row], TASK)
  {
    var rows := s.rows[Id(0) := row];
    var edges := DerivedEdges(rows, TASK);
    assert RowIs(s.rows[RowId(SPOKES + 2)], SPOKES + 2) && RowIs(s.rows[RowId(SPOKES + 3)], SPOKES + 3);
    assert rows[Id(0)].ActiveDerived(TASK);
    assert rows[Id(SPOKES + 1)].ActiveDerived(TASK) && rows[Id(SPOKES + 2)].ActiveDerived(TASK);
    assert (DIRECT, HUB) in edges && (HUB, INDIRECT) in edges && (INDIRECT, DIRECT) in edges;
    assert Walk(edges, [DIRECT, HUB, INDIRECT, DIRECT]);
  }

  // ----- how far the law holds under the deployed limits

  ghost predicate DegreesUpTo(s: State, task: Id, n: nat) {
    forall source :: |DerivedTouching(s.rows, task, source)| <= n
  }

  /** Every request served from a coherent acyclic state, where at most n active derivations touch any source of the task,
      leaves all derivations acyclic. */
  ghost predicate SafeUpTo(n: nat) {
    forall s: State, step: Step | Coherent(s) && NoCycles(s) && step.Serve? && DegreesUpTo(s, step.task, n) ::
      NoCycles(After(s, DEFAULT_LIMITS, step))
  }

  lemma {:induction false} ModestIsSafe(s: State, step: Step)
    requires Coherent(s) && NoCycles(s) && step.Serve? && DegreesUpTo(s, step.task, SPOKES + 1)
    ensures NoCycles(After(s, DEFAULT_LIMITS, step))
  {
    if Misled(s, DEFAULT_LIMITS, step) {
      MisledIsCrowdedFlip(s, DEFAULT_LIMITS, step);
    }
    StepKeepsAcyclic(s, DEFAULT_LIMITS, step);
  }

  /** The rows of the built state, apart from one that misses the given source. */
  lemma {:induction false} StageRowMisses(s: State, source: Id) returns (missing: nat)
    requires Stage(s, EDGES)
    ensures missing < EDGES && Id(missing) !in DerivedTouching(s.rows, TASK, source)
  {
    var j := if source == HUB then SPOKES + 3 else if source == Derived(1) then 2 else 1;
    assert RowIs(s.rows[RowId(j)], j);
    missing := RowId(j).number;
  }

  lemma {:induction false} StageRows(s: State, id: Id)
    requires Stage(s, EDGES) && id in s.rows
    ensures id.number < EDGES
  {
    var j :| 1 <= j <= EDGES && id == RowId(j);
  }

  lemma {:induction false} StageDegree(s: State, source: Id)
    requires Stage(s, EDGES)
    ensures |DerivedTouching(s.rows, TASK, source)| <= SPOKES + 2
  {
    NumbersAre(EDGES);
    var touching := DerivedTouching(s.rows, TASK, source);
    var missing := StageRowMisses(s, source);
    forall id | id in touching
      ensures id in Numbers(EDGES)
    {
      StageRows(s, id);
    }
    ProperSubset(touching, Id(missing), Numbers(EDGES));
  }

  lemma {:induction false} StageDegrees(s: State)
    requires Stage(s, EDGES)
    ensures DegreesUpTo(s, TASK, SPOKES + 2)
  {
    forall source
      ensures |DerivedTouching(s.rows, TASK, source)| <= SPOKES + 2
    {
      StageDegree(s, source);
    }
  }

  /** The deployed service keeps derivations acyclic up to exactly 501 active derivations at a source. */
  lemma {:induction false} SafeExactlyUpToOnePage(n: nat)
    ensures SafeUpTo(n) <==> n <= DEFAULT_LIMITS.examined + 1
  {
    if n <= SPOKES + 1 {
      forall s: State, step: Step | Coherent(s) && NoCycles(s) && step.Serve? && DegreesUpTo(s, step.task, n)
        ensures NoCycles(After(s, DEFAULT_LIMITS, step))
      {
        ModestIsSafe(s, step);
      }
    } else {
      var s := Run(EMPTY, DEFAULT_LIMITS, Build(EDGES));
      BuildReaches(EDGES);
      FlipClosesCycle();
      StageDegrees(s);
      assert DegreesUpTo(s, FLIP.task, n);
      assert !AcyclicTask(After(s, DEFAULT_LIMITS, FLIP).rows, TASK);
    }
  }
}
