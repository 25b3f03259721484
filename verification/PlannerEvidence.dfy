/** The evidence a planned objective rests on, and when it counts as unchanged. */
module PlannerEvidence {
  import opened Basics
  import opened StableSort

  datatype SourceLink = SourceLink(source: Id, support: string, strength: real)

  datatype Claim = Claim(id: Id, statement: string, status: string, links: seq<SourceLink>)

  datatype Source = Source(id: Id, content: string)

  /** A hypothesis together with its assessment. */
  datatype Hypothesis = Hypothesis(id: Id, content: string)

  datatype Edge = Edge(id: Id, low: Id, high: Id, content: string)

  /** The projected source dependence. */
  datatype Dependence = Dependence(complete: bool, invalid: bool, edges: seq<Edge>, visited: seq<Id>, frontier: seq<Id>)

  datatype Evidence = Evidence(
    claims: seq<Claim>, sources: seq<Source>, hypotheses: seq<Hypothesis>, dependence: Option<Dependence>)

  datatype Reason =
    | MissingAssessment | MissingEvidence | OpenQuestion | IncompleteCycle | ReviewStoppingCriteria | AgentComparisonLimit
    | ContradictoryEvidence | UnresolvedAssessment | UnverifiedClaim | UnanalysedSource | AgentContradiction
    | AgentCorroboration | SourceDependenceUnknown

  predicate Broad(reason: Reason) {
    reason in {MissingAssessment, MissingEvidence, OpenQuestion, IncompleteCycle, ReviewStoppingCriteria, AgentComparisonLimit}
  }

  /** The part of the payload about dependence: nothing, the whole projection, or the edges of one component. */
  datatype Scope = NoDependence | Whole(dependence: Dependence) | Component(edges: seq<Edge>)

  /** What is digested. The digest is taken to be injective, so the payload stands for it. */
  datatype Payload = Payload(claims: seq<Claim>, sources: seq<Source>, hypotheses: seq<Hypothesis>, scope: Scope)

  datatype Basis = Basis(
    reason: Reason, hypothesis: Option<Id>, assessment: Option<Id>, source: Option<Id>, claims: seq<Id>, sources: seq<Id>,
    fingerprint: Option<Payload>)

  function Plain(reason: Reason): Basis {
    Basis(reason, None, None, None, [], [], None)
  }

  function Keep<T>(s: seq<T>, wanted: T -> bool): seq<T> {
    if s == [] then [] else (if wanted(s[0]) then [s[0]] else []) + Keep(s[1..], wanted)
  }

  lemma {:induction false} KeepMembers<T>(s: seq<T>, wanted: T -> bool)
    ensures forall x :: x in Keep(s, wanted) <==> x in s && wanted(x)
  {
    if s != [] {
      KeepMembers(s[1..], wanted);
      assert s == [s[0]] + s[1..];
    }
  }

  lemma {:induction false} KeptFrom<T>(s: seq<T>, wanted: T -> bool, i: nat) returns (j: nat)
    requires i < |Keep(s, wanted)|
    ensures j < |s| && s[j] == Keep(s, wanted)[i]
  {
    if wanted(s[0]) && i == 0 {
      j := 0;
    } else {
      var k := KeptFrom(s[1..], wanted, if wanted(s[0]) then i - 1 else i);
      j := k + 1;
    }
  }

  lemma {:induction false} KeepDiffers<T>(s: seq<T>, wanted: T -> bool, key: T -> int)
    requires KeysDiffer(s, key)
    ensures KeysDiffer(Keep(s, wanted), key)
  {
    if s != [] {
      KeepDiffers(s[1..], wanted, key);
      var rest := Keep(s[1..], wanted);
      forall i | 0 <= i < |rest|
        ensures key(rest[i]) != key(s[0])
      {
        var j := KeptFrom(s[1..], wanted, i);
        assert s[j + 1] == rest[i];
      }
    }
  }

  // ----- the component of the referenced sources

  predicate Touches(edge: Edge, related: set<Id>) {
    edge.low in related || edge.high in related
  }

  function Expand(edges: seq<Edge>, related: set<Id>): set<Id> {
    related + (set edge | edge in edges && Touches(edge, related) :: edge.low)
            + (set edge | edge in edges && Touches(edge, related) :: edge.high)
  }

  function Ends(edges: seq<Edge>): set<Id> {
    (set edge | edge in edges :: edge.low) + (set edge | edge in edges :: edge.high)
  }

  lemma {:induction false} ExpandShrinks(edges: seq<Edge>, related: set<Id>)
    ensures Expand(edges, related) != related ==> |Ends(edges) - Expand(edges, related)| < |Ends(edges) - related|
  {
    var expanded := Expand(edges, related);
    if expanded != related {
      assert expanded == related + (expanded - related);
      var x :| x in expanded - related;
      ProperSubset(Ends(edges) - expanded, x, Ends(edges) - related);
    }
  }

  /** Expand until nothing is added. */
  function Closure(edges: seq<Edge>, related: set<Id>): set<Id>
    decreases |Ends(edges) - related|
  {
    var expanded := Expand(edges, related);
    ExpandShrinks(edges, related);
    if expanded == related then related else Closure(edges, expanded)
  }

  method ComponentOf(edges: seq<Edge>, sources: set<Id>) returns (related: set<Id>)
    ensures related == Closure(edges, sources)
  {
    related := sources;
    while true
      invariant Closure(edges, related) == Closure(edges, sources)
      decreases |Ends(edges) - related|
    {
      var expanded := Expand(edges, related);
      ExpandShrinks(edges, related);
      if expanded == related {
        break;
      }
      related := expanded;
    }
  }

  ghost predicate ClosedUnder(edges: seq<Edge>, s: set<Id>) {
    forall edge | edge in edges && (edge.low in s || edge.high in s) :: edge.low in s && edge.high in s
  }

  lemma {:induction false} ExpandWithin(edges: seq<Edge>, related: set<Id>, s: set<Id>)
    requires related <= s && ClosedUnder(edges, s)
    ensures Expand(edges, related) <= s
  {
    forall edge | edge in edges && Touches(edge, related)
      ensures edge.low in s && edge.high in s
    {
      assert Touches(edge, s);
    }
  }

  lemma {:induction false} FixedIsClosed(edges: seq<Edge>, s: set<Id>)
    requires Expand(edges, s) == s
    ensures ClosedUnder(edges, s)
  {
    forall edge | edge in edges && Touches(edge, s)
      ensures edge.low in s && edge.high in s
    {
      assert edge.low in Expand(edges, s) && edge.high in Expand(edges, s);
    }
  }

  /** The closure loop computes the least superset of the sources that is closed under the declared edges. */
  lemma {:induction false} ClosureIsLeast(edges: seq<Edge>, sources: set<Id>)
    ensures sources <= Closure(edges, sources) && ClosedUnder(edges, Closure(edges, sources))
    ensures forall s | sources <= s && ClosedUnder(edges, s) :: Closure(edges, sources) <= s
    decreases |Ends(edges) - sources|
  {
    var expanded := Expand(edges, sources);
    ExpandShrinks(edges, sources);
    if expanded == sources {
      FixedIsClosed(edges, sources);
    } else {
      ClosureIsLeast(edges, expanded);
      forall s | sources <= s && ClosedUnder(edges, s)
        ensures Closure(edges, sources) <= s
      {
        ExpandWithin(edges, sources, s);
      }
    }
  }

  /** The component only depends on the edges that touch it. */
  lemma {:induction false} ClosureIsLocal(a: seq<Edge>, b: seq<Edge>, sources: set<Id>)
    requires forall edge | Touches(edge, Closure(a, sources)) :: edge in a <==> edge in b
    ensures Closure(b, sources) == Closure(a, sources)
  {
    ClosureIsLeast(a, sources);
    ClosureIsLeast(b, sources);
    var c, d := Closure(a, sources), Closure(b, sources);
    assert ClosedUnder(b, c);
    assert d <= c;
    assert ClosedUnder(a, d) by {
      forall edge | edge in a && Touches(edge, d)
        ensures edge.low in d && edge.high in d
      {
        assert Touches(edge, c);
      }
    }
  }

  /** Two sets of edges that agree on the edges touching their components have the same component. */
  lemma {:induction false} SameTouchingSameClosure(a: seq<Edge>, b: seq<Edge>, sources: set<Id>)
    requires forall edge ::
      edge in a && Touches(edge, Closure(a, sources)) <==> edge in b && Touches(edge, Closure(b, sources))
    ensures Closure(a, sources) <= Closure(b, sources)
  {
    ClosureIsLeast(a, sources);
    ClosureIsLeast(b, sources);
    var both := Closure(a, sources) * Closure(b, sources);
    assert ClosedUnder(a, both) by {
      forall edge | edge in a && Touches(edge, both)
        ensures edge.low in both && edge.high in both
      {
        assert Touches(edge, Closure(a, sources));
      }
    }
  }

  // ----- the payload

  /** The claims, sources and hypothesis a basis refers to. */
  function ClaimsOf(basis: Basis, e: Evidence): seq<Claim> {
    Keep(e.claims, (claim: Claim) => Broad(basis.reason) || claim.id in basis.claims)
  }

  function SourceIds(basis: Basis, e: Evidence): set<Id> {
    Elements(basis.sources) + (if basis.source.Some? then {basis.source.value} else {})
      + set claim, link | claim in ClaimsOf(basis, e) && link in claim.links :: link.source
  }

  function SourcesOf(basis: Basis, e: Evidence): seq<Source> {
    var ids := SourceIds(basis, e);
    Keep(e.sources, (source: Source) => Broad(basis.reason) || source.id in ids)
  }

  function HypothesesOf(basis: Basis, e: Evidence): seq<Hypothesis> {
    Keep(e.hypotheses, (h: Hypothesis) => Broad(basis.reason) || basis.hypothesis == Some(h.id))
  }

  function ScopeWith(basis: Basis, d: Dependence, related: set<Id>): Scope {
    Component(Keep(SortBy(d.edges, (edge: Edge) => edge.id.number), (edge: Edge) => Touches(edge, related)))
  }

  /** Broad reviews and incomplete projections keep everything known; otherwise the component of the sources is enough. */
  predicate KeepsWhole(basis: Basis, d: Dependence) {
    Broad(basis.reason) || basis.reason == SourceDependenceUnknown || !d.complete
  }

  function ScopeOf(basis: Basis, e: Evidence): Scope {
    match e.dependence
    case None => NoDependence
    case Some(d) =>
      if KeepsWhole(basis, d) then Whole(d) else ScopeWith(basis, d, Closure(d.edges, SourceIds(basis, e)))
  }

  function PayloadOf(basis: Basis, e: Evidence): Payload {
    Payload(SortBy(ClaimsOf(basis, e), (claim: Claim) => claim.id.number),
      SortBy(SourcesOf(basis, e), (source: Source) => source.id.number),
      SortBy(HypothesesOf(basis, e), (h: Hypothesis) => h.id.number),
      ScopeOf(basis, e))
  }

  function WithEvidence(basis: Basis, e: Evidence): Basis {
    if basis.fingerprint.Some? then basis else basis.(fingerprint := Some(PayloadOf(basis, e)))
  }

  method AttachEvidence(basis: Basis, e: Evidence) returns (r: Basis)
    ensures r == WithEvidence(basis, e)
  {
    if basis.fingerprint.Some? {
      return basis;
    }
    var scope := NoDependence;
    if e.dependence.Some? {
      var d := e.dependence.value;
      if KeepsWhole(basis, d) {
        scope := Whole(d);
      } else {
        var related := ComponentOf(d.edges, SourceIds(basis, e));
        scope := ScopeWith(basis, d, related);
      }
    }
    return basis.(fingerprint := Some(PayloadOf(basis, e).(scope := scope)));
  }

  // ----- when two states of the evidence give the same fingerprint

  /** Identities are unique in each list. */
  ghost predicate Keyed(e: Evidence) {
    && KeysDiffer(e.claims, (claim: Claim) => claim.id.number)
    && KeysDiffer(e.sources, (source: Source) => source.id.number)
    && KeysDiffer(e.hypotheses, (h: Hypothesis) => h.id.number)
    && (e.dependence.Some? ==> KeysDiffer(e.dependence.value.edges, (edge: Edge) => edge.id.number))
  }

  /** Two projections agree on the component of the sources, as the first one shows it. */
  ghost predicate SameComponent(a: Option<Dependence>, b: Option<Dependence>, sources: set<Id>) {
    if a == None || b == None then a == b
    else
      var component := Closure(a.value.edges, sources);
      b.value.complete && forall edge: Edge | edge.low in component || edge.high in component ::
        edge in a.value.edges <==> edge in b.value.edges
  }

  /** The two states hold the same referenced claims, sources and hypothesis, and the same component of those sources. */
  ghost predicate SameReferenced(basis: Basis, a: Evidence, b: Evidence) {
    && (forall claim: Claim | claim.id in basis.claims :: claim in a.claims <==> claim in b.claims)
    && (forall source: Source | source.id in SourceIds(basis, a) :: source in a.sources <==> source in b.sources)
    && (forall h: Hypothesis | basis.hypothesis == Some(h.id) :: h in a.hypotheses <==> h in b.hypotheses)
    && SameComponent(a.dependence, b.dependence, SourceIds(basis, a))
  }

  /** The reasons about particular claims, sources or hypotheses. */
  predicate Particular(reason: Reason) {
    match reason
    case ContradictoryEvidence => true
    case UnresolvedAssessment => true
    case UnverifiedClaim => true
    case UnanalysedSource => true
    case AgentContradiction => true
    case AgentCorroboration => true
    case SourceDependenceUnknown => true
    case _ => false
  }

  ghost predicate Narrow(basis: Basis, e: Evidence) {
    && Particular(basis.reason) && basis.reason != SourceDependenceUnknown && basis.fingerprint == None
    && (e.dependence.Some? ==> e.dependence.value.complete)
  }

  /** Sorted selections are equal exactly when they select the same elements. */
  lemma {:induction false} SameSelection<T>(a: seq<T>, b: seq<T>, wantedA: T -> bool, wantedB: T -> bool, key: T -> int)
    requires KeysDiffer(a, key) && KeysDiffer(b, key)
    ensures SortBy(Keep(a, wantedA), key) == SortBy(Keep(b, wantedB), key) <==>
      forall x :: x in a && wantedA(x) <==> x in b && wantedB(x)
  {
    KeepMembers(a, wantedA);
    KeepMembers(b, wantedB);
    KeepDiffers(a, wantedA, key);
    KeepDiffers(b, wantedB, key);
    SortIsStable(Keep(a, wantedA), key);
    SortIsStable(Keep(b, wantedB), key);
    SameElements(SortBy(Keep(a, wantedA), key), Keep(a, wantedA));
    SameElements(SortBy(Keep(b, wantedB), key), Keep(b, wantedB));
    if forall x :: x in a && wantedA(x) <==> x in b && wantedB(x) {
      SortIsCanonical(Keep(a, wantedA), Keep(b, wantedB), key);
    }
  }

  lemma {:induction false} KeepStrict<T>(s: seq<T>, wanted: T -> bool, key: T -> int)
    requires StrictlyBy(s, key)
    ensures StrictlyBy(Keep(s, wanted), key)
  {
    if s != [] {
      KeepStrict(s[1..], wanted, key);
      var rest := Keep(s[1..], wanted);
      forall i | 0 <= i < |rest|
        ensures key(s[0]) < key(rest[i])
      {
        var j := KeptFrom(s[1..], wanted, i);
        assert s[j + 1] == rest[i];
      }
    }
  }

  /** The same for selections from sorted lists. */
  lemma {:induction false} SameKept<T>(a: seq<T>, b: seq<T>, wantedA: T -> bool, wantedB: T -> bool, key: T -> int)
    requires KeysDiffer(a, key) && KeysDiffer(b, key)
    ensures Keep(SortBy(a, key), wantedA) == Keep(SortBy(b, key), wantedB) <==>
      forall x :: x in a && wantedA(x) <==> x in b && wantedB(x)
  {
    KeepMembers(SortBy(a, key), wantedA);
    KeepMembers(SortBy(b, key), wantedB);
    SortIsStable(a, key);
    SortIsStable(b, key);
    SameElements(SortBy(a, key), a);
    SameElements(SortBy(b, key), b);
    DistinctStrict(a, key);
    DistinctStrict(b, key);
    KeepStrict(SortBy(a, key), wantedA, key);
    KeepStrict(SortBy(b, key), wantedB, key);
    if forall x :: x in a && wantedA(x) <==> x in b && wantedB(x) {
      StrictUnique(Keep(SortBy(a, key), wantedA), Keep(SortBy(b, key), wantedB), key);
    }
  }

  lemma {:induction false} SameClaims(basis: Basis, a: Evidence, b: Evidence)
    requires Keyed(a) && Keyed(b) && !Broad(basis.reason)
    ensures PayloadOf(basis, a).claims == PayloadOf(basis, b).claims <==>
      forall claim: Claim | claim.id in basis.claims :: claim in a.claims <==> claim in b.claims
    ensures PayloadOf(basis, a).claims == PayloadOf(basis, b).claims ==> SourceIds(basis, a) == SourceIds(basis, b)
  {
    var wanted := (claim: Claim) => Broad(basis.reason) || claim.id in basis.claims;
    SameSelection(a.claims, b.claims, wanted, wanted, (claim: Claim) => claim.id.number);
    if PayloadOf(basis, a).claims == PayloadOf(basis, b).claims {
      KeepMembers(a.claims, wanted);
      KeepMembers(b.claims, wanted);
      assert forall claim :: claim in ClaimsOf(basis, a) <==> claim in ClaimsOf(basis, b);
    }
  }

  lemma {:induction false} SameSources(basis: Basis, a: Evidence, b: Evidence)
    requires Keyed(a) && Keyed(b) && !Broad(basis.reason) && SourceIds(basis, a) == SourceIds(basis, b)
    ensures PayloadOf(basis, a).sources == PayloadOf(basis, b).sources <==>
      forall source: Source | source.id in SourceIds(basis, a) :: source in a.sources <==> source in b.sources
  {
    var ids := SourceIds(basis, a);
    var wanted := (source: Source) => Broad(basis.reason) || source.id in ids;
    SameSelection(a.sources, b.sources, wanted, wanted, (source: Source) => source.id.number);
  }

  lemma {:induction false} SameHypotheses(basis: Basis, a: Evidence, b: Evidence)
    requires Keyed(a) && Keyed(b) && !Broad(basis.reason)
    ensures PayloadOf(basis, a).hypotheses == PayloadOf(basis, b).hypotheses <==>
      forall h: Hypothesis | basis.hypothesis == Some(h.id) :: h in a.hypotheses <==> h in b.hypotheses
  {
    var wanted := (h: Hypothesis) => Broad(basis.reason) || basis.hypothesis == Some(h.id);
    SameSelection(a.hypotheses, b.hypotheses, wanted, wanted, (h: Hypothesis) => h.id.number);
  }

  lemma {:induction false} SameEdges(basis: Basis, a: Dependence, b: Dependence, sources: set<Id>)
    requires KeysDiffer(a.edges, (edge: Edge) => edge.id.number) && KeysDiffer(b.edges, (edge: Edge) => edge.id.number)
    ensures ScopeWith(basis, a, Closure(a.edges, sources)) == ScopeWith(basis, b, Closure(b.edges, sources)) <==>
      forall edge | Touches(edge, Closure(a.edges, sources)) :: edge in a.edges <==> edge in b.edges
  {
    var c, d := Closure(a.edges, sources), Closure(b.edges, sources);
    SameKept(a.edges, b.edges, (edge: Edge) => Touches(edge, c), (edge: Edge) => Touches(edge, d), (edge: Edge) => edge.id.number);
    if forall edge | Touches(edge, c) :: edge in a.edges <==> edge in b.edges {
      ClosureIsLocal(a.edges, b.edges, sources);
    }
    if forall edge :: edge in a.edges && Touches(edge, c) <==> edge in b.edges && Touches(edge, d) {
      SameTouchingSameClosure(a.edges, b.edges, sources);
      SameTouchingSameClosure(b.edges, a.edges, sources);
    }
  }

  lemma {:induction false} SameScope(basis: Basis, a: Evidence, b: Evidence)
    requires Keyed(a) && Keyed(b) && Narrow(basis, a) && SourceIds(basis, a) == SourceIds(basis, b)
    ensures ScopeOf(basis, a) == ScopeOf(basis, b) <==> SameComponent(a.dependence, b.dependence, SourceIds(basis, a))
  {
    if a.dependence.Some? && b.dependence.Some? {
      SameEdges(basis, a.dependence.value, b.dependence.value, SourceIds(basis, a));
    }
  }

  /** For a narrow basis over a complete projection, two states of the evidence give the same fingerprint exactly when
      they hold the same referenced claims, sources and hypothesis and the same component of those sources. Nothing else
      in the investigation matters. */
  lemma {:induction false} FingerprintIsLocal(basis: Basis, a: Evidence, b: Evidence)
    requires Keyed(a) && Keyed(b) && Narrow(basis, a)
    ensures WithEvidence(basis, a) == WithEvidence(basis, b) <==> SameReferenced(basis, a, b)
  {
    SameClaims(basis, a, b);
    SameHypotheses(basis, a, b);
    if SourceIds(basis, a) == SourceIds(basis, b) {
      SameSources(basis, a, b);
      SameScope(basis, a, b);
    }
  }

  /** The sources a particular basis refers to: those it lists or names, and those its claims cite. */
  lemma {:induction false} SourceIdsExactly(basis: Basis, e: Evidence, id: Id)
    requires Particular(basis.reason)
    ensures id in SourceIds(basis, e) <==>
      || id in basis.sources || basis.source == Some(id)
      || exists claim, link :: claim in e.claims && claim.id in basis.claims && link in claim.links && link.source == id
  {
    KeepMembers(e.claims, (claim: Claim) => Broad(basis.reason) || claim.id in basis.claims);
  }

  lemma {:induction false} EqualWhole(basis: Basis, a: Evidence, b: Evidence)
    requires a.dependence.Some? ==> KeepsWhole(basis, a.dependence.value)
    ensures ScopeOf(basis, a) == ScopeOf(basis, b) <==> a.dependence == b.dependence
  {
  }

  /** For every other reason the fingerprint is of the whole investigation: any change of a claim, a source, a hypothesis or
      the projected dependence gives another one. */
  lemma {:induction false} FingerprintIsWhole(basis: Basis, a: Evidence, b: Evidence)
    requires Keyed(a) && Keyed(b) && !Particular(basis.reason) && basis.fingerprint == None
    ensures WithEvidence(basis, a) == WithEvidence(basis, b) <==>
      && (forall claim :: claim in a.claims <==> claim in b.claims) && (forall source :: source in a.sources <==> source in b.sources)
      && (forall h :: h in a.hypotheses <==> h in b.hypotheses) && a.dependence == b.dependence
  {
    var claims := (claim: Claim) => Broad(basis.reason) || claim.id in basis.claims;
    var hypotheses := (h: Hypothesis) => Broad(basis.reason) || basis.hypothesis == Some(h.id);
    var idsA, idsB := SourceIds(basis, a), SourceIds(basis, b);
    var sourcesA := (source: Source) => Broad(basis.reason) || source.id in idsA;
    var sourcesB := (source: Source) => Broad(basis.reason) || source.id in idsB;
    SameSelection(a.claims, b.claims, claims, claims, (claim: Claim) => claim.id.number);
    SameSelection(a.sources, b.sources, sourcesA, sourcesB, (source: Source) => source.id.number);
    SameSelection(a.hypotheses, b.hypotheses, hypotheses, hypotheses, (h: Hypothesis) => h.id.number);
    EqualWhole(basis, a, b);
  }

  /** A particular basis keeps the whole projection when dependence itself is in question or the projection is incomplete. */
  lemma {:induction false} FingerprintKeepsProjection(basis: Basis, a: Evidence, b: Evidence)
    requires Keyed(a) && Keyed(b) && Particular(basis.reason) && basis.fingerprint == None
    requires basis.reason == SourceDependenceUnknown || (a.dependence.Some? && !a.dependence.value.complete)
    ensures WithEvidence(basis, a) == WithEvidence(basis, b) <==>
      && (forall claim: Claim | claim.id in basis.claims :: claim in a.claims <==> claim in b.claims)
      && (forall source: Source | source.id in SourceIds(basis, a) :: source in a.sources <==> source in b.sources)
      && (forall h: Hypothesis | basis.hypothesis == Some(h.id) :: h in a.hypotheses <==> h in b.hypotheses)
      && a.dependence == b.dependence
  {
    SameClaims(basis, a, b);
    SameHypotheses(basis, a, b);
    if SourceIds(basis, a) == SourceIds(basis, b) {
      SameSources(basis, a, b);
    }
    EqualWhole(basis, a, b);
  }

  /** Attaching evidence only adds a fingerprint, and keeps one that is there. */
  lemma {:induction false} EvidenceIsAttached(basis: Basis, e: Evidence)
    ensures WithEvidence(basis, e).fingerprint.Some?
    ensures WithEvidence(basis, e).(fingerprint := None) == basis.(fingerprint := None)
    ensures basis.fingerprint.Some? ==> WithEvidence(basis, e) == basis
  {
  }
}
