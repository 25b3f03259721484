/** Selecting the objectives of the next cycle. */
module Planner {
  import opened Basics
  import opened StableSort
  import opened PlannerEvidence
  import opened PlannerReviews
  import opened PlannerLedger

  datatype Candidate = Candidate(priority: int, objective: string, basis: Basis)

  const STOPPING := "Review the stopping criteria and decide whether more evidence is needed."
  const LIMIT := 3

  /** How candidates are told apart, ranked and ruled out. */
  datatype Judge = Judge(
    eligible: Candidate -> bool, basis: Candidate -> Basis, identity: Candidate -> Identity, priority: Candidate -> int)

  /** What the plan is made from: the evidence, the cycles, what they left, and the candidates the evidence suggests. */
  datatype Situation = Situation(evidence: Evidence, cycles: seq<Cycle>, ledger: Ledger, derived: seq<Candidate>)
  {
    function IdentityFor(c: Candidate): Identity {
      IdentityOf(c.objective, WithEvidence(c.basis, evidence))
    }

    /** Not closed by a current review, and not finished before. */
    predicate Eligible(c: Candidate) {
      !ReviewedComplete(cycles, c.objective, evidence, Some(c.basis)) && IdentityFor(c) !in ledger.completed
    }

    /** Whatever was left open is at least second priority. */
    function Priority(c: Candidate): int {
      if Keys(ledger.outstanding, c.objective) && c.priority > 1 then 1 else c.priority
    }

    function Judgement(): Judge {
      Judge(
        (c: Candidate) => Eligible(c), (c: Candidate) => WithEvidence(c.basis, evidence),
        (c: Candidate) => IdentityFor(c), (c: Candidate) => Priority(c))
    }

    /** Objectives left open that the evidence does not suggest anyway. */
    function Leftovers(entries: seq<(string, Basis)>): seq<Candidate> {
      if entries == [] then []
      else
        var (objective, basis) := entries[0];
        (if objective != "" && forall c | c in derived :: c.objective != objective
         then [Candidate(1, objective, basis.(fingerprint := None))] else [])
        + Leftovers(entries[1..])
    }

    function Candidates(): seq<Candidate> {
      derived + Leftovers(ledger.outstanding)
    }

    function Ranked(): seq<Candidate> {
      SortBy(Candidates(), Judgement().priority)
    }
  }

  // ----- the plain description of the selection

  /** The first candidate of each identity. */
  function FirstOfEach(j: Judge, ranked: seq<Candidate>, seen: set<Identity>): seq<Candidate> {
    if ranked == [] then []
    else if j.identity(ranked[0]) in seen then FirstOfEach(j, ranked[1..], seen)
    else [ranked[0]] + FirstOfEach(j, ranked[1..], seen + {j.identity(ranked[0])})
  }

  function Take<T>(list: seq<T>, n: nat): seq<T> {
    if |list| <= n then list else list[..n]
  }

  /** Sort stably by effective priority, drop what is closed or finished, keep one of each identity, take three. */
  function SelectionOf(j: Judge, candidates: seq<Candidate>): seq<Candidate> {
    Take(FirstOfEach(j, Keep(SortBy(candidates, j.priority), j.eligible), {}), LIMIT)
  }

  function Chosen(s: Situation): seq<Candidate> {
    SelectionOf(s.Judgement(), s.Candidates())
  }

  /** What the loop still picks from the rest of the ranking. */
  function Pick(j: Judge, ranked: seq<Candidate>, seen: set<Identity>, room: nat): seq<Candidate> {
    if ranked == [] || room == 0 then []
    else if !j.eligible(ranked[0]) || j.identity(ranked[0]) in seen then Pick(j, ranked[1..], seen, room)
    else [ranked[0]] + Pick(j, ranked[1..], seen + {j.identity(ranked[0])}, room - 1)
  }

  lemma {:induction false} TakeOne<T>(x: T, rest: seq<T>, n: nat)
    ensures n > 0 ==> Take([x] + rest, n) == [x] + Take(rest, n - 1)
    ensures Take(rest, 0) == []
  {
  }

  /** The greedy loop makes the plain selection. */
  lemma {:induction false} PickIsPlain(j: Judge, ranked: seq<Candidate>, seen: set<Identity>, room: nat)
    ensures Pick(j, ranked, seen, room) == Take(FirstOfEach(j, Keep(ranked, j.eligible), seen), room)
  {
    var eligible := j.eligible;
    if ranked != [] && room > 0 {
      var head, rest := ranked[0], ranked[1..];
      if !j.eligible(head) {
        assert Keep(ranked, eligible) == Keep(rest, eligible);
        PickIsPlain(j, rest, seen, room);
      } else {
        assert Keep(ranked, eligible) == [head] + Keep(rest, eligible);
        assert Keep(ranked, eligible)[1..] == Keep(rest, eligible);
        if j.identity(head) in seen {
          PickIsPlain(j, rest, seen, room);
        } else {
          PickIsPlain(j, rest, seen + {j.identity(head)}, room - 1);
          TakeOne(head, FirstOfEach(j, Keep(rest, eligible), seen + {j.identity(head)}), room);
        }
      }
    }
  }

  // ----- the plan

  datatype Plan = Plan(objectives: seq<string>, basis: seq<Basis>)

  function ObjectivesOf(chosen: seq<Candidate>): seq<string> {
    seq(|chosen|, i requires 0 <= i < |chosen| => chosen[i].objective)
  }

  function BasesOf(j: Judge, chosen: seq<Candidate>): seq<Basis> {
    seq(|chosen|, i requires 0 <= i < |chosen| => j.basis(chosen[i]))
  }

  predicate StoppingReviewed(s: Situation) {
    ReviewedComplete(s.cycles, STOPPING, s.evidence, Some(Plain(ReviewStoppingCriteria)))
  }

  /** The chosen candidates; failing any, a review of the stopping criteria, unless that is completed as well. */
  function PlanOf(j: Judge, chosen: seq<Candidate>, stoppingReviewed: bool, fallback: Basis): Plan {
    if chosen != [] then Plan(ObjectivesOf(chosen), BasesOf(j, chosen))
    else if stoppingReviewed then Plan([], [])
    else Plan([STOPPING], [fallback])
  }

  function PlanFor(s: Situation, chosen: seq<Candidate>): Plan {
    PlanOf(s.Judgement(), chosen, StoppingReviewed(s), WithEvidence(Plain(ReviewStoppingCriteria), s.evidence))
  }

  /** The choices made so far and those still to come from the ranking make up the selection. */
  ghost predicate Selecting(
    j: Judge, selection: seq<Candidate>, ranked: seq<Candidate>, i: nat, chosen: seq<Candidate>, seen: set<Identity>)
  {
    && i <= |ranked| && |chosen| <= LIMIT
    && selection == chosen + Pick(j, ranked[i..], seen, LIMIT - |chosen|)
  }

  lemma {:induction false} SelectionStarts(s: Situation)
    ensures Selecting(s.Judgement(), Chosen(s), s.Ranked(), 0, [], {})
  {
    var ranked := s.Ranked();
    PickIsPlain(s.Judgement(), ranked, {}, LIMIT);
    assert ranked[0..] == ranked;
    Prefix([], [], Pick(s.Judgement(), ranked, {}, LIMIT));
  }

  lemma {:induction false} SelectionEnds(
    j: Judge, selection: seq<Candidate>, ranked: seq<Candidate>, i: nat, chosen: seq<Candidate>, seen: set<Identity>)
    requires Selecting(j, selection, ranked, i, chosen, seen) && (i == |ranked| || |chosen| == LIMIT)
    ensures chosen == selection
  {
    Prefix([], chosen, []);
  }

  predicate Taken(j: Judge, c: Candidate, seen: set<Identity>) {
    j.eligible(c) && j.identity(c) !in seen
  }

  lemma {:induction false} SelectionAdvances(
    j: Judge, selection: seq<Candidate>, ranked: seq<Candidate>, i: nat, chosen: seq<Candidate>, seen: set<Identity>)
    requires Selecting(j, selection, ranked, i, chosen, seen) && i < |ranked| && |chosen| < LIMIT
    ensures if Taken(j, ranked[i], seen)
            then Selecting(j, selection, ranked, i + 1, chosen + [ranked[i]], seen + {j.identity(ranked[i])})
            else Selecting(j, selection, ranked, i + 1, chosen, seen)
  {
    var c, rest := ranked[i], ranked[i + 1..];
    assert ranked[i..] == [c] + rest;
    PickStep(j, c, rest, seen, LIMIT - |chosen|);
    if Taken(j, c, seen) {
      Prefix(chosen, [c], Pick(j, rest, seen + {j.identity(c)}, LIMIT - |chosen| - 1));
    }
  }

  lemma {:induction false} PickStep(j: Judge, c: Candidate, rest: seq<Candidate>, seen: set<Identity>, room: nat)
    requires room > 0
    ensures Pick(j, [c] + rest, seen, room) ==
      if Taken(j, c, seen) then [c] + Pick(j, rest, seen + {j.identity(c)}, room - 1) else Pick(j, rest, seen, room)
  {
    assert ([c] + rest)[1..] == rest;
  }

  lemma {:induction false} Prefix<T>(front: seq<T>, middle: seq<T>, rest: seq<T>)
    ensures front + (middle + rest) == (front + middle) + rest
    ensures front + [] == front && [] + rest == rest
  {
  }

  /** The two lists the loop builds. */
  ghost predicate Lists(j: Judge, chosen: seq<Candidate>, objectives: seq<string>, basis: seq<Basis>) {
    objectives == ObjectivesOf(chosen) && basis == BasesOf(j, chosen) && |chosen| == |objectives| == |basis|
  }

  lemma {:induction false} ListsNext(j: Judge, chosen: seq<Candidate>, objectives: seq<string>, basis: seq<Basis>, c: Candidate)
    requires Lists(j, chosen, objectives, basis)
    ensures Lists(j, chosen + [c], objectives + [c.objective], basis + [j.basis(c)])
  {
  }

  /** The judge gives the verdicts of the situation. */
  ghost predicate Verdict(s: Situation, j: Judge, c: Candidate) {
    j.eligible(c) == s.Eligible(c) && j.basis(c) == WithEvidence(c.basis, s.evidence) && j.identity(c) == s.IdentityFor(c)
  }

  ghost predicate Judges(s: Situation, j: Judge) {
    forall c {:trigger Verdict(s, j, c)} :: Verdict(s, j, c)
  }

  lemma {:induction false} JudgementJudges(s: Situation)
    ensures Judges(s, s.Judgement())
  {
  }

  /** Whether the next candidate is taken, and with which basis and identity. */
  method Consider(s: Situation, ghost j: Judge, c: Candidate, seen: set<Identity>) returns (taken: Option<(Basis, Identity)>)
    requires Judges(s, j)
    ensures taken == if Taken(j, c, seen) then Some((j.basis(c), j.identity(c))) else None
  {
    assert Verdict(s, j, c);
    if ReviewedComplete(s.cycles, c.objective, s.evidence, Some(c.basis)) {
      return None;
    }
    var reason := AttachEvidence(c.basis, s.evidence);
    var identity := IdentityOf(c.objective, reason);
    if identity in s.ledger.completed || identity in seen {
      return None;
    }
    return Some((reason, identity));
  }

  /** Go through the ranked candidates; three are enough. */
  method ChooseFrom(s: Situation, ranked: seq<Candidate>, ghost j: Judge, ghost selection: seq<Candidate>)
    returns (objectives: seq<string>, basis: seq<Basis>)
    requires Judges(s, j) && Selecting(j, selection, ranked, 0, [], {})
    ensures Lists(j, selection, objectives, basis)
  {
    var seen: set<Identity> := {};
    objectives, basis := [], [];
    ghost var chosen: seq<Candidate> := [];
    var i := 0;
    while i < |ranked| && |objectives| < LIMIT
      invariant 0 <= i <= |ranked|
      invariant Lists(j, chosen, objectives, basis) && Selecting(j, selection, ranked, i, chosen, seen)
    {
      SelectionAdvances(j, selection, ranked, i, chosen, seen);
      ListsNext(j, chosen, objectives, basis, ranked[i]);
      var taken := Consider(s, j, ranked[i], seen);
      if taken.Some? {
        seen := seen + {taken.value.1};
        objectives := objectives + [ranked[i].objective];
        basis := basis + [taken.value.0];
        chosen := chosen + [ranked[i]];
      }
      i := i + 1;
    }
    SelectionEnds(j, selection, ranked, i, chosen, seen);
  }

  /** The plan of the next cycle. */
  method PlanObjectives(evidence: Evidence, cycles: seq<Cycle>, derived: seq<Candidate>) returns (plan: Plan)
    ensures var s := Situation(evidence, cycles, Replay(EventsOfAll(OldestFirst(cycles))), derived);
      plan == PlanFor(s, Chosen(s))
  {
    var ledger := ReadLedger(cycles);
    var s := Situation(evidence, cycles, ledger, derived);
    SelectionStarts(s);
    JudgementJudges(s);
    var objectives, basis := ChooseFrom(s, s.Ranked(), s.Judgement(), Chosen(s));
    plan := Plan(objectives, basis);
    if objectives == [] {
      if StoppingReviewed(s) {
        return Plan([], []);
      }
      var reason := AttachEvidence(Plain(ReviewStoppingCriteria), evidence);
      return Plan([STOPPING], [reason]);
    }
  }

  // ----- what the plan is

  ghost predicate ByPriority(j: Judge, list: seq<Candidate>) {
    forall a, b | 0 <= a < b < |list| :: j.priority(list[a]) <= j.priority(list[b])
  }

  ghost predicate OneOfEach(j: Judge, list: seq<Candidate>) {
    forall a, b | 0 <= a < b < |list| :: j.identity(list[a]) != j.identity(list[b])
  }

  /** A candidate of the same identity and no later priority. */
  ghost predicate Represents(j: Judge, d: Candidate, c: Candidate) {
    j.identity(d) == j.identity(c) && j.priority(d) <= j.priority(c)
  }

  lemma {:induction false} ByPriorityTail(j: Judge, list: seq<Candidate>)
    requires ByPriority(j, list) && list != []
    ensures ByPriority(j, list[1..])
    ensures forall c | c in list[1..] :: j.priority(list[0]) <= j.priority(c)
    ensures forall c :: c in list <==> c == list[0] || c in list[1..]
  {
    assert list == [list[0]] + list[1..];
  }

  lemma {:induction false} FirstOfEachMembers(j: Judge, list: seq<Candidate>, seen: set<Identity>)
    ensures forall c | c in FirstOfEach(j, list, seen) :: c in list && j.identity(c) !in seen
    ensures OneOfEach(j, FirstOfEach(j, list, seen))
  {
    if list != [] {
      var head, rest := list[0], list[1..];
      assert list == [head] + rest;
      if j.identity(head) in seen {
        FirstOfEachMembers(j, rest, seen);
      } else {
        var more := FirstOfEach(j, rest, seen + {j.identity(head)});
        FirstOfEachMembers(j, rest, seen + {j.identity(head)});
        assert forall k | 0 <= k < |more| :: more[k] in more;
      }
    }
  }

  lemma {:induction false} FirstOfEachOrdered(j: Judge, list: seq<Candidate>, seen: set<Identity>)
    requires ByPriority(j, list)
    ensures ByPriority(j, FirstOfEach(j, list, seen))
  {
    if list != [] {
      var head, rest := list[0], list[1..];
      ByPriorityTail(j, list);
      if j.identity(head) in seen {
        FirstOfEachOrdered(j, rest, seen);
      } else {
        var more := FirstOfEach(j, rest, seen + {j.identity(head)});
        FirstOfEachOrdered(j, rest, seen + {j.identity(head)});
        FirstOfEachMembers(j, rest, seen + {j.identity(head)});
        assert forall k | 0 <= k < |more| :: more[k] in more;
      }
    }
  }

  lemma {:induction false} FirstOfEachCovers(j: Judge, list: seq<Candidate>, seen: set<Identity>, c: Candidate)
    requires ByPriority(j, list) && c in list && j.identity(c) !in seen
    ensures exists d :: d in FirstOfEach(j, list, seen) && Represents(j, d, c)
  {
    var head, rest := list[0], list[1..];
    ByPriorityTail(j, list);
    if j.identity(head) in seen {
      FirstOfEachCovers(j, rest, seen, c);
    } else if j.identity(head) == j.identity(c) {
      assert head in FirstOfEach(j, list, seen) && Represents(j, head, c);
    } else {
      FirstOfEachCovers(j, rest, seen + {j.identity(head)}, c);
    }
  }

  lemma {:induction false} KeepByPriority(j: Judge, list: seq<Candidate>)
    requires ByPriority(j, list)
    ensures ByPriority(j, Keep(list, j.eligible))
  {
    if list != [] {
      ByPriorityTail(j, list);
      KeepByPriority(j, list[1..]);
      KeepMembers(list[1..], j.eligible);
      var rest := Keep(list[1..], j.eligible);
      assert forall k | 0 <= k < |rest| :: rest[k] in rest;
    }
  }

  /** The selection is full, and nothing in it comes later than this priority. */
  ghost predicate FullBefore(j: Judge, selection: seq<Candidate>, priority: int) {
    |selection| == LIMIT && forall k | 0 <= k < |selection| :: j.priority(selection[k]) <= priority
  }

  /** A candidate is passed over only for one of the same identity, or for three of no later priority. */
  ghost predicate Answered(j: Judge, selection: seq<Candidate>, c: Candidate) {
    (exists d :: d in selection && Represents(j, d, c)) || FullBefore(j, selection, j.priority(c))
  }

  ghost predicate Drawn(j: Judge, candidates: seq<Candidate>, selection: seq<Candidate>) {
    forall c | c in selection :: c in candidates && j.eligible(c)
  }

  /** The selection by any judge from any candidates: at most three eligible ones, of distinct identities and in order of
      priority, which answer for every eligible candidate. */
  ghost predicate BestOf(j: Judge, candidates: seq<Candidate>, selection: seq<Candidate>) {
    && |selection| <= LIMIT && OneOfEach(j, selection) && ByPriority(j, selection) && Drawn(j, candidates, selection)
    && (forall c {:trigger Answered(j, selection, c)} | c in candidates && j.eligible(c) :: Answered(j, selection, c))
  }

  lemma {:induction false} SelectionIsBest(j: Judge, candidates: seq<Candidate>)
    ensures BestOf(j, candidates, SelectionOf(j, candidates))
  {
    var ranked := SortBy(candidates, j.priority);
    SortIsStable(candidates, j.priority);
    SameElements(ranked, candidates);
    var eligibles := Keep(ranked, j.eligible);
    KeepMembers(ranked, j.eligible);
    KeepByPriority(j, ranked);
    var firsts := FirstOfEach(j, eligibles, {});
    var selection := Take(firsts, LIMIT);
    FirstOfEachMembers(j, eligibles, {});
    FirstOfEachOrdered(j, eligibles, {});
    assert forall k | 0 <= k < |selection| :: selection[k] == firsts[k];
    forall c | c in selection
      ensures c in candidates && j.eligible(c)
    {
      assert c in firsts;
    }
    forall c | c in candidates && j.eligible(c)
      ensures Answered(j, selection, c)
    {
      FirstOfEachCovers(j, eligibles, {}, c);
      var d :| d in firsts && Represents(j, d, c);
      var k :| 0 <= k < |firsts| && firsts[k] == d;
      assert k < LIMIT ==> selection[k] == d;
    }
  }

  /** What the planner chooses is best in that sense. */
  lemma {:induction false} ChosenIsBest(s: Situation)
    ensures BestOf(s.Judgement(), s.Candidates(), Chosen(s))
  {
    SelectionIsBest(s.Judgement(), s.Candidates());
  }

  // ----- candidates in another order

  /** Two selections from the same candidates: as many, of the same priorities in the same places, and the same identities
      wherever priorities decide. */
  ghost predicate Agree(j: Judge, a: seq<Candidate>, b: seq<Candidate>) {
    && |a| == |b| && (forall k | 0 <= k < |a| :: j.priority(a[k]) == j.priority(b[k]))
    && forall c | c in a && (|a| < LIMIT || j.priority(c) < j.priority(a[|a| - 1])) ::
         exists d :: d in b && j.identity(d) == j.identity(c) && j.priority(d) == j.priority(c)
  }

  ghost predicate SameMembers<T(!new)>(a: seq<T>, b: seq<T>) {
    forall x :: x in a <==> x in b
  }

  /** Each of the first few is represented at its place. */
  ghost predicate Placed(j: Judge, list: seq<Candidate>, selection: seq<Candidate>, places: seq<nat>) {
    |places| <= |list| && forall i | 0 <= i < |places| :: places[i] < |selection| && Represents(j, selection[places[i]], list[i])
  }

  lemma {:induction false} Places(j: Judge, candidates: seq<Candidate>, a: seq<Candidate>, b: seq<Candidate>, n: nat)
    returns (places: seq<nat>)
    requires BestOf(j, candidates, b) && Drawn(j, candidates, a) && ByPriority(j, a) && 0 < n <= |a|
    ensures FullBefore(j, b, j.priority(a[n - 1])) || (|places| == n && Placed(j, a, b, places))
  {
    var c := a[n - 1];
    assert c in a && Answered(j, b, c);
    if FullBefore(j, b, j.priority(c)) {
      return [];
    }
    var d :| d in b && Represents(j, d, c);
    var p: nat :| p < |b| && b[p] == d;
    if n == 1 {
      return [p];
    }
    var front := Places(j, candidates, a, b, n - 1);
    places := front + [p];
  }

  /** One of some distinct places is at least their number, counting from zero. */
  lemma {:induction false} LastPlace(places: seq<nat>) returns (i: nat)
    requires 0 < |places| <= LIMIT && forall a, b | 0 <= a < b < |places| :: places[a] != places[b]
    ensures i < |places| && places[i] >= |places| - 1
  {
    i := if places[0] >= |places| - 1 then 0 else if places[1] >= |places| - 1 then 1 else 2;
  }

  lemma {:induction false} PlacesDiffer(j: Judge, a: seq<Candidate>, b: seq<Candidate>, places: seq<nat>)
    requires OneOfEach(j, a) && Placed(j, a, b, places)
    ensures forall x, y | 0 <= x < y < |places| :: places[x] != places[y]
  {
    forall x, y | 0 <= x < y < |places|
      ensures places[x] != places[y]
    {
      assert j.identity(a[x]) != j.identity(a[y]);
      assert Represents(j, b[places[x]], a[x]) && Represents(j, b[places[y]], a[y]);
    }
  }

  lemma {:induction false} NoLaterAt(j: Judge, candidates: seq<Candidate>, a: seq<Candidate>, b: seq<Candidate>, k: nat)
    requires BestOf(j, candidates, a) && BestOf(j, candidates, b) && k < |a|
    ensures k < |b| && j.priority(b[k]) <= j.priority(a[k])
  {
    var places := Places(j, candidates, a, b, k + 1);
    if !FullBefore(j, b, j.priority(a[k])) {
      PlacesDiffer(j, a, b, places);
      var i := LastPlace(places);
      assert Represents(j, b[places[i]], a[i]);
      assert j.priority(a[i]) <= j.priority(a[k]);
      assert j.priority(b[k]) <= j.priority(b[places[i]]);
    }
  }

  lemma {:induction false} SamePriorities(j: Judge, candidates: seq<Candidate>, a: seq<Candidate>, b: seq<Candidate>)
    requires BestOf(j, candidates, a) && BestOf(j, candidates, b)
    ensures |a| == |b| && forall k | 0 <= k < |a| :: j.priority(a[k]) == j.priority(b[k])
  {
    if |a| > |b| {
      NoLaterAt(j, candidates, a, b, |b|);
    } else if |b| > |a| {
      NoLaterAt(j, candidates, b, a, |a|);
    }
    forall k | 0 <= k < |a|
      ensures j.priority(a[k]) == j.priority(b[k])
    {
      NoLaterAt(j, candidates, a, b, k);
      NoLaterAt(j, candidates, b, a, k);
    }
  }

  lemma {:induction false} RepresentedIn(j: Judge, candidates: seq<Candidate>, selection: seq<Candidate>, c: Candidate)
    returns (d: Candidate)
    requires BestOf(j, candidates, selection) && c in candidates && j.eligible(c)
    requires |selection| < LIMIT || j.priority(c) < j.priority(selection[|selection| - 1])
    ensures d in selection && Represents(j, d, c) && d in candidates && j.eligible(d)
  {
    assert Answered(j, selection, c);
    d :| d in selection && Represents(j, d, c);
  }

  lemma {:induction false} SameIdentity(j: Judge, candidates: seq<Candidate>, a: seq<Candidate>, b: seq<Candidate>, c: Candidate)
    requires BestOf(j, candidates, a) && BestOf(j, candidates, b)
    requires c in a && (|a| < LIMIT || j.priority(c) < j.priority(a[|a| - 1]))
    ensures exists d :: d in b && j.identity(d) == j.identity(c) && j.priority(d) == j.priority(c)
  {
    SamePriorities(j, candidates, a, b);
    var d := RepresentedIn(j, candidates, b, c);
    var e := RepresentedIn(j, candidates, a, d);
    var x :| 0 <= x < |a| && a[x] == c;
    var y :| 0 <= y < |a| && a[y] == e;
    assert x == y;
  }

  /** Any two best selections from the same candidates agree. */
  lemma {:induction false} BestAgree(j: Judge, candidates: seq<Candidate>, a: seq<Candidate>, b: seq<Candidate>)
    requires BestOf(j, candidates, a) && BestOf(j, candidates, b)
    ensures Agree(j, a, b)
  {
    SamePriorities(j, candidates, a, b);
    forall c | c in a && (|a| < LIMIT || j.priority(c) < j.priority(a[|a| - 1]))
      ensures exists d :: d in b && j.identity(d) == j.identity(c) && j.priority(d) == j.priority(c)
    {
      SameIdentity(j, candidates, a, b, c);
    }
  }

  lemma {:induction false} LeftoverMembers(s: Situation, entries: seq<(string, Basis)>, c: Candidate)
    ensures c in s.Leftovers(entries) <==>
      exists entry :: entry in entries && c == Candidate(1, entry.0, entry.1.(fingerprint := None))
        && entry.0 != "" && forall d | d in s.derived :: d.objective != entry.0
  {
    if entries != [] {
      assert entries == [entries[0]] + entries[1..];
      LeftoverMembers(s, entries[1..], c);
    }
  }

  lemma {:induction false} LeftoversIn(s: Situation, t: Situation, c: Candidate)
    requires t == s.(ledger := t.ledger) && SameLedger(s.ledger, t.ledger) && c in s.Leftovers(s.ledger.outstanding)
    ensures c in t.Leftovers(t.ledger.outstanding)
  {
    LeftoverMembers(s, s.ledger.outstanding, c);
    LeftoverMembers(t, t.ledger.outstanding, c);
  }

  lemma {:induction false} SameJudgement(s: Situation, t: Situation, c: Candidate)
    requires t == s.(ledger := t.ledger) && SameLedger(s.ledger, t.ledger)
    ensures s.Eligible(c) == t.Eligible(c) && s.IdentityFor(c) == t.IdentityFor(c) && s.Priority(c) == t.Priority(c)
    ensures c in s.Candidates() <==> c in t.Candidates()
  {
    var mine, others := s.ledger.outstanding, t.ledger.outstanding;
    assert forall entry | entry in mine :: entry in others;
    assert forall entry | entry in others :: entry in mine;
    assert Keys(mine, c.objective) ==> exists entry :: entry in mine && entry.0 == c.objective;
    assert Keys(others, c.objective) ==> exists entry :: entry in others && entry.0 == c.objective;
    if c in s.Leftovers(mine) {
      LeftoversIn(s, t, c);
    }
    if c in t.Leftovers(others) {
      LeftoversIn(t, s, c);
    }
  }

  /** Two judges of the same verdicts find the same selections best. */
  lemma {:induction false} BestCarries(
    j: Judge, k: Judge, candidates: seq<Candidate>, others: seq<Candidate>, selection: seq<Candidate>)
    requires forall c :: j.eligible(c) == k.eligible(c) && j.identity(c) == k.identity(c) && j.priority(c) == k.priority(c)
    requires SameMembers(candidates, others) && BestOf(k, others, selection)
    ensures BestOf(j, candidates, selection)
  {
    forall c | c in candidates && j.eligible(c)
      ensures Answered(j, selection, c)
    {
      assert c in others && k.eligible(c) && Answered(k, selection, c);
      if d :| d in selection && Represents(k, d, c) {
        assert Represents(j, d, c);
      }
    }
  }

  /** In whatever order the unresolved objectives of each cycle are visited, the choice is best, and agrees with that of any
      other order up to candidates of equal priority. */
  lemma {:induction false} ChosenInAnyOrder(s: Situation, cycles: seq<Cycle>)
    requires s.ledger == Replay(EventsOfAll(OldestFirst(s.cycles))) && AllRearranged(OldestFirst(s.cycles), cycles)
    ensures var t := s.(ledger := Replay(EventsOfAll(cycles)));
      BestOf(s.Judgement(), s.Candidates(), Chosen(t)) && Agree(s.Judgement(), Chosen(s), Chosen(t))
  {
    var t := s.(ledger := Replay(EventsOfAll(cycles)));
    LedgerInAnyOrder(OldestFirst(s.cycles), cycles);
    forall c
      ensures s.Eligible(c) == t.Eligible(c) && s.IdentityFor(c) == t.IdentityFor(c) && s.Priority(c) == t.Priority(c)
      ensures c in s.Candidates() <==> c in t.Candidates()
    {
      SameJudgement(s, t, c);
    }
    ChosenIsBest(s);
    ChosenIsBest(t);
    BestCarries(s.Judgement(), t.Judgement(), s.Candidates(), t.Candidates(), Chosen(t));
    BestAgree(s.Judgement(), s.Candidates(), Chosen(s), Chosen(t));
  }

  /** The identities of a plan's objectives under their bases. */
  ghost predicate IdentitiesDiffer(plan: Plan) {
    |plan.objectives| == |plan.basis| && forall a, b | 0 <= a < b < |plan.objectives| ::
      IdentityOf(plan.objectives[a], plan.basis[a]) != IdentityOf(plan.objectives[b], plan.basis[b])
  }

  ghost predicate Fingerprinted(plan: Plan) {
    forall basis | basis in plan.basis :: basis.fingerprint.Some?
  }

  ghost predicate Proper(plan: Plan) {
    |plan.objectives| <= LIMIT && IdentitiesDiffer(plan) && Fingerprinted(plan)
  }

  /** The two lists of a plan match and name distinct identities; they are empty only when nothing is eligible and the
      review of the stopping criteria itself is completed. */
  ghost predicate WellShaped(plan: Plan, j: Judge, candidates: seq<Candidate>, stoppingReviewed: bool) {
    Proper(plan) && (plan.objectives == [] <==> (forall c | c in candidates :: !j.eligible(c)) && stoppingReviewed)
  }

  /** Identities are those of the objective under the attached basis, which always carries its evidence. */
  ghost predicate Attaches(j: Judge) {
    forall c {:trigger j.identity(c)} :: j.identity(c) == IdentityOf(c.objective, j.basis(c)) && j.basis(c).fingerprint.Some?
  }

  lemma {:induction false} SelectionDiffers(j: Judge, candidates: seq<Candidate>, selection: seq<Candidate>)
    requires BestOf(j, candidates, selection) && Attaches(j)
    ensures Proper(Plan(ObjectivesOf(selection), BasesOf(j, selection)))
  {
    forall a, b | 0 <= a < b < |selection|
      ensures IdentityOf(selection[a].objective, j.basis(selection[a])) != IdentityOf(selection[b].objective, j.basis(selection[b]))
    {
      assert j.identity(selection[a]) != j.identity(selection[b]);
    }
    forall a | 0 <= a < |selection|
      ensures j.basis(selection[a]).fingerprint.Some?
    {
      assert j.identity(selection[a]) == IdentityOf(selection[a].objective, j.basis(selection[a]));
    }
  }

  lemma {:induction false} NothingEligible(j: Judge, candidates: seq<Candidate>, selection: seq<Candidate>)
    requires BestOf(j, candidates, selection)
    ensures selection == [] <==> forall c | c in candidates :: !j.eligible(c)
  {
    if c :| c in candidates && j.eligible(c) {
      assert Answered(j, selection, c);
    }
    if selection != [] {
      assert selection[0] in selection;
    }
  }

  lemma {:induction false} JudgedShape(
    j: Judge, candidates: seq<Candidate>, selection: seq<Candidate>, stoppingReviewed: bool, fallback: Basis)
    requires fallback.fingerprint.Some? && Proper(Plan(ObjectivesOf(selection), BasesOf(j, selection)))
    requires selection == [] <==> forall c | c in candidates :: !j.eligible(c)
    ensures WellShaped(PlanOf(j, selection, stoppingReviewed, fallback), j, candidates, stoppingReviewed)
  {
  }

  lemma {:induction false} JudgedPlan(j: Judge, candidates: seq<Candidate>, stoppingReviewed: bool, fallback: Basis)
    requires fallback.fingerprint.Some? && Attaches(j)
    ensures WellShaped(PlanOf(j, SelectionOf(j, candidates), stoppingReviewed, fallback), j, candidates, stoppingReviewed)
  {
    var selection := SelectionOf(j, candidates);
    SelectionIsBest(j, candidates);
    NothingEligible(j, candidates, selection);
    SelectionDiffers(j, candidates, selection);
    JudgedShape(j, candidates, selection, stoppingReviewed, fallback);
  }

  lemma {:induction false} JudgementAttaches(s: Situation)
    ensures Attaches(s.Judgement())
  {
  }

  /** Every plan has that shape. */
  lemma {:induction false} PlanShape(s: Situation)
    ensures WellShaped(PlanFor(s, Chosen(s)), s.Judgement(), s.Candidates(), StoppingReviewed(s))
  {
    JudgementAttaches(s);
    JudgedPlan(s.Judgement(), s.Candidates(), StoppingReviewed(s), WithEvidence(Plain(ReviewStoppingCriteria), s.evidence));
  }
}
