/** The order in which archived tables are restored: repeatedly the first table none of whose parents is still waiting. */
module RestoreSchedule {
  import opened Basics
  import opened Graphs

  type Edges = set<(string, string)>

  /** No parent of the table is waiting. */
  ghost predicate Ready(name: string, waiting: seq<string>, edges: Edges) {
    forall e | e in edges && e.0 == name :: e.1 !in waiting
  }

  ghost predicate FirstReady(waiting: seq<string>, edges: Edges, i: nat) {
    && i < |waiting| && Ready(waiting[i], waiting, edges)
    && forall j | 0 <= j < i :: !Ready(waiting[j], waiting, edges)
  }

  function Without<T>(s: seq<T>, i: nat): seq<T>
    requires i < |s|
  {
    s[..i] + s[i + 1..]
  }

  ghost function Prepend(front: seq<string>, rest: Option<seq<string>>): Option<seq<string>> {
    match rest
    case None => None
    case Some(order) => Some(front + order)
  }

  ghost function Schedule(waiting: seq<string>, edges: Edges): Option<seq<string>>
    decreases |waiting|
  {
    if waiting == [] then Some([])
    else if i: nat :| FirstReady(waiting, edges, i) then Prepend([waiting[i]], Schedule(Without(waiting, i), edges))
    else None
  }

  lemma {:induction false} FirstReadyUnique(waiting: seq<string>, edges: Edges, i: nat, j: nat)
    requires FirstReady(waiting, edges, i) && FirstReady(waiting, edges, j)
    ensures i == j
  {
  }

  lemma {:induction false} ScheduleStep(waiting: seq<string>, edges: Edges, i: nat)
    requires FirstReady(waiting, edges, i)
    ensures Schedule(waiting, edges) == Prepend([waiting[i]], Schedule(Without(waiting, i), edges))
  {
    var j: nat :| FirstReady(waiting, edges, j)
      && Schedule(waiting, edges) == Prepend([waiting[j]], Schedule(Without(waiting, j), edges));
    FirstReadyUnique(waiting, edges, i, j);
  }

  /** A set of distinct waiting tables with a ready one has a first ready one. */
  lemma {:induction false} HasFirstReady(waiting: seq<string>, edges: Edges, k: nat) returns (i: nat)
    requires k < |waiting| && Ready(waiting[k], waiting, edges)
    ensures FirstReady(waiting, edges, i) && i <= k
  {
    if j: nat :| j < k && Ready(waiting[j], waiting, edges) {
      i := HasFirstReady(waiting, edges, j);
    } else {
      i := k;
    }
  }

  // ----- what the schedule is

  /** The edges among the tables that still wait. */
  ghost function Within(edges: Edges, names: seq<string>): Edges {
    set e | e in edges && e.0 in names && e.1 in names
  }

  /** A complete listing of the tables with every parent before its children. */
  ghost predicate ParentsFirst(names: seq<string>, edges: Edges, order: seq<string>) {
    multiset(order) == multiset(names) && SuccessorsFirst(Within(edges, names), order)
  }

  lemma {:induction false} WithoutFacts(s: seq<string>, i: nat)
    requires i < |s|
    ensures multiset(s) == multiset{s[i]} + multiset(Without(s, i))
    ensures Distinct(s) ==> Distinct(Without(s, i)) && s[i] !in Without(s, i)
    ensures forall x :: x in s <==> x == s[i] || x in Without(s, i)
  {
    assert s == s[..i] + [s[i]] + s[i + 1..];
  }

  lemma {:induction false} SameMembers(a: seq<string>, b: seq<string>)
    requires multiset(a) == multiset(b)
    ensures |a| == |b| && forall x :: x in a <==> x in b
  {
    assert |multiset(a)| == |a| && |multiset(b)| == |b|;
    assert forall x :: x in a <==> x in multiset(a);
  }

  lemma {:induction false} DistinctPermutation(a: seq<string>, b: seq<string>)
    requires multiset(a) == multiset(b) && Distinct(a)
    ensures Distinct(b)
  {
    forall i, j | 0 <= i < j < |b|
      ensures b[i] != b[j]
    {
      if b[i] == b[j] {
        assert b == b[..i] + [b[i]] + b[i + 1..j] + [b[j]] + b[j + 1..];
        assert multiset(b)[b[i]] >= 2;
        OnceInDistinct(a, b[i]);
        assert false;
      }
    }
  }

  lemma {:induction false} OnceInDistinct(a: seq<string>, x: string)
    requires Distinct(a)
    ensures multiset(a)[x] <= 1
  {
    if i :| 0 <= i < |a| && a[i] == x {
      assert a == a[..i] + [x] + a[i + 1..];
      assert x !in a[..i] && x !in a[i + 1..];
    }
  }

  lemma {:induction false} ReadyFirst(waiting: seq<string>, edges: Edges, i: nat, rest: seq<string>)
    requires Distinct(waiting) && FirstReady(waiting, edges, i) && ParentsFirst(Without(waiting, i), edges, rest)
    ensures ParentsFirst(waiting, edges, [waiting[i]] + rest)
  {
    var x, left, order := waiting[i], Without(waiting, i), [waiting[i]] + rest;
    WithoutFacts(waiting, i);
    SameMembers(left, rest);
    forall e, k | e in Within(edges, waiting) && 0 <= k < |order| && order[k] == e.0
      ensures e.1 in order[..k]
    {
      assert k > 0;
      assert order[..k] == [x] + rest[..k - 1] && rest[k - 1] == e.0;
      if e.1 != x {
        assert e.0 != x && e in Within(edges, left);
      }
    }
  }

  /** A produced schedule lists every table once, parents first. */
  lemma {:induction false} ScheduleOrders(waiting: seq<string>, edges: Edges)
    requires Distinct(waiting) && Schedule(waiting, edges).Some?
    ensures ParentsFirst(waiting, edges, Schedule(waiting, edges).value)
    decreases |waiting|
  {
    if waiting != [] {
      var i: nat :| FirstReady(waiting, edges, i);
      ScheduleStep(waiting, edges, i);
      WithoutFacts(waiting, i);
      ScheduleOrders(Without(waiting, i), edges);
      ReadyFirst(waiting, edges, i, Schedule(Without(waiting, i), edges).value);
    }
  }

  lemma {:induction false} NotReady(waiting: seq<string>, edges: Edges, k: nat)
    requires k < |waiting|
    ensures Ready(waiting[k], waiting, edges) ==> exists i: nat :: FirstReady(waiting, edges, i)
  {
    if Ready(waiting[k], waiting, edges) {
      var i := HasFirstReady(waiting, edges, k);
    }
  }

  lemma {:induction false} NoneReadyIsCyclic(waiting: seq<string>, edges: Edges)
    requires waiting != [] && forall i: nat :: !FirstReady(waiting, edges, i)
    ensures !Acyclic(Within(edges, waiting))
  {
    forall x | x in Elements(waiting)
      ensures HasSuccessorIn(Within(edges, waiting), Elements(waiting), x)
    {
      var k :| 0 <= k < |waiting| && waiting[k] == x;
      NotReady(waiting, edges, k);
      var e :| e in edges && e.0 == x && e.1 in waiting;
      assert e in Within(edges, waiting) && e.1 in Elements(waiting);
    }
    assert waiting[0] in Elements(waiting);
    StuckSetHasCycle(Within(edges, waiting), Elements(waiting));
  }

  lemma {:induction false} SmallerAcyclic(small: Edges, large: Edges)
    requires small <= large
    ensures Acyclic(large) ==> Acyclic(small)
  {
    if Acyclic(large) {
      AcyclicSubset(small, large);
    }
  }

  lemma {:induction false} FailureIsCyclic(waiting: seq<string>, edges: Edges)
    requires Schedule(waiting, edges) == None
    ensures !Acyclic(Within(edges, waiting))
    decreases |waiting|
  {
    if i: nat :| FirstReady(waiting, edges, i) {
      ScheduleStep(waiting, edges, i);
      FailureIsCyclic(Without(waiting, i), edges);
      WithoutFacts(waiting, i);
      SmallerAcyclic(Within(edges, Without(waiting, i)), Within(edges, waiting));
    } else {
      NoneReadyIsCyclic(waiting, edges);
    }
  }

  /** Scheduling fails exactly when the dependencies among the tables contain a cycle. */
  lemma {:induction false} FailsExactlyOnCycles(names: seq<string>, edges: Edges)
    requires Distinct(names)
    ensures Schedule(names, edges) == None <==> !Acyclic(Within(edges, names))
  {
    if Schedule(names, edges) == None {
      FailureIsCyclic(names, edges);
    } else {
      ScheduleOrders(names, edges);
      var order := Schedule(names, edges).value;
      ListingProvesAcyclic(names, edges, order);
    }
  }

  lemma {:induction false} ListingProvesAcyclic(names: seq<string>, edges: Edges, order: seq<string>)
    requires Distinct(names) && ParentsFirst(names, edges, order)
    ensures Acyclic(Within(edges, names))
  {
    DistinctPermutation(names, order);
    SameMembers(names, order);
    SuccessorsFirstAcyclic(Within(edges, names), order);
  }

  // ----- of all such listings, the one closest to the archive's own order

  ghost predicate Sooner(names: seq<string>, a: string, b: string) {
    exists i, j :: 0 <= i < j < |names| && names[i] == a && names[j] == b
  }

  /** Where the listings first differ, this one has the table that comes earlier in the archive. */
  ghost predicate NoLater(names: seq<string>, order: seq<string>, other: seq<string>) {
    order == other ||
    exists k :: 0 <= k < |order| && k < |other| && order[..k] == other[..k] && Sooner(names, order[k], other[k])
  }

  lemma {:induction false} NoLaterPrepend(names: seq<string>, i: nat, order: seq<string>, other: seq<string>)
    requires i < |names| && NoLater(Without(names, i), order, other)
    ensures NoLater(names, [names[i]] + order, [names[i]] + other)
  {
    var left := Without(names, i);
    if order != other {
      var k :| 0 <= k < |order| && k < |other| && order[..k] == other[..k] && Sooner(left, order[k], other[k]);
      var a, b :| 0 <= a < b < |left| && left[a] == order[k] && left[b] == other[k];
      assert names[if a < i then a else a + 1] == order[k] && names[if b < i then b else b + 1] == other[k];
      var first, second := [names[i]] + order, [names[i]] + other;
      assert first[..k + 1] == [names[i]] + order[..k] && second[..k + 1] == [names[i]] + other[..k];
      assert Sooner(names, first[k + 1], second[k + 1]);
    }
  }

  lemma {:induction false} HeadIsReady(names: seq<string>, edges: Edges, other: seq<string>)
    requires ParentsFirst(names, edges, other) && other != []
    ensures Ready(other[0], names, edges)
  {
    SameMembers(names, other);
    forall e | e in edges && e.0 == other[0]
      ensures e.1 !in names
    {
      assert other[0] in names;
      assert e !in Within(edges, names);
    }
  }

  lemma {:induction false} TailMultiset(names: seq<string>, left: seq<string>, x: string, other: seq<string>)
    requires multiset(names) == multiset{x} + multiset(left) && multiset(other) == multiset(names) && other != [] && other[0] == x
    ensures multiset(other[1..]) == multiset(left)
  {
    assert other == [x] + other[1..];
    assert multiset(other[1..]) == multiset(other) - multiset{x};
  }

  lemma {:induction false} TailListing(names: seq<string>, edges: Edges, i: nat, other: seq<string>)
    requires Distinct(names) && i < |names| && other != [] && other[0] == names[i] && ParentsFirst(names, edges, other)
    ensures ParentsFirst(Without(names, i), edges, other[1..])
  {
    WithoutFacts(names, i);
    var left, tail := Without(names, i), other[1..];
    assert other == [other[0]] + tail;
    TailMultiset(names, left, names[i], other);
    forall e, k | e in Within(edges, left) && 0 <= k < |tail| && tail[k] == e.0
      ensures e.1 in tail[..k]
    {
      assert e in Within(edges, names) && other[k + 1] == e.0;
      assert e.1 in other[..k + 1] && e.1 != other[0];
      assert other[..k + 1] == [other[0]] + tail[..k];
    }
  }

  lemma {:induction false} SameHeadEarliest(names: seq<string>, i: nat, rest: seq<string>, other: seq<string>)
    requires i < |names| && other != [] && other[0] == names[i] && NoLater(Without(names, i), rest, other[1..])
    ensures NoLater(names, [names[i]] + rest, other)
  {
    NoLaterPrepend(names, i, rest, other[1..]);
    assert other == [names[i]] + other[1..];
  }

  lemma {:induction false} EarlierHead(names: seq<string>, i: nat, k: nat, rest: seq<string>, other: seq<string>)
    requires i < k < |names| && other != [] && other[0] == names[k]
    ensures NoLater(names, [names[i]] + rest, other)
  {
    var order := [names[i]] + rest;
    assert order[..0] == other[..0] && Sooner(names, order[0], other[0]);
  }

  lemma {:induction false} ScheduleIsEarliest(names: seq<string>, edges: Edges, other: seq<string>)
    requires Distinct(names) && Schedule(names, edges).Some? && ParentsFirst(names, edges, other)
    ensures NoLater(names, Schedule(names, edges).value, other)
    decreases |names|
  {
    SameMembers(names, other);
    if names != [] {
      HeadIsReady(names, edges, other);
      assert other[0] in names;
      var k :| 0 <= k < |names| && names[k] == other[0];
      var i := HasFirstReady(names, edges, k);
      ScheduleStep(names, edges, i);
      var rest := Schedule(Without(names, i), edges).value;
      if i < k {
        EarlierHead(names, i, k, rest, other);
      } else {
        TailListing(names, edges, i, other);
        WithoutFacts(names, i);
        ScheduleIsEarliest(Without(names, i), edges, other[1..]);
        SameHeadEarliest(names, i, rest, other);
      }
    }
  }

  lemma {:induction false} NotSooner(names: seq<string>, order: seq<string>, k: nat)
    requires Distinct(names) && Distinct(order) && k < |order| && k < |names| && order[..k] == names[..k]
    ensures !Sooner(names, order[k], names[k])
  {
    forall i, j | 0 <= i < j < |names| && names[j] == names[k]
      ensures names[i] != order[k]
    {
      assert j == k;
      assert order[i] == order[..k][i] && names[..k][i] == names[i];
    }
  }

  /** An archive that already lists parents first keeps its order. */
  lemma {:induction false} OrderedStays(names: seq<string>, edges: Edges)
    requires Distinct(names) && SuccessorsFirst(Within(edges, names), names)
    ensures Schedule(names, edges) == Some(names)
  {
    ListingProvesAcyclic(names, edges, names);
    FailsExactlyOnCycles(names, edges);
    var order := Schedule(names, edges).value;
    ScheduleOrders(names, edges);
    ScheduleIsEarliest(names, edges, names);
    DistinctPermutation(names, order);
    forall k | 0 <= k < |order| && k < |names| && order[..k] == names[..k]
      ensures !Sooner(names, order[k], names[k])
    {
      NotSooner(names, order, k);
    }
  }
}
