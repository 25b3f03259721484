/** Stable sorting by an integer key. */
module StableSort {

  function InsertBy<T>(x: T, sorted: seq<T>, key: T -> int): seq<T> {
    if sorted == [] || key(x) < key(sorted[0]) then [x] + sorted
    else [sorted[0]] + InsertBy(x, sorted[1..], key)
  }

  function SortBy<T>(s: seq<T>, key: T -> int): seq<T> {
    if s == [] then [] else InsertBy(s[|s| - 1], SortBy(s[..|s| - 1], key), key)
  }

  ghost predicate OrderedBy<T>(s: seq<T>, key: T -> int) {
    forall i, j | 0 <= i < j < |s| :: key(s[i]) <= key(s[j])
  }

  ghost predicate StrictlyBy<T>(s: seq<T>, key: T -> int) {
    forall i, j | 0 <= i < j < |s| :: key(s[i]) < key(s[j])
  }

  ghost predicate KeysDiffer<T>(s: seq<T>, key: T -> int) {
    forall i, j | 0 <= i < j < |s| :: key(s[i]) != key(s[j])
  }

  /** The elements with one key, in their order. */
  ghost function WithKey<T>(s: seq<T>, key: T -> int, k: int): seq<T> {
    if s == [] then [] else (if key(s[0]) == k then [s[0]] else []) + WithKey(s[1..], key, k)
  }

  lemma {:induction false} InsertContents<T>(x: T, sorted: seq<T>, key: T -> int)
    ensures multiset(InsertBy(x, sorted, key)) == multiset(sorted) + multiset{x}
    ensures |InsertBy(x, sorted, key)| == |sorted| + 1
  {
    if sorted != [] && key(x) >= key(sorted[0]) {
      InsertContents(x, sorted[1..], key);
      assert sorted == [sorted[0]] + sorted[1..];
    }
  }

  ghost predicate AtLeast<T>(s: seq<T>, key: T -> int, k: int) {
    forall i | 0 <= i < |s| :: k <= key(s[i])
  }

  lemma {:induction false} InsertOrdered<T>(x: T, sorted: seq<T>, key: T -> int)
    requires OrderedBy(sorted, key)
    ensures OrderedBy(InsertBy(x, sorted, key), key)
    ensures forall k :: AtLeast(sorted, key, k) && k <= key(x) ==> AtLeast(InsertBy(x, sorted, key), key, k)
  {
    if sorted != [] && key(x) >= key(sorted[0]) {
      InsertOrdered(x, sorted[1..], key);
      assert AtLeast(sorted[1..], key, key(sorted[0]));
      HeadOrdered(sorted[0], InsertBy(x, sorted[1..], key), key);
    }
  }

  lemma {:induction false} HeadOrdered<T>(x: T, tail: seq<T>, key: T -> int)
    requires OrderedBy(tail, key) && AtLeast(tail, key, key(x))
    ensures OrderedBy([x] + tail, key)
  {
  }

  lemma {:induction false} NoneBelow<T>(s: seq<T>, key: T -> int, k: int)
    requires AtLeast(s, key, k + 1)
    ensures WithKey(s, key, k) == []
  {
    if s != [] {
      assert AtLeast(s[1..], key, k + 1);
      NoneBelow(s[1..], key, k);
    }
  }

  lemma {:induction false} InsertStable<T>(x: T, sorted: seq<T>, key: T -> int, k: int)
    requires OrderedBy(sorted, key)
    ensures WithKey(InsertBy(x, sorted, key), key, k) == WithKey(sorted, key, k) + if key(x) == k then [x] else []
  {
    if sorted == [] || key(x) < key(sorted[0]) {
      assert ([x] + sorted)[1..] == sorted;
      if key(x) == k {
        NoneBelow(sorted, key, k);
      }
    } else {
      InsertStable(x, sorted[1..], key, k);
      assert ([sorted[0]] + InsertBy(x, sorted[1..], key))[1..] == InsertBy(x, sorted[1..], key);
    }
  }

  lemma {:induction false} WithKeyAppend<T>(s: seq<T>, x: T, key: T -> int, k: int)
    ensures WithKey(s + [x], key, k) == WithKey(s, key, k) + if key(x) == k then [x] else []
  {
    if s == [] {
      assert (s + [x])[1..] == [];
    } else {
      assert (s + [x])[1..] == s[1..] + [x];
      WithKeyAppend(s[1..], x, key, k);
    }
  }

  /** The result is in order, has the same elements, and elements with equal keys keep their order. */
  lemma {:induction false} SortIsStable<T>(s: seq<T>, key: T -> int)
    ensures OrderedBy(SortBy(s, key), key) && multiset(SortBy(s, key)) == multiset(s) && |SortBy(s, key)| == |s|
    ensures forall k :: WithKey(SortBy(s, key), key, k) == WithKey(s, key, k)
  {
    if s != [] {
      var n := |s| - 1;
      SortIsStable(s[..n], key);
      assert s == s[..n] + [s[n]];
      InsertContents(s[n], SortBy(s[..n], key), key);
      InsertOrdered(s[n], SortBy(s[..n], key), key);
      forall k
        ensures WithKey(SortBy(s, key), key, k) == WithKey(s, key, k)
      {
        InsertStable(s[n], SortBy(s[..n], key), key, k);
        WithKeyAppend(s[..n], s[n], key, k);
      }
    }
  }

  lemma {:induction false} SameElements<T>(a: seq<T>, b: seq<T>)
    requires multiset(a) == multiset(b)
    ensures forall x :: x in a <==> x in b
  {
    assert forall x :: x in a <==> x in multiset(a);
  }

  /** Lists of distinctly keyed elements sort to one result, however they were ordered. */
  lemma {:induction false} SortIsCanonical<T>(a: seq<T>, b: seq<T>, key: T -> int)
    requires KeysDiffer(a, key) && KeysDiffer(b, key) && forall x :: x in a <==> x in b
    ensures SortBy(a, key) == SortBy(b, key)
  {
    SortIsStable(a, key);
    SortIsStable(b, key);
    SameElements(SortBy(a, key), a);
    SameElements(SortBy(b, key), b);
    DistinctStrict(a, key);
    DistinctStrict(b, key);
    StrictUnique(SortBy(a, key), SortBy(b, key), key);
  }

  lemma {:induction false} SingleWithKey<T>(s: seq<T>, key: T -> int, k: int)
    requires KeysDiffer(s, key)
    ensures |WithKey(s, key, k)| <= 1
  {
    if s != [] {
      SingleWithKey(s[1..], key, k);
      if key(s[0]) == k {
        NoneWithKey(s[1..], key, k);
      }
    }
  }

  lemma {:induction false} NoneWithKey<T>(s: seq<T>, key: T -> int, k: int)
    requires forall i | 0 <= i < |s| :: key(s[i]) != k
    ensures WithKey(s, key, k) == []
  {
    if s != [] {
      NoneWithKey(s[1..], key, k);
    }
  }

  lemma {:induction false} TwoWithKey<T>(s: seq<T>, key: T -> int, i: nat, j: nat)
    requires i < j < |s| && key(s[i]) == key(s[j])
    ensures |WithKey(s, key, key(s[i]))| >= 2
  {
    if i > 0 {
      TwoWithKey(s[1..], key, i - 1, j - 1);
    } else {
      OneWithKey(s[1..], key, j - 1);
    }
  }

  lemma {:induction false} OneWithKey<T>(s: seq<T>, key: T -> int, j: nat)
    requires j < |s|
    ensures |WithKey(s, key, key(s[j]))| >= 1
  {
    if j > 0 {
      OneWithKey(s[1..], key, j - 1);
    }
  }

  lemma {:induction false} DistinctStrict<T>(s: seq<T>, key: T -> int)
    requires KeysDiffer(s, key)
    ensures StrictlyBy(SortBy(s, key), key)
  {
    SortIsStable(s, key);
    var sorted := SortBy(s, key);
    forall i, j | 0 <= i < j < |sorted|
      ensures key(sorted[i]) < key(sorted[j])
    {
      if key(sorted[i]) == key(sorted[j]) {
        TwoWithKey(sorted, key, i, j);
        SingleWithKey(s, key, key(sorted[i]));
        assert false;
      }
    }
  }

  lemma {:induction false} HasMember<T>(s: seq<T>)
    ensures s != [] ==> exists x :: x in s
  {
    if s != [] {
      assert s[0] in s;
    }
  }

  lemma {:induction false} StrictUnique<T>(a: seq<T>, b: seq<T>, key: T -> int)
    requires StrictlyBy(a, key) && StrictlyBy(b, key) && forall x :: x in a <==> x in b
    ensures a == b
  {
    if a == [] {
      HasMember(b);
    } else {
      assert a[0] in b && b != [] && b[0] in a;
      assert a[0] == b[0];
      forall x
        ensures x in a[1..] <==> x in b[1..]
      {
        assert x in a[1..] <==> x in a && key(x) != key(a[0]) by { TailMembers(a, key, x); }
        assert x in b[1..] <==> x in b && key(x) != key(b[0]) by { TailMembers(b, key, x); }
      }
      StrictUnique(a[1..], b[1..], key);
    }
  }

  lemma {:induction false} TailMembers<T>(s: seq<T>, key: T -> int, x: T)
    requires StrictlyBy(s, key) && s != []
    ensures x in s[1..] <==> x in s && key(x) != key(s[0])
  {
    assert s == [s[0]] + s[1..];
  }
}
