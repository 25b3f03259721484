/** Small shared vocabulary: identifiers, optional values, results, and sorted identity lists. */
module Basics {

  /** A UUID and its integer value, by which both the services and the database order UUIDs. */
  datatype Id = Id(number: nat)

  /** A point in time. Clocks are always parameters. */
  type Time = int

  datatype Option<+T> = None | Some(value: T)

  datatype Error = NotFound | Conflict | Denied | Invalid

  datatype Result<+T> = Ok(value: T) | Err(error: Error)

  ghost predicate Ascending(s: seq<Id>) {
    forall i, j :: 0 <= i < j < |s| ==> s[i].number < s[j].number
  }

  function Elements<T(==)>(s: seq<T>): set<T> {
    set x | x in s
  }

  predicate Distinct<T(==)>(s: seq<T>) {
    forall i, j | 0 <= i < j < |s| :: s[i] != s[j]
  }

  predicate IsLeast(m: Id, s: set<Id>) {
    m in s && forall x | x in s :: m.number <= x.number
  }

  lemma {:induction false} HasLeast(s: set<Id>) returns (m: Id)
    requires s != {}
    ensures IsLeast(m, s)
  {
    var y :| y in s;
    m := y;
    if s - {y} != {} {
      var n := HasLeast(s - {y});
      m := if y.number <= n.number then y else n;
    }
    forall x | x in s ensures m.number <= x.number {
      assert x == y || x in s - {y};
    }
  }

  lemma {:induction false} LeastInFront(m: Id, s: set<Id>, rest: seq<Id>)
    requires IsLeast(m, s) && Elements(rest) == s - {m} && Ascending(rest)
    ensures Elements([m] + rest) == s && Ascending([m] + rest)
  {
    assert forall x | x in rest :: x in Elements(rest);
    assert Elements([m] + rest) == {m} + Elements(rest);
    forall i, j | 0 <= i < j < |rest| + 1
      ensures ([m] + rest)[i].number < ([m] + rest)[j].number
    {
      assert rest[j - 1] in rest;
    }
  }

  /** The members of a set in increasing order, as `ORDER BY id` returns them. */
  function Sorted(s: set<Id>): (r: seq<Id>)
    ensures Elements(r) == s && |r| == |s| && Ascending(r)
  {
    if s == {} then []
    else
      assert exists m :: IsLeast(m, s) by { var m := HasLeast(s); }
      var m :| IsLeast(m, s);
      var rest := Sorted(s - {m});
      LeastInFront(m, s, rest);
      [m] + rest
  }

  /** `ORDER BY id LIMIT n`. */
  function FirstSorted(s: set<Id>, n: nat): (r: seq<Id>)
    ensures Elements(r) <= s && Ascending(r)
    ensures |r| == if |s| <= n then |s| else n
    ensures |s| <= n ==> Elements(r) == s
    ensures forall x, y | x in s && y in r && x.number < y.number :: x in r
  {
    var all := Sorted(s);
    assert forall x | x in s :: x in Elements(all);
    if |all| <= n then all
    else
      assert Elements(all[..n]) <= Elements(all);
      all[..n]
  }

  lemma {:induction false} AscendingCardinality(s: seq<Id>)
    requires Ascending(s)
    ensures |Elements(s)| == |s|
  {
    if s == [] {
      assert Elements(s) == {};
    } else {
      var last := |s| - 1;
      AscendingCardinality(s[..last]);
      assert Elements(s) == Elements(s[..last]) + {s[last]};
    }
  }

  lemma {:induction false} SubsetCardinality<T>(a: set<T>, b: set<T>)
    requires a <= b
    ensures |a| <= |b|
    ensures |a| == |b| ==> a == b
  {
    assert b == a + (b - a);
  }

  lemma {:induction false} ProperSubset<T>(a: set<T>, x: T, b: set<T>)
    requires a <= b && x in b && x !in a
    ensures |a| < |b|
  {
    SubsetCardinality(a + {x}, b);
  }

  lemma {:induction false} AscendingHeadIsLeast(s: seq<Id>, x: Id)
    requires Ascending(s) && s != [] && x in s
    ensures x == s[0] || s[0].number < x.number
  {
  }

  /** An ascending listing of a set is unique. */
  lemma {:induction false} AscendingUnique(a: seq<Id>, b: seq<Id>)
    requires Ascending(a) && Ascending(b) && Elements(a) == Elements(b)
    ensures a == b
  {
    AscendingCardinality(a);
    AscendingCardinality(b);
    if a != [] {
      assert a[0] in Elements(a) && a[0] in b;
      assert b[0] in Elements(b) && b[0] in a;
      AscendingHeadIsLeast(a, b[0]);
      AscendingHeadIsLeast(b, a[0]);
      TailElements(a);
      TailElements(b);
      AscendingUnique(a[1..], b[1..]);
    }
  }

  lemma {:induction false} TailElements(s: seq<Id>)
    requires Ascending(s) && s != []
    ensures Elements(s[1..]) == Elements(s) - {s[0]} && Ascending(s[1..])
  {
    assert s == [s[0]] + s[1..];
  }

  // ----- text

  /** The characters `str.strip` removes. */
  predicate IsSpace(c: char) {
    var n := c as int;
    || 0x09 <= n <= 0x0D || 0x1C <= n <= 0x20 || n == 0x85 || n == 0xA0 || n == 0x1680 || 0x2000 <= n <= 0x200A
    || n == 0x2028 || n == 0x2029 || n == 0x202F || n == 0x205F || n == 0x3000
  }

  /** Nothing is left of the text when whitespace is stripped. */
  predicate Blank(text: string) {
    forall c | c in text :: IsSpace(c)
  }

  /** The text without whitespace at either end. */
  function Strip(text: string): string {
    if text == "" then ""
    else if IsSpace(text[0]) then Strip(text[1..])
    else if IsSpace(text[|text| - 1]) then Strip(text[..|text| - 1])
    else text
  }

  /** Stripping takes whitespace off both ends and nothing else. */
  lemma {:induction false} StripTakesEnds(text: string) returns (front: string, back: string)
    ensures text == front + Strip(text) + back && Blank(front) && Blank(back)
    ensures Strip(text) != "" ==> !IsSpace(Strip(text)[0]) && !IsSpace(Strip(text)[|Strip(text)| - 1])
  {
    if text == "" {
      front, back := "", "";
    } else if IsSpace(text[0]) {
      front, back := StripTakesEnds(text[1..]);
      assert text == [text[0]] + text[1..];
      front := [text[0]] + front;
    } else if IsSpace(text[|text| - 1]) {
      front, back := StripTakesEnds(text[..|text| - 1]);
      assert text == text[..|text| - 1] + [text[|text| - 1]];
      back := back + [text[|text| - 1]];
    } else {
      front, back := "", "";
    }
  }

  lemma {:induction false} DistinctCount<T>(list: seq<T>)
    requires Distinct(list)
    ensures |Elements(list)| == |list|
  {
    if list == [] {
      assert Elements(list) == {};
    } else {
      var last := |list| - 1;
      DistinctCount(list[..last]);
      assert Elements(list) == Elements(list[..last]) + {list[last]};
    }
  }
}
