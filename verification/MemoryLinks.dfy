/** Writing link rows and reading them back: the round trip behind every journal comparison. */
module MemoryLinks {
  import opened Basics
  import opened StableSort
  import opened MemoryModel

  ghost predicate Ordered(links: seq<Link>) {
    forall i, j | 0 <= i < j < |links| :: links[i].other.number <= links[j].other.number
  }

  /** Strictly increasing in the other end: what every stored document satisfies. */
  ghost predicate Canonical(links: seq<Link>) {
    forall i, j | 0 <= i < j < |links| :: links[i].other.number < links[j].other.number
  }

  /** Sorting orders the links and neither loses nor invents one. */
  lemma {:induction false} SortOrders(links: seq<Link>)
    ensures Ordered(SortLinks(links)) && multiset(SortLinks(links)) == multiset(links)
  {
    SortIsStable(links, (link: Link) => link.other.number);
  }

  lemma {:induction false} CountedDistinct(ids: seq<Id>)
    requires |Elements(ids)| == |ids|
    ensures forall i, j | 0 <= i < j < |ids| :: ids[i] != ids[j]
  {
    if ids != [] {
      var n := |ids| - 1;
      ElementsBound(ids[..n]);
      assert ids == ids[..n] + [ids[n]];
      assert Elements(ids) == Elements(ids[..n]) + {ids[n]};
      CountedDistinct(ids[..n]);
      assert ids[n] !in Elements(ids[..n]);
    }
  }

  lemma {:induction false} ElementsBound(ids: seq<Id>)
    ensures |Elements(ids)| <= |ids|
  {
    if ids != [] {
      var n := |ids| - 1;
      ElementsBound(ids[..n]);
      assert Elements(ids) == Elements(ids[..n]) + {ids[n]};
    }
  }

  lemma {:induction false} UniqueIsCanonical(links: seq<Link>)
    requires Ordered(links) && UniqueOthers(links)
    ensures Canonical(links)
  {
    CountedDistinct(Others(links));
    forall i, j | 0 <= i < j < |links|
      ensures links[i].other.number < links[j].other.number
    {
      assert Others(links)[i] != Others(links)[j];
    }
  }

  lemma {:induction false} AddedLinks(links: Links, owner: Target, added: seq<Link>)
    requires Canonical(added)
    ensures forall key :: key in AddLinks(links, owner, added) <==>
      key in links || (key.owner == owner && key.other in Others(added))
    ensures forall i | 0 <= i < |added| ::
      var key := LinkKey(owner, added[i].other);
      key in AddLinks(links, owner, added) && AddLinks(links, owner, added)[key] == (added[i].support, added[i].strength)
    ensures forall key | key in links && key.owner != owner :: AddLinks(links, owner, added)[key] == links[key]
  {
    if added != [] {
      var n := |added| - 1;
      AddedLinks(links, owner, added[..n]);
      assert Others(added) == Others(added[..n]) + [added[n].other];
    }
  }

  lemma {:induction false} ReadsOf(links: Links, owner: Target, others: seq<Id>)
    requires Ascending(others) && OwnOthers(links, owner) == Elements(others)
    ensures forall o | o in others :: LinkKey(owner, o) in links
    ensures ReadLinks(links, owner) == LinksFor(links, owner, others)
  {
    assert forall o | o in others :: o in Elements(others);
    AscendingUnique(Sorted(OwnOthers(links, owner)), others);
  }

  /** Replacing the link rows of a record and reading them back returns exactly what was written. */
  lemma {:induction false} RoundTrip(links: Links, owner: Target, added: seq<Link>)
    requires Canonical(added)
    ensures ReadLinks(AddLinks(WithoutOwner(links, owner), owner, added), owner) == added
  {
    var written := AddLinks(WithoutOwner(links, owner), owner, added);
    AddedLinks(WithoutOwner(links, owner), owner, added);
    assert OwnOthers(written, owner) == Elements(Others(added));
    ReadsOf(written, owner, Others(added));
    var back := LinksFor(written, owner, Others(added));
    forall i | 0 <= i < |added|
      ensures back[i] == added[i]
    {
      assert Others(added)[i] == added[i].other;
    }
  }

  /** The links of every other record stay as they were. */
  lemma {:induction false} OthersUntouched(links: Links, owner: Target, added: seq<Link>, other: Target)
    requires Canonical(added) && other != owner
    ensures ReadLinks(AddLinks(WithoutOwner(links, owner), owner, added), other) == ReadLinks(links, other)
  {
    var written := AddLinks(WithoutOwner(links, owner), owner, added);
    AddedLinks(WithoutOwner(links, owner), owner, added);
    assert OwnOthers(written, other) == OwnOthers(links, other);
    ReadsOf(links, other, Sorted(OwnOthers(links, other)));
    ReadsOf(written, other, Sorted(OwnOthers(links, other)));
  }

  lemma {:induction false} ReadIsCanonical(links: Links, owner: Target)
    ensures Canonical(ReadLinks(links, owner))
    ensures forall link :: link in ReadLinks(links, owner) <==>
      LinkKey(owner, link.other) in links && links[LinkKey(owner, link.other)] == (link.support, link.strength)
  {
    var others := Sorted(OwnOthers(links, owner));
    var read := ReadLinks(links, owner);
    forall link: Link | LinkKey(owner, link.other) in links && links[LinkKey(owner, link.other)] == (link.support, link.strength)
      ensures link in read
    {
      assert link.other in Elements(others);
      var i :| 0 <= i < |others| && others[i] == link.other;
      assert read[i] == link;
    }
    forall link | link in read
      ensures LinkKey(owner, link.other) in links && links[LinkKey(owner, link.other)] == (link.support, link.strength)
    {
      var i :| 0 <= i < |read| && read[i] == link;
      assert others[i] in Elements(others);
    }
  }
}
