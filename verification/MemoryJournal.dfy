/** The append-only memory journal: what a history read accepts and what past states it returns. */
module MemoryJournal {
  import opened Basics
  import opened MemoryModel
  import opened MemoryLinks

  /** The changes of a task about an identity, of either kind, in the order of their versions. */
  function Entries(journal: seq<Change>, task: Id, id: Id): seq<Change> {
    if journal == [] then []
    else
      var last := journal[|journal| - 1];
      Entries(journal[..|journal| - 1], task, id) + if last.task == task && last.target.id == id then [last] else []
  }

  /** A journaled document that decodes. */
  predicate WellFormed(kind: Kind, document: Document) {
    document.data.links != [] && (kind == Assessment ==> document.hypothesis.Some?)
  }

  /** A created record starts at version one; a record older than the journal continues from version one. */
  predicate Opens(kind: Kind, c: Change) {
    || (c.previousVersion == 0 && c.version == 1 && c.previous == None)
    || (c.previousVersion == 1 && c.version == 2 && c.previous.Some? && WellFormed(kind, c.previous.value))
  }

  predicate SoundEntry(target: Target, c: Change) {
    && c.target == target && c.proposed == c.resulting
    && WellFormed(target.kind, c.proposed) && WellFormed(target.kind, c.resulting)
  }

  predicate ContinuesFrom(p: Change, c: Change) {
    c.previousVersion == p.version && c.version == p.version + 1 && c.previous == Some(p.resulting)
  }

  ghost predicate SoundAt(target: Target, changes: seq<Change>, i: nat)
    requires i < |changes|
  {
    && SoundEntry(target, changes[i])
    && if i == 0 then Opens(target.kind, changes[0]) else ContinuesFrom(changes[i - 1], changes[i])
  }

  /** A gapless chain of sound changes of one target. */
  ghost predicate SoundHistory(target: Target, changes: seq<Change>) {
    forall i {:trigger SoundAt(target, changes, i)} | 0 <= i < |changes| :: SoundAt(target, changes, i)
  }

  datatype History = History(target: Target, version: nat, baseline: Option<Document>, changes: seq<Change>)

  /** The checked history of an identity. */
  method ReadHistory(journal: seq<Change>, task: Id, id: Id) returns (r: Result<History>)
    ensures var changes := Entries(journal, task, id);
      if changes == [] then r == Err(NotFound)
      else if !SoundHistory(Target(changes[0].target.kind, id), changes) then r == Err(Conflict)
      else
        var first := changes[0];
        r == Ok(History(Target(first.target.kind, id), changes[|changes| - 1].version,
                        if first.previousVersion == 1 then first.previous else None, changes))
  {
    var changes := Entries(journal, task, id);
    if changes == [] {
      return Err(NotFound);
    }
    var first := changes[0];
    var target := Target(first.target.kind, id);
    var baseline: Option<Document> := None;
    var expected;
    if first.previousVersion == 0 && first.version == 1 && first.previous == None {
      expected := 0;
    } else if first.previousVersion == 1 && first.version == 2 && first.previous.Some? {
      if !WellFormed(target.kind, first.previous.value) {
        assert !SoundAt(target, changes, 0);
        return Err(Conflict);
      }
      baseline, expected := first.previous, 1;
    } else {
      assert !SoundAt(target, changes, 0);
      return Err(Conflict);
    }
    var previous: Option<Document> := None;
    for i := 0 to |changes|
      invariant forall k {:trigger SoundAt(target, changes, k)} | 0 <= k < i :: SoundAt(target, changes, k)
      invariant i > 0 ==> previous == Some(changes[i - 1].resulting) && expected == changes[i - 1].version
    {
      var c := changes[i];
      if c.target != target
        || (i > 0 && (c.previousVersion != expected || c.version != expected + 1 || c.previous != previous))
        || !WellFormed(target.kind, c.proposed) || !WellFormed(target.kind, c.resulting) || c.proposed != c.resulting
      {
        assert !SoundAt(target, changes, i);
        return Err(Conflict);
      }
      assert SoundAt(target, changes, i);
      previous, expected := Some(c.resulting), c.version;
    }
    return Ok(History(target, expected, baseline, changes));
  }

  /** The state a checked list of changes gives for a version. */
  function StateIn(changes: seq<Change>, version: int): Result<Document> {
    if changes == [] then Err(Conflict)
    else if version == 1 && changes[0].previousVersion == 1 && changes[0].previous.Some? then Ok(changes[0].previous.value)
    else Resulting(changes, version)
  }

  function Resulting(changes: seq<Change>, version: int): Result<Document> {
    if changes == [] then Err(Conflict)
    else if changes[0].version == version then Ok(changes[0].resulting)
    else Resulting(changes[1..], version)
  }

  method StateAtVersion(journal: seq<Change>, task: Id, id: Id, version: int) returns (r: Result<Document>)
    ensures var changes := Entries(journal, task, id);
      r == if version < 1 then Err(Conflict)
           else if changes == [] then Err(NotFound)
           else if !SoundHistory(Target(changes[0].target.kind, id), changes) then Err(Conflict)
           else StateIn(changes, version)
  {
    if version < 1 {
      return Err(Conflict);
    }
    var history := ReadHistory(journal, task, id);
    if history.Err? {
      return Err(history.error);
    }
    assert SoundAt(history.value.target, history.value.changes, 0);
    if version == 1 && history.value.baseline.Some? {
      return Ok(history.value.baseline.value);
    }
    r := Resulting(history.value.changes, version);
  }

  // ----- sound histories

  /** Versions rise by one with every change. */
  lemma {:induction false} VersionOf(target: Target, changes: seq<Change>, i: nat)
    requires SoundHistory(target, changes) && i < |changes|
    ensures changes[i].version == changes[0].version + i && changes[i].previousVersion == changes[i].version - 1
  {
    assert SoundAt(target, changes, i);
    if i > 0 {
      VersionOf(target, changes, i - 1);
    }
  }

  lemma {:induction false} ResultingAt(changes: seq<Change>, i: nat)
    requires i < |changes| && forall k | 0 <= k < |changes| :: changes[k].version == changes[0].version + k
    ensures Resulting(changes, changes[i].version) == Ok(changes[i].resulting)
  {
    if i > 0 {
      var rest := changes[1..];
      assert forall k | 0 <= k < |rest| :: rest[k] == changes[k + 1];
      ResultingAt(rest, i - 1);
    }
  }

  lemma {:induction false} ResultingMisses(changes: seq<Change>, version: int)
    requires forall c | c in changes :: c.version != version
    ensures Resulting(changes, version) == Err(Conflict)
  {
    if changes != [] {
      ResultingMisses(changes[1..], version);
    }
  }

  /** A sound history answers for exactly the versions up to the last one, each with the state that change left. */
  lemma {:induction false} SoundAnswers(target: Target, changes: seq<Change>, version: int)
    requires SoundHistory(target, changes) && changes != []
    ensures version >= 1 ==> (StateIn(changes, version).Ok? <==> version <= changes[|changes| - 1].version)
    ensures forall i | 0 <= i < |changes| :: StateIn(changes, changes[i].version) == Ok(changes[i].resulting)
    ensures forall i | 0 <= i < |changes| && changes[i].previous.Some? ::
      StateIn(changes, changes[i].previousVersion) == Ok(changes[i].previous.value)
  {
    assert SoundAt(target, changes, 0);
    forall i | 0 <= i < |changes|
      ensures changes[i].version == changes[0].version + i && changes[i].previousVersion == changes[i].version - 1
    {
      VersionOf(target, changes, i);
    }
    forall i | 0 <= i < |changes|
      ensures StateIn(changes, changes[i].version) == Ok(changes[i].resulting)
    {
      ResultingAt(changes, i);
    }
    forall i | 0 <= i < |changes| && changes[i].previous.Some?
      ensures StateIn(changes, changes[i].previousVersion) == Ok(changes[i].previous.value)
    {
      assert SoundAt(target, changes, i);
    }
    var i := version - changes[0].version;
    if 0 <= i < |changes| {
      assert changes[i].version == version;
    } else {
      ResultingMisses(changes, version);
    }
  }

  // ----- the journal as a whole

  /** The last change of a target. */
  function Latest(journal: seq<Change>, target: Target): (r: Option<Change>)
    ensures r.Some? ==> r.value in journal && r.value.target == target
  {
    if journal == [] then None
    else
      var last := journal[|journal| - 1];
      if last.target == target then Some(last) else Latest(journal[..|journal| - 1], target)
  }

  /** A stored document: sorted unique links, and a hypothesis exactly for assessments. */
  ghost predicate Proper(kind: Kind, document: Document) {
    document.data.links != [] && Canonical(document.data.links) && (document.hypothesis.Some? <==> kind == Assessment)
  }

  /** A change that extends the chain of its target. */
  ghost predicate Extends(latest: Option<Change>, c: Change) {
    && c.version == c.previousVersion + 1 && c.proposed == c.resulting && Proper(c.target.kind, c.resulting)
    && (c.previous.Some? ==> Proper(c.target.kind, c.previous.value) && c.previous.value.hypothesis == c.resulting.hypothesis)
    && match latest
       case None => (c.previousVersion == 0 && c.previous == None) || (c.previousVersion == 1 && c.previous.Some?)
       case Some(p) => c.task == p.task && ContinuesFrom(p, c)
  }

  /** Every change extends the chain of its target. */
  ghost predicate Chained(journal: seq<Change>) {
    journal == [] ||
    var last := journal[|journal| - 1];
    Chained(journal[..|journal| - 1]) && Extends(Latest(journal[..|journal| - 1], last.target), last)
  }

  /** The latest change has the highest version; no other change of the target shares it. */
  lemma {:induction false} LatestIsNewest(journal: seq<Change>, c: Change)
    requires Chained(journal) && c in journal
    ensures Latest(journal, c.target).Some?
    ensures var newest := Latest(journal, c.target).value;
      c.task == newest.task && c.version <= newest.version && (c.version == newest.version ==> c == newest)
  {
    var n := |journal| - 1;
    if c in journal[..n] {
      LatestIsNewest(journal[..n], c);
    } else {
      assert c == journal[n];
    }
  }

  lemma {:induction false} EntryExtends(journal: seq<Change>, c: Change)
    requires Chained(journal) && c in journal
    ensures exists latest :: Extends(latest, c)
  {
    var n := |journal| - 1;
    if c in journal[..n] {
      EntryExtends(journal[..n], c);
    } else {
      assert c == journal[n];
    }
  }

  lemma {:induction false} EntriesMembers(journal: seq<Change>, task: Id, id: Id)
    ensures forall c :: c in Entries(journal, task, id) <==> c in journal && c.task == task && c.target.id == id
  {
    if journal != [] {
      var n := |journal| - 1;
      EntriesMembers(journal[..n], task, id);
      assert journal == journal[..n] + [journal[n]];
    }
  }

  lemma {:induction false} SoundExtended(target: Target, changes: seq<Change>, c: Change)
    requires SoundHistory(target, changes) && c.target == target
    requires Extends(if changes == [] then None else Some(changes[|changes| - 1]), c)
    ensures SoundHistory(target, changes + [c])
  {
    var all := changes + [c];
    forall i | 0 <= i < |all|
      ensures SoundAt(target, all, i)
    {
      if i < |changes| {
        assert SoundAt(target, changes, i);
      }
    }
  }

  /** All changes a task holds about an identity are about the given target, and no other task changed that target. */
  ghost predicate OneKind(journal: seq<Change>, task: Id, target: Target) {
    forall c | c in journal :: (c.task == task && c.target.id == target.id) <==> c.target == target
  }

  lemma {:induction false} ChainIsSound(journal: seq<Change>, task: Id, target: Target)
    requires Chained(journal) && OneKind(journal, task, target)
    ensures var changes := Entries(journal, task, target.id);
      && SoundHistory(target, changes)
      && Latest(journal, target) == if changes == [] then None else Some(changes[|changes| - 1])
  {
    if journal != [] {
      var n := |journal| - 1;
      assert OneKind(journal[..n], task, target);
      ChainIsSound(journal[..n], task, target);
      assert journal[n] in journal;
      if journal[n].target == target {
        SoundExtended(target, Entries(journal[..n], task, target.id), journal[n]);
      } else {
        assert Entries(journal, task, target.id) == Entries(journal[..n], task, target.id);
      }
    }
  }
}
