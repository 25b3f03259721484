/** The service object: staging and reversing changes over the tables, each a transaction. */
module Memory {
  import opened Basics
  import opened MemoryModel
  import opened MemoryJournal
  import opened MemoryInvariant

  class MemoryService {
    var tasks: map<Id, Task>
    var sources: map<Id, Id>
    var cycleClaims: map<Id, set<Id>>
    var records: map<Target, Record>
    var links: Links
    var journal: seq<Change>

    ghost function Contents(): State
      reads this
    {
      State(tasks, sources, cycleClaims, records, links, journal)
    }

    ghost predicate Valid()
      reads this
    {
      Good(Contents())
    }

    constructor ()
      ensures Valid() && Contents() == State(map[], map[], map[], map[], map[], [])
    {
      tasks, sources, cycleClaims, records, links, journal := map[], map[], map[], map[], map[], [];
    }

    method CurrentState(target: Target) returns (document: Option<Document>)
      ensures document == Before(Contents(), target)
    {
      return Before(State(tasks, sources, cycleClaims, records, links, journal), target);
    }

    /** Replace the link rows of a record. */
    method ReplaceLinks(owner: Target, added: seq<Link>)
      modifies this`links
      ensures links == AddLinks(WithoutOwner(old(links), owner), owner, added)
    {
      ghost var kept := WithoutOwner(links, owner);
      links := map key | key in links && key.owner != owner :: links[key];
      for i := 0 to |added|
        invariant links == AddLinks(kept, owner, added[..i])
      {
        assert added[..i + 1][..i] == added[..i];
        links := links[LinkKey(owner, added[i].other) := (added[i].support, added[i].strength)];
      }
      assert added[..|added|] == added;
    }

    /** Store the document in the record and its link rows, and append the change. */
    method Write(task: Id, target: Target, after: Document, change: Change)
      modifies this`records, this`links, this`journal
      ensures Contents() == Written(old(Contents()), task, target, after, change)
    {
      var data := after.data;
      var record;
      if target in records {
        record := records[target];
      } else {
        record := Record(target.id, task, "", 0.0, "", 0, Active, if target.kind == Claim then None else after.hypothesis);
      }
      record := record.(text := data.text, confidence := data.confidence, status := data.status);
      record := record.(version := record.version + 1, lifecycle := after.lifecycle);
      records := records[target := record];
      ReplaceLinks(target, data.links);
      journal := journal + [change];
    }

    /** Apply a proposed change, or return the result it had when it was first applied. */
    method Stage(authority: Authority, p: Proposal) returns (r: Result<Change>)
      requires Valid()
      modifies this
      ensures Valid() && (Contents(), r) == StageSpec(old(Contents()), authority, p)
    {
      StageKeepsGood(Contents(), authority, p);
      if !authority.canCommit || authority.actor == Model {
        return Err(Denied);
      }
      if authority.task !in tasks {
        return Err(NotFound);
      }
      if !authority.capability {
        return Err(Denied);
      }
      var prior := FindChange(journal, p.changeId);
      if prior.Some? {
        if prior.value.task != authority.task || prior.value.actor != authority.actor || prior.value.request != Propose(p) {
          return Err(Conflict);
        }
        return Ok(prior.value);
      }
      var s := State(tasks, sources, cycleClaims, records, links, journal);
      var prepared := Prepare(s, authority, p);
      if prepared.Err? {
        return Err(prepared.error);
      }
      var change := ChangeOf(s, authority, p.changeId, p.target, p.operation, p.reason,
        prepared.value.before, prepared.value.after, Propose(p), None);
      Write(authority.task, p.target, prepared.value.after, change);
      return Ok(change);
    }

    /** Undo a change that is still the latest of its target; once. */
    method Reverse(authority: Authority, original: Id, reversal: Reversal) returns (r: Result<Change>)
      requires Valid()
      modifies this
      ensures Valid() && (Contents(), r) == ReverseSpec(old(Contents()), authority, original, reversal)
    {
      ReverseKeepsGood(Contents(), authority, original, reversal);
      if !authority.canCommit || authority.actor != LocalOperator || Blank(reversal.reason) {
        return Err(Denied);
      }
      if authority.task !in tasks {
        return Err(NotFound);
      }
      if !authority.capability {
        return Err(Denied);
      }
      var found := FindChange(journal, original);
      if found == None || found.value.task != authority.task || found.value.reverses.Some? {
        return Err(Conflict);
      }
      var change := found.value;
      var duplicate := FindReversal(journal, original);
      if duplicate.Some? {
        return Ok(duplicate.value);
      }
      if FindChange(journal, reversal.changeId).Some? || authority.now >= change.time + REVERSAL_WINDOW {
        return Err(Conflict);
      }
      var current := CurrentState(change.target);
      if current == None || records[change.target].task != authority.task || records[change.target].version != change.version {
        return Err(Conflict);
      }
      var before := current.value;
      if before != change.resulting {
        return Err(Conflict);
      }
      var after := Undone(change, before);
      var s := State(tasks, sources, cycleClaims, records, links, journal);
      var refused := Validate(s, authority.task, change.target, Some(before), after, true);
      if refused.Some? {
        return Err(refused.value);
      }
      var undo := ChangeOf(s, authority, reversal.changeId, change.target, REVERSE, reversal.reason,
        Some(before), after, Undo(original, reversal), Some(original));
      Write(authority.task, change.target, after, undo);
      return Ok(undo);
    }

    method History(task: Id, id: Id) returns (r: Result<MemoryJournal.History>)
      requires Valid()
      ensures r == Err(NotFound) <==> Entries(journal, task, id) == []
      ensures r.Ok? <==> Entries(journal, task, id) != [] && !TwoKinds(journal, task, id)
      ensures r.Ok? ==>
        var target := r.value.target;
        target in records && records[target].task == task && r.value.version == records[target].version
    {
      r := ReadHistory(journal, task, id);
      if Entries(journal, task, id) != [] {
        HistoryReads(Contents(), task, id);
      }
    }
  }

  /** The identity was used for a claim and for an assessment of the task, and both are journaled. */
  ghost predicate TwoKinds(journal: seq<Change>, task: Id, id: Id) {
    exists a, b | a in journal && b in journal ::
      a.task == task && b.task == task && a.target == Target(Claim, id) && b.target == Target(Assessment, id)
  }

  lemma {:induction false} SingleKind(journal: seq<Change>, task: Id, id: Id, c: Change)
    requires Chained(journal) && !TwoKinds(journal, task, id) && c in journal && c.task == task && c.target.id == id
    ensures OneKind(journal, task, c.target)
  {
    forall d | d in journal
      ensures (d.task == task && d.target.id == id) <==> d.target == c.target
    {
      if d.target == c.target {
        LatestIsNewest(journal, c);
        LatestIsNewest(journal, d);
      }
    }
  }

  /** The table row of a change's target is what the change left. */
  ghost predicate Stored(s: State, c: Change) {
    && c.target in s.records && c.task == s.records[c.target].task
    && c.version == s.records[c.target].version && c.resulting == Read(s, c.target)
  }

  ghost predicate LatestStored(s: State) {
    Chained(s.journal) && forall c | c in s.journal && Latest(s.journal, c.target) == Some(c) :: Stored(s, c)
  }

  lemma {:induction false} GoodStoresLatest(s: State)
    requires Good(s)
    ensures LatestStored(s)
  {
    forall c | c in s.journal && Latest(s.journal, c.target) == Some(c)
      ensures Stored(s, c)
    {
      assert RecordFits(s, c.target);
    }
  }

  lemma {:induction false} SingleKindChain(journal: seq<Change>, task: Id, id: Id)
    requires Chained(journal) && Entries(journal, task, id) != [] && !TwoKinds(journal, task, id)
    ensures var changes := Entries(journal, task, id); var target := Target(changes[0].target.kind, id);
      && SoundHistory(target, changes) && OneKind(journal, task, target)
      && Latest(journal, target) == Some(changes[|changes| - 1])
      && changes[|changes| - 1].task == task
  {
    var changes := Entries(journal, task, id);
    EntriesMembers(journal, task, id);
    assert changes[0] in changes;
    assert changes[|changes| - 1] in changes;
    SingleKind(journal, task, id, changes[0]);
    ChainIsSound(journal, task, changes[0].target);
  }

  lemma {:induction false} TwoKindsUnsound(journal: seq<Change>, task: Id, id: Id, kind: Kind)
    requires TwoKinds(journal, task, id)
    ensures !SoundHistory(Target(kind, id), Entries(journal, task, id))
  {
    var changes := Entries(journal, task, id);
    EntriesMembers(journal, task, id);
    var a, b :| a in journal && b in journal
      && a.task == task && b.task == task && a.target == Target(Claim, id) && b.target == Target(Assessment, id);
    var other := if kind == Claim then b else a;
    assert other in changes;
    var i :| 0 <= i < |changes| && changes[i] == other;
    assert !SoundAt(Target(kind, id), changes, i);
  }

  lemma {:induction false} SingleKindReads(s: State, task: Id, id: Id)
    requires LatestStored(s) && Entries(s.journal, task, id) != [] && !TwoKinds(s.journal, task, id)
    ensures var changes := Entries(s.journal, task, id); var target := Target(changes[0].target.kind, id);
      && SoundHistory(target, changes) && OneKind(s.journal, task, target)
      && Stored(s, changes[|changes| - 1]) && changes[|changes| - 1].target == target && s.records[target].task == task
  {
    SingleKindChain(s.journal, task, id);
  }

  /** In a reachable state a history reads exactly when the identity was not used for both kinds in the task. */
  lemma {:induction false} HistoryReads(s: State, task: Id, id: Id)
    requires Good(s) && Entries(s.journal, task, id) != []
    ensures var changes := Entries(s.journal, task, id); var target := Target(changes[0].target.kind, id);
      && (SoundHistory(target, changes) <==> !TwoKinds(s.journal, task, id))
      && (SoundHistory(target, changes) ==>
            && changes[|changes| - 1].target == target && Stored(s, changes[|changes| - 1]) && s.records[target].task == task)
  {
    if TwoKinds(s.journal, task, id) {
      TwoKindsUnsound(s.journal, task, id, Entries(s.journal, task, id)[0].target.kind);
    } else {
      GoodStoresLatest(s);
      SingleKindReads(s, task, id);
    }
  }
}
