/** The append-only journal of relationship changes and the check that guards reading it. */
module RelationshipJournal {
  import opened Basics
  import opened SourceRelationships

  datatype Operation = CREATE | SET | RETRACT | REVERSE

  /** The canonical form of an accepted request, stored to recognise an exact repeat. */
  datatype Command =
    | CreateCommand(actor: string, kind: Kind, low: Id, high: Id, direction: Direction, reason: string)
    | MutateCommand(actor: string, operation: Operation, relationship: Id, kind: Kind, direction: Direction,
                    lifecycle: Lifecycle, reason: string, expectedRevision: nat)
    | ReverseCommand(actor: string, relationship: Id, change: Id, reason: string, expectedRevision: nat)

  datatype Authority = Authority(epoch: Id, version: nat)

  /** An immutable journal row. Rows older than command storage carry no command. */
  datatype Change = Change(
    id: Id, operationId: Id, relationship: Id, task: Id, previousRevision: nat, revision: nat, operation: Operation,
    previous: Option<Relationship>, resulting: Relationship, actor: string, reason: string, authority: Authority,
    reverses: Option<Id>, command: Option<Command>, createdAt: Time)

  /** The journal rows of one relationship, oldest first. */
  function Journal(changes: seq<Change>, task: Id, relationship: Id): seq<Change> {
    if changes == [] then []
    else
      var last := changes[|changes| - 1];
      var earlier := Journal(changes[..|changes| - 1], task, relationship);
      if last.relationship == relationship && last.task == task then earlier + [last] else earlier
  }

  lemma {:induction false} JournalGrows(changes: seq<Change>, change: Change, task: Id, relationship: Id)
    ensures Journal(changes + [change], task, relationship) == Journal(changes, task, relationship) +
      (if change.relationship == relationship && change.task == task then [change] else [])
  {
    assert (changes + [change])[..|changes|] == changes;
  }

  lemma {:induction false} JournalMembers(changes: seq<Change>, task: Id, relationship: Id)
    ensures forall c :: c in Journal(changes, task, relationship) <==>
      c in changes && c.relationship == relationship && c.task == task
  {
    if changes != [] {
      var n := |changes| - 1;
      JournalMembers(changes[..n], task, relationship);
      assert changes == changes[..n] + [changes[n]];
    }
  }

  lemma {:induction false} JournalEmpty(changes: seq<Change>, task: Id, relationship: Id)
    requires forall c | c in changes :: c.relationship != relationship
    ensures Journal(changes, task, relationship) == []
  {
    if changes != [] {
      JournalEmpty(changes[..|changes| - 1], task, relationship);
    }
  }

  /** One journal row agrees with its own result and continues from the previous result. */
  predicate Continues(projection: Relationship, change: Change, index: nat, before: Option<Relationship>) {
    && change.revision == index + 1 && change.previousRevision == index
    && change.relationship == projection.id && change.task == projection.task
    && (change.operation == CREATE <==> index == 0)
    && change.previous == before
    && change.resulting.id == change.relationship && change.resulting.task == change.task
    && change.resulting.revision == change.revision && change.resulting.latestChange == change.id
  }

  /** The state before the index-th change. */
  function Before(records: seq<Change>, index: nat): Option<Relationship>
    requires index <= |records|
  {
    if index == 0 then None else Some(records[index - 1].resulting)
  }

  predicate ContinuesAt(projection: Relationship, records: seq<Change>, index: nat)
    requires index < |records|
  {
    Continues(projection, records[index], index, Before(records, index))
  }

  /** A gapless chain from the creation to the current row. */
  ghost predicate Contiguous(projection: Relationship, records: seq<Change>) {
    && records != []
    && (forall i {:trigger ContinuesAt(projection, records, i)} | 0 <= i < |records| :: ContinuesAt(projection, records, i))
    && records[|records| - 1].resulting == projection
  }

  /** The two groups of checks a stored change must pass, given the result of the one before it. */
  predicate PassesChecks(projection: Relationship, change: Change, index: nat, previous: Option<Relationship>) {
    !(|| change.revision != index + 1 || change.previousRevision != index
      || change.relationship != projection.id || change.task != projection.task
      || (index == 0 && (change.operation != CREATE || change.previous != None))
      || (index > 0 && (change.operation == CREATE || previous == None)))
    &&
    !(|| change.resulting.id != change.relationship || change.resulting.task != change.task
      || change.resulting.revision != change.revision || change.resulting.latestChange != change.id
      || (previous != None && change.previous != previous))
  }

  lemma {:induction false} ChecksContinue(projection: Relationship, change: Change, index: nat, previous: Option<Relationship>)
    requires previous == None <==> index == 0
    ensures PassesChecks(projection, change, index, previous) <==> Continues(projection, change, index, previous)
  {
  }

  /** The integrity check of the history read accepts exactly the contiguous chains. */
  method ValidatedHistory(projection: Relationship, records: seq<Change>) returns (ok: bool)
    ensures ok <==> Contiguous(projection, records)
  {
    if records == [] {
      return false;
    }
    var previous: Option<Relationship> := None;
    for i := 0 to |records|
      invariant previous == Before(records, i)
      invariant forall k {:trigger ContinuesAt(projection, records, k)} | 0 <= k < i :: ContinuesAt(projection, records, k)
    {
      ChecksContinue(projection, records[i], i, previous);
      if !PassesChecks(projection, records[i], i, previous) {
        assert !ContinuesAt(projection, records, i);
        return false;
      }
      previous := Some(records[i].resulting);
    }
    return previous == Some(projection);
  }

  lemma {:induction false} ContiguousAppend(before: Relationship, records: seq<Change>, row: Relationship, change: Change)
    requires Contiguous(before, records)
    requires row.id == before.id && row.task == before.task && row == change.resulting
    requires Continues(row, change, |records|, Some(before))
    ensures Contiguous(row, records + [change])
  {
    var all := records + [change];
    forall i | 0 <= i < |all|
      ensures ContinuesAt(row, all, i)
    {
      assert Before(all, i) == Before(records, i);
      if i < |records| {
        assert all[i] == records[i];
        assert ContinuesAt(before, records, i);
      }
    }
  }
}
