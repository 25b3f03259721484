/** The bounded inventory of evidence and unresolved operations that recovery decisions read. */
module RecoveryInventory {
  import opened Basics

  datatype EvidenceKind = SecurityTransition | ResearchEvent | MemoryChange | RelationshipChange | DecisionChange

  datatype Evidence = Evidence(kind: EvidenceKind, id: Id)

  datatype OperationKind = ProviderAttempt | CycleAttempt

  datatype Unresolved = Unresolved(kind: OperationKind, id: Id, outcome: string)

  /** The identities of each kind of evidence and the status of each attempt, as stored. */
  datatype Stored = Stored(
    transitions: set<Id>, events: set<Id>, memoryChanges: set<Id>, relationshipChanges: set<Id>, decisionChanges: set<Id>,
    providerAttempts: map<Id, string>, cycleAttempts: map<Id, string>)
  {
    function Identities(kind: EvidenceKind): set<Id> {
      match kind
      case SecurityTransition => transitions
      case ResearchEvent => events
      case MemoryChange => memoryChanges
      case RelationshipChange => relationshipChanges
      case DecisionChange => decisionChanges
    }

    function Attempts(kind: OperationKind): map<Id, string> {
      if kind == ProviderAttempt then providerAttempts else cycleAttempts
    }

    /** Attempts whose status is not one of the final ones. */
    function Open(kind: OperationKind): set<Id> {
      set id | id in Attempts(kind) && !Final(kind, Attempts(kind)[id])
    }

    ghost function AllEvidence(): set<Evidence> {
      set kind: EvidenceKind, id | id in Identities(kind) :: Evidence(kind, id)
    }

    ghost function AllOpen(): set<Unresolved> {
      set kind: OperationKind, id | id in Open(kind) :: Unresolved(kind, id, "unknown")
    }
  }

  const EVIDENCE_KINDS := [SecurityTransition, ResearchEvent, MemoryChange, RelationshipChange, DecisionChange]
  const OPERATION_KINDS := [ProviderAttempt, CycleAttempt]

  predicate Final(kind: OperationKind, status: string) {
    if kind == ProviderAttempt then status in ["SUCCEEDED", "FAILED"]
    else status in ["COMPLETED", "FAILED", "BLOCKED", "INTERRUPTED"]
  }

  const BOUND := 100

  // ----- collecting bounded pages

  /** A list collected page by page stands for a set: exactly, while it is within the bound; otherwise both exceed it. */
  ghost predicate Collects<T>(list: seq<T>, all: set<T>) {
    && Distinct(list)
    && Elements(list) <= all
    && (if |list| <= BOUND then Elements(list) == all else |all| > BOUND)
  }

  /** One page of up to 101 of the references in a set. */
  ghost predicate Page<T>(page: seq<T>, all: set<T>) {
    && Distinct(page)
    && Elements(page) <= all && |page| == (if |all| <= BOUND + 1 then |all| else BOUND + 1)
  }

  lemma {:induction false} PageCollects<T>(list: seq<T>, all: set<T>, page: seq<T>, more: set<T>)
    requires Collects(list, all) && Page(page, more) && all !! more
    ensures Collects(list + page, all + more)
  {
    var both := list + page;
    DistinctCount(page);
    DistinctCount(list);
    assert Elements(both) == Elements(list) + Elements(page);
    assert |all + more| == |all| + |more|;
    forall i, j | 0 <= i < j < |both|
      ensures both[i] != both[j]
    {
      if i < |list| <= j {
        assert both[i] in Elements(list) && both[j] in Elements(page);
      }
    }
    if |both| <= BOUND {
      SubsetCardinality(Elements(page), more);
    } else if |list| <= BOUND {
      SubsetCardinality(Elements(both), all + more);
    }
  }

  function EvidenceOf(kind: EvidenceKind, ids: seq<Id>): seq<Evidence> {
    seq(|ids|, i requires 0 <= i < |ids| => Evidence(kind, ids[i]))
  }

  function OperationsOf(kind: OperationKind, ids: seq<Id>): seq<Unresolved> {
    seq(|ids|, i requires 0 <= i < |ids| => Unresolved(kind, ids[i], "unknown"))
  }

  ghost function EvidenceSet(kind: EvidenceKind, ids: set<Id>): set<Evidence> {
    set id | id in ids :: Evidence(kind, id)
  }

  ghost function OperationSet(kind: OperationKind, ids: set<Id>): set<Unresolved> {
    set id | id in ids :: Unresolved(kind, id, "unknown")
  }

  lemma {:induction false} TaggedCount<T>(ids: set<Id>, all: set<T>, make: Id -> T)
    requires all == set id | id in ids :: make(id)
    requires forall a, b | make(a) == make(b) :: a == b
    ensures |all| == |ids|
  {
    if ids == {} {
      assert all == {};
    } else {
      var x :| x in ids;
      var rest := set id | id in ids - {x} :: make(id);
      assert all == rest + {make(x)} && make(x) !in rest;
      TaggedCount(ids - {x}, rest, make);
    }
  }

  /** A page of identities as the database returns it. */
  ghost predicate IdPage(page: seq<Id>, ids: set<Id>) {
    Ascending(page) && Elements(page) <= ids && |page| == if |ids| <= BOUND + 1 then |ids| else BOUND + 1
  }

  lemma {:induction false} EvidencePage(kind: EvidenceKind, ids: set<Id>, page: seq<Id>)
    requires IdPage(page, ids)
    ensures Page(EvidenceOf(kind, page), EvidenceSet(kind, ids))
  {
    assert forall i | 0 <= i < |page| :: page[i] in Elements(page);
    TaggedCount(ids, EvidenceSet(kind, ids), id => Evidence(kind, id));
  }

  lemma {:induction false} OperationPage(kind: OperationKind, ids: set<Id>, page: seq<Id>)
    requires IdPage(page, ids)
    ensures Page(OperationsOf(kind, page), OperationSet(kind, ids))
  {
    assert forall i | 0 <= i < |page| :: page[i] in Elements(page);
    TaggedCount(ids, OperationSet(kind, ids), id => Unresolved(kind, id, "unknown"));
  }

  ghost function EvidenceOfKinds(stored: Stored, kinds: seq<EvidenceKind>): set<Evidence> {
    if kinds == [] then {}
    else
      var last := kinds[|kinds| - 1];
      EvidenceOfKinds(stored, kinds[..|kinds| - 1]) + EvidenceSet(last, stored.Identities(last))
  }

  ghost function OpenOfKinds(stored: Stored, kinds: seq<OperationKind>): set<Unresolved> {
    if kinds == [] then {}
    else
      var last := kinds[|kinds| - 1];
      OpenOfKinds(stored, kinds[..|kinds| - 1]) + OperationSet(last, stored.Open(last))
  }

  lemma {:induction false} EvidenceMembers(stored: Stored, kinds: seq<EvidenceKind>)
    ensures forall e :: e in EvidenceOfKinds(stored, kinds) <==> e.kind in kinds && e.id in stored.Identities(e.kind)
  {
    if kinds != [] {
      EvidenceMembers(stored, kinds[..|kinds| - 1]);
      assert kinds == kinds[..|kinds| - 1] + [kinds[|kinds| - 1]];
    }
  }

  lemma {:induction false} OpenMembers(stored: Stored, kinds: seq<OperationKind>)
    ensures forall o :: o in OpenOfKinds(stored, kinds) <==> o.kind in kinds && o.id in stored.Open(o.kind) && o.outcome == "unknown"
  {
    if kinds != [] {
      OpenMembers(stored, kinds[..|kinds| - 1]);
      assert kinds == kinds[..|kinds| - 1] + [kinds[|kinds| - 1]];
    }
  }

  datatype Inventory = Inventory(evidence: seq<Evidence>, operations: seq<Unresolved>, partial: bool)

  function UpTo<T>(list: seq<T>, n: nat): seq<T> {
    if |list| <= n then list else list[..n]
  }

  method CollectEvidence(stored: Stored, kinds: seq<EvidenceKind>) returns (evidence: seq<Evidence>)
    requires Distinct(kinds)
    ensures Collects(evidence, EvidenceOfKinds(stored, kinds))
  {
    evidence := [];
    for i := 0 to |kinds|
      invariant Collects(evidence, EvidenceOfKinds(stored, kinds[..i]))
    {
      var page := FirstSorted(stored.Identities(kinds[i]), BOUND + 1);
      NextEvidence(stored, kinds, i, evidence, page);
      evidence := evidence + EvidenceOf(kinds[i], page);
    }
    assert kinds[..|kinds|] == kinds;
  }

  lemma {:induction false} NextEvidence(stored: Stored, kinds: seq<EvidenceKind>, i: nat, evidence: seq<Evidence>, page: seq<Id>)
    requires i < |kinds| && kinds[i] !in kinds[..i] && Collects(evidence, EvidenceOfKinds(stored, kinds[..i]))
    requires IdPage(page, stored.Identities(kinds[i]))
    ensures Collects(evidence + EvidenceOf(kinds[i], page), EvidenceOfKinds(stored, kinds[..i + 1]))
  {
    var all, more := EvidenceOfKinds(stored, kinds[..i]), EvidenceSet(kinds[i], stored.Identities(kinds[i]));
    EvidencePage(kinds[i], stored.Identities(kinds[i]), page);
    EvidenceMembers(stored, kinds[..i]);
    assert all !! more;
    PageCollects(evidence, all, EvidenceOf(kinds[i], page), more);
    assert kinds[..i + 1][..i] == kinds[..i];
  }

  lemma {:induction false} AllKinds()
    ensures forall kind: EvidenceKind :: kind in EVIDENCE_KINDS
    ensures forall kind: OperationKind :: kind in OPERATION_KINDS
  {
    forall kind: EvidenceKind
      ensures kind in EVIDENCE_KINDS
    {
      match kind
      case SecurityTransition => assert EVIDENCE_KINDS[0] == kind;
      case ResearchEvent => assert EVIDENCE_KINDS[1] == kind;
      case MemoryChange => assert EVIDENCE_KINDS[2] == kind;
      case RelationshipChange => assert EVIDENCE_KINDS[3] == kind;
      case DecisionChange => assert EVIDENCE_KINDS[4] == kind;
    }
    forall kind: OperationKind
      ensures kind in OPERATION_KINDS
    {
      match kind
      case ProviderAttempt => assert OPERATION_KINDS[0] == kind;
      case CycleAttempt => assert OPERATION_KINDS[1] == kind;
    }
  }

  method CollectOperations(stored: Stored, kinds: seq<OperationKind>) returns (operations: seq<Unresolved>)
    requires Distinct(kinds)
    ensures Collects(operations, OpenOfKinds(stored, kinds))
  {
    operations := [];
    for i := 0 to |kinds|
      invariant Collects(operations, OpenOfKinds(stored, kinds[..i]))
    {
      var page := FirstSorted(stored.Open(kinds[i]), BOUND + 1);
      NextOperations(stored, kinds, i, operations, page);
      operations := operations + OperationsOf(kinds[i], page);
    }
    assert kinds[..|kinds|] == kinds;
  }

  lemma {:induction false} NextOperations(
    stored: Stored, kinds: seq<OperationKind>, i: nat, operations: seq<Unresolved>, page: seq<Id>)
    requires i < |kinds| && kinds[i] !in kinds[..i] && Collects(operations, OpenOfKinds(stored, kinds[..i]))
    requires IdPage(page, stored.Open(kinds[i]))
    ensures Collects(operations + OperationsOf(kinds[i], page), OpenOfKinds(stored, kinds[..i + 1]))
  {
    var all, more := OpenOfKinds(stored, kinds[..i]), OperationSet(kinds[i], stored.Open(kinds[i]));
    OperationPage(kinds[i], stored.Open(kinds[i]), page);
    OpenMembers(stored, kinds[..i]);
    assert all !! more;
    PageCollects(operations, all, OperationsOf(kinds[i], page), more);
    assert kinds[..i + 1][..i] == kinds[..i];
  }

  lemma {:induction false} AllCollected(stored: Stored)
    ensures EvidenceOfKinds(stored, EVIDENCE_KINDS) == stored.AllEvidence()
    ensures OpenOfKinds(stored, OPERATION_KINDS) == stored.AllOpen()
  {
    AllKinds();
    EvidenceMembers(stored, EVIDENCE_KINDS);
    OpenMembers(stored, OPERATION_KINDS);
  }

  /** What an inventory says about the stored history: it is partial exactly when one of the two true totals is over the
      bound; then it lists some of what exists, otherwise all of it. */
  ghost predicate Reports(stored: Stored, inventory: Inventory) {
    && (inventory.partial <==> |stored.AllEvidence()| > BOUND || |stored.AllOpen()| > BOUND)
    && |inventory.evidence| <= BOUND && |inventory.operations| <= BOUND
    && Distinct(inventory.evidence)
    && Distinct(inventory.operations)
    && Elements(inventory.evidence) <= stored.AllEvidence() && Elements(inventory.operations) <= stored.AllOpen()
    && (!inventory.partial ==>
          Elements(inventory.evidence) == stored.AllEvidence() && Elements(inventory.operations) == stored.AllOpen())
  }

  method ReadInventory(stored: Stored) returns (inventory: Inventory)
    ensures Reports(stored, inventory)
  {
    var evidence := CollectEvidence(stored, EVIDENCE_KINDS);
    var operations := CollectOperations(stored, OPERATION_KINDS);
    AllCollected(stored);
    CutOff(evidence, stored.AllEvidence());
    CutOff(operations, stored.AllOpen());
    inventory := Inventory(UpTo(evidence, BOUND), UpTo(operations, BOUND), |evidence| > BOUND || |operations| > BOUND);
  }

  lemma {:induction false} CutOff<T>(list: seq<T>, all: set<T>)
    requires Collects(list, all)
    ensures var cut := UpTo(list, BOUND);
      && Distinct(cut) && Elements(cut) <= all
      && (|list| > BOUND <==> |all| > BOUND) && (|list| <= BOUND ==> Elements(cut) == all)
  {
    DistinctCount(list);
    assert Elements(UpTo(list, BOUND)) <= Elements(list);
  }
}
