/** The five checks that decide whether a captured recovery context still allows restoration. */
module RecoveryReconciliation {
  import opened Basics
  import opened AuthorityRecord
  import opened RecoveryInventory

  datatype InventoryStatus = NotCollected | Partial | Complete

  /** The incident of a bootstrap, independent of the contexts captured for it. */
  datatype Incident = Incident(epoch: Id, origin: Origin)

  datatype Context = Context(
    id: Id, incident: Incident, basis: Basis, evidence: seq<Evidence>, operations: seq<Unresolved>, status: InventoryStatus,
    createdAt: Time, expiresAt: Time)
  {
    /** The consistency validator of contexts. */
    predicate Consistent() {
      && basis.Consistent() && basis.pending && basis.origin.Some?
      && basis.origin.value.startedAt <= createdAt < expiresAt
      && |evidence| <= BOUND && |operations| <= BOUND
      && Distinct(evidence)
      && (forall i, j | 0 <= i < j < |operations| ::
            operations[i].kind != operations[j].kind || operations[i].id != operations[j].id)
      && (status == NotCollected ==> evidence == [] && operations == [])
    }
  }

  datatype Check = AuthorityLineage | HistoryIntegrity | EvidenceIntegrity | OperationOutcomes | ConfigurationIntegrity

  datatype Outcome = Passed | Failed | Unknown

  datatype Disposition = Committed | DidNotCommit | UnknownDisposition

  datatype ReconciledOperation = ReconciledOperation(kind: OperationKind, id: Id, status: Option<string>, disposition: Disposition)

  datatype Reconciliation = Reconciliation(
    context: Id, basis: Basis, checkedAt: Time, partial: bool, checks: seq<(Check, Outcome)>,
    operations: seq<ReconciledOperation>, allowed: bool)

  // ----- the checks

  predicate Current(context: Context, basis: Basis, now: Time) {
    context.createdAt <= now < context.expiresAt && context.basis == basis
  }

  function CheckLineage(context: Context, basis: Basis, now: Time): Outcome {
    if Current(context, basis, now) then Passed else Failed
  }

  function CheckHistory(captured: set<Evidence>, present: set<Evidence>): Outcome {
    if captured - present != {} then Failed else Passed
  }

  function CheckEvidence(context: Context, captured: set<Evidence>, present: set<Evidence>, partial: bool): Outcome {
    if context.status != Complete || partial then Unknown
    else if captured != present then Failed
    else Passed
  }

  function CheckOutcomes(
    context: Context, present: set<Unresolved>, operations: seq<ReconciledOperation>, partial: bool): Outcome
  {
    if partial then Unknown
    else if present - Elements(context.operations) != {} then Failed
    else if exists operation | operation in operations :: operation.disposition == UnknownDisposition then Unknown
    else Passed
  }

  /** The security-state identity of a basis is always the singleton's. */
  function CheckConfiguration(partial: bool): Outcome {
    if partial then Unknown else Passed
  }

  // ----- what became of the operations

  function DispositionOf(kind: OperationKind, status: string): Disposition {
    if kind == ProviderAttempt then
      if status == "SUCCEEDED" then Committed else if status == "FAILED" then DidNotCommit else UnknownDisposition
    else if status in {"COMPLETED", "FAILED", "BLOCKED", "INTERRUPTED"} then Committed else UnknownDisposition
  }

  function Resolve(stored: Stored, kind: OperationKind, id: Id): ReconciledOperation {
    if id in stored.Attempts(kind) then
      var status := stored.Attempts(kind)[id];
      ReconciledOperation(kind, id, Some(status), DispositionOf(kind, status))
    else ReconciledOperation(kind, id, None, DidNotCommit)
  }

  function IdsOf(kind: OperationKind, operations: set<Unresolved>): set<Id> {
    set o | o in operations && o.kind == kind :: o.id
  }

  function ResolveAll(stored: Stored, kind: OperationKind, ids: seq<Id>): seq<ReconciledOperation> {
    seq(|ids|, i requires 0 <= i < |ids| => Resolve(stored, kind, ids[i]))
  }

  /** All captured and present operations by kind and identity, cut to the bound. */
  function Operations(context: Context, stored: Stored, present: set<Unresolved>): seq<ReconciledOperation> {
    var named := Elements(context.operations) + present;
    var all := ResolveAll(stored, CycleAttempt, Sorted(IdsOf(CycleAttempt, named)))
             + ResolveAll(stored, ProviderAttempt, Sorted(IdsOf(ProviderAttempt, named)));
    UpTo(all, BOUND)
  }

  /** The condition the five checks amount to. */
  ghost predicate Restorable(context: Context, basis: Basis, stored: Stored, now: Time) {
    && Current(context, basis, now) && context.status == Complete
    && |stored.AllEvidence()| <= BOUND && stored.AllEvidence() == Elements(context.evidence)
    && stored.AllOpen() == {}
  }

  function ReconcileWith(context: Context, basis: Basis, stored: Stored, inventory: Inventory, now: Time): Reconciliation {
    var captured, present := Elements(context.evidence), Elements(inventory.evidence);
    var open := Elements(inventory.operations);
    var operations := Operations(context, stored, open);
    var checks := [
      (AuthorityLineage, CheckLineage(context, basis, now)),
      (HistoryIntegrity, CheckHistory(captured, present)),
      (EvidenceIntegrity, CheckEvidence(context, captured, present, inventory.partial)),
      (OperationOutcomes, CheckOutcomes(context, open, operations, inventory.partial)),
      (ConfigurationIntegrity, CheckConfiguration(inventory.partial))];
    Reconciliation(context.id, basis, now, inventory.partial, checks, operations,
      forall check | check in checks :: check.1 == Passed)
  }

  /** Read the inventory once and decide on it. */
  method Reconcile(context: Context, basis: Basis, stored: Stored, now: Time) returns (r: Reconciliation)
    requires context.Consistent()
    ensures r.allowed <==> Restorable(context, basis, stored, now)
    ensures r.allowed <==> forall check | check in r.checks :: check.1 == Passed
    ensures r.partial <==> |stored.AllEvidence()| > BOUND || |stored.AllOpen()| > BOUND
    ensures exists inventory :: Reports(stored, inventory) && r == ReconcileWith(context, basis, stored, inventory, now)
  {
    var inventory := ReadInventory(stored);
    AllowedExactly(context, basis, stored, inventory, now);
    r := ReconcileWith(context, basis, stored, inventory, now);
  }

  // ----- proof

  lemma {:induction false} IdsBounded(operations: seq<Unresolved>)
    requires forall i, j | 0 <= i < j < |operations| ::
      operations[i].kind != operations[j].kind || operations[i].id != operations[j].id
    ensures |IdsOf(CycleAttempt, Elements(operations))| + |IdsOf(ProviderAttempt, Elements(operations))| == |operations|
  {
    if operations == [] {
      assert Elements(operations) == {};
      assert IdsOf(CycleAttempt, Elements(operations)) == {} && IdsOf(ProviderAttempt, Elements(operations)) == {};
    } else {
      var n := |operations| - 1;
      var last := operations[n];
      IdsBounded(operations[..n]);
      assert operations == operations[..n] + [last];
      assert Elements(operations) == Elements(operations[..n]) + {last};
      IdsGrow(Elements(operations[..n]), last, CycleAttempt);
      IdsGrow(Elements(operations[..n]), last, ProviderAttempt);
      assert last.id !in IdsOf(last.kind, Elements(operations[..n]));
    }
  }

  lemma {:induction false} IdsGrow(operations: set<Unresolved>, o: Unresolved, kind: OperationKind)
    ensures IdsOf(kind, operations + {o}) == IdsOf(kind, operations) + if o.kind == kind then {o.id} else {}
  {
  }

  lemma {:induction false} DispositionIsFinal(kind: OperationKind, status: string)
    ensures DispositionOf(kind, status) == UnknownDisposition <==> !Final(kind, status)
  {
  }

  lemma {:induction false} ResolveUnknown(stored: Stored, kind: OperationKind, id: Id)
    ensures Resolve(stored, kind, id).disposition == UnknownDisposition <==> id in stored.Open(kind)
  {
    if id in stored.Attempts(kind) {
      DispositionIsFinal(kind, stored.Attempts(kind)[id]);
    }
  }

  /** What was resolved for two pages of identities has an unknown outcome exactly when one of them is open. */
  lemma {:induction false} UnknownAmong(stored: Stored, cycles: seq<Id>, providers: seq<Id>)
    ensures var all := ResolveAll(stored, CycleAttempt, cycles) + ResolveAll(stored, ProviderAttempt, providers);
      (exists operation | operation in all :: operation.disposition == UnknownDisposition) <==>
        || (exists id | id in cycles :: id in stored.Open(CycleAttempt))
        || (exists id | id in providers :: id in stored.Open(ProviderAttempt))
  {
    var front, back := ResolveAll(stored, CycleAttempt, cycles), ResolveAll(stored, ProviderAttempt, providers);
    UnknownIn(stored, CycleAttempt, cycles);
    UnknownIn(stored, ProviderAttempt, providers);
    assert forall operation :: operation in front + back <==> operation in front || operation in back;
  }

  lemma {:induction false} UnknownIn(stored: Stored, kind: OperationKind, ids: seq<Id>)
    ensures (exists operation | operation in ResolveAll(stored, kind, ids) :: operation.disposition == UnknownDisposition) <==>
      exists id | id in ids :: id in stored.Open(kind)
  {
    var all := ResolveAll(stored, kind, ids);
    forall i | 0 <= i < |ids|
      ensures all[i].disposition == UnknownDisposition <==> ids[i] in stored.Open(kind)
    {
      ResolveUnknown(stored, kind, ids[i]);
    }
    if id :| id in ids && id in stored.Open(kind) {
      var i :| 0 <= i < |ids| && ids[i] == id;
      assert all[i] in all;
    }
  }

  /** When nothing present is missing from the context, no operation is cut off. */
  lemma {:induction false} NothingCutOff(context: Context, stored: Stored, present: set<Unresolved>)
    requires context.Consistent() && present <= Elements(context.operations)
    ensures var cycles := Sorted(IdsOf(CycleAttempt, Elements(context.operations)));
      var providers := Sorted(IdsOf(ProviderAttempt, Elements(context.operations)));
      Operations(context, stored, present) ==
        ResolveAll(stored, CycleAttempt, cycles) + ResolveAll(stored, ProviderAttempt, providers)
  {
    assert Elements(context.operations) + present == Elements(context.operations);
    IdsBounded(context.operations);
  }

  lemma {:induction false} OpenIsNamed(stored: Stored, named: set<Unresolved>, kind: OperationKind, ids: seq<Id>)
    requires stored.AllOpen() <= named && Elements(ids) == IdsOf(kind, named)
    ensures (exists id | id in ids :: id in stored.Open(kind)) <==> stored.Open(kind) != {}
  {
    if id :| id in stored.Open(kind) {
      assert Unresolved(kind, id, "unknown") in stored.AllOpen();
      var o :| o in named && o.kind == kind && o.id == id;
      assert o.id in IdsOf(kind, named);
      assert id in Elements(ids) && id in ids;
    }
  }

  lemma {:induction false} OpenByKind(stored: Stored)
    ensures stored.AllOpen() == {} <==> stored.Open(CycleAttempt) == {} && stored.Open(ProviderAttempt) == {}
  {
    if id :| id in stored.Open(CycleAttempt) {
      assert Unresolved(CycleAttempt, id, "unknown") in stored.AllOpen();
    }
    if id :| id in stored.Open(ProviderAttempt) {
      assert Unresolved(ProviderAttempt, id, "unknown") in stored.AllOpen();
    }
  }

  /** Then one of the operations has an unknown outcome exactly when some attempt is open. */
  lemma {:induction false} OutcomesExactly(context: Context, stored: Stored, present: set<Unresolved>)
    requires context.Consistent() && present == stored.AllOpen() && present <= Elements(context.operations)
    ensures (exists operation | operation in Operations(context, stored, present) :: operation.disposition == UnknownDisposition)
      <==> stored.AllOpen() != {}
  {
    var named := Elements(context.operations);
    var cycles, providers := Sorted(IdsOf(CycleAttempt, named)), Sorted(IdsOf(ProviderAttempt, named));
    NothingCutOff(context, stored, present);
    UnknownAmong(stored, cycles, providers);
    OpenIsNamed(stored, named, CycleAttempt, cycles);
    OpenIsNamed(stored, named, ProviderAttempt, providers);
    OpenByKind(stored);
  }

  lemma {:induction false} OutcomesCheck(context: Context, stored: Stored, inventory: Inventory)
    requires context.Consistent() && Reports(stored, inventory)
    ensures var open := Elements(inventory.operations);
      (CheckOutcomes(context, open, Operations(context, stored, open), inventory.partial) == Passed) <==>
        !inventory.partial && stored.AllOpen() == {}
  {
    var open := Elements(inventory.operations);
    if !inventory.partial && open - Elements(context.operations) == {} {
      assert forall o | o in open :: o in open - Elements(context.operations) || o in Elements(context.operations);
      OutcomesExactly(context, stored, open);
    }
  }

  lemma {:induction false} AllPass(checks: seq<(Check, Outcome)>)
    requires |checks| == 5
    ensures (forall check | check in checks :: check.1 == Passed) <==>
      checks[0].1 == Passed && checks[1].1 == Passed && checks[2].1 == Passed && checks[3].1 == Passed && checks[4].1 == Passed
  {
  }

  lemma {:induction false} AllowedIsAllPassed(context: Context, basis: Basis, stored: Stored, inventory: Inventory, now: Time)
    ensures var captured, present := Elements(context.evidence), Elements(inventory.evidence);
      var open := Elements(inventory.operations);
      ReconcileWith(context, basis, stored, inventory, now).allowed <==>
        && CheckLineage(context, basis, now) == Passed && CheckHistory(captured, present) == Passed
        && CheckEvidence(context, captured, present, inventory.partial) == Passed
        && CheckOutcomes(context, open, Operations(context, stored, open), inventory.partial) == Passed
        && CheckConfiguration(inventory.partial) == Passed
  {
    AllPass(ReconcileWith(context, basis, stored, inventory, now).checks);
  }

  /** Restoration is allowed exactly when the context is current and complete, the whole stored evidence is within the
      bound and equal to what was captured, and no operation is unresolved. */
  lemma {:induction false} AllowedExactly(context: Context, basis: Basis, stored: Stored, inventory: Inventory, now: Time)
    requires context.Consistent() && Reports(stored, inventory)
    ensures ReconcileWith(context, basis, stored, inventory, now).allowed <==> Restorable(context, basis, stored, now)
  {
    AllowedIsAllPassed(context, basis, stored, inventory, now);
    OutcomesCheck(context, stored, inventory);
  }

  /** Evidence stores only grow, so after a complete capture the evidence condition means that nothing was recorded since. */
  lemma {:induction false} CapturedThenUnchanged(context: Context, basis: Basis, before: Stored, after: Stored, now: Time)
    requires context.Consistent() && context.status == Complete && Elements(context.evidence) == before.AllEvidence()
    requires before.AllEvidence() <= after.AllEvidence()
    ensures Restorable(context, basis, after, now) <==>
      Current(context, basis, now) && |after.AllEvidence()| == |before.AllEvidence()| && after.AllOpen() == {}
  {
    DistinctCount(context.evidence);
    SubsetCardinality(before.AllEvidence(), after.AllEvidence());
  }

  // ----- what the checks and operations say

  /** What each check reports. Beyond the bound only lineage, and what is missing from the pages read, can be told. */
  lemma {:induction false} ChecksExactly(context: Context, basis: Basis, stored: Stored, inventory: Inventory, now: Time)
    requires context.Consistent() && Reports(stored, inventory)
    ensures var r := ReconcileWith(context, basis, stored, inventory, now); var captured := Elements(context.evidence);
      && r.context == context.id && r.basis == basis && r.checkedAt == now
      && r.checks == [
           (AuthorityLineage, if context.basis == basis && context.createdAt <= now < context.expiresAt then Passed else Failed),
           (HistoryIntegrity, if captured <= Elements(inventory.evidence) then Passed else Failed),
           (EvidenceIntegrity, if context.status != Complete || r.partial then Unknown
                               else if captured == stored.AllEvidence() then Passed else Failed),
           (OperationOutcomes, if r.partial then Unknown
                               else if !(stored.AllOpen() <= Elements(context.operations)) then Failed
                               else if stored.AllOpen() != {} then Unknown else Passed),
           (ConfigurationIntegrity, if r.partial then Unknown else Passed)]
      && (!r.partial ==> Elements(inventory.evidence) == stored.AllEvidence())
  {
    MissingNothing(Elements(context.evidence), Elements(inventory.evidence));
    OutcomesSay(context, stored, inventory);
    EvidenceSays(context, stored, inventory);
  }

  lemma {:induction false} EvidenceSays(context: Context, stored: Stored, inventory: Inventory)
    requires Reports(stored, inventory)
    ensures !inventory.partial ==> Elements(inventory.evidence) == stored.AllEvidence()
    ensures var captured := Elements(context.evidence);
      CheckEvidence(context, captured, Elements(inventory.evidence), inventory.partial) ==
        if context.status != Complete || inventory.partial then Unknown
        else if captured == stored.AllEvidence() then Passed else Failed
  {
  }

  lemma {:induction false} MissingNothing<T>(a: set<T>, b: set<T>)
    ensures a - b == {} <==> a <= b
  {
    assert forall x | x in a :: x in b || x in a - b;
  }

  lemma {:induction false} OutcomesSay(context: Context, stored: Stored, inventory: Inventory)
    requires context.Consistent() && Reports(stored, inventory)
    ensures var open := Elements(inventory.operations);
      CheckOutcomes(context, open, Operations(context, stored, open), inventory.partial) ==
        if inventory.partial then Unknown
        else if !(stored.AllOpen() <= Elements(context.operations)) then Failed
        else if stored.AllOpen() != {} then Unknown else Passed
  {
    var open := Elements(inventory.operations);
    MissingNothing(open, Elements(context.operations));
    if !inventory.partial && open <= Elements(context.operations) {
      OutcomesExactly(context, stored, open);
    }
  }

  /** What became of an operation, by what is stored of it: an attempt that is gone never committed, a provider attempt
      committed if it succeeded and not if it failed, a cycle attempt committed however it ended, and anything else is unknown. */
  ghost predicate Became(stored: Stored, o: ReconciledOperation) {
    match o.kind
    case ProviderAttempt =>
      if o.id !in stored.providerAttempts then o.status == None && o.disposition == DidNotCommit
      else
        var status := stored.providerAttempts[o.id];
        && o.status == Some(status) && (o.disposition == Committed <==> status == "SUCCEEDED")
        && (o.disposition == DidNotCommit <==> status == "FAILED")
    case CycleAttempt =>
      if o.id !in stored.cycleAttempts then o.status == None && o.disposition == DidNotCommit
      else
        var status := stored.cycleAttempts[o.id];
        && o.status == Some(status) && o.disposition != DidNotCommit
        && (o.disposition == Committed <==>
              status == "COMPLETED" || status == "FAILED" || status == "BLOCKED" || status == "INTERRUPTED")
  }

  ghost predicate NamesOperation(context: Context, present: set<Unresolved>, o: ReconciledOperation) {
    exists u :: (u in context.operations || u in present) && u.kind == o.kind && u.id == o.id
  }

  lemma {:induction false} ResolvedBecame(stored: Stored, kind: OperationKind, id: Id)
    ensures Became(stored, Resolve(stored, kind, id))
  {
  }

  /** Every operation reported is one captured or found open, with what became of it. */
  lemma {:induction false} OperationsSay(context: Context, stored: Stored, present: set<Unresolved>)
    ensures forall o | o in Operations(context, stored, present) :: NamesOperation(context, present, o) && Became(stored, o)
  {
    forall o | o in Operations(context, stored, present)
      ensures NamesOperation(context, present, o) && Became(stored, o)
    {
      var named := Elements(context.operations) + present;
      var cycles, providers := Sorted(IdsOf(CycleAttempt, named)), Sorted(IdsOf(ProviderAttempt, named));
      var front, back := ResolveAll(stored, CycleAttempt, cycles), ResolveAll(stored, ProviderAttempt, providers);
      assert o in front + back;
      if o in front {
        ResolvedFrom(stored, CycleAttempt, cycles, named, o);
      } else {
        ResolvedFrom(stored, ProviderAttempt, providers, named, o);
      }
      var u :| u in named && u.kind == o.kind && u.id == o.id;
      assert u in context.operations || u in present;
    }
  }

  lemma {:induction false} ResolvedFrom(
    stored: Stored, kind: OperationKind, ids: seq<Id>, named: set<Unresolved>, o: ReconciledOperation)
    requires o in ResolveAll(stored, kind, ids) && Elements(ids) == IdsOf(kind, named)
    ensures Became(stored, o) && exists u :: u in named && u.kind == o.kind && u.id == o.id
  {
    var i :| 0 <= i < |ids| && Resolve(stored, kind, ids[i]) == o;
    ResolvedBecame(stored, kind, ids[i]);
    assert ids[i] in Elements(ids);
  }

  /** When nothing open is missing from the context, every captured operation is reported. */
  lemma {:induction false} EveryOperationReported(context: Context, stored: Stored, present: set<Unresolved>, u: Unresolved)
    requires context.Consistent() && present <= Elements(context.operations) && u in context.operations
    ensures exists o :: o in Operations(context, stored, present) && o.kind == u.kind && o.id == u.id
  {
    NothingCutOff(context, stored, present);
    var ids := Sorted(IdsOf(u.kind, Elements(context.operations)));
    assert u in Elements(context.operations) && u.id in IdsOf(u.kind, Elements(context.operations));
    assert u.id in Elements(ids);
    var i :| 0 <= i < |ids| && ids[i] == u.id;
    var o := Resolve(stored, u.kind, u.id);
    assert ResolveAll(stored, u.kind, ids)[i] == o;
    assert o in ResolveAll(stored, u.kind, ids) && o in Operations(context, stored, present);
  }
}
