/** The service object: one method per request, each a transaction under the lock of the security-state row. */
module Authority {
  import opened Basics
  import opened AuthorityRecord
  import opened SecurityPolicy
  import opened RecoveryInventory
  import opened RecoveryReconciliation
  import opened Authorizations
  import opened AuthorityModel
  import opened AuthorityInvariant

  class AuthorityService {
    var record: Record
    var trail: seq<Transition>
    var contexts: map<Id, ContextRow>
    var contextAudit: map<Id, ContextAudit>
    var store: Store
    var history: Stored

    function Contents(): System
      reads this
    {
      System(record, trail, contexts, contextAudit, store, history)
    }

    ghost predicate Valid()
      reads this
    {
      SystemSound(Contents())
    }

    /** A newly migrated database. */
    constructor (epoch: EpochId)
      ensures Valid() && trail == [] && record == Record(Normal, 1, epoch, false, None, None, None, false)
    {
      record := Record(Normal, 1, epoch, false, None, None, None, false);
      trail, contexts, contextAudit := [], map[], map[];
      store := Store(map[], map[], map[]);
      history := Stored({}, {}, {}, {}, {}, map[], map[]);
    }

    /** Compare the version, move to the requested state and append the audit row. */
    method TransitionState(req: TransitionRequest, now: Time) returns (r: Result<Done>)
      requires Valid()
      modifies this
      ensures Valid() && (Contents(), r) == TransitionSpec(old(Contents()), req, now)
    {
      TransitionKeepsSound(Contents(), req, now);
      if req.expectedVersion < 1 || Blank(req.actorId) || record.pending {
        return Err(Denied);
      }
      var current, epoch := record.state, record.epoch;
      if record.version != req.expectedVersion {
        return Err(Conflict);
      }
      if req.requested == current {
        return Ok(Done(current, record.version, None, epoch));
      }
      if !ValidTransition(current, req.requested) || !Authorized(current, req.requested, req.actor, req.reason)
        || !Capable(current, req.requested) {
        return Err(Denied);
      }
      if IdUsed(trail, req.id) {
        return Err(Conflict);
      }
      var version := record.version + 1;
      record := record.(state := req.requested, version := version);
      trail := trail + [Transition(req.id, current, req.requested, req.actor, req.reason, version, epoch, now, req.related)];
      return Ok(Done(req.requested, version, Some(req.id), epoch));
    }

    method Initialize(mode: StartupMode, otherHistory: bool, now: Time) returns (r: Result<Loaded>)
      requires Valid()
      modifies this
      ensures Valid() && (Contents(), r) == InitializeSpec(old(Contents()), mode, otherHistory, now)
    {
      InitializeKeepsSound(Contents(), mode, otherHistory, now);
      if !Startable(record) || (mode == Fresh && !Pristine(Contents(), otherHistory)) {
        return Err(Invalid);
      }
      if mode == Recovery && !record.pending {
        record := record.(pending := true, startedAt := Some(now));
        record := record.(fromState := Some(record.state), fromVersion := Some(record.version));
        record := record.(version := record.version + 1);
      }
      var current := Load(record);
      return Ok(current.value);
    }

    method EstablishReconstructionFence(m: Manifest, now: Time) returns (r: Result<()>)
      requires Valid()
      modifies this
      ensures Valid() && (Contents(), r) == EstablishFenceSpec(old(Contents()), m, now)
    {
      EstablishFenceKeepsSound(Contents(), m, now);
      if record.state != Normal || record.version != 1 || record.pending || record.startedAt.Some? || record.fromState.Some?
        || record.fromVersion.Some? || record.validationPending
      {
        return Err(Invalid);
      }
      record := record.(state := m.state, version := m.version + 1, epoch := m.epoch, pending := true, startedAt := Some(now),
                        fromState := Some(m.state), fromVersion := Some(m.version), validationPending := true);
      return Ok(());
    }

    method PublishReconstructionReadiness(m: Manifest, otherChecks: bool) returns (r: Result<()>)
      requires Valid()
      modifies this
      ensures Valid() && (Contents(), r) == PublishReadinessSpec(old(Contents()), m, otherChecks)
    {
      PublishReadinessKeepsSound(Contents(), m, otherChecks);
      if record.state != m.state || record.version != m.version + 1 || record.epoch != m.epoch || !record.pending
        || record.startedAt == None || record.fromState != Some(m.state) || record.fromVersion != Some(m.version)
        || !record.validationPending || !otherChecks
      {
        return Err(Invalid);
      }
      record := record.(validationPending := false);
      return Ok(());
    }

    /** Capture the inventory of the moment for the expected basis. */
    method CaptureContext(req: CaptureRequest, now: Time) returns (r: Result<Context>, ghost inventory: Inventory)
      requires Valid()
      modifies this
      ensures Reports(old(Contents()).Stored(), inventory)
      ensures Valid() && (Contents(), r) == CaptureSpec(old(Contents()), req, inventory, now)
    {
      var found := ReadInventory(Contents().Stored());
      inventory := found;
      CaptureKeepsSound(Contents(), req, found, now);
      if record.validationPending {
        return Err(Conflict), found;
      }
      var basis := BasisOf(record);
      if basis == None {
        return Err(Invalid), found;
      }
      if req.id in contexts {
        var historical := DecodeContext(Contents(), contexts[req.id]);
        if historical == None {
          return Err(Invalid), found;
        }
        if contexts[req.id].command != req {
          return Err(Conflict), found;
        }
        return Ok(historical.value), found;
      }
      if basis.value != req.expectedBasis || !basis.value.pending || req.expiresAt <= now {
        return Err(Conflict), found;
      }
      var context := ContextOf(req, basis.value, found, now);
      if !context.Consistent() || req.id in contextAudit {
        return Err(Conflict), found;
      }
      contexts := contexts[req.id := ContextRow(req.id, context.incident, context.basis.epoch, context.basis.version,
                             context.createdAt, context.expiresAt, context, req)];
      contextAudit := contextAudit[req.id := ContextAudit(context.basis.epoch, context.basis.version, context.createdAt)];
      return Ok(context), found;
    }

    method IssueOperator(req: GrantRequest, now: Time) returns (r: Result<Grant>)
      requires Valid()
      modifies this`store
      ensures Valid() && (Contents(), r) == IssueGrantSpec(old(Contents()), req, now)
    {
      ghost var before := Contents();
      var current := Load(record).value;
      IssueGrantKeepsSound(store, current, req, now);
      var issued := IssueGrant(store, current, req, now);
      store, r := issued.0, issued.1;
      OtherRowsKept(before, Contents());
    }

    method IssueExecutionAuthorization(req: ExecutionRequest, now: Time) returns (r: Result<Execution>)
      requires Valid()
      modifies this`store
      ensures Valid() && (Contents(), r) == IssueExecutionSpec(old(Contents()), req, now)
    {
      ghost var before := Contents();
      var current := Load(record).value;
      IssueExecutionKeepsSound(store, current, req, now);
      var issued := IssueExecution(store, current, req, now);
      store, r := issued.0, issued.1;
      OtherRowsKept(before, Contents());
    }

    /** All preconditions of a restoration, checked in one transaction. */
    method PrepareRestoration(req: RestorationRequest, now: Time) returns (ok: bool)
      requires Valid()
      ensures ok <==> Prepared(Contents(), req, now)
    {
      if !Presentable(Contents(), req, now) {
        return false;
      }
      var context := DecodeContext(Contents(), contexts[req.context]).value;
      var verdict := Reconcile(context, BasisOf(record).value, Contents().Stored(), now);
      return verdict.allowed;
    }

    /** Clear the fence and append the audit row. */
    method CompleteRestoration(req: RestorationRequest, now: Time, id: Id) returns (r: Result<Transition>)
      requires Valid()
      modifies this
      ensures Valid() && (Contents(), r) == CompleteSpec(old(Contents()), req, now, id)
    {
      CompleteKeepsSound(Contents(), req, now, id);
      var ok := PrepareRestoration(req, now);
      if !ok || IdUsed(trail, id) {
        return Err(Denied);
      }
      var row := RestorationRow(Contents(), req, now, id);
      record := record.(state := Normal, version := record.version + 1);
      record := record.(pending := false, startedAt := None, fromState := None, fromVersion := None);
      trail := trail + [row];
      return Ok(row);
    }

    /** Give the restored authority a new epoch. */
    method ReplaceEpoch(req: ReplaceRequest, now: Time, id: Id) returns (r: Result<Transition>)
      requires Valid()
      modifies this
      ensures Valid() && (Contents(), r) == ReplaceSpec(old(Contents()), req, now, id)
    {
      ReplaceKeepsSound(Contents(), req, now, id);
      if req.newEpoch == req.expectedEpoch {
        return Err(Invalid);
      }
      var current := Load(record).value;
      if current.state != Normal || current.pending || current.epoch != req.expectedEpoch
        || current.version != req.expectedVersion || !ProvesRestoration(trail, req) || IdUsed(trail, id)
      {
        return Err(Denied);
      }
      var version := current.version + 1;
      record := record.(epoch := req.newEpoch, version := version);
      var row := Transition(id, Normal, Normal, RecoveryService, RecoveryVerified, version, req.newEpoch, now,
                            [req.replacement, req.restoration, req.restorationTransition, req.expectedEpoch]);
      trail := trail + [row];
      return Ok(row);
    }

    /** Restore and replace the epoch in one transaction; a failure of the second part undoes the first. */
    method CompleteReconstruction(
      req: RestorationRequest, replacement: Id, newEpoch: EpochId, now: Time, id: Id, secondId: Id)
      returns (r: Result<Transition>)
      requires Valid()
      modifies this
      ensures Valid()
      ensures (Contents(), r) == CompleteReconstructionSpec(old(Contents()), req, replacement, newEpoch, now, id, secondId)
    {
      var before := Contents();
      var first := CompleteRestoration(req, now, id);
      if first.Err? {
        return first;
      }
      var second := ReplaceEpoch(
        ReplaceRequest(replacement, req.restoration, id, first.value.epoch, first.value.version, newEpoch), now, secondId);
      if second.Err? {
        record, trail := before.record, before.trail;
      }
      return second;
    }
  }
}
