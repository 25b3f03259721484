/** The authority of the system: one versioned row, its audit trail, and the artifacts recovery depends on. Each request
    is one atomic step under the lock of the row. */
module AuthorityModel {
  import opened Basics
  import opened AuthorityRecord
  import opened SecurityPolicy
  import opened RecoveryInventory
  import opened RecoveryReconciliation
  import opened Authorizations

  type Version = v: int | v >= 1 witness 1

  type EpochId = id: Id | id.number != 0 witness Id(1)

  /** One row of the append-only audit trail. */
  datatype Transition = Transition(
    id: Id, previous: SecurityState, next: SecurityState, actor: Actor, reason: Reason, version: int, epoch: Id, createdAt: Time,
    related: seq<Id>)

  datatype CaptureRequest = CaptureRequest(id: Id, expectedBasis: Basis, expiresAt: Time)

  datatype ContextRow = ContextRow(
    id: Id, incident: Incident, epoch: Id, version: int, createdAt: Time, expiresAt: Time,
    document: Context, command: CaptureRequest)

  datatype ContextAudit = ContextAudit(epoch: Id, version: int, createdAt: Time)

  datatype System = System(
    record: Record, trail: seq<Transition>, contexts: map<Id, ContextRow>, contextAudit: map<Id, ContextAudit>,
    store: Store, history: Stored)
  {
    /** The evidence and attempts recovery sees; the trail is one kind of evidence. */
    function Stored(): Stored {
      history.(transitions := set i | 0 <= i < |trail| :: trail[i].id)
    }
  }

  predicate IdUsed(trail: seq<Transition>, id: Id) {
    exists i | 0 <= i < |trail| :: trail[i].id == id
  }

  // ----- ordinary transitions

  datatype TransitionRequest = TransitionRequest(
    expectedVersion: int, requested: SecurityState, actor: Actor, actorId: string, reason: Reason, related: seq<Id>, id: Id)

  datatype Done = Done(state: SecurityState, version: int, transition: Option<Id>, epoch: Id)

  function TransitionSpec(s: System, req: TransitionRequest, now: Time): (System, Result<Done>) {
    var r := s.record;
    if req.expectedVersion < 1 || Blank(req.actorId) || r.pending || r.epoch.number == 0 || r.version < 1 then (s, Err(Denied))
    else if r.version != req.expectedVersion then (s, Err(Conflict))
    else if req.requested == r.state then (s, Ok(Done(r.state, r.version, None, r.epoch)))
    else if !ValidTransition(r.state, req.requested) || !Authorized(r.state, req.requested, req.actor, req.reason)
      || !Capable(r.state, req.requested)
    then (s, Err(Denied))
    else if IdUsed(s.trail, req.id) then (s, Err(Conflict))
    else
      var row := Transition(req.id, r.state, req.requested, req.actor, req.reason, r.version + 1, r.epoch, now, req.related);
      (s.(record := r.(state := req.requested, version := r.version + 1), trail := s.trail + [row]),
       Ok(Done(req.requested, r.version + 1, Some(req.id), r.epoch)))
  }

  // ----- startup

  datatype StartupMode = Fresh | Continuing | Recovery

  /** The checks made at startup; the origin of a bootstrap is checked when the row is loaded. */
  predicate Startable(r: Record) {
    && r.epoch.number != 0 && r.version >= 1
    && (r.validationPending ==> r.pending && r.fromVersion.Some? && r.version > r.fromVersion.value)
  }

  predicate Pristine(s: System, otherHistory: bool) {
    s.record.state == Normal && s.record.version == 1 && !s.record.pending && !s.record.validationPending
    && s.trail == [] && !otherHistory
  }

  /** Raise the recovery fence. */
  function Fenced(r: Record, now: Time): Record {
    r.(pending := true, startedAt := Some(now), fromState := Some(r.state), fromVersion := Some(r.version), version := r.version + 1)
  }

  function InitializeSpec(s: System, mode: StartupMode, otherHistory: bool, now: Time): (System, Result<Loaded>) {
    if !Startable(s.record) || (mode == Fresh && !Pristine(s, otherHistory)) then (s, Err(Invalid))
    else
      var t := if mode == Recovery && !s.record.pending then s.(record := Fenced(s.record, now)) else s;
      match Load(t.record)
      case None => (t, Err(Invalid))
      case Some(current) => (t, Ok(current))
  }

  // ----- reconstruction

  /** The authority recorded in a backup's manifest. */
  datatype Manifest = Manifest(state: SecurityState, version: Version, epoch: EpochId)

  function EstablishFenceSpec(s: System, m: Manifest, now: Time): (System, Result<()>) {
    var r := s.record;
    if r.state != Normal || r.version != 1 || r.pending || r.startedAt.Some? || r.fromState.Some? || r.fromVersion.Some?
      || r.validationPending
    then (s, Err(Invalid))
    else (s.(record := Record(m.state, m.version + 1, m.epoch, true, Some(now), Some(m.state), Some(m.version), true)), Ok(()))
  }

  /** The other checks on the reconstructed database are decided by the caller. */
  function PublishReadinessSpec(s: System, m: Manifest, otherChecks: bool): (System, Result<()>) {
    var r := s.record;
    if r.state != m.state || r.version != m.version + 1 || r.epoch != m.epoch || !r.pending || r.startedAt == None
      || r.fromState != Some(m.state) || r.fromVersion != Some(m.version) || !r.validationPending || !otherChecks
    then (s, Err(Invalid))
    else (s.(record := r.(validationPending := false)), Ok(()))
  }

  /** Load the archived rows of every other table behind the fence. A row that is already there makes the load fail as a whole. */
  function ImportSpec(s: System, archive: System): System {
    if s.record.validationPending && s.trail == [] && archive.contexts.Keys !! s.contexts.Keys
      && archive.contextAudit.Keys !! s.contextAudit.Keys && archive.store.grants.Keys !! s.store.grants.Keys
      && archive.store.executions.Keys !! s.store.executions.Keys && archive.store.audit.Keys !! s.store.audit.Keys
    then
      s.(trail := archive.trail, contexts := s.contexts + archive.contexts, contextAudit := s.contextAudit + archive.contextAudit,
         store := Store(s.store.grants + archive.store.grants, s.store.executions + archive.store.executions,
                        s.store.audit + archive.store.audit),
         history := archive.history)
    else s
  }

  // ----- recovery contexts

  function IncidentOf(basis: Basis): Option<Incident> {
    match basis.origin
    case None => None
    case Some(origin) => Some(Incident(basis.epoch, origin))
  }

  /** The stored context, when its columns, command and audit row agree. */
  function DecodeContext(s: System, row: ContextRow): Option<Context> {
    var d, c := row.document, row.command;
    if !d.Consistent() || d.id != row.id || d.incident != row.incident || Some(d.incident) != IncidentOf(d.basis)
      || d.basis.epoch != row.epoch || d.basis.version != row.version || d.createdAt != row.createdAt
      || d.expiresAt != row.expiresAt || c.id != d.id || c.expectedBasis != d.basis || c.expiresAt != d.expiresAt
      || row.id !in s.contextAudit || s.contextAudit[row.id] != ContextAudit(row.epoch, row.version, row.createdAt)
    then None
    else Some(d)
  }

  function ContextOf(req: CaptureRequest, basis: Basis, inventory: Inventory, now: Time): Context
    requires basis.origin.Some?
  {
    Context(req.id, Incident(basis.epoch, basis.origin.value), basis, inventory.evidence, inventory.operations,
      if inventory.partial then Partial else Complete, now, req.expiresAt)
  }

  function AddContext(s: System, req: CaptureRequest, context: Context): System {
    var row := ContextRow(req.id, context.incident, context.basis.epoch, context.basis.version, context.createdAt,
                          context.expiresAt, context, req);
    s.(contexts := s.contexts[req.id := row],
       contextAudit := s.contextAudit[req.id := ContextAudit(row.epoch, row.version, row.createdAt)])
  }

  /** Capture what is stored now, or return what the same request captured before. */
  function CaptureSpec(s: System, req: CaptureRequest, inventory: Inventory, now: Time): (System, Result<Context>) {
    if Load(s.record) == None then (s, Err(Denied))
    else if s.record.validationPending then (s, Err(Conflict))
    else match BasisOf(s.record)
    case None => (s, Err(Invalid))
    case Some(basis) =>
      if req.id in s.contexts then
        match DecodeContext(s, s.contexts[req.id])
        case None => (s, Err(Invalid))
        case Some(historical) => if s.contexts[req.id].command != req then (s, Err(Conflict)) else (s, Ok(historical))
      else if basis != req.expectedBasis || !basis.pending || req.expiresAt <= now then (s, Err(Conflict))
      else
        var context := ContextOf(req, basis, inventory, now);
        if !context.Consistent() || req.id in s.contextAudit then (s, Err(Conflict))
        else (AddContext(s, req, context), Ok(context))
  }

  // ----- restoration

  datatype RestorationRequest = RestorationRequest(
    restoration: Id, context: Id, operator: Id, execution: Id, expectedEpoch: Id, expectedVersion: int)

  /** The authorizations presented are valid now, under this epoch, for recovery of this context. */
  predicate Authorizes(s: System, req: RestorationRequest, epoch: Id, now: Time) {
    && req.operator in s.store.grants && req.execution in s.store.executions
    && var grant := DecodeGrant(s.store, s.store.grants[req.operator]);
       var execution := DecodeExecution(s.store, s.store.executions[req.execution]);
       && grant.Some? && execution.Some? && ValidExecution(execution.value, grant.value, epoch, now)
       && grant.value.context == Some(req.context) && execution.value.context == Some(req.context)
       && execution.value.capability == RecoveryAction
  }

  /** Every precondition of a restoration but the reconciliation. */
  predicate Presentable(s: System, req: RestorationRequest, now: Time) {
    var basis := BasisOf(s.record);
    && basis.Some? && !s.record.validationPending && basis.value.pending
    && basis.value.epoch == req.expectedEpoch && basis.value.version == req.expectedVersion
    && req.context in s.contexts && DecodeContext(s, s.contexts[req.context]).Some?
    && Authorizes(s, req, basis.value.epoch, now)
  }

  ghost predicate Prepared(s: System, req: RestorationRequest, now: Time) {
    && Presentable(s, req, now)
    && Restorable(DecodeContext(s, s.contexts[req.context]).value, BasisOf(s.record).value, s.Stored(), now)
  }

  function Restored(r: Record): Record {
    r.(state := Normal, version := r.version + 1, pending := false, startedAt := None, fromState := None, fromVersion := None)
  }

  function RestorationRow(s: System, req: RestorationRequest, now: Time, id: Id): Transition {
    Transition(id, RecoveryRequired, Normal, RecoveryService, RecoveryVerified, s.record.version + 1, s.record.epoch, now,
      [req.restoration, req.context, req.operator, req.execution])
  }

  ghost function CompleteSpec(s: System, req: RestorationRequest, now: Time, id: Id): (System, Result<Transition>) {
    if !Prepared(s, req, now) || IdUsed(s.trail, id) then (s, Err(Denied))
    else
      var row := RestorationRow(s, req, now, id);
      (s.(record := Restored(s.record), trail := s.trail + [row]), Ok(row))
  }

  // ----- epoch replacement

  datatype ReplaceRequest = ReplaceRequest(
    replacement: Id, restoration: Id, restorationTransition: Id, expectedEpoch: Id, expectedVersion: int, newEpoch: EpochId)

  /** The audit row proves a restoration of the epoch. */
  predicate ProvesRestoration(trail: seq<Transition>, req: ReplaceRequest) {
    exists i | 0 <= i < |trail| ::
      && trail[i].id == req.restorationTransition && trail[i].previous == RecoveryRequired && trail[i].next == Normal
      && trail[i].epoch == req.expectedEpoch && req.restoration in trail[i].related
  }

  function ReplaceSpec(s: System, req: ReplaceRequest, now: Time, id: Id): (System, Result<Transition>) {
    var current := Load(s.record);
    if req.newEpoch == req.expectedEpoch then (s, Err(Invalid))
    else if current == None || current.value.state != Normal || current.value.pending || current.value.epoch != req.expectedEpoch
      || current.value.version != req.expectedVersion || !ProvesRestoration(s.trail, req) || IdUsed(s.trail, id)
    then (s, Err(Denied))
    else
      var row := Transition(id, Normal, Normal, RecoveryService, RecoveryVerified, s.record.version + 1, req.newEpoch, now,
                            [req.replacement, req.restoration, req.restorationTransition, req.expectedEpoch]);
      (s.(record := s.record.(epoch := req.newEpoch, version := s.record.version + 1), trail := s.trail + [row]), Ok(row))
  }

  /** Restore and replace the epoch together, or neither. */
  ghost function CompleteReconstructionSpec(
    s: System, req: RestorationRequest, replacement: Id, newEpoch: EpochId, now: Time, id: Id, secondId: Id)
    : (System, Result<Transition>)
  {
    var (restored, first) := CompleteSpec(s, req, now, id);
    if first.Err? then (s, first)
    else
      var (replaced, second) := ReplaceSpec(restored,
        ReplaceRequest(replacement, req.restoration, id, first.value.epoch, first.value.version, newEpoch), now, secondId);
      if second.Err? then (s, second) else (replaced, second)
  }

  // ----- authorizations, under the authority of the moment

  function IssueGrantSpec(s: System, req: GrantRequest, now: Time): (System, Result<Grant>) {
    match Load(s.record)
    case None => (s, Err(Denied))
    case Some(current) =>
      var (store, r) := IssueGrant(s.store, current, req, now);
      (s.(store := store), r)
  }

  function IssueExecutionSpec(s: System, req: ExecutionRequest, now: Time): (System, Result<Execution>) {
    match Load(s.record)
    case None => (s, Err(Denied))
    case Some(current) =>
      var (store, r) := IssueExecution(s.store, current, req, now);
      (s.(store := store), r)
  }

  function RequireExecution(s: System, id: Id, now: Time, context: Option<Id>, capability: Option<Capability>): Result<Execution> {
    match Load(s.record)
    case None => Err(Denied)
    case Some(current) => RequireCurrent(s.store, current, id, now, context, capability)
  }
}
