/** Operator grants and execution authorizations: issuing them, reading them back, and accepting them. */
module Authorizations {
  import opened Basics
  import opened AuthorityRecord

  datatype Capability = RecoveryAction | AuthorityAdministration

  datatype ScopeItem = ContextScope(target: Id) | SecurityStateScope | TaskScope(target: Id)

  datatype BasisKind = ContextBasis | TransitionBasis | CommandBasis

  datatype Reference = Reference(kind: BasisKind, record: Id)

  /** A bounded grant to an operator. */
  datatype Grant = Grant(
    id: Id, principal: string, capability: Capability, scope: seq<ScopeItem>, epoch: Id, basis: seq<Reference>,
    issuedAt: Time, expiresAt: Time, replay: Id, context: Option<Id>)
  {
    predicate Consistent() {
      && issuedAt < expiresAt && Distinct(scope) && Distinct(basis)
      && (context.Some? ==> ContextScope(context.value) in scope && Reference(ContextBasis, context.value) in basis)
    }
  }

  datatype GrantRequest = GrantRequest(
    id: Id, expectedEpoch: Id, principal: string, capability: Capability, scope: seq<ScopeItem>, basis: seq<Reference>,
    expiresAt: Time, replay: Id, context: Option<Id>)

  /** The authorization of one execution under a grant. */
  datatype Execution = Execution(
    id: Id, execution: Id, operator: Id, capability: Capability, scope: seq<ScopeItem>, epoch: Id,
    issuedAt: Time, expiresAt: Time, replay: Id, context: Option<Id>)
  {
    predicate Consistent() {
      issuedAt < expiresAt && Distinct(scope) && (context.Some? ==> ContextScope(context.value) in scope)
    }
  }

  datatype ExecutionRequest = ExecutionRequest(
    id: Id, expectedEpoch: Id, execution: Id, operator: Id, scope: seq<ScopeItem>, expiresAt: Time, replay: Id,
    context: Option<Id>)

  datatype GrantRow = GrantRow(
    id: Id, epoch: Id, version: int, issuedAt: Time, expiresAt: Time, replay: Id, context: Option<Id>,
    document: Grant, command: GrantRequest)

  datatype ExecutionRow = ExecutionRow(
    id: Id, execution: Id, operator: Id, epoch: Id, version: int, issuedAt: Time, expiresAt: Time, replay: Id,
    context: Option<Id>, document: Execution, command: ExecutionRequest)

  datatype Artifact = OperatorArtifact | ExecutionArtifact

  datatype Audit = Audit(artifact: Artifact, epoch: Id, version: int, createdAt: Time)

  /** One audit row per artifact: grants and executions share its identities. */
  datatype Store = Store(grants: map<Id, GrantRow>, executions: map<Id, ExecutionRow>, audit: map<Id, Audit>)

  // ----- validation

  predicate ValidGrant(grant: Grant, epoch: Id, now: Time, context: Option<Id>) {
    && grant.Consistent() && grant.epoch == epoch && grant.issuedAt <= now < grant.expiresAt
    && (context.Some? ==> grant.context == context)
  }

  predicate ValidExecution(execution: Execution, grant: Grant, epoch: Id, now: Time) {
    && execution.Consistent() && ValidGrant(grant, epoch, now, execution.context)
    && execution.epoch == grant.epoch && execution.operator == grant.id && execution.capability == grant.capability
    && Elements(execution.scope) <= Elements(grant.scope)
    && grant.issuedAt <= execution.issuedAt && execution.expiresAt <= grant.expiresAt
    && execution.issuedAt <= now < execution.expiresAt
  }

  // ----- reading rows back

  /** The stored grant, when its columns, command and audit row agree. */
  function DecodeGrant(store: Store, row: GrantRow): Option<Grant> {
    var d, c := row.document, row.command;
    if !d.Consistent() || d.id != row.id || d.epoch != row.epoch || d.issuedAt != row.issuedAt || d.expiresAt != row.expiresAt
      || d.replay != row.replay || d.context != row.context || c.id != d.id || c.expectedEpoch != d.epoch
      || c.expiresAt != d.expiresAt || c.replay != d.replay || c.context != d.context
      || row.id !in store.audit || store.audit[row.id] != Audit(OperatorArtifact, row.epoch, row.version, row.issuedAt)
    then None
    else Some(d)
  }

  function DecodeExecution(store: Store, row: ExecutionRow): Option<Execution> {
    var d, c := row.document, row.command;
    if !d.Consistent() || d.id != row.id || d.execution != row.execution || d.operator != row.operator || d.epoch != row.epoch
      || d.issuedAt != row.issuedAt || d.expiresAt != row.expiresAt || d.replay != row.replay || d.context != row.context
      || c.id != d.id || c.execution != d.execution || c.operator != d.operator || c.expectedEpoch != d.epoch
      || c.expiresAt != d.expiresAt || c.replay != d.replay || c.context != d.context
      || row.id !in store.audit || store.audit[row.id] != Audit(ExecutionArtifact, row.epoch, row.version, row.issuedAt)
    then None
    else Some(d)
  }

  // ----- issuing

  function GrantOf(request: GrantRequest, epoch: Id, now: Time): Grant {
    Grant(request.id, request.principal, request.capability, request.scope, epoch, request.basis, now, request.expiresAt,
      request.replay, request.context)
  }

  function AddGrant(store: Store, request: GrantRequest, current: Loaded, now: Time): Store {
    var grant := GrantOf(request, current.epoch, now);
    store.(grants := store.grants[request.id := GrantRow(request.id, current.epoch, current.version, now, request.expiresAt,
                                                         request.replay, request.context, grant, request)],
           audit := store.audit[request.id := Audit(OperatorArtifact, current.epoch, current.version, now)])
  }

  /** Issue a grant under the current authority, or return what the same request issued before. */
  function IssueGrant(store: Store, current: Loaded, request: GrantRequest, now: Time): (Store, Result<Grant>) {
    if request.id in store.grants then
      var row := store.grants[request.id];
      match DecodeGrant(store, row)
      case None => (store, Err(Invalid))
      case Some(historical) => if row.command != request then (store, Err(Conflict)) else (store, Ok(historical))
    else if current.validationPending && (request.context.Some? || request.capability == RecoveryAction) then (store, Err(Conflict))
    else if request.expectedEpoch != current.epoch then (store, Err(Conflict))
    else
      var grant := GrantOf(request, current.epoch, now);
      if !ValidGrant(grant, current.epoch, now, request.context) || request.id in store.audit then (store, Err(Conflict))
      else (AddGrant(store, request, current, now), Ok(grant))
  }

  function ExecutionOf(request: ExecutionRequest, capability: Capability, epoch: Id, now: Time): Execution {
    Execution(request.id, request.execution, request.operator, capability, request.scope, epoch, now, request.expiresAt,
      request.replay, request.context)
  }

  function AddExecution(store: Store, request: ExecutionRequest, execution: Execution, current: Loaded, now: Time): Store {
    store.(executions := store.executions[
             request.id := ExecutionRow(request.id, request.execution, request.operator, current.epoch, current.version, now,
                                        request.expiresAt, request.replay, request.context, execution, request)],
           audit := store.audit[request.id := Audit(ExecutionArtifact, current.epoch, current.version, now)])
  }

  function IssueExecution(store: Store, current: Loaded, request: ExecutionRequest, now: Time): (Store, Result<Execution>) {
    if request.id in store.executions then
      var row := store.executions[request.id];
      match DecodeExecution(store, row)
      case None => (store, Err(Invalid))
      case Some(historical) => if row.command != request then (store, Err(Conflict)) else (store, Ok(historical))
    else if request.expectedEpoch != current.epoch then (store, Err(Conflict))
    else if request.operator !in store.grants then (store, Err(Invalid))
    else match DecodeGrant(store, store.grants[request.operator])
      case None => (store, Err(Invalid))
      case Some(grant) =>
        if current.validationPending && (request.context.Some? || grant.context.Some? || grant.capability == RecoveryAction)
        then (store, Err(Conflict))
        else
          var execution := ExecutionOf(request, grant.capability, current.epoch, now);
          if !ValidExecution(execution, grant, current.epoch, now) || request.id in store.audit then (store, Err(Conflict))
          else (AddExecution(store, request, execution, current, now), Ok(execution))
  }

  /** Accept an execution for an effect under the current authority. */
  function RequireCurrent(
    store: Store, current: Loaded, id: Id, now: Time, context: Option<Id>, capability: Option<Capability>): Result<Execution>
  {
    if id !in store.executions then Err(Invalid)
    else match DecodeExecution(store, store.executions[id])
      case None => Err(Invalid)
      case Some(execution) =>
        if execution.operator !in store.grants then Err(Invalid)
        else match DecodeGrant(store, store.grants[execution.operator])
          case None => Err(Invalid)
          case Some(grant) =>
            if !ValidExecution(execution, grant, current.epoch, now) then Err(Conflict)
            else if context.Some? && execution.context != context then Err(Conflict)
            else if capability.Some? && execution.capability != capability.value then Err(Conflict)
            else Ok(execution)
  }

  // ----- what every reachable store satisfies

  /** The execution stays within its grant. */
  ghost predicate Contained(execution: Execution, grant: Grant) {
    && execution.operator == grant.id && execution.epoch == grant.epoch && execution.capability == grant.capability
    && Elements(execution.scope) <= Elements(grant.scope)
    && grant.issuedAt <= execution.issuedAt < execution.expiresAt <= grant.expiresAt
    && (execution.context.Some? ==> grant.context == execution.context)
  }

  ghost predicate GrantSound(store: Store, id: Id)
    requires id in store.grants
  {
    store.grants[id].id == id && DecodeGrant(store, store.grants[id]) == Some(store.grants[id].document)
  }

  ghost predicate ExecutionSound(store: Store, id: Id)
    requires id in store.executions
  {
    var row := store.executions[id];
    && row.id == id && DecodeExecution(store, row) == Some(row.document)
    && row.document.operator in store.grants && Contained(row.document, store.grants[row.document.operator].document)
  }

  ghost predicate StoreSound(store: Store) {
    && (forall id {:trigger GrantSound(store, id)} | id in store.grants :: GrantSound(store, id))
    && (forall id {:trigger ExecutionSound(store, id)} | id in store.executions :: ExecutionSound(store, id))
  }

  /** Issued artifacts are never changed. */
  ghost predicate StoreGrows(a: Store, b: Store) {
    && (forall id | id in a.grants :: id in b.grants && b.grants[id] == a.grants[id])
    && (forall id | id in a.executions :: id in b.executions && b.executions[id] == a.executions[id])
  }

  lemma {:induction false} GrantStaysSound(store: Store, more: Store, id: Id)
    requires id in store.grants && GrantSound(store, id)
    requires id in more.grants && more.grants[id] == store.grants[id] && id in more.audit && more.audit[id] == store.audit[id]
    ensures GrantSound(more, id)
  {
  }

  lemma {:induction false} ExecutionStaysSound(store: Store, more: Store, id: Id)
    requires id in store.executions && ExecutionSound(store, id) && StoreGrows(store, more)
    requires id in more.executions && more.executions[id] == store.executions[id]
    requires id in more.audit && more.audit[id] == store.audit[id]
    ensures ExecutionSound(more, id)
  {
  }

  lemma {:induction false} GrantAudited(store: Store, id: Id)
    requires StoreSound(store)
    ensures id in store.grants ==> id in store.audit && store.audit[id].artifact == OperatorArtifact
    ensures id in store.executions ==> id in store.audit && store.audit[id].artifact == ExecutionArtifact
  {
    assert id in store.grants ==> GrantSound(store, id);
    assert id in store.executions ==> ExecutionSound(store, id);
  }

  /** Adding rows for an unused identity keeps every other row sound. */
  lemma {:induction false} OthersStaySound(store: Store, more: Store, id: Id)
    requires StoreSound(store) && StoreGrows(store, more) && id !in store.audit
    requires forall other | other != id :: other in store.audit ==> other in more.audit && more.audit[other] == store.audit[other]
    requires more.grants.Keys <= store.grants.Keys + {id} && more.executions.Keys <= store.executions.Keys + {id}
    ensures forall other | other in more.grants && other != id :: GrantSound(more, other)
    ensures forall other | other in more.executions && other != id :: ExecutionSound(more, other)
  {
    forall other | other in more.grants && other != id
      ensures GrantSound(more, other)
    {
      assert other in store.grants && GrantSound(store, other);
      GrantStaysSound(store, more, other);
    }
    forall other | other in more.executions && other != id
      ensures ExecutionSound(more, other)
    {
      assert other in store.executions && ExecutionSound(store, other);
      ExecutionStaysSound(store, more, other);
    }
  }

  lemma {:induction false} AddGrantKeepsSound(store: Store, request: GrantRequest, current: Loaded, now: Time)
    requires StoreSound(store) && request.id !in store.audit && request.expectedEpoch == current.epoch
    requires GrantOf(request, current.epoch, now).Consistent()
    ensures StoreSound(AddGrant(store, request, current, now)) && StoreGrows(store, AddGrant(store, request, current, now))
  {
    GrantAudited(store, request.id);
    var more := AddGrant(store, request, current, now);
    OthersStaySound(store, more, request.id);
    assert GrantSound(more, request.id);
  }

  lemma {:induction false} AddExecutionKeepsSound(
    store: Store, request: ExecutionRequest, grant: Grant, execution: Execution, current: Loaded, now: Time)
    requires StoreSound(store) && request.id !in store.audit && request.expectedEpoch == current.epoch
    requires request.operator in store.grants && grant == store.grants[request.operator].document
    requires execution == ExecutionOf(request, grant.capability, current.epoch, now)
    requires ValidExecution(execution, grant, current.epoch, now)
    ensures StoreSound(AddExecution(store, request, execution, current, now))
    ensures StoreGrows(store, AddExecution(store, request, execution, current, now))
  {
    GrantAudited(store, request.id);
    var more := AddExecution(store, request, execution, current, now);
    OthersStaySound(store, more, request.id);
    assert ExecutionSound(more, request.id);
  }

  lemma {:induction false} IssueGrantKeepsSound(store: Store, current: Loaded, request: GrantRequest, now: Time)
    requires StoreSound(store)
    ensures StoreSound(IssueGrant(store, current, request, now).0)
    ensures StoreGrows(store, IssueGrant(store, current, request, now).0)
  {
    if IssueGrant(store, current, request, now).0 != store {
      AddGrantKeepsSound(store, request, current, now);
    }
  }

  /** Whatever is issued reads back, and every execution stays within its grant. */
  lemma {:induction false} IssueExecutionKeepsSound(store: Store, current: Loaded, request: ExecutionRequest, now: Time)
    requires StoreSound(store)
    ensures StoreSound(IssueExecution(store, current, request, now).0)
    ensures StoreGrows(store, IssueExecution(store, current, request, now).0)
  {
    if IssueExecution(store, current, request, now).0 != store {
      assert GrantSound(store, request.operator);
      var grant := store.grants[request.operator].document;
      AddExecutionKeepsSound(store, request, grant, ExecutionOf(request, grant.capability, current.epoch, now), current, now);
    }
  }

  lemma {:induction false} GrantsLeaveExecutions(store: Store, current: Loaded, request: GrantRequest, now: Time)
    ensures IssueGrant(store, current, request, now).0.executions == store.executions
  {
  }

  lemma {:induction false} IssuedUnderCurrent(store: Store, current: Loaded, request: ExecutionRequest, now: Time)
    ensures var more := IssueExecution(store, current, request, now).0;
      forall id | id in more.executions && id !in store.executions :: more.executions[id].document.epoch == current.epoch
  {
  }

  /** In a sound store an execution is accepted exactly when it was issued under the present epoch, its own interval
      covers the moment, and it matches what is asked for; its grant needs no further look. */
  lemma {:induction false} AcceptedExactly(
    store: Store, current: Loaded, id: Id, now: Time, context: Option<Id>, capability: Option<Capability>)
    requires StoreSound(store)
    ensures RequireCurrent(store, current, id, now, context, capability).Ok? <==>
      && id in store.executions
      && var execution := store.executions[id].document;
         && execution.epoch == current.epoch && execution.issuedAt <= now < execution.expiresAt
         && (context.Some? ==> execution.context == context) && (capability.Some? ==> execution.capability == capability.value)
    ensures RequireCurrent(store, current, id, now, context, capability).Ok? ==>
      var execution := RequireCurrent(store, current, id, now, context, capability).value;
      && execution.id == id && execution.operator in store.grants
      && Contained(execution, store.grants[execution.operator].document) && execution.epoch == current.epoch
  {
    if id in store.executions {
      assert ExecutionSound(store, id);
      assert GrantSound(store, store.executions[id].document.operator);
    }
  }

  /** Submitting an accepted execution request again returns the stored authorization, whatever the authority now is. */
  lemma {:induction false} ReissueReplays(store: Store, current: Loaded, request: ExecutionRequest, now: Time)
    requires StoreSound(store) && request.id in store.executions
    ensures IssueExecution(store, current, request, now) ==
      (store, if store.executions[request.id].command == request then Ok(store.executions[request.id].document) else Err(Conflict))
  {
    assert ExecutionSound(store, request.id);
  }
}
