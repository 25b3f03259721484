/** The singleton security-state row: what it may hold, and the authority it gives. */
module AuthorityRecord {
  import opened Basics

  datatype SecurityState = Normal | Degraded | CompromisedSuspected | Lockdown | RecoveryRequired

  /** The row as stored. The columns about the bootstrap origin are nullable. */
  datatype Record = Record(
    state: SecurityState, version: int, epoch: Id, pending: bool, startedAt: Option<Time>, fromState: Option<SecurityState>,
    fromVersion: Option<int>, validationPending: bool)

  /** The effective authority. */
  datatype Loaded = Loaded(state: SecurityState, version: int, epoch: Id, pending: bool, validationPending: bool)

  /** Load the row, or nothing when it cannot be trusted. A pending bootstrap overrides the stored state. */
  function Load(r: Record): Option<Loaded> {
    if r.epoch.number == 0 || r.version < 1 then None
    else if r.pending && (r.startedAt == None || r.fromState == None || r.fromVersion == None || r.fromVersion.value < 1) then None
    else if !r.pending && (r.startedAt.Some? || r.fromState.Some? || r.fromVersion.Some?) then None
    else if r.validationPending && (!r.pending || r.fromVersion == None || r.version <= r.fromVersion.value) then None
    else Some(Loaded(if r.pending then RecoveryRequired else r.state, r.version, r.epoch, r.pending, r.validationPending))
  }

  datatype Origin = Origin(state: SecurityState, version: int, startedAt: Time)

  /** The basis a recovery context is bound to. */
  datatype Basis = Basis(epoch: Id, state: SecurityState, version: int, pending: bool, origin: Option<Origin>)
  {
    predicate Consistent() {
      if pending then state == RecoveryRequired && origin.Some? && version > origin.value.version
      else origin == None
    }
  }

  /** The basis the row gives, when it loads and is consistent. */
  function BasisOf(r: Record): Option<Basis> {
    match Load(r)
    case None => None
    case Some(current) =>
      var origin := if r.pending then Some(Origin(r.fromState.value, r.fromVersion.value, r.startedAt.value)) else None;
      var basis := Basis(current.epoch, current.state, current.version, current.pending, origin);
      if basis.Consistent() then Some(basis) else None
  }

  /** What every reachable row satisfies: it loads, and the origin of a pending bootstrap is an older version. */
  predicate Sound(r: Record) {
    Load(r).Some? && (r.pending ==> r.fromVersion.Some? && r.fromVersion.value < r.version)
  }

  /** A sound row always gives a basis. */
  lemma {:induction false} SoundHasBasis(r: Record)
    ensures Sound(r) <==> BasisOf(r).Some?
  {
  }
}
