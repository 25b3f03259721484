/** What every reachable authority satisfies. */
module AuthorityInvariant {
  import opened Basics
  import opened AuthorityRecord
  import opened RecoveryInventory
  import opened Authorizations
  import opened AuthorityModel

  /** Audit rows carry rising versions, none newer than the row. */
  ghost predicate TrailRises(s: System) {
    && (forall i | 0 <= i < |s.trail| :: 2 <= s.trail[i].version <= s.record.version)
    && (forall i, j | 0 <= i < j < |s.trail| :: s.trail[i].version < s.trail[j].version && s.trail[i].id != s.trail[j].id)
  }

  /** Outside recovery the last audit row accounts for the present state and epoch. */
  ghost predicate TrailAccounts(s: System) {
    !s.record.pending ==>
      if s.trail == [] then s.record.version == 1 && s.record.state == Normal
      else
        var last := s.trail[|s.trail| - 1];
        last.version == s.record.version && last.next == s.record.state && last.epoch == s.record.epoch
  }

  ghost predicate ContextSound(s: System, id: Id)
    requires id in s.contexts
  {
    s.contexts[id].id == id && DecodeContext(s, s.contexts[id]) == Some(s.contexts[id].document)
  }

  ghost predicate ContextsSound(s: System) {
    forall id {:trigger ContextSound(s, id)} | id in s.contexts :: ContextSound(s, id)
  }

  ghost predicate SystemSound(s: System) {
    Sound(s.record) && TrailRises(s) && TrailAccounts(s) && ContextsSound(s) && StoreSound(s.store)
  }

  lemma {:induction false} OtherRowsKept(s: System, t: System)
    requires ContextsSound(s) && t.contexts == s.contexts && t.contextAudit == s.contextAudit
    ensures ContextsSound(t)
  {
    forall id | id in t.contexts
      ensures ContextSound(t, id)
    {
      assert ContextSound(s, id);
    }
  }

  /** Appending the audit row of the new version keeps the trail rising. */
  lemma {:induction false} TrailGrows(s: System, t: System, row: Transition)
    requires TrailRises(s) && Sound(s.record) && t.trail == s.trail + [row] && !IdUsed(s.trail, row.id)
    requires row.version == s.record.version + 1 == t.record.version
    ensures TrailRises(t)
  {
  }

  lemma {:induction false} TransitionKeepsSound(s: System, req: TransitionRequest, now: Time)
    requires SystemSound(s)
    ensures SystemSound(TransitionSpec(s, req, now).0)
  {
    var t := TransitionSpec(s, req, now).0;
    OtherRowsKept(s, t);
    if t != s {
      TrailGrows(s, t, t.trail[|s.trail|]);
    }
  }

  lemma {:induction false} InitializeKeepsSound(s: System, mode: StartupMode, otherHistory: bool, now: Time)
    requires SystemSound(s)
    ensures SystemSound(InitializeSpec(s, mode, otherHistory, now).0)
    ensures InitializeSpec(s, mode, otherHistory, now).1.Ok? <==> mode != Fresh || Pristine(s, otherHistory)
  {
    OtherRowsKept(s, InitializeSpec(s, mode, otherHistory, now).0);
  }

  lemma {:induction false} EstablishFenceKeepsSound(s: System, m: Manifest, now: Time)
    requires SystemSound(s)
    ensures SystemSound(EstablishFenceSpec(s, m, now).0)
  {
    OtherRowsKept(s, EstablishFenceSpec(s, m, now).0);
  }

  lemma {:induction false} PublishReadinessKeepsSound(s: System, m: Manifest, otherChecks: bool)
    requires SystemSound(s)
    ensures SystemSound(PublishReadinessSpec(s, m, otherChecks).0)
  {
    OtherRowsKept(s, PublishReadinessSpec(s, m, otherChecks).0);
  }

  /** The archive of a sound authority, made at the version and epoch the fence took from its manifest. */
  ghost predicate Archived(s: System, archive: System) {
    SystemSound(archive) && archive.record.version + 1 == s.record.version && archive.record.epoch == s.record.epoch
  }

  lemma {:induction false} ImportedStore(a: Store, b: Store, both: Store)
    requires StoreSound(a) && StoreSound(b)
    requires a.grants.Keys !! b.grants.Keys && a.executions.Keys !! b.executions.Keys && a.audit.Keys !! b.audit.Keys
    requires both == Store(a.grants + b.grants, a.executions + b.executions, a.audit + b.audit)
    ensures StoreSound(both) && StoreGrows(a, both)
  {
    forall id | id in both.grants
      ensures GrantSound(both, id)
    {
      var part := if id in b.grants then b else a;
      assert GrantSound(part, id);
      GrantStaysSound(part, both, id);
    }
    forall id | id in both.executions
      ensures ExecutionSound(both, id)
    {
      var part := if id in b.executions then b else a;
      assert ExecutionSound(part, id);
      ExecutionStaysSound(part, both, id);
    }
  }

  lemma {:induction false} ImportedContexts(s: System, archive: System, t: System)
    requires ContextsSound(s) && ContextsSound(archive)
    requires s.contexts.Keys !! archive.contexts.Keys && s.contextAudit.Keys !! archive.contextAudit.Keys
    requires t.contexts == s.contexts + archive.contexts && t.contextAudit == s.contextAudit + archive.contextAudit
    ensures ContextsSound(t)
  {
    forall id | id in t.contexts
      ensures ContextSound(t, id)
    {
      if id in archive.contexts {
        assert ContextSound(archive, id);
      } else {
        assert ContextSound(s, id);
      }
    }
  }

  /** Loading an archive of a sound authority keeps the authority sound. */
  lemma {:induction false} ImportKeepsSound(s: System, archive: System)
    requires SystemSound(s) && Archived(s, archive)
    ensures SystemSound(ImportSpec(s, archive)) && StoreGrows(s.store, ImportSpec(s, archive).store)
  {
    var t := ImportSpec(s, archive);
    if t != s {
      ImportedStore(s.store, archive.store, t.store);
      ImportedContexts(s, archive, t);
    }
  }

  lemma {:induction false} CaptureKeepsSound(s: System, req: CaptureRequest, inventory: Inventory, now: Time)
    requires SystemSound(s)
    ensures SystemSound(CaptureSpec(s, req, inventory, now).0)
  {
    var t := CaptureSpec(s, req, inventory, now).0;
    forall id | id in t.contexts
      ensures ContextSound(t, id)
    {
      assert id in s.contexts ==> ContextSound(s, id);
    }
  }

  lemma {:induction false} CompleteKeepsSound(s: System, req: RestorationRequest, now: Time, id: Id)
    requires SystemSound(s)
    ensures SystemSound(CompleteSpec(s, req, now, id).0)
  {
    var t := CompleteSpec(s, req, now, id).0;
    OtherRowsKept(s, t);
    if t != s {
      TrailGrows(s, t, RestorationRow(s, req, now, id));
    }
  }

  lemma {:induction false} ReplaceKeepsSound(s: System, req: ReplaceRequest, now: Time, id: Id)
    requires SystemSound(s)
    ensures SystemSound(ReplaceSpec(s, req, now, id).0)
  {
    var t := ReplaceSpec(s, req, now, id).0;
    OtherRowsKept(s, t);
    if t != s {
      TrailGrows(s, t, t.trail[|s.trail|]);
    }
  }

  lemma {:induction false} CompleteReconstructionKeepsSound(
    s: System, req: RestorationRequest, replacement: Id, newEpoch: EpochId, now: Time, id: Id, secondId: Id)
    requires SystemSound(s)
    ensures SystemSound(CompleteReconstructionSpec(s, req, replacement, newEpoch, now, id, secondId).0)
  {
    var (restored, first) := CompleteSpec(s, req, now, id);
    CompleteKeepsSound(s, req, now, id);
    if first.Ok? {
      ReplaceKeepsSound(restored,
        ReplaceRequest(replacement, req.restoration, id, first.value.epoch, first.value.version, newEpoch), now, secondId);
    }
  }

  /** The second half of a combined restoration only fails if the new epoch is the present one or its audit identity is used. */
  lemma {:induction false} CombinedRestorationSucceeds(
    s: System, req: RestorationRequest, replacement: Id, newEpoch: EpochId, now: Time, id: Id, secondId: Id)
    requires SystemSound(s)
    ensures CompleteReconstructionSpec(s, req, replacement, newEpoch, now, id, secondId).1.Ok? <==>
      && Prepared(s, req, now) && !IdUsed(s.trail, id) && !IdUsed(s.trail, secondId) && secondId != id
      && newEpoch != s.record.epoch
  {
    var (restored, first) := CompleteSpec(s, req, now, id);
    if first.Ok? {
      CompleteKeepsSound(s, req, now, id);
      var row := RestorationRow(s, req, now, id);
      assert restored.trail[|s.trail|] == row && req.restoration == row.related[0];
      assert forall i | 0 <= i < |s.trail| :: restored.trail[i] == s.trail[i];
      assert ProvesRestoration(restored.trail,
        ReplaceRequest(replacement, req.restoration, id, first.value.epoch, first.value.version, newEpoch));
      assert IdUsed(restored.trail, secondId) <==> IdUsed(s.trail, secondId) || secondId == id;
    }
  }
}
