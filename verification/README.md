# Governed research state: a Dafny model

The research agent keeps an investigation's knowledge in a database that many short transactions write to. This project
models the parts whose correctness rests on what those transactions keep together, and proves it for every sequence of
them:

- **Source dependence.** Declared relationships between sources are created, mutated and reversed. A bounded search
  refuses any write that it cannot prove harmless, a bounded breadth-first walk projects the component around some
  sources, a three-colour search looks for cycles, and a journal records every change.
- **Governed memory.** Claims and hypothesis assessments live in records and link rows; every change is journaled as a
  state document, past versions can be read, and the latest change can be reversed.
- **Restore list.** The listing of a backup archive is reordered so that every table follows the tables it refers to.
- **Recovery and authority.** One versioned row holds the security state. Startup, reconstruction, ordinary transitions,
  protected restoration and epoch replacement write it; a restoration depends on a captured context, on five
  reconciliation checks over bounded inventories, and on authorizations.
- **Planner.** Fingerprints of the evidence decide whether a review is current; a loop selects at most three objectives.
- **Cycles.** Runner progress, outcomes, operator recovery and interruption all write to one cycle.
- **Provider budget.** Reservations, dispatches and outcomes interleave at arbitrary moments.

A transaction is one atomic step that either commits or leaves the state as it was. For each service the step is a
function of the state (`...Spec`), and a class whose methods change the tables in place is proved equal to that function.
The `...Effects` modules say of each request exactly when it is accepted and what it leaves, in terms of the request and
the stored rows alone, and the laws are lemmas over `Run`, the function that applies any sequence of steps. Steps of the
environment (new tasks and sources, other evidence, other attempts, the clock) are interleaved freely.
`dafny verify dfyconfig.toml` checks all of it.

## How the model is stated

- Tables are maps and sequences. `ORDER BY id LIMIT n` is `FirstSorted`; identities are compared by their integer value.
- Exceptions of one class are one constructor of `Error`. A primary-key conflict is an error that changes nothing.
- Identities drawn by the services, the clock, capability decisions, and the content of other tables are inputs.
- JSON documents are values, digests stand for what they digest, and floating-point numbers are `real`.
- The limits of the source-dependence service are a parameter; `DEFAULT_LIMITS` holds the deployed ones.
- The journal order `ORDER BY revision` (or `version`) is the order of appending; this is proved, since both rise by one.
- The breadth-first searches keep the visited set as the keys of the map of depths.

## What turned out differently from what the code says of itself

- `mutate` and `reverse` fetch 501 rows of a source and then drop the row being changed, so a page can be complete to look
  at and still miss a row. `CycleSafety.AcceptedCycleIsHidden` says exactly when that lets a cycle through, and
  `SourceDependenceRuns.RunStaysAcyclicExactly` when a whole run stays acyclic. It takes a flip of an active derivation at
  an upstream source with more than 501 rows: `BlindFlip.FlipClosesCycle` builds such a state by creations alone, and
  `BlindFlip.SafeExactlyUpToOnePage` proves that 501 is the exact bound. Creations, retractions, reactivations, repeats and
  refusals are always safe.
- A claim and an assessment of one task may have the same identity. `history` selects by identity only, so it then
  rejects both (`MemoryRuns.HistoryCanFail`). `Memory.HistoryReads` proves that this is the only way it can fail.
- Epoch replacement only asks that the new epoch differs from the present one. If an old epoch comes back, executions
  issued under it are accepted again: `AuthorityRotation.EpochComesBack` is such a run. `AuthorityRuns.ReplacementRetires`
  therefore assumes epochs that no stored execution bears.
- The replay of a mutation takes direction and lifecycle from the stored result, so a repeat that asks for others is
  answered like an exact one (`SourceDependenceRuns.MutationRepeatAnswered`). Apart from the order in
  which a creation names its two ends, that is the only other content under which a used operation identity is answered:
  `SourceDependenceRuns.ReuseAnsweredExactly` gives the exact condition.
- The planner goes through the unresolved objectives of a cycle in the order of a Python set; the model uses the order of
  the list they come from. `Planner.ChosenInAnyOrder` proves that any other order gives a selection that is best as well,
  with the same priorities and the same choices except, in a full plan, among candidates of its last priority.
- The capability check of an ordinary security transition never refuses an edge that the policy has
  (`SecurityPolicy.ValidIsCapable`), so the exact condition in `AuthorityRuns.StepReturnsToNormal` does without it.

## Model

| member | source | states |
|---|---|---|
| `Graphs.AddEdgeAcyclic` | src/research_agent/application/source_dependence_service.py:491-499 | adding a derivation to an acyclic graph keeps it acyclic exactly when the derived source is not reachable from the upstream one |
| `CycleProof.ValidateNoCycle` | src/research_agent/application/source_dependence_service.py:491-538 | the bounded search accepts exactly when the rows it can fetch prove, within the bounds, that the derived source is out of reach; it reports a cycle only when one exists, and refuses for its bounds only when they are exceeded |
| `CycleSafety.BlindSpots` | src/research_agent/application/source_dependence_service.py:503-519 | a search within its limits has seen every row of a source it searched exactly when the source has no more rows than one query returns; it misses some exactly when moreover the excluded row is on the page |
| `CycleSafety.OnlyUpstreamHides` | src/research_agent/application/source_dependence_service.py:503-519 | when a search that excludes the row being written accepts, only the upstream source itself can hide rows |
| `CycleSafety.AcceptedCycleIsHidden` | src/research_agent/application/source_dependence_service.py:491-538 | an accepted edge closes a cycle exactly when a derivation of the upstream source that its page left out leads on to the derived source |
| `CycleSafety.AcceptedIsUnreachable` | src/research_agent/application/source_dependence_service.py:491-538 | unless a source reachable from the upstream one has an overlooked page, acceptance means that no path leads from the upstream source to the derived one; without an excluded row it always does |
| `CycleSafety.SmallIsAccepted` | src/research_agent/application/source_dependence_service.py:491-538 | whatever it excludes, the search accepts every edge that closes no cycle when the graph around the upstream source is within the bounds |
| `CycleSafety.AcceptsExactly` | src/research_agent/application/source_dependence_service.py:491-538 | unless a source reachable from the upstream one has an overlooked page, the search accepts exactly when the edge closes no cycle and the graph around the upstream source is within the bounds; crowded sources elsewhere do not matter |
| `CycleSafety.CreationAcceptsExactly` | src/research_agent/application/source_dependence_service.py:491-538 | for a creation, which excludes no row, that holds without any condition |
| `CycleSafety.ChangeAcceptsExactly` | src/research_agent/application/source_dependence_service.py:503-519 | for a change, which excludes its own row, it holds when the page of the upstream source itself is not overlooked |
| `CycleSafety.WritingKeepsAcyclic` | src/research_agent/application/source_dependence_service.py:173-176 | writing a checked row keeps the task's derivations acyclic exactly when it adds no edge with a hidden path back |
| `CycleDetection.HasDirectedCycle` | src/research_agent/application/source_dependence_service.py:556-580 | the recursive colour search terminates and answers true exactly when the given derivations contain a directed cycle |
| `CycleDetection.ColourSearch.Visit` | src/research_agent/application/source_dependence_service.py:567-578 | a visit finds a cycle or finishes the vertex, keeping the colours, the stack and the finishing order consistent |
| `Projection.Walk` | src/research_agent/application/source_dependence_service.py:318-369 | the depths the walk records are true shortest distances within the hop limit |
| `Projection.ProjectView` | src/research_agent/application/source_dependence_service.py:304-388 | without overflow the view covers exactly the component and its rows; with overflow the visited sources are part of it, the frontier holds unvisited neighbours, all bounds hold, and the reason is true of the component |
| `Projection.CompleteCertifies` | src/research_agent/application/source_dependence_service.py:371-388 | a complete projection is a closed component whose derivations are acyclic |
| `Projection.AcyclicIsValid` | src/research_agent/application/source_dependence_service.py:371-373 | an acyclic task is never projected as invalid |
| `RelationshipJournal.ValidatedHistory` | src/research_agent/application/source_dependence_service.py:629-682 | the integrity check accepts exactly the gapless chains from the creation to the current row |
| `RelationshipJournal.ContiguousAppend` | src/research_agent/application/source_dependence_service.py:409-440 | appending the next change to a gapless chain gives a gapless chain ending in the new row |
| `SourceDependence.SourceDependenceService.CreateRelationship` | src/research_agent/application/source_dependence_service.py:69-142 | a creation is answered from the journal when repeated, refused for unknown or foreign ends, a possible cycle or a taken pair, and otherwise adds row, journal entry and event; the tables stay coherent |
| `SourceDependence.SourceDependenceService.MutateRelationship` | src/research_agent/application/source_dependence_service.py:144-193 | a mutation is answered from the journal when repeated, refused when stale, ineffective or possibly cyclic, and otherwise moves row, journal and events on together |
| `SourceDependence.SourceDependenceService.ReverseRelationship` | src/research_agent/application/source_dependence_service.py:195-249 | a reversal undoes only the latest change, in time and not a reversal itself, and moves row, journal and events on together |
| `SourceDependence.SourceDependenceService.History` | src/research_agent/application/source_dependence_service.py:280-302 | on reachable tables the history of an existing relationship always reads |
| `SourceDependence.SourceDependenceService.Project` | src/research_agent/application/source_dependence_service.py:304-388 | a projection is refused exactly for a missing task, a missing capability, too many roots or foreign roots, and otherwise describes the stored graph |
| `SourceDependenceEffects.CreatedExactly` | src/research_agent/application/source_dependence_service.py:69-142 | an admissible creation is accepted exactly if both ends are sources of the task, no relationship of the kind joins them in whatever lifecycle, and a derivation is proved to close no cycle; the new row is active at revision one, leads from the derived source to the upstream one, and is the only one changed |
| `SourceDependenceEffects.MalformedIsRefused` | src/research_agent/application/source_dependence_service.py:443-475 | a creation that does not name two different ends in the fields of its kind is refused |
| `SourceDependenceEffects.RetractedExactly` | src/research_agent/application/source_dependence_service.py:144-193 | a retraction is accepted exactly if the relationship is active at the revision the caller saw, and only makes it retracted, at the next revision |
| `SourceDependenceEffects.SetExactly` | src/research_agent/application/source_dependence_service.py:144-193 | setting lifecycle or direction is refused exactly for a stale revision, a direction unfit for the kind, no change, or a missing proof, and otherwise leaves exactly what was asked for, active unless it says otherwise |
| `SourceDependenceEffects.UnknownIsRefused` | src/research_agent/application/source_dependence_service.py:590-603 | a mutation of a relationship that the task does not have is not found |
| `SourceDependenceEffects.ReversalIsRecorded` | src/research_agent/application/source_dependence_service.py:195-249 | an accepted reversal is journaled as the reversal of the change it names |
| `SourceDependenceEffects.RetractionRemovesEdge` | src/research_agent/application/source_dependence_service.py:491-499 | retracting an active derivation takes exactly its edge out of the derivations of the task |
| `SourceDependenceEffects.RetractionIsSafe` | src/research_agent/application/source_dependence_service.py:173-176 | a retraction is never misled and never closes a cycle |
| `SourceDependenceInvariant.WrittenIsCoherent` | src/research_agent/application/source_dependence_service.py:390-441 | every committed change keeps rows, journal, audit events and pair uniqueness in agreement |
| `SourceDependenceRuns.RunKeepsCoherent` | src/research_agent/application/source_dependence_service.py:69-249 | that agreement holds after every run of requests |
| `SourceDependenceRuns.HistoryAlwaysReads` | src/research_agent/application/source_dependence_service.py:629-682 | in every reachable state each relationship's journal is gapless and its length is the revision |
| `SourceDependenceRuns.StepKeepsAcyclicExactly` | src/research_agent/application/source_dependence_service.py:69-249 | exactly when one step leaves every task's derivations acyclic: it does not write an active derivation with a hidden path back |
| `SourceDependenceRuns.RunStaysAcyclicExactly` | src/research_agent/application/source_dependence_service.py:69-249 | exactly when they stay acyclic all along a run |
| `SourceDependenceRuns.MisledIsCrowdedFlip` | src/research_agent/application/source_dependence_service.py:503-519 | a step is misled only if it changes a derivation that is active before and after, at an upstream source with more rows than one query returns |
| `SourceDependenceRuns.RunKeepsAcyclic` | src/research_agent/application/source_dependence_service.py:78-249 | no run closes a derivation cycle unless one of its steps is misled; creations, retractions, repeats and refusals never are |
| `BlindFlip.SafeExactlyUpToOnePage` | src/research_agent/application/source_dependence_service.py:501-519 | under the deployed limits every request from a coherent acyclic state with at most n active derivations at any source keeps derivations acyclic exactly if n is at most 501 |
| `SourceDependenceRuns.ProjectionsStayValid` | src/research_agent/application/source_dependence_service.py:371-386 | after such runs no projection is invalid |
| `SourceDependenceRuns.ReuseAnsweredExactly` | src/research_agent/application/source_dependence_service.py:605-627 | after any run a request with the operation identity of an accepted one is answered exactly if it comes from the same actor in the same task and asks for the same, and then gets the first result; a repeated mutation may ask for another direction or lifecycle, and every other difference is refused |
| `SourceDependenceRuns.ExactRepeat` | src/research_agent/application/source_dependence_service.py:612-627 | so an accepted request repeated by its actor, however much later, changes nothing and returns its first result |
| `SourceDependenceRuns.UsedOperationStaysInert` | src/research_agent/application/source_dependence_service.py:605-627 | after any run, no request with the operation identity of a recorded change changes the state, whoever submits it and whatever it asks for |
| `SourceDependenceRuns.MutationRepeatAnswered` | src/research_agent/application/source_dependence_service.py:150-162 | so does the repeat of an accepted mutation that asks for another direction or lifecycle |
| `SourceDependenceRuns.ReverseRestores` | src/research_agent/application/source_dependence_service.py:195-249 | when a reversal is accepted, and what it writes: the direction and lifecycle before the latest change, retracted for a creation |
| `SourceDependenceRuns.ReverseUndoes` | src/research_agent/application/source_dependence_service.py:195-249 | a change followed by its reversal brings back direction and lifecycle while the revision grows |
| `BlindFlip.FlipClosesCycle` | src/research_agent/application/source_dependence_service.py:503-519 | a state reached by creations alone in which an accepted flip closes a cycle |
| `StableSort.SortIsStable` | src/research_agent/application/cycle_planner.py:366-369 | sorting orders, permutes, and keeps the order of equal keys |
| `MemoryLinks.RoundTrip` | src/research_agent/application/memory_service.py:474-505 | replacing the link rows of a record and reading them back returns exactly what was written |
| `MemoryLinks.OthersUntouched` | src/research_agent/application/memory_service.py:474-505 | the links of every other record read as before |
| `MemoryJournal.ReadHistory` | src/research_agent/application/memory_service.py:114-177 | the history check accepts exactly the gapless chains of sound changes of one target, from a creation or a legacy baseline |
| `MemoryJournal.StateAtVersion` | src/research_agent/application/memory_service.py:179-202 | which state or error a version gives |
| `MemoryJournal.SoundAnswers` | src/research_agent/application/memory_service.py:179-202 | a sound history answers for exactly the versions up to the last, each with the state its change left, and agrees with the recorded previous states |
| `MemoryInvariant.WrittenIsGood` | src/research_agent/application/memory_service.py:431-555 | every admitted write keeps tables and journal in agreement and all references sound |
| `MemoryInvariant.StageAdmits` | src/research_agent/application/memory_service.py:314-375 | whatever preparation and validation accept is an admitted write |
| `MemoryInvariant.ReverseAdmits` | src/research_agent/application/memory_service.py:590-600 | so is whatever reversal accepts |
| `MemoryInvariant.CurrentChange` | src/research_agent/application/memory_service.py:587-593 | when the versions match, the change is the latest of its target and the stored state is its result |
| `Memory.MemoryService.ReplaceLinks` | src/research_agent/application/memory_service.py:474-505 | the link rows of the record are exactly the new ones |
| `Memory.MemoryService.Write` | src/research_agent/application/memory_service.py:431-555 | the record, its links and the journal after a write |
| `Memory.MemoryService.Stage` | src/research_agent/application/memory_service.py:392-429 | staging returns the first result of a repeated change, otherwise commits what preparation accepts or nothing, and keeps the invariant |
| `Memory.MemoryService.Reverse` | src/research_agent/application/memory_service.py:557-618 | reversal returns the first reversal of a change, otherwise undoes the current change in time or nothing, and keeps the invariant |
| `MemoryInvariant.ValidExactly` | src/research_agent/application/memory_service.py:246-312 | exactly when a document may replace another or become the first: one link per end, sources or active claims of the task, the one assessment of a known hypothesis, no lost provenance, and nothing depending on what changes |
| `MemoryEffects.StagedExactly` | src/research_agent/application/memory_service.py:314-429 | a proposal changes the state exactly if it may be made and the target is new, active, or in a lifecycle the operation starts from, at the version proposed for, and the payload fits; a stored claim nothing depends on always may be archived, deleted or restored |
| `MemoryEffects.StageIsJournaled` | src/research_agent/application/memory_service.py:431-555 | it is then the next journal entry, with the states before and after, its author, time, reason and provenance |
| `MemoryEffects.ReversalIsJournaled` | src/research_agent/application/memory_service.py:601-615 | so is an accepted reversal, naming the change it reverses |
| `Memory.HistoryReads` | src/research_agent/application/memory_service.py:114-177 | in a reachable state a history reads exactly when the identity was not journaled for both kinds in the task, and then ends in the current version and state |
| `MemoryRuns.RunKeepsGood` | src/research_agent/application/memory_service.py:392-618 | journal and tables agree after every run |
| `MemoryRuns.ReferentialIntegrity` | src/research_agent/application/memory_service.py:246-312 | after every run, from empty tables or from legacy rows, claims cite sources and assessments active claims of their own task, whatever their lifecycle, and no hypothesis has two assessments |
| `MemoryRuns.PastVersionsStay` | src/research_agent/application/memory_service.py:114-202 | whatever happens later, a version keeps answering with the state it had |
| `MemoryRuns.StageEffect` | src/research_agent/application/memory_service.py:314-375 | an accepted proposal was made for the present version and stores its payload, or only moves the lifecycle; nothing else changes |
| `MemoryRuns.ReversalRestores` | src/research_agent/application/memory_service.py:557-618 | an accepted reversal undoes the latest change of its target, at a new version, and touches nothing else |
| `MemoryRuns.ReversedExactly` | src/research_agent/application/memory_service.py:563-600 | a reversal is accepted exactly for the latest change of a target, by the operator, in time, once, and if the inverse is valid; the comparison with the stored state never decides |
| `MemoryRuns.RunByActors` | src/research_agent/application/memory_service.py:358-368 | in every reachable journal a model changed nothing and an extracting component only created unverified claims |
| `MemoryRuns.ReversalUndoesStage` | src/research_agent/application/memory_service.py:392-618 | reversing a staged change after any run brings back what the target read as before, or deletes a creation logically |
| `MemoryRuns.ReversedOnce` | src/research_agent/application/memory_service.py:573-583 | a change is reversed at most once; later requests change nothing, and return the first reversal exactly for the operator of the same task with a reason |
| `MemoryRuns.StageReuseExactly` | src/research_agent/application/memory_service.py:407-415 | after any run a proposal with the change identity of an accepted one is answered exactly if it is the same proposal by the same actor in the same task, and then with the first result; every other one is refused |
| `MemoryRuns.StageRepeats` | src/research_agent/application/memory_service.py:407-415 | so an accepted proposal repeated later changes nothing and returns its first result |
| `MemoryRuns.StateNeverDrifts` | src/research_agent/application/memory_service.py:591-593 | the branch for a drifted state is never taken |
| `MemoryRuns.RunKeepsProvenance` | src/research_agent/application/memory_service.py:266-271 | without reversals a claim never loses a source it cited |
| `MemoryRuns.HistoryCanFail` | src/research_agent/application/memory_service.py:148-154 | a reachable state, with tables and journal in agreement, whose history is rejected |
| `RestoreSchedule.ScheduleOrders` | src/research_agent/application/database_reconstruction_service.py:181-194 | a produced order lists every table once, parents first |
| `RestoreSchedule.FailsExactlyOnCycles` | src/research_agent/application/database_reconstruction_service.py:183-194 | ordering fails exactly when the archived tables' dependencies contain a cycle |
| `RestoreSchedule.ScheduleIsEarliest` | src/research_agent/application/database_reconstruction_service.py:183-195 | of all parents-first orders it is the one closest to the archive's own |
| `RestoreSchedule.OrderedStays` | src/research_agent/application/database_reconstruction_service.py:183-195 | an order that already has parents first is kept |
| `RestoreList.ScanListing` | src/research_agent/application/database_reconstruction_service.py:164-181 | one pass finds the tables, their places and texts, and fails exactly at a duplicate |
| `RestoreList.OrderTables` | src/research_agent/application/database_reconstruction_service.py:182-195 | the loop over the waiting tables computes the schedule |
| `RestoreList.WriteRestoreList` | src/research_agent/application/database_reconstruction_service.py:153-199 | the list fails exactly for an empty listing, a duplicate or a cycle, and otherwise places the scheduled tables and keeps every other line |
| `RestoreList.Rearranges` | src/research_agent/application/database_reconstruction_service.py:153-199 | the list is a rearrangement of the archive's lines: the data of the two excluded tables is commented out and every other line keeps its text; only restored tables move, among their own places, and no table precedes one it refers to |
| `RestoreList.OrderedArchiveStays` | src/research_agent/application/database_reconstruction_service.py:183-199 | an archive in order keeps every line where it was |
| `RecoveryInventory.ReadInventory` | src/research_agent/application/recovery_inventory.py:23-72 | the bounded pages report partial exactly when a true total exceeds the bound, and otherwise list everything |
| `RecoveryReconciliation.AllowedExactly` | src/research_agent/application/recovery_reconciliation_service.py:71-226 | the five checks pass exactly when the context is current and complete, the whole stored evidence is within the bound and equals the captured one, and no operation is unresolved |
| `RecoveryReconciliation.OutcomesExactly` | src/research_agent/application/recovery_reconciliation_service.py:228-295 | no captured operation is cut off, and one has an unknown outcome exactly when some attempt is open |
| `RecoveryReconciliation.Reconcile` | src/research_agent/application/recovery_reconciliation_service.py:63-104 | the verdict of a reconciliation |
| `RecoveryReconciliation.CapturedThenUnchanged` | src/research_agent/application/recovery_reconciliation_service.py:145-168 | after a complete capture the evidence condition means that nothing was recorded since |
| `RecoveryReconciliation.ChecksExactly` | src/research_agent/application/recovery_reconciliation_service.py:71-226 | the outcome of each of the five checks, in terms of what is stored and captured |
| `RecoveryReconciliation.OperationsSay` | src/research_agent/application/recovery_reconciliation_service.py:228-295 | every operation reported was captured or is open, and says whether it committed: a missing or failed provider attempt did not, an ended cycle attempt did |
| `RecoveryReconciliation.EveryOperationReported` | src/research_agent/application/recovery_reconciliation_service.py:228-245 | when nothing open is missing from the context, every captured operation is reported |
| `Authorizations.IssueGrantKeepsSound` | src/research_agent/application/authorization_service.py:82-147 | issuing a grant keeps every stored artifact readable and changes none |
| `Authorizations.IssueExecutionKeepsSound` | src/research_agent/application/authorization_service.py:149-227 | issuing an execution does too, and every execution stays within its grant |
| `Authorizations.AcceptedExactly` | src/research_agent/application/authorization_service.py:229-272 | an execution is accepted exactly when it bears the present epoch, its own interval covers the moment and it matches the request; it is then within its grant |
| `Authorizations.ReissueReplays` | src/research_agent/application/authorization_service.py:149-165 | a repeated execution request returns the stored authorization, or conflicts if it differs |
| `AuthorityInvariant.CombinedRestorationSucceeds` | src/research_agent/application/recovery_restoration_service.py:92-118 | restoring and replacing the epoch together succeeds exactly when the restoration is prepared and the new epoch and audit identities are unused |
| `AuthorityInvariant.InitializeKeepsSound` | src/research_agent/application/authority_bootstrap.py:39-108 | startup keeps the authority sound, and only a fresh start on used data fails |
| `AuthorityRuns.RunKeepsSound` | src/research_agent/application/security_state_store.py:35-81 | after every run the row loads and gives a recovery basis, a pending record's origin is an older version, stored artifacts read back and the audit trail accounts for the present authority |
| `AuthorityRuns.RunAdvances` | src/research_agent/application/security_state_store.py:22-26 | versions never fall and every change of effective state, epoch or fence raises them, so equal versions mean equal authority |
| `AuthorityRuns.StepClearsFence` | src/research_agent/application/recovery_restoration_service.py:120-188 | a step clears a raised fence exactly if it is a restoration that passes its checks and whose audit rows can be stored |
| `AuthorityRuns.FenceClearedByRestoration` | src/research_agent/application/recovery_restoration_service.py:120-188 | so over any run only such a restoration clears it |
| `AuthorityRuns.ClearedFenceFacts` | src/research_agent/application/recovery_restoration_service.py:164-236 | what those checks establish about the row, the evidence, the operations and the authorization |
| `AuthorityRuns.RestorationUsesUp` | src/research_agent/application/recovery_restoration_service.py:164-236 | the context, the grant and the execution of a restoration are used up: after any run, imports included, a restoration that presents one of them again changes nothing |
| `AuthorityRuns.StepReturnsToNormal` | src/research_agent/application/security_state_service.py:66-128 | exactly when one step makes a restricted system NORMAL again: a verified recovery declared at the present version by the operator or the recovery service, or a restoration that succeeds |
| `AuthorityRuns.NormalIsEarned` | src/research_agent/application/security_state_service.py:66-128 | so over any run a restricted system only becomes NORMAL again in one of these two ways |
| `AuthorityRuns.EpochChangesAreProven` | src/research_agent/application/authority_epoch_replacement_service.py:59-79 | once anything is audited, an epoch is only ever given up after a recorded restoration of it |
| `AuthorityRuns.FormerEpochStaysRetired` | src/research_agent/domain/authorization.py:204-231 | an execution of a former epoch is never accepted while epochs are fresh |
| `AuthorityRuns.ReplacementRetires` | src/research_agent/application/authority_epoch_replacement_service.py:49-115 | replacement by a fresh epoch retires every earlier execution for good, while its request still replays |
| `AuthorityRuns.AcceptedUnderItsEpoch` | src/research_agent/domain/authorization.py:204-231 | an unexpired execution is accepted at the end of a run exactly if the present epoch is then its own |
| `AuthorityRotation.RotationSucceeds` | src/research_agent/application/recovery_restoration_service.py:92-118 | from any calm state five requests - fence, capture, grant, execution, combined restoration - lead to any other epoch |
| `AuthorityRotation.OldEpochRevives` | src/research_agent/domain/recovery.py:270-276 | from any calm state an unexpired execution of a former epoch is refused, and accepted after a rotation back to that epoch |
| `AuthorityRotation.EpochComesBack` | src/research_agent/domain/recovery.py:270-276 | a run from a new database in which an execution is accepted, refused after its epoch was replaced, and accepted again after it came back |
| `AuthorityInvariant.ImportKeepsSound` | src/research_agent/application/database_reconstruction_service.py:123-129 | loading the rows of a sound archive behind the reconstruction fence keeps the authority sound |
| `Authority.AuthorityService.TransitionState` | src/research_agent/application/security_state_service.py:54-141 | a stale version conflicts, a repeated state is accepted without effect, and an accepted transition writes state, version and audit row together and keeps the authority sound |
| `Authority.AuthorityService.Initialize` | src/research_agent/application/authority_bootstrap.py:39-69 | only a pristine database starts fresh, recovery raises the fence once at a new version, and every start ends with an authority that loads |
| `Authority.AuthorityService.EstablishReconstructionFence` | src/research_agent/application/database_reconstruction_service.py:261-307 | the fence is raised only on a pristine row |
| `Authority.AuthorityService.PublishReconstructionReadiness` | src/research_agent/application/database_reconstruction_service.py:309-352 | readiness is published only for the fenced row itself |
| `Authority.AuthorityService.CaptureContext` | src/research_agent/application/recovery_context_service.py:106-157 | a captured context holds the bounded inventory of the moment for the present basis; a repeat returns the first capture |
| `Authority.AuthorityService.IssueOperator` | src/research_agent/application/authorization_service.py:82-147 | a grant is issued under the present authority, or the first one returned for a repeated request; the authority stays sound |
| `Authority.AuthorityService.IssueExecutionAuthorization` | src/research_agent/application/authorization_service.py:149-227 | the same for an execution under a stored grant |
| `Authority.AuthorityService.PrepareRestoration` | src/research_agent/application/recovery_restoration_service.py:164-236 | the preconditions of a restoration, decided by the reconciliation itself |
| `Authority.AuthorityService.CompleteRestoration` | src/research_agent/application/recovery_restoration_service.py:120-162 | exactly a prepared restoration with a fresh audit identity clears the fence, sets NORMAL at a new version and appends its audit row; any other leaves everything |
| `Authority.AuthorityService.ReplaceEpoch` | src/research_agent/application/authority_epoch_replacement_service.py:49-115 | only a restored authority with the expected epoch and version, and an audit row proving the restoration, gets the new epoch, at a new version and with its audit row |
| `Authority.AuthorityService.CompleteReconstruction` | src/research_agent/application/recovery_restoration_service.py:92-118 | restoration and replacement commit together or leave everything as it was |
| `AuthorityEffects.TransitionExactly` | src/research_agent/application/security_state_service.py:54-141 | an accepted request leaves and answers the state it asks for, one version on, with one audit row about it; it is accepted exactly outside recovery, at the expected version, for a reason that leads to the state and that the actor may give, and along an edge that raises the restriction, leaves DEGRADED for NORMAL, or passes through recovery; or without effect when the state already holds |
| `AuthorityEffects.StateWasNamed` | src/research_agent/application/security_state_service.py:54-141 | over any run, outside recovery the present state is the one that the last accepted request or restoration named, held ever since, or the one the run began in |
| `AuthorityEffects.InitializeExactly` | src/research_agent/application/authority_bootstrap.py:39-69 | a start for recovery raises the fence over the state and version it interrupts; any other start changes nothing; the answer is the authority then in force |
| `AuthorityEffects.EstablishedExactly` | src/research_agent/application/database_reconstruction_service.py:261-307 | a reconstruction fence is raised exactly on a row nothing was done to, with state, version and epoch of the manifest |
| `AuthorityEffects.PublishedExactly` | src/research_agent/application/database_reconstruction_service.py:309-352 | exactly a fence raised for the same manifest is published |
| `AuthorityEffects.CapturedExactly` | src/research_agent/application/recovery_context_service.py:106-157 | a new context is captured exactly behind a published fence for the present basis, and holds the inventory of the moment |
| `AuthorityEffects.CaptureReplays` | src/research_agent/application/recovery_context_service.py:106-157 | the identity of a stored context answers only the request that captured it, with what was captured then |
| `AuthorityEffects.GrantedExactly` | src/research_agent/application/authorization_service.py:82-147 | when a new grant is issued, and that it is the one asked for, under the present epoch |
| `AuthorityEffects.GrantReplays` | src/research_agent/application/authorization_service.py:82-100 | the identity of a stored grant answers only the request that was granted |
| `AuthorityEffects.ExecutionIssuedExactly` | src/research_agent/application/authorization_service.py:149-227 | when a new execution is issued: under a grant of the present epoch that covers its scope, time and context; and what it holds |
| `AuthorityEffects.PreparedExactly` | src/research_agent/application/recovery_restoration_service.py:164-236 | the preconditions of a restoration amount to a published fence at the epoch and version named, a context that still stands, and an execution in force for recovery of it; that the grant is in force and bound as well follows |
| `AuthorityEffects.RestoredExactly` | src/research_agent/application/recovery_restoration_service.py:120-162 | a prepared restoration leaves NORMAL under the same epoch, one version on, with one audit row naming what was presented |
| `AuthorityEffects.ReplacedExactly` | src/research_agent/application/authority_epoch_replacement_service.py:49-115 | when an epoch is replaced, and that nothing but epoch and version changes |
| `AuthorityEffects.ReconstructedExactly` | src/research_agent/application/recovery_restoration_service.py:92-118 | a combined restoration leaves NORMAL under the new epoch, two versions on, with the two audit rows in order, or everything as it was |
| `PlannerEvidence.ComponentOf` | src/research_agent/application/cycle_planner.py:72-84 | the expansion loop ends and computes the closure |
| `PlannerEvidence.ClosureIsLeast` | src/research_agent/application/cycle_planner.py:72-84 | the closure is the least superset of the referenced sources closed under declared edges |
| `PlannerEvidence.AttachEvidence` | src/research_agent/application/cycle_planner.py:28-94 | the basis with the payload of its evidence |
| `PlannerEvidence.EvidenceIsAttached` | src/research_agent/application/cycle_planner.py:33-34 | attaching evidence only adds a fingerprint, and keeps one that is there |
| `PlannerEvidence.FingerprintIsLocal` | src/research_agent/application/cycle_planner.py:28-94 | for a narrow basis over a complete projection two states give the same fingerprint exactly when they hold the same referenced claims, sources, hypothesis and component |
| `PlannerEvidence.SourceIdsExactly` | src/research_agent/application/cycle_planner.py:36-49 | the sources a particular basis refers to: those it lists or names and those its claims cite |
| `PlannerEvidence.FingerprintIsWhole` | src/research_agent/application/cycle_planner.py:39-66 | for every other reason the fingerprint is of the whole investigation: two states give the same one exactly when all claims, sources, hypotheses and the projection are the same |
| `PlannerEvidence.FingerprintKeepsProjection` | src/research_agent/application/cycle_planner.py:64-69 | a particular basis keeps the whole projection when dependence is in question or the projection is incomplete |
| `PlannerReviews.FreshReviewIsCurrent` | src/research_agent/application/cycle_planner.py:111-133 | a review recorded with the present evidence below it and below what it cites is current |
| `PlannerReviews.ReviewStaysCurrentExactly` | src/research_agent/application/cycle_planner.py:124-144 | a current review of a narrow objective stays current exactly as long as what it refers to and cites is the same |
| `PlannerReviews.ReviewedCompleteExactly` | src/research_agent/application/cycle_planner.py:147-169 | the newest cycle with a reviewed occurrence governs, and every occurrence in it must be closed |
| `PlannerHistory.ReviewedByCycles` | src/research_agent/application/cycle_planner.py:147-169 | an objective counts as reviewed exactly when, in the newest cycle with a reviewed occurrence, the last review of every occurrence completes it, is current, and is about the basis asked for |
| `PlannerLedger.ReadLedger` | src/research_agent/application/cycle_planner.py:176-206 | the loop over finished cycles replays their events |
| `Basics.StripTakesEnds` | src/research_agent/application/cycle_planner.py:181-188 | stripping an objective takes whitespace off both ends and nothing else |
| `PlannerLedger.CompletedIsLast` | src/research_agent/application/cycle_planner.py:192-203 | an identity counts as completed exactly when its last occurrence was finished |
| `PlannerLedger.OutstandingIsLast` | src/research_agent/application/cycle_planner.py:192-206 | an objective is outstanding exactly when its last occurrence was not finished |
| `PlannerLedger.LedgerInAnyOrder` | src/research_agent/application/cycle_planner.py:181-207 | the completed identities and the open objectives with their bases do not depend on that order |
| `PlannerHistory.CompletedByCycles` | src/research_agent/application/cycle_planner.py:176-206 | in terms of the cycles: an identity is completed exactly when, in the newest ended cycle that finishes or reopens it, its last such occurrence is finished, that is the cycle completed, did not review it and did not leave it unresolved |
| `PlannerHistory.OpenByCycles` | src/research_agent/application/cycle_planner.py:176-207 | an objective is open with a basis exactly when the last thing the newest ended cycle mentioning it says of it is a review, that it is unresolved, or that it is an unresolved text the cycle does not list |
| `PlannerHistory.UnresolvedIsCandidate` | src/research_agent/application/cycle_planner.py:181-207 | every non-blank text the newest ended cycle left unresolved is a candidate again |
| `PlannerHistory.FinishedIsNoLeftover` | src/research_agent/application/cycle_planner.py:192-204 | what the newest ended cycle finished without reviewing it is not brought up again unless the evidence suggests it |
| `Planner.PickIsPlain` | src/research_agent/application/cycle_planner.py:368-383 | the greedy loop makes the plain selection: stable sort, drop what is closed or finished, one of each identity, three |
| `Planner.PlanObjectives` | src/research_agent/application/cycle_planner.py:172-399 | the plan is the one of that selection |
| `Planner.ChosenIsBest` | src/research_agent/application/cycle_planner.py:364-383 | at most three, distinct, in order of priority; an eligible candidate is passed over only for one of its identity or for three of no later priority |
| `Planner.ChosenInAnyOrder` | src/research_agent/application/cycle_planner.py:181-207 | in whatever order the unresolved objectives of each cycle are visited, the choice is best in that sense and agrees with that of every other order, up to candidates of the last priority chosen |
| `PlannerHistory.CandidatesExactly` | src/research_agent/application/cycle_planner.py:364-369 | the candidates are what the evidence suggests and, at first priority and with a fresh basis, what was left open and is not among it |
| `PlannerHistory.ChosenExactly` | src/research_agent/application/cycle_planner.py:364-383 | the plan takes at most three different due objectives in order, what was left open counting as first priority, and passes over a due candidate only for the same objective or for three no later |
| `PlannerHistory.PlanExactly` | src/research_agent/application/cycle_planner.py:371-399 | the plan lists the chosen objectives with their bases under the present evidence, else the review of the stopping criteria, else nothing |
| `Planner.PlanShape` | src/research_agent/application/cycle_planner.py:384-399 | the two lists match and name distinct identities, and are empty only when nothing is eligible and the stopping review is completed |
| `CycleInvariant.ProgressedFacts` | src/research_agent/application/cycle_progress.py:91-144 | progress keeps a cycle sound and loses nothing |
| `CycleInvariant.EndedFacts` | src/research_agent/application/research_service.py:337-407 | so does an accepted outcome |
| `CycleInvariant.WritesKeepSound` | src/research_agent/application/research_service.py:212-429 | every write to one cycle keeps the whole state sound |
| `CycleRuns.RunKeepsSound` | src/research_agent/application/research_service.py:139-473 | at most one active cycle per investigation, one running attempt on it, and sound results, after any mix of requests |
| `CycleRuns.NothingLost` | src/research_agent/application/research_service.py:337-407 | evidence, claims and results of every cycle only grow at their ends, attempted objectives are kept, and a finished cycle never changes |
| `CycleRuns.RunningAttemptPlace` | src/research_agent/application/research_service.py:248-274 | a running attempt has one place, the single active cycle, and is the only one there |
| `CycleRuns.ProgressOnOwnCycle` | src/research_agent/application/cycle_progress.py:60-120 | progress is only committed to the active cycle of an active investigation, by the one running attempt of that very cycle, although only the task of the attempt is compared |
| `CycleRuns.InterruptRepeats` | src/research_agent/application/cycle_interruption.py:79-98 | an accepted interruption may be repeated at any later time without effect |
| `Cycles.CycleService.StartCycle` | src/research_agent/application/research_service.py:212-275 | only a planned cycle of an active investigation without another active cycle starts, together with its attempt; starting the active one again has no effect |
| `Cycles.CycleService.RecordProgress` | src/research_agent/application/cycle_progress.py:77-167 | progress of a running attempt is merged into the results, the lists and the attempt within the bounds, or nothing changes |
| `Cycles.CycleService.RecordCycleOutcome` | src/research_agent/application/research_service.py:317-429 | an outcome is merged with all committed progress and closes cycle and running attempts, or nothing changes |
| `Cycles.CycleService.RecoverCycle` | src/research_agent/application/research_service.py:277-315 | only the active cycle exactly as it was shown is failed, with its running attempt and all its progress kept |
| `Cycles.CycleService.CloseInterrupted` | src/research_agent/application/cycle_interruption.py:38-155 | exactly one running attempt and its cycle are closed with one event; a repeat has no effect and a mismatch conflicts |
| `Cycles.CycleService.PlanNextCycle` | src/research_agent/application/research_service.py:139-159 | a next cycle is appended under the next number only when none is active and there is something to plan |
| `Cycles.CycleService.ChangeStatus` | src/research_agent/application/research_service.py:438-473 | the status moves only along the allowed transitions from the expected one; a repeat has no effect |
| `CycleEffects.ProgressExactly` | src/research_agent/application/cycle_progress.py:77-143 | progress is accepted exactly from a running attempt of an active investigation for existing objectives within the bounds; the cycle, the result of every objective named and the attempt gain exactly the sources and claims submitted |
| `CycleEffects.OutcomeExactly` | src/research_agent/application/research_service.py:317-429 | an outcome is accepted exactly if it fits together with what was committed; the cycle then holds exactly both and its running attempt is closed with the corresponding status |
| `CycleEffects.TaskCreated` | src/research_agent/application/research_service.py:109-137 | a new investigation is active and has one planned, empty cycle with the number one |
| `CycleEffects.PlannedExactly` | src/research_agent/application/research_service.py:139-159 | when a next cycle is planned, with a number above all others and empty |
| `CycleEffects.StartedExactly` | src/research_agent/application/research_service.py:212-275 | when a cycle starts, and the attempt that starts with it |
| `CycleEffects.RecoveredExactly` | src/research_agent/application/research_service.py:277-315 | when the operator fails a cycle, what stays, and that an active investigation is paused |
| `CycleEffects.InterruptedExactly` | src/research_agent/application/cycle_interruption.py:38-155 | an interruption takes effect exactly on the running attempt of the active cycle, and what it leaves |
| `CycleEffects.StatusExactly` | src/research_agent/application/research_service.py:438-473 | the status moves exactly along allowed edges from the expected one; an ended investigation can only be archived |
| `CycleEffects.AttemptFinishedExactly` | src/research_agent/application/cycle_progress.py:169-178 | a runner closes its attempt once, and nothing else changes |
| `ProviderBudget.BudgetHolds` | src/research_agent/application/provider_budget_service.py:79-139 | under any interleaving and clock the attempts that count never exceed the limit |
| `ProviderBudget.ReservedExactly` | src/research_agent/application/provider_budget_service.py:79-127 | a reservation is made exactly when the task is known, the identity unused and fewer attempts stand than the limit, overdue reservations aside |
| `ProviderBudget.DispatchedInTime` | src/research_agent/application/provider_budget_service.py:141-160 | whatever became of a dispatched reservation, it was dispatched before it expired and with the capability |
| `ProviderBudget.UnknownHasReason` | src/research_agent/application/provider_budget_service.py:162-218 | a dispatched attempt only becomes unknown by report, or written off when overdue |
| `ProviderBudget.AttemptLife` | src/research_agent/application/provider_budget_service.py:141-218 | final attempts never change, a dispatched attempt never expires, no attempt disappears |
| `ProviderBudget.EventsMirrorStatus` | src/research_agent/application/provider_budget_service.py:69-218 | after any interleaving the audit events of an attempt are one reservation and one event for each change of status, along the legal changes, ending in the stored one |
| `ProviderBudget.OutcomeRepeats` | src/research_agent/application/provider_budget_service.py:162-180 | a recorded outcome may be reported again without effect |
| `ProviderBudget.ProviderBudgetService.Reserve` | src/research_agent/application/provider_budget_service.py:79-139 | the reservation is made exactly when fewer attempts count than the limit once overdue ones expired; a refused one leaves even those alone |
| `ProviderBudget.ProviderBudgetService.ExpireOverdue` | src/research_agent/application/provider_budget_service.py:88-106 | the loop expires exactly the overdue reservations, with one event each |
| `ProviderBudget.ProviderBudgetService.Dispatch` | src/research_agent/application/provider_budget_service.py:141-160 | only a pending reservation in time is dispatched; an expired one is recorded as such although the request fails |
| `ProviderBudget.ProviderBudgetService.Finish` | src/research_agent/application/provider_budget_service.py:162-195 | only a dispatched or unknown attempt gets an outcome, or a pending one a failure; an equal repeat has no effect and a conflict changes nothing |
| `ProviderBudget.ProviderBudgetService.Recover` | src/research_agent/application/provider_budget_service.py:197-218 | only an overdue dispatch becomes unknown; a repeat has no effect |
| `ProviderBudgetEffects.FinishedExactly` | src/research_agent/application/provider_budget_service.py:162-195 | an outcome is accepted exactly for a dispatched or unknown attempt, as the failure of a reservation, or repeated; the status recorded is the one reported, with the event that reports it |
| `ProviderBudgetEffects.DispatchedExactly` | src/research_agent/application/provider_budget_service.py:141-160 | remote work starts exactly on a pending reservation in time; one past its time is recorded as expired |
| `ProviderBudgetEffects.RecoveredExactly` | src/research_agent/application/provider_budget_service.py:197-218 | exactly an overdue dispatch of the task is written off as unknown |
| `ProviderBudgetEffects.ReservationRecords` | src/research_agent/application/provider_budget_service.py:79-139 | an accepted reservation is pending for the time given, exactly the overdue ones of the task have expired, and one event each says so |

## Left out

- Sessions, locks, isolation levels and concurrent conflicts at the database: each transaction is one step.
- Processes, files, URLs, HTTP routes, the command line and the web interface.
- Validation that only bounds the length or format of a field; negative objective indexes of runner progress, which are rejected before anything is read.
- The capability checks of the memory, source-dependence, cycle and budget services: whether they pass is an input. The policy of security transitions is modelled.
- A missing or undecodable security-state row: the table always holds its one row, and its columns have checked values.
- An archive whose rows were not written by the modelled services: an import loads the tables of a sound authority.
- The candidates that the planner derives from hypotheses, claims, sources, questions, agent observations and dependence: they are an input of the selection.
- Recording objective reviews, stopping decisions, reports and snapshots, and `CycleProgress.start`, a second creator of attempts that the runners do not use.
- The public audit events of memory changes, and the independent record of denied memory requests.
- Cycles.CycleService.RecoverCycle: with several running attempts the source would close the most recently started one; there is never more than one (`CycleRuns.RunKeepsSound`).
- ProviderBudget.ProviderBudgetService.ExpireOverdue: the order in which overdue reservations expire is by identity, while the source leaves it open.
