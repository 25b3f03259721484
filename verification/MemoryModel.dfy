/**
 Governed memory: claims and hypothesis assessments stored as records with link rows, and a journal of
 state documents. Each request is one atomic step under the task lock.
 */
module MemoryModel {
  import opened Basics
  import opened StableSort

  const REVERSAL_WINDOW: int := 48 * 3600

  datatype Kind = Claim | Assessment

  datatype Lifecycle = Active | Archived | LogicallyDeleted

  datatype Support = Supporting | Contradicting | Contextual

  /** A provenance link of a claim (other is a source) or an evidence link of an assessment (other is a claim). */
  datatype Link = Link(other: Id, support: Support, strength: real)

  /** Statement or summary, confidence, status, and the links. */
  datatype Data = Data(text: string, confidence: real, status: string, links: seq<Link>)

  /** The journaled form of a record. Assessments name their hypothesis. */
  datatype Document = Document(data: Data, lifecycle: Lifecycle, hypothesis: Option<Id>)

  datatype Record = Record(
    id: Id, task: Id, text: string, confidence: real, status: string, version: nat, lifecycle: Lifecycle, hypothesis: Option<Id>)

  datatype Target = Target(kind: Kind, id: Id)

  datatype LinkKey = LinkKey(owner: Target, other: Id)

  datatype Operation = CREATE | UPDATE | ARCHIVE | LOGICAL_DELETE | RESTORE | REVERSE

  datatype Actor = LocalOperator | ClaimExtractor | Model

  datatype Proposal = Proposal(
    changeId: Id, target: Target, operation: Operation, expectedVersion: nat, reason: string,
    payload: Option<Data>, hypothesis: Option<Id>)

  datatype Reversal = Reversal(changeId: Id, reason: string)

  datatype Request = Propose(proposal: Proposal) | Undo(original: Id, reversal: Reversal)

  datatype Change = Change(
    id: Id, task: Id, target: Target, operation: Operation, actor: Actor, time: Time, previousVersion: nat, version: nat,
    previous: Option<Document>, proposed: Document, resulting: Document, reason: string, provenance: seq<Id>,
    request: Request, reverses: Option<Id>)

  datatype Task = Task(active: bool, hypotheses: set<Id>)

  type Links = map<LinkKey, (Support, real)>

  datatype State = State(
    tasks: map<Id, Task>, sources: map<Id, Id>, cycleClaims: map<Id, set<Id>>,
    records: map<Target, Record>, links: Links, journal: seq<Change>)

  /** Trusted caller context, the security capability, and the clock. */
  datatype Authority = Authority(actor: Actor, task: Id, canCommit: bool, capability: bool, now: Time)

  // ----- links: sorting, writing, reading

  /** Stable sort by the other end. */
  function SortLinks(links: seq<Link>): seq<Link> {
    SortBy(links, (link: Link) => link.other.number)
  }

  function Others(links: seq<Link>): seq<Id> {
    seq(|links|, i requires 0 <= i < |links| => links[i].other)
  }

  predicate UniqueOthers(links: seq<Link>) {
    |Elements(Others(links))| == |links|
  }

  function OwnOthers(links: Links, owner: Target): set<Id> {
    set key | key in links && key.owner == owner :: key.other
  }

  function LinksFor(links: Links, owner: Target, others: seq<Id>): seq<Link>
    requires forall o | o in others :: LinkKey(owner, o) in links
  {
    seq(|others|, i requires 0 <= i < |others| =>
      Link(others[i], links[LinkKey(owner, others[i])].0, links[LinkKey(owner, others[i])].1))
  }

  /** The links of a record, ordered by the other end. */
  function ReadLinks(links: Links, owner: Target): seq<Link> {
    var others := Sorted(OwnOthers(links, owner));
    assert forall o | o in others :: o in Elements(others);
    LinksFor(links, owner, others)
  }

  function WithoutOwner(links: Links, owner: Target): Links {
    map key | key in links && key.owner != owner :: links[key]
  }

  function AddLinks(links: Links, owner: Target, added: seq<Link>): Links {
    if added == [] then links
    else
      var last := added[|added| - 1];
      AddLinks(links, owner, added[..|added| - 1])[LinkKey(owner, last.other) := (last.support, last.strength)]
  }

  // ----- reading and validating documents

  function Read(s: State, target: Target): Document
    requires target in s.records
  {
    var r := s.records[target];
    Document(Data(r.text, r.confidence, r.status, ReadLinks(s.links, target)), r.lifecycle, r.hypothesis)
  }

  function Provenance(data: Data): set<(Id, Support)> {
    set link | link in data.links :: (link.other, link.support)
  }

  predicate SourcesOfTask(s: State, task: Id, links: seq<Link>) {
    forall link | link in links :: link.other in s.sources && s.sources[link.other] == task
  }

  predicate ActiveClaimsOfTask(s: State, task: Id, links: seq<Link>) {
    forall link | link in links ::
      var claim := Target(Claim, link.other);
      claim in s.records && s.records[claim].task == task && s.records[claim].lifecycle == Active
  }

  /** Some assessment, whatever its lifecycle, or some cycle of the task refers to the claim. */
  predicate HasDependents(s: State, task: Id, claim: Id) {
    || (exists key | key in s.links :: key.owner.kind == Assessment && key.other == claim)
    || (task in s.cycleClaims && claim in s.cycleClaims[task])
  }

  predicate HypothesisTaken(s: State, task: Id, hypothesis: Option<Id>, target: Target) {
    exists t | t in s.records ::
      t.kind == Assessment && t != target && s.records[t].task == task && s.records[t].hypothesis == hypothesis
  }

  /** The checks on a new state document; None when it may be written. */
  function Validate(
    s: State, task: Id, target: Target, before: Option<Document>, after: Document, allowRemoval: bool): Option<Error>
    requires task in s.tasks
  {
    var links := after.data.links;
    if links == [] then Some(Invalid)
    else if target.kind == Claim then
      if !UniqueOthers(links) || !SourcesOfTask(s, task, links) then Some(Invalid)
      else if before.Some? && !allowRemoval && !(Provenance(before.value.data) <= Provenance(after.data)) then Some(Conflict)
      else if before.Some? && before.value != after && HasDependents(s, task, target.id) then Some(Conflict)
      else None
    else
      if after.hypothesis == None || after.hypothesis.value !in s.tasks[task].hypotheses then Some(Invalid)
      else if HypothesisTaken(s, task, after.hypothesis, target) then Some(Conflict)
      else if !UniqueOthers(links) || !ActiveClaimsOfTask(s, task, links) then Some(Invalid)
      else None
  }

  /** The document a proposal leads to, before validation. */
  function Proposed(before: Option<Document>, p: Proposal): Result<Document> {
    if p.operation == CREATE || p.operation == UPDATE then
      if before.Some? && before.value.lifecycle != Active then Err(Conflict)
      else if p.payload == None then Err(Conflict)
      else
        var hypothesis := if p.target.kind == Claim then None
                          else if before == None then p.hypothesis else before.value.hypothesis;
        Ok(Document(p.payload.value, Active, hypothesis))
    else match before
      case None => Err(Conflict)
      case Some(document) =>
        match p.operation
        case ARCHIVE =>
          if document.lifecycle == Active then Ok(document.(lifecycle := Archived)) else Err(Conflict)
        case LOGICAL_DELETE =>
          if document.lifecycle != LogicallyDeleted then Ok(document.(lifecycle := LogicallyDeleted)) else Err(Conflict)
        case RESTORE =>
          if document.lifecycle != Active then Ok(document.(lifecycle := Active)) else Err(Conflict)
        case _ => Err(Conflict)
  }

  /** Components that propose automatically may only create unverified claims, in active investigations. */
  predicate ActorMay(s: State, authority: Authority, p: Proposal)
    requires authority.task in s.tasks
  {
    authority.actor == LocalOperator ||
    (&& p.operation == CREATE && p.target.kind == Claim && p.payload.Some? && p.payload.value.status == "unverified"
     && s.tasks[authority.task].active)
  }

  datatype Prepared = Prepared(before: Option<Document>, after: Document)

  function Before(s: State, target: Target): Option<Document> {
    if target in s.records then Some(Read(s, target)) else None
  }

  /** Everything that is decided before writing. */
  function Prepare(s: State, authority: Authority, p: Proposal): Result<Prepared>
    requires authority.task in s.tasks
  {
    var present := p.target in s.records;
    if present && s.records[p.target].task != authority.task then Err(Conflict)
    else if present == (p.operation == CREATE) then Err(Conflict)
    else if present && s.records[p.target].version != p.expectedVersion then Err(Conflict)
    else
      var before := Before(s, p.target);
      match Proposed(before, p)
      case Err(e) => Err(e)
      case Ok(raw) =>
        if !ActorMay(s, authority, p) then Err(Denied)
        else
          var after := raw.(data := raw.data.(links := SortLinks(raw.data.links)));
          match Validate(s, authority.task, p.target, before, after, false)
          case Some(e) => Err(e)
          case None => Ok(Prepared(before, after))
  }

  // ----- writing

  function Version(s: State, target: Target): nat {
    if target in s.records then s.records[target].version else 0
  }

  function WrittenRecord(s: State, task: Id, target: Target, after: Document): Record {
    var data := after.data;
    if target in s.records then
      s.records[target].(text := data.text, confidence := data.confidence, status := data.status,
                         version := Version(s, target) + 1, lifecycle := after.lifecycle)
    else
      Record(target.id, task, data.text, data.confidence, data.status, 1, after.lifecycle,
        if target.kind == Claim then None else after.hypothesis)
  }

  function ChangeOf(
    s: State, authority: Authority, id: Id, target: Target, operation: Operation, reason: string,
    before: Option<Document>, after: Document, request: Request, reverses: Option<Id>): Change
  {
    Change(id, authority.task, target, operation, authority.actor, authority.now, Version(s, target), Version(s, target) + 1,
      before, after, after, reason, Others(after.data.links), request, reverses)
  }

  function Written(s: State, task: Id, target: Target, after: Document, change: Change): State {
    s.(records := s.records[target := WrittenRecord(s, task, target, after)],
       links := AddLinks(WithoutOwner(s.links, target), target, after.data.links),
       journal := s.journal + [change])
  }

  function FindChange(journal: seq<Change>, id: Id): (r: Option<Change>)
    ensures r.Some? ==> r.value in journal && r.value.id == id
    ensures r == None ==> forall c | c in journal :: c.id != id
  {
    if journal == [] then None
    else if journal[0].id == id then Some(journal[0])
    else FindChange(journal[1..], id)
  }

  function FindReversal(journal: seq<Change>, original: Id): (r: Option<Change>)
    ensures r.Some? ==> r.value in journal && r.value.reverses == Some(original)
    ensures r == None ==> forall c | c in journal :: c.reverses != Some(original)
  {
    if journal == [] then None
    else if journal[0].reverses == Some(original) then Some(journal[0])
    else FindReversal(journal[1..], original)
  }

  function StageSpec(s: State, authority: Authority, p: Proposal): (State, Result<Change>) {
    if !authority.canCommit || authority.actor == Model then (s, Err(Denied))
    else if authority.task !in s.tasks then (s, Err(NotFound))
    else if !authority.capability then (s, Err(Denied))
    else
      var prior := FindChange(s.journal, p.changeId);
      if prior.Some? then
        if prior.value.task != authority.task || prior.value.actor != authority.actor || prior.value.request != Propose(p)
        then (s, Err(Conflict))
        else (s, Ok(prior.value))
      else match Prepare(s, authority, p)
        case Err(e) => (s, Err(e))
        case Ok(prepared) =>
          var change := ChangeOf(s, authority, p.changeId, p.target, p.operation, p.reason,
                          prepared.before, prepared.after, Propose(p), None);
          (Written(s, authority.task, p.target, prepared.after, change), Ok(change))
  }

  /** What reversing a change writes: the previous document, or a logical deletion of a creation. */
  function Undone(original: Change, before: Document): Document {
    match original.previous
    case Some(previous) => previous
    case None => before.(lifecycle := LogicallyDeleted)
  }

  function ReverseSpec(s: State, authority: Authority, original: Id, reversal: Reversal): (State, Result<Change>) {
    if !authority.canCommit || authority.actor != LocalOperator || Blank(reversal.reason) then (s, Err(Denied))
    else if authority.task !in s.tasks then (s, Err(NotFound))
    else if !authority.capability then (s, Err(Denied))
    else match FindChange(s.journal, original)
      case None => (s, Err(Conflict))
      case Some(change) =>
        var duplicate := FindReversal(s.journal, original);
        if change.task != authority.task || change.reverses.Some? then (s, Err(Conflict))
        else if duplicate.Some? then (s, Ok(duplicate.value))
        else if FindChange(s.journal, reversal.changeId).Some? then (s, Err(Conflict))
        else if authority.now >= change.time + REVERSAL_WINDOW then (s, Err(Conflict))
        else if change.target !in s.records || s.records[change.target].task != authority.task
             || s.records[change.target].version != change.version then (s, Err(Conflict))
        else if Read(s, change.target) != change.resulting then (s, Err(Conflict))
        else
          var before := Read(s, change.target);
          var after := Undone(change, before);
          match Validate(s, authority.task, change.target, Some(before), after, true)
          case Some(e) => (s, Err(e))
          case None =>
            var undo := ChangeOf(s, authority, reversal.changeId, change.target, REVERSE, reversal.reason,
                          Some(before), after, Undo(original, reversal), Some(original));
            (Written(s, authority.task, change.target, after, undo), Ok(undo))
  }
}
