/**
 Revisioned memory items: lifecycle operations, the projection they fold into, the atomic store append
 and the rebuild of the projection from the operations alone.
 */
module Ledger {
  import opened Lists
  import opened Text

  const I64_MAX: nat := 0x7fff_ffff_ffff_ffff

  datatype Status = Proposed | Active | Superseded | Rejected | Retracted | Deleted

  datatype Origin = ExplicitUser | VerifiedTool | ImportedDocument | ModelProposal | Compaction

  datatype Trust = UserApproved | VerifiedObservation | Imported | UntrustedProposal

  datatype Sensitivity = Public | Internal | Sensitive | Secret

  /** Metadata of a revision that never changes; `rest` stands for confidence, validity, evidence and relations. */
  datatype Facts = Facts(subjectKey: Option<string>, contentHash: string, origin: Origin, trust: Trust,
                         sensitivity: Sensitivity, rest: string)

  datatype Revision = Revision(id: string, number: nat, status: Status, createdAt: int,
                               supersedes: Option<string>, facts: Facts)

  datatype Verdict = Accepted | NeedsReview | Refusal

  datatype Issue = PolicyConflict | MalformedContent | SecretDetected | Duplicate | Contradiction
                 | InjectionPattern | UngroundedEvidence

  datatype Validation = Validation(contentHash: string, verdict: Verdict, issues: set<Issue>,
                                   duplicates: set<string>, contradictions: set<string>)

  datatype Change =
    | MemoryCreated(scope: string, kind: string, revision: Revision)
    | RevisionProposed(revision: Revision)
    | MemoryRevised(revision: Revision)
    | ProposalApproved(proposalId: string, revision: Revision)
    | RevisionValidated(revisionId: string, validation: Validation)
    | RevisionActivated(revisionId: string)
    | RevisionSuperseded(revisionId: string, successor: string)
    | RevisionRejected(revisionId: string, reason: string)
    | MemoryRetracted(revisionId: string)
    | MemoryDeleted(revisionId: string)

  /** The names of the stages of a batch. */
  datatype Label = Create | Propose | Revise | Approve | Check | Enable | Supersede | Reject | Retract | Delete

  /** The hash of these three fields, taken to be collision free. */
  datatype OperationId = OperationId(commandId: string, memoryId: string, stage: Label)

  datatype Causation = ByCommand(commandId: string) | ByOperation(operationId: OperationId)

  datatype Operation = Operation(id: OperationId, memoryId: string, sequence: nat, occurredAt: int,
                                 causation: Causation, correlationId: string, change: Change)

  datatype Sidecar = Sidecar(revisionId: string, text: string)

  datatype Entry = Entry(operation: Operation, content: Option<Sidecar>)

  /** The revision that an operation introduces. */
  function Introduced(c: Change): (r: Option<Revision>) {
    match c
    case MemoryCreated(_, _, revision) => Some(revision)
    case RevisionProposed(revision) => Some(revision)
    case MemoryRevised(revision) => Some(revision)
    case ProposalApproved(_, revision) => Some(revision)
    case _ => None
  }

  // ---------------------------------------------------------------- the projection

  /** Revision rows in number order, and the item's pointer to its active revision. */
  datatype Projection = Projection(revisions: seq<Revision>, pointer: Option<string>)

  const BLANK: Projection := Projection([], None)

  function Find(revisions: seq<Revision>, id: string): (r: Option<nat>)
    ensures r.Some? ==> r.value < |revisions| && revisions[r.value].id == id
    ensures r.None? ==> forall i :: 0 <= i < |revisions| ==> revisions[i].id != id
  {
    FindFrom(revisions, (r: Revision) => r.id, id, 0)
  }

  /** The revision exists and is in one of the allowed states. */
  predicate InState(revisions: seq<Revision>, id: string, allowed: set<Status>) {
    var at := Find(revisions, id);
    at.Some? && revisions[at.value].status in allowed
  }

  function SetStatus(revisions: seq<Revision>, id: string, status: Status): (r: seq<Revision>)
    ensures |r| == |revisions|
    ensures forall i :: 0 <= i < |r| ==>
              r[i] == if revisions[i].id == id then revisions[i].(status := status) else revisions[i]
  {
    seq(|revisions|, i requires 0 <= i < |revisions| =>
      if revisions[i].id == id then revisions[i].(status := status) else revisions[i])
  }

  function LatestNumber(revisions: seq<Revision>): (n: nat) {
    if revisions == [] then 0 else revisions[|revisions| - 1].number
  }

  /** The revision under the pointer is superseded when another one takes its place. */
  function Deactivate(p: Projection, except: string): (r: seq<Revision>) {
    if p.pointer.Some? && p.pointer.value != except then SetStatus(p.revisions, p.pointer.value, Superseded)
    else p.revisions
  }

  function Insert(p: Projection, revision: Revision): (r: Option<Projection>) {
    if revision.number != LatestNumber(p.revisions) + 1 || Find(p.revisions, revision.id).Some? then None
    else if revision.status.Active? then
      Some(Projection(Deactivate(p, revision.id) + [revision], Some(revision.id)))
    else Some(p.(revisions := p.revisions + [revision]))
  }

  function Activate(p: Projection, id: string): (q: Projection) {
    Projection(SetStatus(Deactivate(p, id), id, Active), Some(id))
  }

  /** One lifecycle operation on the projection; nothing when the transition is invalid. */
  function Project(p: Projection, change: Change): (r: Option<Projection>) {
    match change
    case MemoryCreated(_, _, revision) =>
      if revision.number == 1 && revision.status in {Proposed, Active} then Insert(p, revision) else None
    case RevisionProposed(revision) => Insert(p, revision)
    case MemoryRevised(revision) => Insert(p, revision)
    case ProposalApproved(proposalId, revision) =>
      var inserted := Insert(p, revision);
      if !InState(p.revisions, proposalId, {Proposed}) || inserted.None? then None
      else Some(inserted.value.(revisions := SetStatus(inserted.value.revisions, proposalId, Superseded)))
    case RevisionValidated(id, validation) =>
      var at := Find(p.revisions, id);
      if InState(p.revisions, id, {Proposed, Active})
         && p.revisions[at.value].facts.contentHash == validation.contentHash then Some(p) else None
    case RevisionActivated(id) =>
      if InState(p.revisions, id, {Proposed}) then Some(Activate(p, id)) else None
    case RevisionSuperseded(id, successor) =>
      if InState(p.revisions, id, {Active, Superseded}) && InState(p.revisions, successor, {Active})
      then Some(p.(revisions := SetStatus(p.revisions, id, Superseded))) else None
    case RevisionRejected(id, _) =>
      if InState(p.revisions, id, {Proposed}) then Some(p.(revisions := SetStatus(p.revisions, id, Rejected)))
      else None
    case MemoryRetracted(id) =>
      if InState(p.revisions, id, {Active}) then Some(Projection(SetStatus(p.revisions, id, Retracted), None))
      else None
    case MemoryDeleted(id) =>
      if InState(p.revisions, id, {Proposed, Active, Rejected, Retracted})
      then Some(Projection(SetStatus(p.revisions, id, Deleted), None)) else None
  }

  /** The fold of a run of operations, stopping at the first invalid one. */
  function ProjectAll(p: Projection, changes: seq<Change>): (r: Option<Projection>)
    decreases |changes|
  {
    if changes == [] then Some(p)
    else
      var q := Project(p, changes[0]);
      if q.None? then None else ProjectAll(q.value, changes[1..])
  }

  lemma {:induction false} ProjectAllAppend(p: Projection, a: seq<Change>, b: seq<Change>)
    requires ProjectAll(p, a).Some?
    ensures ProjectAll(p, a + b) == ProjectAll(ProjectAll(p, a).value, b)
    decreases |a|
  {
    if a == [] {
      assert a + b == b;
    } else {
      assert (a + b)[1..] == a[1..] + b;
      ProjectAllAppend(Project(p, a[0]).value, a[1..], b);
    }
  }

  // ---------------------------------------------------------------- the store of one item

  /** `contents` holds the text of every revision whose text has not been erased. */
  datatype Item = Item(operations: seq<Operation>, projection: Projection, contents: map<string, string>)

  const NO_ITEM: Item := Item([], BLANK, map[])

  /** Identities that other items already own. */
  datatype Elsewhere = Elsewhere(commands: set<string>, revisions: set<string>)

  function LastSequence(operations: seq<Operation>): (n: nat) {
    if operations == [] then 0 else operations[|operations| - 1].sequence
  }

  function Changes(operations: seq<Operation>): (c: seq<Change>)
    ensures |c| == |operations|
    ensures forall i :: 0 <= i < |c| ==> c[i] == operations[i].change
  {
    seq(|operations|, i requires 0 <= i < |operations| => operations[i].change)
  }

  function OperationsOf(entries: seq<Entry>): (o: seq<Operation>)
    ensures |o| == |entries|
    ensures forall i :: 0 <= i < |o| ==> o[i] == entries[i].operation
  {
    seq(|entries|, i requires 0 <= i < |entries| => entries[i].operation)
  }

  /** An introduced revision comes with text that hashes to its metadata, and nothing else carries text. */
  predicate SidecarFits(hash: string -> string, change: Change, content: Option<Sidecar>) {
    var revision := Introduced(change);
    if revision.None? then content.None?
    else
      && content.Some?
      && content.value.revisionId == revision.value.id
      && revision.value.facts.sensitivity != Secret
      && hash(content.value.text) == revision.value.facts.contentHash
  }

  /** What one operation does to the retained texts: an introduction adds one, a deletion erases all. */
  function Keep(contents: map<string, string>, change: Change, content: Option<Sidecar>): (r: map<string, string>) {
    if change.MemoryDeleted? then map[]
    else if content.Some? then contents[content.value.revisionId := content.value.text]
    else contents
  }

  function KeepAll(contents: map<string, string>, entries: seq<Entry>): (r: map<string, string>)
    decreases |entries|
  {
    if entries == [] then contents
    else KeepAll(Keep(contents, entries[0].operation.change, entries[0].content), entries[1..])
  }

  predicate CausedWithin(entries: seq<Entry>, i: nat)
    requires i < |entries|
  {
    exists j :: 0 <= j < i && entries[i].operation.causation == ByOperation(entries[j].operation.id)
  }

  /** One entry of a batch that starts after `base`. */
  predicate EntryFits(hash: string -> string, base: nat, entries: seq<Entry>, i: nat)
    requires i < |entries|
  {
    var o, first := entries[i].operation, entries[0].operation;
    && o.memoryId == first.memoryId
    && o.correlationId == first.correlationId
    && o.sequence == base + 1 + i
    && o.sequence <= I64_MAX
    && (i > 0 ==> !o.change.MemoryCreated? && CausedWithin(entries, i))
    && SidecarFits(hash, o.change, entries[i].content)
  }

  /** Checked before the transaction: contiguous, one item, one correlation, distinct identities, rooted causes. */
  predicate WellFormedBatch(hash: string -> string, base: nat, entries: seq<Entry>) {
    && entries != []
    && (forall i :: 0 <= i < |entries| ==> EntryFits(hash, base, entries, i))
    && (forall i, j :: 0 <= i < j < |entries| ==> entries[i].operation.id != entries[j].operation.id)
  }

  predicate Known(operations: seq<Operation>, id: OperationId) {
    exists k :: 0 <= k < |operations| && operations[k].id == id
  }

  predicate CommandUsed(operations: seq<Operation>, commandId: string) {
    exists k :: 0 <= k < |operations| && operations[k].causation == ByCommand(commandId)
  }

  datatype Receipt = Committed(item: Item) | AlreadyCommitted | Declined

  /** The uniqueness constraints that span items. */
  predicate Unclaimed(elsewhere: Elsewhere, item: Item, entries: seq<Entry>)
    requires entries != []
  {
    && (entries[0].operation.causation.ByCommand? ==>
          var commandId := entries[0].operation.causation.commandId;
          commandId !in elsewhere.commands && !CommandUsed(item.operations, commandId))
    && (forall i :: 0 <= i < |entries| && Introduced(entries[i].operation.change).Some? ==>
          Introduced(entries[i].operation.change).value.id !in elsewhere.revisions)
  }

  /** A batch caused by an operation follows one of the item's own. */
  predicate CauseKnown(item: Item, entries: seq<Entry>)
    requires entries != []
  {
    entries[0].operation.causation.ByOperation? ==> Known(item.operations, entries[0].operation.causation.operationId)
  }

  /** The atomic append: every operation applies, or the item stays as it was. */
  function Append(hash: string -> string, elsewhere: Elsewhere, item: Item, base: nat, entries: seq<Entry>): (r: Receipt)
  {
    if !WellFormedBatch(hash, base, entries) then Declined
    else if forall i :: 0 <= i < |entries| ==> entries[i].operation in item.operations then AlreadyCommitted
    else if exists i :: 0 <= i < |entries| && Known(item.operations, entries[i].operation.id) then Declined
    else if LastSequence(item.operations) != base then Declined
    else if (base == 0) != entries[0].operation.change.MemoryCreated? then Declined
    else if !CauseKnown(item, entries) || !Unclaimed(elsewhere, item, entries) then Declined
    else
      var projected := ProjectAll(item.projection, Changes(OperationsOf(entries)));
      if projected.None? then Declined
      else Committed(Item(item.operations + OperationsOf(entries), projected.value, KeepAll(item.contents, entries)))
  }

  // ---------------------------------------------------------------- rebuilding

  predicate HasDeletion(changes: seq<Change>) {
    exists i :: 0 <= i < |changes| && changes[i].MemoryDeleted?
  }

  /** Every text the rebuild expects to find: nothing is expected of an item that was ever deleted. */
  predicate TextsPresent(item: Item) {
    HasDeletion(Changes(item.operations)) ||
    forall i :: 0 <= i < |item.operations| && Introduced(item.operations[i].change).Some? ==>
      Introduced(item.operations[i].change).value.id in item.contents
  }

  /** Drops the projection and replays the operations; a deletion anywhere costs every text of the item. */
  function Rebuild(item: Item): (r: Option<Item>) {
    var projected := ProjectAll(BLANK, Changes(item.operations));
    if projected.None? || !TextsPresent(item) then None
    else
      Some(Item(item.operations, projected.value,
                if HasDeletion(Changes(item.operations)) then map[] else item.contents))
  }
}
