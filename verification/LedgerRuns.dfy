/** Planned batches against the store, and what every run of commands on one memory item keeps. */
module LedgerRuns {
  import opened Text
  import opened Ledger
  import opened Planner
  import opened LedgerSteps

  // ---------------------------------------------------------------- the shape of a planned batch

  function StageChanges(stages: seq<Stage>): (c: seq<Change>)
    ensures |c| == |stages|
    ensures forall i :: 0 <= i < |c| ==> c[i] == stages[i].change
  {
    seq(|stages|, i requires 0 <= i < |stages| => stages[i].change)
  }

  /** The activation in third place is of the trusted revision in first place, accepted in second place. */
  predicate Supported(c0: Change, c1: Change, id: string) {
    && Introduced(c0).Some?
    && Introduced(c0).value.id == id
    && Trusted(Introduced(c0).value.facts)
    && c1.RevisionValidated?
    && c1.revisionId == id
    && c1.validation.verdict == Accepted
    && c1.validation.contentHash == Introduced(c0).value.facts.contentHash
  }

  ghost predicate Shaped(hash: string -> string, stages: seq<Stage>) {
    && 1 <= |stages| <= MAX_COMMAND_OPERATIONS
    && (forall i, j :: 0 <= i < j < |stages| ==> stages[i].name != stages[j].name)
    && SidecarFits(hash, stages[0].change, stages[0].content)
    && (forall i :: 0 < i < |stages| ==> Introduced(stages[i].change).None? && stages[i].content.None?)
    && (forall i :: 0 <= i < |stages| && stages[i].change.RevisionActivated? ==>
          i == 2 && Supported(stages[0].change, stages[1].change, stages[i].change.revisionId))
    && (|stages| > 1 ==> Introduced(stages[0].change).Some?)
    && (forall i :: 0 < i < |stages| ==> !stages[i].change.MemoryDeleted?)
  }

  lemma ReplacingShape(hash: string -> string, name: Label, change: Change, draft: Draft, v: Validation, replaced: string)
    requires name in {Revise, Approve}
    requires Introduced(change).Some? && Introduced(change).value.id == draft.id
    requires Introduced(change).value.facts == draft.facts && ExplicitAccepted(draft, v)
    requires draft.facts.contentHash == hash(draft.content) == v.contentHash && !draft.facts.sensitivity.Secret?
    ensures Shaped(hash, ReplacingStages(name, change, draft, v, replaced).list)
  {
  }

  lemma OpeningShape(hash: string -> string, first: Stage, draft: Draft, v: Validation, activated: bool)
    requires first.name in {Create, Propose} && first.content == Some(Sidecar(draft.id, draft.content))
    requires Introduced(first.change).Some? && Introduced(first.change).value.id == draft.id
    requires Introduced(first.change).value.facts == draft.facts
    requires activated ==> ExplicitAccepted(draft, v)
    requires draft.facts.contentHash == hash(draft.content) == v.contentHash && !draft.facts.sensitivity.Secret?
    ensures var opening := [first, ValidateStage(draft.id, v)];
            Shaped(hash, if activated then opening + [ActivateStage(draft.id)] else opening)
  {
  }

  /** Every batch the planner emits has the shape, whatever the command and the snapshot. */
  lemma PlannedShape(hash: string -> string, command: Command, at: int, ops: seq<Operation>, rs: seq<Revision>,
                     outcome: Result<Validation>)
    requires StagesOf(command, at, ops, rs, outcome).Ok? && Honest(hash, command.request, outcome)
    ensures Shaped(hash, StagesOf(command, at, ops, rs, outcome).value.list)
  {
    match command.request
    case CreateMemory(scope, kind, draft) =>
      OpeningShape(hash, Introduce(Create, MemoryCreated(scope, kind, FromDraft(draft, at, None)), draft), draft,
                   outcome.value, ExplicitAccepted(draft, outcome.value));
    case ProposeRevision(draft, supersedes) =>
      OpeningShape(hash, Introduce(Propose, RevisionProposed(FromDraft(draft, at, Some(supersedes))), draft), draft,
                   outcome.value, false);
    case ReviseMemory(draft, supersedes) =>
      ReplacingShape(hash, Revise, MemoryRevised(FromDraft(draft, at, Some(supersedes))), draft,
                     outcome.value, supersedes);
    case ApproveProposal(proposalId, draft) =>
      var replaced := Replaced(rs, proposalId);
      ReplacingShape(hash, Approve, ProposalApproved(proposalId, FromDraft(draft, at, Some(replaced))), draft,
                     outcome.value, replaced);
    case _ =>
  }

  // ---------------------------------------------------------------- the effect of a planned batch

  /** The one thing the planner leaves to the store: a created item starts at revision one. */
  predicate StartsAtOne(request: Request) {
    request.CreateMemory? ==> request.draft.number == 1
  }

  /** Where the item's pointer is after a batch: on the activated revision, nowhere after a removal, or as before. */
  function PointerAfter(pointer: Option<string>, stages: seq<Stage>): (r: Option<string>)
    requires stages != []
  {
    match Introduced(stages[0].change)
    case Some(revision) => if |stages| > 2 then Some(revision.id) else pointer
    case None => if stages[0].change.MemoryDeleted? || stages[0].change.MemoryRetracted? then None else pointer
  }

  /** What a batch leads to, seen from the projection before it. */
  ghost predicate Leads(p: Projection, stages: seq<Stage>, q: Projection)
    requires stages != []
  {
    && ProjectAll(p, StageChanges(stages)) == Some(q)
    && Sound(q)
    && Advances(p.revisions, q.revisions)
    && q.pointer == PointerAfter(p.pointer, stages)
    && match Introduced(stages[0].change)
       case None => |q.revisions| == |p.revisions|
       case Some(r) =>
         && Find(p.revisions, r.id).None?
         && |q.revisions| == |p.revisions| + 1
         && q.revisions[|p.revisions|] == r.(status := if |stages| > 2 then Active else Proposed)
  }

  predicate Agrees(v: Validation, draft: Draft) {
    v.contentHash == draft.facts.contentHash
  }

  lemma NextFromGuard(p: Projection, draft: Draft, at: int, supersedes: Option<string>)
    requires Sound(p) && |p.revisions| + 1 < U64_LIMIT && NextRevision(p.revisions, draft)
    ensures Next(p.revisions, FromDraft(draft, at, supersedes))
  {
  }

  lemma CreateLeads(at: int, scope: string, kind: string, draft: Draft, v: Validation) returns (q: Projection)
    requires CreateStages(at, scope, kind, draft, Ok(v)).Ok? && draft.number == 1 && Agrees(v, draft)
    ensures Leads(BLANK, CreateStages(at, scope, kind, draft, Ok(v)).value.list, q)
  {
    var r := FromDraft(draft, at, None);
    var stages := CreateStages(at, scope, kind, draft, Ok(v)).value.list;
    ProjectsCreation(scope, kind, r, v);
    var c0, c1, c2 := MemoryCreated(scope, kind, r), RevisionValidated(r.id, v), RevisionActivated(r.id);
    q := if ExplicitAccepted(draft, v) then Projection([r.(status := Active)], Some(r.id)) else Projection([r], None);
    assert StageChanges(stages) == if ExplicitAccepted(draft, v) then [c0, c1, c2] else [c0, c1];
    CreatedIsSound(q, r);
  }

  lemma CreatedIsSound(q: Projection, r: Revision)
    requires r.number == 1 && r.supersedes.None?
    requires || (q == Projection([r], None) && r.status.Proposed?)
             || (q == Projection([r.(status := Active)], Some(r.id)) && Trusted(r.facts))
    ensures Sound(q)
  {
    FindAt(q.revisions, 0);
    assert Descends(q.revisions, 0);
  }

  lemma ProposeLeads(at: int, p: Projection, draft: Draft, supersedes: string, v: Validation) returns (q: Projection)
    requires Sound(p) && |p.revisions| + 1 < U64_LIMIT && Agrees(v, draft)
    requires ProposeStages(at, p.revisions, draft, supersedes, Ok(v)).Ok?
    ensures Leads(p, ProposeStages(at, p.revisions, draft, supersedes, Ok(v)).value.list, q)
  {
    var r := FromDraft(draft, at, Some(supersedes));
    NextFromGuard(p, draft, at, Some(supersedes));
    ProjectsProposal(p, r, v);
    ProposalKeeps(p, r, supersedes);
    q := p.(revisions := p.revisions + [r]);
    var stages := ProposeStages(at, p.revisions, draft, supersedes, Ok(v)).value.list;
    assert StageChanges(stages) == [RevisionProposed(r), RevisionValidated(r.id, v)];
  }

  lemma ReviseLeads(at: int, p: Projection, draft: Draft, supersedes: string, v: Validation) returns (q: Projection)
    requires Sound(p) && |p.revisions| + 1 < U64_LIMIT && Agrees(v, draft)
    requires ReviseStages(at, p.revisions, draft, supersedes, Ok(v)).Ok?
    ensures Leads(p, ReviseStages(at, p.revisions, draft, supersedes, Ok(v)).value.list, q)
  {
    var r := FromDraft(draft, at, Some(supersedes));
    NextFromGuard(p, draft, at, Some(supersedes));
    ProjectsRevision(p, r, v, supersedes);
    RevisionKeeps(p, r, supersedes);
    q := Succeeded(p.revisions, supersedes, r);
    var stages := ReviseStages(at, p.revisions, draft, supersedes, Ok(v)).value.list;
    assert StageChanges(stages) == [MemoryRevised(r), RevisionValidated(r.id, v), RevisionActivated(r.id),
                                    RevisionSuperseded(supersedes, r.id)];
  }

  lemma ApproveLeads(at: int, p: Projection, draft: Draft, proposalId: string, v: Validation) returns (q: Projection)
    requires Sound(p) && |p.revisions| + 1 < U64_LIMIT && Agrees(v, draft)
    requires ApproveStages(at, p.revisions, draft, proposalId, Ok(v)).Ok?
    ensures Leads(p, ApproveStages(at, p.revisions, draft, proposalId, Ok(v)).value.list, q)
  {
    var replaced := Replaced(p.revisions, proposalId);
    var r := FromDraft(draft, at, Some(replaced));
    NextFromGuard(p, draft, at, Some(replaced));
    ProjectsApproval(p, r, v, proposalId, replaced);
    ApprovalKeeps(p, r, proposalId, replaced);
    q := Succeeded(Decided(p, proposalId).revisions, replaced, r);
    var stages := ApproveStages(at, p.revisions, draft, proposalId, Ok(v)).value.list;
    assert StageChanges(stages) == [ProposalApproved(proposalId, r), RevisionValidated(r.id, v), RevisionActivated(r.id),
                                    RevisionSuperseded(replaced, r.id)];
  }

  lemma SingleLeads(p: Projection, id: string, stage: Stage, status: Status) returns (q: Projection)
    requires Sound(p)
    requires || (stage.change == MemoryRetracted(id) && status == Retracted && InState(p.revisions, id, {Active}))
             || (stage.change == MemoryDeleted(id) && status == Deleted
                 && InState(p.revisions, id, {Proposed, Active, Rejected, Retracted}))
             || (stage.change.RevisionRejected? && stage.change.revisionId == id && status == Rejected
                 && InState(p.revisions, id, {Proposed}))
    ensures Leads(p, [stage], q)
  {
    var pointer := if status == Rejected then p.pointer else None;
    q := Projection(SetStatus(p.revisions, id, status), pointer);
    RetiringKeeps(p, id, status, pointer);
    assert Project(p, stage.change) == Some(q);
    assert StageChanges([stage]) == [stage.change] && [stage.change][1..] == [];
    assert ProjectAll(q, []) == Some(q);
  }

  /** A planned batch always applies to the projection it was planned on, and leaves it sound. */
  lemma PlannedLeads(hash: string -> string, command: Command, at: int, ops: seq<Operation>, p: Projection,
                     outcome: Result<Validation>) returns (q: Projection)
    requires Sound(p) && |p.revisions| + 1 < U64_LIMIT && StartsAtOne(command.request)
    requires command.request.CreateMemory? ==> p == BLANK
    requires StagesOf(command, at, ops, p.revisions, outcome).Ok? && Honest(hash, command.request, outcome)
    ensures StagesOf(command, at, ops, p.revisions, outcome).value.list != []
    ensures Leads(p, StagesOf(command, at, ops, p.revisions, outcome).value.list, q)
  {
    match command.request
    case CreateMemory(scope, kind, draft) => q := CreateLeads(at, scope, kind, draft, outcome.value);
    case ProposeRevision(draft, supersedes) => q := ProposeLeads(at, p, draft, supersedes, outcome.value);
    case ReviseMemory(draft, supersedes) => q := ReviseLeads(at, p, draft, supersedes, outcome.value);
    case ApproveProposal(proposalId, draft) => q := ApproveLeads(at, p, draft, proposalId, outcome.value);
    case RejectRevision(id, reason) =>
      q := SingleLeads(p, id, Stage(Reject, RevisionRejected(id, reason), None), Rejected);
    case RetractMemory(id) => q := SingleLeads(p, id, Stage(Retract, MemoryRetracted(id), None), Retracted);
    case DeleteMemory(id) => q := SingleLeads(p, id, Stage(Delete, MemoryDeleted(id), None), Deleted);
    case _ =>
  }
}
