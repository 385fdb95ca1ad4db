/** What each command does to a memory item, and exactly when it does it. */
module LedgerOutcomes {
  import opened Text
  import opened Ledger
  import opened Planner
  import opened LedgerSteps
  import opened LedgerRuns
  import opened LedgerItem

  // ---------------------------------------------------------------- what a command asks of the item

  /** Some revision has this identity and one of these states. */
  ghost predicate HasStatus(rs: seq<Revision>, id: string, allowed: set<Status>) {
    exists i :: 0 <= i < |rs| && rs[i].id == id && rs[i].status in allowed
  }

  /** The draft continues the item: the subject of the prior revision, the next number, a new identity. */
  ghost predicate Continues(rs: seq<Revision>, priorId: string, draft: Draft) {
    && (exists i :: 0 <= i < |rs| && rs[i].id == priorId && rs[i].facts.subjectKey == draft.facts.subjectKey)
    && draft.number == |rs| + 1
    && forall i :: 0 <= i < |rs| ==> rs[i].id != draft.id
  }

  /** The validator's verdict on the draft is one of these. */
  ghost predicate Judged(judge: Judge, scope: string, kind: string, draft: Draft, existing: set<Existing>,
                         verdicts: set<Verdict>) {
    var v := Validate(judge, scope, kind, draft, existing);
    v.Ok? && v.value.verdict in verdicts
  }

  /** The same in the scope and kind that the item was created with, against the other items. */
  ghost predicate JudgedHere(judge: Judge, item: Item, e: Event, draft: Draft, verdicts: set<Verdict>)
    requires item.operations != [] && item.operations[0].change.MemoryCreated?
  {
    var created := item.operations[0].change;
    Judged(judge, created.scope, created.kind, draft, Others(e.existing, e.command.memoryId), verdicts)
  }

  /** What the proposal was made against, if anything, is still active. */
  ghost predicate TargetStands(rs: seq<Revision>, proposalId: string) {
    forall i :: 0 <= i < |rs| && rs[i].id == proposalId && rs[i].supersedes.Some? ==>
      HasStatus(rs, rs[i].supersedes.value, {Active})
  }

  ghost predicate Guarded(judge: Judge, item: Item, e: Event)
    requires item.operations != [] ==> item.operations[0].change.MemoryCreated?
  {
    var rs := item.projection.revisions;
    if e.command.request.CreateMemory? then
      var request := e.command.request;
      && e.command.expected.None? && item.operations == [] && request.draft.number == 1
      && Judged(judge, request.scope, request.kind, request.draft, e.existing, {Accepted, NeedsReview})
    else
      && item.operations != [] && e.command.expected == Some(|item.operations|)
      && match e.command.request
         case ProposeRevision(draft, supersedes) =>
           && HasStatus(rs, supersedes, {Active}) && Continues(rs, supersedes, draft)
           && JudgedHere(judge, item, e, draft, {Accepted, NeedsReview})
         case ReviseMemory(draft, supersedes) =>
           && HasStatus(rs, supersedes, {Active}) && Continues(rs, supersedes, draft)
           && Trusted(draft.facts) && JudgedHere(judge, item, e, draft, {Accepted})
         case ApproveProposal(proposalId, draft) =>
           && HasStatus(rs, proposalId, {Proposed}) && TargetStands(rs, proposalId) && Continues(rs, proposalId, draft)
           && Trusted(draft.facts) && JudgedHere(judge, item, e, draft, {Accepted})
         case RejectRevision(id, _) => HasStatus(rs, id, {Proposed})
         case RetractMemory(id) => HasStatus(rs, id, {Active})
         case DeleteMemory(id) => HasStatus(rs, id, {Proposed, Active, Rejected, Retracted})
         case _ => false
  }

  /** A creation is active at once when the user's own draft is accepted without review. */
  ghost predicate OpensActive(judge: Judge, e: Event)
    requires e.command.request.CreateMemory?
  {
    var request := e.command.request;
    Trusted(request.draft.facts) && Judged(judge, request.scope, request.kind, request.draft, e.existing, {Accepted})
  }

  /** How many operations the command becomes. */
  ghost function Length(judge: Judge, e: Event): (n: nat) {
    match e.command.request
    case CreateMemory(_, _, _) => if OpensActive(judge, e) then 3 else 2
    case ProposeRevision(_, _) => 2
    case ReviseMemory(_, _) => 4
    case ApproveProposal(_, _) => 4
    case _ => 1
  }

  /** The store's condition: an unused command, a new revision identity, sequence numbers that fit. */
  ghost predicate Storable(judge: Judge, item: Item, e: Event) {
    && |item.operations| + Length(judge, e) <= I64_MAX
    && !CommandUsed(item.operations, e.command.commandId) && e.command.commandId !in e.elsewhere.commands
    && (DraftOf(e.command.request).Some? ==> DraftOf(e.command.request).value.id !in e.elsewhere.revisions)
  }

  // ---------------------------------------------------------------- what it leaves

  /** The rows are as before, but for these, which have this state now. */
  ghost predicate Marked(a: seq<Revision>, b: seq<Revision>, ids: set<string>, status: Status) {
    && |a| <= |b|
    && forall i :: 0 <= i < |a| ==> b[i] == if a[i].id in ids then a[i].(status := status) else a[i]
  }

  /** The last row, and the only new one, is the draft's. */
  ghost predicate Adds(a: seq<Revision>, b: seq<Revision>, draft: Draft, at: int, supersedes: Option<string>, status: Status) {
    |b| == |a| + 1 && b[|a|] == Revision(draft.id, draft.number, status, at, supersedes, draft.facts)
  }

  /** The identities that an approval retires: the proposal, and what it was made against. */
  function Retires(rs: seq<Revision>, proposalId: string): (ids: set<string>) {
    {proposalId} + set i | 0 <= i < |rs| && rs[i].id == proposalId && rs[i].supersedes.Some? :: rs[i].supersedes.value
  }

  /** The rows and the pointer after each command. */
  ghost predicate LeavesRows(p: Projection, e: Event, q: Projection, opensActive: bool) {
    var a, b := p.revisions, q.revisions;
    match e.command.request
    case CreateMemory(_, _, draft) =>
      && Marked(a, b, {}, Superseded) && Adds(a, b, draft, e.at, None, if opensActive then Active else Proposed)
      && q.pointer == if opensActive then Some(draft.id) else None
    case ProposeRevision(draft, supersedes) =>
      && Marked(a, b, {}, Superseded) && Adds(a, b, draft, e.at, Some(supersedes), Proposed) && q.pointer == p.pointer
    case ReviseMemory(draft, supersedes) =>
      && Marked(a, b, {supersedes}, Superseded) && Adds(a, b, draft, e.at, Some(supersedes), Active)
      && q.pointer == Some(draft.id)
    case ApproveProposal(proposalId, draft) =>
      && Marked(a, b, Retires(a, proposalId), Superseded)
      && (exists target :: && Retires(a, proposalId) == {proposalId, target}
                           && Adds(a, b, draft, e.at, Some(target), Active))
      && q.pointer == Some(draft.id)
    case RejectRevision(id, _) => Marked(a, b, {id}, Rejected) && |b| == |a| && q.pointer == p.pointer
    case RetractMemory(id) => Marked(a, b, {id}, Retracted) && |b| == |a| && q.pointer.None?
    case DeleteMemory(id) => Marked(a, b, {id}, Deleted) && |b| == |a| && q.pointer.None?
    case _ => false
  }

  /** The texts after each command: a draft's is added, a deletion erases all, and nothing else touches them. */
  predicate LeavesTexts(before: map<string, string>, request: Request, after: map<string, string>) {
    match DraftOf(request)
    case Some(draft) => after == before[draft.id := draft.content]
    case None => after == if request.DeleteMemory? then map[] else before
  }

  ghost predicate Leaves(judge: Judge, s: Item, e: Event, t: Item) {
    && LeavesRows(s.projection, e, t.projection, e.command.request.CreateMemory? && OpensActive(judge, e))
    && LeavesTexts(s.contents, e.command.request, t.contents)
    && |t.operations| == |s.operations| + Length(judge, e) && Signed(s, e, t)
  }

  /** The log is extended by operations of this command, of its time and its correlation. */
  ghost predicate Signed(s: Item, e: Event, t: Item) {
    && s.operations <= t.operations
    && (forall k :: |s.operations| <= k < |t.operations| ==>
          var o := t.operations[k];
          && o.sequence == k + 1 && o.occurredAt == e.at && o.memoryId == e.command.memoryId
          && o.correlationId == e.command.correlationId && o.id.commandId == e.command.commandId)
    && (e.command.request.RejectRevision? && |s.operations| < |t.operations| ==>
          t.operations[|s.operations|].change == RevisionRejected(e.command.request.revisionId, e.command.request.reason))
  }

  // ---------------------------------------------------------------- the guards

  lemma StatusIff(rs: seq<Revision>, id: string, allowed: set<Status>)
    requires DistinctIds(rs)
    ensures HasStatus(rs, id, allowed) <==> InState(rs, id, allowed)
  {
    if i :| 0 <= i < |rs| && rs[i].id == id && rs[i].status in allowed {
      FindAt(rs, i);
    }
  }

  lemma ContinuesIff(rs: seq<Revision>, priorId: string, draft: Draft)
    requires DistinctIds(rs) && Numbered(rs) && rs != [] && |rs| + 1 < U64_LIMIT
    ensures Continues(rs, priorId, draft) <==> MayFollow(rs, priorId, draft)
  {
    if i :| 0 <= i < |rs| && rs[i].id == priorId && rs[i].facts.subjectKey == draft.facts.subjectKey {
      FindAt(rs, i);
    }
  }

  lemma ApprovableIff(p: Projection, proposalId: string)
    requires Sound(p)
    ensures HasStatus(p.revisions, proposalId, {Proposed}) && TargetStands(p.revisions, proposalId)
       <==> Approvable(p.revisions, proposalId)
    ensures Find(p.revisions, proposalId).Some? ==>
              Retires(p.revisions, proposalId) == {proposalId, Replaced(p.revisions, proposalId)}
  {
    var rs := p.revisions;
    StatusIff(rs, proposalId, {Proposed});
    if Find(rs, proposalId).Some? {
      var at := Find(rs, proposalId).value;
      assert forall i :: 0 <= i < |rs| && rs[i].id == proposalId ==> i == at;
      if rs[at].supersedes.Some? {
        StatusIff(rs, rs[at].supersedes.value, {Active});
      }
      if rs[at].status.Proposed? {
        FirstProposalStandsAlone(p, proposalId);
      }
    }
  }

  lemma DenialIff(memoryId: string, item: Item, command: Command)
    requires Good(memoryId, item) && command.memoryId == memoryId && |item.operations| < I64_MAX
    ensures SnapshotDenial(command, item.operations, item.projection.revisions).None?
       <==> if command.request.CreateMemory? then command.expected.None? && item.operations == []
            else command.expected == Some(|item.operations|) && item.operations != []
  {
    assert LastSequence(item.operations) == |item.operations|;
  }

  predicate Verdicts(outcome: Result<Validation>, verdicts: set<Verdict>) {
    outcome.Ok? && outcome.value.verdict in verdicts
  }

  /** The guards, given what validation says of the draft. */
  ghost predicate GuardedWith(item: Item, e: Event, outcome: Result<Validation>) {
    var rs := item.projection.revisions;
    match e.command.request
    case CreateMemory(_, _, draft) => draft.number == 1 && Verdicts(outcome, {Accepted, NeedsReview})
    case ProposeRevision(draft, supersedes) =>
      && HasStatus(rs, supersedes, {Active}) && Continues(rs, supersedes, draft)
      && Verdicts(outcome, {Accepted, NeedsReview})
    case ReviseMemory(draft, supersedes) =>
      && HasStatus(rs, supersedes, {Active}) && Continues(rs, supersedes, draft)
      && Trusted(draft.facts) && Verdicts(outcome, {Accepted})
    case ApproveProposal(proposalId, draft) =>
      && HasStatus(rs, proposalId, {Proposed}) && TargetStands(rs, proposalId) && Continues(rs, proposalId, draft)
      && Trusted(draft.facts) && Verdicts(outcome, {Accepted})
    case RejectRevision(id, _) => HasStatus(rs, id, {Proposed})
    case RetractMemory(id) => HasStatus(rs, id, {Active})
    case DeleteMemory(id) => HasStatus(rs, id, {Proposed, Active, Rejected, Retracted})
    case _ => false
  }

  lemma OutcomeVerdicts(judge: Judge, item: Item, e: Event, verdicts: set<Verdict>)
    requires DraftOf(e.command.request).Some?
    requires if e.command.request.CreateMemory? then item.operations == []
             else item.operations != [] && item.operations[0].change.MemoryCreated?
    ensures var outcome := OutcomeOf(judge, e.command, item.operations, e.existing);
            Verdicts(outcome, verdicts) <==>
              if e.command.request.CreateMemory? then
                Judged(judge, e.command.request.scope, e.command.request.kind, e.command.request.draft, e.existing, verdicts)
              else JudgedHere(judge, item, e, DraftOf(e.command.request).value, verdicts)
  {
  }

  lemma GuardedIff(judge: Judge, memoryId: string, item: Item, e: Event)
    requires Good(memoryId, item)
    requires if e.command.request.CreateMemory? then e.command.expected.None? && item.operations == []
             else e.command.expected == Some(|item.operations|) && item.operations != []
    ensures Guarded(judge, item, e) <==> GuardedWith(item, e, OutcomeOf(judge, e.command, item.operations, e.existing))
  {
    if DraftOf(e.command.request).Some? {
      OutcomeVerdicts(judge, item, e, {Accepted, NeedsReview});
      OutcomeVerdicts(judge, item, e, {Accepted});
    }
  }

  lemma CreateIff(at: int, scope: string, kind: string, draft: Draft, outcome: Result<Validation>)
    ensures CreateStages(at, scope, kind, draft, outcome).Ok? <==> Verdicts(outcome, {Accepted, NeedsReview})
    ensures CreateStages(at, scope, kind, draft, outcome).Ok? ==>
              |CreateStages(at, scope, kind, draft, outcome).value.list|
              == if Trusted(draft.facts) && Verdicts(outcome, {Accepted}) then 3 else 2
  {
  }

  lemma ReplaceIff(at: int, p: Projection, draft: Draft, priorId: string, outcome: Result<Validation>)
    requires Sound(p) && p.revisions != [] && |p.revisions| + 1 < U64_LIMIT
    ensures ProposeStages(at, p.revisions, draft, priorId, outcome).Ok?
       <==> && HasStatus(p.revisions, priorId, {Active}) && Continues(p.revisions, priorId, draft)
            && Verdicts(outcome, {Accepted, NeedsReview})
    ensures ReviseStages(at, p.revisions, draft, priorId, outcome).Ok?
       <==> && HasStatus(p.revisions, priorId, {Active}) && Continues(p.revisions, priorId, draft)
            && Trusted(draft.facts) && Verdicts(outcome, {Accepted})
  {
    StatusIff(p.revisions, priorId, {Active});
    ContinuesIff(p.revisions, priorId, draft);
  }

  lemma ApproveIff(at: int, p: Projection, draft: Draft, proposalId: string, outcome: Result<Validation>)
    requires Sound(p) && p.revisions != [] && |p.revisions| + 1 < U64_LIMIT
    ensures ApproveStages(at, p.revisions, draft, proposalId, outcome).Ok?
       <==> && HasStatus(p.revisions, proposalId, {Proposed}) && TargetStands(p.revisions, proposalId)
            && Continues(p.revisions, proposalId, draft) && Trusted(draft.facts) && Verdicts(outcome, {Accepted})
  {
    ApprovableIff(p, proposalId);
    ContinuesIff(p.revisions, proposalId, draft);
  }

  /** The planner's stages exist exactly when the guards hold. */
  lemma StagesIff(memoryId: string, item: Item, e: Event, outcome: Result<Validation>)
    requires Good(memoryId, item) && |item.operations| < I64_MAX
    requires e.command.request.CreateMemory? <==> item.operations == []
    ensures StagesOf(e.command, e.at, item.operations, item.projection.revisions, outcome).Ok? && StartsAtOne(e.command.request)
       <==> GuardedWith(item, e, outcome)
  {
    var rs := item.projection.revisions;
    match e.command.request
    case CreateMemory(scope, kind, draft) => CreateIff(e.at, scope, kind, draft, outcome);
    case ProposeRevision(draft, supersedes) => ReplaceIff(e.at, item.projection, draft, supersedes, outcome);
    case ReviseMemory(draft, supersedes) => ReplaceIff(e.at, item.projection, draft, supersedes, outcome);
    case ApproveProposal(proposalId, draft) => ApproveIff(e.at, item.projection, draft, proposalId, outcome);
    case RejectRevision(id, _) => StatusIff(rs, id, {Proposed});
    case RetractMemory(id) => StatusIff(rs, id, {Active});
    case DeleteMemory(id) => StatusIff(rs, id, {Proposed, Active, Rejected, Retracted});
    case _ =>
  }

  lemma StagesLength(e: Event, ops: seq<Operation>, rs: seq<Revision>, outcome: Result<Validation>)
    requires StagesOf(e.command, e.at, ops, rs, outcome).Ok?
    ensures var list := StagesOf(e.command, e.at, ops, rs, outcome).value.list;
            && list != []
            && (e.command.request.CreateMemory? ==>
                  |list| == if Trusted(e.command.request.draft.facts) && Verdicts(outcome, {Accepted}) then 3 else 2)
            && (e.command.request.ProposeRevision? ==> |list| == 2)
            && (e.command.request.ReviseMemory? || e.command.request.ApproveProposal? ==> |list| == 4)
            && (DraftOf(e.command.request).None? ==> |list| == 1 && Introduced(list[0].change).None?)
            && (DraftOf(e.command.request).Some? ==>
                  && Introduced(list[0].change).Some?
                  && Introduced(list[0].change).value.id == DraftOf(e.command.request).value.id)
  {
  }

  lemma LengthIs(judge: Judge, memoryId: string, item: Item, e: Event, stages: seq<Stage>)
    requires Good(memoryId, item) && Planned(judge, memoryId, item, e, stages)
    ensures |stages| == Length(judge, e) > 0
    ensures Introduced(stages[0].change).Some? <==> DraftOf(e.command.request).Some?
    ensures Introduced(stages[0].change).Some? ==>
              Introduced(stages[0].change).value.id == DraftOf(e.command.request).value.id
  {
    StagesLength(e, item.operations, item.projection.revisions, OutcomeOf(judge, e.command, item.operations, e.existing));
    if e.command.request.CreateMemory? {
      PlannedFacts(judge, memoryId, item, e, stages);
      OutcomeVerdicts(judge, item, e, {Accepted});
    }
  }

  /** A command changes the item exactly when it is for this item, its guards hold and the store can take it. */
  lemma CommitsIff(judge: Judge, memoryId: string, item: Item, e: Event)
    requires Good(memoryId, item)
    ensures Execute(judge, memoryId, item, e) != item
       <==> e.command.memoryId == memoryId && Guarded(judge, item, e) && Storable(judge, item, e)
  {
    if e.command.memoryId == memoryId {
      if PlanCommand(judge, e.command, e.at, item.operations, item.projection.revisions, e.existing).Ok? {
        var stages := PlanOnGood(judge, memoryId, item, e);
        LengthIs(judge, memoryId, item, e, stages);
        AcceptedIff(judge, memoryId, item, e, stages);
        if |item.operations| < I64_MAX {
          PlannedIsGuarded(judge, memoryId, item, e, stages);
        }
      } else if |item.operations| < I64_MAX {
        RefusedPlan(judge, memoryId, item, e);
      }
    }
  }

  lemma PlannedIsGuarded(judge: Judge, memoryId: string, item: Item, e: Event, stages: seq<Stage>)
    requires Good(memoryId, item) && Planned(judge, memoryId, item, e, stages) && |item.operations| < I64_MAX
    ensures StartsAtOne(e.command.request) <==> Guarded(judge, item, e)
  {
    DenialIff(memoryId, item, e.command);
    GuardedIff(judge, memoryId, item, e);
    StagesIff(memoryId, item, e, OutcomeOf(judge, e.command, item.operations, e.existing));
  }

  lemma PlanWithOk(command: Command, at: int, ops: seq<Operation>, rs: seq<Revision>, outcome: Result<Validation>)
    ensures PlanWith(command, at, ops, rs, outcome).Ok?
       <==> && SnapshotDenial(command, ops, rs).None? && StagesOf(command, at, ops, rs, outcome).Ok?
            && Fits(LastSequence(ops), |StagesOf(command, at, ops, rs, outcome).value.list|)
  {
  }

  lemma LengthWith(judge: Judge, item: Item, e: Event, outcome: Result<Validation>)
    requires outcome == OutcomeOf(judge, e.command, item.operations, e.existing)
    requires e.command.request.CreateMemory? ==> item.operations == []
    requires StagesOf(e.command, e.at, item.operations, item.projection.revisions, outcome).Ok?
    ensures |StagesOf(e.command, e.at, item.operations, item.projection.revisions, outcome).value.list| == Length(judge, e) <= 4
  {
    StagesLength(e, item.operations, item.projection.revisions, outcome);
    if e.command.request.CreateMemory? {
      OutcomeVerdicts(judge, item, e, {Accepted});
    }
  }

  lemma RefusedPlan(judge: Judge, memoryId: string, item: Item, e: Event)
    requires Good(memoryId, item) && e.command.memoryId == memoryId && |item.operations| < I64_MAX
    requires PlanCommand(judge, e.command, e.at, item.operations, item.projection.revisions, e.existing).Err?
    ensures !(Guarded(judge, item, e) && Storable(judge, item, e))
  {
    var outcome := OutcomeOf(judge, e.command, item.operations, e.existing);
    DenialIff(memoryId, item, e.command);
    PlanWithOk(e.command, e.at, item.operations, item.projection.revisions, outcome);
    assert LastSequence(item.operations) == |item.operations|;
    if SnapshotDenial(e.command, item.operations, item.projection.revisions).None? {
      GuardedIff(judge, memoryId, item, e);
      StagesIff(memoryId, item, e, outcome);
      if StagesOf(e.command, e.at, item.operations, item.projection.revisions, outcome).Ok? {
        LengthWith(judge, item, e, outcome);
      }
    }
  }

  // ---------------------------------------------------------------- the outcomes

  /** One command's projection, given what validation says of its draft. */
  ghost predicate Projects(p: Projection, e: Event, ops: seq<Operation>, outcome: Result<Validation>, q: Projection) {
    var r := StagesOf(e.command, e.at, ops, p.revisions, outcome);
    r.Ok? && ProjectAll(p, StageChanges(r.value.list)) == Some(q)
  }

  lemma CreateRows(scope: string, kind: string, draft: Draft, e: Event, v: Validation, q: Projection)
    requires e.command.request == CreateMemory(scope, kind, draft) && draft.number == 1 && Agrees(v, draft)
    requires CreateStages(e.at, scope, kind, draft, Ok(v)).Ok?
    requires ProjectAll(BLANK, StageChanges(CreateStages(e.at, scope, kind, draft, Ok(v)).value.list)) == Some(q)
    ensures LeavesRows(BLANK, e, q, ExplicitAccepted(draft, v))
  {
    var r := FromDraft(draft, e.at, None);
    ProjectsCreation(scope, kind, r, v);
    var c0, c1, c2 := MemoryCreated(scope, kind, r), RevisionValidated(r.id, v), RevisionActivated(r.id);
    assert StageChanges(CreateStages(e.at, scope, kind, draft, Ok(v)).value.list)
        == if ExplicitAccepted(draft, v) then [c0, c1, c2] else [c0, c1];
  }

  lemma ProposeRows(p: Projection, draft: Draft, supersedes: string, e: Event, v: Validation, q: Projection)
    requires e.command.request == ProposeRevision(draft, supersedes)
    requires Sound(p) && |p.revisions| + 1 < U64_LIMIT && Agrees(v, draft)
    requires ProposeStages(e.at, p.revisions, draft, supersedes, Ok(v)).Ok?
    requires ProjectAll(p, StageChanges(ProposeStages(e.at, p.revisions, draft, supersedes, Ok(v)).value.list)) == Some(q)
    ensures LeavesRows(p, e, q, false)
  {
    var r := FromDraft(draft, e.at, Some(supersedes));
    NextFromGuard(p, draft, e.at, Some(supersedes));
    ProjectsProposal(p, r, v);
    assert StageChanges(ProposeStages(e.at, p.revisions, draft, supersedes, Ok(v)).value.list)
        == [RevisionProposed(r), RevisionValidated(r.id, v)];
  }

  lemma ReviseRows(p: Projection, draft: Draft, supersedes: string, e: Event, v: Validation, q: Projection)
    requires e.command.request == ReviseMemory(draft, supersedes)
    requires Sound(p) && |p.revisions| + 1 < U64_LIMIT && Agrees(v, draft)
    requires ReviseStages(e.at, p.revisions, draft, supersedes, Ok(v)).Ok?
    requires ProjectAll(p, StageChanges(ReviseStages(e.at, p.revisions, draft, supersedes, Ok(v)).value.list)) == Some(q)
    ensures LeavesRows(p, e, q, false)
  {
    var r := FromDraft(draft, e.at, Some(supersedes));
    NextFromGuard(p, draft, e.at, Some(supersedes));
    ProjectsRevision(p, r, v, supersedes);
    assert StageChanges(ReviseStages(e.at, p.revisions, draft, supersedes, Ok(v)).value.list)
        == [MemoryRevised(r), RevisionValidated(r.id, v), RevisionActivated(r.id), RevisionSuperseded(supersedes, r.id)];
  }

  lemma ApproveRows(p: Projection, draft: Draft, proposalId: string, e: Event, v: Validation, q: Projection)
    requires e.command.request == ApproveProposal(proposalId, draft)
    requires Sound(p) && |p.revisions| + 1 < U64_LIMIT && Agrees(v, draft)
    requires ApproveStages(e.at, p.revisions, draft, proposalId, Ok(v)).Ok?
    requires ProjectAll(p, StageChanges(ApproveStages(e.at, p.revisions, draft, proposalId, Ok(v)).value.list)) == Some(q)
    ensures LeavesRows(p, e, q, false)
  {
    var replaced := Replaced(p.revisions, proposalId);
    var r := FromDraft(draft, e.at, Some(replaced));
    NextFromGuard(p, draft, e.at, Some(replaced));
    ProjectsApproval(p, r, v, proposalId, replaced);
    ApprovableIff(p, proposalId);
    assert StageChanges(ApproveStages(e.at, p.revisions, draft, proposalId, Ok(v)).value.list)
        == [ProposalApproved(proposalId, r), RevisionValidated(r.id, v), RevisionActivated(r.id),
            RevisionSuperseded(replaced, r.id)];
    assert Adds(p.revisions, q.revisions, draft, e.at, Some(replaced), Active);
  }

  lemma SingleRows(p: Projection, e: Event, ops: seq<Operation>, outcome: Result<Validation>, q: Projection)
    requires DraftOf(e.command.request).None? && Projects(p, e, ops, outcome, q)
    ensures LeavesRows(p, e, q, false)
  {
    var list := StagesOf(e.command, e.at, ops, p.revisions, outcome).value.list;
    assert |list| == 1 && StageChanges(list)[1..] == [];
    assert Project(p, list[0].change) == Some(q) by {
      assert ProjectAll(Project(p, StageChanges(list)[0]).value, []) == Project(p, StageChanges(list)[0]);
    }
  }

  lemma KeepAllFirst(hash: string -> string, contents: map<string, string>, command: Command, at: int, base: nat,
                     stages: seq<Stage>)
    requires Shaped(hash, stages)
    ensures KeepAll(contents, Chain(command, at, base, stages)) == Keep(contents, stages[0].change, stages[0].content)
  {
    var entries := Chain(command, at, base, stages);
    KeepAllNothing(Keep(contents, stages[0].change, stages[0].content), entries[1..]);
  }

  lemma {:induction false} KeepAllNothing(contents: map<string, string>, entries: seq<Entry>)
    requires forall i :: 0 <= i < |entries| ==> entries[i].content.None? && !entries[i].operation.change.MemoryDeleted?
    ensures KeepAll(contents, entries) == contents
    decreases |entries|
  {
    if entries != [] {
      KeepAllNothing(contents, entries[1..]);
    }
  }

  lemma FirstText(command: Command, at: int, ops: seq<Operation>, rs: seq<Revision>, outcome: Result<Validation>,
                  contents: map<string, string>)
    requires StagesOf(command, at, ops, rs, outcome).Ok?
    ensures var list := StagesOf(command, at, ops, rs, outcome).value.list;
            list != [] && LeavesTexts(contents, command.request, Keep(contents, list[0].change, list[0].content))
  {
  }

  lemma RowsFollow(hash: string -> string, p: Projection, e: Event, ops: seq<Operation>, outcome: Result<Validation>,
                   q: Projection)
    requires Sound(p) && |p.revisions| + 1 < U64_LIMIT && StartsAtOne(e.command.request)
    requires e.command.request.CreateMemory? ==> p == BLANK
    requires Projects(p, e, ops, outcome, q) && Honest(hash, e.command.request, outcome)
    ensures LeavesRows(p, e, q, && e.command.request.CreateMemory? && Trusted(e.command.request.draft.facts)
                                && Verdicts(outcome, {Accepted}))
  {
    match e.command.request
    case CreateMemory(scope, kind, draft) => CreateRows(scope, kind, draft, e, outcome.value, q);
    case ProposeRevision(draft, supersedes) => ProposeRows(p, draft, supersedes, e, outcome.value, q);
    case ReviseMemory(draft, supersedes) => ReviseRows(p, draft, supersedes, e, outcome.value, q);
    case ApproveProposal(proposalId, draft) => ApproveRows(p, draft, proposalId, e, outcome.value, q);
    case _ => SingleRows(p, e, ops, outcome, q);
  }

  /** What a planned batch leaves of rows and texts. */
  lemma GrownLeaves(judge: Judge, memoryId: string, item: Item, e: Event, stages: seq<Stage>, q: Projection)
    requires Good(memoryId, item) && Planned(judge, memoryId, item, e, stages) && Shaped(judge.hash, stages)
    requires StartsAtOne(e.command.request) && Leads(item.projection, stages, q)
    ensures Leaves(judge, item, e, Grown(e.command, e.at, item, stages, q))
  {
    var outcome := OutcomeOf(judge, e.command, item.operations, e.existing);
    OutcomeIsHonest(judge, e.command, item.operations, e.existing);
    PlannedFacts(judge, memoryId, item, e, stages);
    RowsFollow(judge.hash, item.projection, e, item.operations, outcome, q);
    if e.command.request.CreateMemory? {
      OutcomeVerdicts(judge, item, e, {Accepted});
    }
    LengthIs(judge, memoryId, item, e, stages);
    KeepAllFirst(judge.hash, item.contents, e.command, e.at, |item.operations|, stages);
    FirstText(e.command, e.at, item.operations, item.projection.revisions, outcome, item.contents);
    GrownIsSigned(item, e, stages, q, outcome);
  }

  lemma GrownIsSigned(item: Item, e: Event, stages: seq<Stage>, q: Projection, outcome: Result<Validation>)
    requires StagesOf(e.command, e.at, item.operations, item.projection.revisions, outcome).Ok?
    requires StagesOf(e.command, e.at, item.operations, item.projection.revisions, outcome).value.list == stages
    ensures Signed(item, e, Grown(e.command, e.at, item, stages, q))
  {
  }

  /**
   A command for this item whose guards hold and which the store can take leaves the item as its request says, rows,
   pointer and texts; any other command leaves the item exactly as it was.
   */
  lemma CommandOutcome(judge: Judge, memoryId: string, item: Item, e: Event)
    requires Good(memoryId, item)
    ensures var t := Execute(judge, memoryId, item, e);
            if e.command.memoryId == memoryId && Guarded(judge, item, e) && Storable(judge, item, e)
            then Leaves(judge, item, e, t) && Good(memoryId, t) else t == item
  {
    CommitsIff(judge, memoryId, item, e);
    if Execute(judge, memoryId, item, e) != item {
      var stages, q := Stepped(judge, memoryId, item, e);
      GrownLeaves(judge, memoryId, item, e, stages, q);
    }
  }
}
