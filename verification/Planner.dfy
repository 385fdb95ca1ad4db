/** Trusted planning of memory commands: deterministic validation and the batch each command becomes. */
module Planner {
  import opened Text
  import opened Ledger

  const MAX_VALIDATION_CANDIDATES: nat := 256
  const MAX_COMMAND_OPERATIONS: nat := 4

  /** An immutable revision candidate; `grounded` says that it cites evidence. */
  datatype Draft = Draft(id: string, number: nat, content: string, facts: Facts,
                         grounded: bool, contradicts: set<string>)

  datatype Existing = Existing(memoryId: string, scope: string, kind: string, subjectKey: Option<string>,
                               contentHash: string)

  datatype Request =
    | CreateMemory(scope: string, kind: string, draft: Draft)
    | ProposeRevision(draft: Draft, supersedes: string)
    | RecordValidation(revisionId: string)
    | ReviseMemory(draft: Draft, supersedes: string)
    | ApproveProposal(proposalId: string, draft: Draft)
    | ActivateRevision(revisionId: string)
    | RejectRevision(revisionId: string, reason: string)
    | RetractMemory(revisionId: string)
    | DeleteMemory(revisionId: string)

  datatype Command = Command(commandId: string, memoryId: string, expected: Option<nat>,
                             correlationId: string, request: Request)

  /** The text analyses of the validator: canonical hash, secret patterns, instruction patterns. */
  datatype Judge = Judge(hash: string -> string, secretBearing: string -> bool, injecting: string -> bool)

  datatype Denial = VersionConflict | InvalidTransition | ValidationRejected | UnsupportedCommand | PolicyFailure

  datatype Result<+T> = Ok(value: T) | Err(denial: Denial)

  /** A stage of a batch before it is numbered and chained. */
  datatype Stage = Stage(name: Label, change: Change, content: Option<Sidecar>)

  datatype Plan = Plan(base: nat, entries: seq<Entry>, validation: Option<Validation>)

  datatype Stages = Stages(list: seq<Stage>, validation: Option<Validation>)

  function FromDraft(draft: Draft, at: int, supersedes: Option<string>): (r: Revision) {
    Revision(draft.id, draft.number, Proposed, at, supersedes, draft.facts)
  }

  // ---------------------------------------------------------------- validation

  predicate OriginMatchesTrust(origin: Origin, trust: Trust) {
    match origin
    case ExplicitUser => trust == UserApproved
    case VerifiedTool => trust in {VerifiedObservation, UntrustedProposal}
    case ImportedDocument => trust in {Imported, UntrustedProposal}
    case ModelProposal => trust == UntrustedProposal
    case Compaction => trust == UntrustedProposal
  }

  predicate SameSubject(e: Existing, scope: string, kind: string, draft: Draft) {
    e.scope == scope && e.kind == kind && e.subjectKey == draft.facts.subjectKey
  }

  function DuplicatesOf(judge: Judge, scope: string, kind: string, draft: Draft, existing: set<Existing>): (r: set<string>)
  {
    set e | e in existing && SameSubject(e, scope, kind, draft) && e.contentHash == judge.hash(draft.content)
      :: e.memoryId
  }

  function ContradictionsOf(judge: Judge, scope: string, kind: string, draft: Draft, existing: set<Existing>):
      (r: set<string>)
  {
    draft.contradicts + set e | && e in existing && draft.facts.subjectKey.Some?
                                && SameSubject(e, scope, kind, draft)
                                && e.contentHash != judge.hash(draft.content)
                          :: e.memoryId
  }

  function IssuesOf(judge: Judge, draft: Draft, duplicates: set<string>, contradictions: set<string>): (r: set<Issue>)
  {
    (if draft.facts.sensitivity.Secret? || !OriginMatchesTrust(draft.facts.origin, draft.facts.trust)
     then {PolicyConflict} else {})
    + (if draft.facts.contentHash != judge.hash(draft.content) then {MalformedContent} else {})
    + (if draft.facts.sensitivity.Secret? || judge.secretBearing(draft.content) then {SecretDetected} else {})
    + (if duplicates != {} then {Duplicate} else {})
    + (if contradictions != {} then {Contradiction} else {})
    + (if judge.injecting(draft.content) then {InjectionPattern} else {})
    + (if draft.facts.origin in {ModelProposal, Compaction, VerifiedTool} && !draft.grounded
       then {UngroundedEvidence} else {})
  }

  function VerdictOf(origin: Origin, issues: set<Issue>): (v: Verdict) {
    if issues * {SecretDetected, MalformedContent, PolicyConflict, Duplicate} != {} then Refusal
    else if origin != ExplicitUser || issues != {} then NeedsReview
    else Accepted
  }

  /** The planner passes the item's own scope as the only authorized one, so the scope check never fails. */
  function Validate(judge: Judge, scope: string, kind: string, draft: Draft, existing: set<Existing>):
      (r: Result<Validation>)
    ensures r.Ok? ==> r.value.contentHash == judge.hash(draft.content)
    ensures r.Ok? && r.value.verdict != Refusal ==>
              draft.facts.contentHash == judge.hash(draft.content) && !draft.facts.sensitivity.Secret?
  {
    var duplicates := DuplicatesOf(judge, scope, kind, draft, existing);
    var contradictions := ContradictionsOf(judge, scope, kind, draft, existing);
    if |duplicates| + |contradictions| > MAX_VALIDATION_CANDIDATES then Err(PolicyFailure)
    else
      var issues := IssuesOf(judge, draft, duplicates, contradictions);
      assert draft.facts.contentHash != judge.hash(draft.content) ==> MalformedContent in issues;
      assert draft.facts.sensitivity.Secret? ==> SecretDetected in issues;
      Ok(Validation(judge.hash(draft.content), VerdictOf(draft.facts.origin, issues), issues, duplicates, contradictions))
  }

  /** The causes of a refusal, apart from duplicates. */
  predicate Unfit(judge: Judge, draft: Draft) {
    || draft.facts.sensitivity.Secret? || judge.secretBearing(draft.content)
    || draft.facts.contentHash != judge.hash(draft.content)
    || !OriginMatchesTrust(draft.facts.origin, draft.facts.trust)
  }

  /** What the verdicts mean: a draft is refused exactly for its causes, and accepted only from the user, undisputed. */
  lemma VerdictMeaning(judge: Judge, scope: string, kind: string, draft: Draft, existing: set<Existing>)
    requires Validate(judge, scope, kind, draft, existing).Ok?
    ensures var v := Validate(judge, scope, kind, draft, existing).value;
            && (v.verdict == Refusal <==> Unfit(judge, draft) || v.duplicates != {})
            && (v.verdict == Accepted <==>
                  && !Unfit(judge, draft) && v.duplicates == {} && v.contradictions == {}
                  && draft.facts.origin == ExplicitUser && !judge.injecting(draft.content))
  {
    var v := Validate(judge, scope, kind, draft, existing).value;
    IssueMeaning(judge, draft, v.duplicates, v.contradictions);
    if v.verdict == Refusal {
      var issue :| issue in v.issues * {SecretDetected, MalformedContent, PolicyConflict, Duplicate};
    } else if draft.facts.origin == ExplicitUser && v.contradictions == {} && !judge.injecting(draft.content) {
      assert v.issues == {};
    }
  }

  /** An existing memory with the draft's scope, kind and subject. */
  ghost predicate Rival(existing: set<Existing>, memoryId: string, scope: string, kind: string, subject: Option<string>,
                        contentHash: string) {
    Existing(memoryId, scope, kind, subject, contentHash) in existing
  }

  /** An existing memory that the draft is in contradiction with: named by it, or about its subject and another text. */
  ghost predicate Opposes(judge: Judge, scope: string, kind: string, draft: Draft, existing: set<Existing>, id: string) {
    || id in draft.contradicts
    || (&& draft.facts.subjectKey.Some?
        && exists other :: other != judge.hash(draft.content)
                           && Rival(existing, id, scope, kind, draft.facts.subjectKey, other))
  }

  lemma CandidateSets(judge: Judge, scope: string, kind: string, draft: Draft, existing: set<Existing>, id: string)
    ensures id in DuplicatesOf(judge, scope, kind, draft, existing) <==>
              Rival(existing, id, scope, kind, draft.facts.subjectKey, judge.hash(draft.content))
    ensures id in ContradictionsOf(judge, scope, kind, draft, existing) <==>
              Opposes(judge, scope, kind, draft, existing, id)
  {
    var subject, hash := draft.facts.subjectKey, judge.hash(draft.content);
    if e :| && e in existing && subject.Some? && SameSubject(e, scope, kind, draft) && e.contentHash != hash
            && e.memoryId == id {
      assert Rival(existing, id, scope, kind, subject, e.contentHash);
    }
    if e :| e in existing && SameSubject(e, scope, kind, draft) && e.contentHash == hash && e.memoryId == id {
      assert e == Existing(id, scope, kind, subject, hash);
    }
    if subject.Some? {
      if other :| other != hash && Rival(existing, id, scope, kind, subject, other) {
        assert SameSubject(Existing(id, scope, kind, subject, other), scope, kind, draft);
      }
    }
  }

  /**
   Duplicates are exactly the existing memories with the scope, kind, subject and hash of the draft; contradictions
   those it names, and those with its scope, kind and known subject but another hash.
   */
  lemma CandidatesMeaning(judge: Judge, scope: string, kind: string, draft: Draft, existing: set<Existing>, id: string)
    requires Validate(judge, scope, kind, draft, existing).Ok?
    ensures var v := Validate(judge, scope, kind, draft, existing).value;
            && (id in v.duplicates <==>
                  Rival(existing, id, scope, kind, draft.facts.subjectKey, judge.hash(draft.content)))
            && (id in v.contradictions <==> Opposes(judge, scope, kind, draft, existing, id))
  {
    CandidateSets(judge, scope, kind, draft, existing, id);
  }

  /** Validation fails if and only if these are more than 256 together. */
  lemma TooManyCandidatesIff(judge: Judge, scope: string, kind: string, draft: Draft, existing: set<Existing>,
                             rivals: set<string>, opposed: set<string>)
    requires forall id :: id in rivals <==>
               Rival(existing, id, scope, kind, draft.facts.subjectKey, judge.hash(draft.content))
    requires forall id :: id in opposed <==> Opposes(judge, scope, kind, draft, existing, id)
    ensures Validate(judge, scope, kind, draft, existing).Err? <==> |rivals| + |opposed| > 256
  {
    forall id
      ensures id in DuplicatesOf(judge, scope, kind, draft, existing) <==> id in rivals
      ensures id in ContradictionsOf(judge, scope, kind, draft, existing) <==> id in opposed
    {
      CandidateSets(judge, scope, kind, draft, existing, id);
    }
    assert DuplicatesOf(judge, scope, kind, draft, existing) == rivals;
    assert ContradictionsOf(judge, scope, kind, draft, existing) == opposed;
  }

  /** A draft that some existing memory of its scope, kind and subject already says is never let through. */
  lemma DuplicateIsRefused(judge: Judge, scope: string, kind: string, draft: Draft, existing: set<Existing>, id: string)
    requires Rival(existing, id, scope, kind, draft.facts.subjectKey, judge.hash(draft.content))
    ensures var v := Validate(judge, scope, kind, draft, existing); v.Err? || v.value.verdict == Refusal
  {
    var v := Validate(judge, scope, kind, draft, existing);
    if v.Ok? {
      CandidatesMeaning(judge, scope, kind, draft, existing, id);
      VerdictMeaning(judge, scope, kind, draft, existing);
    }
  }

  /** A draft that is let through claims the user's approval exactly when it comes from the user, and no more than its source allows. */
  lemma TrustIsEarned(judge: Judge, scope: string, kind: string, draft: Draft, existing: set<Existing>)
    requires Validate(judge, scope, kind, draft, existing).Ok?
    requires Validate(judge, scope, kind, draft, existing).value.verdict != Refusal
    ensures var origin, trust := draft.facts.origin, draft.facts.trust;
            && (trust == UserApproved <==> origin == ExplicitUser)
            && (trust == VerifiedObservation ==> origin == VerifiedTool)
            && (trust == Imported ==> origin == ImportedDocument)
            && (origin in {ModelProposal, Compaction} ==> trust == UntrustedProposal)
  {
    VerdictMeaning(judge, scope, kind, draft, existing);
  }

  /** Each issue is raised exactly for its cause. */
  lemma IssueMeaning(judge: Judge, draft: Draft, duplicates: set<string>, contradictions: set<string>)
    ensures var issues := IssuesOf(judge, draft, duplicates, contradictions);
            && (PolicyConflict in issues <==>
                  draft.facts.sensitivity.Secret? || !OriginMatchesTrust(draft.facts.origin, draft.facts.trust))
            && (MalformedContent in issues <==> draft.facts.contentHash != judge.hash(draft.content))
            && (SecretDetected in issues <==> draft.facts.sensitivity.Secret? || judge.secretBearing(draft.content))
            && (Duplicate in issues <==> duplicates != {})
            && (Contradiction in issues <==> contradictions != {})
            && (InjectionPattern in issues <==> judge.injecting(draft.content))
            && (UngroundedEvidence in issues <==>
                  draft.facts.origin in {ModelProposal, Compaction, VerifiedTool} && !draft.grounded)
  {
  }

  function Others(existing: set<Existing>, memoryId: string): (r: set<Existing>) {
    set e | e in existing && e.memoryId != memoryId
  }

  predicate Trusted(facts: Facts) {
    facts.origin == ExplicitUser && facts.trust == UserApproved
  }

  predicate ExplicitAccepted(draft: Draft, validation: Validation) {
    Trusted(draft.facts) && validation.verdict == Accepted
  }

  ghost predicate Named(heads: seq<Existing>, memoryId: string) {
    exists i :: 0 <= i < |heads| && heads[i].memoryId == memoryId
  }

  /** Keeps a head of another item that is not listed yet, while there is room. */
  predicate Lists(heads: seq<Existing>, own: string, head: Existing) {
    && head.memoryId != own && |heads| < MAX_VALIDATION_CANDIDATES
    && forall i :: 0 <= i < |heads| ==> heads[i].memoryId != head.memoryId
  }

  /** A head that must be listed by now: exact ones always, related ones while there is room. */
  predicate Due(head: Existing, own: string, exact: bool, listed: nat) {
    head.memoryId != own && (exact || listed < MAX_VALIDATION_CANDIDATES)
  }

  /** Exact duplicates go first, so a crowd of items with the same subject never hides one. */
  method DuplicateCandidates(exact: seq<Existing>, related: seq<Existing>, own: string) returns (heads: seq<Existing>)
    requires |exact| <= MAX_VALIDATION_CANDIDATES
    ensures |heads| <= MAX_VALIDATION_CANDIDATES
    ensures forall i, j :: 0 <= i < j < |heads| ==> heads[i].memoryId != heads[j].memoryId
    ensures forall h :: h in heads ==> h in exact + related && h.memoryId != own
    ensures forall h :: h in exact && h.memoryId != own ==> Named(heads, h.memoryId)
    ensures |heads| < MAX_VALIDATION_CANDIDATES ==>
              forall h :: h in related && h.memoryId != own ==> Named(heads, h.memoryId)
  {
    heads := [];
    var all := exact + related;
    for n := 0 to |all|
      invariant |heads| <= MAX_VALIDATION_CANDIDATES && |heads| <= n
      invariant forall i, j :: 0 <= i < j < |heads| ==> heads[i].memoryId != heads[j].memoryId
      invariant forall h :: h in heads ==> h in all && h.memoryId != own
      invariant forall m :: 0 <= m < n && Due(all[m], own, m < |exact|, |heads|) ==> Named(heads, all[m].memoryId)
    {
      if Lists(heads, own, all[n]) {
        ghost var before := heads;
        heads := heads + [all[n]];
        assert heads[|before|].memoryId == all[n].memoryId;
        assert forall id :: Named(before, id) ==> Named(heads, id) by {
          assert forall i :: 0 <= i < |before| ==> heads[i] == before[i];
        }
      }
    }
    forall h | h in exact && h.memoryId != own ensures Named(heads, h.memoryId) {
      var m :| 0 <= m < |exact| && exact[m] == h;
      assert all[m] == h;
    }
    forall h | h in related && h.memoryId != own && |heads| < MAX_VALIDATION_CANDIDATES ensures Named(heads, h.memoryId) {
      var m :| 0 <= m < |related| && related[m] == h;
      assert all[|exact| + m] == h;
    }
  }

  // ---------------------------------------------------------------- guards

  function SaturatingNext(n: nat): (m: nat) {
    if n + 1 < U64_LIMIT then n + 1 else U64_LIMIT - 1
  }

  predicate Contiguous(operations: seq<Operation>) {
    forall i :: 0 <= i < |operations| - 1 ==> operations[i + 1].sequence == SaturatingNext(operations[i].sequence)
  }

  predicate ConsecutiveRevisions(revisions: seq<Revision>) {
    forall i :: 0 <= i < |revisions| - 1 ==> revisions[i + 1].number == SaturatingNext(revisions[i].number)
  }

  function SnapshotDenial(command: Command, operations: seq<Operation>, revisions: seq<Revision>): (d: Option<Denial>) {
    var actual := LastSequence(operations);
    if (exists i :: 0 <= i < |operations| && operations[i].memoryId != command.memoryId)
       || !Contiguous(operations) || !ConsecutiveRevisions(revisions) then Some(InvalidTransition)
    else if command.request.CreateMemory? then
      if command.expected.None? && actual == 0 then None else Some(VersionConflict)
    else if command.expected == Some(actual) && actual > 0 then None
    else Some(VersionConflict)
  }

  predicate SameSubjectAs(revisions: seq<Revision>, priorId: string, draft: Draft) {
    var at := Find(revisions, priorId);
    at.Some? && revisions[at.value].facts.subjectKey == draft.facts.subjectKey
  }

  predicate NextRevision(revisions: seq<Revision>, draft: Draft) {
    && draft.number == (if revisions == [] then 1 else SaturatingNext(revisions[|revisions| - 1].number))
    && Find(revisions, draft.id).None?
  }

  // ---------------------------------------------------------------- the stages of each command

  function Introduce(name: Label, change: Change, draft: Draft): (s: Stage) {
    Stage(name, change, Some(Sidecar(draft.id, draft.content)))
  }

  function ValidateStage(id: string, validation: Validation): (s: Stage) {
    Stage(Check, RevisionValidated(id, validation), None)
  }

  function ActivateStage(id: string): (s: Stage) {
    Stage(Enable, RevisionActivated(id), None)
  }

  function SupersedeStage(id: string, successor: string): (s: Stage) {
    Stage(Supersede, RevisionSuperseded(id, successor), None)
  }

  function CreateStages(at: int, scope: string, kind: string, draft: Draft, outcome: Result<Validation>):
      (r: Result<Stages>)
  {
    if outcome.Err? then Err(outcome.denial)
    else if outcome.value.verdict == Refusal then Err(ValidationRejected)
    else
      var opening := [Introduce(Create, MemoryCreated(scope, kind, FromDraft(draft, at, None)), draft),
                      ValidateStage(draft.id, outcome.value)];
      Ok(Stages(if ExplicitAccepted(draft, outcome.value) then opening + [ActivateStage(draft.id)] else opening,
                Some(outcome.value)))
  }

  /** The checks that a new revision of an existing item passes before it is validated. */
  predicate MayFollow(revisions: seq<Revision>, priorId: string, draft: Draft) {
    SameSubjectAs(revisions, priorId, draft) && NextRevision(revisions, draft)
  }

  function ProposeStages(at: int, revisions: seq<Revision>, draft: Draft, supersedes: string,
                         outcome: Result<Validation>): (r: Result<Stages>)
  {
    if !InState(revisions, supersedes, {Active}) || !MayFollow(revisions, supersedes, draft) then Err(InvalidTransition)
    else if outcome.Err? then Err(outcome.denial)
    else if outcome.value.verdict == Refusal then Err(ValidationRejected)
    else
      Ok(Stages([Introduce(Propose, RevisionProposed(FromDraft(draft, at, Some(supersedes))), draft),
                 ValidateStage(draft.id, outcome.value)],
                Some(outcome.value)))
  }

  /** Introduces, validates and activates a trusted revision, then supersedes the one it replaces. */
  function ReplacingStages(name: Label, change: Change, draft: Draft, validation: Validation, supersedes: string):
      (s: Stages)
  {
    Stages([Introduce(name, change, draft), ValidateStage(draft.id, validation),
            ActivateStage(draft.id), SupersedeStage(supersedes, draft.id)],
           Some(validation))
  }

  function ReviseStages(at: int, revisions: seq<Revision>, draft: Draft, supersedes: string,
                        outcome: Result<Validation>): (r: Result<Stages>)
  {
    if !InState(revisions, supersedes, {Active}) || !MayFollow(revisions, supersedes, draft) then Err(InvalidTransition)
    else if outcome.Err? then Err(outcome.denial)
    else if !ExplicitAccepted(draft, outcome.value) then Err(ValidationRejected)
    else
      Ok(ReplacingStages(Revise, MemoryRevised(FromDraft(draft, at, Some(supersedes))), draft,
                         outcome.value, supersedes))
  }

  /** The revision that an approval replaces: the proposal's target, or the proposal itself when it has none. */
  function Replaced(revisions: seq<Revision>, proposalId: string): (id: string) {
    var at := Find(revisions, proposalId);
    if at.Some? && revisions[at.value].supersedes.Some? then revisions[at.value].supersedes.value else proposalId
  }

  /** The proposal is open, and what it would replace is still active. */
  predicate Approvable(revisions: seq<Revision>, proposalId: string) {
    var replaced := Replaced(revisions, proposalId);
    && InState(revisions, proposalId, {Proposed})
    && (replaced != proposalId ==> InState(revisions, replaced, {Active}))
  }

  function ApproveStages(at: int, revisions: seq<Revision>, draft: Draft, proposalId: string,
                         outcome: Result<Validation>): (r: Result<Stages>)
  {
    var replaced := Replaced(revisions, proposalId);
    if !Approvable(revisions, proposalId) || !MayFollow(revisions, proposalId, draft) then Err(InvalidTransition)
    else if outcome.Err? then Err(outcome.denial)
    else if !ExplicitAccepted(draft, outcome.value) || draft.id == proposalId then Err(ValidationRejected)
    else
      Ok(ReplacingStages(Approve, ProposalApproved(proposalId, FromDraft(draft, at, Some(replaced))), draft,
                         outcome.value, replaced))
  }

  function SingleStage(revisions: seq<Revision>, id: string, allowed: set<Status>, name: Label, change: Change):
      (r: Result<Stages>)
  {
    if InState(revisions, id, allowed) then Ok(Stages([Stage(name, change, None)], None)) else Err(InvalidTransition)
  }

  function DraftOf(request: Request): (d: Option<Draft>) {
    match request
    case CreateMemory(_, _, draft) => Some(draft)
    case ProposeRevision(draft, _) => Some(draft)
    case ReviseMemory(draft, _) => Some(draft)
    case ApproveProposal(_, draft) => Some(draft)
    case _ => None
  }

  /** Scope and kind come from the command that creates the item, and from the first operation afterwards. */
  function OutcomeOf(judge: Judge, command: Command, operations: seq<Operation>, existing: set<Existing>):
      (r: Result<Validation>)
  {
    if DraftOf(command.request).None? then Err(UnsupportedCommand)
    else if command.request.CreateMemory? then
      Validate(judge, command.request.scope, command.request.kind, command.request.draft, existing)
    else if operations == [] || !operations[0].change.MemoryCreated? then Err(InvalidTransition)
    else Validate(judge, operations[0].change.scope, operations[0].change.kind, DraftOf(command.request).value,
                  Others(existing, command.memoryId))
  }

  /** What a validation says truthfully about its draft. */
  predicate Honest(hash: string -> string, request: Request, outcome: Result<Validation>) {
    var draft := DraftOf(request);
    outcome.Ok? && draft.Some? ==>
      && outcome.value.contentHash == hash(draft.value.content)
      && (outcome.value.verdict != Refusal ==>
            draft.value.facts.contentHash == hash(draft.value.content) && !draft.value.facts.sensitivity.Secret?)
  }

  lemma OutcomeIsHonest(judge: Judge, command: Command, operations: seq<Operation>, existing: set<Existing>)
    ensures Honest(judge.hash, command.request, OutcomeOf(judge, command, operations, existing))
  {
  }

  predicate NeedsOrigin(request: Request) {
    request.ProposeRevision? || request.ReviseMemory? || request.ApproveProposal?
  }

  function StagesOf(command: Command, at: int, operations: seq<Operation>, revisions: seq<Revision>,
                    outcome: Result<Validation>): (r: Result<Stages>)
  {
    if NeedsOrigin(command.request) && (operations == [] || !operations[0].change.MemoryCreated?)
    then Err(InvalidTransition)
    else
      match command.request
      case CreateMemory(scope, kind, draft) => CreateStages(at, scope, kind, draft, outcome)
      case ProposeRevision(draft, supersedes) => ProposeStages(at, revisions, draft, supersedes, outcome)
      case ReviseMemory(draft, supersedes) => ReviseStages(at, revisions, draft, supersedes, outcome)
      case ApproveProposal(proposalId, draft) => ApproveStages(at, revisions, draft, proposalId, outcome)
      case RejectRevision(id, reason) =>
        SingleStage(revisions, id, {Proposed}, Reject, RevisionRejected(id, reason))
      case RetractMemory(id) => SingleStage(revisions, id, {Active}, Retract, MemoryRetracted(id))
      case DeleteMemory(id) =>
        SingleStage(revisions, id, {Proposed, Active, Rejected, Retracted}, Delete, MemoryDeleted(id))
      case RecordValidation(_) => Err(UnsupportedCommand)
      case ActivateRevision(_) => Err(UnsupportedCommand)
  }

  // ---------------------------------------------------------------- numbering and chaining

  function IdOf(command: Command, stage: Stage): (id: OperationId) {
    OperationId(command.commandId, command.memoryId, stage.name)
  }

  /** The i-th operation of a batch: numbered after the base, caused by the one before it. */
  function Link(command: Command, at: int, base: nat, stages: seq<Stage>, i: nat): (e: Entry)
    requires i < |stages|
  {
    var cause := if i == 0 then ByCommand(command.commandId) else ByOperation(IdOf(command, stages[i - 1]));
    Entry(Operation(IdOf(command, stages[i]), command.memoryId, base + 1 + i, at, cause, command.correlationId,
                    stages[i].change),
          stages[i].content)
  }

  function Chain(command: Command, at: int, base: nat, stages: seq<Stage>): (r: seq<Entry>)
    ensures |r| == |stages|
    ensures forall i :: 0 <= i < |r| ==> r[i] == Link(command, at, base, stages, i)
  {
    seq(|stages|, i requires 0 <= i < |stages| => Link(command, at, base, stages, i))
  }

  /** The builder refuses a fifth operation and a sequence number that does not fit. */
  predicate Fits(base: nat, count: nat) {
    count <= MAX_COMMAND_OPERATIONS && base + count < U64_LIMIT
  }

  /** The plan, given what validation says of the command's draft. */
  function PlanWith(command: Command, at: int, operations: seq<Operation>, revisions: seq<Revision>,
                    outcome: Result<Validation>): (r: Result<Plan>)
  {
    var denial := SnapshotDenial(command, operations, revisions);
    if denial.Some? then Err(denial.value)
    else
      var stages := StagesOf(command, at, operations, revisions, outcome);
      if stages.Err? then Err(stages.denial)
      else if !Fits(LastSequence(operations), |stages.value.list|) then Err(InvalidTransition)
      else Ok(Plan(LastSequence(operations), Chain(command, at, LastSequence(operations), stages.value.list),
                   stages.value.validation))
  }

  function PlanCommand(judge: Judge, command: Command, at: int, operations: seq<Operation>, revisions: seq<Revision>,
                       existing: set<Existing>): (r: Result<Plan>)
  {
    PlanWith(command, at, operations, revisions, OutcomeOf(judge, command, operations, existing))
  }

  lemma {:induction false} SequencesCount(operations: seq<Operation>, n: nat)
    requires Contiguous(operations) && n < |operations| && operations[|operations| - 1].sequence < U64_LIMIT - 1
    ensures operations[n].sequence == operations[|operations| - 1].sequence - (|operations| - 1 - n)
    decreases |operations| - n
  {
    if n < |operations| - 1 {
      SequencesCount(operations, n + 1);
    }
  }

  /**
   A plan is made only over a whole snapshot, and only for the version that the command expects: the item's own
   operations, numbered without a gap, and revisions numbered without a gap.
   */
  lemma PlansOnlyWhole(judge: Judge, command: Command, at: int, operations: seq<Operation>, revisions: seq<Revision>,
                       existing: set<Existing>)
    requires PlanCommand(judge, command, at, operations, revisions, existing).Ok?
    ensures forall i :: 0 <= i < |operations| ==>
              && operations[i].memoryId == command.memoryId
              && operations[i].sequence == LastSequence(operations) - (|operations| - 1 - i)
    ensures forall i, j :: 0 <= i < |revisions| && 0 <= j < |revisions| && j == i + 1 ==>
              revisions[j].number == SaturatingNext(revisions[i].number)
    ensures if command.request.CreateMemory? then command.expected.None? && LastSequence(operations) == 0
            else command.expected == Some(LastSequence(operations)) && LastSequence(operations) > 0
  {
    assert StagesOf(command, at, operations, revisions, OutcomeOf(judge, command, operations, existing)).value.list != [];
    forall i | 0 <= i < |operations|
      ensures operations[i].sequence == LastSequence(operations) - (|operations| - 1 - i)
    {
      SequencesCount(operations, i);
    }
  }

  // ---------------------------------------------------------------- the builder

  class BatchBuilder {
    const command: Command
    const occurredAt: int
    const base: nat
    var operations: seq<Entry>
    var previous: Option<OperationId>
    ghost var stages: seq<Stage>

    ghost predicate Valid()
      reads this
    {
      && Fits(base, |stages|)
      && operations == Chain(command, occurredAt, base, stages)
      && previous == if stages == [] then None else Some(IdOf(command, stages[|stages| - 1]))
    }

    constructor (command: Command, occurredAt: int, base: nat)
      requires base < U64_LIMIT
      ensures Valid() && stages == []
      ensures this.command == command && this.occurredAt == occurredAt && this.base == base
    {
      this.command, this.occurredAt, this.base := command, occurredAt, base;
      operations, previous, stages := [], None, [];
    }

    method Push(stage: Stage) returns (ok: bool)
      requires Valid()
      modifies this
      ensures Valid()
      ensures ok == Fits(base, |old(stages)| + 1)
      ensures stages == if ok then old(stages) + [stage] else old(stages)
    {
      if |operations| >= MAX_COMMAND_OPERATIONS || base + |operations| + 1 >= U64_LIMIT {
        return false;
      }
      var id := IdOf(command, stage);
      var cause := if previous.Some? then ByOperation(previous.value) else ByCommand(command.commandId);
      var operation := Operation(id, command.memoryId, base + |operations| + 1, occurredAt, cause,
                                 command.correlationId, stage.change);
      ghost var next := stages + [stage];
      assert forall i :: 0 <= i < |stages| ==>
          Link(command, occurredAt, base, next, i) == Link(command, occurredAt, base, stages, i);
      operations := operations + [Entry(operation, stage.content)];
      previous := Some(id);
      stages := next;
      ok := true;
    }
  }

  /** Drives the builder stage by stage, giving up at the first stage it refuses. */
  method BuildBatch(command: Command, at: int, base: nat, stages: seq<Stage>) returns (entries: Option<seq<Entry>>)
    requires base < U64_LIMIT
    ensures entries == if Fits(base, |stages|) then Some(Chain(command, at, base, stages)) else None
  {
    var builder := new BatchBuilder(command, at, base);
    for i := 0 to |stages|
      invariant builder.Valid() && builder.stages == stages[..i]
      invariant builder.command == command && builder.occurredAt == at && builder.base == base
    {
      var ok := builder.Push(stages[i]);
      if !ok {
        return None;
      }
      assert stages[..i + 1] == stages[..i] + [stages[i]];
    }
    assert stages[..|stages|] == stages;
    return Some(builder.operations);
  }

  /** Guards first, then the builder; the loops of the guards are the quantifiers of the predicates. */
  method PlanMemoryCommand(judge: Judge, command: Command, at: int, operations: seq<Operation>,
                           revisions: seq<Revision>, existing: set<Existing>) returns (r: Result<Plan>)
    requires LastSequence(operations) < U64_LIMIT
    ensures r == PlanCommand(judge, command, at, operations, revisions, existing)
  {
    var denial := SnapshotDenial(command, operations, revisions);
    if denial.Some? {
      return Err(denial.value);
    }
    var outcome := OutcomeOf(judge, command, operations, existing);
    var stages := StagesOf(command, at, operations, revisions, outcome);
    if stages.Err? {
      return Err(stages.denial);
    }
    var entries := BuildBatch(command, at, LastSequence(operations), stages.value.list);
    if entries.None? {
      return Err(InvalidTransition);
    }
    return Ok(Plan(LastSequence(operations), entries.value, stages.value.validation));
  }
}
