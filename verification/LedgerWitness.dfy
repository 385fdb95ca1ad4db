/** Four commands after which a rebuild erases a text that the live store still holds. */
module LedgerWitness {
  import opened Text
  import opened Ledger
  import opened Planner
  import opened LedgerSteps
  import opened LedgerRuns
  import opened LedgerItem
  import opened LedgerAudit

  const NOBODY: Elsewhere := Elsewhere({}, {})

  /** Three trusted drafts of one item and the identities of four commands. */
  datatype Script = Script(memoryId: string, scope: string, kind: string, correlationId: string, existing: set<Existing>,
                           d1: Draft, d2: Draft, d3: Draft, v1: Validation, v2: Validation, v3: Validation,
                           c1: string, c2: string, c3: string, c4: string)

  ghost predicate Passes(x: Script, d: Draft, v: Validation) {
    && v.verdict == Accepted && Agrees(v, d) && Trusted(d.facts) && d.facts.subjectKey == x.d1.facts.subjectKey
  }

  ghost predicate Written(x: Script) {
    && Passes(x, x.d1, x.v1) && Passes(x, x.d2, x.v2) && Passes(x, x.d3, x.v3)
    && x.d1.number == 1 && x.d2.number == 2 && x.d3.number == 3
    && x.d1.id != x.d2.id && x.d1.id != x.d3.id && x.d2.id != x.d3.id
    && x.c1 != x.c2 && x.c1 != x.c3 && x.c1 != x.c4 && x.c2 != x.c3 && x.c2 != x.c4 && x.c3 != x.c4
  }

  function Send(x: Script, commandId: string, expected: Option<nat>, request: Request): (e: Event) {
    Event(Command(commandId, x.memoryId, expected, x.correlationId, request), 0, x.existing, NOBODY)
  }

  /** Create an active revision, propose a second, delete the proposal, revise the first. */
  function Commands(x: Script): (events: seq<Event>) {
    [Send(x, x.c1, None, CreateMemory(x.scope, x.kind, x.d1)),
     Send(x, x.c2, Some(3), ProposeRevision(x.d2, x.d1.id)),
     Send(x, x.c3, Some(5), DeleteMemory(x.d2.id)),
     Send(x, x.c4, Some(6), ReviseMemory(x.d3, x.d1.id))]
  }

  /** A state of the run: what the log says and what it folds into. */
  ghost predicate Reached(x: Script, item: Item, changes: seq<Change>, p: Projection) {
    Good(x.memoryId, item) && Changes(item.operations) == changes && item.projection == p
  }

  lemma StillUnused(ops: seq<Operation>, command: Command, at: int, stages: seq<Stage>, c: string)
    requires !CommandUsed(ops, c) && c != command.commandId
    ensures !CommandUsed(ops + Tail(command, at, |ops|, stages), c)
  {
    var tail := Tail(command, at, |ops|, stages);
    var all := ops + tail;
    forall k | 0 <= k < |all| ensures all[k].causation != ByCommand(c) {
      if k >= |ops| {
        assert tail[k - |ops|] == Link(command, at, |ops|, stages, k - |ops|).operation;
        assert all[k] == tail[k - |ops|];
      }
    }
  }

  lemma TailChanges(ops: seq<Operation>, command: Command, at: int, stages: seq<Stage>)
    ensures Changes(ops + Tail(command, at, |ops|, stages)) == Changes(ops) + StageChanges(stages)
  {
    var tail := Tail(command, at, |ops|, stages);
    assert Changes(tail) == StageChanges(stages);
    assert Changes(ops + tail) == Changes(ops) + Changes(tail);
  }

  /** A planned and acceptable command commits its chained stages. */
  lemma Commits(judge: Judge, memoryId: string, item: Item, e: Event, stages: seq<Stage>, q: Projection)
    requires Good(memoryId, item) && Planned(judge, memoryId, item, e, stages) && stages != []
    requires Acceptable(item, e, stages) && ProjectAll(item.projection, StageChanges(stages)) == Some(q)
    ensures Execute(judge, memoryId, item, e) == Grown(e.command, e.at, item, stages, q)
    ensures Good(memoryId, Grown(e.command, e.at, item, stages, q))
  {
    AcceptedIff(judge, memoryId, item, e, stages);
    assert LastSequence(item.operations) == |item.operations|;
    var entries := Chain(e.command, e.at, |item.operations|, stages);
    assert Changes(OperationsOf(entries)) == StageChanges(stages);
    GoodStep(judge, memoryId, item, e);
  }

  /** One command of the run, given its stages and what they lead to. */
  lemma Plays(judge: Judge, x: Script, item: Item, changes: seq<Change>, p: Projection, e: Event,
              outcome: Result<Validation>, stages: seq<Stage>, q: Projection) returns (next: Item)
    requires Reached(x, item, changes, p) && !CommandUsed(item.operations, e.command.commandId) && |changes| < 100
    requires e.command.memoryId == x.memoryId && e.elsewhere == NOBODY
    requires StartsAtOne(e.command.request) && SnapshotDenial(e.command, item.operations, p.revisions).None?
    requires StagesOf(e.command, e.at, item.operations, p.revisions, outcome).Ok?
    requires StagesOf(e.command, e.at, item.operations, p.revisions, outcome).value.list == stages
    requires outcome == OutcomeOf(judge, e.command, item.operations, e.existing)
    requires 1 <= |stages| <= 4 && ProjectAll(p, StageChanges(stages)) == Some(q)
    ensures next == Execute(judge, x.memoryId, item, e) && Reached(x, next, changes + StageChanges(stages), q)
    ensures next.operations == item.operations + Tail(e.command, e.at, |item.operations|, stages)
  {
    assert |item.operations| == |changes|;
    assert Planned(judge, x.memoryId, item, e, stages);
    assert Acceptable(item, e, stages);
    Commits(judge, x.memoryId, item, e, stages, q);
    TailChanges(item.operations, e.command, e.at, stages);
    next := Execute(judge, x.memoryId, item, e);
  }

  lemma SnapshotFine(x: Script, item: Item, changes: seq<Change>, p: Projection, command: Command)
    requires Reached(x, item, changes, p) && 0 < |changes| < 100 && command.memoryId == x.memoryId
    requires command.expected == Some(|changes|) && !command.request.CreateMemory? && |p.revisions| < 100
    ensures SnapshotDenial(command, item.operations, p.revisions).None?
    ensures item.operations != [] && item.operations[0].change == changes[0]
  {
    assert |item.operations| == |changes|;
  }

  // ---------------------------------------------------------------- the four commands

  function Opening(x: Script): (s: seq<Stage>) {
    [Introduce(Create, MemoryCreated(x.scope, x.kind, FromDraft(x.d1, 0, None)), x.d1),
     ValidateStage(x.d1.id, x.v1), ActivateStage(x.d1.id)]
  }

  function Second(x: Script): (s: seq<Stage>) {
    [Introduce(Propose, RevisionProposed(FromDraft(x.d2, 0, Some(x.d1.id))), x.d2), ValidateStage(x.d2.id, x.v2)]
  }

  function Third(x: Script): (s: seq<Stage>) {
    [Stage(Delete, MemoryDeleted(x.d2.id), None)]
  }

  function Fourth(x: Script): (s: seq<Stage>) {
    ReplacingStages(Revise, MemoryRevised(FromDraft(x.d3, 0, Some(x.d1.id))), x.d3, x.v3, x.d1.id).list
  }

  function Row1(x: Script): (r: Revision) {
    FromDraft(x.d1, 0, None).(status := Active)
  }

  function Row2(x: Script): (r: Revision) {
    FromDraft(x.d2, 0, Some(x.d1.id))
  }

  function After1(x: Script): (p: Projection) {
    Projection([Row1(x)], Some(x.d1.id))
  }

  function After2(x: Script): (p: Projection) {
    Projection([Row1(x), Row2(x)], Some(x.d1.id))
  }

  function After3(x: Script): (p: Projection) {
    Projection([Row1(x), Row2(x).(status := Deleted)], None)
  }

  lemma Plan1(x: Script)
    requires Written(x)
    ensures var r := StagesOf(Commands(x)[0].command, 0, [], [], Ok(x.v1)); r.Ok? && r.value.list == Opening(x)
    ensures ProjectAll(BLANK, StageChanges(Opening(x))) == Some(After1(x))
    ensures SnapshotDenial(Commands(x)[0].command, [], []).None?
  {
    ProjectsCreation(x.scope, x.kind, FromDraft(x.d1, 0, None), x.v1);
    var stages := Opening(x);
    assert StageChanges(stages) == [stages[0].change, stages[1].change, stages[2].change];
  }

  lemma Find1(x: Script)
    requires Written(x)
    ensures Find(After1(x).revisions, x.d1.id) == Some(0) && Find(After1(x).revisions, x.d2.id) == None
    ensures Find(After2(x).revisions, x.d1.id) == Some(0) && Find(After2(x).revisions, x.d2.id) == Some(1)
    ensures Find(After3(x).revisions, x.d1.id) == Some(0) && Find(After3(x).revisions, x.d3.id) == None
  {
    FindAt(After1(x).revisions, 0);
    FindAt(After2(x).revisions, 0);
    FindAt(After2(x).revisions, 1);
    FindAt(After3(x).revisions, 0);
  }

  lemma Plan2(x: Script, ops: seq<Operation>)
    requires Written(x) && ops != [] && ops[0].change.MemoryCreated? && Sound(After1(x))
    ensures var r := StagesOf(Commands(x)[1].command, 0, ops, After1(x).revisions, Ok(x.v2)); r.Ok? && r.value.list == Second(x)
    ensures ProjectAll(After1(x), StageChanges(Second(x))) == Some(After2(x))
  {
    Find1(x);
    ProjectsProposal(After1(x), Row2(x), x.v2);
    var stages := Second(x);
    assert StageChanges(stages) == [stages[0].change, stages[1].change];
    assert After1(x).revisions + [Row2(x)] == After2(x).revisions;
  }

  lemma Plan3(x: Script, ops: seq<Operation>, outcome: Result<Validation>)
    requires Written(x)
    ensures var r := StagesOf(Commands(x)[2].command, 0, ops, After2(x).revisions, outcome); r.Ok? && r.value.list == Third(x)
    ensures ProjectAll(After2(x), StageChanges(Third(x))) == Some(After3(x))
  {
    Find1(x);
    var stages := Third(x);
    assert StageChanges(stages) == [stages[0].change] && [stages[0].change][1..] == [];
    assert SetStatus(After2(x).revisions, x.d2.id, Deleted) == After3(x).revisions;
    assert Project(After2(x), stages[0].change) == Some(After3(x));
    assert ProjectAll(After3(x), []) == Some(After3(x));
  }

  lemma Plan4(x: Script, ops: seq<Operation>)
    requires Written(x) && ops != [] && ops[0].change.MemoryCreated? && Sound(After3(x))
    ensures var r := StagesOf(Commands(x)[3].command, 0, ops, After3(x).revisions, Ok(x.v3)); r.Ok? && r.value.list == Fourth(x)
    ensures ProjectAll(After3(x), StageChanges(Fourth(x))).Some?
  {
    Find1(x);
    ProjectsRevision(After3(x), FromDraft(x.d3, 0, Some(x.d1.id)), x.v3, x.d1.id);
    var stages := Fourth(x);
    assert StageChanges(stages) == [stages[0].change, stages[1].change, stages[2].change, stages[3].change];
  }

  lemma Step1(judge: Judge, x: Script, e: Event) returns (item: Item)
    requires Written(x) && e == Commands(x)[0] && OutcomeOf(judge, e.command, [], e.existing) == Ok(x.v1)
    ensures item == Execute(judge, x.memoryId, NO_ITEM, e)
    ensures Reached(x, item, StageChanges(Opening(x)), After1(x))
    ensures item.operations == Tail(e.command, 0, 0, Opening(x))
  {
    NoItemIsGood(x.memoryId);
    assert Changes([]) == [] && !CommandUsed([], x.c1);
    Plan1(x);
    item := Plays(judge, x, NO_ITEM, [], BLANK, e, Ok(x.v1), Opening(x), After1(x));
    assert [] + StageChanges(Opening(x)) == StageChanges(Opening(x));
    assert [] + Tail(e.command, 0, 0, Opening(x)) == Tail(e.command, 0, 0, Opening(x));
  }

  lemma Step2(judge: Judge, x: Script, e: Event, item: Item) returns (next: Item)
    requires Written(x) && Reached(x, item, StageChanges(Opening(x)), After1(x)) && e == Commands(x)[1]
    requires OutcomeOf(judge, e.command, item.operations, e.existing) == Ok(x.v2) && !CommandUsed(item.operations, x.c2)
    ensures next == Execute(judge, x.memoryId, item, e)
    ensures Reached(x, next, StageChanges(Opening(x)) + StageChanges(Second(x)), After2(x))
    ensures next.operations == item.operations + Tail(e.command, 0, |item.operations|, Second(x))
  {
    var changes := StageChanges(Opening(x));
    SnapshotFine(x, item, changes, After1(x), e.command);
    Plan2(x, item.operations);
    next := Plays(judge, x, item, changes, After1(x), e, Ok(x.v2), Second(x), After2(x));
  }

  function Changes2(x: Script): (c: seq<Change>) {
    StageChanges(Opening(x)) + StageChanges(Second(x))
  }

  lemma Step3(judge: Judge, x: Script, e: Event, item: Item) returns (next: Item)
    requires Written(x) && Reached(x, item, Changes2(x), After2(x)) && e == Commands(x)[2]
    requires !CommandUsed(item.operations, x.c3)
    ensures next == Execute(judge, x.memoryId, item, e)
    ensures Reached(x, next, Changes2(x) + StageChanges(Third(x)), After3(x))
    ensures next.operations == item.operations + Tail(e.command, 0, |item.operations|, Third(x))
  {
    SnapshotFine(x, item, Changes2(x), After2(x), e.command);
    var outcome := OutcomeOf(judge, e.command, item.operations, e.existing);
    Plan3(x, item.operations, outcome);
    next := Plays(judge, x, item, Changes2(x), After2(x), e, outcome, Third(x), After3(x));
  }

  function Changes3(x: Script): (c: seq<Change>) {
    Changes2(x) + StageChanges(Third(x))
  }

  lemma Step4(judge: Judge, x: Script, e: Event, item: Item) returns (next: Item)
    requires Written(x) && Reached(x, item, Changes3(x), After3(x)) && e == Commands(x)[3]
    requires OutcomeOf(judge, e.command, item.operations, e.existing) == Ok(x.v3) && !CommandUsed(item.operations, x.c4)
    ensures next == Execute(judge, x.memoryId, item, e)
    ensures Changes(next.operations) == Changes3(x) + StageChanges(Fourth(x))
  {
    SnapshotFine(x, item, Changes3(x), After3(x), e.command);
    Plan4(x, item.operations);
    var q := ProjectAll(After3(x), StageChanges(Fourth(x))).value;
    next := Plays(judge, x, item, Changes3(x), After3(x), e, Ok(x.v3), Fourth(x), q);
  }

  lemma LateOutlives(x: Script)
    ensures Outlives(Changes3(x) + StageChanges(Fourth(x)))
  {
    var all := Changes3(x) + StageChanges(Fourth(x));
    assert |Changes3(x)| == 6 && all[5] == StageChanges(Third(x))[0] && all[5].MemoryDeleted?;
    assert all[6] == StageChanges(Fourth(x))[0] && Introduced(all[6]).Some?;
    assert all[7] == StageChanges(Fourth(x))[1] && all[8] == StageChanges(Fourth(x))[2] && all[9] == StageChanges(Fourth(x))[3];
  }

  lemma NoneUsed(command: Command, at: int, base: nat, stages: seq<Stage>, c: string)
    requires c != command.commandId
    ensures !CommandUsed(Tail(command, at, base, stages), c)
  {
    var tail := Tail(command, at, base, stages);
    forall k | 0 <= k < |tail| ensures tail[k].causation != ByCommand(c) {
      assert tail[k] == Link(command, at, base, stages, k).operation;
    }
  }

  /** The commands play out one after another, each on a log that has not seen its identity. */
  lemma PlayAll(judge: Judge, x: Script, es: seq<Event>) returns (item: Item)
    requires Written(x) && es == Commands(x) && Outcomes(judge, x, es)
    ensures item == Execute(judge, x.memoryId, Execute(judge, x.memoryId,
                      Execute(judge, x.memoryId, Execute(judge, x.memoryId, NO_ITEM, es[0]), es[1]), es[2]), es[3])
    ensures Outlives(Changes(item.operations))
  {
    var i1 := Step1(judge, x, es[0]);
    NoneUsed(es[0].command, 0, 0, Opening(x), x.c2);
    NoneUsed(es[0].command, 0, 0, Opening(x), x.c3);
    NoneUsed(es[0].command, 0, 0, Opening(x), x.c4);
    OpensLike(x, i1, StageChanges(Opening(x)), After1(x));
    var i2 := Step2(judge, x, es[1], i1);
    StillUnused(i1.operations, es[1].command, 0, Second(x), x.c3);
    StillUnused(i1.operations, es[1].command, 0, Second(x), x.c4);
    var i3 := Step3(judge, x, es[2], i2);
    StillUnused(i2.operations, es[2].command, 0, Third(x), x.c4);
    OpensLike(x, i3, Changes3(x), After3(x));
    item := Step4(judge, x, es[3], i3);
    LateOutlives(x);
  }

  /** The log begins with the creation of this item. */
  ghost predicate Begins(x: Script, ops: seq<Operation>) {
    ops != [] && ops[0].change.MemoryCreated? && ops[0].change.scope == x.scope && ops[0].change.kind == x.kind
  }

  lemma OpensLike(x: Script, item: Item, changes: seq<Change>, p: Projection)
    requires Reached(x, item, changes, p) && changes != [] && changes[0] == Opening(x)[0].change
    ensures Begins(x, item.operations)
  {
  }

  /** What validation says to each command, wherever it is planned. */
  ghost predicate Outcomes(judge: Judge, x: Script, es: seq<Event>)
    requires |es| == 4
  {
    && OutcomeOf(judge, es[0].command, [], es[0].existing) == Ok(x.v1)
    && (forall ops :: Begins(x, ops) ==> OutcomeOf(judge, es[1].command, ops, es[1].existing) == Ok(x.v2))
    && (forall ops :: Begins(x, ops) ==> OutcomeOf(judge, es[3].command, ops, es[3].existing) == Ok(x.v3))
  }

  /** For every such script the run ends with a text that the live store holds and a rebuild erases. */
  lemma RebuildErasesLateText(judge: Judge, x: Script)
    requires Written(x) && Outcomes(judge, x, Commands(x))
    ensures var item := Run(judge, x.memoryId, NO_ITEM, Commands(x));
            Rebuild(item).Some? && Rebuild(item).value.contents == map[] != item.contents
  {
    var es := Commands(x);
    var item := PlayAll(judge, x, es);
    RunAll(judge, x.memoryId, es);
    RebuildRestores(judge, x.memoryId, es);
  }

  lemma RunAll(judge: Judge, memoryId: string, es: seq<Event>)
    requires |es| == 4
    ensures Run(judge, memoryId, NO_ITEM, es)
         == Execute(judge, memoryId, Execute(judge, memoryId,
              Execute(judge, memoryId, Execute(judge, memoryId, NO_ITEM, es[0]), es[1]), es[2]), es[3])
  {
    var i1 := RunHead(judge, memoryId, NO_ITEM, es);
    var i2 := RunHead(judge, memoryId, i1, es[1..]);
    var i3 := RunHead(judge, memoryId, i2, es[2..]);
    var i4 := RunHead(judge, memoryId, i3, es[3..]);
    assert es[1..][1..] == es[2..] && es[2..][1..] == es[3..] && es[3..][1..] == [];
    assert Run(judge, memoryId, i4, []) == i4;
  }

  lemma RunHead(judge: Judge, memoryId: string, item: Item, es: seq<Event>) returns (next: Item)
    requires es != []
    ensures next == Execute(judge, memoryId, item, es[0])
    ensures Run(judge, memoryId, item, es) == Run(judge, memoryId, next, es[1..])
  {
    next := Execute(judge, memoryId, item, es[0]);
  }

  lemma RunThree(judge: Judge, memoryId: string, es: seq<Event>)
    requires |es| == 3
    ensures Run(judge, memoryId, NO_ITEM, es)
         == Execute(judge, memoryId, Execute(judge, memoryId, Execute(judge, memoryId, NO_ITEM, es[0]), es[1]), es[2])
  {
    var i1 := RunHead(judge, memoryId, NO_ITEM, es);
    var i2 := RunHead(judge, memoryId, i1, es[1..]);
    var i3 := RunHead(judge, memoryId, i2, es[2..]);
    assert es[1..][1..] == es[2..] && es[2..][1..] == [];
    assert Run(judge, memoryId, i3, []) == i3;
  }

  /** For every such script the first three commands end with an active revision and no pointer. */
  lemma DeletedProposalTakesPointer(judge: Judge, x: Script, es: seq<Event>)
    requires Written(x) && Outcomes(judge, x, Commands(x)) && es == Commands(x)
    ensures var p := Run(judge, x.memoryId, NO_ITEM, es[..3]).projection;
            p.pointer.None? && p.revisions != [] && p.revisions[0].id == x.d1.id && p.revisions[0].status.Active?
  {
    var i1 := Step1(judge, x, es[0]);
    NoneUsed(es[0].command, 0, 0, Opening(x), x.c2);
    NoneUsed(es[0].command, 0, 0, Opening(x), x.c3);
    OpensLike(x, i1, StageChanges(Opening(x)), After1(x));
    var i2 := Step2(judge, x, es[1], i1);
    StillUnused(i1.operations, es[1].command, 0, Second(x), x.c3);
    var i3 := Step3(judge, x, es[2], i2);
    RunThree(judge, x.memoryId, es[..3]);
    assert i3.projection == After3(x);
  }

  // ---------------------------------------------------------------- one such script

  const PLAIN: Judge := Judge(x => x, x => false, x => false)

  function Note(id: string, number: nat): (d: Draft) {
    Draft(id, number, id, Facts(None, id, ExplicitUser, UserApproved, Public, ""), true, {})
  }

  function Approval(content: string): (v: Validation) {
    Validation(content, Accepted, {}, {}, {})
  }

  const SAMPLE: Script := Script("m", "s", "k", "r", {}, Note("1", 1), Note("2", 2), Note("3", 3),
                                 Approval("1"), Approval("2"), Approval("3"), "a", "b", "c", "d")

  lemma NoteIsAccepted(scope: string, kind: string, id: string, number: nat, existing: set<Existing>)
    requires existing == {}
    ensures Validate(PLAIN, scope, kind, Note(id, number), existing) == Ok(Approval(id))
  {
    var d := Note(id, number);
    assert DuplicatesOf(PLAIN, scope, kind, d, existing) == {};
    assert ContradictionsOf(PLAIN, scope, kind, d, existing) == {};
    assert IssuesOf(PLAIN, d, {}, {}) == {};
  }

  lemma NoteOutcome(x: Script, command: Command, ops: seq<Operation>, id: string, number: nat)
    requires x.existing == {} && Begins(x, ops) && NeedsOrigin(command.request)
    requires DraftOf(command.request) == Some(Note(id, number))
    ensures OutcomeOf(PLAIN, command, ops, x.existing) == Ok(Approval(id))
  {
    assert Others(x.existing, command.memoryId) == {};
    NoteIsAccepted(x.scope, x.kind, id, number, Others(x.existing, command.memoryId));
  }

  lemma SampleOutcomes(es: seq<Event>)
    requires es == Commands(SAMPLE)
    ensures Outcomes(PLAIN, SAMPLE, es)
  {
    NoteIsAccepted("s", "k", "1", 1, {});
    forall ops | Begins(SAMPLE, ops) ensures OutcomeOf(PLAIN, es[1].command, ops, es[1].existing) == Ok(SAMPLE.v2) {
      NoteOutcome(SAMPLE, es[1].command, ops, "2", 2);
    }
    forall ops | Begins(SAMPLE, ops) ensures OutcomeOf(PLAIN, es[3].command, ops, es[3].existing) == Ok(SAMPLE.v3) {
      NoteOutcome(SAMPLE, es[3].command, ops, "3", 3);
    }
  }

  lemma SampleIsWritten()
    ensures Written(SAMPLE)
  {
    assert "1"[0] != "2"[0] && "1"[0] != "3"[0] && "2"[0] != "3"[0];
    assert "a"[0] == 'a' && "b"[0] == 'b' && "c"[0] == 'c' && "d"[0] == 'd';
  }

  /** A concrete run whose rebuild loses a text. */
  lemma RebuildCanEraseText() returns (judge: Judge, memoryId: string, events: seq<Event>)
    ensures var item := Run(judge, memoryId, NO_ITEM, events);
            Rebuild(item).Some? && Rebuild(item).value.contents != item.contents
  {
    SampleIsWritten();
    SampleOutcomes(Commands(SAMPLE));
    RebuildErasesLateText(PLAIN, SAMPLE);
    judge, memoryId, events := PLAIN, SAMPLE.memoryId, Commands(SAMPLE);
  }

  /** A concrete run, create, propose, delete the proposal, that leaves an active revision without the pointer. */
  lemma PointerCanBeLost() returns (judge: Judge, memoryId: string, events: seq<Event>)
    ensures |events| == 3
    ensures var p := Run(judge, memoryId, NO_ITEM, events).projection;
            p.pointer.None? && p.revisions != [] && p.revisions[0].status.Active?
  {
    SampleIsWritten();
    SampleOutcomes(Commands(SAMPLE));
    DeletedProposalTakesPointer(PLAIN, SAMPLE, Commands(SAMPLE));
    judge, memoryId, events := PLAIN, SAMPLE.memoryId, Commands(SAMPLE)[..3];
  }
}
