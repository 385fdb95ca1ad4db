/** Rebuilding an item from its log, and the crash check that one proposal was committed and never activated. */
module LedgerAudit {
  import opened Text
  import opened Ledger
  import opened Planner
  import opened LedgerSteps
  import opened LedgerRuns
  import opened LedgerItem

  // ---------------------------------------------------------------- retained texts

  function Retain(ids: set<string>, change: Change): (r: set<string>) {
    if change.MemoryDeleted? then {}
    else if Introduced(change).Some? then ids + {Introduced(change).value.id}
    else ids
  }

  /** Which revisions still have their text after these operations. */
  function RetainAll(ids: set<string>, changes: seq<Change>): (r: set<string>)
    decreases |changes|
  {
    if changes == [] then ids else RetainAll(Retain(ids, changes[0]), changes[1..])
  }

  lemma {:induction false} RetainAllAppend(ids: set<string>, a: seq<Change>, b: seq<Change>)
    ensures RetainAll(ids, a + b) == RetainAll(RetainAll(ids, a), b)
    decreases |a|
  {
    if a == [] {
      assert a + b == b;
    } else {
      assert (a + b)[1..] == a[1..] + b;
      RetainAllAppend(Retain(ids, a[0]), a[1..], b);
    }
  }

  lemma RetainLast(ids: set<string>, front: seq<Change>, last: Change)
    ensures RetainAll(ids, front + [last]) == Retain(RetainAll(ids, front), last)
  {
    RetainAllAppend(ids, front, [last]);
    assert [last][1..] == [];
    assert RetainAll(RetainAll(ids, front), [last]) == RetainAll(Retain(RetainAll(ids, front), last), []);
  }

  lemma KeepRetains(hash: string -> string, contents: map<string, string>, change: Change, content: Option<Sidecar>)
    requires SidecarFits(hash, change, content)
    ensures Keep(contents, change, content).Keys == Retain(contents.Keys, change)
  {
  }

  lemma {:induction false} KeepAllRetains(hash: string -> string, contents: map<string, string>, entries: seq<Entry>)
    requires forall i :: 0 <= i < |entries| ==>
               SidecarFits(hash, entries[i].operation.change, entries[i].content)
    ensures KeepAll(contents, entries).Keys == RetainAll(contents.Keys, Changes(OperationsOf(entries)))
    decreases |entries|
  {
    if entries != [] {
      var head := entries[0];
      KeepRetains(hash, contents, head.operation.change, head.content);
      KeepAllRetains(hash, Keep(contents, head.operation.change, head.content), entries[1..]);
      assert Changes(OperationsOf(entries))[1..] == Changes(OperationsOf(entries[1..]));
    }
  }

  /** The retained texts are exactly those that the log says are left. */
  ghost predicate TextsMatch(item: Item) {
    item.contents.Keys == RetainAll({}, Changes(item.operations))
  }

  lemma TextsStep(judge: Judge, memoryId: string, item: Item, e: Event)
    requires Good(memoryId, item) && TextsMatch(item)
    ensures TextsMatch(Execute(judge, memoryId, item, e))
  {
    if Execute(judge, memoryId, item, e) != item {
      var stages, q := Stepped(judge, memoryId, item, e);
      TextsGrow(judge.hash, item, e.command, e.at, stages, q);
    }
  }

  lemma TextsGrow(hash: string -> string, item: Item, command: Command, at: int, stages: seq<Stage>, q: Projection)
    requires TextsMatch(item) && Shaped(hash, stages)
    ensures TextsMatch(Grown(command, at, item, stages, q))
  {
    var entries := Chain(command, at, |item.operations|, stages);
    forall i | 0 <= i < |entries| ensures SidecarFits(hash, entries[i].operation.change, entries[i].content) {
      assert entries[i].content == stages[i].content && entries[i].operation.change == stages[i].change;
    }
    KeepAllRetains(hash, item.contents, entries);
    RetainAllAppend({}, Changes(item.operations), Changes(OperationsOf(entries)));
    assert Changes(item.operations + OperationsOf(entries))
        == Changes(item.operations) + Changes(OperationsOf(entries));
  }

  lemma GoodStep(judge: Judge, memoryId: string, item: Item, e: Event)
    requires Good(memoryId, item)
    ensures Good(memoryId, Execute(judge, memoryId, item, e))
  {
    if Execute(judge, memoryId, item, e) != item {
      var stages, q := Stepped(judge, memoryId, item, e);
    }
  }

  lemma {:induction false} TextsRun(judge: Judge, memoryId: string, item: Item, events: seq<Event>)
    requires Good(memoryId, item) && TextsMatch(item)
    ensures TextsMatch(Run(judge, memoryId, item, events))
    decreases |events|
  {
    if events != [] {
      GoodStep(judge, memoryId, item, events[0]);
      TextsStep(judge, memoryId, item, events[0]);
      TextsRun(judge, memoryId, Execute(judge, memoryId, item, events[0]), events[1..]);
    }
  }

  // ---------------------------------------------------------------- rebuilding

  /** Some revision was introduced after a deletion, and no deletion followed it. */
  ghost predicate Outlives(changes: seq<Change>) {
    exists i, j :: 0 <= i < j < |changes| && changes[i].MemoryDeleted? && Introduced(changes[j]).Some?
                   && forall k :: j < k < |changes| ==> !changes[k].MemoryDeleted?
  }

  lemma {:induction false} RetainedAfterDeletion(changes: seq<Change>)
    requires HasDeletion(changes)
    ensures RetainAll({}, changes) != {} <==> Outlives(changes)
  {
    var front, last := changes[..|changes| - 1], changes[|changes| - 1];
    assert changes == front + [last];
    RetainLast({}, front, last);
    if last.MemoryDeleted? {
      assert !Outlives(changes);
    } else {
      var i :| 0 <= i < |changes| && changes[i].MemoryDeleted?;
      assert front[i].MemoryDeleted?;
      if Introduced(last).Some? {
        assert Introduced(last).value.id in RetainAll({}, changes);
        assert changes[i].MemoryDeleted? && Introduced(changes[|changes| - 1]).Some?;
      } else {
        RetainedAfterDeletion(front);
        OutlivesFront(front, last);
      }
    }
  }

  lemma OutlivesFront(front: seq<Change>, last: Change)
    requires !last.MemoryDeleted? && Introduced(last).None?
    ensures Outlives(front + [last]) <==> Outlives(front)
  {
    var changes := front + [last];
    if Outlives(front) {
      var i, j :| 0 <= i < j < |front| && front[i].MemoryDeleted? && Introduced(front[j]).Some?
                  && forall k :: j < k < |front| ==> !front[k].MemoryDeleted?;
      assert changes[i].MemoryDeleted? && Introduced(changes[j]).Some?;
    }
    if Outlives(changes) {
      var i, j :| 0 <= i < j < |changes| && changes[i].MemoryDeleted? && Introduced(changes[j]).Some?
                  && forall k :: j < k < |changes| ==> !changes[k].MemoryDeleted?;
      assert front[i].MemoryDeleted? && Introduced(front[j]).Some?;
      assert forall k :: j < k < |front| ==> front[k] == changes[k];
    }
  }

  lemma {:induction false} WithoutDeletionAllRetained(changes: seq<Change>, j: nat)
    requires !HasDeletion(changes) && j < |changes| && Introduced(changes[j]).Some?
    ensures Introduced(changes[j]).value.id in RetainAll({}, changes)
  {
    var front, last := changes[..|changes| - 1], changes[|changes| - 1];
    assert changes == front + [last];
    assert !last.MemoryDeleted?;
    RetainLast({}, front, last);
    if j < |front| {
      assert front[j] == changes[j];
      assert !HasDeletion(front) by {
        assert forall i :: 0 <= i < |front| ==> front[i] == changes[i];
      }
      WithoutDeletionAllRetained(front, j);
    }
  }

  /**
   In every reachable state a rebuild succeeds and restores every revision status and the pointer; it also
   restores every text unless one was introduced after the last deletion, and then it loses them all.
   */
  lemma RebuildRestores(judge: Judge, memoryId: string, events: seq<Event>)
    ensures var item := Run(judge, memoryId, NO_ITEM, events);
            && Rebuild(item).Some?
            && Rebuild(item).value.operations == item.operations
            && Rebuild(item).value.projection == item.projection
            && (Rebuild(item).value.contents == item.contents <==> !Outlives(Changes(item.operations)))
            && (Outlives(Changes(item.operations)) ==> Rebuild(item).value.contents == map[] != item.contents)
  {
    NoItemIsGood(memoryId);
    RunKeeps(judge, memoryId, NO_ITEM, events);
    assert Changes([]) == [];
    TextsRun(judge, memoryId, NO_ITEM, events);
    var item := Run(judge, memoryId, NO_ITEM, events);
    GoodRebuilds(memoryId, item);
  }

  lemma GoodRebuilds(memoryId: string, item: Item)
    requires Good(memoryId, item) && TextsMatch(item)
    ensures Rebuild(item) == Some(item.(contents := if HasDeletion(Changes(item.operations)) then map[] else item.contents))
    ensures HasDeletion(Changes(item.operations)) ==>
              (item.contents == map[] <==> !Outlives(Changes(item.operations)))
    ensures Outlives(Changes(item.operations)) ==> HasDeletion(Changes(item.operations))
  {
    var changes := Changes(item.operations);
    if HasDeletion(changes) {
      RetainedAfterDeletion(changes);
      assert item.contents == map[] <==> item.contents.Keys == {};
    } else {
      forall j | 0 <= j < |item.operations| && Introduced(item.operations[j].change).Some?
        ensures Introduced(item.operations[j].change).value.id in item.contents
      {
        WithoutDeletionAllRetained(changes, j);
      }
    }
  }

  // ---------------------------------------------------------------- the crash check

  const VERIFIED_OPERATIONS: nat := 16

  /** The page of operations that the check loads. */
  function FirstPage(ops: seq<Operation>): (r: seq<Operation>) {
    if |ops| <= VERIFIED_OPERATIONS then ops else ops[..VERIFIED_OPERATIONS]
  }

  predicate CreatedMatches(command: Command, created: Operation)
    requires command.request.CreateMemory?
  {
    && created.memoryId == command.memoryId
    && created.sequence == 1
    && created.correlationId == command.correlationId
    && created.causation == ByCommand(command.commandId)
    && created.change == MemoryCreated(command.request.scope, command.request.kind,
                                       FromDraft(command.request.draft, created.occurredAt, None))
  }

  predicate ValidationMatches(command: Command, created: Operation, validated: Operation)
    requires command.request.CreateMemory?
  {
    && validated.memoryId == command.memoryId
    && validated.sequence == 2
    && validated.correlationId == command.correlationId
    && validated.causation == ByOperation(created.id)
    && validated.change.RevisionValidated?
    && validated.change.revisionId == command.request.draft.id
    && validated.change.validation.contentHash == command.request.draft.facts.contentHash
    && validated.change.validation.verdict == NeedsReview
  }

  predicate NeverActivated(ops: seq<Operation>, id: string) {
    forall k :: 0 <= k < |ops| ==> ops[k].change != RevisionActivated(id)
  }

  /** The proposal was committed exactly as planned, was not activated, and its text is still there. */
  predicate ProposalCommitted(command: Command, ops: seq<Operation>, content: Option<string>) {
    && command.request.CreateMemory?
    && |ops| >= 2
    && CreatedMatches(command, ops[0])
    && ValidationMatches(command, ops[0], ops[1])
    && NeverActivated(ops, command.request.draft.id)
    && content == Some(command.request.draft.content)
  }

  /** What is fixed as soon as the proposal is committed. */
  ghost predicate Holds(command: Command, item: Item) {
    && command.request.CreateMemory?
    && |item.operations| >= 2
    && CreatedMatches(command, item.operations[0])
    && ValidationMatches(command, item.operations[0], item.operations[1])
    && (command.request.draft.id in item.contents ==>
          item.contents[command.request.draft.id] == command.request.draft.content)
  }

  lemma KeepAllTail(contents: map<string, string>, entries: seq<Entry>)
    requires forall i :: 0 <= i < |entries| ==> entries[i].content.None? && !entries[i].operation.change.MemoryDeleted?
    ensures KeepAll(contents, entries) == contents
    decreases |entries|
  {
    if entries != [] {
      KeepAllTail(contents, entries[1..]);
    }
  }

  /** Only the first stage of a batch touches the texts. */
  lemma KeepAllShaped(hash: string -> string, contents: map<string, string>, command: Command, at: int, base: nat,
                      stages: seq<Stage>)
    requires Shaped(hash, stages)
    ensures KeepAll(contents, Chain(command, at, base, stages)) == Keep(contents, stages[0].change, stages[0].content)
  {
    var entries := Chain(command, at, base, stages);
    assert entries[0].operation.change == stages[0].change && entries[0].content == stages[0].content;
    forall i | 0 <= i < |entries[1..]|
      ensures entries[1..][i].content.None? && !entries[1..][i].operation.change.MemoryDeleted?
    {
      assert entries[1..][i] == entries[i + 1];
      assert entries[i + 1].content == stages[i + 1].content;
    }
    KeepAllTail(Keep(contents, stages[0].change, stages[0].content), entries[1..]);
  }

  lemma HoldsGrows(hash: string -> string, command: Command, memoryId: string, item: Item, later: Command, at: int,
                   stages: seq<Stage>, q: Projection)
    requires Holds(command, item) && Good(memoryId, item) && Shaped(hash, stages)
    requires Leads(item.projection, stages, q)
    ensures Holds(command, Grown(later, at, item, stages, q))
  {
    var draft := command.request.draft;
    KeepAllShaped(hash, item.contents, later, at, |item.operations|, stages);
    assert item.projection.revisions[0].id == draft.id;
    if Introduced(stages[0].change).Some? {
      assert Introduced(stages[0].change).value.id != draft.id;
    }
  }

  lemma {:induction false} HoldsRun(judge: Judge, command: Command, memoryId: string, item: Item, events: seq<Event>)
    requires Holds(command, item) && Good(memoryId, item)
    ensures Holds(command, Run(judge, memoryId, item, events)) && Good(memoryId, Run(judge, memoryId, item, events))
    decreases |events|
  {
    if events != [] {
      var next := Execute(judge, memoryId, item, events[0]);
      if next != item {
        var stages, q := Stepped(judge, memoryId, item, events[0]);
        HoldsGrows(judge.hash, command, memoryId, item, events[0].command, events[0].at, stages, q);
      }
      HoldsRun(judge, command, memoryId, next, events[1..]);
    }
  }

  /** The first revision can only be activated by the third operation, and only if the second accepted it. */
  lemma FirstActivation(memoryId: string, item: Item, k: nat)
    requires Good(memoryId, item) && k < |item.operations|
    requires item.operations[k].change == RevisionActivated(item.projection.revisions[0].id)
    ensures k == 2 && Supported(item.operations[0].change, item.operations[1].change,
                                item.projection.revisions[0].id)
  {
    var ops := item.operations;
    assert Justified(ops, k);
    assert Introduced(ops[0].change).value.id == item.projection.revisions[0].id;
    assert IntroducesId(ops[k - 2].change, Introduced(ops[0].change).value.id);
  }

  lemma ReviewedIsNeverActivated(command: Command, memoryId: string, item: Item)
    requires Good(memoryId, item) && Holds(command, item)
    ensures NeverActivated(item.operations, command.request.draft.id)
  {
    forall k | 0 <= k < |item.operations|
      ensures item.operations[k].change != RevisionActivated(command.request.draft.id)
    {
      if item.operations[k].change == RevisionActivated(command.request.draft.id) {
        FirstActivation(memoryId, item, k);
        assert false;
      }
    }
  }

  lemma HeldIsCommitted(command: Command, memoryId: string, item: Item)
    requires Good(memoryId, item) && Holds(command, item) && command.request.draft.id in item.contents
    ensures ProposalCommitted(command, FirstPage(item.operations), Some(item.contents[command.request.draft.id]))
  {
    ReviewedIsNeverActivated(command, memoryId, item);
  }

  /** A committed proposal under review holds right after its batch. */
  lemma ProposalHolds(judge: Judge, memoryId: string, e: Event)
    requires e.command.request.CreateMemory? && Execute(judge, memoryId, NO_ITEM, e) != NO_ITEM
    requires OutcomeOf(judge, e.command, [], e.existing).Ok?
    requires OutcomeOf(judge, e.command, [], e.existing).value.verdict == NeedsReview
    ensures Holds(e.command, Execute(judge, memoryId, NO_ITEM, e)) && Good(memoryId, Execute(judge, memoryId, NO_ITEM, e))
  {
    NoItemIsGood(memoryId);
    var stages, q := Stepped(judge, memoryId, NO_ITEM, e);
    var outcome := OutcomeOf(judge, e.command, [], e.existing);
    OutcomeIsHonest(judge, e.command, [], e.existing);
    ReviewedStages(judge.hash, e.command, e.at, outcome, stages, q);
  }

  lemma ReviewedStages(hash: string -> string, command: Command, at: int, outcome: Result<Validation>,
                       stages: seq<Stage>, q: Projection)
    requires command.request.CreateMemory? && Honest(hash, command.request, outcome) && Shaped(hash, stages)
    requires outcome.Ok? && outcome.value.verdict == NeedsReview
    requires StagesOf(command, at, [], [], outcome) == Ok(Stages(stages, Some(outcome.value)))
    ensures Holds(command, Grown(command, at, NO_ITEM, stages, q))
  {
    var tail := Tail(command, at, 0, stages);
    assert |stages| == 2 && [] + tail == tail;
    assert tail[0] == Link(command, at, 0, stages, 0).operation && tail[1] == Link(command, at, 0, stages, 1).operation;
    KeepAllShaped(hash, map[], command, at, 0, stages);
  }

  /** Once committed for review, the check keeps succeeding after any commands while the text is retained. */
  lemma ProposalStaysCommitted(judge: Judge, memoryId: string, e: Event, events: seq<Event>)
    requires e.command.request.CreateMemory? && Execute(judge, memoryId, NO_ITEM, e) != NO_ITEM
    requires OutcomeOf(judge, e.command, [], e.existing).Ok?
    requires OutcomeOf(judge, e.command, [], e.existing).value.verdict == NeedsReview
    ensures var item := Run(judge, memoryId, Execute(judge, memoryId, NO_ITEM, e), events);
            e.command.request.draft.id in item.contents ==>
              ProposalCommitted(e.command, FirstPage(item.operations), Some(item.contents[e.command.request.draft.id]))
  {
    ProposalHolds(judge, memoryId, e);
    var first := Execute(judge, memoryId, NO_ITEM, e);
    HoldsRun(judge, e.command, memoryId, first, events);
    var item := Run(judge, memoryId, first, events);
    if e.command.request.draft.id in item.contents {
      HeldIsCommitted(e.command, memoryId, item);
    }
  }

  /** When the check succeeds on a page of a good item, its first revision is that draft and is never active again. */
  lemma CommittedMeansNeverActive(judge: Judge, command: Command, memoryId: string, item: Item, content: Option<string>,
                                  events: seq<Event>)
    requires Good(memoryId, item) && ProposalCommitted(command, FirstPage(item.operations), content)
    ensures var rs := Run(judge, memoryId, item, events).projection.revisions;
            && rs != [] && !rs[0].status.Active?
            && rs[0] == FromDraft(command.request.draft, rs[0].createdAt, None).(status := rs[0].status)
  {
    var rs := item.projection.revisions;
    assert FirstPage(item.operations)[0] == item.operations[0] && FirstPage(item.operations)[1] == item.operations[1];
    if rs[0].status.Active? {
      var k :| 0 <= k < |item.operations| && item.operations[k].change == RevisionActivated(rs[0].id);
      FirstActivation(memoryId, item, k);
      assert false;
    }
    RunKeeps(judge, memoryId, item, events);
  }
}
