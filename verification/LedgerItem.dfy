/** One memory item under every run of commands: what its operations, revisions and texts keep. */
module LedgerItem {
  import opened Text
  import opened Ledger
  import opened Planner
  import opened LedgerSteps
  import opened LedgerRuns

  // ---------------------------------------------------------------- runs

  /** A command with its time, the duplicate candidates it sees and the identities that other items own. */
  datatype Event = Event(command: Command, at: int, existing: set<Existing>, elsewhere: Elsewhere)

  /** Planning on the stored snapshot and appending atomically; commands to other items do not touch this one. */
  function Execute(judge: Judge, memoryId: string, item: Item, e: Event): (r: Item) {
    if e.command.memoryId != memoryId then item
    else
      var plan := PlanCommand(judge, e.command, e.at, item.operations, item.projection.revisions, e.existing);
      if plan.Err? then item
      else
        var receipt := Append(judge.hash, e.elsewhere, item, plan.value.base, plan.value.entries);
        if receipt.Committed? then receipt.item else item
  }

  function Run(judge: Judge, memoryId: string, item: Item, events: seq<Event>): (r: Item)
    decreases |events|
  {
    if events == [] then item else Run(judge, memoryId, Execute(judge, memoryId, item, events[0]), events[1..])
  }

  // ---------------------------------------------------------------- reading the log

  const PAGE_SIZE: nat := 256

  /** The stored operations past a sequence number. */
  function Past(stored: seq<Operation>, after: nat): (r: seq<Operation>)
    decreases |stored|
  {
    if stored == [] then []
    else if stored[0].sequence > after then [stored[0]] + Past(stored[1..], after)
    else Past(stored[1..], after)
  }

  function Page(stored: seq<Operation>, after: nat): (r: seq<Operation>) {
    var rest := Past(stored, after);
    if |rest| <= PAGE_SIZE then rest else rest[..PAGE_SIZE]
  }

  lemma {:induction false} PastIsSuffix(stored: seq<Operation>, base: nat, after: nat)
    requires forall k :: 0 <= k < |stored| ==> stored[k].sequence == base + k + 1
    requires base <= after <= base + |stored|
    ensures Past(stored, after) == stored[after - base..]
    decreases |stored|
  {
    if stored != [] {
      if after == base {
        PastIsSuffix(stored[1..], base + 1, base + 1);
        PastSkipsNothing(stored[1..], after);
        assert stored == [stored[0]] + stored[1..];
      } else {
        PastIsSuffix(stored[1..], base + 1, after);
      }
    }
  }

  lemma {:induction false} PastSkipsNothing(stored: seq<Operation>, after: nat)
    requires forall k :: 0 <= k < |stored| ==> stored[k].sequence > after
    ensures Past(stored, after) == stored
    decreases |stored|
  {
    if stored != [] {
      PastSkipsNothing(stored[1..], after);
    }
  }

  /** Reading page by page until a short page gives the whole log. */
  method LoadAllOperations(memoryId: string, stored: seq<Operation>) returns (operations: seq<Operation>)
    requires Logged(memoryId, stored)
    ensures operations == stored
  {
    operations := [];
    var after := 0;
    var reading := true;
    while reading
      invariant after == |operations| <= |stored| && operations == stored[..after]
      invariant !reading ==> operations == stored
      decreases reading, |stored| - after
    {
      PastIsSuffix(stored, 0, after);
      var page := Page(stored, after);
      if page != [] {
        after := page[|page| - 1].sequence;
      }
      operations := operations + page;
      if |page| < PAGE_SIZE {
        reading := false;
      }
    }
  }

  // ---------------------------------------------------------------- the invariant

  ghost predicate Logged(memoryId: string, ops: seq<Operation>) {
    forall k :: 0 <= k < |ops| ==> ops[k].sequence == k + 1 && ops[k].memoryId == memoryId
  }

  ghost predicate Rooted(ops: seq<Operation>, k: nat)
    requires k < |ops|
  {
    exists j :: 0 <= j <= k && ops[j].causation == ByCommand(ops[k].id.commandId)
  }

  ghost predicate AllRooted(ops: seq<Operation>) {
    forall k {:trigger Rooted(ops, k)} :: 0 <= k < |ops| ==> Rooted(ops, k)
  }

  /** An activation closes a chain of three operations that introduced and accepted the revision. */
  ghost predicate Justified(ops: seq<Operation>, k: nat)
    requires k < |ops|
  {
    ops[k].change.RevisionActivated? ==>
      && k >= 2
      && Supported(ops[k - 2].change, ops[k - 1].change, ops[k].change.revisionId)
      && ops[k].causation == ByOperation(ops[k - 1].id)
      && ops[k - 1].causation == ByOperation(ops[k - 2].id)
      && ops[k - 2].causation.ByCommand?
  }

  ghost predicate AllJustified(ops: seq<Operation>) {
    forall k {:trigger Justified(ops, k)} :: 0 <= k < |ops| ==> Justified(ops, k)
  }

  ghost predicate IntroducesId(change: Change, id: string) {
    Introduced(change).Some? && Introduced(change).value.id == id
  }

  /** Revision rows and introducing operations correspond: no revision is introduced twice. */
  ghost predicate IntroducedOnce(ops: seq<Operation>, rs: seq<Revision>) {
    && (forall k :: 0 <= k < |ops| && Introduced(ops[k].change).Some? ==>
          Find(rs, Introduced(ops[k].change).value.id).Some?)
    && (forall j, k :: 0 <= j < k < |ops| && Introduced(ops[j].change).Some? ==>
          !IntroducesId(ops[k].change, Introduced(ops[j].change).value.id))
  }

  ghost predicate Opened(ops: seq<Operation>, rs: seq<Revision>) {
    && |rs| <= |ops|
    && (ops == [] ==> rs == [])
    && (ops != [] ==>
          && ops[0].change.MemoryCreated? && rs != []
          && rs[0] == ops[0].change.revision.(status := rs[0].status))
  }

  ghost predicate ActiveWasActivated(ops: seq<Operation>, rs: seq<Revision>) {
    forall i :: 0 <= i < |rs| && rs[i].status.Active? ==>
      exists k :: 0 <= k < |ops| && ops[k].change == RevisionActivated(rs[i].id)
  }

  ghost predicate Good(memoryId: string, item: Item) {
    && Sound(item.projection)
    && ProjectAll(BLANK, Changes(item.operations)) == Some(item.projection)
    && Logged(memoryId, item.operations)
    && AllRooted(item.operations)
    && AllJustified(item.operations)
    && IntroducedOnce(item.operations, item.projection.revisions)
    && Opened(item.operations, item.projection.revisions)
    && ActiveWasActivated(item.operations, item.projection.revisions)
  }

  lemma NoItemIsGood(memoryId: string)
    ensures Good(memoryId, NO_ITEM)
  {
    BlankIsSound();
    assert Changes([]) == [];
  }

  // ---------------------------------------------------------------- a chained batch after a good log

  function Tail(command: Command, at: int, base: nat, stages: seq<Stage>): (o: seq<Operation>) {
    OperationsOf(Chain(command, at, base, stages))
  }

  lemma LoggedGrows(memoryId: string, ops: seq<Operation>, command: Command, at: int, stages: seq<Stage>)
    requires Logged(memoryId, ops) && command.memoryId == memoryId
    ensures Logged(memoryId, ops + Tail(command, at, |ops|, stages))
  {
  }

  lemma RootedGrows(ops: seq<Operation>, command: Command, at: int, stages: seq<Stage>)
    requires AllRooted(ops)
    ensures AllRooted(ops + Tail(command, at, |ops|, stages))
  {
    var all := ops + Tail(command, at, |ops|, stages);
    forall k | 0 <= k < |all| ensures Rooted(all, k) {
      if k < |ops| {
        assert Rooted(ops, k);
        var j :| 0 <= j <= k && ops[j].causation == ByCommand(ops[k].id.commandId);
        assert all[j] == ops[j];
      } else {
        assert all[|ops|].causation == ByCommand(command.commandId);
      }
    }
  }

  lemma JustifiedGrows(hash: string -> string, ops: seq<Operation>, command: Command, at: int, stages: seq<Stage>)
    requires AllJustified(ops) && Shaped(hash, stages)
    ensures AllJustified(ops + Tail(command, at, |ops|, stages))
  {
    var n := |ops|;
    var tail := Tail(command, at, n, stages);
    var all := ops + tail;
    forall k | 0 <= k < |all| ensures Justified(all, k) {
      if k < n {
        assert Justified(ops, k);
      } else if stages[k - n].change.RevisionActivated? {
        assert all[n] == tail[0] && all[n + 1] == tail[1] && all[n + 2] == tail[2];
      }
    }
  }

  lemma IntroducedGrows(hash: string -> string, ops: seq<Operation>, rs: seq<Revision>, command: Command, at: int,
                        stages: seq<Stage>, p: Projection, q: Projection)
    requires IntroducedOnce(ops, rs) && Shaped(hash, stages) && p.revisions == rs && Leads(p, stages, q)
    ensures IntroducedOnce(ops + Tail(command, at, |ops|, stages), q.revisions)
  {
    var n := |ops|;
    var all := ops + Tail(command, at, n, stages);
    forall k | 0 <= k < |all| && Introduced(all[k].change).Some?
      ensures Find(q.revisions, Introduced(all[k].change).value.id).Some?
    {
      if k < n {
        var i := Find(rs, Introduced(ops[k].change).value.id).value;
        assert q.revisions[i].id == rs[i].id;
      } else {
        assert q.revisions[|rs|].id == Introduced(stages[0].change).value.id;
      }
    }
  }

  lemma OpenedGrows(hash: string -> string, ops: seq<Operation>, command: Command, at: int, stages: seq<Stage>,
                    p: Projection, q: Projection)
    requires Opened(ops, p.revisions) && Shaped(hash, stages) && Leads(p, stages, q)
    requires ops == [] <==> stages[0].change.MemoryCreated?
    ensures Opened(ops + Tail(command, at, |ops|, stages), q.revisions)
  {
  }

  lemma ActivatedGrows(hash: string -> string, ops: seq<Operation>, command: Command, at: int, stages: seq<Stage>,
                       p: Projection, q: Projection)
    requires ActiveWasActivated(ops, p.revisions) && Shaped(hash, stages) && Leads(p, stages, q)
    requires |stages| > 2 ==> stages[2].change.RevisionActivated?
    ensures ActiveWasActivated(ops + Tail(command, at, |ops|, stages), q.revisions)
  {
    var n := |ops|;
    var tail := Tail(command, at, n, stages);
    var all := ops + tail;
    forall i | 0 <= i < |q.revisions| && q.revisions[i].status.Active?
      ensures exists k :: 0 <= k < |all| && all[k].change == RevisionActivated(q.revisions[i].id)
    {
      if i < |p.revisions| {
        assert p.revisions[i].status.Active? && p.revisions[i].id == q.revisions[i].id;
        var k :| 0 <= k < n && ops[k].change == RevisionActivated(p.revisions[i].id);
        assert all[k] == ops[k];
      } else {
        assert all[n + 2] == tail[2] && stages[2].change == RevisionActivated(q.revisions[i].id);
      }
    }
  }

  lemma ReplayGrows(ops: seq<Operation>, command: Command, at: int, stages: seq<Stage>, p: Projection, q: Projection)
    requires ProjectAll(BLANK, Changes(ops)) == Some(p) && ProjectAll(p, StageChanges(stages)) == Some(q)
    ensures ProjectAll(BLANK, Changes(ops + Tail(command, at, |ops|, stages))) == Some(q)
  {
    var tail := Tail(command, at, |ops|, stages);
    assert Changes(ops + tail) == Changes(ops) + StageChanges(stages);
    ProjectAllAppend(BLANK, Changes(ops), StageChanges(stages));
  }

  // ---------------------------------------------------------------- planning on a good item

  /** The item after its planned batch. */
  function Grown(command: Command, at: int, item: Item, stages: seq<Stage>, q: Projection): (r: Item) {
    var entries := Chain(command, at, |item.operations|, stages);
    Item(item.operations + OperationsOf(entries), q, KeepAll(item.contents, entries))
  }

  lemma GrownIsGood(hash: string -> string, memoryId: string, item: Item, command: Command, at: int,
                    stages: seq<Stage>, q: Projection)
    requires Good(memoryId, item) && command.memoryId == memoryId
    requires Shaped(hash, stages) && Leads(item.projection, stages, q)
    requires |stages| > 2 ==> stages[2].change.RevisionActivated?
    requires item.operations == [] <==> stages[0].change.MemoryCreated?
    ensures Good(memoryId, Grown(command, at, item, stages, q))
  {
    var ops, p := item.operations, item.projection;
    LoggedGrows(memoryId, ops, command, at, stages);
    RootedGrows(ops, command, at, stages);
    JustifiedGrows(hash, ops, command, at, stages);
    IntroducedGrows(hash, ops, p.revisions, command, at, stages, p, q);
    OpenedGrows(hash, ops, command, at, stages, p, q);
    ActivatedGrows(hash, ops, command, at, stages, p, q);
    ReplayGrows(ops, command, at, stages, p, q);
  }

  /** Stages planned on a good item: where they sit, what they contain and what they lead to. */
  ghost predicate Planned(judge: Judge, memoryId: string, item: Item, e: Event, stages: seq<Stage>) {
    var outcome := OutcomeOf(judge, e.command, item.operations, e.existing);
    var r := StagesOf(e.command, e.at, item.operations, item.projection.revisions, outcome);
    && e.command.memoryId == memoryId
    && SnapshotDenial(e.command, item.operations, item.projection.revisions).None?
    && r.Ok? && stages == r.value.list
    && Fits(|item.operations|, |stages|)
  }

  lemma PlanOnGood(judge: Judge, memoryId: string, item: Item, e: Event) returns (stages: seq<Stage>)
    requires Good(memoryId, item) && e.command.memoryId == memoryId
    requires PlanCommand(judge, e.command, e.at, item.operations, item.projection.revisions, e.existing).Ok?
    ensures Planned(judge, memoryId, item, e, stages)
    ensures var plan := PlanCommand(judge, e.command, e.at, item.operations, item.projection.revisions, e.existing).value;
            plan.base == |item.operations| && plan.entries == Chain(e.command, e.at, |item.operations|, stages)
  {
    var outcome := OutcomeOf(judge, e.command, item.operations, e.existing);
    assert LastSequence(item.operations) == |item.operations|;
    stages := StagesOf(e.command, e.at, item.operations, item.projection.revisions, outcome).value.list;
  }

  /** The guards a plan passed: the item is new exactly when the command creates it. */
  lemma PlannedFacts(judge: Judge, memoryId: string, item: Item, e: Event, stages: seq<Stage>)
    requires Good(memoryId, item) && Planned(judge, memoryId, item, e, stages)
    ensures Shaped(judge.hash, stages)
    ensures item.operations == [] <==> stages[0].change.MemoryCreated?
    ensures stages[0].change.MemoryCreated? <==> e.command.request.CreateMemory?
    ensures |stages| > 2 ==> stages[2].change.RevisionActivated?
    ensures |item.projection.revisions| + 1 < U64_LIMIT
    ensures e.command.request.CreateMemory? ==>
              item.projection == BLANK && stages[0].change.revision.number == e.command.request.draft.number
  {
    var outcome := OutcomeOf(judge, e.command, item.operations, e.existing);
    OutcomeIsHonest(judge, e.command, item.operations, e.existing);
    PlannedShape(judge.hash, e.command, e.at, item.operations, item.projection.revisions, outcome);
    StageKinds(e.command, e.at, item.operations, item.projection.revisions, outcome);
    assert LastSequence(item.operations) == |item.operations|;
  }

  lemma StageKinds(command: Command, at: int, ops: seq<Operation>, rs: seq<Revision>, outcome: Result<Validation>)
    requires StagesOf(command, at, ops, rs, outcome).Ok?
    ensures var list := StagesOf(command, at, ops, rs, outcome).value.list;
            && list != []
            && (list[0].change.MemoryCreated? <==> command.request.CreateMemory?)
            && (command.request.CreateMemory? ==>
                  list[0].change.revision == FromDraft(command.request.draft, at, None))
            && (|list| > 2 ==> list[2].change.RevisionActivated?)
  {
  }

  lemma PlannedEffect(judge: Judge, memoryId: string, item: Item, e: Event, stages: seq<Stage>)
      returns (q: Projection)
    requires Good(memoryId, item) && Planned(judge, memoryId, item, e, stages) && StartsAtOne(e.command.request)
    ensures stages != [] && Leads(item.projection, stages, q)
  {
    var outcome := OutcomeOf(judge, e.command, item.operations, e.existing);
    OutcomeIsHonest(judge, e.command, item.operations, e.existing);
    PlannedFacts(judge, memoryId, item, e, stages);
    q := PlannedLeads(judge.hash, e.command, e.at, item.operations, item.projection, outcome);
  }

  /** The store's own condition on a planned batch, beyond the planner's checks. */
  predicate Acceptable(item: Item, e: Event, stages: seq<Stage>)
    requires stages != []
  {
    && StartsAtOne(e.command.request)
    && |item.operations| + |stages| <= I64_MAX
    && !CommandUsed(item.operations, e.command.commandId)
    && e.command.commandId !in e.elsewhere.commands
    && (Introduced(stages[0].change).Some? ==> Introduced(stages[0].change).value.id !in e.elsewhere.revisions)
  }

  lemma ChainWellFormed(hash: string -> string, command: Command, at: int, base: nat, stages: seq<Stage>)
    requires Shaped(hash, stages)
    ensures WellFormedBatch(hash, base, Chain(command, at, base, stages)) <==> base + |stages| <= I64_MAX
  {
    var entries := Chain(command, at, base, stages);
    if base + |stages| <= I64_MAX {
      forall i | 0 <= i < |entries| ensures EntryFits(hash, base, entries, i) {
        if i > 0 {
          assert entries[i].operation.causation == ByOperation(entries[i - 1].operation.id);
          assert CausedWithin(entries, i);
        }
      }
    } else {
      assert !EntryFits(hash, base, entries, |entries| - 1);
    }
  }

  lemma ChainUnclaimed(hash: string -> string, item: Item, e: Event, at: int, base: nat, stages: seq<Stage>)
    requires Shaped(hash, stages)
    ensures Unclaimed(e.elsewhere, item, Chain(e.command, at, base, stages)) <==>
              && !CommandUsed(item.operations, e.command.commandId)
              && e.command.commandId !in e.elsewhere.commands
              && (Introduced(stages[0].change).Some? ==>
                    Introduced(stages[0].change).value.id !in e.elsewhere.revisions)
  {
    var entries := Chain(e.command, at, base, stages);
    assert entries[0] == Link(e.command, at, base, stages, 0);
  }

  /** An operation is already stored only when its command has been used before. */
  lemma KnownMeansUsed(ops: seq<Operation>, id: OperationId)
    requires AllRooted(ops)
    ensures Known(ops, id) ==> CommandUsed(ops, id.commandId)
  {
    if Known(ops, id) {
      var k :| 0 <= k < |ops| && ops[k].id == id;
      assert Rooted(ops, k);
    }
  }

  lemma KnownBatchMeansUsed(ops: seq<Operation>, command: Command, at: int, stages: seq<Stage>)
    requires AllRooted(ops)
    ensures var entries := Chain(command, at, |ops|, stages);
            (exists i :: 0 <= i < |entries| && Known(ops, entries[i].operation.id)) ==> CommandUsed(ops, command.commandId)
  {
    var entries := Chain(command, at, |ops|, stages);
    forall i | 0 <= i < |entries|
      ensures Known(ops, entries[i].operation.id) ==> CommandUsed(ops, command.commandId)
    {
      KnownMeansUsed(ops, entries[i].operation.id);
    }
  }

  lemma ProjectsIff(judge: Judge, memoryId: string, item: Item, e: Event, stages: seq<Stage>)
    requires Good(memoryId, item) && Planned(judge, memoryId, item, e, stages)
    ensures ProjectAll(item.projection, StageChanges(stages)).Some? <==> StartsAtOne(e.command.request)
  {
    if StartsAtOne(e.command.request) {
      var q := PlannedEffect(judge, memoryId, item, e, stages);
    } else {
      PlannedFacts(judge, memoryId, item, e, stages);
      assert Project(item.projection, stages[0].change).None?;
    }
  }

  lemma BatchIsNew(memoryId: string, item: Item, command: Command, at: int, stages: seq<Stage>)
    requires Good(memoryId, item) && stages != []
    ensures Chain(command, at, |item.operations|, stages)[0].operation !in item.operations
  {
    var o := Chain(command, at, |item.operations|, stages)[0].operation;
    assert o.sequence == |item.operations| + 1;
  }

  /** The store commits a planned batch exactly when its identities are new, it fits and creation starts at one. */
  lemma AcceptedIff(judge: Judge, memoryId: string, item: Item, e: Event, stages: seq<Stage>)
    requires Good(memoryId, item) && Planned(judge, memoryId, item, e, stages)
    ensures stages != []
    ensures var entries := Chain(e.command, e.at, |item.operations|, stages);
            Append(judge.hash, e.elsewhere, item, |item.operations|, entries).Committed? <==> Acceptable(item, e, stages)
  {
    PlannedFacts(judge, memoryId, item, e, stages);
    var n := |item.operations|;
    var entries := Chain(e.command, e.at, n, stages);
    ChainWellFormed(judge.hash, e.command, e.at, n, stages);
    ChainUnclaimed(judge.hash, item, e, e.at, n, stages);
    BatchIsNew(memoryId, item, e.command, e.at, stages);
    KnownBatchMeansUsed(item.operations, e.command, e.at, stages);
    ProjectsIff(judge, memoryId, item, e, stages);
    assert LastSequence(item.operations) == n;
    assert Changes(OperationsOf(entries)) == StageChanges(stages);
    assert entries[0].operation.change == stages[0].change;
  }

  // ---------------------------------------------------------------- one step, and runs

  lemma Stepped(judge: Judge, memoryId: string, item: Item, e: Event) returns (stages: seq<Stage>, q: Projection)
    requires Good(memoryId, item) && Execute(judge, memoryId, item, e) != item
    ensures Planned(judge, memoryId, item, e, stages) && Shaped(judge.hash, stages)
    ensures Leads(item.projection, stages, q)
    ensures Execute(judge, memoryId, item, e) == Grown(e.command, e.at, item, stages, q)
    ensures Good(memoryId, Execute(judge, memoryId, item, e))
  {
    stages := PlanOnGood(judge, memoryId, item, e);
    AcceptedIff(judge, memoryId, item, e, stages);
    PlannedFacts(judge, memoryId, item, e, stages);
    q := PlannedEffect(judge, memoryId, item, e, stages);
    var entries := Chain(e.command, e.at, |item.operations|, stages);
    assert Changes(OperationsOf(entries)) == StageChanges(stages);
    GrownIsGood(judge.hash, memoryId, item, e.command, e.at, stages, q);
  }

  /** Every run of commands keeps the item good and only ever extends its log and advances its revisions. */
  lemma {:induction false} RunKeeps(judge: Judge, memoryId: string, item: Item, events: seq<Event>)
    requires Good(memoryId, item)
    ensures Good(memoryId, Run(judge, memoryId, item, events))
    ensures item.operations <= Run(judge, memoryId, item, events).operations
    ensures Advances(item.projection.revisions, Run(judge, memoryId, item, events).projection.revisions)
    decreases |events|
  {
    if events != [] {
      var next := Execute(judge, memoryId, item, events[0]);
      if next != item {
        var stages, q := Stepped(judge, memoryId, item, events[0]);
      }
      RunKeeps(judge, memoryId, next, events[1..]);
      AdvancesTransitive(item.projection.revisions, next.projection.revisions,
                         Run(judge, memoryId, next, events[1..]).projection.revisions);
    }
  }

  /** From nothing, every run leaves at most one active revision, and it is user approved. */
  lemma AtMostOneActive(judge: Judge, memoryId: string, events: seq<Event>, i: nat, j: nat)
    requires var rs := Run(judge, memoryId, NO_ITEM, events).projection.revisions;
             i < |rs| && j < |rs| && rs[i].status.Active? && rs[j].status.Active?
    ensures i == j
    ensures Trusted(Run(judge, memoryId, NO_ITEM, events).projection.revisions[i].facts)
  {
    NoItemIsGood(memoryId);
    RunKeeps(judge, memoryId, NO_ITEM, events);
  }

  /** Every activation in a reachable log is justified, and every active revision has one. */
  lemma ActivationsAreJustified(judge: Judge, memoryId: string, events: seq<Event>)
    ensures var item := Run(judge, memoryId, NO_ITEM, events);
            AllJustified(item.operations) && ActiveWasActivated(item.operations, item.projection.revisions)
  {
    NoItemIsGood(memoryId);
    RunKeeps(judge, memoryId, NO_ITEM, events);
  }

  /** A revision that is not active now is never active again: approval makes a new revision. */
  lemma NeverPromoted(judge: Judge, memoryId: string, item: Item, events: seq<Event>, i: nat)
    requires Good(memoryId, item) && i < |item.projection.revisions| && !item.projection.revisions[i].status.Active?
    ensures var rs := Run(judge, memoryId, item, events).projection.revisions;
            i < |rs| && rs[i].id == item.projection.revisions[i].id && !rs[i].status.Active?
  {
    RunKeeps(judge, memoryId, item, events);
  }

  lemma StaysUnapprovable(a: seq<Revision>, b: seq<Revision>, i: nat)
    requires Advances(a, b) && DistinctIds(a) && DistinctIds(b) && Lineage(a) && i < |a|
    requires !Approvable(a, a[i].id)
    ensures !Approvable(b, a[i].id)
  {
    assert b[i].id == a[i].id && b[i].supersedes == a[i].supersedes;
    FindAt(a, i);
    FindAt(b, i);
    assert Descends(a, i);
    if i > 0 {
      var j :| 0 <= j < i && a[i].supersedes == Some(a[j].id) && !a[j].status.Proposed?;
      assert b[j].id == a[j].id;
      FindAt(a, j);
      FindAt(b, j);
    }
  }

  /** A revision that cannot be approved, being decided or with a target no longer active, never can be. */
  lemma StaleProposalStaysUnapprovable(judge: Judge, memoryId: string, item: Item, events: seq<Event>, i: nat)
    requires Good(memoryId, item) && i < |item.projection.revisions|
    requires !Approvable(item.projection.revisions, item.projection.revisions[i].id)
    ensures !Approvable(Run(judge, memoryId, item, events).projection.revisions, item.projection.revisions[i].id)
  {
    RunKeeps(judge, memoryId, item, events);
    StaysUnapprovable(item.projection.revisions, Run(judge, memoryId, item, events).projection.revisions, i);
  }

  /** All revisions of an item are about one subject. */
  ghost predicate OneSubject(rs: seq<Revision>) {
    forall i :: 0 <= i < |rs| ==> rs[i].facts.subjectKey == rs[0].facts.subjectKey
  }

  lemma IntroducedKeepsSubject(command: Command, at: int, ops: seq<Operation>, rs: seq<Revision>, outcome: Result<Validation>)
    requires OneSubject(rs) && !command.request.CreateMemory? && StagesOf(command, at, ops, rs, outcome).Ok?
    ensures var list := StagesOf(command, at, ops, rs, outcome).value.list;
            && list != []
            && (Introduced(list[0].change).Some? ==>
                  rs != [] && Introduced(list[0].change).value.facts.subjectKey == rs[0].facts.subjectKey)
  {
  }

  lemma SubjectStep(judge: Judge, memoryId: string, item: Item, e: Event)
    requires Good(memoryId, item) && OneSubject(item.projection.revisions)
    ensures OneSubject(Execute(judge, memoryId, item, e).projection.revisions)
  {
    if Execute(judge, memoryId, item, e) != item {
      var stages, q := Stepped(judge, memoryId, item, e);
      PlannedFacts(judge, memoryId, item, e, stages);
      if !e.command.request.CreateMemory? {
        IntroducedKeepsSubject(e.command, e.at, item.operations, item.projection.revisions,
                               OutcomeOf(judge, e.command, item.operations, e.existing));
      }
      SubjectLeads(item.projection, stages, q);
    }
  }

  lemma SubjectLeads(p: Projection, stages: seq<Stage>, q: Projection)
    requires OneSubject(p.revisions) && stages != [] && Leads(p, stages, q)
    requires Introduced(stages[0].change).Some? && p.revisions != [] ==>
               Introduced(stages[0].change).value.facts.subjectKey == p.revisions[0].facts.subjectKey
    ensures OneSubject(q.revisions)
  {
    forall i | 0 <= i < |q.revisions| ensures q.revisions[i].facts.subjectKey == q.revisions[0].facts.subjectKey {
      if i < |p.revisions| {
        assert q.revisions[i].facts == p.revisions[i].facts && q.revisions[0].facts == p.revisions[0].facts;
      }
    }
  }

  /** In every run all revisions of an item keep the subject it was created with. */
  lemma {:induction false} SubjectNeverChanges(judge: Judge, memoryId: string, item: Item, events: seq<Event>)
    requires Good(memoryId, item) && OneSubject(item.projection.revisions)
    ensures OneSubject(Run(judge, memoryId, item, events).projection.revisions)
    decreases |events|
  {
    if events != [] {
      SubjectStep(judge, memoryId, item, events[0]);
      var next := Execute(judge, memoryId, item, events[0]);
      if next != item {
        var stages, q := Stepped(judge, memoryId, item, events[0]);
      }
      SubjectNeverChanges(judge, memoryId, next, events[1..]);
    }
  }

  /** Nothing is active and the first revision is decided: the item is over. */
  ghost predicate Retired(rs: seq<Revision>) {
    && rs != []
    && !rs[0].status.Proposed?
    && forall i :: 0 <= i < |rs| ==> !rs[i].status.Active?
  }

  lemma RetiredStep(judge: Judge, memoryId: string, item: Item, e: Event)
    requires Good(memoryId, item) && Retired(item.projection.revisions)
    ensures Retired(Execute(judge, memoryId, item, e).projection.revisions)
    ensures |Execute(judge, memoryId, item, e).projection.revisions| == |item.projection.revisions|
  {
    if Execute(judge, memoryId, item, e) != item {
      var stages, q := Stepped(judge, memoryId, item, e);
      PlannedFacts(judge, memoryId, item, e, stages);
      RetiredIntroducesNothing(e.command, e.at, item.operations, item.projection,
                               OutcomeOf(judge, e.command, item.operations, e.existing));
      RetiredLeads(item.projection, stages, q);
    }
  }

  lemma RetiredLeads(p: Projection, stages: seq<Stage>, q: Projection)
    requires Retired(p.revisions) && stages != [] && Leads(p, stages, q) && Introduced(stages[0].change).None?
    ensures Retired(q.revisions) && |q.revisions| == |p.revisions|
  {
    assert forall i :: 0 <= i < |p.revisions| ==> Moves(p.revisions[i].status, q.revisions[i].status);
  }

  lemma RetiredIntroducesNothing(command: Command, at: int, ops: seq<Operation>, p: Projection,
                                 outcome: Result<Validation>)
    requires Sound(p) && Retired(p.revisions) && !command.request.CreateMemory?
    requires StagesOf(command, at, ops, p.revisions, outcome).Ok?
    ensures var list := StagesOf(command, at, ops, p.revisions, outcome).value.list;
            list != [] && Introduced(list[0].change).None?
  {
    var rs := p.revisions;
    if command.request.ApproveProposal? {
      var i := Find(rs, command.request.proposalId).value;
      assert Descends(rs, i);
      FirstProposalStandsAlone(p, command.request.proposalId);
    }
  }

  /** A retired item gains no revision and no active revision, whatever is sent to it. */
  lemma {:induction false} RetiredForever(judge: Judge, memoryId: string, item: Item, events: seq<Event>)
    requires Good(memoryId, item) && Retired(item.projection.revisions)
    ensures Retired(Run(judge, memoryId, item, events).projection.revisions)
    ensures |Run(judge, memoryId, item, events).projection.revisions| == |item.projection.revisions|
    decreases |events|
  {
    if events != [] {
      RetiredStep(judge, memoryId, item, events[0]);
      RunKeeps(judge, memoryId, item, [events[0]]);
      assert [events[0]][1..] == [];
      assert Run(judge, memoryId, item, [events[0]]) == Execute(judge, memoryId, item, events[0]);
      RetiredForever(judge, memoryId, Execute(judge, memoryId, item, events[0]), events[1..]);
    }
  }
}
