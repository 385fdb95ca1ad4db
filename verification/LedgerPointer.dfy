/** When a memory item's pointer is on its active revision, and when an active revision is left without it. */
module LedgerPointer {
  import opened Text
  import opened Ledger
  import opened Planner
  import opened LedgerSteps
  import opened LedgerRuns
  import opened LedgerItem

  /** A deletion, of whatever revision, follows the activation of this one. */
  ghost predicate DeletedSince(ops: seq<Operation>, id: string) {
    exists k, d :: 0 <= k < d < |ops| && ops[k].change == RevisionActivated(id) && ops[d].change.MemoryDeleted?
  }

  /** The item points to its active revision unless something of the item was deleted after its activation. */
  ghost predicate PointerTracked(ops: seq<Operation>, p: Projection) {
    forall i :: 0 <= i < |p.revisions| && p.revisions[i].status.Active? ==>
      p.pointer == if DeletedSince(ops, p.revisions[i].id) then None else Some(p.revisions[i].id)
  }

  /** Operations that delete nothing leave what was deleted before as it was. */
  lemma NothingDeleted(ops: seq<Operation>, tail: seq<Operation>, id: string)
    requires forall j :: 0 <= j < |tail| ==> !tail[j].change.MemoryDeleted?
    ensures DeletedSince(ops + tail, id) <==> DeletedSince(ops, id)
  {
    var all := ops + tail;
    forall d | |ops| <= d < |all| ensures !all[d].change.MemoryDeleted? {
      assert all[d] == tail[d - |ops|];
    }
    if DeletedSince(all, id) {
      var k, d :| 0 <= k < d < |all| && all[k].change == RevisionActivated(id) && all[d].change.MemoryDeleted?;
      assert ops[k] == all[k] && ops[d] == all[d];
    }
    if DeletedSince(ops, id) {
      var k, d :| 0 <= k < d < |ops| && ops[k].change == RevisionActivated(id) && ops[d].change.MemoryDeleted?;
      assert all[k] == ops[k] && all[d] == ops[d];
    }
  }

  /** A revision that is only now introduced has not been activated before. */
  lemma NewWasNotActivated(ops: seq<Operation>, rs: seq<Revision>, id: string)
    requires AllJustified(ops) && IntroducedOnce(ops, rs) && Find(rs, id).None?
    ensures !DeletedSince(ops, id)
  {
    forall k | 0 <= k < |ops| ensures ops[k].change != RevisionActivated(id) {
      assert Justified(ops, k);
    }
  }

  lemma RetractionLeavesNone(p: Projection, id: string, q: Projection)
    requires Sound(p) && Project(p, MemoryRetracted(id)) == Some(q)
    ensures forall i :: 0 <= i < |q.revisions| ==> !q.revisions[i].status.Active?
  {
    var at := Find(p.revisions, id).value;
    forall i | 0 <= i < |q.revisions| ensures !q.revisions[i].status.Active? {
      if p.revisions[i].status.Active? {
        assert i == at;
      }
    }
  }

  lemma SingleProjects(p: Projection, stages: seq<Stage>, q: Projection)
    requires |stages| == 1 && ProjectAll(p, StageChanges(stages)) == Some(q)
    ensures Project(p, stages[0].change) == Some(q)
  {
    assert StageChanges(stages)[1..] == [];
  }

  lemma TailChanges(command: Command, at: int, base: nat, stages: seq<Stage>)
    ensures |Tail(command, at, base, stages)| == |stages|
    ensures forall j :: 0 <= j < |stages| ==> Tail(command, at, base, stages)[j].change == stages[j].change
  {
  }

  /** An introduction: the pointer moves to the revision that was activated, or stays. */
  lemma IntroductionTracks(hash: string -> string, ops: seq<Operation>, tail: seq<Operation>, stages: seq<Stage>,
                           p: Projection, q: Projection)
    requires PointerTracked(ops, p) && Shaped(hash, stages) && Leads(p, stages, q) && Introduced(stages[0].change).Some?
    requires AllJustified(ops) && IntroducedOnce(ops, p.revisions)
    requires |tail| == |stages| && forall j :: 0 <= j < |tail| ==> tail[j].change == stages[j].change
    ensures PointerTracked(ops + tail, q)
  {
    var id := Introduced(stages[0].change).value.id;
    NewWasNotActivated(ops, p.revisions, id);
    NothingDeleted(ops, tail, id);
    forall i | 0 <= i < |q.revisions| && q.revisions[i].status.Active?
      ensures q.pointer == if DeletedSince(ops + tail, q.revisions[i].id) then None else Some(q.revisions[i].id)
    {
      if |stages| > 2 {
        assert i == |p.revisions|;
      } else {
        assert q.revisions[i].id == p.revisions[i].id && p.revisions[i].status.Active?;
        NothingDeleted(ops, tail, p.revisions[i].id);
      }
    }
  }

  /** A batch that introduces nothing is a single rejection, retraction or deletion. */
  lemma RemovalTracks(hash: string -> string, ops: seq<Operation>, tail: seq<Operation>, stages: seq<Stage>,
                      p: Projection, q: Projection)
    requires PointerTracked(ops, p) && Shaped(hash, stages) && Leads(p, stages, q) && Introduced(stages[0].change).None?
    requires Sound(p) && ActiveWasActivated(ops, p.revisions)
    requires |tail| == |stages| && forall j :: 0 <= j < |tail| ==> tail[j].change == stages[j].change
    ensures PointerTracked(ops + tail, q)
  {
    assert |stages| == 1;
    SingleProjects(p, stages, q);
    if stages[0].change.MemoryRetracted? {
      RetractionLeavesNone(p, stages[0].change.revisionId, q);
    } else {
      forall i | 0 <= i < |q.revisions| && q.revisions[i].status.Active?
        ensures q.pointer == if DeletedSince(ops + tail, q.revisions[i].id) then None else Some(q.revisions[i].id)
      {
        var id := p.revisions[i].id;
        assert q.revisions[i].id == id && p.revisions[i].status.Active?;
        if stages[0].change.MemoryDeleted? {
          DeletedNow(ops, tail, id);
        } else {
          NothingDeleted(ops, tail, id);
        }
      }
    }
  }

  lemma DeletedNow(ops: seq<Operation>, tail: seq<Operation>, id: string)
    requires exists k :: 0 <= k < |ops| && ops[k].change == RevisionActivated(id)
    requires |tail| == 1 && tail[0].change.MemoryDeleted?
    ensures DeletedSince(ops + tail, id)
  {
    var k :| 0 <= k < |ops| && ops[k].change == RevisionActivated(id);
    var all := ops + tail;
    assert all[k] == ops[k] && all[|ops|] == tail[0];
  }

  lemma PointerStep(judge: Judge, memoryId: string, item: Item, e: Event)
    requires Good(memoryId, item) && PointerTracked(item.operations, item.projection)
    ensures var next := Execute(judge, memoryId, item, e); PointerTracked(next.operations, next.projection)
  {
    if Execute(judge, memoryId, item, e) != item {
      var stages, q := Stepped(judge, memoryId, item, e);
      PlannedFacts(judge, memoryId, item, e, stages);
      var tail := Tail(e.command, e.at, |item.operations|, stages);
      TailChanges(e.command, e.at, |item.operations|, stages);
      if Introduced(stages[0].change).Some? {
        IntroductionTracks(judge.hash, item.operations, tail, stages, item.projection, q);
      } else {
        RemovalTracks(judge.hash, item.operations, tail, stages, item.projection, q);
      }
    }
  }

  lemma {:induction false} PointerRun(judge: Judge, memoryId: string, item: Item, events: seq<Event>)
    requires Good(memoryId, item) && PointerTracked(item.operations, item.projection)
    ensures var last := Run(judge, memoryId, item, events); PointerTracked(last.operations, last.projection)
    decreases |events|
  {
    if events != [] {
      PointerStep(judge, memoryId, item, events[0]);
      var next := Execute(judge, memoryId, item, events[0]);
      if next != item {
        var stages, q := Stepped(judge, memoryId, item, events[0]);
      }
      PointerRun(judge, memoryId, next, events[1..]);
    }
  }

  /**
   After every run an active revision is left without the item's pointer if and only if some revision of the
   item was deleted after it had been activated; otherwise the item points to it.
   */
  lemma ActiveWithoutPointerIff(judge: Judge, memoryId: string, events: seq<Event>, i: nat)
    requires i < |Run(judge, memoryId, NO_ITEM, events).projection.revisions|
    requires Run(judge, memoryId, NO_ITEM, events).projection.revisions[i].status.Active?
    ensures var item := Run(judge, memoryId, NO_ITEM, events);
            var id := item.projection.revisions[i].id;
            && (item.projection.pointer.None? <==> DeletedSince(item.operations, id))
            && (item.projection.pointer.Some? ==> item.projection.pointer.value == id)
  {
    NoItemIsGood(memoryId);
    PointerRun(judge, memoryId, NO_ITEM, events);
  }
}
