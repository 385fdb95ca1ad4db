/** The store by itself: what it keeps of one item under any batches, planned or not, and the recognition of a repeated one. */
module LedgerStore {
  import opened Text
  import opened Ledger
  import opened LedgerItem

  // ---------------------------------------------------------------- runs

  /** An attempt to append a batch, with the identities that other items own at that time. */
  datatype Offer = Offer(elsewhere: Elsewhere, base: nat, entries: seq<Entry>)

  /** A declined batch leaves the item as it was; batches about other items do not touch this one. */
  function Take(hash: string -> string, memoryId: string, item: Item, offer: Offer): (r: Item) {
    if offer.entries == [] || offer.entries[0].operation.memoryId != memoryId then item
    else
      var receipt := Append(hash, offer.elsewhere, item, offer.base, offer.entries);
      if receipt.Committed? then receipt.item else item
  }

  function TakeAll(hash: string -> string, memoryId: string, item: Item, offers: seq<Offer>): (r: Item)
    decreases |offers|
  {
    if offers == [] then item else TakeAll(hash, memoryId, Take(hash, memoryId, item, offers[0]), offers[1..])
  }

  // ---------------------------------------------------------------- what the log keeps

  ghost predicate Identified(ops: seq<Operation>) {
    forall j, k :: 0 <= j < k < |ops| ==> ops[j].id != ops[k].id
  }

  ghost predicate CommandsOnce(ops: seq<Operation>) {
    forall j, k :: 0 <= j < k < |ops| ==> !(ops[j].causation.ByCommand? && ops[j].causation == ops[k].causation)
  }

  /** An operation that another one caused comes after it. */
  ghost predicate CausedEarlier(ops: seq<Operation>, k: nat)
    requires k < |ops|
  {
    ops[k].causation.ByOperation? ==> exists j :: 0 <= j < k && ops[j].id == ops[k].causation.operationId
  }

  ghost predicate AllCaused(ops: seq<Operation>) {
    forall k {:trigger CausedEarlier(ops, k)} :: 0 <= k < |ops| ==> CausedEarlier(ops, k)
  }

  ghost predicate CreatedFirst(ops: seq<Operation>) {
    forall k :: 0 <= k < |ops| ==> (ops[k].change.MemoryCreated? <==> k == 0)
  }

  ghost predicate LogIntact(memoryId: string, ops: seq<Operation>) {
    Logged(memoryId, ops) && Identified(ops) && CommandsOnce(ops) && AllCaused(ops) && CreatedFirst(ops)
  }

  lemma BatchIsCaused(hash: string -> string, item: Item, base: nat, entries: seq<Entry>)
    requires WellFormedBatch(hash, base, entries) && CauseKnown(item, entries) && AllCaused(item.operations)
    ensures AllCaused(item.operations + OperationsOf(entries))
  {
    var ops, n := item.operations + OperationsOf(entries), |item.operations|;
    forall k | 0 <= k < |ops| ensures CausedEarlier(ops, k) {
      if k < n {
        assert CausedEarlier(item.operations, k);
        if ops[k].causation.ByOperation? {
          var j :| 0 <= j < k && item.operations[j].id == ops[k].causation.operationId;
          assert ops[j] == item.operations[j];
        }
      } else if ops[k].causation.ByOperation? {
        assert EntryFits(hash, base, entries, k - n);
        if k > n {
          var j :| 0 <= j < k - n && entries[k - n].operation.causation == ByOperation(entries[j].operation.id);
          assert ops[n + j] == entries[j].operation;
        } else {
          var j :| 0 <= j < n && item.operations[j].id == ops[k].causation.operationId;
          assert ops[j] == item.operations[j];
        }
      }
    }
  }

  lemma BatchIsLogged(hash: string -> string, memoryId: string, ops: seq<Operation>, entries: seq<Entry>)
    requires Logged(memoryId, ops) && WellFormedBatch(hash, LastSequence(ops), entries)
    requires entries[0].operation.memoryId == memoryId
    ensures Logged(memoryId, ops + OperationsOf(entries)) && LastSequence(ops) == |ops|
  {
    forall i | 0 <= i < |entries| ensures entries[i].operation.sequence == |ops| + 1 + i
                                          && entries[i].operation.memoryId == memoryId {
      assert EntryFits(hash, LastSequence(ops), entries, i);
    }
  }

  lemma BatchIsCreatedFirst(hash: string -> string, ops: seq<Operation>, base: nat, entries: seq<Entry>)
    requires WellFormedBatch(hash, base, entries) && CreatedFirst(ops)
    requires (ops == []) == entries[0].operation.change.MemoryCreated?
    ensures CreatedFirst(ops + OperationsOf(entries))
  {
    forall i | 0 < i < |entries| ensures !entries[i].operation.change.MemoryCreated? {
      assert EntryFits(hash, base, entries, i);
    }
  }

  lemma BatchIsIdentified(ops: seq<Operation>, entries: seq<Entry>)
    requires Identified(ops)
    requires forall i, j :: 0 <= i < j < |entries| ==> entries[i].operation.id != entries[j].operation.id
    requires forall i :: 0 <= i < |entries| ==> !Known(ops, entries[i].operation.id)
    ensures Identified(ops + OperationsOf(entries))
  {
    var all := ops + OperationsOf(entries);
    forall j, k | 0 <= j < k < |all| ensures all[j].id != all[k].id {
      if j < |ops| <= k {
        assert !Known(ops, entries[k - |ops|].operation.id);
      }
    }
  }

  lemma BatchUsesCommandOnce(hash: string -> string, elsewhere: Elsewhere, item: Item, base: nat, entries: seq<Entry>)
    requires WellFormedBatch(hash, base, entries) && CommandsOnce(item.operations) && Unclaimed(elsewhere, item, entries)
    ensures CommandsOnce(item.operations + OperationsOf(entries))
  {
    var ops := item.operations + OperationsOf(entries);
    forall j, k | 0 <= j < k < |ops| ensures !(ops[j].causation.ByCommand? && ops[j].causation == ops[k].causation) {
      if |item.operations| < k {
        assert EntryFits(hash, base, entries, k - |item.operations|);
      } else if k == |item.operations| {
        assert ops[j] == item.operations[j] && ops[k] == entries[0].operation;
      }
    }
  }

  // ---------------------------------------------------------------- what the rows and texts keep

  /** One of the first n operations introduced this revision with these facts. */
  ghost predicate IntroducedWith(ops: seq<Operation>, n: nat, id: string, facts: Facts)
    requires n <= |ops|
  {
    exists j :: 0 <= j < n && Introduced(ops[j].change).Some?
                && Introduced(ops[j].change).value.id == id && Introduced(ops[j].change).value.facts == facts
  }

  /** Rows are numbered from one, of distinct revisions. */
  ghost predicate Numbered(rows: seq<Revision>) {
    && (forall i :: 0 <= i < |rows| ==> rows[i].number == i + 1)
    && (forall i, j :: 0 <= i < j < |rows| ==> rows[i].id != rows[j].id)
  }

  ghost predicate RowsIntroduced(ops: seq<Operation>, rows: seq<Revision>) {
    forall i :: 0 <= i < |rows| ==> IntroducedWith(ops, |ops|, rows[i].id, rows[i].facts)
  }

  /** A verdict is about a revision introduced before it, and about the very text it was introduced with. */
  ghost predicate VerdictGrounded(ops: seq<Operation>, k: nat)
    requires k < |ops|
  {
    ops[k].change.RevisionValidated? ==>
      exists facts: Facts :: IntroducedWith(ops, k, ops[k].change.revisionId, facts)
                             && facts.contentHash == ops[k].change.validation.contentHash
  }

  ghost predicate VerdictsGrounded(ops: seq<Operation>) {
    forall k {:trigger VerdictGrounded(ops, k)} :: 0 <= k < |ops| ==> VerdictGrounded(ops, k)
  }

  /** A retained text is the one that was introduced, and never a secret. */
  ghost predicate TextGrounded(hash: string -> string, ops: seq<Operation>, id: string, text: string) {
    exists facts: Facts :: IntroducedWith(ops, |ops|, id, facts) && hash(text) == facts.contentHash
                           && facts.sensitivity != Secret
  }

  ghost predicate TextsGrounded(hash: string -> string, ops: seq<Operation>, contents: map<string, string>) {
    forall id :: id in contents ==> TextGrounded(hash, ops, id, contents[id])
  }

  ghost predicate RowsIntact(hash: string -> string, ops: seq<Operation>, p: Projection, contents: map<string, string>) {
    Numbered(p.revisions) && RowsIntroduced(ops, p.revisions) && VerdictsGrounded(ops) && TextsGrounded(hash, ops, contents)
  }

  lemma IntroducedStays(ops: seq<Operation>, o: Operation, n: nat, id: string, facts: Facts)
    requires n <= |ops| && IntroducedWith(ops, n, id, facts)
    ensures IntroducedWith(ops + [o], n, id, facts) && IntroducedWith(ops + [o], |ops| + 1, id, facts)
  {
    var j :| 0 <= j < n && Introduced(ops[j].change).Some?
             && Introduced(ops[j].change).value.id == id && Introduced(ops[j].change).value.facts == facts;
    assert (ops + [o])[j] == ops[j];
  }

  lemma IntroducedNow(ops: seq<Operation>, o: Operation)
    requires Introduced(o.change).Some?
    ensures IntroducedWith(ops + [o], |ops| + 1, Introduced(o.change).value.id, Introduced(o.change).value.facts)
  {
    assert (ops + [o])[|ops|] == o;
  }

  /** One operation changes statuses and adds at most the row that it introduces. */
  ghost predicate SameRows(before: seq<Revision>, after: seq<Revision>, change: Change) {
    && |before| <= |after|
    && (forall i :: 0 <= i < |before| ==> after[i] == before[i].(status := after[i].status))
    && (|after| == |before|
        || (&& |after| == |before| + 1 && Introduced(change).Some?
            && after[|before|] == Introduced(change).value.(status := after[|before|].status)))
  }

  lemma InsertAddsRow(p: Projection, revision: Revision)
    requires Numbered(p.revisions) && Insert(p, revision).Some?
    ensures var q := Insert(p, revision).value;
            && Numbered(q.revisions) && |q.revisions| == |p.revisions| + 1 && q.revisions[|p.revisions|] == revision
            && forall i :: 0 <= i < |p.revisions| ==> q.revisions[i] == p.revisions[i].(status := q.revisions[i].status)
  {
  }

  /** Only statuses differ. */
  ghost predicate SameButStatus(before: seq<Revision>, after: seq<Revision>) {
    |after| == |before| && forall i :: 0 <= i < |before| ==> after[i] == before[i].(status := after[i].status)
  }

  lemma StatusesMove(p: Projection, change: Change)
    requires Introduced(change).None? && Project(p, change).Some?
    ensures SameButStatus(p.revisions, Project(p, change).value.revisions)
  {
  }

  lemma IntroductionAddsRow(p: Projection, change: Change)
    requires Numbered(p.revisions) && Introduced(change).Some? && Project(p, change).Some?
    ensures Insert(p, Introduced(change).value).Some?
    ensures SameButStatus(Insert(p, Introduced(change).value).value.revisions, Project(p, change).value.revisions)
  {
  }

  lemma ProjectKeepsRows(p: Projection, change: Change)
    requires Numbered(p.revisions) && Project(p, change).Some?
    ensures Numbered(Project(p, change).value.revisions)
    ensures SameRows(p.revisions, Project(p, change).value.revisions, change)
  {
    var after := Project(p, change).value.revisions;
    if Introduced(change).Some? {
      InsertAddsRow(p, Introduced(change).value);
      IntroductionAddsRow(p, change);
      RowsMove(Insert(p, Introduced(change).value).value.revisions, after);
    } else {
      StatusesMove(p, change);
      RowsMove(p.revisions, after);
    }
  }

  lemma RowsMove(before: seq<Revision>, after: seq<Revision>)
    requires Numbered(before) && SameButStatus(before, after)
    ensures Numbered(after)
  {
  }

  lemma VerdictNow(ops: seq<Operation>, o: Operation, p: Projection)
    requires RowsIntroduced(ops, p.revisions) && Project(p, o.change).Some?
    ensures VerdictGrounded(ops + [o], |ops|)
  {
    if o.change.RevisionValidated? {
      var at := Find(p.revisions, o.change.revisionId).value;
      assert IntroducedWith(ops, |ops|, p.revisions[at].id, p.revisions[at].facts);
      IntroducedStays(ops, o, |ops|, p.revisions[at].id, p.revisions[at].facts);
    }
  }

  lemma VerdictsGrow(ops: seq<Operation>, o: Operation, p: Projection)
    requires RowsIntroduced(ops, p.revisions) && VerdictsGrounded(ops) && Project(p, o.change).Some?
    ensures VerdictsGrounded(ops + [o])
  {
    VerdictNow(ops, o, p);
    forall k | 0 <= k < |ops| ensures VerdictGrounded(ops + [o], k) {
      assert VerdictGrounded(ops, k);
      assert (ops + [o])[k] == ops[k];
      if ops[k].change.RevisionValidated? {
        var facts: Facts :| IntroducedWith(ops, k, ops[k].change.revisionId, facts)
                            && facts.contentHash == ops[k].change.validation.contentHash;
        IntroducedStays(ops, o, k, ops[k].change.revisionId, facts);
      }
    }
  }

  lemma RowsGrow(ops: seq<Operation>, o: Operation, before: seq<Revision>, after: seq<Revision>)
    requires RowsIntroduced(ops, before) && SameRows(before, after, o.change)
    ensures RowsIntroduced(ops + [o], after)
  {
    forall i | 0 <= i < |after| ensures IntroducedWith(ops + [o], |ops| + 1, after[i].id, after[i].facts) {
      if i < |before| {
        IntroducedStays(ops, o, |ops|, before[i].id, before[i].facts);
      } else {
        IntroducedNow(ops, o);
      }
    }
  }

  lemma TextsGrow(hash: string -> string, ops: seq<Operation>, e: Entry, contents: map<string, string>)
    requires TextsGrounded(hash, ops, contents) && SidecarFits(hash, e.operation.change, e.content)
    ensures TextsGrounded(hash, ops + [e.operation], Keep(contents, e.operation.change, e.content))
  {
    var o, kept := e.operation, Keep(contents, e.operation.change, e.content);
    forall id | id in kept ensures TextGrounded(hash, ops + [o], id, kept[id]) {
      if e.content.Some? && id == e.content.value.revisionId {
        IntroducedNow(ops, o);
      } else {
        assert TextGrounded(hash, ops, id, contents[id]);
        var facts: Facts :| IntroducedWith(ops, |ops|, id, facts) && hash(contents[id]) == facts.contentHash
                            && facts.sensitivity != Secret;
        IntroducedStays(ops, o, |ops|, id, facts);
      }
    }
  }

  lemma EntryKeeps(hash: string -> string, ops: seq<Operation>, p: Projection, contents: map<string, string>, e: Entry)
    requires RowsIntact(hash, ops, p, contents) && SidecarFits(hash, e.operation.change, e.content)
    requires Project(p, e.operation.change).Some?
    ensures RowsIntact(hash, ops + [e.operation], Project(p, e.operation.change).value,
                       Keep(contents, e.operation.change, e.content))
  {
    ProjectKeepsRows(p, e.operation.change);
    VerdictsGrow(ops, e.operation, p);
    RowsGrow(ops, e.operation, p.revisions, Project(p, e.operation.change).value.revisions);
    TextsGrow(hash, ops, e, contents);
  }

  lemma {:induction false} EntriesKeep(hash: string -> string, ops: seq<Operation>, p: Projection,
                                       contents: map<string, string>, entries: seq<Entry>)
    requires RowsIntact(hash, ops, p, contents)
    requires forall i :: 0 <= i < |entries| ==> SidecarFits(hash, entries[i].operation.change, entries[i].content)
    requires ProjectAll(p, Changes(OperationsOf(entries))).Some?
    ensures RowsIntact(hash, ops + OperationsOf(entries), ProjectAll(p, Changes(OperationsOf(entries))).value,
                       KeepAll(contents, entries))
    decreases |entries|
  {
    if entries == [] {
      assert ops + OperationsOf(entries) == ops;
    } else {
      var e := entries[0];
      assert Changes(OperationsOf(entries))[1..] == Changes(OperationsOf(entries[1..]));
      assert ops + OperationsOf(entries) == (ops + [e.operation]) + OperationsOf(entries[1..]);
      EntryKeeps(hash, ops, p, contents, e);
      EntriesKeep(hash, ops + [e.operation], Project(p, e.operation.change).value,
                  Keep(contents, e.operation.change, e.content), entries[1..]);
    }
  }

  // ---------------------------------------------------------------- any batches

  ghost predicate Intact(hash: string -> string, memoryId: string, item: Item) {
    && LogIntact(memoryId, item.operations)
    && RowsIntact(hash, item.operations, item.projection, item.contents)
    && ProjectAll(BLANK, Changes(item.operations)) == Some(item.projection)
  }

  lemma BatchKeepsLog(hash: string -> string, memoryId: string, item: Item, offer: Offer)
    requires LogIntact(memoryId, item.operations) && offer.entries != []
    requires offer.entries[0].operation.memoryId == memoryId
    requires Append(hash, offer.elsewhere, item, offer.base, offer.entries).Committed?
    ensures LogIntact(memoryId, item.operations + OperationsOf(offer.entries))
  {
    BatchIsLogged(hash, memoryId, item.operations, offer.entries);
    BatchIsCaused(hash, item, offer.base, offer.entries);
    BatchIsCreatedFirst(hash, item.operations, offer.base, offer.entries);
    BatchIsIdentified(item.operations, offer.entries);
    BatchUsesCommandOnce(hash, offer.elsewhere, item, offer.base, offer.entries);
  }

  lemma TakeKeeps(hash: string -> string, memoryId: string, item: Item, offer: Offer)
    requires Intact(hash, memoryId, item)
    ensures Intact(hash, memoryId, Take(hash, memoryId, item, offer))
    ensures item.operations <= Take(hash, memoryId, item, offer).operations
  {
    var t := Take(hash, memoryId, item, offer);
    if t != item {
      var entries := offer.entries;
      BatchKeepsLog(hash, memoryId, item, offer);
      forall i | 0 <= i < |entries| ensures SidecarFits(hash, entries[i].operation.change, entries[i].content) {
        assert EntryFits(hash, offer.base, entries, i);
      }
      EntriesKeep(hash, item.operations, item.projection, item.contents, entries);
      ProjectAllAppend(BLANK, Changes(item.operations), Changes(OperationsOf(entries)));
      assert Changes(item.operations + OperationsOf(entries)) == Changes(item.operations) + Changes(OperationsOf(entries));
    }
  }

  lemma NoItemIsIntact(hash: string -> string, memoryId: string)
    ensures Intact(hash, memoryId, NO_ITEM)
  {
    assert Changes([]) == [];
  }

  lemma {:induction false} TakeAllKeeps(hash: string -> string, memoryId: string, item: Item, offers: seq<Offer>)
    requires Intact(hash, memoryId, item)
    ensures Intact(hash, memoryId, TakeAll(hash, memoryId, item, offers))
    ensures item.operations <= TakeAll(hash, memoryId, item, offers).operations
    decreases |offers|
  {
    if offers != [] {
      TakeKeeps(hash, memoryId, item, offers[0]);
      TakeAllKeeps(hash, memoryId, Take(hash, memoryId, item, offers[0]), offers[1..]);
    }
  }

  /**
   Whatever batches are offered, in whatever order: the log of an item counts from one, opens with its only creation, has
   no identity and no command twice and every cause before its effect; its rows count from one and come from the log; a
   verdict is about the text its revision was introduced with; a retained text is that text and never a secret.
   */
  lemma StoreStaysIntact(hash: string -> string, memoryId: string, offers: seq<Offer>)
    ensures Intact(hash, memoryId, TakeAll(hash, memoryId, NO_ITEM, offers))
  {
    NoItemIsIntact(hash, memoryId);
    TakeAllKeeps(hash, memoryId, NO_ITEM, offers);
  }

  /** A batch that was committed once is recognised however much has been committed since, and changes nothing again. */
  lemma RepeatedBatchIsRecognised(hash: string -> string, memoryId: string, item: Item, offer: Offer, offers: seq<Offer>,
                                  elsewhere: Elsewhere)
    requires Intact(hash, memoryId, item) && Take(hash, memoryId, item, offer) != item
    ensures var later := TakeAll(hash, memoryId, Take(hash, memoryId, item, offer), offers);
            && Append(hash, elsewhere, later, offer.base, offer.entries) == AlreadyCommitted
            && Take(hash, memoryId, later, offer.(elsewhere := elsewhere)) == later
  {
    var taken := Take(hash, memoryId, item, offer);
    TakeKeeps(hash, memoryId, item, offer);
    TakeAllKeeps(hash, memoryId, taken, offers);
    var later := TakeAll(hash, memoryId, taken, offers);
    forall i | 0 <= i < |offer.entries| ensures offer.entries[i].operation in later.operations {
      var k := |item.operations| + i;
      assert taken.operations[k] == offer.entries[i].operation;
      assert later.operations[k] == taken.operations[k];
    }
  }
}
