/** Which keys a call leaves in the keyring: the new secret's, and of the old one only what could not be deleted. */
module VaultKeys {
  import opened Text
  import opened Vault
  import opened VaultRuns

  // ---------------------------------------------------------------- erasing

  /** The call that opens the n-th chunk of an erasure: each chunk takes two calls, or one if it cannot be opened. */
  function OpenCall(faults: Faults, clock: nat, n: nat): (call: nat)
    decreases n
  {
    if n == 0 then clock
    else OpenCall(faults, if faults(clock) == NoFault then clock + 2 else clock + 1, n - 1)
  }

  /** Opening the n-th chunk of an erasure that starts here failed, or deleting it did. */
  predicate Missed(faults: Faults, clock: nat, n: nat) {
    var call := OpenCall(faults, clock, n);
    faults(call) != NoFault || faults(call + 1) != NoFault
  }

  /** No chunk of an erasure is missed. */
  ghost predicate MissesNone(faults: Faults, clock: nat, count: nat) {
    forall n: nat :: n < count ==> !Missed(faults, clock, n)
  }

  lemma QuietMisses(faults: Faults, clock: nat, n: nat)
    requires Quiet(faults)
    ensures MissesNone(faults, clock, n)
  {
  }

  /** The key is none of these chunks. */
  ghost predicate NoChunk(key: string, reference: string, generation: char, from: nat, to: nat) {
    forall i: nat :: from <= i < to ==> key != ChunkReference(reference, generation, i)
  }

  ghost predicate SameEntry(after: Entries, before: Entries, key: string) {
    (key in after <==> key in before) && (key in after ==> after[key] == before[key])
  }

  /** A chunk is left exactly when one of its own calls failed; nothing else changes. */
  ghost predicate Leaves(entries: Entries, after: Entries, faults: Faults, clock: nat, reference: string, generation: char,
                         index: nat, count: nat) {
    && (forall i :: index <= i < count ==>
          var key := ChunkReference(reference, generation, i);
          if Missed(faults, clock, i - index) then SameEntry(after, entries, key) else key !in after)
    && (forall key :: NoChunk(key, reference, generation, index, count) ==> SameEntry(after, entries, key))
  }

  lemma {:induction false} ErasingLeaves(entries: Entries, faults: Faults, clock: nat, reference: string, generation: char,
                                         index: nat, count: nat)
    ensures Leaves(entries, Erasing(entries, faults, clock, reference, generation, index, count).entries, faults, clock,
                   reference, generation, index, count)
    decreases count - index
  {
    if index < count {
      var one := ErasingOne(entries, faults, clock, reference, generation, index);
      ErasingLeaves(one.entries, faults, one.clock, reference, generation, index + 1, count);
      var rest := Erasing(one.entries, faults, one.clock, reference, generation, index + 1, count);
      ErasingOneLeaves(entries, faults, clock, reference, generation, index);
      LeavesMore(entries, one.entries, rest.entries, faults, clock, one.clock, reference, generation, index, count);
    }
  }

  lemma ErasingOneLeaves(entries: Entries, faults: Faults, clock: nat, reference: string, generation: char, index: nat)
    ensures var one, first := ErasingOne(entries, faults, clock, reference, generation, index),
                              ChunkReference(reference, generation, index);
            && one.clock == OpenCall(faults, clock, 1)
            && (if Missed(faults, clock, 0) then SameEntry(one.entries, entries, first) else first !in one.entries)
            && forall key :: key != first ==> SameEntry(one.entries, entries, key)
  {
    assert OpenCall(faults, clock, 1) == OpenCall(faults, if faults(clock) == NoFault then clock + 2 else clock + 1, 0);
  }

  lemma LeavesMore(entries: Entries, one: Entries, after: Entries, faults: Faults, clock: nat, next: nat, reference: string,
                   generation: char, index: nat, count: nat)
    requires index < count && next == OpenCall(faults, clock, 1)
    requires var first := ChunkReference(reference, generation, index);
             && (if Missed(faults, clock, 0) then SameEntry(one, entries, first) else first !in one)
             && forall key :: key != first ==> SameEntry(one, entries, key)
    requires Leaves(one, after, faults, next, reference, generation, index + 1, count)
    ensures Leaves(entries, after, faults, clock, reference, generation, index, count)
  {
    FirstIsNoLater(reference, generation, index, count);
    assert SameEntry(after, one, ChunkReference(reference, generation, index));
    forall i | index < i < count
      ensures var key := ChunkReference(reference, generation, i);
              if Missed(faults, clock, i - index) then SameEntry(after, entries, key) else key !in after
    {
      LaterCall(faults, clock, i - index);
      if ChunkReference(reference, generation, i) == ChunkReference(reference, generation, index) {
        ChunkReferenceInjective(reference, generation, i, reference, generation, index);
      }
      assert SameEntry(one, entries, ChunkReference(reference, generation, i));
    }
    forall key | NoChunk(key, reference, generation, index, count) ensures SameEntry(after, entries, key) {
      NoChunkRest(key, reference, generation, index, count);
      assert SameEntry(one, entries, key);
    }
  }

  lemma LaterCall(faults: Faults, clock: nat, n: nat)
    requires n > 0
    ensures OpenCall(faults, clock, n) == OpenCall(faults, OpenCall(faults, clock, 1), n - 1)
    ensures Missed(faults, clock, n) <==> Missed(faults, OpenCall(faults, clock, 1), n - 1)
  {
    var next := if faults(clock) == NoFault then clock + 2 else clock + 1;
    assert OpenCall(faults, clock, 1) == OpenCall(faults, next, 0) == next;
  }

  lemma NoChunkRest(key: string, reference: string, generation: char, from: nat, to: nat)
    requires from < to && NoChunk(key, reference, generation, from, to)
    ensures key != ChunkReference(reference, generation, from) && NoChunk(key, reference, generation, from + 1, to)
  {
  }

  lemma FirstIsNoLater(reference: string, generation: char, index: nat, count: nat)
    ensures NoChunk(ChunkReference(reference, generation, index), reference, generation, index + 1, count)
  {
    forall i: nat | index < i < count
      ensures ChunkReference(reference, generation, index) != ChunkReference(reference, generation, i)
    {
      if ChunkReference(reference, generation, index) == ChunkReference(reference, generation, i) {
        ChunkReferenceInjective(reference, generation, index, reference, generation, i);
      }
    }
  }

  // ---------------------------------------------------------------- writing

  /** Chunks that are written change no other entry, and success leaves every call without a fault. */
  lemma {:induction false} WritingChunksElsewhere(entries: Entries, faults: Faults, clock: nat, reference: string,
                                                  secret: string, generation: char, index: nat)
    requires index <= ChunkCount(secret)
    ensures var t := WritingChunks(entries, faults, clock, reference, secret, generation, index);
            t.result.Ok? ==>
              && t.clock == clock + 2 * (ChunkCount(secret) - index)
              && forall key :: NoChunk(key, reference, generation, index, ChunkCount(secret)) ==>
                   SameEntry(t.entries, entries, key)
    decreases ChunkCount(secret) - index
  {
    if index < ChunkCount(secret) {
      var one := WritingOne(entries, faults, clock, reference, secret, generation, index);
      if one.result.Ok? {
        WritingChunksElsewhere(one.entries, faults, one.clock, reference, secret, generation, index + 1);
        var t := WritingChunks(entries, faults, clock, reference, secret, generation, index);
        if t.result.Ok? {
          forall key | NoChunk(key, reference, generation, index, ChunkCount(secret))
            ensures SameEntry(t.entries, entries, key)
          {
            NoChunkRest(key, reference, generation, index, ChunkCount(secret));
          }
        }
      }
    }
  }

  /** A secret that has been written: its chunks and manifest are there, and no other entry has changed. */
  ghost predicate WrittenOver(before: Entries, after: Entries, reference: string, generation: char, secret: string) {
    && StoredUnder(after, reference, generation, secret)
    && forall key :: key != reference && NoChunk(key, reference, generation, 0, ChunkCount(secret)) ==>
         SameEntry(after, before, key)
  }

  lemma WritingWrites(entries: Entries, faults: Faults, clock: nat, reference: string, secret: string, generation: char)
    requires ValidSecret(secret) && IsGeneration(generation)
    requires WritingChunked(entries, faults, clock, reference, secret, generation).result.Ok?
    ensures var t := WritingChunked(entries, faults, clock, reference, secret, generation);
            t.clock == clock + 2 * ChunkCount(secret) + 2 && WrittenOver(entries, t.entries, reference, generation, secret)
  {
    WritingChunkedPublishes(entries, faults, clock, reference, secret, generation);
    WritingChunksElsewhere(entries, faults, clock, reference, secret, generation, 0);
    WritingChunksConfined(entries, faults, clock, reference, secret, generation, 0);
  }

  // ---------------------------------------------------------------- storing

  /** Every entry after a success: the new secret, the old chunks that could not be deleted, and what was there besides. */
  ghost predicate Stored(before: Entries, after: Entries, faults: Faults, cleanup: nat, reference: string, secret: string,
                         existing: Option<(char, nat)>)
    requires existing.Some? ==> existing.value.1 <= MAX_CHUNKS
  {
    var generation := NextGeneration(existing);
    && StoredUnder(after, reference, generation, secret)
    && (existing.Some? ==> forall i :: 0 <= i < existing.value.1 ==>
          var key := ChunkReference(reference, existing.value.0, i);
          if Missed(faults, cleanup, i) then SameEntry(after, before, key) else key !in after)
    && (forall key :: && key != reference && NoChunk(key, reference, generation, 0, ChunkCount(secret))
                      && (existing.Some? ==> NoChunk(key, reference, existing.value.0, 0, existing.value.1)) ==>
          SameEntry(after, before, key))
  }

  lemma OtherGeneration(reference: string, generation: char, previous: char, index: nat, count: nat)
    requires generation != previous
    ensures NoChunk(ChunkReference(reference, previous, index), reference, generation, 0, count)
    ensures ChunkReference(reference, previous, index) != reference
  {
    forall i: nat | i < count ensures ChunkReference(reference, previous, index) != ChunkReference(reference, generation, i) {
      if ChunkReference(reference, previous, index) == ChunkReference(reference, generation, i) {
        ChunkReferenceInjective(reference, previous, index, reference, generation, i);
      }
    }
    assert |ChunkReference(reference, previous, index)| > |reference|;
  }

  lemma CleaningStores(before: Entries, written: Entries, faults: Faults, clock: nat, reference: string, secret: string,
                       existing: Option<(char, nat)>)
    requires existing.Some? && existing.value.1 <= MAX_CHUNKS
    requires WrittenOver(before, written, reference, NextGeneration(existing), secret)
    ensures var after := Erasing(written, faults, clock, reference, existing.value.0, 0, existing.value.1).entries;
            Stored(before, after, faults, clock, reference, secret, existing)
  {
    var generation := NextGeneration(existing);
    var (previous, count) := existing.value;
    var after := Erasing(written, faults, clock, reference, previous, 0, count).entries;
    ErasingLeaves(written, faults, clock, reference, previous, 0, count);
    forall i | 0 <= i < count
      ensures SameEntry(written, before, ChunkReference(reference, previous, i))
    {
      OtherGeneration(reference, generation, previous, i, ChunkCount(secret));
    }
    forall i | 0 <= i < ChunkCount(secret)
      ensures SameEntry(after, written, ChunkReference(reference, generation, i))
    {
      OtherGeneration(reference, previous, generation, i, count);
    }
    forall i: nat | i < count ensures reference != ChunkReference(reference, previous, i) {
      OtherGeneration(reference, generation, previous, i, 0);
    }
    assert NoChunk(reference, reference, previous, 0, count);
    assert SameEntry(after, written, reference);
    assert forall key :: SameEntry(after, written, key) && SameEntry(written, before, key) ==> SameEntry(after, before, key);
  }

  /** The common tail of `save` and `replace` leaves exactly these entries. */
  lemma StoringStores(entries: Entries, faults: Faults, clock: nat, reference: string, secret: string,
                      existing: Option<(char, nat)>)
    requires ValidSecret(secret) && (existing.Some? ==> existing.value.1 <= MAX_CHUNKS)
    requires Storing(entries, faults, clock, reference, secret, existing).result.Ok?
    ensures Stored(entries, Storing(entries, faults, clock, reference, secret, existing).entries, faults,
                   clock + 2 * ChunkCount(secret) + 2, reference, secret, existing)
  {
    var generation := NextGeneration(existing);
    WritingWrites(entries, faults, clock, reference, secret, generation);
    var written := WritingChunked(entries, faults, clock, reference, secret, generation);
    if existing.Some? {
      CleaningStores(entries, written.entries, faults, written.clock, reference, secret, existing);
    }
  }

  /** Where the cleanup after a written manifest begins: two calls before the chunks, two for each and two after. */
  function CleanupClock(clock: nat, secret: string): (n: nat) {
    clock + 2 * ChunkCount(secret) + 4
  }

  lemma SuccessStores(entries: Entries, faults: Faults, clock: nat, reference: string, secret: string)
    ensures Replacing(entries, faults, clock, reference, secret).result.Ok? ==>
              && ValidSecret(secret)
              && Replacing(entries, faults, clock, reference, secret)
                 == Storing(entries, faults, clock + 2, reference, secret, Existing(entries, reference))
  {
  }

  lemma SavedStores(entries: Entries, faults: Faults, clock: nat, value: string, secret: string)
    requires Saving(entries, faults, clock, value, secret).result.Ok?
    ensures NewReference(value).Ok? && ValidSecret(secret)
    ensures var reference := NewReference(value).value;
            var existing := ReadLeniently(entries, faults, clock + 1, reference);
            var stored := Storing(entries, faults, clock + 2, reference, secret, existing);
            stored.result.Ok? && Saving(entries, faults, clock, value, secret).entries == stored.entries
  {
  }

  /** A replacement that succeeds leaves exactly these entries. */
  lemma ReplaceLeaves(entries: Entries, faults: Faults, clock: nat, reference: string, secret: string)
    requires Replacing(entries, faults, clock, reference, secret).result.Ok?
    ensures Stored(entries, Replacing(entries, faults, clock, reference, secret).entries, faults,
                   CleanupClock(clock, secret), reference, secret, Existing(entries, reference))
  {
    SuccessStores(entries, faults, clock, reference, secret);
    StoringStores(entries, faults, clock + 2, reference, secret, Existing(entries, reference));
  }

  /** A manifest that a save could not read is as good as none. */
  ghost predicate SavedAs(before: Entries, after: Entries, faults: Faults, clock: nat, value: string, secret: string) {
    && NewReference(value).Ok?
    && var reference := NewReference(value).value;
       Stored(before, after, faults, CleanupClock(clock, secret), reference, secret,
              if faults(clock + 1) == NoFault then Existing(before, reference) else None)
  }

  /** So does a save. */
  lemma SaveLeaves(entries: Entries, faults: Faults, clock: nat, value: string, secret: string)
    requires Saving(entries, faults, clock, value, secret).result.Ok?
    ensures SavedAs(entries, Saving(entries, faults, clock, value, secret).entries, faults, clock, value, secret)
  {
    SavedStores(entries, faults, clock, value, secret);
    var reference := NewReference(value).value;
    StoringStores(entries, faults, clock + 2, reference, secret, ReadLeniently(entries, faults, clock + 1, reference));
  }

  /** An old chunk outlives a successful replacement if and only if its own open or delete call failed. */
  lemma OldChunkLeftIff(entries: Entries, faults: Faults, clock: nat, reference: string, secret: string, i: nat)
    requires Replacing(entries, faults, clock, reference, secret).result.Ok?
    requires Existing(entries, reference).Some? && i < Existing(entries, reference).value.1
    requires ChunkReference(reference, Existing(entries, reference).value.0, i) in entries
    ensures var after := Replacing(entries, faults, clock, reference, secret).entries;
            var key := ChunkReference(reference, Existing(entries, reference).value.0, i);
            && (key in after <==> Missed(faults, CleanupClock(clock, secret), i))
            && (key in after ==> after[key] == entries[key])
  {
    ReplaceLeaves(entries, faults, clock, reference, secret);
  }

  // ---------------------------------------------------------------- deleting

  /** Every entry after a deletion: the manifest is gone, and so are its chunks but for those that were missed. */
  ghost predicate Deleted(before: Entries, after: Entries, faults: Faults, cleanup: nat, reference: string,
                          existing: Option<(char, nat)>)
  {
    && reference !in after
    && (existing.Some? ==> forall i :: 0 <= i < existing.value.1 ==>
          var key := ChunkReference(reference, existing.value.0, i);
          if Missed(faults, cleanup, i) then SameEntry(after, before, key) else key !in after)
    && (forall key :: && key != reference
                      && (existing.Some? ==> NoChunk(key, reference, existing.value.0, 0, existing.value.1)) ==>
          SameEntry(after, before, key))
  }

  /** A deletion that succeeds leaves exactly these entries. */
  lemma DeleteLeaves(entries: Entries, faults: Faults, clock: nat, reference: string)
    requires Deleting(entries, faults, clock, reference).result.Ok?
    ensures Deleted(entries, Deleting(entries, faults, clock, reference).entries, faults, clock + 3, reference,
                    if faults(clock + 1) == NoFault then Existing(entries, reference) else None)
  {
    var existing := ReadLeniently(entries, faults, clock + 1, reference);
    var removed := Removing(entries, faults, clock + 2, reference);
    assert removed.clock == clock + 3 && forall key :: key != reference ==> SameEntry(removed.entries, entries, key);
    if existing.Some? {
      var (previous, count) := existing.value;
      var after := Erasing(removed.entries, faults, clock + 3, reference, previous, 0, count).entries;
      ErasingLeaves(removed.entries, faults, clock + 3, reference, previous, 0, count);
      forall i: nat | i < count ensures reference != ChunkReference(reference, previous, i) {
        assert |ChunkReference(reference, previous, i)| > |reference|;
      }
      assert NoChunk(reference, reference, previous, 0, count);
      assert SameEntry(after, removed.entries, reference);
    }
  }

  // ---------------------------------------------------------------- nothing is left over

  /** The keys of this reference that have an entry. */
  function KeysLeft(entries: Entries, reference: string): (keys: set<string>) {
    set key | key in Keys(reference) && key in entries
  }

  /** The keys of a stored secret: its manifest and its chunks. */
  function KeysOf(reference: string, generation: char, count: nat): (keys: set<string>) {
    {reference} + set i | 0 <= i < count :: ChunkReference(reference, generation, i)
  }

  /** The reference has its manifest and the chunks that it names, and no others. */
  ghost predicate Tidy(entries: Entries, reference: string) {
    match Existing(entries, reference)
    case None => KeysLeft(entries, reference) <= {reference}
    case Some((generation, count)) => KeysLeft(entries, reference) <= KeysOf(reference, generation, count)
  }

  lemma TidyKey(entries: Entries, reference: string, key: string)
    requires Tidy(entries, reference) && key in Keys(reference) && key in entries
    ensures key == reference || (&& Existing(entries, reference).Some?
                                 && !NoChunk(key, reference, Existing(entries, reference).value.0, 0,
                                             Existing(entries, reference).value.1))
  {
    assert key in KeysLeft(entries, reference);
  }

  lemma LeftIsNew(before: Entries, after: Entries, faults: Faults, cleanup: nat, reference: string, secret: string,
                  key: string)
    requires Tidy(before, reference) && key in Keys(reference) && key in after
    requires Stored(before, after, faults, cleanup, reference, secret, Existing(before, reference))
    requires Existing(before, reference).Some? ==>
               MissesNone(faults, cleanup, Existing(before, reference).value.1)
    ensures key == reference || !NoChunk(key, reference, NextGeneration(Existing(before, reference)), 0, ChunkCount(secret))
  {
    var existing := Existing(before, reference);
    if existing.None? || NoChunk(key, reference, existing.value.0, 0, existing.value.1) {
      if key != reference && NoChunk(key, reference, NextGeneration(existing), 0, ChunkCount(secret)) {
        assert SameEntry(after, before, key);
        TidyKey(before, reference, key);
      }
    }
  }

  lemma StoredIsTidy(before: Entries, after: Entries, faults: Faults, cleanup: nat, reference: string, secret: string)
    requires ValidSecret(secret) && Tidy(before, reference)
    requires Stored(before, after, faults, cleanup, reference, secret, Existing(before, reference))
    requires Existing(before, reference).Some? ==>
               MissesNone(faults, cleanup, Existing(before, reference).value.1)
    ensures KeysLeft(after, reference) == KeysOf(reference, NextGeneration(Existing(before, reference)), ChunkCount(secret))
    ensures Tidy(after, reference)
  {
    var existing := Existing(before, reference);
    var generation := NextGeneration(existing);
    forall key | key in KeysLeft(after, reference)
      ensures key in KeysOf(reference, generation, ChunkCount(secret))
    {
      LeftIsNew(before, after, faults, cleanup, reference, secret, key);
    }
    forall i | 0 <= i < ChunkCount(secret) ensures ChunkReference(reference, generation, i) in Keys(reference) {
      assert ChunkReference(reference, generation, i) in ChunkKeys(reference, generation);
    }
    StoredUnderHolds(after, reference, generation, secret);
  }

  /**
   Over a tidy reference, when every old chunk can be opened and deleted, the keys left by a successful replacement
   are exactly the reference and the new chunks.
   */
  lemma ReplaceIsTidy(entries: Entries, faults: Faults, clock: nat, reference: string, secret: string)
    requires Tidy(entries, reference) && Replacing(entries, faults, clock, reference, secret).result.Ok?
    requires Existing(entries, reference).Some? ==>
               MissesNone(faults, CleanupClock(clock, secret), Existing(entries, reference).value.1)
    ensures var after := Replacing(entries, faults, clock, reference, secret).entries;
            && KeysLeft(after, reference)
               == KeysOf(reference, NextGeneration(Existing(entries, reference)), ChunkCount(secret))
            && Tidy(after, reference)
  {
    SuccessStores(entries, faults, clock, reference, secret);
    ReplaceLeaves(entries, faults, clock, reference, secret);
    StoredIsTidy(entries, Replacing(entries, faults, clock, reference, secret).entries, faults,
                 CleanupClock(clock, secret), reference, secret);
  }

  /** The same of a save whose first read succeeds. */
  lemma SaveIsTidy(entries: Entries, faults: Faults, clock: nat, value: string, reference: string, secret: string)
    requires Saving(entries, faults, clock, value, secret).result.Ok? && NewReference(value) == Ok(reference)
    requires Tidy(entries, reference) && faults(clock + 1) == NoFault
    requires Existing(entries, reference).Some? ==>
               MissesNone(faults, CleanupClock(clock, secret), Existing(entries, reference).value.1)
    ensures var after := Saving(entries, faults, clock, value, secret).entries;
            && KeysLeft(after, reference)
               == KeysOf(reference, NextGeneration(Existing(entries, reference)), ChunkCount(secret))
            && Tidy(after, reference)
  {
    SavedStores(entries, faults, clock, value, secret);
    SaveLeaves(entries, faults, clock, value, secret);
    StoredIsTidy(entries, Saving(entries, faults, clock, value, secret).entries, faults, CleanupClock(clock, secret),
                 reference, secret);
  }

  lemma ChunkIsLeft(entries: Entries, after: Entries, reference: string, generation: char, i: nat)
    requires IsGeneration(generation) && i < MAX_CHUNKS && SameEntry(after, entries, ChunkReference(reference, generation, i))
    requires ChunkReference(reference, generation, i) in entries
    ensures KeysLeft(after, reference) != {}
  {
    assert ChunkReference(reference, generation, i) in ChunkKeys(reference, generation);
    assert ChunkReference(reference, generation, i) in KeysLeft(after, reference);
  }

  lemma NoneIsLeft(entries: Entries, after: Entries, faults: Faults, cleanup: nat, reference: string)
    requires Tidy(entries, reference) && Deleted(entries, after, faults, cleanup, reference, Existing(entries, reference))
    requires Existing(entries, reference).Some? && MissesNone(faults, cleanup, Existing(entries, reference).value.1)
    ensures KeysLeft(after, reference) == {}
  {
    var (generation, count) := Existing(entries, reference).value;
    forall key | key in Keys(reference) ensures key !in after {
      if !NoChunk(key, reference, generation, 0, count) {
        var i: nat :| i < count && key == ChunkReference(reference, generation, i);
      } else if key != reference {
        assert SameEntry(after, entries, key);
        if key in entries {
          TidyKey(entries, reference, key);
        }
      }
    }
  }

  /** A successful deletion of a tidy reference leaves no key of it if and only if it read the manifest and missed no chunk. */
  lemma DeleteLeavesNothingIff(entries: Entries, faults: Faults, clock: nat, reference: string)
    requires Tidy(entries, reference) && Deleting(entries, faults, clock, reference).result.Ok?
    requires Existing(entries, reference).Some? && LoadOf(entries, reference).Ok?
    ensures KeysLeft(Deleting(entries, faults, clock, reference).entries, reference) == {}
       <==> faults(clock + 1) == NoFault && MissesNone(faults, clock + 3, Existing(entries, reference).value.1)
  {
    var (generation, count) := Existing(entries, reference).value;
    var after := Deleting(entries, faults, clock, reference).entries;
    DeleteLeaves(entries, faults, clock, reference);
    if faults(clock + 1) != NoFault {
      ParsedHasChunks(entries, reference);
      AssembledIsThere(entries, reference, generation, count, 0);
      ReferenceIsNoChunk(reference, generation);
      assert ChunkReference(reference, generation, 0) in ChunkKeys(reference, generation);
      ChunkIsLeft(entries, after, reference, generation, 0);
    } else if !MissesNone(faults, clock + 3, count) {
      var i: nat :| i < count && Missed(faults, clock + 3, i);
      AssembledIsThere(entries, reference, generation, count, i);
      ChunkIsLeft(entries, after, reference, generation, i);
    } else {
      NoneIsLeft(entries, after, faults, clock + 3, reference);
    }
  }

  lemma {:induction false} AssembledIsThere(entries: Entries, reference: string, generation: char, count: nat, i: nat)
    requires i < count && Assemble(entries, reference, generation, count).Ok?
    ensures ChunkReference(reference, generation, i) in entries
    decreases count
  {
    if i < count - 1 {
      AssembledIsThere(entries, reference, generation, count - 1, i);
    }
  }

  lemma ParsedHasChunks(entries: Entries, reference: string)
    requires Existing(entries, reference).Some?
    ensures Existing(entries, reference).value.1 > 0
  {
  }

  // ---------------------------------------------------------------- what a failure leaves

  /** The i-th chunk stays after a write whose two calls begin here: its entry could not be opened, or the chunk was missed. */
  predicate Stays(faults: Faults, clock: nat, i: nat) {
    faults(clock) != NoFault || Missed(faults, clock + 2, i)
  }

  /**
   Writing stopped at the n-th item, a chunk or after all of them the manifest: an entry that cannot be opened leaves
   the chunks before it, and one that cannot be set those whose own cleanup failed.
   */
  ghost predicate Stopped(before: Entries, after: Entries, faults: Faults, clock: nat, reference: string,
                          generation: char, secret: string, n: nat)
    requires n <= ChunkCount(secret)
  {
    && (faults(clock) != NoFault || faults(clock + 1) != NoFault)
    && (forall i :: 0 <= i < n ==>
          var key := ChunkReference(reference, generation, i);
          if Stays(faults, clock, i) then key in after && after[key] == Chunk(secret, i)
          else key !in after)
    && (forall key :: NoChunk(key, reference, generation, 0, n) ==> SameEntry(after, before, key))
  }

  /** The chunks before `n` are in place and nothing else has changed. */
  ghost predicate WrittenUpTo(before: Entries, now: Entries, reference: string, generation: char, secret: string, n: nat)
    requires n <= ChunkCount(secret)
  {
    && ChunksStored(now, reference, generation, secret, n)
    && forall key :: NoChunk(key, reference, generation, 0, n) ==> SameEntry(now, before, key)
  }

  lemma AbandoningStops(before: Entries, failed: Trace<()>, faults: Faults, clock: nat, reference: string,
                        generation: char, secret: string, n: nat)
    requires n <= ChunkCount(secret) && WrittenUpTo(before, failed.entries, reference, generation, secret, n)
    requires failed.result.Err? && failed.clock == clock + 2 && faults(clock) == NoFault && faults(clock + 1) != NoFault
    ensures Stopped(before, Abandoning(failed, faults, reference, generation, n).entries, faults, clock, reference,
                    generation, secret, n)
  {
    ErasingLeaves(failed.entries, faults, clock + 2, reference, generation, 0, n);
    var after := Abandoning(failed, faults, reference, generation, n).entries;
    forall i | 0 <= i < n
      ensures var key := ChunkReference(reference, generation, i);
              if Stays(faults, clock, i) then key in after && after[key] == Chunk(secret, i) else key !in after
    {
      assert Missed(faults, clock + 2, i - 0) <==> Missed(faults, clock + 2, i);
    }
    forall key | NoChunk(key, reference, generation, 0, n) ensures SameEntry(after, before, key) {
      assert SameEntry(after, failed.entries, key) && SameEntry(failed.entries, before, key);
    }
  }

  lemma NextWritten(before: Entries, now: Entries, reference: string, generation: char, secret: string, n: nat)
    requires n < ChunkCount(secret) && WrittenUpTo(before, now, reference, generation, secret, n)
    ensures WrittenUpTo(before, now[ChunkReference(reference, generation, n) := Chunk(secret, n)], reference, generation,
                        secret, n + 1)
  {
    ChunksStoredNext(now, reference, generation, secret, n);
    var more := n + 1;
    forall key | NoChunk(key, reference, generation, 0, more)
      ensures SameEntry(now[ChunkReference(reference, generation, n) := Chunk(secret, n)], before, key)
    {
      assert NoChunk(key, reference, generation, 0, n) && key != ChunkReference(reference, generation, n);
      assert SameEntry(now, before, key);
    }
  }

  lemma {:induction false} WritingChunksStops(before: Entries, entries: Entries, faults: Faults, clock: nat,
                                              reference: string, secret: string, generation: char, index: nat)
      returns (n: nat)
    requires index <= ChunkCount(secret) && WrittenUpTo(before, entries, reference, generation, secret, index)
    ensures index <= n <= ChunkCount(secret)
    ensures forall call :: clock <= call < clock + 2 * (n - index) ==> faults(call) == NoFault
    ensures var t := WritingChunks(entries, faults, clock, reference, secret, generation, index);
            if t.result.Ok? then
              && n == ChunkCount(secret) == t.result.value && t.clock == clock + 2 * (n - index)
              && WrittenUpTo(before, t.entries, reference, generation, secret, n)
            else Stopped(before, t.entries, faults, clock + 2 * (n - index), reference, generation, secret, n)
    decreases ChunkCount(secret) - index
  {
    if index == ChunkCount(secret) {
      n := index;
    } else {
      var one := WritingOne(entries, faults, clock, reference, secret, generation, index);
      if one.result.Ok? {
        OneWrites(entries, faults, clock, reference, secret, generation, index);
        NextWritten(before, entries, reference, generation, secret, index);
        n := WritingChunksStops(before, one.entries, faults, one.clock, reference, secret, generation, index + 1);
      } else {
        n := index;
        OneStops(before, entries, faults, clock, reference, secret, generation, index);
      }
    }
  }

  lemma OneWrites(entries: Entries, faults: Faults, clock: nat, reference: string, secret: string, generation: char, n: nat)
    requires n < ChunkCount(secret) && WritingOne(entries, faults, clock, reference, secret, generation, n).result.Ok?
    ensures var one := WritingOne(entries, faults, clock, reference, secret, generation, n);
            && faults(clock) == faults(clock + 1) == NoFault && one.clock == clock + 2
            && one.entries == entries[ChunkReference(reference, generation, n) := Chunk(secret, n)]
  {
  }

  lemma OneStops(before: Entries, entries: Entries, faults: Faults, clock: nat, reference: string, secret: string,
                 generation: char, n: nat)
    requires n < ChunkCount(secret) && WrittenUpTo(before, entries, reference, generation, secret, n)
    requires WritingOne(entries, faults, clock, reference, secret, generation, n).result.Err?
    ensures Stopped(before, WritingOne(entries, faults, clock, reference, secret, generation, n).entries, faults, clock,
                    reference, generation, secret, n)
  {
    if faults(clock) == NoFault {
      var failed := Setting(entries, faults, clock + 1, ChunkReference(reference, generation, n), Chunk(secret, n));
      AbandoningStops(before, failed, faults, clock, reference, generation, secret, n);
    }
  }

  /** A write that fails stops at its first call that fails, and leaves exactly what `Stopped` says. */
  lemma WritingStops(entries: Entries, faults: Faults, clock: nat, reference: string, secret: string, generation: char)
      returns (n: nat)
    requires WritingChunked(entries, faults, clock, reference, secret, generation).result.Err?
    ensures n <= ChunkCount(secret) && forall call :: clock <= call < clock + 2 * n ==> faults(call) == NoFault
    ensures Stopped(entries, WritingChunked(entries, faults, clock, reference, secret, generation).entries, faults,
                    clock + 2 * n, reference, generation, secret, n)
  {
    n := WritingChunksStops(entries, entries, faults, clock, reference, secret, generation, 0);
    var chunks := WritingChunks(entries, faults, clock, reference, secret, generation, 0);
    if chunks.result.Ok? {
      ManifestStops(entries, chunks.entries, faults, chunks.clock, reference, secret, generation);
    }
  }

  lemma ManifestStops(before: Entries, entries: Entries, faults: Faults, clock: nat, reference: string, secret: string,
                      generation: char)
    requires WrittenUpTo(before, entries, reference, generation, secret, ChunkCount(secret))
    requires WritingManifest(entries, faults, clock, reference, generation, ChunkCount(secret)).result.Err?
    ensures Stopped(before, WritingManifest(entries, faults, clock, reference, generation, ChunkCount(secret)).entries, faults,
                    clock, reference, generation, secret, ChunkCount(secret))
  {
    if faults(clock) == NoFault {
      var failed := Setting(entries, faults, clock + 1, reference, Manifest(generation, ChunkCount(secret)));
      AbandoningStops(before, failed, faults, clock, reference, generation, secret, ChunkCount(secret));
    }
  }

  /**
   A replacement that fails after its reads leaves a tidy reference tidy if and only if no chunk was written before the
   failure, or the failing call was a write and the cleanup after it missed none of them. A chunk or a manifest that
   cannot even be opened leaves every chunk before it behind.
   */
  lemma FailedReplaceTidyIff(entries: Entries, faults: Faults, clock: nat, reference: string, secret: string) returns (n: nat)
    requires ValidSecret(secret) && LoadOf(entries, reference).Ok? && Tidy(entries, reference)
    requires faults(clock) == faults(clock + 1) == NoFault
    requires Replacing(entries, faults, clock, reference, secret).result.Err?
    ensures n <= ChunkCount(secret) && forall call :: clock <= call < clock + 2 + 2 * n ==> faults(call) == NoFault
    ensures var call := clock + 2 + 2 * n;
            && (faults(call) != NoFault || faults(call + 1) != NoFault)
            && (Tidy(Replacing(entries, faults, clock, reference, secret).entries, reference)
                <==> n == 0 || (faults(call) == NoFault && MissesNone(faults, call + 2, n)))
  {
    var existing := Existing(entries, reference);
    var generation := NextGeneration(existing);
    var after := Replacing(entries, faults, clock, reference, secret).entries;
    FailureIsWriting(entries, faults, clock, reference, secret);
    n := WritingStops(entries, faults, clock + 2, reference, secret, generation);
    StoppedTidyIff(entries, after, faults, clock + 2 + 2 * n, reference, secret, n);
  }

  lemma FailureIsWriting(entries: Entries, faults: Faults, clock: nat, reference: string, secret: string)
    requires ValidSecret(secret) && LoadOf(entries, reference).Ok? && faults(clock) == faults(clock + 1) == NoFault
    requires Replacing(entries, faults, clock, reference, secret).result.Err?
    ensures var t := WritingChunked(entries, faults, clock + 2, reference, secret, NextGeneration(Existing(entries, reference)));
            t.result.Err? && t.entries == Replacing(entries, faults, clock, reference, secret).entries
  {
    var existing := Existing(entries, reference);
    var t := WritingChunked(entries, faults, clock + 2, reference, secret, NextGeneration(existing));
    if t.result.Ok? && existing.Some? {
      ErasingSucceeds(t.entries, faults, t.clock, reference, existing.value.0, 0, existing.value.1);
    }
  }

  lemma StoppedTidyIff(entries: Entries, after: Entries, faults: Faults, call: nat, reference: string, secret: string, n: nat)
    requires ValidSecret(secret) && n <= ChunkCount(secret) && Tidy(entries, reference)
    requires Stopped(entries, after, faults, call, reference, NextGeneration(Existing(entries, reference)), secret, n)
    ensures Tidy(after, reference) <==> n == 0 || (faults(call) == NoFault && MissesNone(faults, call + 2, n))
  {
    var existing := Existing(entries, reference);
    var generation := NextGeneration(existing);
    ManifestKept(entries, after, faults, call, reference, generation, secret, n);
    if i: nat :| i < n && Stays(faults, call, i) {
      StrayIsUntidy(after, reference, generation, i);
    } else {
      forall i: nat | i < n ensures ChunkReference(reference, generation, i) !in after {
        assert !Stays(faults, call, i);
      }
      forall key | key in KeysLeft(after, reference)
        ensures key in KeysLeft(entries, reference)
      {
        if NoChunk(key, reference, generation, 0, n) {
          assert SameEntry(after, entries, key);
        }
      }
    }
    StaysIff(faults, call, n);
  }

  lemma StaysIff(faults: Faults, call: nat, n: nat)
    ensures (exists i: nat :: i < n && Stays(faults, call, i))
       <==> n > 0 && (faults(call) != NoFault || !MissesNone(faults, call + 2, n))
  {
    if n > 0 && faults(call) != NoFault {
      assert Stays(faults, call, 0);
    }
    var cleanup := call + 2;
    if i: nat :| i < n && Missed(faults, cleanup, i) {
      assert Stays(faults, call, i);
    }
  }

  lemma ManifestKept(entries: Entries, after: Entries, faults: Faults, call: nat, reference: string, generation: char,
                     secret: string, n: nat)
    requires n <= ChunkCount(secret) && Stopped(entries, after, faults, call, reference, generation, secret, n)
    ensures SameEntry(after, entries, reference) && Existing(after, reference) == Existing(entries, reference)
  {
    forall i: nat | i < n ensures reference != ChunkReference(reference, generation, i) {
      assert |ChunkReference(reference, generation, i)| > |reference|;
    }
    assert NoChunk(reference, reference, generation, 0, n);
  }

  lemma StrayIsUntidy(entries: Entries, reference: string, generation: char, i: nat)
    requires IsGeneration(generation) && i < MAX_CHUNKS && ChunkReference(reference, generation, i) in entries
    requires Existing(entries, reference).Some? ==> Existing(entries, reference).value.0 != generation
    ensures !Tidy(entries, reference)
  {
    var key := ChunkReference(reference, generation, i);
    assert key in ChunkKeys(reference, generation) && key in KeysLeft(entries, reference);
    if Existing(entries, reference).Some? {
      var (previous, count) := Existing(entries, reference).value;
      OtherGeneration(reference, previous, generation, i, count);
    } else {
      assert |key| > |reference|;
    }
  }

  // ---------------------------------------------------------------- the error of a failure

  /** What the first of these two calls that failed reports. */
  function Reported(faults: Faults, call: nat): (e: VaultError) {
    if faults(call) != NoFault then MapFault(faults(call)) else MapFault(faults(call + 1))
  }

  lemma {:induction false} WritingChunksReports(entries: Entries, faults: Faults, clock: nat, reference: string,
                                                secret: string, generation: char, index: nat) returns (n: nat)
    requires index <= ChunkCount(secret)
    ensures index <= n <= ChunkCount(secret)
    ensures forall call :: clock <= call < clock + 2 * (n - index) ==> faults(call) == NoFault
    ensures var t := WritingChunks(entries, faults, clock, reference, secret, generation, index);
            if t.result.Ok? then n == ChunkCount(secret) == t.result.value && t.clock == clock + 2 * (n - index)
            else var call := clock + 2 * (n - index);
                 (faults(call) != NoFault || faults(call + 1) != NoFault) && t.result.error == Reported(faults, call)
    decreases ChunkCount(secret) - index
  {
    n := index;
    if index < ChunkCount(secret) {
      var one := WritingOne(entries, faults, clock, reference, secret, generation, index);
      if one.result.Ok? {
        OneWrites(entries, faults, clock, reference, secret, generation, index);
        n := WritingChunksReports(one.entries, faults, one.clock, reference, secret, generation, index + 1);
      }
    }
  }

  /** The error of a replacement: a check that it failed, or what the first failing call of its reads and writes reports. */
  lemma ReplaceReports(entries: Entries, faults: Faults, clock: nat, reference: string, secret: string) returns (n: nat)
    requires Replacing(entries, faults, clock, reference, secret).result.Err?
    ensures var e := Replacing(entries, faults, clock, reference, secret).result.error;
            if !ValidSecret(secret) then e == InvalidSecret
            else if faults(clock) != NoFault || faults(clock + 1) != NoFault then e == Reported(faults, clock)
            else if reference !in entries then e == MissingEntry
            else if ParseManifest(entries[reference]).Err? then e == Unavailable
            else
              && n <= ChunkCount(secret) && (forall call :: clock <= call < clock + 2 + 2 * n ==> faults(call) == NoFault)
              && (faults(clock + 2 + 2 * n) != NoFault || faults(clock + 3 + 2 * n) != NoFault)
              && e == Reported(faults, clock + 2 + 2 * n)
  {
    n := 0;
    if ValidSecret(secret) && faults(clock) == faults(clock + 1) == NoFault && reference in entries
       && ParseManifest(entries[reference]).Ok? {
      n := StoringReports(entries, faults, clock + 2, reference, secret, ParseManifest(entries[reference]).value);
    }
  }

  lemma StoringReports(entries: Entries, faults: Faults, clock: nat, reference: string, secret: string,
                       existing: Option<(char, nat)>) returns (n: nat)
    requires Storing(entries, faults, clock, reference, secret, existing).result.Err?
    ensures n <= ChunkCount(secret) && forall call :: clock <= call < clock + 2 * n ==> faults(call) == NoFault
    ensures faults(clock + 2 * n) != NoFault || faults(clock + 2 * n + 1) != NoFault
    ensures Storing(entries, faults, clock, reference, secret, existing).result.error == Reported(faults, clock + 2 * n)
  {
    n := WritingChunksReports(entries, faults, clock, reference, secret, NextGeneration(existing), 0);
    var written := WritingChunked(entries, faults, clock, reference, secret, NextGeneration(existing));
    if written.result.Ok? && existing.Some? {
      ErasingSucceeds(written.entries, faults, written.clock, reference, existing.value.0, 0, existing.value.1);
    }
  }

  /** The error of a save: a check that it failed, or what its first failing call other than its lenient read reports. */
  lemma SaveReports(entries: Entries, faults: Faults, clock: nat, value: string, secret: string) returns (n: nat)
    requires Saving(entries, faults, clock, value, secret).result.Err?
    ensures var e := Saving(entries, faults, clock, value, secret).result.error;
            if !ValidSecret(secret) || NewReference(value).Err? then e == InvalidSecret
            else if faults(clock) != NoFault then e == MapFault(faults(clock))
            else
              && n <= ChunkCount(secret) && (forall call :: clock + 2 <= call < clock + 2 + 2 * n ==> faults(call) == NoFault)
              && (faults(clock + 2 + 2 * n) != NoFault || faults(clock + 3 + 2 * n) != NoFault)
              && e == Reported(faults, clock + 2 + 2 * n)
  {
    n := 0;
    if ValidSecret(secret) && NewReference(value).Ok? && faults(clock) == NoFault {
      var reference := NewReference(value).value;
      n := StoringReports(entries, faults, clock + 2, reference, secret, ReadLeniently(entries, faults, clock + 1, reference));
    }
  }

  /** A deletion reports the failure of opening or of deleting its entry, and no other; a missing entry is no failure. */
  lemma DeleteReports(entries: Entries, faults: Faults, clock: nat, reference: string)
    ensures Deleting(entries, faults, clock, reference).result
         == if faults(clock) != NoFault then Err(MapFault(faults(clock)))
            else if faults(clock + 2) != NoFault then Err(MapFault(faults(clock + 2)))
            else Ok(())
  {
    if faults(clock) == NoFault == faults(clock + 2) {
      var existing := ReadLeniently(entries, faults, clock + 1, reference);
      if existing.Some? {
        var removed := Removing(entries, faults, clock + 2, reference);
        ErasingSucceeds(removed.entries, faults, removed.clock, reference, existing.value.0, 0, existing.value.1);
      }
    }
  }
}
