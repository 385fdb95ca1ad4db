/**
 A replacement under keyring calls that report a failure and take effect all the same. A late chunk write or a late
 deletion changes nothing that a load can see; a late manifest write publishes the new secret, and the cleanup that
 follows it then erases chunks which the manifest names.
 */
module VaultLate {
  import opened Text
  import opened Vault
  import opened VaultKeys
  import opened VaultRuns

  /** The outcome that each keyring call reports, and which of the failed ones took effect. */
  datatype Calls = Calls(faults: Faults, late: nat -> bool)

  /** The call reports a failure and takes effect. */
  ghost predicate IsLate(calls: Calls, clock: nat) {
    calls.faults(clock) != NoFault && calls.late(clock)
  }

  function LateSetting(entries: Entries, calls: Calls, clock: nat, key: string, value: string): (t: Trace<()>) {
    var reported := Setting(entries, calls.faults, clock, key, value);
    if reported.result.Err? && calls.late(clock) then
      reported.(entries := entries[key := value], writes := [entries[key := value]])
    else reported
  }

  function LateErasingOne(entries: Entries, calls: Calls, clock: nat, reference: string, generation: char, index: nat):
      (t: Trace<()>)
  {
    var key := ChunkReference(reference, generation, index);
    if calls.faults(clock) != NoFault then Trace(entries, clock + 1, [], Ok(()))
    else if key !in entries || (calls.faults(clock + 1) != NoFault && !calls.late(clock + 1)) then
      Trace(entries, clock + 2, [], Ok(()))
    else Trace(entries - {key}, clock + 2, [entries - {key}], Ok(()))
  }

  function LateErasing(entries: Entries, calls: Calls, clock: nat, reference: string, generation: char, index: nat,
                       count: nat): (t: Trace<()>)
    ensures t.result.Ok?
    decreases count - index
  {
    if index >= count then Trace(entries, clock, [], Ok(()))
    else
      var one := LateErasingOne(entries, calls, clock, reference, generation, index);
      Then(one.writes, LateErasing(one.entries, calls, one.clock, reference, generation, index + 1, count))
  }

  function LateAbandoning(failed: Trace<()>, calls: Calls, reference: string, generation: char, count: nat): (t: Trace<nat>)
    requires failed.result.Err?
    ensures t.result.Err?
  {
    var erased := LateErasing(failed.entries, calls, failed.clock, reference, generation, 0, count);
    Trace(erased.entries, erased.clock, failed.writes + erased.writes, Err(failed.result.error))
  }

  function LateWritingOne(entries: Entries, calls: Calls, clock: nat, reference: string, secret: string, generation: char,
                          index: nat): (t: Trace<nat>)
    requires index < ChunkCount(secret)
  {
    if calls.faults(clock) != NoFault then Trace(entries, clock + 1, [], Err(MapFault(calls.faults(clock))))
    else
      var key := ChunkReference(reference, generation, index);
      var written := LateSetting(entries, calls, clock + 1, key, Chunk(secret, index));
      if written.result.Err? then LateAbandoning(written, calls, reference, generation, index)
      else Trace(written.entries, written.clock, written.writes, Ok(index + 1))
  }

  function LateWritingChunks(entries: Entries, calls: Calls, clock: nat, reference: string, secret: string,
                             generation: char, index: nat): (t: Trace<nat>)
    requires index <= ChunkCount(secret)
    decreases ChunkCount(secret) - index
  {
    if index == ChunkCount(secret) then Trace(entries, clock, [], Ok(index))
    else
      var one := LateWritingOne(entries, calls, clock, reference, secret, generation, index);
      if one.result.Err? then one
      else Then(one.writes, LateWritingChunks(one.entries, calls, one.clock, reference, secret, generation, index + 1))
  }

  function LateWritingManifest(entries: Entries, calls: Calls, clock: nat, reference: string, generation: char, count: nat):
      (t: Trace<nat>)
  {
    if calls.faults(clock) != NoFault then Trace(entries, clock + 1, [], Err(MapFault(calls.faults(clock))))
    else
      var written := LateSetting(entries, calls, clock + 1, reference, Manifest(generation, count));
      if written.result.Err? then LateAbandoning(written, calls, reference, generation, count)
      else Trace(written.entries, written.clock, written.writes, Ok(count))
  }

  function LateWritingChunked(entries: Entries, calls: Calls, clock: nat, reference: string, secret: string,
                              generation: char): (t: Trace<nat>)
  {
    var chunks := LateWritingChunks(entries, calls, clock, reference, secret, generation, 0);
    if chunks.result.Err? then chunks
    else Then(chunks.writes,
              LateWritingManifest(chunks.entries, calls, chunks.clock, reference, generation, chunks.result.value))
  }

  function LateStoring(entries: Entries, calls: Calls, clock: nat, reference: string, secret: string,
                       existing: Option<(char, nat)>): (t: Trace<()>)
  {
    var written := LateWritingChunked(entries, calls, clock, reference, secret, NextGeneration(existing));
    if written.result.Err? then Trace(written.entries, written.clock, written.writes, Err(written.result.error))
    else if existing.None? then Trace(written.entries, written.clock, written.writes, Ok(()))
    else Then(written.writes,
              LateErasing(written.entries, calls, written.clock, reference, existing.value.0, 0, existing.value.1))
  }

  function LateReplacing(entries: Entries, calls: Calls, clock: nat, reference: string, secret: string): (t: Trace<()>) {
    if !ValidSecret(secret) then Trace(entries, clock, [], Err(InvalidSecret))
    else if calls.faults(clock) != NoFault then Trace(entries, clock + 1, [], Err(MapFault(calls.faults(clock))))
    else if calls.faults(clock + 1) != NoFault then Trace(entries, clock + 2, [], Err(MapFault(calls.faults(clock + 1))))
    else if reference !in entries then Trace(entries, clock + 2, [], Err(MissingEntry))
    else
      var existing := ParseManifest(entries[reference]);
      if existing.Err? then Trace(entries, clock + 2, [], Err(existing.error))
      else LateStoring(entries, calls, clock + 2, reference, secret, existing.value)
  }

  // ---------------------------------------------------------------- no late calls

  lemma {:induction false} NeverLateErasing(entries: Entries, calls: Calls, clock: nat, reference: string,
                                            generation: char, index: nat, count: nat)
    requires forall n :: !calls.late(n)
    ensures LateErasing(entries, calls, clock, reference, generation, index, count)
         == Erasing(entries, calls.faults, clock, reference, generation, index, count)
    decreases count - index
  {
    if index < count {
      var one := ErasingOne(entries, calls.faults, clock, reference, generation, index);
      assert one == LateErasingOne(entries, calls, clock, reference, generation, index);
      NeverLateErasing(one.entries, calls, one.clock, reference, generation, index + 1, count);
    }
  }

  lemma {:induction false} NeverLateWritingChunks(entries: Entries, calls: Calls, clock: nat, reference: string,
                                                  secret: string, generation: char, index: nat)
    requires (forall n :: !calls.late(n)) && index <= ChunkCount(secret)
    ensures LateWritingChunks(entries, calls, clock, reference, secret, generation, index)
         == WritingChunks(entries, calls.faults, clock, reference, secret, generation, index)
    decreases ChunkCount(secret) - index
  {
    if index < ChunkCount(secret) {
      if calls.faults(clock) == NoFault {
        NeverLateErasing(entries, calls, clock + 2, reference, generation, 0, index);
      }
      var one := WritingOne(entries, calls.faults, clock, reference, secret, generation, index);
      assert one == LateWritingOne(entries, calls, clock, reference, secret, generation, index);
      if one.result.Ok? {
        NeverLateWritingChunks(one.entries, calls, one.clock, reference, secret, generation, index + 1);
      }
    }
  }

  lemma NeverLateWritingChunked(entries: Entries, calls: Calls, clock: nat, reference: string, secret: string,
                                generation: char)
    requires forall n :: !calls.late(n)
    ensures LateWritingChunked(entries, calls, clock, reference, secret, generation)
         == WritingChunked(entries, calls.faults, clock, reference, secret, generation)
  {
    NeverLateWritingChunks(entries, calls, clock, reference, secret, generation, 0);
    var chunks := WritingChunks(entries, calls.faults, clock, reference, secret, generation, 0);
    if chunks.result.Ok? {
      NeverLateErasing(chunks.entries, calls, chunks.clock + 2, reference, generation, 0, chunks.result.value);
    }
  }

  /** Without late calls this is the replacement of the other theorems. */
  lemma NeverLateReplacing(entries: Entries, calls: Calls, clock: nat, reference: string, secret: string)
    requires forall n :: !calls.late(n)
    ensures LateReplacing(entries, calls, clock, reference, secret)
         == Replacing(entries, calls.faults, clock, reference, secret)
  {
    if reference in entries && ParseManifest(entries[reference]).Ok? {
      var existing := ParseManifest(entries[reference]).value;
      var generation := NextGeneration(existing);
      NeverLateWritingChunked(entries, calls, clock + 2, reference, secret, generation);
      if existing.Some? {
        var written := WritingChunked(entries, calls.faults, clock + 2, reference, secret, generation);
        NeverLateErasing(written.entries, calls, written.clock, reference, existing.value.0, 0, existing.value.1);
      }
    }
  }

  // ---------------------------------------------------------------- late chunk writes and deletions

  lemma {:induction false} LateErasingConfined(entries: Entries, calls: Calls, clock: nat, reference: string,
                                               generation: char, index: nat, count: nat)
    requires count <= MAX_CHUNKS
    ensures Confined(entries, LateErasing(entries, calls, clock, reference, generation, index, count), reference, generation)
    decreases count - index
  {
    if index < count {
      var key := ChunkReference(reference, generation, index);
      assert key in ChunkKeys(reference, generation);
      ChangeInside(entries, key, "", ChunkKeys(reference, generation));
      var one := LateErasingOne(entries, calls, clock, reference, generation, index);
      LateErasingConfined(one.entries, calls, one.clock, reference, generation, index + 1, count);
      ConfinedThen(entries, one, LateErasing(one.entries, calls, one.clock, reference, generation, index + 1, count),
                   reference, generation);
    }
  }

  lemma LateAbandoningConfined(before: Entries, failed: Trace<()>, calls: Calls, reference: string, generation: char,
                               count: nat)
    requires failed.result.Err? && Confined(before, failed, reference, generation) && count <= MAX_CHUNKS
    ensures Confined(before, LateAbandoning(failed, calls, reference, generation, count), reference, generation)
  {
    LateErasingConfined(failed.entries, calls, failed.clock, reference, generation, 0, count);
    ConfinedThen(before, failed, LateErasing(failed.entries, calls, failed.clock, reference, generation, 0, count),
                 reference, generation);
  }

  lemma LateWritingOneConfined(entries: Entries, calls: Calls, clock: nat, reference: string, secret: string,
                               generation: char, index: nat)
    requires ValidSecret(secret) && index < ChunkCount(secret)
    requires ChunksStored(entries, reference, generation, secret, index)
    ensures var t := LateWritingOne(entries, calls, clock, reference, secret, generation, index);
            && Confined(entries, t, reference, generation)
            && (t.result.Ok? <==> calls.faults(clock) == calls.faults(clock + 1) == NoFault)
            && (t.result.Ok? ==> t.clock == clock + 2 && ChunksStored(t.entries, reference, generation, secret, index + 1))
  {
    if calls.faults(clock) == NoFault {
      var key := ChunkReference(reference, generation, index);
      assert key in ChunkKeys(reference, generation);
      ChangeInside(entries, key, Chunk(secret, index), ChunkKeys(reference, generation));
      var written := LateSetting(entries, calls, clock + 1, key, Chunk(secret, index));
      if written.result.Err? {
        LateAbandoningConfined(entries, written, calls, reference, generation, index);
      } else {
        ChunksStoredNext(entries, reference, generation, secret, index);
      }
    }
  }

  /** A stretch of calls without a fault. */
  ghost predicate Fine(calls: Calls, from: nat, to: nat) {
    forall n :: from <= n < to ==> calls.faults(n) == NoFault
  }

  /** Writing the chunks changes nothing but chunks, and succeeds exactly when none of its calls reports a failure. */
  lemma {:induction false} LateWritingChunksConfined(entries: Entries, calls: Calls, clock: nat, reference: string,
                                                     secret: string, generation: char, index: nat)
    requires ValidSecret(secret) && index <= ChunkCount(secret)
    requires ChunksStored(entries, reference, generation, secret, index)
    ensures var t := LateWritingChunks(entries, calls, clock, reference, secret, generation, index);
            var rest := ChunkCount(secret) - index;
            && Confined(entries, t, reference, generation)
            && (t.result.Ok? <==> Fine(calls, clock, clock + 2 * rest))
            && (t.result.Ok? ==> && t.result.value == ChunkCount(secret) && t.clock == clock + 2 * rest
                                 && ChunksStored(t.entries, reference, generation, secret, ChunkCount(secret)))
    decreases ChunkCount(secret) - index
  {
    if index < ChunkCount(secret) {
      LateWritingOneConfined(entries, calls, clock, reference, secret, generation, index);
      var one := LateWritingOne(entries, calls, clock, reference, secret, generation, index);
      if one.result.Ok? {
        LateWritingChunksConfined(one.entries, calls, one.clock, reference, secret, generation, index + 1);
        ConfinedThen(entries, one, LateWritingChunks(one.entries, calls, one.clock, reference, secret, generation, index + 1),
                     reference, generation);
      }
    }
  }

  // ---------------------------------------------------------------- a late manifest

  /** The cleanup from one chunk on finds every chunk unreachable or its deletion without effect. */
  ghost predicate Spares(calls: Calls, clock: nat, index: nat, count: nat)
    decreases count - index
  {
    if index >= count then true
    else if calls.faults(clock) != NoFault then Spares(calls, clock + 1, index + 1, count)
    else calls.faults(clock + 1) != NoFault && !calls.late(clock + 1) && Spares(calls, clock + 2, index + 1, count)
  }

  /** A cleanup of stored chunks leaves all of them or lacks one in the end. */
  lemma {:induction false} ErasingSparesIff(entries: Entries, calls: Calls, clock: nat, reference: string, generation: char,
                                            index: nat, count: nat)
    requires forall i :: index <= i < count ==> ChunkReference(reference, generation, i) in entries
    ensures var t := LateErasing(entries, calls, clock, reference, generation, index, count);
            && t.entries.Keys <= entries.Keys
            && if Spares(calls, clock, index, count) then t.entries == entries
               else exists i :: index <= i < count && ChunkReference(reference, generation, i) !in t.entries
    decreases count - index
  {
    if index < count {
      var one := LateErasingOne(entries, calls, clock, reference, generation, index);
      var rest := LateErasing(one.entries, calls, one.clock, reference, generation, index + 1, count);
      forall i | index < i < count ensures ChunkReference(reference, generation, i) in one.entries {
        if ChunkReference(reference, generation, i) == ChunkReference(reference, generation, index) {
          ChunkReferenceInjective(reference, generation, i, reference, generation, index);
        }
      }
      ErasingSparesIff(one.entries, calls, one.clock, reference, generation, index + 1, count);
      if one.entries != entries {
        assert ChunkReference(reference, generation, index) !in rest.entries;
      }
    }
  }

  /** A failure is reported; the new secret is there if the cleanup spares it, and otherwise nothing loads. */
  ghost predicate LeftBy<T>(t: Trace<T>, calls: Calls, cleanup: nat, reference: string, secret: string) {
    && t.result.Err?
    && if Spares(calls, cleanup, 0, ChunkCount(secret)) then HoldsAt(t.entries, reference, secret)
       else LoadOf(t.entries, reference) == Err(MissingEntry)
  }

  lemma {:induction false} MissingChunk(entries: Entries, reference: string, generation: char, index: nat, count: nat)
    requires index < count && ChunkReference(reference, generation, index) !in entries
    ensures Assemble(entries, reference, generation, count) == Err(MissingEntry)
    decreases count
  {
    if index < count - 1 {
      MissingChunk(entries, reference, generation, index, count - 1);
    } else {
      OnlyMissing(entries, reference, generation, index);
    }
  }

  lemma {:induction false} OnlyMissing(entries: Entries, reference: string, generation: char, count: nat)
    ensures Assemble(entries, reference, generation, count).Err? ==>
              Assemble(entries, reference, generation, count) == Err(MissingEntry)
  {
    if count > 0 {
      OnlyMissing(entries, reference, generation, count - 1);
    }
  }

  /** A published secret of which the cleanup erases a chunk does not load. */
  lemma ErasedIsMissing(published: Entries, calls: Calls, clock: nat, reference: string, generation: char, count: nat)
    requires IsGeneration(generation) && 0 < count <= MAX_CHUNKS && !Spares(calls, clock, 0, count)
    requires reference in published && published[reference] == Manifest(generation, count)
    requires forall i :: 0 <= i < count ==> ChunkReference(reference, generation, i) in published
    ensures var t := LateErasing(published, calls, clock, reference, generation, 0, count);
            LoadOf(t.entries, reference) == Err(MissingEntry)
  {
    var t := LateErasing(published, calls, clock, reference, generation, 0, count);
    ErasingSparesIff(published, calls, clock, reference, generation, 0, count);
    LateErasingConfined(published, calls, clock, reference, generation, 0, count);
    SameOutside(t.entries, published, ChunkKeys(reference, generation));
    ReferenceIsNoChunk(reference, generation);
    var i :| 0 <= i < count && ChunkReference(reference, generation, i) !in t.entries;
    MissingChunk(t.entries, reference, generation, i, count);
    ManifestRoundTrip(generation, count);
  }

  /** After a late manifest write the new secret is there if the cleanup spares it, and otherwise nothing loads. */
  lemma LateManifestFate(entries: Entries, calls: Calls, clock: nat, reference: string, secret: string, generation: char)
    requires ValidSecret(secret) && IsGeneration(generation)
    requires ChunksStored(entries, reference, generation, secret, ChunkCount(secret))
    requires calls.faults(clock) == NoFault && IsLate(calls, clock + 1)
    ensures var t := LateWritingManifest(entries, calls, clock, reference, generation, ChunkCount(secret));
            LeftBy(t, calls, clock + 2, reference, secret)
  {
    var count := ChunkCount(secret);
    var published := entries[reference := Manifest(generation, count)];
    ChunksStoredManifest(entries, reference, generation, secret, count);
    var t := LateWritingManifest(entries, calls, clock, reference, generation, count);
    assert t.entries == LateErasing(published, calls, clock + 2, reference, generation, 0, count).entries && t.result.Err?;
    StoredUnderHolds(published, reference, generation, secret);
    if Spares(calls, clock + 2, 0, count) {
      ErasingSparesIff(published, calls, clock + 2, reference, generation, 0, count);
    } else {
      ErasedIsMissing(published, calls, clock + 2, reference, generation, count);
    }
  }

  // ---------------------------------------------------------------- replacing

  /** Every call before the manifest write is fine, and that write is late. */
  ghost predicate ManifestIsLate(calls: Calls, clock: nat, secret: string) {
    Fine(calls, clock, clock + 2 * ChunkCount(secret) + 3) && IsLate(calls, clock + 2 * ChunkCount(secret) + 3)
  }

  lemma LateManifestPublishes(before: Entries, chunks: Trace<nat>, calls: Calls, reference: string, secret: string,
                              generation: char)
    requires ValidSecret(secret) && IsGeneration(generation) && Confined(before, chunks, reference, generation)
    requires chunks.result == Ok(ChunkCount(secret))
    requires ChunksStored(chunks.entries, reference, generation, secret, ChunkCount(secret))
    requires calls.faults(chunks.clock) != NoFault || !IsLate(calls, chunks.clock + 1)
    ensures var t := Then(chunks.writes, LateWritingManifest(chunks.entries, calls, chunks.clock, reference, generation,
                                                             ChunkCount(secret)));
            if t.result.Ok? then Published(before, t, reference, generation, secret)
            else Confined(before, t, reference, generation)
  {
    var count := ChunkCount(secret);
    var manifest := LateWritingManifest(chunks.entries, calls, chunks.clock, reference, generation, count);
    if calls.faults(chunks.clock) == NoFault && calls.faults(chunks.clock + 1) != NoFault {
      var failed := LateSetting(chunks.entries, calls, chunks.clock + 1, reference, Manifest(generation, count));
      assert Confined(chunks.entries, failed, reference, generation);
      LateAbandoningConfined(chunks.entries, failed, calls, reference, generation, count);
      ConfinedThen(before, chunks, manifest, reference, generation);
    } else {
      WritingManifestPublishes(before, chunks, calls.faults, reference, secret, generation);
    }
  }

  /** The manifest write is not late. */
  ghost predicate OnTime(calls: Calls, start: nat) {
    calls.faults(start) != NoFault || !IsLate(calls, start + 1)
  }

  lemma LateChunkedPublishes(entries: Entries, calls: Calls, clock: nat, reference: string, secret: string, generation: char)
    requires ValidSecret(secret) && IsGeneration(generation)
    requires Fine(calls, clock, clock + 2 * ChunkCount(secret)) ==> OnTime(calls, clock + 2 * ChunkCount(secret))
    ensures var t := LateWritingChunked(entries, calls, clock, reference, secret, generation);
            if t.result.Ok? then Published(entries, t, reference, generation, secret)
            else Confined(entries, t, reference, generation)
  {
    LateWritingChunksConfined(entries, calls, clock, reference, secret, generation, 0);
    var chunks := LateWritingChunks(entries, calls, clock, reference, secret, generation, 0);
    if chunks.result.Ok? {
      LateManifestPublishes(entries, chunks, calls, reference, secret, generation);
    }
  }

  lemma LateStoringAtomic(entries: Entries, calls: Calls, clock: nat, reference: string, secret: string,
                          existing: Option<(char, nat)>)
    requires ValidSecret(secret) && existing == Existing(entries, reference)
    requires Fine(calls, clock, clock + 2 * ChunkCount(secret)) ==> OnTime(calls, clock + 2 * ChunkCount(secret))
    ensures Atomic(entries, LateStoring(entries, calls, clock, reference, secret, existing), reference, secret)
  {
    var generation := NextGeneration(existing);
    LateChunkedPublishes(entries, calls, clock, reference, secret, generation);
    var written := LateWritingChunked(entries, calls, clock, reference, secret, generation);
    if written.result.Err? {
      ConfinedIsInvisible(entries, written, reference, generation);
    } else {
      LateCleanup(entries, written, calls, reference, generation, secret, existing);
    }
  }

  lemma LateCleanup(before: Entries, written: Trace<nat>, calls: Calls, reference: string, generation: char, secret: string,
                    existing: Option<(char, nat)>)
    requires ValidSecret(secret) && existing == Existing(before, reference) && generation == NextGeneration(existing)
    requires Published(before, written, reference, generation, secret) && written.result.Ok?
    ensures existing.None? ==> Atomic(before, written, reference, secret)
    ensures existing.Some? ==>
              Atomic(before, Then(written.writes, LateErasing(written.entries, calls, written.clock, reference,
                                                              existing.value.0, 0, existing.value.1)), reference, secret)
  {
    PublishedIsAtomic(before, written, reference, generation, secret);
    if existing.Some? {
      var (previous, count) := existing.value;
      var cleaned := LateErasing(written.entries, calls, written.clock, reference, previous, 0, count);
      LateErasingConfined(written.entries, calls, written.clock, reference, previous, 0, count);
      CleanedIsAtomic(before, written, cleaned, reference, generation, previous, secret);
    }
  }

  lemma FineChunks(entries: Entries, calls: Calls, clock: nat, reference: string, secret: string, generation: char)
      returns (chunks: Trace<nat>)
    requires ValidSecret(secret) && Fine(calls, clock, clock + 2 * ChunkCount(secret))
    ensures chunks == LateWritingChunks(entries, calls, clock, reference, secret, generation, 0)
    ensures chunks.result == Ok(ChunkCount(secret)) && chunks.clock == clock + 2 * ChunkCount(secret)
    ensures ChunksStored(chunks.entries, reference, generation, secret, ChunkCount(secret))
  {
    LateWritingChunksConfined(entries, calls, clock, reference, secret, generation, 0);
    chunks := LateWritingChunks(entries, calls, clock, reference, secret, generation, 0);
  }

  lemma ThenLeaves(done: seq<Entries>, t: Trace<nat>, calls: Calls, cleanup: nat, reference: string, secret: string)
    requires LeftBy(t, calls, cleanup, reference, secret)
    ensures LeftBy(Then(done, t), calls, cleanup, reference, secret)
  {
  }

  lemma LateChunkedLeaves(entries: Entries, calls: Calls, clock: nat, reference: string, secret: string, generation: char)
    requires ValidSecret(secret) && IsGeneration(generation) && Fine(calls, clock, clock + 2 * ChunkCount(secret))
    requires !OnTime(calls, clock + 2 * ChunkCount(secret))
    ensures var t := LateWritingChunked(entries, calls, clock, reference, secret, generation);
            LeftBy(t, calls, clock + 2 * ChunkCount(secret) + 2, reference, secret)
  {
    var chunks := FineChunks(entries, calls, clock, reference, secret, generation);
    LateManifestFate(chunks.entries, calls, chunks.clock, reference, secret, generation);
    var manifest := LateWritingManifest(chunks.entries, calls, chunks.clock, reference, generation, ChunkCount(secret));
    ThenLeaves(chunks.writes, manifest, calls, chunks.clock + 2, reference, secret);
  }

  lemma LateStoringLeaves(entries: Entries, calls: Calls, clock: nat, reference: string, secret: string,
                          existing: Option<(char, nat)>)
    requires ValidSecret(secret) && Fine(calls, clock, clock + 2 * ChunkCount(secret))
    requires !OnTime(calls, clock + 2 * ChunkCount(secret))
    ensures var t := LateStoring(entries, calls, clock, reference, secret, existing);
            LeftBy(t, calls, clock + 2 * ChunkCount(secret) + 2, reference, secret)
  {
    LateChunkedLeaves(entries, calls, clock, reference, secret, NextGeneration(existing));
  }

  lemma FineParts(calls: Calls, clock: nat, count: nat)
    ensures Fine(calls, clock, clock + 2 * count + 3)
       <==> && calls.faults(clock) == calls.faults(clock + 1) == NoFault
            && Fine(calls, clock + 2, clock + 2 + 2 * count) && calls.faults(clock + 2 + 2 * count) == NoFault
  {
  }

  lemma OnTimeUnlessLate(calls: Calls, clock: nat, secret: string)
    requires !ManifestIsLate(calls, clock, secret) && calls.faults(clock) == calls.faults(clock + 1) == NoFault
    ensures Fine(calls, clock + 2, clock + 2 + 2 * ChunkCount(secret)) ==> OnTime(calls, clock + 2 + 2 * ChunkCount(secret))
  {
    FineParts(calls, clock, ChunkCount(secret));
  }

  lemma LateReplacingStores(entries: Entries, calls: Calls, clock: nat, reference: string, secret: string)
    requires ValidSecret(secret) && LoadOf(entries, reference).Ok?
    requires calls.faults(clock) == calls.faults(clock + 1) == NoFault
    ensures LateReplacing(entries, calls, clock, reference, secret)
         == LateStoring(entries, calls, clock + 2, reference, secret, Existing(entries, reference))
  {
  }

  lemma LateReplaceLeaves(entries: Entries, calls: Calls, clock: nat, reference: string, secret: string)
    requires ValidSecret(secret) && LoadOf(entries, reference).Ok? && ManifestIsLate(calls, clock, secret)
    ensures var t := LateReplacing(entries, calls, clock, reference, secret);
            LeftBy(t, calls, CleanupClock(clock, secret), reference, secret)
  {
    FineParts(calls, clock, ChunkCount(secret));
    LateReplacingStores(entries, calls, clock, reference, secret);
    LateStoringLeaves(entries, calls, clock + 2, reference, secret, Existing(entries, reference));
  }

  lemma LateReplaceAtomic(entries: Entries, calls: Calls, clock: nat, reference: string, secret: string)
    requires ValidSecret(secret) && LoadOf(entries, reference).Ok? && !ManifestIsLate(calls, clock, secret)
    ensures Atomic(entries, LateReplacing(entries, calls, clock, reference, secret), reference, secret)
  {
    if calls.faults(clock) == calls.faults(clock + 1) == NoFault {
      OnTimeUnlessLate(calls, clock, secret);
      LateReplacingStores(entries, calls, clock, reference, secret);
      LateStoringAtomic(entries, calls, clock + 2, reference, secret, Existing(entries, reference));
    }
  }

  /**
   Replacing a secret that loads. Late chunk writes and late deletions do no harm: it stays all or nothing at every
   write. After a late manifest write it reports a failure, and what is left is the new secret or none at all.
   */
  lemma LateReplaceFate(entries: Entries, calls: Calls, clock: nat, reference: string, secret: string)
    requires ValidSecret(secret) && LoadOf(entries, reference).Ok?
    ensures var t := LateReplacing(entries, calls, clock, reference, secret);
            if ManifestIsLate(calls, clock, secret) then LeftBy(t, calls, CleanupClock(clock, secret), reference, secret)
            else Atomic(entries, t, reference, secret)
  {
    if ManifestIsLate(calls, clock, secret) {
      LateReplaceLeaves(entries, calls, clock, reference, secret);
    } else {
      LateReplaceAtomic(entries, calls, clock, reference, secret);
    }
  }

  /** So the old or the new secret is left in the end if and only if no late manifest write is followed by an erased chunk. */
  lemma LateReplaceSurvivesIff(entries: Entries, calls: Calls, clock: nat, reference: string, secret: string)
    requires ValidSecret(secret) && LoadOf(entries, reference).Ok?
    ensures var t := LateReplacing(entries, calls, clock, reference, secret);
            SameAt(t.entries, entries, reference) || HoldsAt(t.entries, reference, secret)
            <==> !ManifestIsLate(calls, clock, secret) || Spares(calls, CleanupClock(clock, secret), 0, ChunkCount(secret))
  {
    LateReplaceFate(entries, calls, clock, reference, secret);
  }
}
