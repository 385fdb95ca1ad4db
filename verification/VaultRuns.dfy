/**
 The vault's calls as traces: for every fault schedule the entries after each single write. A failed keyring
 call changes nothing, so stopping the process after some call is the schedule that fails every later one.
 */
module VaultRuns {
  import opened Text
  import opened Vault

  datatype Fault = NoFault | NoStorageAccess | OtherFault

  /** The outcome of the n-th keyring call. */
  type Faults = nat -> Fault

  function MapFault(fault: Fault): (e: VaultError) {
    if fault == NoStorageAccess then Unavailable else Platform
  }

  /** What a stretch of calls leaves: entries, clock, the entries after each write, and its result. */
  datatype Trace<+T> = Trace(entries: Entries, clock: nat, writes: seq<Entries>, result: Result<T>)

  function Then<T>(writes: seq<Entries>, t: Trace<T>): (u: Trace<T>) {
    t.(writes := writes + t.writes)
  }

  function Setting(entries: Entries, faults: Faults, clock: nat, key: string, value: string): (t: Trace<()>) {
    if faults(clock) != NoFault then Trace(entries, clock + 1, [], Err(MapFault(faults(clock))))
    else Trace(entries[key := value], clock + 1, [entries[key := value]], Ok(()))
  }

  function Removing(entries: Entries, faults: Faults, clock: nat, key: string): (t: Trace<()>) {
    if faults(clock) != NoFault then Trace(entries, clock + 1, [], Err(MapFault(faults(clock))))
    else if key !in entries then Trace(entries, clock + 1, [], Err(MissingEntry))
    else Trace(entries - {key}, clock + 1, [entries - {key}], Ok(()))
  }

  /** Deletes one chunk; what fails is ignored. */
  function ErasingOne(entries: Entries, faults: Faults, clock: nat, reference: string, generation: char, index: nat):
      (t: Trace<()>)
  {
    if faults(clock) != NoFault then Trace(entries, clock + 1, [], Ok(()))
    else Removing(entries, faults, clock + 1, ChunkReference(reference, generation, index)).(result := Ok(()))
  }

  /** Deletes the chunks of one generation from `index` on, whatever fails. */
  function Erasing(entries: Entries, faults: Faults, clock: nat, reference: string, generation: char, index: nat,
                   count: nat): (t: Trace<()>)
    decreases count - index
  {
    if index >= count then Trace(entries, clock, [], Ok(()))
    else
      var one := ErasingOne(entries, faults, clock, reference, generation, index);
      Then(one.writes, Erasing(one.entries, faults, one.clock, reference, generation, index + 1, count))
  }

  /** Writes one chunk; a failed write erases the chunks before it. */
  function WritingOne(entries: Entries, faults: Faults, clock: nat, reference: string, secret: string, generation: char,
                      index: nat): (t: Trace<nat>)
    requires index < ChunkCount(secret)
  {
    if faults(clock) != NoFault then Trace(entries, clock + 1, [], Err(MapFault(faults(clock))))
    else
      var written := Setting(entries, faults, clock + 1, ChunkReference(reference, generation, index), Chunk(secret, index));
      if written.result.Err? then Abandoning(written, faults, reference, generation, index)
      else Trace(written.entries, written.clock, written.writes, Ok(index + 1))
  }

  /** Writes the chunks from `index` on, up to the first failure. */
  function WritingChunks(entries: Entries, faults: Faults, clock: nat, reference: string, secret: string,
                         generation: char, index: nat): (t: Trace<nat>)
    requires index <= ChunkCount(secret)
    decreases ChunkCount(secret) - index
  {
    if index == ChunkCount(secret) then Trace(entries, clock, [], Ok(index))
    else
      var one := WritingOne(entries, faults, clock, reference, secret, generation, index);
      if one.result.Err? then one
      else Then(one.writes, WritingChunks(one.entries, faults, one.clock, reference, secret, generation, index + 1))
  }

  /** What follows a failed write: the chunks written so far are erased. */
  function Abandoning(failed: Trace<()>, faults: Faults, reference: string, generation: char, count: nat): (t: Trace<nat>)
    requires failed.result.Err?
  {
    var erased := Erasing(failed.entries, faults, failed.clock, reference, generation, 0, count);
    Trace(erased.entries, erased.clock, failed.writes + erased.writes, Err(failed.result.error))
  }

  /** Chunks first, the manifest last. */
  function WritingChunked(entries: Entries, faults: Faults, clock: nat, reference: string, secret: string,
                          generation: char): (t: Trace<nat>)
  {
    var chunks := WritingChunks(entries, faults, clock, reference, secret, generation, 0);
    if chunks.result.Err? then chunks
    else Then(chunks.writes, WritingManifest(chunks.entries, faults, chunks.clock, reference, generation, chunks.result.value))
  }

  function WritingManifest(entries: Entries, faults: Faults, clock: nat, reference: string, generation: char, count: nat):
      (t: Trace<nat>)
  {
    if faults(clock) != NoFault then Trace(entries, clock + 1, [], Err(MapFault(faults(clock))))
    else
      var written := Setting(entries, faults, clock + 1, reference, Manifest(generation, count));
      if written.result.Err? then Abandoning(written, faults, reference, generation, count)
      else Trace(written.entries, written.clock, written.writes, Ok(count))
  }

  /** The common tail of `save` and `replace`: write the other generation, then drop the old one. */
  function Storing(entries: Entries, faults: Faults, clock: nat, reference: string, secret: string,
                   existing: Option<(char, nat)>): (t: Trace<()>)
  {
    var written := WritingChunked(entries, faults, clock, reference, secret, NextGeneration(existing));
    if written.result.Err? then Trace(written.entries, written.clock, written.writes, Err(written.result.error))
    else if existing.None? then Trace(written.entries, written.clock, written.writes, Ok(()))
    else Then(written.writes,
              Erasing(written.entries, faults, written.clock, reference, existing.value.0, 0, existing.value.1))
  }

  /** The manifest as `save` and `delete` read it: any failure reads as no manifest. */
  function ReadLeniently(entries: Entries, faults: Faults, clock: nat, reference: string): (existing: Option<(char, nat)>)
    ensures existing.Some? ==> existing == Existing(entries, reference)
    ensures faults(clock) == NoFault ==> existing == Existing(entries, reference)
  {
    if faults(clock) != NoFault then None else Existing(entries, reference)
  }

  /** A save under a reference: open, read the manifest leniently, store. */
  function SavingUnder(entries: Entries, faults: Faults, clock: nat, reference: string, secret: string): (t: Trace<()>) {
    if faults(clock) != NoFault then Trace(entries, clock + 1, [], Err(MapFault(faults(clock))))
    else Storing(entries, faults, clock + 2, reference, secret, ReadLeniently(entries, faults, clock + 1, reference))
  }

  function Saving(entries: Entries, faults: Faults, clock: nat, value: string, secret: string): (t: Trace<string>) {
    var reference := NewReference(value);
    if !ValidSecret(secret) || reference.Err? then Trace(entries, clock, [], Err(InvalidSecret))
    else
      var saved := SavingUnder(entries, faults, clock, reference.value, secret);
      Trace(saved.entries, saved.clock, saved.writes, if saved.result.Ok? then reference else Err(saved.result.error))
  }

  function Replacing(entries: Entries, faults: Faults, clock: nat, reference: string, secret: string): (t: Trace<()>) {
    if !ValidSecret(secret) then Trace(entries, clock, [], Err(InvalidSecret))
    else if faults(clock) != NoFault then Trace(entries, clock + 1, [], Err(MapFault(faults(clock))))
    else if faults(clock + 1) != NoFault then Trace(entries, clock + 2, [], Err(MapFault(faults(clock + 1))))
    else if reference !in entries then Trace(entries, clock + 2, [], Err(MissingEntry))
    else
      var existing := ParseManifest(entries[reference]);
      if existing.Err? then Trace(entries, clock + 2, [], Err(existing.error))
      else Storing(entries, faults, clock + 2, reference, secret, existing.value)
  }

  function Deleting(entries: Entries, faults: Faults, clock: nat, reference: string): (t: Trace<()>) {
    if faults(clock) != NoFault then Trace(entries, clock + 1, [], Err(MapFault(faults(clock))))
    else
      var existing := ReadLeniently(entries, faults, clock + 1, reference);
      var removed := Removing(entries, faults, clock + 2, reference);
      if removed.result.Err? && removed.result.error != MissingEntry then removed
      else if existing.None? then removed.(result := Ok(()))
      else Then(removed.writes,
                Erasing(removed.entries, faults, removed.clock, reference, existing.value.0, 0, existing.value.1))
  }

  // ---------------------------------------------------------------- one step of a loop

  lemma ErasingStep(all: Trace<()>, done: seq<Entries>, entries: Entries, faults: Faults, clock: nat, reference: string,
                    generation: char, index: nat, count: nat)
    requires index < count
    requires all == Then(done, Erasing(entries, faults, clock, reference, generation, index, count))
    ensures var one := ErasingOne(entries, faults, clock, reference, generation, index);
            all == Then(done + one.writes,
                        Erasing(one.entries, faults, one.clock, reference, generation, index + 1, count))
  {
    var one := ErasingOne(entries, faults, clock, reference, generation, index);
    var rest := Erasing(one.entries, faults, one.clock, reference, generation, index + 1, count);
    assert done + (one.writes + rest.writes) == (done + one.writes) + rest.writes;
  }

  lemma WritingStep(all: Trace<nat>, done: seq<Entries>, entries: Entries, faults: Faults, clock: nat, reference: string,
                    secret: string, generation: char, index: nat)
    requires index < ChunkCount(secret)
    requires all == Then(done, WritingChunks(entries, faults, clock, reference, secret, generation, index))
    ensures var one := WritingOne(entries, faults, clock, reference, secret, generation, index);
            if one.result.Err? then all == Then(done, one)
            else all == Then(done + one.writes,
                             WritingChunks(one.entries, faults, one.clock, reference, secret, generation, index + 1))
  {
    var one := WritingOne(entries, faults, clock, reference, secret, generation, index);
    if one.result.Ok? {
      var rest := WritingChunks(one.entries, faults, one.clock, reference, secret, generation, index + 1);
      assert done + (one.writes + rest.writes) == (done + one.writes) + rest.writes;
    }
  }

  // ---------------------------------------------------------------- every state of a trace

  /** The last write is what the trace ends with. */
  ghost predicate Ends<T>(before: Entries, t: Trace<T>) {
    && (t.writes == [] ==> t.entries == before)
    && (t.writes != [] ==> t.writes[|t.writes| - 1] == t.entries)
  }

  /** Every state differs from the first one in chunks of one generation only. */
  ghost predicate Confined<T>(before: Entries, t: Trace<T>, reference: string, generation: char) {
    && Ends(before, t)
    && OnlyChunks(t.entries, before, reference, generation)
    && forall i :: 0 <= i < |t.writes| ==> OnlyChunks(t.writes[i], before, reference, generation)
  }

  lemma ErasingOneConfined(entries: Entries, faults: Faults, clock: nat, reference: string, generation: char, index: nat)
    requires index < MAX_CHUNKS
    ensures Confined(entries, ErasingOne(entries, faults, clock, reference, generation, index), reference, generation)
  {
    var key := ChunkReference(reference, generation, index);
    assert key in ChunkKeys(reference, generation);
    ChangeInside(entries, key, "", ChunkKeys(reference, generation));
  }

  lemma SettingConfined(entries: Entries, faults: Faults, clock: nat, reference: string, generation: char, index: nat,
                        value: string)
    requires index < MAX_CHUNKS
    ensures Confined(entries, Setting(entries, faults, clock, ChunkReference(reference, generation, index), value),
                     reference, generation)
  {
    var key := ChunkReference(reference, generation, index);
    assert key in ChunkKeys(reference, generation);
    ChangeInside(entries, key, value, ChunkKeys(reference, generation));
  }

  /** One confined stretch after another is confined. */
  lemma ConfinedThen<S, T>(before: Entries, first: Trace<S>, second: Trace<T>, reference: string, generation: char)
    requires Confined(before, first, reference, generation) && Confined(first.entries, second, reference, generation)
    ensures Confined(before, Then(first.writes, second), reference, generation)
  {
    var all := Then(first.writes, second);
    forall i | 0 <= i < |all.writes| ensures OnlyChunks(all.writes[i], before, reference, generation) {
      assert all.writes[i] == if i < |first.writes| then first.writes[i] else second.writes[i - |first.writes|];
    }
  }

  lemma {:induction false} ErasingConfined(entries: Entries, faults: Faults, clock: nat, reference: string,
                                           generation: char, index: nat, count: nat)
    requires count <= MAX_CHUNKS
    ensures Confined(entries, Erasing(entries, faults, clock, reference, generation, index, count), reference, generation)
    decreases count - index
  {
    if index < count {
      var one := ErasingOne(entries, faults, clock, reference, generation, index);
      ErasingOneConfined(entries, faults, clock, reference, generation, index);
      ErasingConfined(one.entries, faults, one.clock, reference, generation, index + 1, count);
      ConfinedThen(entries, one, Erasing(one.entries, faults, one.clock, reference, generation, index + 1, count),
                   reference, generation);
    }
  }

  lemma AbandoningConfined(before: Entries, failed: Trace<()>, faults: Faults, reference: string, generation: char, count: nat)
    requires failed.result.Err? && Confined(before, failed, reference, generation) && count <= MAX_CHUNKS
    ensures Confined(before, Abandoning(failed, faults, reference, generation, count), reference, generation)
  {
    var erased := Erasing(failed.entries, faults, failed.clock, reference, generation, 0, count);
    ErasingConfined(failed.entries, faults, failed.clock, reference, generation, 0, count);
    ConfinedThen(before, failed, erased, reference, generation);
  }

  lemma WritingOneConfined(entries: Entries, faults: Faults, clock: nat, reference: string, secret: string,
                           generation: char, index: nat)
    requires ValidSecret(secret) && index < ChunkCount(secret)
    requires ChunksStored(entries, reference, generation, secret, index)
    ensures var t := WritingOne(entries, faults, clock, reference, secret, generation, index);
            && Confined(entries, t, reference, generation)
            && (t.result.Ok? ==> ChunksStored(t.entries, reference, generation, secret, index + 1))
  {
    if faults(clock) == NoFault {
      var key := ChunkReference(reference, generation, index);
      var written := Setting(entries, faults, clock + 1, key, Chunk(secret, index));
      SettingConfined(entries, faults, clock + 1, reference, generation, index, Chunk(secret, index));
      if written.result.Err? {
        AbandoningConfined(entries, written, faults, reference, generation, index);
      } else {
        ChunksStoredNext(entries, reference, generation, secret, index);
      }
    }
  }

  lemma {:induction false} WritingChunksConfined(entries: Entries, faults: Faults, clock: nat, reference: string,
                                                 secret: string, generation: char, index: nat)
    requires ValidSecret(secret) && index <= ChunkCount(secret)
    requires ChunksStored(entries, reference, generation, secret, index)
    ensures var t := WritingChunks(entries, faults, clock, reference, secret, generation, index);
            && Confined(entries, t, reference, generation)
            && (t.result.Ok? ==> t.result.value == ChunkCount(secret)
                                 && ChunksStored(t.entries, reference, generation, secret, ChunkCount(secret)))
    decreases ChunkCount(secret) - index
  {
    if index < ChunkCount(secret) {
      WritingOneConfined(entries, faults, clock, reference, secret, generation, index);
      var one := WritingOne(entries, faults, clock, reference, secret, generation, index);
      if one.result.Ok? {
        WritingChunksConfined(one.entries, faults, one.clock, reference, secret, generation, index + 1);
        ConfinedThen(entries, one, WritingChunks(one.entries, faults, one.clock, reference, secret, generation, index + 1),
                     reference, generation);
      }
    }
  }

  /** The secret is stored under this generation, manifest included. */
  ghost predicate StoredUnder(entries: Entries, reference: string, generation: char, secret: string) {
    && ChunksStored(entries, reference, generation, secret, ChunkCount(secret))
    && reference in entries && entries[reference] == Manifest(generation, ChunkCount(secret))
  }

  /** Success is a last write that puts the manifest in place; until then only chunks of this generation differ. */
  ghost predicate Published(before: Entries, t: Trace<nat>, reference: string, generation: char, secret: string) {
    && Ends(before, t) && t.writes != []
    && (forall i :: 0 <= i < |t.writes| - 1 ==> OnlyChunks(t.writes[i], before, reference, generation))
    && StoredUnder(t.entries, reference, generation, secret)
    && Untouched(t.entries, before, reference)
  }

  lemma WritingManifestPublishes(before: Entries, chunks: Trace<nat>, faults: Faults, reference: string, secret: string,
                                 generation: char)
    requires ValidSecret(secret) && IsGeneration(generation) && Confined(before, chunks, reference, generation)
    requires chunks.result == Ok(ChunkCount(secret))
    requires ChunksStored(chunks.entries, reference, generation, secret, ChunkCount(secret))
    ensures var t := Then(chunks.writes, WritingManifest(chunks.entries, faults, chunks.clock, reference, generation,
                                                          ChunkCount(secret)));
            if t.result.Ok? then Published(before, t, reference, generation, secret)
            else Confined(before, t, reference, generation)
  {
    var count := ChunkCount(secret);
    var manifest := WritingManifest(chunks.entries, faults, chunks.clock, reference, generation, count);
    if manifest.result.Ok? {
      WiderSame(chunks.entries, before, ChunkKeys(reference, generation), Keys(reference));
      ChangeInside(chunks.entries, reference, Manifest(generation, count), Keys(reference));
      ChunksStoredManifest(chunks.entries, reference, generation, secret, count);
      var all := chunks.writes + manifest.writes;
      assert forall i :: 0 <= i < |all| - 1 ==> all[i] == chunks.writes[i];
    } else if faults(chunks.clock) == NoFault {
      var failed := Setting(chunks.entries, faults, chunks.clock + 1, reference, Manifest(generation, count));
      assert Confined(chunks.entries, failed, reference, generation);
      AbandoningConfined(chunks.entries, failed, faults, reference, generation, count);
      ConfinedThen(before, chunks, manifest, reference, generation);
    } else {
      ConfinedThen(before, chunks, manifest, reference, generation);
    }
  }

  /** Either nothing but chunks of the written generation changed, or the secret is in place. */
  lemma WritingChunkedPublishes(entries: Entries, faults: Faults, clock: nat, reference: string, secret: string,
                                generation: char)
    requires ValidSecret(secret) && IsGeneration(generation)
    ensures var t := WritingChunked(entries, faults, clock, reference, secret, generation);
            if t.result.Ok? then Published(entries, t, reference, generation, secret)
            else Confined(entries, t, reference, generation)
  {
    WritingChunksConfined(entries, faults, clock, reference, secret, generation, 0);
    var chunks := WritingChunks(entries, faults, clock, reference, secret, generation, 0);
    if chunks.result.Ok? {
      WritingManifestPublishes(entries, chunks, faults, reference, secret, generation);
    }
  }

  // ---------------------------------------------------------------- atomicity

  /** The reference is as it was: present or absent, and loading the same. */
  ghost predicate SameAt(state: Entries, before: Entries, reference: string) {
    LoadOf(state, reference) == LoadOf(before, reference) && (reference in state <==> reference in before)
  }

  ghost predicate HoldsAt(state: Entries, reference: string, secret: string) {
    reference in state && LoadOf(state, reference) == Ok(secret)
  }

  ghost predicate AllUntouched<T>(before: Entries, t: Trace<T>, reference: string) {
    && Untouched(t.entries, before, reference)
    && forall i :: 0 <= i < |t.writes| ==> Untouched(t.writes[i], before, reference)
  }

  /** Every state on the way is the old one or the new one, and the result says which one is left. */
  ghost predicate Atomic<T>(before: Entries, t: Trace<T>, reference: string, secret: string) {
    && Ends(before, t)
    && (forall i :: 0 <= i < |t.writes| ==> SameAt(t.writes[i], before, reference) || HoldsAt(t.writes[i], reference, secret))
    && (if t.result.Ok? then HoldsAt(t.entries, reference, secret) else SameAt(t.entries, before, reference))
  }

  /** The generation named by the manifest, if any, is another one. */
  ghost predicate Idle(before: Entries, reference: string, generation: char) {
    Existing(before, reference).Some? ==> Existing(before, reference).value.0 != generation
  }

  lemma OnlyChunksSame(now: Entries, before: Entries, reference: string, generation: char)
    requires IsGeneration(generation) && OnlyChunks(now, before, reference, generation)
    ensures Untouched(now, before, reference) && (reference in now <==> reference in before)
    ensures Idle(before, reference, generation) ==> SameAt(now, before, reference)
  {
    IdleEntries(now, before, reference, generation);
    ReferenceIsNoChunk(reference, generation);
    SameOutside(now, before, ChunkKeys(reference, generation));
  }

  lemma ConfinedIsInvisible<T>(before: Entries, t: Trace<T>, reference: string, generation: char)
    requires IsGeneration(generation) && Confined(before, t, reference, generation)
    ensures AllUntouched(before, t, reference)
    ensures Idle(before, reference, generation) ==>
              SameAt(t.entries, before, reference) && forall i :: 0 <= i < |t.writes| ==> SameAt(t.writes[i], before, reference)
  {
    OnlyChunksSame(t.entries, before, reference, generation);
    forall i | 0 <= i < |t.writes|
      ensures Untouched(t.writes[i], before, reference)
      ensures Idle(before, reference, generation) ==> SameAt(t.writes[i], before, reference)
    {
      OnlyChunksSame(t.writes[i], before, reference, generation);
    }
  }

  lemma StoredUnderHolds(entries: Entries, reference: string, generation: char, secret: string)
    requires ValidSecret(secret) && IsGeneration(generation) && StoredUnder(entries, reference, generation, secret)
    ensures HoldsAt(entries, reference, secret) && Existing(entries, reference) == Some((generation, ChunkCount(secret)))
  {
    StoredSecretLoads(entries, reference, generation, secret);
    ManifestRoundTrip(generation, ChunkCount(secret));
  }

  /** Until the manifest is written nothing is visible, if the written generation is idle; then the secret is. */
  lemma PublishedIsAtomic(before: Entries, t: Trace<nat>, reference: string, generation: char, secret: string)
    requires ValidSecret(secret) && IsGeneration(generation) && Published(before, t, reference, generation, secret)
    requires t.result.Ok?
    ensures AllUntouched(before, t, reference) && HoldsAt(t.entries, reference, secret)
    ensures Idle(before, reference, generation) ==> Atomic(before, t, reference, secret)
  {
    StoredUnderHolds(t.entries, reference, generation, secret);
    forall i | 0 <= i < |t.writes| - 1
      ensures Untouched(t.writes[i], before, reference)
      ensures Idle(before, reference, generation) ==> SameAt(t.writes[i], before, reference)
    {
      OnlyChunksSame(t.writes[i], before, reference, generation);
    }
  }

  /** Dropping the other generation afterwards is invisible. */
  lemma CleanedIsAtomic(before: Entries, written: Trace<nat>, cleaned: Trace<()>, reference: string, generation: char,
                        previous: char, secret: string)
    requires ValidSecret(secret) && IsGeneration(generation) && IsGeneration(previous) && generation != previous
    requires Published(before, written, reference, generation, secret) && written.result.Ok?
    requires Confined(written.entries, cleaned, reference, previous) && cleaned.result.Ok?
    ensures var t := Then(written.writes, cleaned);
            && Ends(before, t) && AllUntouched(before, t, reference) && HoldsAt(t.entries, reference, secret)
            && (Idle(before, reference, generation) ==> Atomic(before, t, reference, secret))
  {
    PublishedIsAtomic(before, written, reference, generation, secret);
    StoredUnderHolds(written.entries, reference, generation, secret);
    ConfinedIsInvisible(written.entries, cleaned, reference, previous);
    var t := Then(written.writes, cleaned);
    forall i | 0 <= i < |t.writes|
      ensures Untouched(t.writes[i], before, reference)
      ensures Idle(before, reference, generation) ==>
                SameAt(t.writes[i], before, reference) || HoldsAt(t.writes[i], reference, secret)
    {
      if i < |written.writes| {
        assert t.writes[i] == written.writes[i];
      } else {
        assert t.writes[i] == cleaned.writes[i - |written.writes|];
      }
    }
  }

  lemma {:induction false} ErasingSucceeds(entries: Entries, faults: Faults, clock: nat, reference: string,
                                           generation: char, index: nat, count: nat)
    ensures Erasing(entries, faults, clock, reference, generation, index, count).result == Ok(())
    decreases count - index
  {
    if index < count {
      var one := ErasingOne(entries, faults, clock, reference, generation, index);
      ErasingSucceeds(one.entries, faults, one.clock, reference, generation, index + 1, count);
    }
  }

  /** Storing over a manifest that was read correctly, or whose generation is not overwritten, is atomic. */
  lemma StoringIsAtomic(entries: Entries, faults: Faults, clock: nat, reference: string, secret: string,
                        existing: Option<(char, nat)>)
    requires ValidSecret(secret) && (existing.Some? ==> existing == Existing(entries, reference))
    ensures var t := Storing(entries, faults, clock, reference, secret, existing);
            && Ends(entries, t) && AllUntouched(entries, t, reference)
            && (t.result.Ok? ==> HoldsAt(t.entries, reference, secret))
            && (Idle(entries, reference, NextGeneration(existing)) ==> Atomic(entries, t, reference, secret))
  {
    var generation := NextGeneration(existing);
    var written := WritingChunked(entries, faults, clock, reference, secret, generation);
    WritingChunkedPublishes(entries, faults, clock, reference, secret, generation);
    if written.result.Err? {
      ConfinedIsInvisible(entries, written, reference, generation);
    } else {
      PublishedIsAtomic(entries, written, reference, generation, secret);
      if existing.Some? {
        var (previous, count) := existing.value;
        ErasingConfined(written.entries, faults, written.clock, reference, previous, 0, count);
        ErasingSucceeds(written.entries, faults, written.clock, reference, previous, 0, count);
        var cleaned := Erasing(written.entries, faults, written.clock, reference, previous, 0, count);
        CleanedIsAtomic(entries, written, cleaned, reference, generation, previous, secret);
      }
    }
  }

  /** Replacing is all or nothing at every single keyring write, under every fault schedule. */
  lemma ReplacingIsAtomic(entries: Entries, faults: Faults, clock: nat, reference: string, secret: string)
    ensures var t := Replacing(entries, faults, clock, reference, secret);
            && Atomic(entries, t, reference, secret) && AllUntouched(entries, t, reference)
            && (t.result.Ok? ==> ValidSecret(secret) && reference in entries)
  {
    var t := Replacing(entries, faults, clock, reference, secret);
    if ValidSecret(secret) && faults(clock) == NoFault && faults(clock + 1) == NoFault && reference in entries
       && ParseManifest(entries[reference]).Ok? {
      StoringIsAtomic(entries, faults, clock + 2, reference, secret, Existing(entries, reference));
    }
  }

  /** The first read of a save succeeds, or what it would have found is not overwritten. */
  ghost predicate SafeToSave(entries: Entries, reference: string, firstRead: Fault) {
    firstRead == NoFault || Existing(entries, reference).None? || Existing(entries, reference).value.0 == 'b'
  }

  /** A save that succeeds loads back; it is all or nothing at every write when it is safe. */
  lemma SavingIsAtomic(entries: Entries, faults: Faults, clock: nat, value: string, secret: string)
    requires ValidSecret(secret) && NewReference(value).Ok?
    ensures var reference := NewReference(value).value;
            var t := Saving(entries, faults, clock, value, secret);
            && Ends(entries, t) && AllUntouched(entries, t, reference)
            && (t.result.Ok? ==> t.result.value == reference && HoldsAt(t.entries, reference, secret))
            && (SafeToSave(entries, reference, faults(clock + 1)) ==> Atomic(entries, t, reference, secret))
  {
    var reference := NewReference(value).value;
    if faults(clock) == NoFault {
      StoringIsAtomic(entries, faults, clock + 2, reference, secret, ReadLeniently(entries, faults, clock + 1, reference));
    }
  }

  /** Every state of a deletion is the old one or one without an entry. */
  ghost predicate Vanishes<T>(before: Entries, t: Trace<T>, reference: string) {
    && Ends(before, t)
    && (forall i :: 0 <= i < |t.writes| ==> reference !in t.writes[i])
    && (if t.result.Ok? then reference !in t.entries else t.entries == before && t.writes == [])
  }

  lemma DeletingVanishes(entries: Entries, faults: Faults, clock: nat, reference: string)
    ensures var t := Deleting(entries, faults, clock, reference);
            Vanishes(entries, t, reference) && AllUntouched(entries, t, reference)
  {
    if faults(clock) == NoFault {
      var existing := ReadLeniently(entries, faults, clock + 1, reference);
      var removed := Removing(entries, faults, clock + 2, reference);
      ChangeInside(entries, reference, "", Keys(reference));
      if existing.Some? && (removed.result.Ok? || removed.result.error == MissingEntry) {
        var (generation, count) := existing.value;
        var cleaned := Erasing(removed.entries, faults, removed.clock, reference, generation, 0, count);
        ErasingConfined(removed.entries, faults, removed.clock, reference, generation, 0, count);
        ErasingSucceeds(removed.entries, faults, removed.clock, reference, generation, 0, count);
        ConfinedIsInvisible(removed.entries, cleaned, reference, generation);
        CleanedVanishes(entries, removed, cleaned, reference, generation);
      }
    }
  }

  lemma CleanedVanishes(entries: Entries, removed: Trace<()>, cleaned: Trace<()>, reference: string, generation: char)
    requires IsGeneration(generation) && Confined(removed.entries, cleaned, reference, generation) && cleaned.result.Ok?
    requires reference !in removed.entries && Ends(entries, removed) && AllUntouched(entries, removed, reference)
    requires forall i :: 0 <= i < |removed.writes| ==> reference !in removed.writes[i]
    ensures var t := Then(removed.writes, cleaned); Vanishes(entries, t, reference) && AllUntouched(entries, t, reference)
  {
    var t := Then(removed.writes, cleaned);
    OnlyChunksSame(t.entries, removed.entries, reference, generation);
    forall i | 0 <= i < |t.writes|
      ensures reference !in t.writes[i] && Untouched(t.writes[i], entries, reference)
    {
      if i < |removed.writes| {
        assert t.writes[i] == removed.writes[i];
      } else {
        assert t.writes[i] == cleaned.writes[i - |removed.writes|];
        OnlyChunksSame(t.writes[i], removed.entries, reference, generation);
      }
    }
  }

  // ---------------------------------------------------------------- without faults

  ghost predicate Quiet(faults: Faults) {
    forall n: nat :: faults(n) == NoFault
  }

  lemma {:induction false} WritingChunksSucceeds(entries: Entries, faults: Faults, clock: nat, reference: string,
                                                 secret: string, generation: char, index: nat)
    requires Quiet(faults) && index <= ChunkCount(secret)
    ensures WritingChunks(entries, faults, clock, reference, secret, generation, index).result == Ok(ChunkCount(secret))
    decreases ChunkCount(secret) - index
  {
    if index < ChunkCount(secret) {
      var one := WritingOne(entries, faults, clock, reference, secret, generation, index);
      WritingChunksSucceeds(one.entries, faults, one.clock, reference, secret, generation, index + 1);
    }
  }

  lemma StoringSucceeds(entries: Entries, faults: Faults, clock: nat, reference: string, secret: string,
                        existing: Option<(char, nat)>)
    requires Quiet(faults)
    ensures Storing(entries, faults, clock, reference, secret, existing).result.Ok?
  {
    var generation := NextGeneration(existing);
    WritingChunksSucceeds(entries, faults, clock, reference, secret, generation, 0);
    var written := WritingChunked(entries, faults, clock, reference, secret, generation);
    if existing.Some? {
      ErasingSucceeds(written.entries, faults, written.clock, reference, existing.value.0, 0, existing.value.1);
    }
  }

  /** Without faults a valid secret is saved, and replaces any that loads; and a deletion succeeds. */
  lemma QuietSucceeds(entries: Entries, faults: Faults, clock: nat, reference: string, secret: string)
    requires Quiet(faults)
    ensures ValidSecret(secret) && NewReference(reference).Ok? ==> Saving(entries, faults, clock, reference, secret).result.Ok?
    ensures ValidSecret(secret) && LoadOf(entries, reference).Ok? ==> Replacing(entries, faults, clock, reference, secret).result.Ok?
    ensures Deleting(entries, faults, clock, reference).result.Ok?
  {
    if ValidSecret(secret) && LoadOf(entries, reference).Ok? {
      StoringSucceeds(entries, faults, clock + 2, reference, secret, ParseManifest(entries[reference]).value);
    }
    if ValidSecret(secret) && NewReference(reference).Ok? {
      var stored := NewReference(reference).value;
      StoringSucceeds(entries, faults, clock + 2, stored, secret, ReadLeniently(entries, faults, clock + 1, stored));
    }
    var existing := ReadLeniently(entries, faults, clock + 1, reference);
    var removed := Removing(entries, faults, clock + 2, reference);
    if existing.Some? {
      ErasingSucceeds(removed.entries, faults, removed.clock, reference, existing.value.0, 0, existing.value.1);
    }
  }

  // ---------------------------------------------------------------- an unsafe save

  /** The first read fails, the first chunk is written, the next write fails, and the cleanup succeeds. */
  ghost predicate Lossy(faults: Faults, clock: nat) {
    && faults(clock) == NoFault && faults(clock + 1) != NoFault
    && faults(clock + 2) == NoFault && faults(clock + 3) == NoFault && faults(clock + 4) == NoFault
    && faults(clock + 5) != NoFault && faults(clock + 6) == NoFault && faults(clock + 7) == NoFault
  }

  lemma ErasingFirst(entries: Entries, faults: Faults, clock: nat, reference: string, generation: char)
    requires faults(clock) == NoFault && faults(clock + 1) == NoFault
    requires ChunkReference(reference, generation, 0) in entries
    ensures Erasing(entries, faults, clock, reference, generation, 0, 1).entries
         == entries - {ChunkReference(reference, generation, 0)}
  {
    var one := ErasingOne(entries, faults, clock, reference, generation, 0);
    assert Erasing(one.entries, faults, one.clock, reference, generation, 1, 1).entries == one.entries;
  }

  lemma LossyWriting(entries: Entries, faults: Faults, clock: nat, reference: string, secret: string, generation: char)
    requires ValidSecret(secret)
    requires faults(clock) == NoFault && faults(clock + 1) == NoFault && faults(clock + 2) == NoFault
    requires faults(clock + 3) != NoFault && faults(clock + 4) == NoFault && faults(clock + 5) == NoFault
    ensures var t := WritingChunked(entries, faults, clock, reference, secret, generation);
            t.result.Err? && t.entries == entries - {ChunkReference(reference, generation, 0)}
  {
    var key := ChunkReference(reference, generation, 0);
    var first := entries[key := Chunk(secret, 0)];
    var rest := WritingChunks(first, faults, clock + 2, reference, secret, generation, 1);
    assert WritingChunks(entries, faults, clock, reference, secret, generation, 0) == Then([first], rest);
    ErasingFirst(first, faults, clock + 4, reference, generation);
    assert first - {key} == entries - {key};
  }

  lemma FirstChunkMissing(entries: Entries, reference: string, generation: char, count: nat)
    requires 0 < count && ChunkReference(reference, generation, 0) !in entries
    ensures Assemble(entries, reference, generation, count) == Err(MissingEntry)
  {
    assert Assemble(entries, reference, generation, 0) == Ok("");
    assert Assemble(entries, reference, generation, 1) == Err(MissingEntry);
    AssembleMissing(entries, reference, generation, 1, count);
  }

  /** An unsafe save can end with an error and without either secret: the live first chunk is gone. */
  lemma UnsafeSaveLosesSecret(entries: Entries, faults: Faults, clock: nat, reference: string, secret: string)
    requires ValidSecret(secret) && NewReference(reference) == Ok(reference)
    requires Existing(entries, reference).Some? && Existing(entries, reference).value.0 == 'a' && Lossy(faults, clock)
    ensures var t := Saving(entries, faults, clock, reference, secret);
            t.result.Err? && LoadOf(t.entries, reference) == Err(MissingEntry)
  {
    LossyWriting(entries, faults, clock + 2, reference, secret, 'a');
    var t := Saving(entries, faults, clock, reference, secret);
    var key := ChunkReference(reference, 'a', 0);
    assert t.entries == entries - {key};
    assert key != reference by {
      assert |key| > |reference|;
    }
    FirstChunkMissing(t.entries, reference, 'a', Existing(entries, reference).value.1);
  }

  /**
   For entries that load a secret: saving another one is all or nothing under every schedule of the other
   calls if and only if the first read succeeds, there is no manifest, or the live generation is `b`.
   */
  lemma SaveAtomicIff(entries: Entries, clock: nat, reference: string, secret: string, firstRead: Fault)
    requires ValidSecret(secret) && NewReference(reference) == Ok(reference) && LoadOf(entries, reference).Ok?
    ensures (forall faults: Faults :: faults(clock + 1) == firstRead ==>
               Atomic(entries, Saving(entries, faults, clock, reference, secret), reference, secret))
       <==> SafeToSave(entries, reference, firstRead)
  {
    if SafeToSave(entries, reference, firstRead) {
      forall faults: Faults | faults(clock + 1) == firstRead
        ensures Atomic(entries, Saving(entries, faults, clock, reference, secret), reference, secret)
      {
        SavingIsAtomic(entries, faults, clock, reference, secret);
      }
    } else {
      var faults: Faults := n => if n == clock + 1 then firstRead else if n == clock + 5 then OtherFault else NoFault;
      UnsafeSaveLosesSecret(entries, faults, clock, reference, secret);
      assert !Atomic(entries, Saving(entries, faults, clock, reference, secret), reference, secret);
    }
  }

  /** Everything stops after the first chunk of an unsafe save has been written. */
  ghost predicate StopsAfterFirstChunk(faults: Faults, clock: nat) {
    && faults(clock) == NoFault && faults(clock + 1) != NoFault
    && faults(clock + 2) == NoFault && faults(clock + 3) == NoFault && faults(clock + 4) != NoFault
  }

  /**
   Stopped there, a load gives the new first chunk followed by the old rest. For secrets of a full chunk or
   more that is the old secret exactly when the first chunks agree, and the new one exactly when the rests do.
   */
  lemma UnsafeSaveMixes(entries: Entries, faults: Faults, clock: nat, reference: string, stored: string, secret: string)
    requires ValidSecret(stored) && ValidSecret(secret) && NewReference(reference) == Ok(reference)
    requires StoredUnder(entries, reference, 'a', stored) && StopsAfterFirstChunk(faults, clock)
    ensures var t := Saving(entries, faults, clock, reference, secret);
            var mixed := Chunk(secret, 0) + stored[Min(KEYRING_CHUNK_BYTES, |stored|)..];
            && t.result.Err? && LoadOf(t.entries, reference) == Ok(mixed)
            && (|stored| >= KEYRING_CHUNK_BYTES && |secret| >= KEYRING_CHUNK_BYTES ==>
                  && (mixed == stored <==> Chunk(secret, 0) == Chunk(stored, 0))
                  && (mixed == secret <==> stored[KEYRING_CHUNK_BYTES..] == secret[KEYRING_CHUNK_BYTES..]))
  {
    StoredUnderHolds(entries, reference, 'a', stored);
    var key := ChunkReference(reference, 'a', 0);
    var first := entries[key := Chunk(secret, 0)];
    var rest := WritingChunks(first, faults, clock + 4, reference, secret, 'a', 1);
    assert WritingChunks(entries, faults, clock + 2, reference, secret, 'a', 0) == Then([first], rest);
    LiveGenerationMixes(entries, reference, 'a', stored, secret);
  }

  // ---------------------------------------------------------------- the map that callers see

  /** The secrets of a family of references: an entry is a manifest key, its value is what a load returns. */
  function View(entries: Entries, family: set<string>): (m: map<string, Result<string>>) {
    map r | r in family && r in entries :: LoadOf(entries, r)
  }

  /** No two references of the family share a keyring key. */
  ghost predicate Disjoint(family: set<string>) {
    forall r, q :: r in family && q in family && r != q ==> Keys(r) !! Keys(q)
  }

  lemma ViewUntouched(state: Entries, before: Entries, family: set<string>, reference: string)
    requires Disjoint(family) && reference in family && Untouched(state, before, reference)
    ensures View(state, family) - {reference} == View(before, family) - {reference}
  {
    SameOutside(state, before, Keys(reference));
    forall r | r in family && r != reference
      ensures (r in state <==> r in before) && LoadOf(state, r) == LoadOf(before, r)
    {
      assert r in Keys(r) && r !in Keys(reference);
      UntouchedLoads(state, before, reference, r);
    }
  }

  lemma ViewSame(state: Entries, before: Entries, family: set<string>, reference: string)
    requires Disjoint(family) && reference in family && Untouched(state, before, reference) && SameAt(state, before, reference)
    ensures View(state, family) == View(before, family)
  {
    ViewUntouched(state, before, family, reference);
    MapsAgree(View(state, family), View(before, family), reference);
  }

  lemma ViewHolds(state: Entries, before: Entries, family: set<string>, reference: string, secret: string)
    requires Disjoint(family) && reference in family && Untouched(state, before, reference) && HoldsAt(state, reference, secret)
    ensures View(state, family) == View(before, family)[reference := Ok(secret)]
  {
    ViewUntouched(state, before, family, reference);
    var updated := View(before, family)[reference := Ok(secret)];
    assert updated - {reference} == View(before, family) - {reference};
    MapsAgree(View(state, family), updated, reference);
  }

  lemma MapsAgree<K, V>(a: map<K, V>, b: map<K, V>, k: K)
    requires a - {k} == b - {k} && (k in a <==> k in b) && (k in a ==> a[k] == b[k])
    ensures a == b
  {
    forall j ensures (j in a <==> j in b) && (j in a ==> a[j] == b[j]) {
      if j != k {
        assert j in a <==> j in a - {k};
        assert j in b <==> j in b - {k};
        assert j in a ==> a[j] == (a - {k})[j];
        assert j in b ==> b[j] == (b - {k})[j];
      }
    }
  }

  /** Each state of a stretch, as the callers of a family see it, is one of two maps. */
  ghost predicate StepsBetween<T>(t: Trace<T>, family: set<string>, before: map<string, Result<string>>,
                                  after: map<string, Result<string>>) {
    && (forall i :: 0 <= i < |t.writes| ==> View(t.writes[i], family) == before || View(t.writes[i], family) == after)
    && View(t.entries, family) == if t.result.Ok? then after else before
  }

  lemma AtomicIsMapStep<T>(before: Entries, t: Trace<T>, family: set<string>, reference: string, secret: string)
    requires Disjoint(family) && reference in family
    requires Atomic(before, t, reference, secret) && AllUntouched(before, t, reference)
    ensures StepsBetween(t, family, View(before, family), View(before, family)[reference := Ok(secret)])
  {
    forall i | 0 <= i < |t.writes|
      ensures || View(t.writes[i], family) == View(before, family)
              || View(t.writes[i], family) == View(before, family)[reference := Ok(secret)]
    {
      if SameAt(t.writes[i], before, reference) {
        ViewSame(t.writes[i], before, family, reference);
      } else {
        ViewHolds(t.writes[i], before, family, reference, secret);
      }
    }
    if t.result.Ok? {
      ViewHolds(t.entries, before, family, reference, secret);
    } else {
      ViewSame(t.entries, before, family, reference);
    }
  }

  /** Over disjoint references, replacing one, stopped at any write, is an update of the map or nothing. */
  lemma ReplaceRefinesMap(entries: Entries, faults: Faults, clock: nat, family: set<string>, reference: string, secret: string)
    requires Disjoint(family) && reference in family
    ensures StepsBetween(Replacing(entries, faults, clock, reference, secret), family,
                         View(entries, family), View(entries, family)[reference := Ok(secret)])
    ensures Ends(entries, Replacing(entries, faults, clock, reference, secret))
    ensures Replacing(entries, faults, clock, reference, secret).result.Ok? ==> ValidSecret(secret) && reference in entries
  {
    ReplacingIsAtomic(entries, faults, clock, reference, secret);
    AtomicIsMapStep(entries, Replacing(entries, faults, clock, reference, secret), family, reference, secret);
  }

  /** A safe save, stopped at any write, is an update of the map or nothing. */
  lemma SafeSaveRefinesMap(entries: Entries, faults: Faults, clock: nat, family: set<string>, reference: string, secret: string)
    requires Disjoint(family) && reference in family && NewReference(reference) == Ok(reference) && ValidSecret(secret)
    requires SafeToSave(entries, reference, faults(clock + 1))
    ensures StepsBetween(Saving(entries, faults, clock, reference, secret), family,
                         View(entries, family), View(entries, family)[reference := Ok(secret)])
  {
    SavingIsAtomic(entries, faults, clock, reference, secret);
    AtomicIsMapStep(entries, Saving(entries, faults, clock, reference, secret), family, reference, secret);
  }

  /** Any save, stopped at any write, changes the map at its own reference only; success is an update. */
  lemma SaveRefinesMap(entries: Entries, faults: Faults, clock: nat, family: set<string>, reference: string, secret: string)
    requires Disjoint(family) && reference in family && NewReference(reference) == Ok(reference)
    ensures var t := Saving(entries, faults, clock, reference, secret);
            && Ends(entries, t)
            && (forall i :: 0 <= i < |t.writes| ==>
                  View(t.writes[i], family) - {reference} == View(entries, family) - {reference})
            && View(t.entries, family) - {reference} == View(entries, family) - {reference}
            && (t.result.Ok? ==> t.result.value == reference
                                 && View(t.entries, family) == View(entries, family)[reference := Ok(secret)])
  {
    var t := Saving(entries, faults, clock, reference, secret);
    if ValidSecret(secret) {
      SavingIsAtomic(entries, faults, clock, reference, secret);
      forall i | 0 <= i < |t.writes|
        ensures View(t.writes[i], family) - {reference} == View(entries, family) - {reference}
      {
        ViewUntouched(t.writes[i], entries, family, reference);
      }
      ViewUntouched(t.entries, entries, family, reference);
      if t.result.Ok? {
        ViewHolds(t.entries, entries, family, reference, secret);
      }
    }
  }

  /** Deleting one, stopped at any write, is a removal from the map or nothing. */
  lemma DeleteRefinesMap(entries: Entries, faults: Faults, clock: nat, family: set<string>, reference: string)
    requires Disjoint(family) && reference in family
    ensures StepsBetween(Deleting(entries, faults, clock, reference), family,
                         View(entries, family), View(entries, family) - {reference})
    ensures Ends(entries, Deleting(entries, faults, clock, reference))
  {
    var t := Deleting(entries, faults, clock, reference);
    DeletingVanishes(entries, faults, clock, reference);
    forall i | 0 <= i < |t.writes| ensures View(t.writes[i], family) == View(entries, family) - {reference} {
      ViewGone(t.writes[i], entries, family, reference);
    }
    if t.result.Ok? {
      ViewGone(t.entries, entries, family, reference);
    }
  }

  lemma ViewGone(state: Entries, before: Entries, family: set<string>, reference: string)
    requires Disjoint(family) && reference in family && Untouched(state, before, reference) && reference !in state
    ensures View(state, family) == View(before, family) - {reference}
  {
    ViewUntouched(state, before, family, reference);
    assert View(state, family) - {reference} == View(state, family);
  }
}
