/** The platform keyring and the chunked vault over it, each call following its trace. */
module OsKeyring {
  import opened Text
  import opened Vault
  import opened VaultRuns
  import VaultKeys

  lemma Appended<T>(before: seq<T>, first: seq<T>, second: seq<T>)
    ensures (before + first) + second == before + (first + second)
  {
  }

  /** `faults` decides the n-th call; `history` holds the stored entries after every single write. */
  class Keyring {
    var entries: Entries
    var clock: nat
    const faults: Faults
    ghost var history: seq<Entries>

    constructor (entries: Entries, faults: Faults)
      ensures this.entries == entries && this.faults == faults && clock == 0 && history == [entries]
    {
      this.entries := entries;
      this.faults := faults;
      this.clock := 0;
      this.history := [entries];
    }

    method Tick() returns (fault: Fault)
      modifies this`clock
      ensures clock == old(clock) + 1 && fault == faults(old(clock))
    {
      fault := faults(clock);
      clock := clock + 1;
    }

    method Open(key: string) returns (r: Result<()>)
      modifies this`clock
      ensures clock == old(clock) + 1
      ensures r == if faults(old(clock)) == NoFault then Ok(()) else Err(MapFault(faults(old(clock))))
    {
      var fault := Tick();
      r := if fault == NoFault then Ok(()) else Err(MapFault(fault));
    }

    method Get(key: string) returns (r: Result<string>)
      modifies this`clock
      ensures clock == old(clock) + 1
      ensures r == if faults(old(clock)) != NoFault then Err(MapFault(faults(old(clock))))
                   else if key in entries then Ok(entries[key]) else Err(MissingEntry)
    {
      var fault := Tick();
      if fault != NoFault {
        r := Err(MapFault(fault));
      } else {
        r := if key in entries then Ok(entries[key]) else Err(MissingEntry);
      }
    }

    method Set(key: string, value: string) returns (r: Result<()>)
      modifies this
      ensures var t := Setting(old(entries), faults, old(clock), key, value);
              r == t.result && entries == t.entries && clock == t.clock && history == old(history) + t.writes
    {
      var fault := Tick();
      if fault == NoFault {
        entries := entries[key := value];
        history := history + [entries];
        r := Ok(());
      } else {
        r := Err(MapFault(fault));
      }
    }

    method Delete(key: string) returns (r: Result<()>)
      modifies this
      ensures var t := Removing(old(entries), faults, old(clock), key);
              r == t.result && entries == t.entries && clock == t.clock && history == old(history) + t.writes
    {
      var fault := Tick();
      if fault != NoFault {
        r := Err(MapFault(fault));
      } else if key in entries {
        entries := entries - {key};
        history := history + [entries];
        r := Ok(());
      } else {
        r := Err(MissingEntry);
      }
    }
  }

  class KeyringVault {
    const keyring: Keyring

    constructor (keyring: Keyring)
      ensures this.keyring == keyring
    {
      this.keyring := keyring;
    }

    /** The keyring has gone through the writes of a trace, after these, and is where the trace ends. */
    ghost predicate Followed<T>(before: seq<Entries>, t: Trace<T>)
      reads this, keyring
    {
      keyring.entries == t.entries && keyring.clock == t.clock && keyring.history == before + t.writes
    }

    method DeleteChunk(reference: string, generation: char, index: nat)
      modifies keyring
      ensures Followed(old(keyring.history),
                       ErasingOne(old(keyring.entries), keyring.faults, old(keyring.clock), reference, generation, index))
    {
      var chunk := ChunkReference(reference, generation, index);
      var entry := keyring.Open(chunk);
      if entry.Ok? {
        var _ := keyring.Delete(chunk);
      }
    }

    method DeleteGeneration(reference: string, generation: char, count: nat)
      modifies keyring
      ensures Followed(old(keyring.history),
                       Erasing(old(keyring.entries), keyring.faults, old(keyring.clock), reference, generation, 0, count))
    {
      ghost var all := Erasing(keyring.entries, keyring.faults, keyring.clock, reference, generation, 0, count);
      ghost var done: seq<Entries> := [];
      for index := 0 to count
        invariant keyring.history == old(keyring.history) + done
        invariant all == Then(done, Erasing(keyring.entries, keyring.faults, keyring.clock, reference, generation, index, count))
      {
        ghost var one := ErasingOne(keyring.entries, keyring.faults, keyring.clock, reference, generation, index);
        ErasingStep(all, done, keyring.entries, keyring.faults, keyring.clock, reference, generation, index, count);
        DeleteChunk(reference, generation, index);
        done := done + one.writes;
      }
    }

    method WriteChunk(reference: string, secret: string, generation: char, index: nat) returns (r: Result<nat>)
      requires index < ChunkCount(secret)
      modifies keyring
      ensures var t := WritingOne(old(keyring.entries), keyring.faults, old(keyring.clock), reference, secret, generation, index);
              Followed(old(keyring.history), t) && r == t.result
    {
      var key := ChunkReference(reference, generation, index);
      var entry := keyring.Open(key);
      if entry.Err? {
        return Err(entry.error);
      }
      var written := keyring.Set(key, Chunk(secret, index));
      if written.Err? {
        DeleteGeneration(reference, generation, index);
        return Err(written.error);
      }
      r := Ok(index + 1);
    }

    method WriteChunks(reference: string, secret: string, generation: char) returns (r: Result<nat>)
      modifies keyring
      ensures var t := WritingChunks(old(keyring.entries), keyring.faults, old(keyring.clock), reference, secret, generation, 0);
              Followed(old(keyring.history), t) && r == t.result
    {
      var count := ChunkCount(secret);
      ghost var all := WritingChunks(keyring.entries, keyring.faults, keyring.clock, reference, secret, generation, 0);
      ghost var done: seq<Entries> := [];
      for index := 0 to count
        invariant keyring.history == old(keyring.history) + done
        invariant all == Then(done, WritingChunks(keyring.entries, keyring.faults, keyring.clock, reference, secret,
                                                  generation, index))
      {
        ghost var one := WritingOne(keyring.entries, keyring.faults, keyring.clock, reference, secret, generation, index);
        WritingStep(all, done, keyring.entries, keyring.faults, keyring.clock, reference, secret, generation, index);
        var written := WriteChunk(reference, secret, generation, index);
        if written.Err? {
          assert Followed(old(keyring.history), all) by {
            Appended(old(keyring.history), done, one.writes);
          }
          return written;
        }
        done := done + one.writes;
      }
      assert Followed(old(keyring.history), all) by {
        assert done + [] == done;
      }
      r := Ok(count);
    }

    /** The manifest goes last; a failed write erases the chunks. */
    method WriteManifest(reference: string, generation: char, count: nat) returns (r: Result<nat>)
      modifies keyring
      ensures var t := WritingManifest(old(keyring.entries), keyring.faults, old(keyring.clock), reference, generation, count);
              Followed(old(keyring.history), t) && r == t.result
    {
      var entry := keyring.Open(reference);
      if entry.Err? {
        return Err(entry.error);
      }
      var written := keyring.Set(reference, Manifest(generation, count));
      if written.Err? {
        DeleteGeneration(reference, generation, count);
        return Err(written.error);
      }
      r := Ok(count);
    }

    method WriteChunked(reference: string, secret: string, generation: char) returns (r: Result<nat>)
      modifies keyring
      ensures var t := WritingChunked(old(keyring.entries), keyring.faults, old(keyring.clock), reference, secret, generation);
              Followed(old(keyring.history), t) && r == t.result
    {
      ghost var first := WritingChunks(keyring.entries, keyring.faults, keyring.clock, reference, secret, generation, 0);
      var chunks := WriteChunks(reference, secret, generation);
      if chunks.Err? {
        return chunks;
      }
      ghost var last := WritingManifest(keyring.entries, keyring.faults, keyring.clock, reference, generation, chunks.value);
      r := WriteManifest(reference, generation, chunks.value);
      Appended(old(keyring.history), first.writes, last.writes);
    }

    /** The common tail of `save` and `replace`: write the other generation, then drop the old one. */
    method Store(reference: string, secret: string, existing: Option<(char, nat)>) returns (r: Result<()>)
      modifies keyring
      ensures var t := Storing(old(keyring.entries), keyring.faults, old(keyring.clock), reference, secret, existing);
              Followed(old(keyring.history), t) && r == t.result
    {
      ghost var first := WritingChunked(keyring.entries, keyring.faults, keyring.clock, reference, secret,
                                        NextGeneration(existing));
      var written := WriteChunked(reference, secret, NextGeneration(existing));
      if written.Err? {
        return Err(written.error);
      }
      if existing.Some? {
        ghost var erased := Erasing(keyring.entries, keyring.faults, keyring.clock, reference, existing.value.0, 0,
                                    existing.value.1);
        ErasingSucceeds(keyring.entries, keyring.faults, keyring.clock, reference, existing.value.0, 0, existing.value.1);
        DeleteGeneration(reference, existing.value.0, existing.value.1);
        Appended(old(keyring.history), first.writes, erased.writes);
      }
      r := Ok(());
    }

    /** Every state written since, and the current one, is the old or the new one, as the result says. */
    twostate predicate AtomicSince(reference: string, secret: string, ok: bool)
      reads this, keyring
    {
      && old(keyring.history) <= keyring.history
      && (forall i :: |old(keyring.history)| <= i < |keyring.history| ==>
            SameAt(keyring.history[i], old(keyring.entries), reference) || HoldsAt(keyring.history[i], reference, secret))
      && (if ok then HoldsAt(keyring.entries, reference, secret) else SameAt(keyring.entries, old(keyring.entries), reference))
    }

    /** The first readable manifest decides the generation; a failed read decides for generation `a`. */
    method ReadExisting(reference: string) returns (existing: Option<(char, nat)>)
      modifies keyring`clock
      ensures keyring.clock == old(keyring.clock) + 1
      ensures existing == ReadLeniently(keyring.entries, keyring.faults, old(keyring.clock), reference)
    {
      var current := keyring.Get(reference);
      existing := None;
      if current.Ok? {
        var manifest := ParseManifest(current.value);
        if manifest.Ok? {
          existing := manifest.value;
        }
      }
    }

    method SaveUnder(reference: string, secret: string) returns (r: Result<()>)
      modifies keyring
      ensures var t := SavingUnder(old(keyring.entries), keyring.faults, old(keyring.clock), reference, secret);
              Followed(old(keyring.history), t) && r == t.result
    {
      var entry := keyring.Open(reference);
      if entry.Err? {
        return Err(entry.error);
      }
      var existing := ReadExisting(reference);
      assert SavingUnder(old(keyring.entries), keyring.faults, old(keyring.clock), reference, secret)
          == Storing(keyring.entries, keyring.faults, keyring.clock, reference, secret, existing);
      r := Store(reference, secret, existing);
    }

    /** The checks of a save, and the save. */
    method SaveChecked(reference: string, secret: string) returns (r: Result<string>)
      modifies keyring
      ensures var t := Saving(old(keyring.entries), keyring.faults, old(keyring.clock), reference, secret);
              Followed(old(keyring.history), t) && r == t.result
    {
      var stored := NewReference(reference);
      if !ValidSecret(secret) || stored.Err? {
        return Err(InvalidSecret);
      }
      var saved := SaveUnder(stored.value, secret);
      r := if saved.Ok? then stored else Err(saved.error);
    }

    /**
     Stores a secret. Once it reports success the secret loads back exactly, and of the old one only chunks that
     could not be deleted are left. Every state on the way is the old or the new one, unless the first read failed
     and the live generation is `a`.
     */
    method Save(reference: string, secret: string) returns (r: Result<string>)
      modifies keyring
      ensures var t := Saving(old(keyring.entries), keyring.faults, old(keyring.clock), reference, secret);
              Followed(old(keyring.history), t) && r == t.result
      ensures r.Ok? ==> NewReference(reference) == r && HoldsAt(keyring.entries, r.value, secret)
      ensures ValidSecret(secret) && NewReference(reference).Ok?
              && SafeToSave(old(keyring.entries), NewReference(reference).value, keyring.faults(old(keyring.clock) + 1)) ==>
                AtomicSince(NewReference(reference).value, secret, r.Ok?)
      ensures r.Ok? ==>
                VaultKeys.SavedAs(old(keyring.entries), keyring.entries, keyring.faults, old(keyring.clock), reference, secret)
    {
      if ValidSecret(secret) && NewReference(reference).Ok? {
        SavingIsAtomic(keyring.entries, keyring.faults, keyring.clock, reference, secret);
      }
      r := SaveChecked(reference, secret);
      if r.Ok? {
        VaultKeys.SaveLeaves(old(keyring.entries), keyring.faults, old(keyring.clock), reference, secret);
      }
    }

    /** Loads a secret: a success is exactly what the entries hold, and without faults so is a failure. */
    method Load(reference: string) returns (r: Result<string>)
      modifies keyring`clock
      ensures r.Ok? ==> r == LoadOf(keyring.entries, reference)
      ensures (forall n: nat :: keyring.faults(n) == NoFault) ==> r == LoadOf(keyring.entries, reference)
    {
      var entry := keyring.Open(reference);
      if entry.Err? {
        return Err(entry.error);
      }
      var secret := keyring.Get(reference);
      if secret.Err? {
        return secret;
      }
      var manifest := ParseManifest(secret.value);
      if manifest.Err? {
        return Err(manifest.error);
      }
      if manifest.value.None? {
        return secret;
      }
      var (generation, count) := manifest.value.value;
      var assembled := "";
      for index := 0 to count
        invariant Assemble(keyring.entries, reference, generation, index) == Ok(assembled)
      {
        var key := ChunkReference(reference, generation, index);
        var chunkEntry := keyring.Open(key);
        if chunkEntry.Err? {
          return Err(chunkEntry.error);
        }
        var chunk := keyring.Get(key);
        if chunk.Err? {
          assert key !in keyring.entries ==> Assemble(keyring.entries, reference, generation, index + 1) == Err(MissingEntry);
          AssembleMissing(keyring.entries, reference, generation, index + 1, count);
          return Err(chunk.error);
        }
        assembled := assembled + chunk.value;
      }
      if !ValidSecret(assembled) {
        return Err(InvalidSecret);
      }
      r := Ok(assembled);
    }

    /** The reads of a replacement, and the replacement. */
    method ReplaceChecked(reference: string, secret: string) returns (r: Result<()>)
      modifies keyring
      ensures var t := Replacing(old(keyring.entries), keyring.faults, old(keyring.clock), reference, secret);
              Followed(old(keyring.history), t) && r == t.result
    {
      if !ValidSecret(secret) {
        return Err(InvalidSecret);
      }
      var entry := keyring.Open(reference);
      if entry.Err? {
        return Err(entry.error);
      }
      var current := keyring.Get(reference);
      if current.Err? {
        return Err(current.error);
      }
      var existing := ParseManifest(current.value);
      if existing.Err? {
        return Err(existing.error);
      }
      assert Replacing(old(keyring.entries), keyring.faults, old(keyring.clock), reference, secret)
          == Storing(keyring.entries, keyring.faults, keyring.clock, reference, secret, existing.value);
      r := Store(reference, secret, existing.value);
    }

    /** Replaces an existing secret: all or nothing at every single keyring write. */
    method Replace(reference: string, secret: string) returns (r: Result<()>)
      modifies keyring
      ensures var t := Replacing(old(keyring.entries), keyring.faults, old(keyring.clock), reference, secret);
              Followed(old(keyring.history), t) && r == t.result
      ensures AtomicSince(reference, secret, r.Ok?)
      ensures r.Ok? ==> ValidSecret(secret) && reference in old(keyring.entries)
      ensures r.Ok? ==>
                VaultKeys.Stored(old(keyring.entries), keyring.entries, keyring.faults,
                                 VaultKeys.CleanupClock(old(keyring.clock), secret), reference, secret,
                                 Existing(old(keyring.entries), reference))
    {
      ReplacingIsAtomic(keyring.entries, keyring.faults, keyring.clock, reference, secret);
      r := ReplaceChecked(reference, secret);
      if r.Ok? {
        VaultKeys.ReplaceLeaves(old(keyring.entries), keyring.faults, old(keyring.clock), reference, secret);
      }
    }

    /** The entry goes first, then the chunks that its manifest named. */
    method DeleteEntry(reference: string) returns (r: Result<()>)
      modifies keyring
      ensures var t := Deleting(old(keyring.entries), keyring.faults, old(keyring.clock), reference);
              Followed(old(keyring.history), t) && r == t.result
    {
      var entry := keyring.Open(reference);
      if entry.Err? {
        return Err(entry.error);
      }
      var existing := ReadExisting(reference);
      ghost var first := Removing(keyring.entries, keyring.faults, keyring.clock, reference);
      var deleted := keyring.Delete(reference);
      if deleted.Err? && deleted.error != MissingEntry {
        return deleted;
      }
      if existing.Some? {
        ghost var erased := Erasing(keyring.entries, keyring.faults, keyring.clock, reference, existing.value.0, 0,
                                    existing.value.1);
        ErasingSucceeds(keyring.entries, keyring.faults, keyring.clock, reference, existing.value.0, 0, existing.value.1);
        DeleteGeneration(reference, existing.value.0, existing.value.1);
        Appended(old(keyring.history), first.writes, erased.writes);
      }
      r := Ok(());
    }

    /** Deletes a secret: each state on the way is the old one or one without an entry. */
    method Delete(reference: string) returns (r: Result<()>)
      modifies keyring
      ensures var t := Deleting(old(keyring.entries), keyring.faults, old(keyring.clock), reference);
              Followed(old(keyring.history), t) && r == t.result
      ensures old(keyring.history) <= keyring.history
      ensures forall i :: |old(keyring.history)| <= i < |keyring.history| ==> reference !in keyring.history[i]
      ensures if r.Ok? then reference !in keyring.entries else keyring.entries == old(keyring.entries)
      ensures r.Ok? ==>
                VaultKeys.Deleted(old(keyring.entries), keyring.entries, keyring.faults, old(keyring.clock) + 3, reference,
                                  if keyring.faults(old(keyring.clock) + 1) == NoFault
                                  then Existing(old(keyring.entries), reference) else None)
    {
      DeletingVanishes(keyring.entries, keyring.faults, keyring.clock, reference);
      r := DeleteEntry(reference);
      if r.Ok? {
        VaultKeys.DeleteLeaves(old(keyring.entries), keyring.faults, old(keyring.clock), reference);
      }
    }
  }
}
