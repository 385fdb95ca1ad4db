/** What goes wrong when one profile's identity spells a chunk key of another's: a run without a single fault. */
module ProfileOverlap {
  import opened Text
  import opened Profiles
  import opened Vault
  import opened VaultRuns

  const FIRST: ProfileId := "p"
  const SECOND: ProfileId := "p#v1#a#0"

  lemma SecondIsChunkOfFirst()
    ensures SECOND == ChunkReference(FIRST, 'a', 0) && Spells(FIRST, SECOND)
    ensures DeterministicReference(SECOND) == ChunkReference(DeterministicReference(FIRST), 'a', 0)
  {
    assert Decimal(0) == "0";
  }

  /** A fault-free first save of a secret of one chunk. */
  lemma OneChunkSaving(entries: Entries, faults: Faults, clock: nat, reference: string, secret: string)
    requires Quiet(faults) && ValidSecret(secret) && |secret| <= KEYRING_CHUNK_BYTES
    requires NewReference(reference) == Vault.Ok(reference) && Existing(entries, reference).None?
    ensures Saving(entries, faults, clock, reference, secret).entries
         == entries[ChunkReference(reference, 'a', 0) := secret][reference := Manifest('a', 1)]
  {
    assert ChunkCount(secret) == 1 && Chunk(secret, 0) == secret;
    var one := WritingOne(entries, faults, clock + 2, reference, secret, 'a', 0);
    assert WritingChunks(one.entries, faults, one.clock, reference, secret, 'a', 1) == Trace(one.entries, one.clock, [], Vault.Ok(1));
  }

  /** A fault-free deletion of a secret of one chunk. */
  lemma OneChunkDeleting(entries: Entries, faults: Faults, clock: nat, reference: string)
    requires Quiet(faults) && reference in entries && entries[reference] == Manifest('a', 1)
    ensures Deleting(entries, faults, clock, reference).entries == entries - {reference} - {ChunkReference(reference, 'a', 0)}
  {
    ManifestRoundTrip('a', 1);
    var removed := Removing(entries, faults, clock + 2, reference);
    var one := ErasingOne(removed.entries, faults, removed.clock, reference, 'a', 0);
    assert Erasing(one.entries, faults, one.clock, reference, 'a', 1, 1).entries == one.entries;
  }

  lemma OneChunkLoads(entries: Entries, reference: string)
    requires reference in entries && entries[reference] == Manifest('a', 1)
    requires ChunkReference(reference, 'a', 0) in entries && ValidSecret(entries[ChunkReference(reference, 'a', 0)])
    ensures LoadOf(entries, reference) == Vault.Ok(entries[ChunkReference(reference, 'a', 0)])
  {
    ManifestRoundTrip('a', 1);
    assert Assemble(entries, reference, 'a', 0) == Vault.Ok("");
    var chunk := entries[ChunkReference(reference, 'a', 0)];
    assert "" + chunk == chunk;
    assert Assemble(entries, reference, 'a', 1) == Vault.Ok(chunk);
  }

  /** The document after the record and the commit of a first save. */
  function Saved(document: Document, id: ProfileId): (d: Document)
    requires id in document.profiles
  {
    CommitSaveDocument(BeginSaveDocument(document, id), Record(id, DeterministicReference(id), UncommittedSave))
  }

  lemma SavedLinks(document: Document, id: ProfileId)
    requires id in document.profiles && document.recovery == []
    ensures Saved(document, id).recovery == []
    ensures Saved(document, id).profiles == document.profiles[id := document.profiles[id].(credential := Some(DeterministicReference(id)))]
  {
    var record := Record(id, DeterministicReference(id), UncommittedSave);
    assert WithoutReference([], record.reference) + [record] == [record];
    assert WithoutRecord([record], record) == [];
  }

  /** Two unlinked profiles whose identities are these, and an empty keyring. */
  ghost predicate Fresh(document: Document) {
    && FIRST in document.profiles && SECOND in document.profiles && document.recovery == []
    && forall id :: id in document.profiles ==> document.profiles[id].credential.None?
  }

  /** The keyring after saving a secret for the first profile, and after saving another for the second. */
  ghost function FirstSaved(faults: Faults, clock: nat, secret: string): (entries: Entries) {
    Saving(map[], faults, clock, DeterministicReference(FIRST), secret).entries
  }

  ghost function BothSaved(faults: Faults, clock: nat, secret: string, other: string): (entries: Entries) {
    Saving(FirstSaved(faults, clock, secret), faults, clock, DeterministicReference(SECOND), other).entries
  }

  ghost predicate Small(secret: string) {
    ValidSecret(secret) && |secret| <= KEYRING_CHUNK_BYTES && !StartsWith(secret, KEYRING_MANIFEST_PREFIX)
  }

  lemma FirstSavedEntries(faults: Faults, clock: nat, secret: string)
    requires Quiet(faults) && Small(secret)
    ensures FirstSaved(faults, clock, secret)
         == map[DeterministicReference(SECOND) := secret, DeterministicReference(FIRST) := Manifest('a', 1)]
  {
    SecondIsChunkOfFirst();
    DeterministicReferenceIsAccepted(FIRST);
    OneChunkSaving(map[], faults, clock, DeterministicReference(FIRST), secret);
  }

  lemma BothSavedEntries(faults: Faults, clock: nat, secret: string, other: string)
    requires Quiet(faults) && Small(secret) && Small(other)
    ensures BothSaved(faults, clock, secret, other)
         == map[DeterministicReference(FIRST) := Manifest('a', 1), DeterministicReference(SECOND) := Manifest('a', 1),
                ChunkReference(DeterministicReference(SECOND), 'a', 0) := other]
  {
    var first, second := DeterministicReference(FIRST), DeterministicReference(SECOND);
    FirstSavedEntries(faults, clock, secret);
    SecondIsChunkOfFirst();
    assert |first| < |second| < |ChunkReference(second, 'a', 0)|;
    DeterministicReferenceIsAccepted(SECOND);
    assert ParseManifest(secret) == Vault.Ok(None);
    OneChunkSaving(FirstSaved(faults, clock, secret), faults, clock, second, other);
  }

  /** After the first save the keyring has an entry that is neither linked nor recorded. */
  lemma FirstSaveStrays(document: Document, faults: Faults, clock: nat, secret: string)
    requires Fresh(document) && Quiet(faults) && Small(secret)
    ensures Consistent(document, View(map[], References({FIRST, SECOND})))
    ensures var vault := View(FirstSaved(faults, clock, secret), References({FIRST, SECOND}));
            && DeterministicReference(SECOND) in vault
            && !Linked(Saved(document, FIRST), DeterministicReference(SECOND))
            && !Recorded(Saved(document, FIRST), DeterministicReference(SECOND))
            && !Consistent(Saved(document, FIRST), vault)
  {
    FirstSavedEntries(faults, clock, secret);
    SavedLinks(document, FIRST);
    var second := DeterministicReference(SECOND);
    assert second in References({FIRST, SECOND});
    assert second != DeterministicReference(FIRST) by {
      assert |second| > |DeterministicReference(FIRST)|;
    }
    assert forall id :: !Links(Saved(document, FIRST), id, second);
  }

  lemma ManifestText()
    ensures Manifest('a', 1) == "autoharness-vault-v1:a:1" && ValidSecret(Manifest('a', 1))
  {
    assert Decimal(1) == "1";
  }

  /** After the second save the first profile loads the text of the second one's manifest. */
  lemma SecondSaveCorrupts(faults: Faults, clock: nat, secret: string, other: string)
    requires Quiet(faults) && Small(secret) && Small(other)
    ensures LoadOf(FirstSaved(faults, clock, secret), DeterministicReference(FIRST)) == Vault.Ok(secret)
    ensures LoadOf(BothSaved(faults, clock, secret, other), DeterministicReference(FIRST)) == Vault.Ok("autoharness-vault-v1:a:1")
  {
    FirstSavedEntries(faults, clock, secret);
    BothSavedEntries(faults, clock, secret, other);
    SecondIsChunkOfFirst();
    ManifestText();
    OneChunkLoads(FirstSaved(faults, clock, secret), DeterministicReference(FIRST));
    OneChunkLoads(BothSaved(faults, clock, secret, other), DeterministicReference(FIRST));
  }

  /** Disconnecting the first profile then deletes the entry that the second one links. */
  lemma DisconnectDangles(document: Document, faults: Faults, clock: nat, secret: string, other: string)
    requires Fresh(document) && Quiet(faults) && Small(secret) && Small(other)
    ensures var both := Saved(Saved(document, FIRST), SECOND);
            var entries := BothSaved(faults, clock, secret, other);
            var deleted := Deleting(entries, faults, clock, DeterministicReference(FIRST)).entries;
            && LoadOf(entries, DeterministicReference(SECOND)) == Vault.Ok(other)
            && Links(BeginDisconnectDocument(both, FIRST, DeterministicReference(FIRST)), SECOND, DeterministicReference(SECOND))
            && DeterministicReference(SECOND) !in deleted
  {
    SavedLinks(document, FIRST);
    SavedLinks(Saved(document, FIRST), SECOND);
    BothSavedEntries(faults, clock, secret, other);
    SecondIsChunkOfFirst();
    OneChunkLoads(BothSaved(faults, clock, secret, other), DeterministicReference(SECOND));
    OneChunkDeleting(BothSaved(faults, clock, secret, other), faults, clock, DeterministicReference(FIRST));
  }
}
