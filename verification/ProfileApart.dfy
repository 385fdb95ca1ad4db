/** Fault-free runs of saves and replacements keep the credential invariant if and only if identities are apart. */
module ProfileApart {
  import opened Text
  import opened Profiles
  import opened Vault
  import opened VaultRuns

  /** The document, the keyring, and how many keyring calls have been made. */
  datatype State = State(document: Document, entries: Entries, clock: nat)

  datatype Deed = Save(id: ProfileId, secret: string) | Replace(id: ProfileId, secret: string)

  /** A first save: the record, the vault write, and the commit if the vault took the secret. */
  function Saved(s: State, faults: Faults, id: ProfileId, secret: string): (t: State)
    requires id in s.document.profiles
  {
    var reference := DeterministicReference(id);
    var begun := BeginSaveDocument(s.document, id);
    var t := Saving(s.entries, faults, s.clock, reference, secret);
    State(if t.result.Ok? then CommitSaveDocument(begun, Record(id, reference, UncommittedSave)) else begun,
          t.entries, t.clock)
  }

  /** One request without a fault; a save of a linked profile and a replacement of an unlinked one are refused. */
  function Done(s: State, faults: Faults, deed: Deed): (t: State) {
    if deed.id !in s.document.profiles then s
    else
      var credential := s.document.profiles[deed.id].credential;
      match deed
      case Save(id, secret) => if credential.Some? then s else Saved(s, faults, id, secret)
      case Replace(_, secret) =>
        if credential.None? then s
        else
          var t := Replacing(s.entries, faults, s.clock, credential.value, secret);
          State(s.document, t.entries, t.clock)
  }

  function AllDone(s: State, faults: Faults, deeds: seq<Deed>): (t: State)
    decreases |deeds|
  {
    if deeds == [] then s
    else Done(AllDone(s, faults, deeds[..|deeds| - 1]), faults, deeds[|deeds| - 1])
  }

  /** The invariant for these identities, over what the keyring holds. */
  ghost predicate Kept(s: State, ids: set<ProfileId>) {
    && s.document.profiles.Keys <= ids && (forall r :: r in s.document.recovery ==> r.profile in ids)
    && Consistent(s.document, View(s.entries, References(ids)))
  }

  // ---------------------------------------------------------------- identities apart

  lemma CommittedKeeps(s: State, ids: set<ProfileId>, id: ProfileId, entries: Entries, clock: nat)
    requires Kept(s, ids) && id in s.document.profiles && s.document.profiles[id].credential.None?
    requires var before, after := View(s.entries, References(ids)), View(entries, References(ids));
             after - {DeterministicReference(id)} == before - {DeterministicReference(id)}
    ensures Kept(State(BeginSaveDocument(s.document, id), entries, clock), ids)
    ensures DeterministicReference(id) in View(entries, References(ids)) ==>
              Kept(State(CommitSaveDocument(BeginSaveDocument(s.document, id), Record(id, DeterministicReference(id), UncommittedSave)),
                         entries, clock), ids)
  {
    var begun := BeginSaveDocument(s.document, id);
    var record := Record(id, DeterministicReference(id), UncommittedSave);
    BeginSaveKeeps(s.document, View(s.entries, References(ids)), id);
    assert record in begun.recovery && Recorded(begun, record.reference);
    VaultStepKeeps(begun, View(s.entries, References(ids)), record.reference, View(entries, References(ids)));
    if record.reference in View(entries, References(ids)) {
      CommitSaveKeeps(begun, View(entries, References(ids)), record);
    }
  }

  lemma SaveKeeps(s: State, faults: Faults, ids: set<ProfileId>, id: ProfileId, secret: string)
    requires Apart(ids) && Kept(s, ids) && id in s.document.profiles && s.document.profiles[id].credential.None?
    ensures Kept(Saved(s, faults, id, secret), ids)
  {
    ApartIff(ids);
    DeterministicReferenceIsAccepted(id);
    SaveRefinesMap(s.entries, faults, s.clock, References(ids), DeterministicReference(id), secret);
    var t := Saving(s.entries, faults, s.clock, DeterministicReference(id), secret);
    CommittedKeeps(s, ids, id, t.entries, t.clock);
  }

  lemma ReplaceKeeps(s: State, faults: Faults, ids: set<ProfileId>, id: ProfileId, secret: string)
    requires Apart(ids) && Kept(s, ids) && id in s.document.profiles && s.document.profiles[id].credential.Some?
    ensures Kept(Done(s, faults, Replace(id, secret)), ids)
  {
    var reference := s.document.profiles[id].credential.value;
    assert Links(s.document, id, reference);
    ApartIff(ids);
    ReplaceRefinesMap(s.entries, faults, s.clock, References(ids), reference, secret);
  }

  lemma {:induction false} DeedsKeep(s: State, faults: Faults, deeds: seq<Deed>, ids: set<ProfileId>)
    requires Apart(ids) && Kept(s, ids)
    ensures Kept(AllDone(s, faults, deeds), ids)
    decreases |deeds|
  {
    if deeds != [] {
      var deed := deeds[|deeds| - 1];
      DeedsKeep(s, faults, deeds[..|deeds| - 1], ids);
      var last := AllDone(s, faults, deeds[..|deeds| - 1]);
      if deed.id in last.document.profiles {
        if deed.Save? && last.document.profiles[deed.id].credential.None? {
          SaveKeeps(last, faults, ids, deed.id, deed.secret);
        } else if deed.Replace? && last.document.profiles[deed.id].credential.Some? {
          ReplaceKeeps(last, faults, ids, deed.id, deed.secret);
        }
      }
    }
  }

  // ---------------------------------------------------------------- identities that collide

  const QUIET: Faults := n => NoFault

  /** A secret of exactly `n + 1` chunks. */
  function Long(n: nat): (secret: string)
    requires n < MAX_CHUNKS
    ensures ValidSecret(secret) && ChunkCount(secret) == n + 1
  {
    seq(n * KEYRING_CHUNK_BYTES + 1, i => 'x')
  }

  /** A fault-free first save over an empty keyring stores every chunk of the secret under generation `a`. */
  lemma FirstSaveStores(clock: nat, reference: string, secret: string)
    requires ValidSecret(secret) && NewReference(reference) == Vault.Ok(reference)
    ensures var t := Saving(map[], QUIET, clock, reference, secret);
            t.result == Vault.Ok(reference) && StoredUnder(t.entries, reference, 'a', secret)
  {
    var none: Option<(char, nat)> := None;
    assert ReadLeniently(map[], QUIET, clock + 1, reference) == none && NextGeneration(none) == 'a';
    WritingChunkedPublishes(map[], QUIET, clock + 2, reference, secret, 'a');
    StoringSucceeds(map[], QUIET, clock + 2, reference, secret, none);
  }

  /** A fault-free replacement over a secret under `a` stores every chunk of the new one under `b`. */
  lemma ReplaceStores(entries: Entries, clock: nat, reference: string, stored: string, secret: string, index: nat)
    requires ValidSecret(stored) && ValidSecret(secret) && StoredUnder(entries, reference, 'a', stored)
    requires index < ChunkCount(secret)
    ensures ChunkReference(reference, 'b', index) in Replacing(entries, QUIET, clock, reference, secret).entries
  {
    var count := ChunkCount(stored);
    ManifestRoundTrip('a', count);
    var written := WritingChunked(entries, QUIET, clock + 2, reference, secret, 'b');
    WritingChunksSucceeds(entries, QUIET, clock + 2, reference, secret, 'b', 0);
    WritingChunkedPublishes(entries, QUIET, clock + 2, reference, secret, 'b');
    var cleaned := Erasing(written.entries, QUIET, written.clock, reference, 'a', 0, count);
    ErasingConfined(written.entries, QUIET, written.clock, reference, 'a', 0, count);
    var key := ChunkReference(reference, 'b', index);
    assert key in written.entries;
    NotOfA(reference, index);
    SameOutside(cleaned.entries, written.entries, ChunkKeys(reference, 'a'));
  }

  lemma NotOfA(reference: string, index: nat)
    ensures ChunkReference(reference, 'b', index) !in ChunkKeys(reference, 'a')
  {
    forall i | 0 <= i < MAX_CHUNKS ensures ChunkReference(reference, 'a', i) != ChunkReference(reference, 'b', index) {
      if ChunkReference(reference, 'a', i) == ChunkReference(reference, 'b', index) {
        ChunkReferenceInjective(reference, 'a', i, reference, 'b', index);
      }
    }
  }

  /** One unlinked profile over an empty keyring. */
  function Alone(p: ProfileId): (s: State) {
    State(Document(map[p := Profile(Gemini, "", None)], None, []), map[], 0)
  }

  lemma AloneIsKept(p: ProfileId, ids: set<ProfileId>)
    requires p in ids
    ensures Kept(Alone(p), ids)
  {
  }

  /** The document after the only profile has been saved. */
  lemma SavedAlone(p: ProfileId, secret: string)
    requires ValidSecret(secret)
    ensures var t := Done(Alone(p), QUIET, Save(p, secret));
            && t.document == Document(map[p := Profile(Gemini, "", Some(DeterministicReference(p)))], None, [])
            && StoredUnder(t.entries, DeterministicReference(p), 'a', secret)
  {
    var reference := DeterministicReference(p);
    var record := Record(p, reference, UncommittedSave);
    DeterministicReferenceIsAccepted(p);
    FirstSaveStores(0, reference, secret);
    assert WithoutReference([], reference) + [record] == [record];
    assert WithoutRecord([record], record) == [];
  }

  /** An entry of a profile that is neither linked nor recorded. */
  lemma StrayBreaks(s: State, ids: set<ProfileId>, p: ProfileId, q: ProfileId)
    requires q in ids && p != q && s.document.recovery == []
    requires s.document.profiles == map[p := Profile(Gemini, "", Some(DeterministicReference(p)))]
    requires DeterministicReference(q) in s.entries
    ensures !Kept(s, ids)
  {
    var stray := DeterministicReference(q);
    assert stray in View(s.entries, References(ids));
    forall id ensures !Links(s.document, id, stray) {
      if DeterministicReference(p) == stray {
        DeterministicReferenceInjective(p, q);
      }
    }
  }

  lemma SpelledReference(p: ProfileId, g: char, n: nat, q: ProfileId)
    requires q == ChunkReference(p, g, n)
    ensures DeterministicReference(q) == ChunkReference(DeterministicReference(p), g, n) && p != q
  {
    assert |q| > |p|;
  }

  /** Every pair that collides in generation `a`: the first save of `p` alone puts an entry at the other's reference. */
  lemma SaveStrays(p: ProfileId, n: nat, q: ProfileId, ids: set<ProfileId>)
    requires n < MAX_CHUNKS && q == ChunkReference(p, 'a', n) && p in ids && q in ids
    ensures Kept(Alone(p), ids) && !Kept(AllDone(Alone(p), QUIET, [Save(p, Long(n))]), ids)
  {
    AloneIsKept(p, ids);
    SavedAlone(p, Long(n));
    SpelledReference(p, 'a', n, q);
    var t := Done(Alone(p), QUIET, Save(p, Long(n)));
    assert AllDone(Alone(p), QUIET, [Save(p, Long(n))]) == t;
    StrayBreaks(t, ids, p, q);
  }

  /** Every pair that collides in generation `b`: replacing the first secret of `p` does the same. */
  lemma ReplaceStrays(p: ProfileId, n: nat, q: ProfileId, ids: set<ProfileId>)
    requires n < MAX_CHUNKS && q == ChunkReference(p, 'b', n) && p in ids && q in ids
    ensures Kept(Alone(p), ids) && !Kept(AllDone(Alone(p), QUIET, [Save(p, Long(0)), Replace(p, Long(n))]), ids)
  {
    AloneIsKept(p, ids);
    SavedAlone(p, Long(0));
    SpelledReference(p, 'b', n, q);
    var t := Done(Alone(p), QUIET, Save(p, Long(0)));
    ReplaceStores(t.entries, t.clock, DeterministicReference(p), Long(0), Long(n), n);
    var u := Done(t, QUIET, Replace(p, Long(n)));
    TwoDone(Alone(p), QUIET, Save(p, Long(0)), Replace(p, Long(n)));
    StrayBreaks(u, ids, p, q);
  }

  lemma TwoDone(s: State, faults: Faults, first: Deed, second: Deed)
    ensures AllDone(s, faults, [first, second]) == Done(Done(s, faults, first), faults, second)
  {
    assert [first, second][..1] == [first] && [first][..0] == [];
    assert AllDone(s, faults, [first]) == Done(AllDone(s, faults, []), faults, first);
  }

  /** Every fault-free run of saves and replacements from a consistent start keeps the invariant. */
  ghost predicate RunsKeep(ids: set<ProfileId>) {
    forall s: State, faults, deeds | Quiet(faults) && Kept(s, ids) :: Kept(AllDone(s, faults, deeds), ids)
  }

  /**
   Fault-free runs keep the invariant for all the identities if and only if no identity is another one
   followed by `#v1#a#n` or `#v1#b#n` with `n` below 33.
   */
  lemma RunsKeepIff(ids: set<ProfileId>)
    ensures RunsKeep(ids) <==> Apart(ids)
  {
    if Apart(ids) {
      forall s: State, faults, deeds | Quiet(faults) && Kept(s, ids) ensures Kept(AllDone(s, faults, deeds), ids) {
        DeedsKeep(s, faults, deeds, ids);
      }
    } else {
      var p, q :| p in ids && q in ids && Spells(p, q);
      var g: char, n: nat :| IsGeneration(g) && n < MAX_CHUNKS && q == ChunkReference(p, g, n);
      assert Quiet(QUIET);
      if g == 'a' {
        SaveStrays(p, n, q, ids);
      } else {
        ReplaceStrays(p, n, q, ids);
      }
    }
  }
}
