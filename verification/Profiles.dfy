/** Provider profiles, their linked vault entries, and the invariant that keeps the two in step. */
module Profiles {
  import opened Text
  import Vault
  import VaultRuns

  datatype ProviderKind = Gemini | Router | CodexCli

  /** Non-secret provider settings; `fields` stands for every setting the protocol never looks at. */
  datatype Profile = Profile(kind: ProviderKind, fields: string, credential: Option<string>)

  datatype RecoveryKind = UncommittedSave | Delete

  datatype Record = Record(profile: ProfileId, reference: string, kind: RecoveryKind)

  datatype Document = Document(profiles: map<ProfileId, Profile>, active: Option<ProfileId>, recovery: seq<Record>)

  datatype Error = Io | Invalid | UnknownProfile | VaultFailure | Conflict | CredentialNotStored | RecoveryPending

  datatype Result<+T> = Ok(value: T) | Err(error: Error)

  /** The vault as the profiles see it: the references that have an entry, and what each of them loads. */
  type VaultEntries = map<string, Vault.Result<string>>

  predicate ValidProfileId(id: string) {
    && 0 < |id| <= 64
    && forall i :: 0 <= i < |id| ==> Vault.IsAsciiGraphic(id[i]) && id[i] != '"'
  }

  type ProfileId = id: string | ValidProfileId(id) witness "p"

  function DeterministicReference(id: ProfileId): (reference: string)
    ensures Vault.ValidReference(reference)
  {
    "autoharness/profile/" + id
  }

  lemma DeterministicReferenceInjective(p: ProfileId, q: ProfileId)
    requires DeterministicReference(p) == DeterministicReference(q)
    ensures p == q
  {
    assert p == DeterministicReference(p)[|"autoharness/profile/"|..];
    assert q == DeterministicReference(q)[|"autoharness/profile/"|..];
  }

  /** A profile's reference passes the vault's own checks unchanged. */
  lemma DeterministicReferenceIsAccepted(id: ProfileId)
    ensures Vault.NewReference(DeterministicReference(id)) == Vault.Ok(DeterministicReference(id))
  {
    var reference := DeterministicReference(id);
    assert reference[0] == 'a' && Vault.IsAsciiGraphic(reference[|reference| - 1]);
  }

  // ---------------------------------------------------------------- identities whose keys collide

  /** One identity is the other followed by `#v1#a#n` or `#v1#b#n`, for an `n` that a chunk can have. */
  ghost predicate Spells(p: ProfileId, q: ProfileId) {
    exists g: char, n: nat :: Vault.IsGeneration(g) && n < Vault.MAX_CHUNKS && q == Vault.ChunkReference(p, g, n)
  }

  ghost predicate Apart(ids: set<ProfileId>) {
    forall p, q :: p in ids && q in ids ==> !Spells(p, q)
  }

  function References(ids: set<ProfileId>): (references: set<string>) {
    set id | id in ids :: DeterministicReference(id)
  }

  lemma ReferenceIsChunkIff(p: ProfileId, q: ProfileId)
    requires p != q
    ensures DeterministicReference(q) in Vault.Keys(DeterministicReference(p)) <==> Spells(p, q)
  {
    var reference, other := DeterministicReference(p), DeterministicReference(q);
    forall g: char, n: nat
      ensures Vault.ChunkReference(reference, g, n) == "autoharness/profile/" + Vault.ChunkReference(p, g, n)
    {
    }
    if Spells(p, q) {
      var g: char, n: nat :| Vault.IsGeneration(g) && n < Vault.MAX_CHUNKS && q == Vault.ChunkReference(p, g, n);
      assert other == Vault.ChunkReference(reference, g, n);
      assert other in Vault.ChunkKeys(reference, g);
    }
    if other in Vault.Keys(reference) {
      if other == reference {
        DeterministicReferenceInjective(p, q);
      }
      var g, n := Vault.ChunkKeyWitness(reference, other);
      assert "autoharness/profile/" + Vault.ChunkReference(p, g, n) == "autoharness/profile/" + q;
      assert Vault.ChunkReference(p, g, n) == other[|"autoharness/profile/"|..] == q;
    }
  }

  /** Two profiles share a keyring key if and only if one identity spells a chunk key of the other. */
  lemma ProfilesOverlapIff(p: ProfileId, q: ProfileId)
    requires p != q
    ensures Vault.Keys(DeterministicReference(p)) !! Vault.Keys(DeterministicReference(q)) <==> !Spells(p, q) && !Spells(q, p)
  {
    if DeterministicReference(p) == DeterministicReference(q) {
      DeterministicReferenceInjective(p, q);
    }
    Vault.KeysOverlap(DeterministicReference(p), DeterministicReference(q));
    ReferenceIsChunkIff(p, q);
    ReferenceIsChunkIff(q, p);
  }

  lemma SpellsIsLonger(p: ProfileId, q: ProfileId)
    requires Spells(p, q)
    ensures |p| < |q|
  {
  }

  /** The vault's map of a set of profiles is sound if and only if no identity spells a chunk key of another. */
  lemma ApartIff(ids: set<ProfileId>)
    ensures VaultRuns.Disjoint(References(ids)) <==> Apart(ids)
  {
    if Apart(ids) {
      forall r, s | r in References(ids) && s in References(ids) && r != s
        ensures Vault.Keys(r) !! Vault.Keys(s)
      {
        var p :| p in ids && r == DeterministicReference(p);
        var q :| q in ids && s == DeterministicReference(q);
        ProfilesOverlapIff(p, q);
      }
    }
    if VaultRuns.Disjoint(References(ids)) {
      forall p, q | p in ids && q in ids
        ensures !Spells(p, q)
      {
        assert DeterministicReference(p) in References(ids) && DeterministicReference(q) in References(ids);
        if p == q {
          if Spells(p, q) {
            SpellsIsLonger(p, q);
          }
        } else {
          if DeterministicReference(p) == DeterministicReference(q) {
            DeterministicReferenceInjective(p, q);
          }
          ProfilesOverlapIff(p, q);
        }
      }
    }
  }

  // ---------------------------------------------------------------- recovery records

  function WithoutReference(records: seq<Record>, reference: string): (kept: seq<Record>)
    ensures forall r :: r in kept <==> r in records && r.reference != reference
    ensures Unique(records) ==> Unique(kept)
  {
    if records == [] then []
    else
      var rest := WithoutReference(records[1..], reference);
      if records[0].reference != reference then [records[0]] + rest else rest
  }

  function WithoutRecord(records: seq<Record>, record: Record): (kept: seq<Record>)
    ensures forall r :: r in kept <==> r in records && r != record
    ensures Unique(records) ==> Unique(kept)
    ensures Unique(records) ==> |kept| == if record in records then |records| - 1 else |records|
  {
    if records == [] then []
    else
      var rest := WithoutRecord(records[1..], record);
      assert forall i :: 0 <= i < |rest| ==> rest[i] in records[1..];
      if records[0] != record then [records[0]] + rest else rest
  }

  function PushRecovery(document: Document, record: Record): (d: Document) {
    document.(recovery := WithoutReference(document.recovery, record.reference) + [record])
  }

  function RemoveRecovery(document: Document, record: Record): (d: Document) {
    document.(recovery := WithoutRecord(document.recovery, record))
  }

  ghost predicate Unique(records: seq<Record>) {
    forall i, j :: 0 <= i < j < |records| ==> records[i].reference != records[j].reference
  }

  // ---------------------------------------------------------------- the invariant

  predicate Links(document: Document, id: ProfileId, reference: string) {
    id in document.profiles && document.profiles[id].credential == Some(reference)
  }

  ghost predicate Linked(document: Document, reference: string) {
    exists id :: Links(document, id, reference)
  }

  ghost predicate Recorded(document: Document, reference: string) {
    exists r :: r in document.recovery && r.reference == reference
  }

  /** What the invariant says of the document alone: links and records are deterministic, and no reference has two. */
  ghost predicate Orderly(document: Document) {
    && (forall id, reference :: Links(document, id, reference) ==>
          reference == DeterministicReference(id) && !Recorded(document, reference))
    && Unique(document.recovery)
    && (forall r :: r in document.recovery ==> r.reference == DeterministicReference(r.profile))
  }

  /**
   Links are deterministic and their vault entries exist; records are deterministic, one for a reference,
   and never about a linked reference; a vault entry without a link has a record.
   */
  ghost predicate Consistent(document: Document, vault: VaultEntries) {
    && Orderly(document)
    && (forall id, reference :: Links(document, id, reference) ==> reference in vault)
    && (forall reference :: reference in vault ==> Linked(document, reference) || Recorded(document, reference))
  }

  /** The statement in the words of the design: an entry is linked or has exactly one record, never both. */
  lemma EntryIsLinkedOrRecordedOnce(document: Document, vault: VaultEntries, reference: string)
    requires Consistent(document, vault) && reference in vault
    ensures Linked(document, reference) <==> !Recorded(document, reference)
    ensures Recorded(document, reference) ==>
              exists i :: 0 <= i < |document.recovery| && document.recovery[i].reference == reference
                       && forall j :: 0 <= j < |document.recovery| && document.recovery[j].reference == reference ==> j == i
  {
    if Recorded(document, reference) {
      var r :| r in document.recovery && r.reference == reference;
      var i :| 0 <= i < |document.recovery| && document.recovery[i] == r;
      assert forall j :: 0 <= j < |document.recovery| && document.recovery[j].reference == reference ==> j == i;
    }
  }

  // ---------------------------------------------------------------- document steps

  function BeginSaveDocument(document: Document, id: ProfileId): (d: Document) {
    PushRecovery(document, Record(id, DeterministicReference(id), UncommittedSave))
  }

  function CommitSaveDocument(document: Document, record: Record): (d: Document)
    requires record.profile in document.profiles
  {
    var linked := document.profiles[record.profile].(credential := Some(record.reference));
    RemoveRecovery(document.(profiles := document.profiles[record.profile := linked]), record)
  }

  function BeginDisconnectDocument(document: Document, id: ProfileId, reference: string): (d: Document)
    requires id in document.profiles
  {
    var cleared := document.profiles[id].(credential := None);
    PushRecovery(document.(profiles := document.profiles[id := cleared]), Record(id, reference, Delete))
  }

  function BeginDeleteDocument(document: Document, id: ProfileId): (d: Document)
    requires id in document.profiles
  {
    PushRecovery(document.(profiles := document.profiles - {id},
                           active := if document.active == Some(id) then None else document.active),
                 Record(id, DeterministicReference(id), Delete))
  }

  lemma BeginSaveKeeps(document: Document, vault: VaultEntries, id: ProfileId)
    requires Consistent(document, vault) && id in document.profiles && document.profiles[id].credential.None?
    ensures Consistent(BeginSaveDocument(document, id), vault)
  {
    var d := BeginSaveDocument(document, id);
    RecordedAfterPush(document, Record(id, DeterministicReference(id), UncommittedSave));
    forall q, reference | Links(d, q, reference)
      ensures reference == DeterministicReference(q) && reference in vault && !Recorded(d, reference)
    {
      assert Links(document, q, reference);
      if reference == DeterministicReference(id) {
        DeterministicReferenceInjective(q, id);
      }
    }
    LinkedSame(document, d);
  }

  lemma RecordedAfterPush(document: Document, record: Record)
    ensures var d := PushRecovery(document, record);
            && d.profiles == document.profiles
            && (forall reference :: Recorded(d, reference) <==> Recorded(document, reference) || reference == record.reference)
            && (forall r :: r in d.recovery <==> r == record || (r in document.recovery && r.reference != record.reference))
            && (Unique(document.recovery) ==> Unique(d.recovery))
  {
    var d := PushRecovery(document, record);
    var kept := WithoutReference(document.recovery, record.reference);
    assert forall r :: r in d.recovery <==> r in kept || r == record;
    forall reference
      ensures Recorded(d, reference) <==> Recorded(document, reference) || reference == record.reference
    {
      if Recorded(document, reference) && reference != record.reference {
        var r :| r in document.recovery && r.reference == reference;
        assert r in d.recovery;
      }
      if reference == record.reference {
        assert record in d.recovery;
      }
    }
    if Unique(document.recovery) {
      forall i, j | 0 <= i < j < |d.recovery|
        ensures d.recovery[i].reference != d.recovery[j].reference
      {
        assert d.recovery[i] in kept;
      }
    }
  }

  lemma RecordedAfterRemove(document: Document, record: Record)
    requires Unique(document.recovery) && record in document.recovery
    ensures var d := RemoveRecovery(document, record);
            && d.profiles == document.profiles
            && (forall reference :: Recorded(d, reference) <==> Recorded(document, reference) && reference != record.reference)
            && Unique(d.recovery)
  {
    var d := RemoveRecovery(document, record);
    forall reference
      ensures Recorded(d, reference) <==> Recorded(document, reference) && reference != record.reference
    {
      if Recorded(document, reference) && reference != record.reference {
        var r :| r in document.recovery && r.reference == reference;
        assert r in d.recovery;
      }
      if Recorded(d, reference) {
        var r :| r in d.recovery && r.reference == reference;
        if reference == record.reference {
          UniqueMember(document.recovery, r, record);
        }
      }
    }
  }

  lemma UniqueMember(records: seq<Record>, r: Record, s: Record)
    requires Unique(records) && r in records && s in records && r.reference == s.reference
    ensures r == s
  {
    var i :| 0 <= i < |records| && records[i] == r;
    var j :| 0 <= j < |records| && records[j] == s;
  }

  lemma LinkedSame(document: Document, d: Document)
    requires forall id, reference :: Links(document, id, reference) ==> Links(d, id, reference)
    ensures forall reference :: Linked(document, reference) ==> Linked(d, reference)
  {
  }

  /** Committing a save links the entry and drops its record in one document write. */
  lemma CommitSaveKeeps(document: Document, vault: VaultEntries, record: Record)
    requires Consistent(document, vault) && record in document.recovery && record.profile in document.profiles
    requires record.reference in vault
    ensures Consistent(CommitSaveDocument(document, record), vault)
    ensures Links(CommitSaveDocument(document, record), record.profile, record.reference)
  {
    var d := CommitSaveDocument(document, record);
    RecordedAfterRemove(document, record);
    assert forall reference :: Recorded(d, reference) <==> Recorded(RemoveRecovery(document, record), reference);
    assert Recorded(document, record.reference);
    assert forall reference :: !Links(document, record.profile, reference);
    forall q, reference | Links(d, q, reference)
      ensures reference == DeterministicReference(q) && reference in vault && !Recorded(d, reference)
    {
      if q != record.profile {
        assert Links(document, q, reference);
      }
    }
    assert Links(d, record.profile, record.reference);
    forall id, reference | Links(document, id, reference)
      ensures Links(d, id, reference)
    {
    }
    LinkedSame(document, d);
    forall reference | reference in vault
      ensures Linked(d, reference) || Recorded(d, reference)
    {
      if reference == record.reference {
        assert Linked(d, reference);
      }
    }
  }

  lemma UnlinkKeeps(document: Document, vault: VaultEntries, id: ProfileId, d: Document, kind: RecoveryKind)
    requires Consistent(document, vault)
    requires forall q, reference :: Links(d, q, reference) <==> Links(document, q, reference) && q != id
    requires d.recovery == PushRecovery(document, Record(id, DeterministicReference(id), kind)).recovery
    ensures Consistent(d, vault)
  {
    var record := Record(id, DeterministicReference(id), kind);
    var pushed := PushRecovery(document, record);
    RecordedAfterPush(document, record);
    assert forall reference :: Recorded(d, reference) <==> Recorded(pushed, reference);
    forall q, reference | Links(d, q, reference)
      ensures reference == DeterministicReference(q) && reference in vault && !Recorded(d, reference)
    {
      assert Links(document, q, reference);
      if reference == record.reference {
        DeterministicReferenceInjective(q, id);
      }
    }
    forall reference | reference in vault
      ensures Linked(d, reference) || Recorded(d, reference)
    {
      if Linked(document, reference) {
        var q :| Links(document, q, reference);
        if q == id {
          assert Recorded(d, reference);
        } else {
          assert Links(d, q, reference);
        }
      }
    }
  }

  lemma BeginDisconnectKeeps(document: Document, vault: VaultEntries, id: ProfileId, reference: string)
    requires Consistent(document, vault) && Links(document, id, reference)
    ensures Consistent(BeginDisconnectDocument(document, id, reference), vault)
  {
    UnlinkKeeps(document, vault, id, BeginDisconnectDocument(document, id, reference), Delete);
  }

  /** Deleting a profile uses the deterministic reference; the invariant says that is the linked one. */
  lemma BeginDeleteKeeps(document: Document, vault: VaultEntries, id: ProfileId)
    requires Consistent(document, vault) && id in document.profiles
    ensures Consistent(BeginDeleteDocument(document, id), vault)
  {
    UnlinkKeeps(document, vault, id, BeginDeleteDocument(document, id), Delete);
  }

  lemma RemoveKeeps(document: Document, vault: VaultEntries, record: Record)
    requires Consistent(document, vault) && record in document.recovery && record.reference !in vault
    ensures Consistent(RemoveRecovery(document, record), vault)
  {
    var d := RemoveRecovery(document, record);
    RecordedAfterRemove(document, record);
    forall q, reference | Links(d, q, reference)
      ensures reference == DeterministicReference(q) && reference in vault && !Recorded(d, reference)
    {
      assert Links(document, q, reference);
    }
    assert forall q, reference :: Links(document, q, reference) ==> Links(d, q, reference);
    LinkedSame(document, d);
  }

  /** A vault write or removal at a recorded reference is safe whatever happens next. */
  lemma VaultStepKeeps(document: Document, vault: VaultEntries, reference: string, after: VaultEntries)
    requires Consistent(document, vault) && Recorded(document, reference)
    requires after - {reference} == vault - {reference}
    ensures Consistent(document, after)
  {
    forall k | k != reference
      ensures k in after <==> k in vault
    {
      assert k in after <==> k in after - {reference};
      assert k in vault <==> k in vault - {reference};
    }
    forall id, r | Links(document, id, r)
      ensures r in after
    {
      assert r != reference;
    }
  }

  /** With no records left the vault holds exactly the linked references. */
  lemma NoRecordsMeansExact(document: Document, vault: VaultEntries)
    requires Consistent(document, vault) && document.recovery == []
    ensures forall reference :: reference in vault <==> Linked(document, reference)
  {
  }

  function UpsertDocument(document: Document, id: ProfileId, profile: Profile): (r: Result<Document>) {
    if id !in document.profiles then Ok(document.(profiles := document.profiles[id := profile]))
    else
      var existing := document.profiles[id];
      if existing.credential.Some? && existing.kind != profile.kind then Err(Invalid)
      else
        var credential := if existing.credential.Some? then existing.credential else profile.credential;
        Ok(document.(profiles := document.profiles[id := profile.(credential := credential)]))
  }

  /**
   An upsert keeps the invariant exactly when the caller brings no credential of its own, or the profile
   already has a link, which the upsert then carries over.
   */
  lemma UpsertKeepsIff(document: Document, vault: VaultEntries, id: ProfileId, profile: Profile)
    requires Consistent(document, vault) && UpsertDocument(document, id, profile).Ok?
    ensures Consistent(UpsertDocument(document, id, profile).value, vault)
       <==> profile.credential.None? || (id in document.profiles && document.profiles[id].credential.Some?)
  {
    var d := UpsertDocument(document, id, profile).value;
    var carried := id in document.profiles && document.profiles[id].credential.Some?;
    assert forall reference :: Recorded(d, reference) <==> Recorded(document, reference);
    if profile.credential.None? || carried {
      assert forall q, reference :: Links(d, q, reference) <==> Links(document, q, reference);
      LinkedSame(document, d);
    } else {
      var reference := profile.credential.value;
      assert Links(d, id, reference);
      if Consistent(d, vault) {
        assert !Recorded(document, reference);
        var q :| Links(document, q, reference);
        DeterministicReferenceInjective(q, id);
        assert false;
      }
    }
  }

  /**
   An upsert is refused exactly when it would change the kind of a profile that has a credential; otherwise the
   profile has the kind and the fields given and the credential it had, if any, and nothing else changes.
   */
  lemma UpsertStores(document: Document, id: ProfileId, profile: Profile)
    ensures var r, linked := UpsertDocument(document, id, profile),
                             id in document.profiles && document.profiles[id].credential.Some?;
            && (r.Err? <==> linked && document.profiles[id].kind != profile.kind)
            && (r.Ok? ==>
                  && r.value.profiles - {id} == document.profiles - {id} && id in r.value.profiles
                  && r.value.profiles[id].kind == profile.kind && r.value.profiles[id].fields == profile.fields
                  && r.value.profiles[id].credential
                     == (if linked then document.profiles[id].credential else profile.credential)
                  && r.value.active == document.active && r.value.recovery == document.recovery)
  {
    var r := UpsertDocument(document, id, profile);
    if r.Ok? {
      assert r.value.profiles == document.profiles[id := r.value.profiles[id]];
    }
  }

  /** The active profile, if any, is one of the profiles. */
  ghost predicate ActiveKnown(document: Document) {
    document.active.Some? ==> document.active.value in document.profiles
  }

  /** Deleting the active profile leaves none active; deleting another one leaves the choice alone. */
  lemma DeleteClearsActive(document: Document, id: ProfileId)
    requires id in document.profiles
    ensures var d := BeginDeleteDocument(document, id);
            && d.profiles == document.profiles - {id}
            && (document.active == Some(id) ==> d.active.None?)
            && (document.active != Some(id) ==> d.active == document.active)
            && (ActiveKnown(document) ==> ActiveKnown(d))
  {
  }

  lemma ActiveKeeps(document: Document, vault: VaultEntries, active: Option<ProfileId>)
    requires Consistent(document, vault)
    ensures Consistent(document.(active := active), vault)
  {
    var d := document.(active := active);
    assert forall q, reference :: Links(d, q, reference) <==> Links(document, q, reference);
    assert forall reference :: Recorded(d, reference) <==> Recorded(document, reference);
    LinkedSame(document, d);
  }

  // ---------------------------------------------------------------- what is kept even when keys collide

  /** The document is orderly, and when identities are apart the vault is in step with it. */
  ghost predicate Sound(document: Document, vault: VaultEntries, apart: bool) {
    Orderly(document) && (apart ==> Consistent(document, vault))
  }

  /** A vault with an entry for each link and nothing else. */
  function LinksOf(document: Document): (vault: VaultEntries) {
    var links := set id | id in document.profiles && document.profiles[id].credential.Some? ::
                   document.profiles[id].credential.value;
    map r | r in links :: Vault.Ok("")
  }

  lemma OrderlyIsConsistent(document: Document)
    requires Orderly(document)
    ensures Consistent(document, LinksOf(document))
    ensures forall reference :: reference in LinksOf(document) ==> !Recorded(document, reference)
  {
    forall reference | reference in LinksOf(document)
      ensures Linked(document, reference) && !Recorded(document, reference)
    {
      var id :| id in document.profiles && document.profiles[id].credential == Some(reference);
      assert Links(document, id, reference);
    }
  }

  lemma SoundBeginSave(document: Document, vault: VaultEntries, apart: bool, id: ProfileId)
    requires Sound(document, vault, apart) && id in document.profiles && document.profiles[id].credential.None?
    ensures Sound(BeginSaveDocument(document, id), vault, apart)
  {
    OrderlyIsConsistent(document);
    BeginSaveKeeps(document, if apart then vault else LinksOf(document), id);
  }

  lemma SoundCommitSave(document: Document, vault: VaultEntries, apart: bool, record: Record)
    requires Sound(document, vault, apart) && record in document.recovery && record.profile in document.profiles
    requires record.reference in vault
    ensures Sound(CommitSaveDocument(document, record), vault, apart)
  {
    OrderlyIsConsistent(document);
    var linked := LinksOf(document)[record.reference := Vault.Ok("")];
    assert Recorded(document, record.reference);
    assert Consistent(document, linked);
    CommitSaveKeeps(document, if apart then vault else linked, record);
  }

  lemma SoundBeginDisconnect(document: Document, vault: VaultEntries, apart: bool, id: ProfileId, reference: string)
    requires Sound(document, vault, apart) && Links(document, id, reference)
    ensures Sound(BeginDisconnectDocument(document, id, reference), vault, apart)
  {
    OrderlyIsConsistent(document);
    BeginDisconnectKeeps(document, if apart then vault else LinksOf(document), id, reference);
  }

  lemma SoundBeginDelete(document: Document, vault: VaultEntries, apart: bool, id: ProfileId)
    requires Sound(document, vault, apart) && id in document.profiles
    ensures Sound(BeginDeleteDocument(document, id), vault, apart)
  {
    OrderlyIsConsistent(document);
    BeginDeleteKeeps(document, if apart then vault else LinksOf(document), id);
  }

  lemma SoundRemove(document: Document, vault: VaultEntries, apart: bool, record: Record)
    requires Sound(document, vault, apart) && record in document.recovery && record.reference !in vault
    ensures Sound(RemoveRecovery(document, record), vault, apart)
  {
    OrderlyIsConsistent(document);
    assert Recorded(document, record.reference);
    RemoveKeeps(document, if apart then vault else LinksOf(document), record);
  }

  lemma SoundUpsert(document: Document, vault: VaultEntries, apart: bool, id: ProfileId, profile: Profile)
    requires Sound(document, vault, apart) && UpsertDocument(document, id, profile).Ok?
    requires profile.credential.None? || (id in document.profiles && document.profiles[id].credential.Some?)
    ensures Sound(UpsertDocument(document, id, profile).value, vault, apart)
  {
    OrderlyIsConsistent(document);
    UpsertKeepsIff(document, if apart then vault else LinksOf(document), id, profile);
  }

  lemma SoundActive(document: Document, vault: VaultEntries, apart: bool, active: Option<ProfileId>)
    requires Sound(document, vault, apart)
    ensures Sound(document.(active := active), vault, apart)
  {
    OrderlyIsConsistent(document);
    ActiveKeeps(document, if apart then vault else LinksOf(document), active);
  }
}
