/** The chunked operating-system credential vault over a keyring that may fail or stop at any write. */
module Vault {
  import opened Text

  const MAX_SECRET_BYTES: nat := 32 * 1024
  const KEYRING_CHUNK_BYTES: nat := 1000
  const MAX_CHUNKS: nat := 33
  const KEYRING_MANIFEST_PREFIX: string := "autoharness-vault-v1"

  datatype VaultError = MissingEntry | Unavailable | InvalidSecret | Platform

  datatype Result<+T> = Ok(value: T) | Err(error: VaultError)

  type Entries = map<string, string>

  // ---------------------------------------------------------------- pure parts

  predicate IsAsciiGraphic(c: char) {
    '!' <= c <= '~'
  }

  predicate ValidSecret(secret: string) {
    && 0 < |secret| <= MAX_SECRET_BYTES
    && forall i :: 0 <= i < |secret| ==> IsAsciiGraphic(secret[i])
  }

  predicate IsGeneration(c: char) {
    c == 'a' || c == 'b'
  }

  function Other(generation: char): (g: char)
    ensures IsGeneration(g) && g != generation
  {
    if generation == 'a' then 'b' else 'a'
  }

  function ChunkReference(reference: string, generation: char, index: nat): (key: string) {
    reference + "#v1#" + [generation] + "#" + Decimal(index)
  }

  function Manifest(generation: char, count: nat): (text: string) {
    KEYRING_MANIFEST_PREFIX + ":" + [generation] + ":" + Decimal(count)
  }

  predicate StartsWith(s: string, prefix: string) {
    |prefix| <= |s| && s[..|prefix|] == prefix
  }

  /** `Ok(None)` is a value stored by an older release: the secret itself. */
  function ParseManifest(value: string): (r: Result<Option<(char, nat)>>)
    ensures r.Ok? && r.value.Some? ==> IsGeneration(r.value.value.0) && 0 < r.value.value.1 <= MAX_CHUNKS
  {
    if !StartsWith(value, KEYRING_MANIFEST_PREFIX) then Ok(None)
    else
      var fields := Split(value, ':');
      if fields[0] != KEYRING_MANIFEST_PREFIX then Err(Unavailable)
      else if |fields| < 2 || |fields[1]| != 1 || !IsGeneration(fields[1][0]) then Err(Unavailable)
      else if |fields| < 3 then Err(Unavailable)
      else
        var count := ParseUsize(fields[2]);
        if count.None? || count.value == 0 || count.value > MAX_CHUNKS || |fields| > 3 then Err(Unavailable)
        else Ok(Some((fields[1][0], count.value)))
  }

  /** Every manifest the vault writes reads back as the same generation and count. */
  lemma ManifestRoundTrip(generation: char, count: nat)
    requires IsGeneration(generation) && 0 < count <= MAX_CHUNKS
    ensures ParseManifest(Manifest(generation, count)) == Ok(Some((generation, count)))
  {
    var digits := Decimal(count);
    assert ':' !in digits by {
      assert AllDigits(digits);
    }
    var value := Manifest(generation, count);
    var tail := [generation] + [':'] + digits;
    assert value == KEYRING_MANIFEST_PREFIX + [':'] + tail;
    SplitFirst(KEYRING_MANIFEST_PREFIX, tail, ':');
    SplitFirst([generation], digits, ':');
    SplitNoSeparator(digits, ':');
    ParseUsizeDecimal(count);
    assert value[..|KEYRING_MANIFEST_PREFIX|] == KEYRING_MANIFEST_PREFIX;
  }

  // ---------------------------------------------------------------- chunking

  function ChunkCount(secret: string): (n: nat)
    ensures ValidSecret(secret) ==> 0 < n <= MAX_CHUNKS
  {
    (|secret| + KEYRING_CHUNK_BYTES - 1) / KEYRING_CHUNK_BYTES
  }

  function Min(a: nat, b: nat): (m: nat) {
    if a < b then a else b
  }

  function Chunk(secret: string, index: nat): (piece: string)
    requires index < ChunkCount(secret)
  {
    secret[index * KEYRING_CHUNK_BYTES..Min((index + 1) * KEYRING_CHUNK_BYTES, |secret|)]
  }

  // ---------------------------------------------------------------- what a load of some keyring returns

  function Assemble(entries: Entries, reference: string, generation: char, count: nat): (r: Result<string>) {
    if count == 0 then Ok("")
    else
      var front := Assemble(entries, reference, generation, count - 1);
      var key := ChunkReference(reference, generation, count - 1);
      if front.Err? then front
      else if key !in entries then Err(MissingEntry)
      else Ok(front.value + entries[key])
  }

  /** The answer a fault-free `load` gives on these keyring entries. */
  function LoadOf(entries: Entries, reference: string): (r: Result<string>) {
    if reference !in entries then Err(MissingEntry)
    else
      var manifest := ParseManifest(entries[reference]);
      match manifest
      case Err(e) => Err(e)
      case Ok(None) => Ok(entries[reference])
      case Ok(Some((generation, count))) =>
        var assembled := Assemble(entries, reference, generation, count);
        if assembled.Ok? && !ValidSecret(assembled.value) then Err(InvalidSecret) else assembled
  }

  /** The manifest that `save` and `replace` see, when the stored value has one. */
  function Existing(entries: Entries, reference: string): (existing: Option<(char, nat)>)
    ensures existing.Some? ==> IsGeneration(existing.value.0) && existing.value.1 <= MAX_CHUNKS
  {
    if reference !in entries then None
    else
      var manifest := ParseManifest(entries[reference]);
      if manifest.Ok? then manifest.value else None
  }

  function NextGeneration(existing: Option<(char, nat)>): (g: char)
    ensures IsGeneration(g)
    ensures existing.Some? ==> g != existing.value.0
  {
    if existing.Some? then Other(existing.value.0) else 'a'
  }

  // ---------------------------------------------------------------- key spaces

  function ChunkKeys(reference: string, generation: char): (keys: set<string>) {
    set i | 0 <= i < MAX_CHUNKS :: ChunkReference(reference, generation, i)
  }

  function Keys(reference: string): (keys: set<string>) {
    {reference} + ChunkKeys(reference, 'a') + ChunkKeys(reference, 'b')
  }

  lemma LastHash(p1: string, d1: string, p2: string, d2: string)
    requires |p2| < |p1| && p1[|p1| - 1] == '#' && AllDigits(d2)
    ensures p1 + d1 != p2 + d2
  {
    var k := |p1| - 1;
    assert (p1 + d1)[k] == '#';
    if k < |p2 + d2| {
      assert (p2 + d2)[k] == d2[k - |p2|];
    }
  }

  lemma ChunkReferenceInjective(r1: string, g1: char, i1: nat, r2: string, g2: char, i2: nat)
    requires ChunkReference(r1, g1, i1) == ChunkReference(r2, g2, i2)
    ensures r1 == r2 && g1 == g2 && i1 == i2
  {
    var key := ChunkReference(r1, g1, i1);
    var d1, d2 := Decimal(i1), Decimal(i2);
    var p1, p2 := r1 + "#v1#" + [g1] + "#", r2 + "#v1#" + [g2] + "#";
    assert key == p1 + d1 == p2 + d2;
    if |p2| < |p1| {
      LastHash(p1, d1, p2, d2);
    } else if |p1| < |p2| {
      LastHash(p2, d2, p1, d1);
    }
    assert |p1| == |p2|;
    assert p1 == key[..|p1|] == p2;
    assert d1 == key[|p1|..] == d2;
    DecimalInjective(i1, i2);
    assert r1 == p1[..|r1|] == p2[..|r2|] == r2;
    assert g1 == p1[|r1| + 4] == p2[|r2| + 4] == g2;
  }

  /** Two references share a keyring key exactly when one of them spells a chunk key of the other. */
  lemma KeysOverlap(r1: string, r2: string)
    requires r1 != r2
    ensures Keys(r1) !! Keys(r2) <==> r1 !in Keys(r2) && r2 !in Keys(r1)
  {
    assert r1 in Keys(r1) && r2 in Keys(r2);
    if r1 !in Keys(r2) && r2 !in Keys(r1) {
      forall key | key in Keys(r1) && key in Keys(r2)
        ensures false
      {
        assert key != r1 && key != r2;
        var g1, i1 := ChunkKeyWitness(r1, key);
        var g2, i2 := ChunkKeyWitness(r2, key);
        ChunkReferenceInjective(r1, g1, i1, r2, g2, i2);
      }
    }
  }

  lemma ChunkKeyWitness(reference: string, key: string) returns (g: char, i: nat)
    requires key in Keys(reference) && key != reference
    ensures IsGeneration(g) && i < MAX_CHUNKS && key == ChunkReference(reference, g, i)
  {
    g := if key in ChunkKeys(reference, 'a') then 'a' else 'b';
    i :| 0 <= i < MAX_CHUNKS && key == ChunkReference(reference, g, i);
  }

  ghost predicate AgreeOn(m1: Entries, m2: Entries, keys: set<string>) {
    forall k :: k in keys ==> (k in m1 <==> k in m2) && (k in m1 ==> m1[k] == m2[k])
  }

  lemma {:induction false} AssembleFrame(m1: Entries, m2: Entries, reference: string, generation: char, count: nat)
    requires count <= MAX_CHUNKS
    requires AgreeOn(m1, m2, ChunkKeys(reference, generation))
    ensures Assemble(m1, reference, generation, count) == Assemble(m2, reference, generation, count)
  {
    if count > 0 {
      AssembleFrame(m1, m2, reference, generation, count - 1);
      assert ChunkReference(reference, generation, count - 1) in ChunkKeys(reference, generation);
    }
  }

  /** A load depends only on the manifest entry and on the chunks of the generation it names. */
  lemma LoadFrame(m1: Entries, m2: Entries, reference: string)
    requires AgreeOn(m1, m2, {reference})
    requires reference in m1 ==> var e := Existing(m1, reference);
                                 e.Some? ==> AgreeOn(m1, m2, ChunkKeys(reference, e.value.0))
    ensures LoadOf(m1, reference) == LoadOf(m2, reference)
  {
    assert reference in {reference};
    var existing := Existing(m1, reference);
    if existing.Some? {
      AssembleFrame(m1, m2, reference, existing.value.0, existing.value.1);
    }
  }

  lemma ReferenceIsNoChunk(reference: string, generation: char)
    ensures reference !in ChunkKeys(reference, generation)
  {
    forall i | 0 <= i < MAX_CHUNKS
      ensures ChunkReference(reference, generation, i) != reference
    {
      assert |ChunkReference(reference, generation, i)| > |reference|;
    }
  }

  lemma GenerationsDisjoint(reference: string)
    ensures ChunkKeys(reference, 'a') !! ChunkKeys(reference, 'b')
  {
    forall key | key in ChunkKeys(reference, 'a') && key in ChunkKeys(reference, 'b')
      ensures false
    {
      var i :| 0 <= i < MAX_CHUNKS && key == ChunkReference(reference, 'a', i);
      var j :| 0 <= j < MAX_CHUNKS && key == ChunkReference(reference, 'b', j);
      ChunkReferenceInjective(reference, 'a', i, reference, 'b', j);
    }
  }

  // ---------------------------------------------------------------- stored secrets

  ghost predicate ChunksStored(entries: Entries, reference: string, generation: char, secret: string, count: nat)
    requires count <= ChunkCount(secret)
  {
    forall i :: 0 <= i < count ==>
      var key := ChunkReference(reference, generation, i);
      key in entries && entries[key] == Chunk(secret, i)
  }

  lemma {:induction false} AssembleStored(entries: Entries, reference: string, generation: char, secret: string, count: nat)
    requires count <= ChunkCount(secret)
    requires ChunksStored(entries, reference, generation, secret, count)
    ensures Assemble(entries, reference, generation, count) ==
            Ok(secret[..Min(count * KEYRING_CHUNK_BYTES, |secret|)])
  {
    if count > 0 {
      AssembleStored(entries, reference, generation, secret, count - 1);
      var key := ChunkReference(reference, generation, count - 1);
      assert entries[key] == Chunk(secret, count - 1);
      var cut := (count - 1) * KEYRING_CHUNK_BYTES;
      assert secret[..cut] + Chunk(secret, count - 1) == secret[..Min(count * KEYRING_CHUNK_BYTES, |secret|)];
    }
  }

  /** Chunks plus manifest load back as the exact secret, whatever else the keyring holds. */
  lemma StoredSecretLoads(entries: Entries, reference: string, generation: char, secret: string)
    requires ValidSecret(secret) && IsGeneration(generation)
    requires ChunksStored(entries, reference, generation, secret, ChunkCount(secret))
    requires reference in entries && entries[reference] == Manifest(generation, ChunkCount(secret))
    ensures LoadOf(entries, reference) == Ok(secret)
  {
    var count := ChunkCount(secret);
    ManifestRoundTrip(generation, count);
    AssembleStored(entries, reference, generation, secret, count);
    assert secret[..Min(count * KEYRING_CHUNK_BYTES, |secret|)] == secret;
  }

  // ---------------------------------------------------------------- frames

  /** Nothing outside the reference's own key space differs. */
  ghost predicate Untouched(now: Entries, before: Entries, reference: string) {
    now - Keys(reference) == before - Keys(reference)
  }

  lemma SameOutside(now: Entries, before: Entries, keys: set<string>)
    requires now - keys == before - keys
    ensures forall k :: k !in keys ==> (k in now <==> k in before) && (k in now ==> now[k] == before[k])
  {
    forall k | k !in keys
      ensures (k in now <==> k in before) && (k in now ==> now[k] == before[k])
    {
      assert k in now <==> k in now - keys;
      assert k in before <==> k in before - keys;
      assert k in now ==> now[k] == (now - keys)[k];
    }
  }

  lemma ChangeInside(entries: Entries, key: string, value: string, keys: set<string>)
    requires key in keys
    ensures entries[key := value] - keys == entries - keys
    ensures entries - {key} - keys == entries - keys
  {
  }

  lemma WiderSame(now: Entries, before: Entries, small: set<string>, big: set<string>)
    requires now - small == before - small && small <= big
    ensures now - big == before - big
  {
    SameOutside(now, before, small);
  }

  /** A reference whose key space is disjoint keeps loading what it loaded. */
  lemma UntouchedLoads(now: Entries, before: Entries, reference: string, other: string)
    requires Untouched(now, before, reference)
    requires Keys(reference) !! Keys(other)
    ensures LoadOf(now, other) == LoadOf(before, other)
  {
    SameOutside(now, before, Keys(reference));
    assert forall k :: k in Keys(other) ==> k !in Keys(reference);
    assert other in Keys(other);
    var existing := Existing(before, other);
    if existing.Some? {
      assert ChunkKeys(other, existing.value.0) <= Keys(other);
    }
    LoadFrame(before, now, other);
  }

  /** Only chunk entries of one generation of one reference differ. */
  ghost predicate OnlyChunks(now: Entries, before: Entries, reference: string, generation: char) {
    now - ChunkKeys(reference, generation) == before - ChunkKeys(reference, generation)
  }

  /** Writing or deleting chunks of a generation the manifest does not name is invisible to every load. */
  lemma IdleGenerationIsInvisible(now: Entries, before: Entries, reference: string, generation: char)
    requires IsGeneration(generation)
    requires OnlyChunks(now, before, reference, generation)
    requires Existing(before, reference).Some? ==> Existing(before, reference).value.0 != generation
    ensures LoadOf(now, reference) == LoadOf(before, reference)
    ensures Existing(now, reference) == Existing(before, reference)
    ensures Untouched(now, before, reference)
  {
    SameOutside(now, before, ChunkKeys(reference, generation));
    WiderSame(now, before, ChunkKeys(reference, generation), Keys(reference));
    ReferenceIsNoChunk(reference, generation);
    GenerationsDisjoint(reference);
    LoadFrame(before, now, reference);
  }

  /**
   Overwriting a chunk of the generation the manifest does name, as `save` does when it could not read
   the manifest, is visible at once: the load is the new first chunk followed by the old rest.
   */
  lemma LiveGenerationMixes(before: Entries, reference: string, generation: char, stored: string, secret: string)
    requires ValidSecret(stored) && ValidSecret(secret) && IsGeneration(generation)
    requires ChunksStored(before, reference, generation, stored, ChunkCount(stored))
    requires reference in before && before[reference] == Manifest(generation, ChunkCount(stored))
    ensures var rest := stored[Min(KEYRING_CHUNK_BYTES, |stored|)..];
            LoadOf(before[ChunkReference(reference, generation, 0) := Chunk(secret, 0)], reference)
            == Ok(Chunk(secret, 0) + rest)
  {
    var after := before[ChunkReference(reference, generation, 0) := Chunk(secret, 0)];
    var count := ChunkCount(stored);
    ManifestRoundTrip(generation, count);
    assert ChunkReference(reference, generation, 0) != reference by {
      assert |ChunkReference(reference, generation, 0)| > |reference|;
    }
    MixedAssemble(before, reference, generation, stored, secret, count);
    assert stored[..Min(count * KEYRING_CHUNK_BYTES, |stored|)] == stored;
    var rest := stored[Min(KEYRING_CHUNK_BYTES, |stored|)..];
    assert stored[Min(KEYRING_CHUNK_BYTES, |stored|)..Min(count * KEYRING_CHUNK_BYTES, |stored|)] == rest;
    assert ValidSecret(Chunk(secret, 0) + rest);
  }

  lemma {:induction false} MixedAssemble(before: Entries, reference: string, generation: char, stored: string,
                                         secret: string, count: nat)
    requires ValidSecret(stored) && ValidSecret(secret)
    requires 0 < count <= ChunkCount(stored)
    requires ChunksStored(before, reference, generation, stored, ChunkCount(stored))
    ensures Assemble(before[ChunkReference(reference, generation, 0) := Chunk(secret, 0)], reference, generation, count)
            == Ok(Chunk(secret, 0) + stored[Min(KEYRING_CHUNK_BYTES, |stored|)..Min(count * KEYRING_CHUNK_BYTES, |stored|)])
  {
    var first := ChunkReference(reference, generation, 0);
    var after := before[first := Chunk(secret, 0)];
    if count == 1 {
      assert Assemble(after, reference, generation, 0) == Ok("");
      assert "" + after[first] == Chunk(secret, 0) == Chunk(secret, 0) + [];
      assert stored[Min(KEYRING_CHUNK_BYTES, |stored|)..Min(count * KEYRING_CHUNK_BYTES, |stored|)] == [];
      assert Assemble(after, reference, generation, 1) == Ok("" + after[first]);
    } else {
      MixedAssemble(before, reference, generation, stored, secret, count - 1);
      var key := ChunkReference(reference, generation, count - 1);
      assert key != first by {
        if key == first {
          ChunkReferenceInjective(reference, generation, count - 1, reference, generation, 0);
        }
      }
      assert after[key] == Chunk(stored, count - 1);
      var cut := (count - 1) * KEYRING_CHUNK_BYTES;
      var middle := stored[KEYRING_CHUNK_BYTES..cut];
      assert middle + Chunk(stored, count - 1) == stored[KEYRING_CHUNK_BYTES..Min(count * KEYRING_CHUNK_BYTES, |stored|)];
      assert (Chunk(secret, 0) + middle) + Chunk(stored, count - 1) == Chunk(secret, 0) + (middle + Chunk(stored, count - 1));
    }
  }

  predicate IsWhitespace(c: char) {
    || '\U{9}' <= c <= '\U{D}' || c == ' ' || c == '\U{85}' || c == '\U{A0}' || c == '\U{1680}'
    || '\U{2000}' <= c <= '\U{200A}' || c == '\U{2028}' || c == '\U{2029}' || c == '\U{202F}'
    || c == '\U{205F}' || c == '\U{3000}'
  }

  function Trim(s: string): (r: string) {
    if s == [] then s
    else if IsWhitespace(s[0]) then Trim(s[1..])
    else if IsWhitespace(s[|s| - 1]) then Trim(s[..|s| - 1])
    else s
  }

  predicate ValidReference(reference: string) {
    && 0 < |reference| <= 256
    && forall i :: 0 <= i < |reference| ==> IsAsciiGraphic(reference[i])
  }

  function NewReference(value: string): (r: Result<string>)
    ensures r.Ok? ==> ValidReference(r.value)
  {
    var trimmed := Trim(value);
    if ValidReference(trimmed) then Ok(trimmed) else Err(InvalidSecret)
  }

  lemma ChunksStoredNext(entries: Entries, reference: string, generation: char, secret: string, index: nat)
    requires index < ChunkCount(secret)
    requires ChunksStored(entries, reference, generation, secret, index)
    ensures ChunksStored(entries[ChunkReference(reference, generation, index) := Chunk(secret, index)],
                         reference, generation, secret, index + 1)
  {
    forall i | 0 <= i < index
      ensures ChunkReference(reference, generation, i) != ChunkReference(reference, generation, index)
    {
      if ChunkReference(reference, generation, i) == ChunkReference(reference, generation, index) {
        ChunkReferenceInjective(reference, generation, i, reference, generation, index);
      }
    }
  }

  lemma ChunksStoredManifest(entries: Entries, reference: string, generation: char, secret: string, count: nat)
    requires count == ChunkCount(secret)
    requires ChunksStored(entries, reference, generation, secret, count)
    ensures ChunksStored(entries[reference := Manifest(generation, count)], reference, generation, secret, count)
  {
    forall i | 0 <= i < count
      ensures ChunkReference(reference, generation, i) != reference
    {
      assert |ChunkReference(reference, generation, i)| > |reference|;
    }
  }

  lemma IdleEntries(now: Entries, before: Entries, reference: string, generation: char)
    requires IsGeneration(generation)
    requires OnlyChunks(now, before, reference, generation)
    ensures Untouched(now, before, reference)
    ensures Existing(before, reference).None? || Existing(before, reference).value.0 != generation ==>
              LoadOf(now, reference) == LoadOf(before, reference)
  {
    WiderSame(now, before, ChunkKeys(reference, generation), Keys(reference));
    if Existing(before, reference).None? || Existing(before, reference).value.0 != generation {
      IdleGenerationIsInvisible(now, before, reference, generation);
    }
  }

  lemma {:induction false} AssembleMissing(entries: Entries, reference: string, generation: char, from: nat, count: nat)
    requires from <= count
    ensures Assemble(entries, reference, generation, from) == Err(MissingEntry) ==>
              Assemble(entries, reference, generation, count) == Err(MissingEntry)
  {
    if from < count {
      AssembleMissing(entries, reference, generation, from, count - 1);
    }
  }
}
