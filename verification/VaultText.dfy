/** Which texts the vault takes for a reference, a manifest and a secret. */
module VaultText {
  import opened Text
  import opened Vault

  // ---------------------------------------------------------------- references

  ghost predicate Blank(s: string) {
    forall i :: 0 <= i < |s| ==> IsWhitespace(s[i])
  }

  lemma LeadGrows(c: char, lead: string, kept: string, trail: string)
    requires IsWhitespace(c) && Blank(lead)
    ensures [c] + (lead + kept + trail) == ([c] + lead) + kept + trail && Blank([c] + lead)
  {
  }

  lemma TrailGrows(c: char, lead: string, kept: string, trail: string)
    requires IsWhitespace(c) && Blank(trail)
    ensures (lead + kept + trail) + [c] == lead + kept + (trail + [c]) && Blank(trail + [c])
  {
  }

  lemma {:induction false} TrimSplits(s: string) returns (lead: string, trail: string)
    ensures s == lead + Trim(s) + trail && Blank(lead) && Blank(trail)
    decreases |s|
  {
    lead, trail := [], [];
    if s != [] {
      if IsWhitespace(s[0]) {
        lead, trail := TrimSplits(s[1..]);
        assert s == [s[0]] + s[1..];
        LeadGrows(s[0], lead, Trim(s[1..]), trail);
        lead := [s[0]] + lead;
      } else if IsWhitespace(s[|s| - 1]) {
        lead, trail := TrimSplits(s[..|s| - 1]);
        assert s == s[..|s| - 1] + [s[|s| - 1]];
        TrailGrows(s[|s| - 1], lead, Trim(s[..|s| - 1]), trail);
        trail := trail + [s[|s| - 1]];
      }
    }
  }

  lemma {:induction false} TrimUndoes(lead: string, kept: string, trail: string)
    requires Blank(lead) && Blank(trail) && kept != [] && !IsWhitespace(kept[0]) && !IsWhitespace(kept[|kept| - 1])
    ensures Trim(lead + kept + trail) == kept
    decreases |lead| + |trail|
  {
    var s := lead + kept + trail;
    if lead != [] {
      TrimUndoes(lead[1..], kept, trail);
      assert s[1..] == lead[1..] + kept + trail;
    } else if trail != [] {
      TrimUndoes(lead, kept, trail[..|trail| - 1]);
      assert s[..|s| - 1] == lead + kept + trail[..|trail| - 1];
    } else {
      assert s == kept;
    }
  }

  /** A reference is accepted as what is left of it between white space, when that is valid. */
  lemma NewReferenceIff(value: string, reference: string)
    ensures NewReference(value) == Ok(reference) <==>
              && ValidReference(reference)
              && exists lead, trail :: Blank(lead) && Blank(trail) && value == lead + reference + trail
  {
    if NewReference(value) == Ok(reference) {
      var lead, trail := TrimSplits(value);
    }
    if lead, trail :| Blank(lead) && Blank(trail) && value == lead + reference + trail {
      if ValidReference(reference) {
        TrimUndoes(lead, reference, trail);
      }
    }
  }

  // ---------------------------------------------------------------- manifests

  lemma {:induction false} SplitJoins(s: string, separator: char)
    ensures var fields := Split(s, separator);
            && (forall i :: 0 <= i < |fields| ==> separator !in fields[i])
            && (|fields| == 1 ==> s == fields[0])
            && (|fields| > 1 ==>
                  && |fields[0]| < |s| && s == fields[0] + [separator] + s[|fields[0]| + 1..]
                  && fields[1..] == Split(s[|fields[0]| + 1..], separator))
    decreases |s|
  {
    if s != [] {
      SplitJoins(s[1..], separator);
      var rest := Split(s[1..], separator);
      if s[0] != separator {
        assert Split(s, separator) == [[s[0]] + rest[0]] + rest[1..];
        assert s == [s[0]] + s[1..];
        if |rest| > 1 {
          assert s[1..][|rest[0]| + 1..] == s[|rest[0]| + 2..];
        }
      }
    }
  }

  lemma SplitTail(s: string, separator: char) returns (rest: string)
    requires |Split(s, separator)| > 1
    ensures s == Split(s, separator)[0] + [separator] + rest && Split(rest, separator) == Split(s, separator)[1..]
  {
    SplitJoins(s, separator);
    rest := s[|Split(s, separator)[0]| + 1..];
  }

  lemma SplitThree(s: string, separator: char)
    requires |Split(s, separator)| == 3
    ensures var fields := Split(s, separator);
            && s == fields[0] + [separator] + (fields[1] + [separator] + fields[2])
            && separator !in fields[2]
  {
    SplitJoins(s, separator);
    var rest := SplitTail(s, separator);
    var last := SplitTail(rest, separator);
    SplitJoins(last, separator);
  }

  /** A value is read as a manifest exactly when it is the prefix, a generation and a chunk count, between two colons. */
  lemma ManifestIff(value: string, generation: char, count: nat)
    ensures ParseManifest(value) == Ok(Some((generation, count))) <==>
              && IsGeneration(generation) && 0 < count <= MAX_CHUNKS
              && exists digits :: && value == KEYRING_MANIFEST_PREFIX + [':'] + [generation] + [':'] + digits
                                  && ':' !in digits && ParseUsize(digits) == Some(count)
  {
    if ParseManifest(value) == Ok(Some((generation, count))) {
      var fields := Split(value, ':');
      SplitThree(value, ':');
      assert fields[1] == [generation];
      assert value == KEYRING_MANIFEST_PREFIX + [':'] + ([generation] + [':'] + fields[2]);
      assert value == KEYRING_MANIFEST_PREFIX + [':'] + [generation] + [':'] + fields[2];
    }
    if digits :| && value == KEYRING_MANIFEST_PREFIX + [':'] + [generation] + [':'] + digits
                 && ':' !in digits && ParseUsize(digits) == Some(count) {
      if IsGeneration(generation) && 0 < count <= MAX_CHUNKS {
        var tail := [generation] + [':'] + digits;
        assert value == KEYRING_MANIFEST_PREFIX + [':'] + tail;
        SplitFirst(KEYRING_MANIFEST_PREFIX, tail, ':');
        SplitFirst([generation], digits, ':');
        SplitNoSeparator(digits, ':');
        assert value[..|KEYRING_MANIFEST_PREFIX|] == KEYRING_MANIFEST_PREFIX;
      }
    }
  }

  /** What was stored before there were manifests loads as it is; anything else with the prefix is no secret. */
  lemma PlainValueLoads(entries: Entries, reference: string)
    requires reference in entries
    ensures !StartsWith(entries[reference], KEYRING_MANIFEST_PREFIX) ==> LoadOf(entries, reference) == Ok(entries[reference])
    ensures StartsWith(entries[reference], KEYRING_MANIFEST_PREFIX) && Existing(entries, reference).None? ==>
              LoadOf(entries, reference) == Err(Unavailable)
  {
  }

  /** A secret that loads from chunks is one that could have been saved. */
  lemma LoadedIsValid(entries: Entries, reference: string)
    requires Existing(entries, reference).Some? && LoadOf(entries, reference).Ok?
    ensures ValidSecret(LoadOf(entries, reference).value)
  {
  }
}
