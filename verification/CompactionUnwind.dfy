/** The hash of omitted groups along a chain of calls: unwinding it gives back everything ever dropped. */
module CompactionUnwind {
  import opened Text
  import opened Compaction
  import opened CompactionChain

  /** Every source hash that a record's omission hash commits to, the latest call's first. */
  function Unwound(digest: Digest): (hashes: seq<string>) {
    digest.dropped + if digest.previous.Some? then Unwound(digest.previous.value) else []
  }

  /** Every level counts what the levels before it dropped, and the last one what all of them did. */
  predicate AddsUp(digest: Digest, omitted: nat) {
    && omitted == digest.previousCount + |digest.dropped|
    && match digest.previous
       case None => digest.previousCount == 0
       case Some(previous) => AddsUp(previous, digest.previousCount)
  }

  lemma {:induction false} AddsUpCounts(digest: Digest, omitted: nat)
    requires AddsUp(digest, omitted)
    ensures |Unwound(digest)| == omitted
    decreases digest
  {
    match digest.previous
    case None =>
    case Some(previous) => AddsUpCounts(previous, digest.previousCount);
  }

  // ---------------------------------------------------------------- any chain

  lemma {:induction false} DroppedCount(s: seq<Group>)
    ensures |DroppedHashes(s)| == |s|
  {
    DroppedHashesAreSorted(s);
    assert |multiset(DroppedHashes(s))| == |multiset(SourceHashes(s))|;
  }

  /** A record made over another one hashes the hash of the other, and just what this call dropped. */
  lemma CompactChainsHash(enc: Encoding, sessionId: string, cutoff: nat, prior: Option<History>, supplied: seq<Group>,
                          maxBytes: nat)
    requires Compact(enc, sessionId, cutoff, prior, supplied, maxBytes).Some?
    ensures var h, all := Compact(enc, sessionId, cutoff, prior, supplied, maxBytes).value, Arranged(prior, cutoff, supplied);
            && |h.groups| <= |all| && h.groups == all[..|h.groups|]
            && h.omitted == PriorOmitted(prior) + |h.omittedHash.dropped|
            && multiset(Unwound(h.omittedHash))
               == multiset(SourceHashes(all[|h.groups|..]))
                  + (if prior.Some? then multiset(Unwound(prior.value.omittedHash)) else multiset{})
            && (match prior
                case None => AddsUp(h.omittedHash, h.omitted)
                case Some(p) => AddsUp(p.omittedHash, p.omitted) ==> AddsUp(h.omittedHash, h.omitted))
  {
    var n := CompactLongest(enc, sessionId, cutoff, prior, supplied, maxBytes);
    var all := Arranged(prior, cutoff, supplied);
    DroppedHashesAreSorted(all[n..]);
    DroppedCount(all[n..]);
  }

  /** In every chain of calls the counts along the hash add up to the record's count of omitted groups. */
  lemma {:induction false} ChainAddsUp(enc: Encoding, sessionId: string, t: Track, calls: seq<Call>)
    requires t.history.Some? ==> AddsUp(t.history.value.omittedHash, t.history.value.omitted)
    ensures var h := Chained(enc, sessionId, t, calls).history;
            h.Some? ==> AddsUp(h.value.omittedHash, h.value.omitted) && |Unwound(h.value.omittedHash)| == h.value.omitted
    decreases |calls|
  {
    if calls == [] {
      if t.history.Some? {
        AddsUpCounts(t.history.value.omittedHash, t.history.value.omitted);
      }
    } else {
      var call := calls[0];
      if Compact(enc, sessionId, call.cutoff, t.history, call.supplied, call.maxBytes).Some? {
        CompactChainsHash(enc, sessionId, call.cutoff, t.history, call.supplied, call.maxBytes);
      }
      ChainAddsUp(enc, sessionId, Advance(enc, sessionId, t, call), calls[1..]);
    }
  }

  // ---------------------------------------------------------------- everything covered

  /** The hash commits to exactly the covered groups that the record does not hold. */
  ghost predicate Commits(t: Track) {
    t.history.Some? ==>
      var k := |t.history.value.groups|;
      && k <= |SortGroups(t.covered)|
      && multiset(Unwound(t.history.value.omittedHash)) == multiset(SourceHashes(SortGroups(t.covered)[k..]))
  }

  lemma SourceHashesAppend(a: seq<Group>, b: seq<Group>)
    ensures multiset(SourceHashes(a + b)) == multiset(SourceHashes(a)) + multiset(SourceHashes(b))
  {
    assert SourceHashes(a + b) == SourceHashes(a) + SourceHashes(b);
  }

  lemma AdvanceCommits(enc: Encoding, sessionId: string, t: Track, call: Call)
    requires Covers(sessionId, t) && Commits(t) && DistinctAttempts(Advance(enc, sessionId, t, call).covered)
    ensures Commits(Advance(enc, sessionId, t, call))
  {
    if Compact(enc, sessionId, call.cutoff, t.history, call.supplied, call.maxBytes).Some? {
      var h := Compact(enc, sessionId, call.cutoff, t.history, call.supplied, call.maxBytes).value;
      var added := Admissible(t.history, call.cutoff, call.supplied);
      var all := Arranged(t.history, call.cutoff, call.supplied);
      var k, n := |PriorGroups(t.history)|, |h.groups|;
      CompactChainsHash(enc, sessionId, call.cutoff, t.history, call.supplied, call.maxBytes);
      AdvanceArranges(sessionId, t, call, added);
      AddedIsNewer(sessionId, t, call, added);
      SortCover(t.covered, added);
      var sorted, aged := SortGroups(t.covered + added), SortGroups(t.covered);
      SplitSorted(sorted, SortGroups(added), aged, all, k, n);
      SourceHashesAppend(all[n..], aged[k..]);
    }
  }

  /** What is sorted past the kept groups: what this call dropped, and what earlier ones had. */
  lemma SplitSorted(sorted: seq<Group>, front: seq<Group>, aged: seq<Group>, all: seq<Group>, k: nat, n: nat)
    requires sorted == front + aged && k <= |aged| && n <= |all| && all == sorted[..|front| + k]
    ensures sorted[n..] == all[n..] + aged[k..]
  {
    assert sorted == all + aged[k..];
  }

  /**
   After any chain of calls in which no attempt completes twice, unwinding the record's omission hash gives exactly
   the source hashes of the covered groups that are not retained, each as often as it occurs among them.
   */
  lemma {:induction false} ChainCommits(enc: Encoding, sessionId: string, t: Track, calls: seq<Call>)
    requires Covers(sessionId, t) && Commits(t) && DistinctAttempts(Chained(enc, sessionId, t, calls).covered)
    ensures Commits(Chained(enc, sessionId, t, calls))
    decreases |calls|
  {
    if calls != [] {
      var u := Advance(enc, sessionId, t, calls[0]);
      CoveredGrows(enc, sessionId, u, calls[1..]);
      DistinctPrefix(u.covered, Chained(enc, sessionId, u, calls[1..]).covered);
      AdvanceCovers(enc, sessionId, t, calls[0]);
      AdvanceCommits(enc, sessionId, t, calls[0]);
      ChainCommits(enc, sessionId, u, calls[1..]);
    }
  }
}
