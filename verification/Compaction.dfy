/** Bounded newest-first compaction of a session's completed attempts. */
module Compaction {
  import opened Text

  const U32_LIMIT: nat := 0x1_0000_0000
  const HISTORY_VERSION: nat := 1
  const DIGEST_CHARS: nat := 64

  datatype Group = Group(attemptId: string, sequence: nat, sourceHash: string, excerpts: seq<string>)

  /** The hash of the omitted groups, standing for its own pre-image: a collision-free hash. */
  datatype Digest = Omission(previousCount: nat, previous: Option<Digest>, dropped: seq<string>)

  datatype History = History(version: nat, sessionId: string, cutoff: nat, compacted: nat, omitted: nat,
                             omittedHash: Digest, groups: seq<Group>)

  // ---------------------------------------------------------------- order

  /** Lexicographic order of strings. */
  predicate Less(a: string, b: string)
    decreases |a|
  {
    b != [] && (a == [] || a[0] < b[0] || (a[0] == b[0] && Less(a[1..], b[1..])))
  }

  lemma {:induction false} LessIrreflexive(a: string)
    ensures !Less(a, a)
    decreases |a|
  {
    if a != [] {
      LessIrreflexive(a[1..]);
    }
  }

  lemma {:induction false} LessTransitive(a: string, b: string, c: string)
    requires Less(a, b) && Less(b, c)
    ensures Less(a, c)
    decreases |a|
  {
    if a != [] && a[0] == b[0] && b[0] == c[0] {
      LessTransitive(a[1..], b[1..], c[1..]);
    }
  }

  lemma {:induction false} LessTotal(a: string, b: string)
    ensures Less(a, b) || Less(b, a) || a == b
    decreases |a|
  {
    if a != [] && b != [] && a[0] == b[0] {
      LessTotal(a[1..], b[1..]);
      if a[1..] == b[1..] {
        assert a == [a[0]] + a[1..] && b == [b[0]] + b[1..];
      }
    }
  }

  /** Newest first; groups that completed together go by attempt identity. */
  predicate Precedes(g: Group, h: Group) {
    g.sequence > h.sequence || (g.sequence == h.sequence && Less(g.attemptId, h.attemptId))
  }

  lemma PrecedesTransitive(a: Group, b: Group, c: Group)
    requires Precedes(a, b) && Precedes(b, c)
    ensures Precedes(a, c)
  {
    if a.sequence == c.sequence {
      LessTransitive(a.attemptId, b.attemptId, c.attemptId);
    }
  }

  lemma PrecedesTotal(a: Group, b: Group)
    ensures a.attemptId != b.attemptId ==> Precedes(a, b) || Precedes(b, a)
  {
    LessTotal(a.attemptId, b.attemptId);
  }

  lemma PrecedesAsymmetric(a: Group, b: Group)
    requires Precedes(a, b)
    ensures !Precedes(b, a) && a != b
  {
    LessIrreflexive(a.attemptId);
    if Precedes(b, a) {
      PrecedesTransitive(a, b, a);
    }
  }

  ghost predicate Ordered(s: seq<Group>) {
    forall i, j :: 0 <= i < j < |s| ==> Precedes(s[i], s[j])
  }

  ghost predicate DistinctAttempts(s: seq<Group>) {
    forall i, j :: 0 <= i < j < |s| ==> s[i].attemptId != s[j].attemptId
  }

  // ---------------------------------------------------------------- the stable sort

  /** Puts a group before the first one that it does not have to follow. */
  function Place(g: Group, s: seq<Group>): (r: seq<Group>)
    ensures |r| == |s| + 1
    decreases |s|
  {
    if s == [] || !Precedes(s[0], g) then [g] + s else [s[0]] + Place(g, s[1..])
  }

  function SortGroups(s: seq<Group>): (r: seq<Group>)
    ensures |r| == |s|
    decreases |s|
  {
    if s == [] then [] else Place(s[0], SortGroups(s[1..]))
  }

  // ---------------------------------------------------------------- one compaction

  /** Drops every group whose attempt is that of the group kept before it. */
  function DedupAfter(kept: Option<string>, s: seq<Group>): (r: seq<Group>)
    decreases |s|
  {
    if s == [] then []
    else if kept == Some(s[0].attemptId) then DedupAfter(kept, s[1..])
    else [s[0]] + DedupAfter(Some(s[0].attemptId), s[1..])
  }

  /** Keeps the first of each run of neighbours with the same attempt. */
  function Dedup(s: seq<Group>): (r: seq<Group>) {
    DedupAfter(None, s)
  }

  /** Groups past the cutoff are not complete yet; those up to the prior cutoff are already covered. */
  predicate Admitted(prior: Option<History>, cutoff: nat, g: Group) {
    g.sequence <= cutoff && IsNew(prior, g)
  }

  predicate IsNew(prior: Option<History>, g: Group) {
    prior.Some? ==> g.sequence > prior.value.cutoff
  }

  function Admissible(prior: Option<History>, cutoff: nat, s: seq<Group>): (r: seq<Group>)
    ensures forall i :: 0 <= i < |r| ==> Admitted(prior, cutoff, r[i])
    decreases |s|
  {
    if s == [] then []
    else if Admitted(prior, cutoff, s[0]) then [s[0]] + Admissible(prior, cutoff, s[1..])
    else Admissible(prior, cutoff, s[1..])
  }

  function PriorGroups(prior: Option<History>): (r: seq<Group>) {
    if prior.Some? then prior.value.groups else []
  }

  function Arranged(prior: Option<History>, cutoff: nat, supplied: seq<Group>): (r: seq<Group>) {
    Dedup(SortGroups(PriorGroups(prior) + Admissible(prior, cutoff, supplied)))
  }

  function CountNew(prior: Option<History>, s: seq<Group>): (n: nat)
    ensures n <= |s|
    decreases |s|
  {
    if s == [] then 0 else (if IsNew(prior, s[0]) then 1 else 0) + CountNew(prior, s[1..])
  }

  function PriorCompacted(prior: Option<History>): (n: nat) {
    if prior.Some? then prior.value.compacted else 0
  }

  function PriorOmitted(prior: Option<History>): (n: nat) {
    if prior.Some? then prior.value.omitted else 0
  }

  function PriorHash(prior: Option<History>): (d: Option<Digest>) {
    if prior.Some? then Some(prior.value.omittedHash) else None
  }

  function PlaceHash(h: string, s: seq<string>): (r: seq<string>)
    decreases |s|
  {
    if s == [] || !Less(s[0], h) then [h] + s else [s[0]] + PlaceHash(h, s[1..])
  }

  /** The source hashes of the dropped groups in hash order. */
  function DroppedHashes(s: seq<Group>): (r: seq<string>)
    decreases |s|
  {
    if s == [] then [] else PlaceHash(s[0].sourceHash, DroppedHashes(s[1..]))
  }

  /** Size of the rendered record: `frame` for the fixed part of a session, `inner` inside a group's braces. */
  datatype Encoding = Encoding(frame: nat, inner: Group -> nat)

  function GroupBytes(enc: Encoding, s: seq<Group>): (n: nat)
    decreases |s|
  {
    if s == [] then 0 else enc.inner(s[0]) + 2 + (if |s| > 1 then 1 else 0) + GroupBytes(enc, s[1..])
  }

  /** Length of the decimal form of a number. */
  function Digits(n: nat): (d: nat) {
    if n < 10 then 1 else 1 + Digits(n / 10)
  }

  function Extent(enc: Encoding, cutoff: nat, compacted: nat, omitted: nat, groups: seq<Group>): (n: nat) {
    enc.frame + Digits(cutoff) + Digits(compacted) + Digits(omitted) + DIGEST_CHARS + GroupBytes(enc, groups)
  }

  function Size(enc: Encoding, h: History): (n: nat) {
    Extent(enc, h.cutoff, h.compacted, h.omitted, h.groups)
  }

  /** The record that keeps the first `k` of the arranged groups. */
  function Candidate(sessionId: string, cutoff: nat, prior: Option<History>, all: seq<Group>, k: nat): (h: History)
    requires k <= |all|
  {
    History(HISTORY_VERSION, sessionId, cutoff, PriorCompacted(prior) + CountNew(prior, all),
            PriorOmitted(prior) + |all| - k,
            Omission(PriorOmitted(prior), PriorHash(prior), DroppedHashes(all[k..])), all[..k])
  }

  predicate Fits(enc: Encoding, sessionId: string, cutoff: nat, prior: Option<History>, all: seq<Group>, maxBytes: nat,
                 k: nat)
    requires k <= |all|
  {
    Size(enc, Candidate(sessionId, cutoff, prior, all, k)) <= maxBytes
  }

  /** Drops the oldest group until the record fits; nothing when no group fits or the count overflows. */
  function Shrink(enc: Encoding, sessionId: string, cutoff: nat, prior: Option<History>, all: seq<Group>,
                  maxBytes: nat, k: nat): (r: Option<History>)
    requires k <= |all|
    decreases k
  {
    if k == 0 || PriorOmitted(prior) + |all| - k >= U32_LIMIT then None
    else if Fits(enc, sessionId, cutoff, prior, all, maxBytes, k) then Some(Candidate(sessionId, cutoff, prior, all, k))
    else Shrink(enc, sessionId, cutoff, prior, all, maxBytes, k - 1)
  }

  predicate Follows(sessionId: string, cutoff: nat, prior: Option<History>) {
    prior.Some? ==> prior.value.sessionId == sessionId && prior.value.cutoff < cutoff
  }

  function Compact(enc: Encoding, sessionId: string, cutoff: nat, prior: Option<History>, supplied: seq<Group>,
                   maxBytes: nat): (r: Option<History>)
  {
    var all := Arranged(prior, cutoff, supplied);
    if maxBytes == 0 || !Follows(sessionId, cutoff, prior) then None
    else if PriorCompacted(prior) + CountNew(prior, all) >= U32_LIMIT then None
    else Shrink(enc, sessionId, cutoff, prior, all, maxBytes, |all|)
  }

  /** The compaction loop: pops the oldest group and files its hash until the candidate fits. */
  method DropUntilFits(enc: Encoding, sessionId: string, cutoff: nat, prior: Option<History>, all: seq<Group>,
                       maxBytes: nat) returns (r: Option<History>)
    ensures r == Shrink(enc, sessionId, cutoff, prior, all, maxBytes, |all|)
  {
    var compacted := PriorCompacted(prior) + CountNew(prior, all);
    var groups := all;
    var dropped: seq<string> := [];
    var droppedCount := 0;
    while true
      invariant |groups| <= |all| && groups == all[..|groups|]
      invariant dropped == DroppedHashes(all[|groups|..]) && droppedCount == |all| - |groups|
      invariant Shrink(enc, sessionId, cutoff, prior, all, maxBytes, |all|)
             == Shrink(enc, sessionId, cutoff, prior, all, maxBytes, |groups|)
      decreases |groups|
    {
      if groups == [] {
        return None;
      }
      if PriorOmitted(prior) + droppedCount >= U32_LIMIT {
        return None;
      }
      var candidate := History(HISTORY_VERSION, sessionId, cutoff, compacted, PriorOmitted(prior) + droppedCount,
                               Omission(PriorOmitted(prior), PriorHash(prior), dropped), groups);
      assert candidate == Candidate(sessionId, cutoff, prior, all, |groups|);
      if Size(enc, candidate) <= maxBytes {
        return Some(candidate);
      }
      var last := groups[|groups| - 1];
      DroppingOne(all, |groups|);
      dropped := PlaceHash(last.sourceHash, dropped);
      droppedCount := droppedCount + 1;
      groups := groups[..|groups| - 1];
    }
  }

  lemma DroppingOne(all: seq<Group>, k: nat)
    requires 0 < k <= |all|
    ensures DroppedHashes(all[k - 1..]) == PlaceHash(all[k - 1].sourceHash, DroppedHashes(all[k..]))
  {
    assert all[k - 1..][1..] == all[k..];
  }

  method CompactHistory(enc: Encoding, sessionId: string, cutoff: nat, prior: Option<History>, supplied: seq<Group>,
                        maxBytes: nat) returns (r: Option<History>)
    ensures r == Compact(enc, sessionId, cutoff, prior, supplied, maxBytes)
  {
    if maxBytes == 0 || (prior.Some? && (prior.value.sessionId != sessionId || prior.value.cutoff >= cutoff)) {
      return None;
    }
    var groups := Arranged(prior, cutoff, supplied);
    if groups == [] || PriorCompacted(prior) + CountNew(prior, groups) >= U32_LIMIT {
      return None;
    }
    r := DropUntilFits(enc, sessionId, cutoff, prior, groups, maxBytes);
  }

  // ---------------------------------------------------------------- validation of a stored record

  /** What the validator of a retained record accepts. */
  ghost predicate ValidHistory(h: History) {
    && h.version == HISTORY_VERSION
    && h.cutoff > 0
    && h.compacted == |h.groups| + h.omitted
    && h.groups != []
    && (forall i :: 0 <= i < |h.groups| ==>
          0 < h.groups[i].sequence <= h.cutoff && h.groups[i].excerpts != [])
    && (forall i, j :: 0 <= i < j < |h.groups| ==> h.groups[i].sequence >= h.groups[j].sequence)
    && DistinctAttempts(h.groups)
  }

  /** The validator's loop with its previous sequence and its set of attempts. */
  method ValidateHistory(h: History) returns (ok: bool)
    requires forall i :: 0 <= i < |h.groups| ==> h.groups[i].sequence < U64_LIMIT
    ensures ok <==> ValidHistory(h)
  {
    if h.version != HISTORY_VERSION || h.cutoff == 0 || h.compacted != |h.groups| + h.omitted || h.groups == [] {
      return false;
    }
    var priorSequence := U64_LIMIT - 1;
    var attempts: set<string> := {};
    for n := 0 to |h.groups|
      invariant attempts == set i | 0 <= i < n :: h.groups[i].attemptId
      invariant priorSequence == if n == 0 then U64_LIMIT - 1 else h.groups[n - 1].sequence
      invariant forall i :: 0 <= i < n ==> 0 < h.groups[i].sequence <= h.cutoff && h.groups[i].excerpts != []
      invariant forall i, j :: 0 <= i < j < n ==> h.groups[i].sequence >= h.groups[j].sequence
      invariant forall i, j :: 0 <= i < j < n ==> h.groups[i].attemptId != h.groups[j].attemptId
    {
      var group := h.groups[n];
      if group.sequence == 0 || group.sequence > h.cutoff || group.excerpts == [] {
        return false;
      }
      if group.sequence > priorSequence {
        assert h.groups[n - 1].sequence < h.groups[n].sequence;
        return false;
      }
      if group.attemptId in attempts {
        return false;
      }
      attempts := attempts + {group.attemptId};
      priorSequence := group.sequence;
    }
    return true;
  }
}
