/** What a compaction keeps, and how a chain of compactions agrees with compacting everything at once. */
module CompactionChain {
  import opened Text
  import opened Compaction

  // ---------------------------------------------------------------- sorting

  lemma {:induction false} PlacePermutes(g: Group, s: seq<Group>)
    ensures multiset(Place(g, s)) == multiset{g} + multiset(s)
    decreases |s|
  {
    if s != [] && Precedes(s[0], g) {
      PlacePermutes(g, s[1..]);
      assert s == [s[0]] + s[1..];
    }
  }

  lemma {:induction false} SortPermutes(s: seq<Group>)
    ensures multiset(SortGroups(s)) == multiset(s) && |SortGroups(s)| == |s|
    decreases |s|
  {
    if s != [] {
      SortPermutes(s[1..]);
      PlacePermutes(s[0], SortGroups(s[1..]));
      assert s == [s[0]] + s[1..];
    }
    assert |SortGroups(s)| == |multiset(SortGroups(s))| == |multiset(s)|;
  }

  lemma SortMembers(s: seq<Group>)
    ensures forall i :: 0 <= i < |SortGroups(s)| ==> SortGroups(s)[i] in s
  {
    SortPermutes(s);
    forall i | 0 <= i < |SortGroups(s)| ensures SortGroups(s)[i] in s {
      assert SortGroups(s)[i] in multiset(SortGroups(s));
    }
  }

  lemma {:induction false} PlaceOrdered(g: Group, s: seq<Group>)
    requires Ordered(s) && forall i :: 0 <= i < |s| ==> s[i].attemptId != g.attemptId
    ensures Ordered(Place(g, s))
    decreases |s|
  {
    if s == [] || !Precedes(s[0], g) {
      var r := Place(g, s);
      forall j | 1 <= j < |r| ensures Precedes(g, r[j]) {
        PrecedesTotal(g, s[0]);
        if j > 1 {
          PrecedesTransitive(g, s[0], s[j - 1]);
        }
      }
    } else {
      var rest := Place(g, s[1..]);
      PlaceOrdered(g, s[1..]);
      PlacePermutes(g, s[1..]);
      forall j | 0 <= j < |rest| ensures Precedes(s[0], rest[j]) {
        assert rest[j] in multiset(rest);
        assert rest[j] == g || rest[j] in s[1..];
      }
    }
  }

  lemma {:induction false} SortOrdered(s: seq<Group>)
    requires DistinctAttempts(s)
    ensures Ordered(SortGroups(s)) && |SortGroups(s)| == |s|
    decreases |s|
  {
    SortPermutes(s);
    if s != [] {
      SortOrdered(s[1..]);
      var rest := SortGroups(s[1..]);
      SortMembers(s[1..]);
      forall i | 0 <= i < |rest| ensures rest[i].attemptId != s[0].attemptId {
        assert rest[i] in s[1..];
      }
      PlaceOrdered(s[0], rest);
    }
  }

  /** In order, groups that compare equal side by side. */
  ghost predicate Sorted(s: seq<Group>) {
    forall i, j :: 0 <= i < j < |s| ==> !Precedes(s[j], s[i])
  }

  /** No two different groups share sequence and attempt. */
  ghost predicate NoTies(s: seq<Group>) {
    forall i, j :: 0 <= i < j < |s| && s[i].sequence == s[j].sequence && s[i].attemptId == s[j].attemptId ==> s[i] == s[j]
  }

  lemma PrecedesOrNot(a: Group, b: Group, c: Group)
    requires !Precedes(b, a) && !Precedes(c, b)
    ensures !Precedes(c, a)
  {
    LessTotal(a.attemptId, b.attemptId);
    LessTotal(b.attemptId, c.attemptId);
    if Precedes(c, a) && a.sequence == b.sequence == c.sequence {
      if Less(a.attemptId, b.attemptId) {
        LessTransitive(c.attemptId, a.attemptId, b.attemptId);
      }
    }
  }

  lemma {:induction false} PlaceSorted(g: Group, s: seq<Group>)
    requires Sorted(s)
    ensures Sorted(Place(g, s))
    decreases |s|
  {
    if s == [] || !Precedes(s[0], g) {
      var r := Place(g, s);
      forall j | 1 <= j < |r| ensures !Precedes(r[j], g) {
        if j > 1 {
          PrecedesOrNot(g, s[0], s[j - 1]);
        }
      }
    } else {
      var rest := Place(g, s[1..]);
      PlaceSorted(g, s[1..]);
      PlacePermutes(g, s[1..]);
      PrecedesAsymmetric(s[0], g);
      forall j | 0 <= j < |rest| ensures !Precedes(rest[j], s[0]) {
        assert rest[j] in multiset(rest);
        assert rest[j] == g || rest[j] in s[1..];
      }
    }
  }

  /** Sorting any groups puts the newest first. */
  lemma {:induction false} SortSorted(s: seq<Group>)
    ensures Sorted(SortGroups(s))
    decreases |s|
  {
    if s != [] {
      SortSorted(s[1..]);
      PlaceSorted(s[0], SortGroups(s[1..]));
    }
  }

  lemma SameFirst(a: seq<Group>, b: seq<Group>)
    requires Sorted(a) && Sorted(b) && NoTies(a) && a != [] && b != [] && a[0] in b && b[0] in a
    ensures a[0] == b[0]
  {
    LessIrreflexive(a[0].attemptId);
    LessTotal(a[0].attemptId, b[0].attemptId);
  }

  lemma TailMultiset(a: seq<Group>)
    requires a != []
    ensures multiset(a[1..]) == multiset(a) - multiset{a[0]}
  {
    assert a == [a[0]] + a[1..];
  }

  lemma {:induction false} SortedUnique(a: seq<Group>, b: seq<Group>)
    requires Sorted(a) && Sorted(b) && NoTies(a) && multiset(a) == multiset(b)
    ensures a == b
    decreases |a|
  {
    assert |a| == |multiset(a)| == |multiset(b)| == |b|;
    if a != [] {
      assert a[0] in multiset(b) && b[0] in multiset(a);
      SameFirst(a, b);
      TailMultiset(a);
      TailMultiset(b);
      SortedUnique(a[1..], b[1..]);
      assert a == [a[0]] + a[1..] && b == [b[0]] + b[1..];
    }
  }

  /** Without ties the sorted order does not depend on the given one. */
  lemma SameSort(s: seq<Group>, t: seq<Group>)
    requires NoTies(s) && multiset(s) == multiset(t)
    ensures SortGroups(s) == SortGroups(t)
  {
    SortSorted(s);
    SortSorted(t);
    SortPermutes(s);
    SortPermutes(t);
    NoTiesPermutes(s, SortGroups(s));
    SortedUnique(SortGroups(s), SortGroups(t));
  }

  lemma NoTiesPermutes(s: seq<Group>, t: seq<Group>)
    requires NoTies(s) && multiset(s) == multiset(t)
    ensures NoTies(t)
  {
    forall i, j | 0 <= i < j < |t| && t[i].sequence == t[j].sequence && t[i].attemptId == t[j].attemptId
      ensures t[i] == t[j]
    {
      assert t[i] in multiset(s) && t[j] in multiset(s);
      var p :| 0 <= p < |s| && s[p] == t[i];
      var q :| 0 <= q < |s| && s[q] == t[j];
    }
  }

  lemma {:induction false} TiedPlaces(g: Group, h: Group, s: seq<Group>)
    requires g.sequence == h.sequence && g.attemptId == h.attemptId && g != h
    ensures Place(g, Place(h, s)) != Place(h, Place(g, s))
    decreases |s|
  {
    LessIrreflexive(g.attemptId);
    if s != [] && Precedes(s[0], g) {
      TiedPlaces(g, h, s[1..]);
      assert Place(h, s)[1..] == Place(h, s[1..]) && Place(g, s)[1..] == Place(g, s[1..]);
      assert Place(g, Place(h, s))[1..] == Place(g, Place(h, s[1..]));
      assert Place(h, Place(g, s))[1..] == Place(h, Place(g, s[1..]));
    } else {
      assert Place(g, Place(h, s))[0] == g && Place(h, Place(g, s))[0] == h;
    }
  }

  /** Two tied groups in front, in one order and in the other. */
  lemma TiesShow(s: seq<Group>, i: nat, j: nat) returns (t: seq<Group>, u: seq<Group>)
    requires i < j < |s| && s[i].sequence == s[j].sequence && s[i].attemptId == s[j].attemptId && s[i] != s[j]
    ensures multiset(t) == multiset(s) && multiset(u) == multiset(s) && SortGroups(t) != SortGroups(u)
  {
    var rest := s[..i] + s[i + 1..j] + s[j + 1..];
    t := [s[i]] + ([s[j]] + rest);
    u := [s[j]] + ([s[i]] + rest);
    TakenOut(s, i, j);
    TiedPlaces(s[i], s[j], SortGroups(rest));
    SortTwo(s[i], s[j], rest);
    SortTwo(s[j], s[i], rest);
  }

  lemma TakenOut(s: seq<Group>, i: nat, j: nat)
    requires i < j < |s|
    ensures multiset(s) == multiset{s[i], s[j]} + multiset(s[..i] + s[i + 1..j] + s[j + 1..])
  {
    assert s == s[..i] + [s[i]] + s[i + 1..j] + [s[j]] + s[j + 1..];
  }

  lemma SortTwo(g: Group, h: Group, rest: seq<Group>)
    ensures SortGroups([g] + ([h] + rest)) == Place(g, Place(h, SortGroups(rest)))
    ensures multiset([g] + ([h] + rest)) == multiset{g, h} + multiset(rest)
  {
    assert ([g] + ([h] + rest))[1..] == [h] + rest && ([h] + rest)[1..] == rest;
  }

  /** The sort is the same for every order of the same groups if and only if no two different ones are tied. */
  lemma SortIsUniqueIff(s: seq<Group>)
    ensures (forall t :: multiset(t) == multiset(s) ==> SortGroups(t) == SortGroups(s)) <==> NoTies(s)
  {
    if NoTies(s) {
      forall t | multiset(t) == multiset(s) ensures SortGroups(t) == SortGroups(s) {
        SameSort(s, t);
      }
    } else {
      var i, j :| 0 <= i < j < |s| && s[i].sequence == s[j].sequence && s[i].attemptId == s[j].attemptId && s[i] != s[j];
      var t, u := TiesShow(s, i, j);
      assert SortGroups(t) != SortGroups(s) || SortGroups(u) != SortGroups(s);
    }
  }

  lemma {:induction false} DedupAfterDistinct(kept: Option<string>, s: seq<Group>)
    requires DistinctAttempts(s)
    ensures DedupAfter(kept, s) == if s != [] && kept == Some(s[0].attemptId) then s[1..] else s
    decreases |s|
  {
    if s != [] {
      var next := if kept == Some(s[0].attemptId) then kept else Some(s[0].attemptId);
      DedupAfterDistinct(next, s[1..]);
      assert s == [s[0]] + s[1..];
    }
  }

  lemma DedupDistinct(s: seq<Group>)
    requires DistinctAttempts(s)
    ensures Dedup(s) == s
  {
    DedupAfterDistinct(None, s);
  }

  lemma DistinctHasNoTies(s: seq<Group>)
    requires DistinctAttempts(s)
    ensures NoTies(s)
  {
  }

  lemma DistinctPrefix(a: seq<Group>, b: seq<Group>)
    requires a <= b && DistinctAttempts(b)
    ensures DistinctAttempts(a)
  {
    forall i, j | 0 <= i < j < |a| ensures a[i].attemptId != a[j].attemptId {
      assert a[i] == b[i] && a[j] == b[j];
    }
  }

  lemma RepeatsCount(b: seq<Group>, i: nat, j: nat)
    requires i < j < |b|
    ensures b[i] == b[j] ==> multiset(b)[b[i]] >= 2
  {
    assert b == b[..j] + b[j..];
    assert multiset(b) == multiset(b[..j]) + multiset(b[j..]);
    assert b[i] == b[..j][i] && b[j] == b[j..][0];
    assert b[i] in b[..j] && b[j] in b[j..];
  }

  lemma {:induction false} DistinctCount(a: seq<Group>, g: Group)
    requires DistinctAttempts(a)
    ensures multiset(a)[g] <= 1
    decreases |a|
  {
    if a != [] {
      DistinctCount(a[1..], g);
      assert a == [a[0]] + a[1..];
      assert a[0] !in a[1..];
      assert multiset(a)[g] == multiset{a[0]}[g] + multiset(a[1..])[g];
      assert a[0] == g ==> multiset(a[1..])[g] == 0;
    }
  }

  lemma DistinctMultiset(a: seq<Group>, b: seq<Group>)
    requires DistinctAttempts(a) && multiset(a) == multiset(b)
    ensures DistinctAttempts(b)
  {
    forall i, j | 0 <= i < j < |b| ensures b[i].attemptId != b[j].attemptId {
      RepeatsCount(b, i, j);
      DistinctCount(a, b[i]);
      assert b[i] in multiset(a) && b[j] in multiset(a);
      var p :| 0 <= p < |a| && a[p] == b[i];
      var q :| 0 <= q < |a| && a[q] == b[j];
      assert p != q;
    }
  }

  // ---------------------------------------------------------------- one compaction

  /** The result keeps the longest newest-first prefix that fits; without one there is no result. */
  lemma {:induction false} ShrinkLongest(enc: Encoding, sessionId: string, cutoff: nat, prior: Option<History>,
                                         all: seq<Group>, maxBytes: nat, k: nat) returns (n: nat)
    requires k <= |all|
    ensures n <= k
    ensures var r := Shrink(enc, sessionId, cutoff, prior, all, maxBytes, k);
            if r.Some? then
              && 1 <= n && r.value == Candidate(sessionId, cutoff, prior, all, n)
              && Fits(enc, sessionId, cutoff, prior, all, maxBytes, n) && PriorOmitted(prior) + |all| - n < U32_LIMIT
            else
              n == 0 || PriorOmitted(prior) + |all| - n >= U32_LIMIT
    ensures forall m :: n < m <= k ==> !Fits(enc, sessionId, cutoff, prior, all, maxBytes, m)
    decreases k
  {
    n := k;
    if k > 0 && PriorOmitted(prior) + |all| - k < U32_LIMIT && !Fits(enc, sessionId, cutoff, prior, all, maxBytes, k) {
      n := ShrinkLongest(enc, sessionId, cutoff, prior, all, maxBytes, k - 1);
    }
  }

  /** A call fails for its inputs, for a full counter, or because not even the newest group fits. */
  lemma CompactLongest(enc: Encoding, sessionId: string, cutoff: nat, prior: Option<History>, supplied: seq<Group>,
                       maxBytes: nat) returns (n: nat)
    ensures var all := Arranged(prior, cutoff, supplied);
            && n <= |all|
            && match Compact(enc, sessionId, cutoff, prior, supplied, maxBytes)
               case Some(h) =>
                 && 1 <= n && h == Candidate(sessionId, cutoff, prior, all, n)
                 && Size(enc, h) <= maxBytes && h.compacted < U32_LIMIT
                 && Follows(sessionId, cutoff, prior)
                 && forall m :: n < m <= |all| ==> !Fits(enc, sessionId, cutoff, prior, all, maxBytes, m)
               case None =>
                 || maxBytes == 0 || !Follows(sessionId, cutoff, prior)
                 || PriorCompacted(prior) + CountNew(prior, all) >= U32_LIMIT
                 || PriorOmitted(prior) + |all| - n >= U32_LIMIT
                 || (n == 0 && forall m :: 0 < m <= |all| ==> !Fits(enc, sessionId, cutoff, prior, all, maxBytes, m))
  {
    var all := Arranged(prior, cutoff, supplied);
    n := ShrinkLongest(enc, sessionId, cutoff, prior, all, maxBytes, |all|);
  }

  lemma {:induction false} AdmissibleCount(prior: Option<History>, cutoff: nat, s: seq<Group>, g: Group)
    ensures multiset(Admissible(prior, cutoff, s))[g] == if Admitted(prior, cutoff, g) then multiset(s)[g] else 0
    decreases |s|
  {
    if s != [] {
      AdmissibleCount(prior, cutoff, s[1..], g);
      assert s == [s[0]] + s[1..];
      assert multiset(s)[g] == multiset{s[0]}[g] + multiset(s[1..])[g];
    }
  }

  lemma AdmissiblePermutes(prior: Option<History>, cutoff: nat, s: seq<Group>, t: seq<Group>)
    requires multiset(s) == multiset(t)
    ensures multiset(Admissible(prior, cutoff, s)) == multiset(Admissible(prior, cutoff, t))
  {
    forall g ensures multiset(Admissible(prior, cutoff, s))[g] == multiset(Admissible(prior, cutoff, t))[g] {
      AdmissibleCount(prior, cutoff, s, g);
      AdmissibleCount(prior, cutoff, t, g);
    }
  }

  /** The result does not depend on the order in which the groups are supplied, unless two of them are tied. */
  lemma OrderIndependent(enc: Encoding, sessionId: string, cutoff: nat, prior: Option<History>, s: seq<Group>,
                         t: seq<Group>, maxBytes: nat)
    requires multiset(s) == multiset(t)
    requires NoTies(PriorGroups(prior) + Admissible(prior, cutoff, s))
    ensures Compact(enc, sessionId, cutoff, prior, s, maxBytes) == Compact(enc, sessionId, cutoff, prior, t, maxBytes)
  {
    AdmissiblePermutes(prior, cutoff, s, t);
    SameSort(PriorGroups(prior) + Admissible(prior, cutoff, s), PriorGroups(prior) + Admissible(prior, cutoff, t));
  }

  // ---------------------------------------------------------------- the hashes of what is dropped

  ghost predicate HashOrdered(s: seq<string>) {
    forall i, j :: 0 <= i < j < |s| ==> !Less(s[j], s[i])
  }

  lemma {:induction false} PlaceHashKeeps(h: string, s: seq<string>)
    requires HashOrdered(s)
    ensures HashOrdered(PlaceHash(h, s)) && multiset(PlaceHash(h, s)) == multiset{h} + multiset(s)
    decreases |s|
  {
    if s == [] || !Less(s[0], h) {
      forall j | 0 <= j < |s| ensures !Less(s[j], h) {
        if Less(s[j], h) {
          LessTotal(s[0], s[j]);
          if Less(s[0], s[j]) {
            LessTransitive(s[0], s[j], h);
          }
        }
      }
    } else {
      PlaceHashKeeps(h, s[1..]);
      var rest := PlaceHash(h, s[1..]);
      assert s == [s[0]] + s[1..];
      forall j | 0 <= j < |rest| ensures !Less(rest[j], s[0]) {
        assert rest[j] in multiset(rest);
        if rest[j] == h && Less(h, s[0]) {
          LessTransitive(s[0], h, s[0]);
          LessIrreflexive(s[0]);
        }
      }
    }
  }

  function SourceHashes(s: seq<Group>): (r: seq<string>)
    ensures |r| == |s|
  {
    seq(|s|, i requires 0 <= i < |s| => s[i].sourceHash)
  }

  /** The hash of the omissions covers the source hashes of exactly the dropped groups, in hash order. */
  lemma {:induction false} DroppedHashesAreSorted(s: seq<Group>)
    ensures HashOrdered(DroppedHashes(s)) && multiset(DroppedHashes(s)) == multiset(SourceHashes(s))
    decreases |s|
  {
    if s != [] {
      DroppedHashesAreSorted(s[1..]);
      PlaceHashKeeps(s[0].sourceHash, DroppedHashes(s[1..]));
      assert SourceHashes(s) == [s[0].sourceHash] + SourceHashes(s[1..]);
    }
  }

  // ---------------------------------------------------------------- new groups go before old ones

  ghost predicate Newer(a: seq<Group>, b: seq<Group>) {
    forall i, j :: 0 <= i < |a| && 0 <= j < |b| ==> a[i].sequence > b[j].sequence
  }

  lemma Associates(a: seq<Group>, b: seq<Group>, c: seq<Group>)
    ensures a + (b + c) == (a + b) + c
  {
  }

  lemma {:induction false} PlaceAfter(g: Group, a: seq<Group>, b: seq<Group>)
    requires forall i :: 0 <= i < |a| ==> a[i].sequence > g.sequence
    requires b != [] ==> Precedes(g, b[0])
    ensures Place(g, a + b) == a + ([g] + b)
    decreases |a|
  {
    var s := a + b;
    if a == [] {
      assert s == b;
      if b != [] {
        PrecedesAsymmetric(g, b[0]);
      }
      assert Place(g, s) == [g] + b;
    } else {
      PlaceAfter(g, a[1..], b);
      assert s[1..] == a[1..] + b && s[0] == a[0];
      assert Place(g, s) == [a[0]] + Place(g, s[1..]);
      Associates([a[0]], a[1..], [g] + b);
      assert [a[0]] + a[1..] == a;
    }
  }

  /** Places the groups one by one, last to first. */
  function PlaceAll(s: seq<Group>, base: seq<Group>): (r: seq<Group>)
    decreases |s|
  {
    if s == [] then base else Place(s[0], PlaceAll(s[1..], base))
  }

  lemma {:induction false} SortSplits(a: seq<Group>, b: seq<Group>)
    ensures SortGroups(a + b) == PlaceAll(a, SortGroups(b))
    decreases |a|
  {
    if a == [] {
      assert a + b == b;
    } else {
      SortSplits(a[1..], b);
      var s := a + b;
      assert s[1..] == a[1..] + b && s[0] == a[0];
      assert SortGroups(s) == Place(s[0], SortGroups(s[1..]));
    }
  }

  lemma {:induction false} PlacedBehind(aged: seq<Group>, base: seq<Group>)
    requires Ordered(aged) && Newer(base, aged)
    ensures PlaceAll(aged, base) == base + aged
    decreases |aged|
  {
    if aged == [] {
      assert base + aged == base;
    } else {
      PlacedBehind(aged[1..], base);
      PlaceAfter(aged[0], base, aged[1..]);
      assert [aged[0]] + aged[1..] == aged;
    }
  }

  /** Sorting old groups, already ordered, together with newer ones puts the newer ones in front. */
  lemma SortInFront(aged: seq<Group>, added: seq<Group>)
    requires Ordered(aged) && Newer(added, aged)
    ensures SortGroups(aged + added) == SortGroups(added) + aged
  {
    SortSplits(aged, added);
    SortMembers(added);
    PlacedBehind(aged, SortGroups(added));
  }

  /** What remains of the old groups once neighbours with the same attempt are merged. */
  function Unmerged(front: seq<Group>, aged: seq<Group>): (r: seq<Group>) {
    if front != [] && aged != [] && front[|front| - 1].attemptId == aged[0].attemptId then aged[1..] else aged
  }

  function LastAttempt(kept: Option<string>, s: seq<Group>): (r: Option<string>) {
    if s == [] then kept else Some(s[|s| - 1].attemptId)
  }

  lemma {:induction false} DedupAfterAppend(kept: Option<string>, a: seq<Group>, b: seq<Group>)
    ensures DedupAfter(kept, a + b) == DedupAfter(kept, a) + DedupAfter(LastAttempt(kept, a), b)
    decreases |a|
  {
    var s := a + b;
    if a == [] {
      assert s == b;
    } else {
      var next := if kept == Some(a[0].attemptId) then kept else Some(a[0].attemptId);
      DedupAfterAppend(next, a[1..], b);
      assert s[1..] == a[1..] + b && s[0] == a[0];
      assert LastAttempt(next, a[1..]) == LastAttempt(kept, a);
      Associates([a[0]], DedupAfter(next, a[1..]), DedupAfter(LastAttempt(kept, a), b));
    }
  }

  lemma DedupFront(front: seq<Group>, aged: seq<Group>)
    requires DistinctAttempts(aged)
    ensures Dedup(front + aged) == Dedup(front) + Unmerged(front, aged)
  {
    DedupAfterAppend(None, front, aged);
    DedupAfterDistinct(LastAttempt(None, front), aged);
  }

  lemma {:induction false} CountNewParts(prior: Option<History>, a: seq<Group>, b: seq<Group>)
    requires forall i :: 0 <= i < |a| ==> IsNew(prior, a[i])
    requires forall i :: 0 <= i < |b| ==> !IsNew(prior, b[i])
    ensures CountNew(prior, a + b) == |a|
    decreases |a| + |b|
  {
    if a != [] {
      assert (a + b)[1..] == a[1..] + b;
      CountNewParts(prior, a[1..], b);
    } else if b != [] {
      assert (a + b)[1..] == a + b[1..];
      CountNewParts(prior, a, b[1..]);
    }
  }

  lemma {:induction false} DedupKeeps(kept: Option<string>, s: seq<Group>, g: Group)
    requires g in DedupAfter(kept, s)
    ensures g in s
    decreases |s|
  {
    if kept == Some(s[0].attemptId) {
      DedupKeeps(kept, s[1..], g);
    } else if g != s[0] {
      assert g in DedupAfter(Some(s[0].attemptId), s[1..]);
      DedupKeeps(Some(s[0].attemptId), s[1..], g);
    }
  }

  /** What every record this module writes satisfies, given how attempts complete. */
  ghost predicate Filed(h: History) {
    && h.version == HISTORY_VERSION
    && h.groups != []
    && h.compacted == |h.groups| + h.omitted
    && Ordered(h.groups)
    && DistinctAttempts(h.groups)
    && forall i :: 0 <= i < |h.groups| ==> h.groups[i].sequence <= h.cutoff
  }

  /** There is no prior record yet, or it is one that this module has written. */
  ghost predicate FiledBefore(prior: Option<History>) {
    prior.Some? ==> Filed(prior.value)
  }

  /** Merging at the seam leaves every distinct new group and counts exactly those as new. */
  lemma SeamCounts(prior: Option<History>, front: seq<Group>)
    requires FiledBefore(prior) && forall i :: 0 <= i < |front| ==> IsNew(prior, front[i])
    ensures Dedup(front + PriorGroups(prior)) == Dedup(front) + Unmerged(front, PriorGroups(prior))
    ensures CountNew(prior, Dedup(front + PriorGroups(prior))) == |Dedup(front)|
  {
    DedupFront(front, PriorGroups(prior));
    forall i | 0 <= i < |Dedup(front)| ensures IsNew(prior, Dedup(front)[i]) {
      DedupKeeps(None, front, Dedup(front)[i]);
    }
    CountNewParts(prior, Dedup(front), Unmerged(front, PriorGroups(prior)));
  }

  /** The arrangement over a filed record: the new groups in front, merged at most at the seam. */
  lemma ArrangedOver(prior: Option<History>, cutoff: nat, supplied: seq<Group>, front: seq<Group>)
    requires FiledBefore(prior) && front == SortGroups(Admissible(prior, cutoff, supplied))
    ensures Arranged(prior, cutoff, supplied) == Dedup(front) + Unmerged(front, PriorGroups(prior))
    ensures CountNew(prior, Arranged(prior, cutoff, supplied)) == |Dedup(front)|
  {
    var added := Admissible(prior, cutoff, supplied);
    assert Newer(added, PriorGroups(prior));
    SortInFront(PriorGroups(prior), added);
    SortMembers(added);
    forall i | 0 <= i < |front| ensures IsNew(prior, front[i]) {
      assert front[i] in added;
    }
    SeamCounts(prior, front);
  }

  ghost predicate Balanced(h: History) {
    h.compacted == |h.groups| + h.omitted
  }

  predicate SeamClean(front: seq<Group>, aged: seq<Group>) {
    front != [] && aged != [] ==> front[|front| - 1].attemptId != aged[0].attemptId
  }

  lemma CandidateBalance(sessionId: string, cutoff: nat, prior: Option<History>, front: seq<Group>, all: seq<Group>, n: nat)
    requires FiledBefore(prior) && n <= |all| && all == Dedup(front) + Unmerged(front, PriorGroups(prior))
    requires CountNew(prior, all) == |Dedup(front)|
    ensures Balanced(Candidate(sessionId, cutoff, prior, all, n)) <==> SeamClean(front, PriorGroups(prior))
  {
  }

  /** The counts balance exactly when the oldest new group is not another completion of the newest old attempt. */
  lemma ConservesIff(enc: Encoding, sessionId: string, cutoff: nat, prior: Option<History>, supplied: seq<Group>,
                     maxBytes: nat)
    requires FiledBefore(prior) && Compact(enc, sessionId, cutoff, prior, supplied, maxBytes).Some?
    ensures Balanced(Compact(enc, sessionId, cutoff, prior, supplied, maxBytes).value)
       <==> SeamClean(SortGroups(Admissible(prior, cutoff, supplied)), PriorGroups(prior))
  {
    var n := CompactLongest(enc, sessionId, cutoff, prior, supplied, maxBytes);
    var front := SortGroups(Admissible(prior, cutoff, supplied));
    ArrangedOver(prior, cutoff, supplied, front);
    CandidateBalance(sessionId, cutoff, prior, front, Arranged(prior, cutoff, supplied), n);
  }

  /** One attempt completing twice: the record counts two groups and holds one. */
  lemma RecurringAttemptBreaksCount(enc: Encoding) returns (p: History, g: Group, maxBytes: nat)
    ensures Filed(p) && Compact(enc, p.sessionId, 2, Some(p), [g], maxBytes).Some?
    ensures !ValidHistory(Compact(enc, p.sessionId, 2, Some(p), [g], maxBytes).value)
  {
    var first := Group("attempt", 1, "", ["hello"]);
    g := Group("attempt", 2, "", ["again"]);
    p := History(HISTORY_VERSION, "session", 1, 1, 0, Omission(0, None, []), [first]);
    assert Admissible(Some(p), 2, [g]) == [g] + Admissible(Some(p), 2, []);
    assert [g][1..] == [] && SortGroups([g]) == Place(g, SortGroups([])) == [g];
    ArrangedOver(Some(p), 2, [g], [g]);
    var all := Arranged(Some(p), 2, [g]);
    assert Dedup([g]) == [g] + DedupAfter(Some(g.attemptId), []);
    assert Unmerged([g], p.groups) == [];
    assert all == [g];
    maxBytes := Size(enc, Candidate("session", 2, Some(p), all, 1));
    ConservesIff(enc, "session", 2, Some(p), [g], maxBytes);
  }

  // ---------------------------------------------------------------- when the validator accepts the result

  ghost predicate NewestFirst(s: seq<Group>) {
    forall i, j :: 0 <= i < j < |s| ==> s[i].sequence >= s[j].sequence
  }

  lemma {:induction false} DedupNewestFirst(kept: Option<string>, s: seq<Group>)
    requires NewestFirst(s)
    ensures NewestFirst(DedupAfter(kept, s))
    decreases |s|
  {
    if s != [] {
      if kept == Some(s[0].attemptId) {
        DedupNewestFirst(kept, s[1..]);
      } else {
        var next := Some(s[0].attemptId);
        var rest := DedupAfter(next, s[1..]);
        DedupNewestFirst(next, s[1..]);
        forall j | 0 <= j < |rest| ensures rest[j].sequence <= s[0].sequence {
          DedupKeeps(next, s[1..], rest[j]);
        }
      }
    }
  }

  /** Groups as their constructor makes them. */
  ghost predicate WellMade(s: seq<Group>) {
    forall i :: 0 <= i < |s| ==> s[i].sequence > 0 && s[i].excerpts != []
  }

  /** Whatever attempts recur, what a call arranges is newest first and within the cutoff. */
  lemma ArrangedIsOrdered(cutoff: nat, prior: Option<History>, supplied: seq<Group>)
    requires FiledBefore(prior) && (prior.Some? ==> prior.value.cutoff < cutoff)
    requires WellMade(PriorGroups(prior)) && WellMade(Admissible(prior, cutoff, supplied))
    ensures var all := Arranged(prior, cutoff, supplied);
            && NewestFirst(all)
            && forall i :: 0 <= i < |all| ==> 0 < all[i].sequence <= cutoff && all[i].excerpts != []
  {
    var added := Admissible(prior, cutoff, supplied);
    var sorted := SortGroups(PriorGroups(prior) + added);
    var all := Arranged(prior, cutoff, supplied);
    SortSorted(PriorGroups(prior) + added);
    assert NewestFirst(sorted);
    DedupNewestFirst(None, sorted);
    SortMembers(PriorGroups(prior) + added);
    forall i | 0 <= i < |all| ensures 0 < all[i].sequence <= cutoff && all[i].excerpts != [] {
      DedupKeeps(None, sorted, all[i]);
      assert all[i] in PriorGroups(prior) || all[i] in added;
    }
  }

  /** An attempt occurs on both sides. */
  predicate Shares(a: seq<Group>, b: seq<Group>) {
    exists i, j :: 0 <= i < |a| && 0 <= j < |b| && a[i].attemptId == b[j].attemptId
  }

  lemma DistinctParts(a: seq<Group>, b: seq<Group>)
    requires DistinctAttempts(b)
    ensures DistinctAttempts(a + b) <==> DistinctAttempts(a) && !Shares(a, b)
  {
    var all := a + b;
    if DistinctAttempts(all) {
      DistinctPrefix(a, all);
      forall i, j | 0 <= i < |a| && 0 <= j < |b| ensures a[i].attemptId != b[j].attemptId {
        assert all[i] == a[i] && all[|a| + j] == b[j];
      }
    }
  }

  lemma SplitPrefix(a: seq<Group>, b: seq<Group>, k: nat)
    requires k <= |a + b|
    ensures (a + b)[..k] == if k <= |a| then a[..k] else a + b[..k - |a|]
  {
  }

  /** The new groups among the first `k`, and the old ones. */
  function KeptNew(front: seq<Group>, k: nat): (r: seq<Group>) {
    var merged := Dedup(front);
    if k <= |merged| then merged[..k] else merged
  }

  function KeptOld(front: seq<Group>, aged: seq<Group>, k: nat): (r: seq<Group>)
    requires k <= |Dedup(front)| + |aged|
  {
    if k <= |Dedup(front)| then [] else aged[..k - |Dedup(front)|]
  }

  lemma KeptParts(front: seq<Group>, aged: seq<Group>, k: nat)
    requires DistinctAttempts(aged) && k <= |Dedup(front)| + |aged|
    ensures DistinctAttempts((Dedup(front) + aged)[..k])
       <==> (DistinctAttempts(KeptNew(front, k)) && !Shares(KeptNew(front, k), KeptOld(front, aged, k)))
  {
    SplitPrefix(Dedup(front), aged, k);
    if k > |Dedup(front)| {
      DistinctPrefix(aged[..k - |Dedup(front)|], aged);
      DistinctParts(Dedup(front), aged[..k - |Dedup(front)|]);
    }
  }

  /**
   The validator accepts the record of a call, the first one of a chain or a later one, if and only if the oldest
   new group is not another completion of the newest old attempt, the new groups it keeps are of different
   attempts, and none of these is an attempt of an old group it keeps.
   */
  lemma ValidIff(enc: Encoding, sessionId: string, cutoff: nat, prior: Option<History>, supplied: seq<Group>, maxBytes: nat)
    requires FiledBefore(prior) && WellMade(PriorGroups(prior)) && WellMade(Admissible(prior, cutoff, supplied))
    requires Compact(enc, sessionId, cutoff, prior, supplied, maxBytes).Some?
    ensures var h := Compact(enc, sessionId, cutoff, prior, supplied, maxBytes).value;
            var front, aged, k := SortGroups(Admissible(prior, cutoff, supplied)), PriorGroups(prior), |h.groups|;
            && k <= |Dedup(front)| + |aged|
            && (ValidHistory(h) <==>
                  (&& SeamClean(front, aged)
                   && DistinctAttempts(KeptNew(front, k)) && !Shares(KeptNew(front, k), KeptOld(front, aged, k))))
  {
    var n := CompactLongest(enc, sessionId, cutoff, prior, supplied, maxBytes);
    var front := SortGroups(Admissible(prior, cutoff, supplied));
    var all := Arranged(prior, cutoff, supplied);
    ArrangedOver(prior, cutoff, supplied, front);
    CandidateBalance(sessionId, cutoff, prior, front, all, n);
    ArrangedIsOrdered(cutoff, prior, supplied);
    KeptParts(front, PriorGroups(prior), n);
    CandidateValid(sessionId, cutoff, prior, all, n);
    var h := Candidate(sessionId, cutoff, prior, all, n);
    assert Compact(enc, sessionId, cutoff, prior, supplied, maxBytes).value == h && |h.groups| == n;
    if SeamClean(front, PriorGroups(prior)) {
      assert all == Dedup(front) + PriorGroups(prior);
      assert ValidHistory(h) <==> DistinctAttempts((Dedup(front) + PriorGroups(prior))[..n]);
    } else {
      assert !ValidHistory(h);
    }
  }

  lemma CandidateValid(sessionId: string, cutoff: nat, prior: Option<History>, all: seq<Group>, n: nat)
    requires 1 <= n <= |all| && NewestFirst(all)
    requires forall i :: 0 <= i < |all| ==> 0 < all[i].sequence <= cutoff && all[i].excerpts != []
    ensures ValidHistory(Candidate(sessionId, cutoff, prior, all, n))
       <==> Balanced(Candidate(sessionId, cutoff, prior, all, n)) && DistinctAttempts(all[..n])
  {
    assert 0 < all[0].sequence <= cutoff;
  }

  predicate HasAttempt(s: seq<Group>, attemptId: string) {
    exists j :: 0 <= j < |s| && s[j].attemptId == attemptId
  }

  lemma {:induction false} DedupAttempts(kept: Option<string>, s: seq<Group>, i: nat)
    requires i < |s|
    ensures kept == Some(s[i].attemptId) || HasAttempt(DedupAfter(kept, s), s[i].attemptId)
    decreases |s|
  {
    var r := DedupAfter(kept, s);
    if kept == Some(s[0].attemptId) {
      if i > 0 {
        assert s[1..][i - 1] == s[i];
        DedupAttempts(kept, s[1..], i - 1);
      }
    } else {
      var next := Some(s[0].attemptId);
      var rest := DedupAfter(next, s[1..]);
      assert r == [s[0]] + rest && r[0] == s[0];
      if s[0].attemptId == s[i].attemptId {
        assert r[0].attemptId == s[i].attemptId;
      } else {
        assert s[1..][i - 1] == s[i];
        DedupAttempts(next, s[1..], i - 1);
        var j :| 0 <= j < |rest| && rest[j].attemptId == s[i].attemptId;
        assert r[j + 1].attemptId == s[i].attemptId;
      }
    }
  }

  lemma DedupShares(front: seq<Group>, aged: seq<Group>)
    ensures Shares(Dedup(front), aged) <==> Shares(front, aged)
  {
    if Shares(front, aged) {
      var i, j :| 0 <= i < |front| && 0 <= j < |aged| && front[i].attemptId == aged[j].attemptId;
      DedupAttempts(None, front, i);
    }
    if Shares(Dedup(front), aged) {
      var i, j :| 0 <= i < |Dedup(front)| && 0 <= j < |aged| && Dedup(front)[i].attemptId == aged[j].attemptId;
      DedupKeeps(None, front, Dedup(front)[i]);
    }
  }

  /**
   When the call drops nothing, the validator accepts its record if and only if no new group is of an old
   attempt and new groups of one attempt follow each other in the sorted order.
   */
  lemma ValidIffNothingDropped(enc: Encoding, sessionId: string, cutoff: nat, prior: Option<History>,
                               supplied: seq<Group>, maxBytes: nat)
    requires FiledBefore(prior) && WellMade(PriorGroups(prior)) && WellMade(Admissible(prior, cutoff, supplied))
    requires Compact(enc, sessionId, cutoff, prior, supplied, maxBytes).Some?
    requires Compact(enc, sessionId, cutoff, prior, supplied, maxBytes).value.omitted == PriorOmitted(prior)
    ensures var front := SortGroups(Admissible(prior, cutoff, supplied));
            var h := Compact(enc, sessionId, cutoff, prior, supplied, maxBytes).value;
            ValidHistory(h) <==> DistinctAttempts(Dedup(front)) && !Shares(front, PriorGroups(prior))
  {
    var h := Compact(enc, sessionId, cutoff, prior, supplied, maxBytes).value;
    var front, aged := SortGroups(Admissible(prior, cutoff, supplied)), PriorGroups(prior);
    var n := CompactLongest(enc, sessionId, cutoff, prior, supplied, maxBytes);
    ArrangedOver(prior, cutoff, supplied, front);
    ValidIff(enc, sessionId, cutoff, prior, supplied, maxBytes);
    DedupShares(front, aged);
    if SeamClean(front, aged) {
      assert |h.groups| == |Dedup(front)| + |aged|;
      WholeKept(front, aged);
    } else {
      assert front[|front| - 1].attemptId == aged[0].attemptId;
    }
  }

  lemma WholeKept(front: seq<Group>, aged: seq<Group>)
    ensures KeptNew(front, |Dedup(front)| + |aged|) == Dedup(front)
    ensures KeptOld(front, aged, |Dedup(front)| + |aged|) == aged
  {
  }

  /** Attempts that recur apart: the counts balance, and the validator still refuses the record. */
  lemma RecurringAttemptRepeats(enc: Encoding) returns (p: History, supplied: seq<Group>, maxBytes: nat)
    ensures Filed(p) && Compact(enc, p.sessionId, 4, Some(p), supplied, maxBytes).Some?
    ensures Balanced(Compact(enc, p.sessionId, 4, Some(p), supplied, maxBytes).value)
    ensures !ValidHistory(Compact(enc, p.sessionId, 4, Some(p), supplied, maxBytes).value)
  {
    var a, b := Group("a", 1, "", ["hello"]), Group("b", 2, "", ["hello"]);
    var again, c := Group("a", 4, "", ["again"]), Group("c", 3, "", ["hello"]);
    p := History(HISTORY_VERSION, "session", 2, 2, 0, Omission(0, None, []), [b, a]);
    supplied := [again, c];
    TwoNewGroups(p, again, c);
    ArrangedOver(Some(p), 4, supplied, supplied);
    var all := Arranged(Some(p), 4, supplied);
    maxBytes := Size(enc, Candidate("session", 4, Some(p), all, |all|));
    assert Fits(enc, "session", 4, Some(p), all, maxBytes, |all|);
    ConservesIff(enc, "session", 4, Some(p), supplied, maxBytes);
    assert supplied[0].attemptId == p.groups[1].attemptId;
    ValidIffNothingDropped(enc, "session", 4, Some(p), supplied, maxBytes);
  }

  /** The first call of a chain: an attempt that recurs apart is repeated in a record whose counts balance. */
  lemma FirstCallRepeats(enc: Encoding) returns (supplied: seq<Group>, maxBytes: nat)
    ensures WellMade(supplied) && Compact(enc, "session", 3, None, supplied, maxBytes).Some?
    ensures Balanced(Compact(enc, "session", 3, None, supplied, maxBytes).value)
    ensures !ValidHistory(Compact(enc, "session", 3, None, supplied, maxBytes).value)
  {
    var again, b, a := Group("a", 3, "", ["again"]), Group("b", 2, "", ["hello"]), Group("a", 1, "", ["hello"]);
    supplied := [again, b, a];
    ThreeNewGroups(again, b, a);
    ArrangedOver(None, 3, supplied, supplied);
    var all := Arranged(None, 3, supplied);
    maxBytes := Size(enc, Candidate("session", 3, None, all, |all|));
    assert Fits(enc, "session", 3, None, all, maxBytes, |all|);
    ConservesIff(enc, "session", 3, None, supplied, maxBytes);
    assert supplied[0].attemptId == supplied[2].attemptId;
    ValidIffNothingDropped(enc, "session", 3, None, supplied, maxBytes);
  }

  lemma ThreeNewGroups(f: Group, g: Group, h: Group)
    requires h.sequence < g.sequence < f.sequence <= 3 && f.attemptId != g.attemptId && g.attemptId != h.attemptId
    ensures Admissible(None, 3, [f, g, h]) == [f, g, h] && SortGroups([f, g, h]) == [f, g, h] && Dedup([f, g, h]) == [f, g, h]
  {
    assert [f, g, h][1..] == [g, h] && [g, h][1..] == [h] && [h][1..] == [];
    assert Admissible(None, 3, [h]) == [h] + Admissible(None, 3, []);
    assert Admissible(None, 3, [g, h]) == [g] + Admissible(None, 3, [h]);
    assert SortGroups([h]) == Place(h, SortGroups([])) == [h];
    assert SortGroups([g, h]) == Place(g, [h]) == [g, h];
    assert DedupAfter(Some(g.attemptId), [h]) == [h] + DedupAfter(Some(h.attemptId), []);
    assert DedupAfter(Some(f.attemptId), [g, h]) == [g] + DedupAfter(Some(g.attemptId), [h]);
  }

  /** Two new groups of different attempts, the newer one first. */
  lemma TwoNewGroups(p: History, g: Group, h: Group)
    requires p.cutoff < h.sequence < g.sequence <= 4 && g.attemptId != h.attemptId
    ensures Admissible(Some(p), 4, [g, h]) == [g, h] && SortGroups([g, h]) == [g, h] && Dedup([g, h]) == [g, h]
  {
    assert [g, h][1..] == [h] && [h][1..] == [];
    assert Admissible(Some(p), 4, [h]) == [h] + Admissible(Some(p), 4, []);
    assert SortGroups([h]) == Place(h, SortGroups([])) == [h];
    assert DedupAfter(Some(g.attemptId), [h]) == [h] + DedupAfter(Some(h.attemptId), []);
  }

  lemma OrderedFront(added: seq<Group>, aged: seq<Group>)
    requires Ordered(aged) && Newer(added, aged) && DistinctAttempts(aged + added)
    ensures var all := SortGroups(added) + aged;
            && SortGroups(aged + added) == all && |all| == |added| + |aged| && Ordered(all) && DistinctAttempts(all)
            && Dedup(all) == all
  {
    var both := aged + added;
    SortOrdered(both);
    SortInFront(aged, added);
    SortPermutes(both);
    DistinctMultiset(both, SortGroups(both));
    DedupDistinct(SortGroups(both));
  }

  lemma CountAdded(prior: Option<History>, added: seq<Group>, aged: seq<Group>)
    requires forall i :: 0 <= i < |added| ==> IsNew(prior, added[i])
    requires forall i :: 0 <= i < |aged| ==> !IsNew(prior, aged[i])
    requires |SortGroups(added)| == |added|
    ensures CountNew(prior, SortGroups(added) + aged) == |added|
  {
    var front := SortGroups(added);
    SortMembers(added);
    forall i | 0 <= i < |front| ensures IsNew(prior, front[i]) {
      assert front[i] in added;
    }
    CountNewParts(prior, front, aged);
  }

  /** With attempts that complete once the arrangement is the new groups, sorted, in front of the old ones. */
  lemma ArrangedDistinct(prior: Option<History>, cutoff: nat, supplied: seq<Group>, added: seq<Group>)
    requires prior.Some? ==> Filed(prior.value)
    requires added == Admissible(prior, cutoff, supplied) && DistinctAttempts(PriorGroups(prior) + added)
    ensures var all := Arranged(prior, cutoff, supplied);
            && all == SortGroups(added) + PriorGroups(prior)
            && |all| == |added| + |PriorGroups(prior)|
            && CountNew(prior, all) == |added|
            && Ordered(all) && DistinctAttempts(all)
  {
    var aged := PriorGroups(prior);
    assert Newer(added, aged);
    OrderedFront(added, aged);
    CountAdded(prior, added, aged);
  }

  /** With attempts that complete once, every record written over a filed one is filed again. */
  lemma CompactFiles(enc: Encoding, sessionId: string, cutoff: nat, prior: Option<History>, supplied: seq<Group>,
                     maxBytes: nat)
    requires prior.Some? ==> Filed(prior.value)
    requires DistinctAttempts(PriorGroups(prior) + Admissible(prior, cutoff, supplied))
    ensures var r := Compact(enc, sessionId, cutoff, prior, supplied, maxBytes);
            r.Some? ==> Filed(r.value) && r.value.cutoff == cutoff && r.value.sessionId == sessionId
  {
    var n := CompactLongest(enc, sessionId, cutoff, prior, supplied, maxBytes);
    var added := Admissible(prior, cutoff, supplied);
    ArrangedDistinct(prior, cutoff, supplied, added);
    if Compact(enc, sessionId, cutoff, prior, supplied, maxBytes).Some? {
      var all := Arranged(prior, cutoff, supplied);
      SortMembers(added);
      forall i | 0 <= i < n ensures all[i].sequence <= cutoff {
        if i < |added| {
          assert all[i] == SortGroups(added)[i] && all[i] in added;
        } else {
          assert all[i] == PriorGroups(prior)[i - |added|];
        }
      }
    }
  }

  // ---------------------------------------------------------------- chains of compactions

  datatype Call = Call(cutoff: nat, supplied: seq<Group>, maxBytes: nat)

  /** The latest record, and every group that a successful call has taken in. */
  datatype Track = Track(history: Option<History>, covered: seq<Group>)

  /** A failed call leaves the record as it was. */
  function Advance(enc: Encoding, sessionId: string, t: Track, call: Call): (u: Track) {
    var r := Compact(enc, sessionId, call.cutoff, t.history, call.supplied, call.maxBytes);
    if r.None? then t else Track(r, t.covered + Admissible(t.history, call.cutoff, call.supplied))
  }

  function Chained(enc: Encoding, sessionId: string, t: Track, calls: seq<Call>): (u: Track)
    decreases |calls|
  {
    if calls == [] then t else Chained(enc, sessionId, Advance(enc, sessionId, t, calls[0]), calls[1..])
  }

  /** The record is a newest-first prefix of everything covered, and its counts add up to it. */
  ghost predicate Covers(sessionId: string, t: Track) {
    match t.history
    case None => t.covered == []
    case Some(h) =>
      && h.version == HISTORY_VERSION && h.sessionId == sessionId
      && 1 <= |h.groups| <= |t.covered|
      && h.groups == SortGroups(t.covered)[..|h.groups|]
      && h.compacted == |t.covered| < U32_LIMIT
      && h.omitted == |t.covered| - |h.groups|
      && forall i :: 0 <= i < |t.covered| ==> t.covered[i].sequence <= h.cutoff
  }

  lemma CoversMeansFiled(sessionId: string, t: Track)
    requires Covers(sessionId, t) && t.history.Some? && DistinctAttempts(t.covered)
    ensures Filed(t.history.value)
  {
    SortOrdered(t.covered);
    SortPermutes(t.covered);
    SortMembers(t.covered);
    DistinctMultiset(t.covered, SortGroups(t.covered));
    var h := t.history.value;
    forall i | 0 <= i < |h.groups| ensures h.groups[i].sequence <= h.cutoff {
      assert h.groups[i] == SortGroups(t.covered)[i] && h.groups[i] in t.covered;
    }
  }

  /** Covering more: the newer groups go in front of the whole sorted cover. */
  lemma SortCover(covered: seq<Group>, added: seq<Group>)
    requires DistinctAttempts(covered + added) && Newer(added, covered)
    ensures SortGroups(covered + added) == SortGroups(added) + SortGroups(covered)
    ensures DistinctAttempts(SortGroups(covered) + added)
  {
    var sorted := SortGroups(covered);
    DistinctPrefix(covered, covered + added);
    SortOrdered(covered);
    SortMembers(covered);
    SortPermutes(covered);
    SortInFront(sorted, added);
    assert multiset(sorted + added) == multiset(covered + added);
    DistinctMultiset(covered + added, sorted + added);
    DistinctHasNoTies(sorted + added);
    SameSort(sorted + added, covered + added);
  }

  lemma DistinctWithin(sorted: seq<Group>, added: seq<Group>, k: nat)
    requires DistinctAttempts(sorted + added) && k <= |sorted|
    ensures DistinctAttempts(sorted[..k] + added)
  {
    var s := sorted[..k] + added;
    forall i, j | 0 <= i < j < |s| ensures s[i].attemptId != s[j].attemptId {
      assert s[i] == (sorted + added)[if i < k then i else i - k + |sorted|];
      assert s[j] == (sorted + added)[if j < k then j else j - k + |sorted|];
    }
  }

  /** Sorting what is covered and what is new, up to the groups that the record still holds. */
  lemma CoverPrefix(covered: seq<Group>, added: seq<Group>, k: nat)
    requires DistinctAttempts(covered + added) && Newer(added, covered) && k <= |covered|
    ensures |SortGroups(covered + added)| == |added| + |covered| && |SortGroups(covered)| == |covered|
    ensures SortGroups(added) + SortGroups(covered)[..k] == SortGroups(covered + added)[..|added| + k]
    ensures DistinctAttempts(SortGroups(covered)[..k] + added)
  {
    SortPermutes(covered);
    SortPermutes(added);
    SortCover(covered, added);
    DistinctWithin(SortGroups(covered), added, k);
    var sorted := SortGroups(covered);
    assert SortGroups(added) + sorted[..k] == (SortGroups(added) + sorted)[..|added| + k];
  }

  lemma AddedIsNewer(sessionId: string, t: Track, call: Call, added: seq<Group>)
    requires Covers(sessionId, t) && added == Admissible(t.history, call.cutoff, call.supplied)
    ensures Newer(added, t.covered)
  {
  }

  lemma PriorIsCovered(sessionId: string, t: Track)
    requires Covers(sessionId, t) && DistinctAttempts(t.covered)
    ensures var aged := PriorGroups(t.history);
            && |aged| <= |t.covered| == |SortGroups(t.covered)| && aged == SortGroups(t.covered)[..|aged|]
            && FiledBefore(t.history)
  {
    if t.history.Some? {
      CoversMeansFiled(sessionId, t);
    }
  }

  /** One call, seen from everything covered so far. */
  lemma AdvanceArranges(sessionId: string, t: Track, call: Call, added: seq<Group>)
    requires Covers(sessionId, t) && added == Admissible(t.history, call.cutoff, call.supplied)
    requires DistinctAttempts(t.covered + added)
    ensures var k := |PriorGroups(t.history)|;
            var all := Arranged(t.history, call.cutoff, call.supplied);
            && k <= |t.covered| && |SortGroups(t.covered + added)| == |added| + |t.covered|
            && all == SortGroups(t.covered + added)[..|added| + k]
            && CountNew(t.history, all) == |added|
  {
    DistinctPrefix(t.covered, t.covered + added);
    PriorIsCovered(sessionId, t);
    AddedIsNewer(sessionId, t, call, added);
    CoverPrefix(t.covered, added, |PriorGroups(t.history)|);
    ArrangedDistinct(t.history, call.cutoff, call.supplied, added);
  }

  lemma AdvanceCovers(enc: Encoding, sessionId: string, t: Track, call: Call)
    requires Covers(sessionId, t) && DistinctAttempts(Advance(enc, sessionId, t, call).covered)
    ensures Covers(sessionId, Advance(enc, sessionId, t, call))
  {
    var r := Compact(enc, sessionId, call.cutoff, t.history, call.supplied, call.maxBytes);
    if r.Some? {
      var added := Admissible(t.history, call.cutoff, call.supplied);
      AdvanceArranges(sessionId, t, call, added);
      var n := CompactLongest(enc, sessionId, call.cutoff, t.history, call.supplied, call.maxBytes);
      var all := Arranged(t.history, call.cutoff, call.supplied);
      assert r.value.groups == all[..n];
      assert all[..n] == SortGroups(t.covered + added)[..n];
    }
  }

  lemma {:induction false} CoveredGrows(enc: Encoding, sessionId: string, t: Track, calls: seq<Call>)
    ensures t.covered <= Chained(enc, sessionId, t, calls).covered
    decreases |calls|
  {
    if calls != [] {
      CoveredGrows(enc, sessionId, Advance(enc, sessionId, t, calls[0]), calls[1..]);
    }
  }

  /**
   After any chain of calls the record keeps exactly a newest-first prefix of all the groups ever taken in,
   and its counts are theirs, provided that no attempt completes twice.
   */
  lemma {:induction false} ChainCovers(enc: Encoding, sessionId: string, t: Track, calls: seq<Call>)
    requires Covers(sessionId, t) && DistinctAttempts(Chained(enc, sessionId, t, calls).covered)
    ensures Covers(sessionId, Chained(enc, sessionId, t, calls))
    decreases |calls|
  {
    if calls != [] {
      var u := Advance(enc, sessionId, t, calls[0]);
      CoveredGrows(enc, sessionId, u, calls[1..]);
      DistinctPrefix(u.covered, Chained(enc, sessionId, u, calls[1..]).covered);
      AdvanceCovers(enc, sessionId, t, calls[0]);
      ChainCovers(enc, sessionId, u, calls[1..]);
    }
  }

  /** Every record that a chain of calls leaves passes the validator of retained records. */
  lemma ChainValidates(enc: Encoding, sessionId: string, calls: seq<Call>)
    requires var t := Chained(enc, sessionId, Track(None, []), calls); DistinctAttempts(t.covered) && WellMade(t.covered)
    ensures var t := Chained(enc, sessionId, Track(None, []), calls); t.history.Some? ==> ValidHistory(t.history.value)
  {
    var t := Chained(enc, sessionId, Track(None, []), calls);
    ChainCovers(enc, sessionId, Track(None, []), calls);
    if t.history.Some? {
      CoversMeansFiled(sessionId, t);
      FiledIsValid(t);
    }
  }

  lemma FiledIsValid(t: Track)
    requires t.history.Some? && Filed(t.history.value) && WellMade(t.covered)
    requires |t.history.value.groups| <= |SortGroups(t.covered)|
    requires t.history.value.groups == SortGroups(t.covered)[..|t.history.value.groups|]
    ensures ValidHistory(t.history.value)
  {
    var h := t.history.value;
    SortMembers(t.covered);
    forall i | 0 <= i < |h.groups| ensures 0 < h.groups[i].sequence <= h.cutoff && h.groups[i].excerpts != [] {
      assert h.groups[i] == SortGroups(t.covered)[i] && h.groups[i] in t.covered;
    }
    assert h.groups[0].sequence > 0;
  }

  // ---------------------------------------------------------------- a chain against one batch

  lemma {:induction false} DigitsAreDecimal(n: nat)
    ensures Digits(n) == |Decimal(n)|
  {
    if n >= 10 {
      DigitsAreDecimal(n / 10);
    }
  }

  lemma {:induction false} DigitsGrow(a: nat, b: nat)
    requires a <= b
    ensures Digits(a) <= Digits(b)
    decreases b
  {
    if b >= 10 && a >= 10 {
      DigitsGrow(a / 10, b / 10);
    }
  }

  lemma {:induction false} GroupBytesGrow(enc: Encoding, a: seq<Group>, b: seq<Group>)
    ensures GroupBytes(enc, b) <= GroupBytes(enc, a + b)
    decreases |a|
  {
    if a == [] {
      assert a + b == b;
    } else {
      GroupBytesGrow(enc, a[1..], b);
      assert (a + b)[1..] == a[1..] + b;
    }
  }

  /** The record of everything covered that would keep the newest `m` groups is too large. */
  ghost predicate TooLarge(enc: Encoding, cutoff: nat, sorted: seq<Group>, maxBytes: nat, m: nat)
    requires m <= |sorted|
  {
    Extent(enc, cutoff, |sorted|, |sorted| - m, sorted[..m]) > maxBytes
  }

  /** The record fits and none that keeps more of the cover would. */
  ghost predicate Tight(enc: Encoding, t: Track, maxBytes: nat) {
    t.history.Some? ==>
      var h := t.history.value;
      var sorted := SortGroups(t.covered);
      && Size(enc, h) <= maxBytes
      && forall m :: |h.groups| < m <= |sorted| ==> TooLarge(enc, h.cutoff, sorted, maxBytes, m)
  }

  /** What was too large before is too large after more groups arrive. */
  lemma TooLargeStays(enc: Encoding, cutoff: nat, later: nat, sorted: seq<Group>, front: seq<Group>, maxBytes: nat, m: nat)
    requires m <= |sorted| && cutoff <= later && TooLarge(enc, cutoff, sorted, maxBytes, m)
    ensures TooLarge(enc, later, front + sorted, maxBytes, |front| + m)
  {
    DigitsGrow(cutoff, later);
    DigitsGrow(|sorted|, |front + sorted|);
    assert (front + sorted)[..|front| + m] == front + sorted[..m];
    GroupBytesGrow(enc, front, sorted[..m]);
  }

  lemma AdvanceTight(enc: Encoding, sessionId: string, t: Track, call: Call)
    requires Covers(sessionId, t) && Tight(enc, t, call.maxBytes)
    requires DistinctAttempts(Advance(enc, sessionId, t, call).covered)
    ensures Tight(enc, Advance(enc, sessionId, t, call), call.maxBytes)
  {
    var r := Compact(enc, sessionId, call.cutoff, t.history, call.supplied, call.maxBytes);
    if r.Some? {
      var added := Admissible(t.history, call.cutoff, call.supplied);
      AdvanceArranges(sessionId, t, call, added);
      var n := CompactLongest(enc, sessionId, call.cutoff, t.history, call.supplied, call.maxBytes);
      var both := t.covered + added;
      var sorted := SortGroups(both);
      var k := |PriorGroups(t.history)|;
      assert r.value.groups == Arranged(t.history, call.cutoff, call.supplied)[..n];
      forall m | n < m <= |both| ensures TooLarge(enc, call.cutoff, sorted, call.maxBytes, m) {
        if m <= |added| + k {
          NotFittingIsTooLarge(enc, sessionId, t, call, added, m);
        } else {
          StillTooLarge(enc, sessionId, t, call, added, m);
        }
      }
    }
  }

  lemma NotFittingIsTooLarge(enc: Encoding, sessionId: string, t: Track, call: Call, added: seq<Group>, m: nat)
    requires Covers(sessionId, t) && added == Admissible(t.history, call.cutoff, call.supplied)
    requires var all := Arranged(t.history, call.cutoff, call.supplied);
             var sorted := SortGroups(t.covered + added);
             && m <= |all| <= |sorted| == |t.covered + added| && all == sorted[..|all|]
             && |all| == |added| + |PriorGroups(t.history)| && CountNew(t.history, all) == |added|
             && !Fits(enc, sessionId, call.cutoff, t.history, all, call.maxBytes, m)
    ensures TooLarge(enc, call.cutoff, SortGroups(t.covered + added), call.maxBytes, m)
  {
    var all := Arranged(t.history, call.cutoff, call.supplied);
    var sorted := SortGroups(t.covered + added);
    assert all[..m] == sorted[..m];
  }

  lemma StillTooLarge(enc: Encoding, sessionId: string, t: Track, call: Call, added: seq<Group>, m: nat)
    requires Covers(sessionId, t) && Tight(enc, t, call.maxBytes) && Follows(sessionId, call.cutoff, t.history)
    requires added == Admissible(t.history, call.cutoff, call.supplied) && DistinctAttempts(t.covered + added)
    requires |added| + |PriorGroups(t.history)| < m <= |t.covered + added|
    ensures TooLarge(enc, call.cutoff, SortGroups(t.covered + added), call.maxBytes, m)
  {
    SortCover(t.covered, added);
    TooLargeStays(enc, t.history.value.cutoff, call.cutoff, SortGroups(t.covered), SortGroups(added), call.maxBytes,
                  m - |added|);
  }

  lemma {:induction false} ChainTight(enc: Encoding, sessionId: string, t: Track, calls: seq<Call>, maxBytes: nat)
    requires Covers(sessionId, t) && Tight(enc, t, maxBytes)
    requires forall i :: 0 <= i < |calls| ==> calls[i].maxBytes == maxBytes
    requires DistinctAttempts(Chained(enc, sessionId, t, calls).covered)
    ensures Covers(sessionId, Chained(enc, sessionId, t, calls)) && Tight(enc, Chained(enc, sessionId, t, calls), maxBytes)
    decreases |calls|
  {
    if calls != [] {
      var u := Advance(enc, sessionId, t, calls[0]);
      CoveredGrows(enc, sessionId, u, calls[1..]);
      DistinctPrefix(u.covered, Chained(enc, sessionId, u, calls[1..]).covered);
      AdvanceCovers(enc, sessionId, t, calls[0]);
      AdvanceTight(enc, sessionId, t, calls[0]);
      ChainTight(enc, sessionId, u, calls[1..], maxBytes);
    }
  }

  lemma {:induction false} EverythingAdmissible(cutoff: nat, s: seq<Group>)
    requires forall i :: 0 <= i < |s| ==> s[i].sequence <= cutoff
    ensures Admissible(None, cutoff, s) == s
    decreases |s|
  {
    if s != [] {
      EverythingAdmissible(cutoff, s[1..]);
    }
  }

  lemma BatchFits(enc: Encoding, sessionId: string, cutoff: nat, sorted: seq<Group>, maxBytes: nat, m: nat)
    requires m <= |sorted| && CountNew(None, sorted) == |sorted|
    ensures Fits(enc, sessionId, cutoff, None, sorted, maxBytes, m)
       <==> Extent(enc, cutoff, |sorted|, |sorted| - m, sorted[..m]) <= maxBytes
  {
    var c := Candidate(sessionId, cutoff, None, sorted, m);
    assert c.compacted == |sorted| && c.omitted == |sorted| - m && c.groups == sorted[..m];
  }

  /** The loop stops at the only prefix that fits while none longer does. */
  lemma ShrinkStops(enc: Encoding, sessionId: string, cutoff: nat, sorted: seq<Group>, maxBytes: nat, k: nat)
    requires 1 <= k <= |sorted| < U32_LIMIT && Fits(enc, sessionId, cutoff, None, sorted, maxBytes, k)
    requires forall m :: k < m <= |sorted| ==> !Fits(enc, sessionId, cutoff, None, sorted, maxBytes, m)
    ensures Shrink(enc, sessionId, cutoff, None, sorted, maxBytes, |sorted|)
         == Some(Candidate(sessionId, cutoff, None, sorted, k))
  {
    var n := ShrinkLongest(enc, sessionId, cutoff, None, sorted, maxBytes, |sorted|);
    assert n == k;
  }

  lemma BatchArranged(cutoff: nat, covered: seq<Group>)
    requires DistinctAttempts(covered) && forall i :: 0 <= i < |covered| ==> covered[i].sequence <= cutoff
    ensures Arranged(None, cutoff, covered) == SortGroups(covered)
    ensures CountNew(None, SortGroups(covered)) == |covered|
  {
    EverythingAdmissible(cutoff, covered);
    assert PriorGroups(None) + covered == covered;
    ArrangedDistinct(None, cutoff, covered, covered);
    assert SortGroups(covered) + PriorGroups(None) == SortGroups(covered);
  }

  lemma BatchStops(enc: Encoding, sessionId: string, cutoff: nat, sorted: seq<Group>, maxBytes: nat, k: nat)
    requires 1 <= k <= |sorted| < U32_LIMIT && CountNew(None, sorted) == |sorted|
    requires Extent(enc, cutoff, |sorted|, |sorted| - k, sorted[..k]) <= maxBytes
    requires forall m :: k < m <= |sorted| ==> TooLarge(enc, cutoff, sorted, maxBytes, m)
    ensures Shrink(enc, sessionId, cutoff, None, sorted, maxBytes, |sorted|)
         == Some(Candidate(sessionId, cutoff, None, sorted, k))
  {
    BatchFits(enc, sessionId, cutoff, sorted, maxBytes, k);
    forall m | k < m <= |sorted| ensures !Fits(enc, sessionId, cutoff, None, sorted, maxBytes, m) {
      assert TooLarge(enc, cutoff, sorted, maxBytes, m);
      BatchFits(enc, sessionId, cutoff, sorted, maxBytes, m);
    }
    ShrinkStops(enc, sessionId, cutoff, sorted, maxBytes, k);
  }

  /** A tight record is the batch compaction of its cover, up to the hash that chains the omissions. */
  lemma TightIsBatch(enc: Encoding, sessionId: string, t: Track, maxBytes: nat)
    requires Covers(sessionId, t) && Tight(enc, t, maxBytes) && t.history.Some? && DistinctAttempts(t.covered)
    ensures var h := t.history.value;
            var b := Compact(enc, sessionId, h.cutoff, None, t.covered, maxBytes);
            b.Some? && b.value == h.(omittedHash := b.value.omittedHash)
  {
    var h := t.history.value;
    BatchArranged(h.cutoff, t.covered);
    BatchStops(enc, sessionId, h.cutoff, SortGroups(t.covered), maxBytes, |h.groups|);
  }

  /** With one byte limit, compacting step by step gives what compacting everything at once would give. */
  lemma ChainIsBatch(enc: Encoding, sessionId: string, calls: seq<Call>, maxBytes: nat)
    requires forall i :: 0 <= i < |calls| ==> calls[i].maxBytes == maxBytes
    requires DistinctAttempts(Chained(enc, sessionId, Track(None, []), calls).covered)
    ensures var t := Chained(enc, sessionId, Track(None, []), calls);
            t.history.Some? ==>
              var h := t.history.value;
              var b := Compact(enc, sessionId, h.cutoff, None, t.covered, maxBytes);
              b.Some? && b.value == h.(omittedHash := b.value.omittedHash)
  {
    var t := Chained(enc, sessionId, Track(None, []), calls);
    ChainTight(enc, sessionId, Track(None, []), calls, maxBytes);
    if t.history.Some? {
      TightIsBatch(enc, sessionId, t, maxBytes);
    }
  }
}
