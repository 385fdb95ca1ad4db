/** Which of all the groups ever supplied a chain of compactions has taken in, and which it has lost. */
module CompactionSupply {
  import opened Text
  import opened Compaction
  import opened CompactionChain

  function UpTo(cutoff: nat, s: seq<Group>): (r: seq<Group>)
    decreases |s|
  {
    if s == [] then []
    else if s[0].sequence <= cutoff then [s[0]] + UpTo(cutoff, s[1..])
    else UpTo(cutoff, s[1..])
  }

  /** Every group that any call supplied, whether the call succeeded or not, up to a cutoff. */
  function SuppliedUpTo(calls: seq<Call>, cutoff: nat): (r: seq<Group>)
    decreases |calls|
  {
    if calls == [] then [] else UpTo(cutoff, calls[0].supplied) + SuppliedUpTo(calls[1..], cutoff)
  }

  function FinalCutoff(t: Track): (cutoff: nat) {
    if t.history.Some? then t.history.value.cutoff else 0
  }

  predicate Succeeds(enc: Encoding, sessionId: string, t: Track, call: Call) {
    Compact(enc, sessionId, call.cutoff, t.history, call.supplied, call.maxBytes).Some?
  }

  /** No group comes too late or too early for its call, or in a call that fails. */
  ghost predicate OnTime(enc: Encoding, sessionId: string, t: Track, call: Call, cutoff: nat) {
    forall i :: 0 <= i < |call.supplied| && call.supplied[i].sequence <= cutoff ==>
      Succeeds(enc, sessionId, t, call) && Admitted(t.history, call.cutoff, call.supplied[i])
  }

  ghost predicate AllOnTime(enc: Encoding, sessionId: string, t: Track, calls: seq<Call>, cutoff: nat)
    decreases |calls|
  {
    calls == [] ||
    (OnTime(enc, sessionId, t, calls[0], cutoff)
     && AllOnTime(enc, sessionId, Advance(enc, sessionId, t, calls[0]), calls[1..], cutoff))
  }

  // ---------------------------------------------------------------- counting

  lemma {:induction false} UpToCount(cutoff: nat, s: seq<Group>, g: Group)
    ensures multiset(UpTo(cutoff, s))[g] == if g.sequence <= cutoff then multiset(s)[g] else 0
    decreases |s|
  {
    if s != [] {
      UpToCount(cutoff, s[1..], g);
      assert s == [s[0]] + s[1..];
      assert multiset(s)[g] == multiset{s[0]}[g] + multiset(s[1..])[g];
    }
  }

  /** What one call adds to the cover. */
  function Added(enc: Encoding, sessionId: string, t: Track, call: Call): (added: seq<Group>) {
    if Succeeds(enc, sessionId, t, call) then Admissible(t.history, call.cutoff, call.supplied) else []
  }

  lemma AdvanceAdds(enc: Encoding, sessionId: string, t: Track, call: Call)
    ensures Advance(enc, sessionId, t, call).covered == t.covered + Added(enc, sessionId, t, call)
    ensures FinalCutoff(t) <= FinalCutoff(Advance(enc, sessionId, t, call))
    ensures Succeeds(enc, sessionId, t, call) ==> FinalCutoff(Advance(enc, sessionId, t, call)) == call.cutoff
  {
    var n := CompactLongest(enc, sessionId, call.cutoff, t.history, call.supplied, call.maxBytes);
  }

  lemma {:induction false} CutoffGrows(enc: Encoding, sessionId: string, t: Track, calls: seq<Call>)
    ensures FinalCutoff(t) <= FinalCutoff(Chained(enc, sessionId, t, calls))
    decreases |calls|
  {
    if calls != [] {
      AdvanceAdds(enc, sessionId, t, calls[0]);
      CutoffGrows(enc, sessionId, Advance(enc, sessionId, t, calls[0]), calls[1..]);
    }
  }

  lemma AddedCount(enc: Encoding, sessionId: string, t: Track, call: Call, cutoff: nat, g: Group)
    requires Succeeds(enc, sessionId, t, call) ==> call.cutoff <= cutoff
    ensures var added, supplied := multiset(Added(enc, sessionId, t, call))[g], multiset(UpTo(cutoff, call.supplied))[g];
            && added <= supplied
            && (added == supplied <==>
                  supplied == 0 || (Succeeds(enc, sessionId, t, call) && Admitted(t.history, call.cutoff, g)))
  {
    UpToCount(cutoff, call.supplied, g);
    AdmissibleCount(t.history, call.cutoff, call.supplied, g);
  }

  /** One call takes in no more than it is supplied with, and all of it exactly when everything is on time. */
  lemma AddedIff(enc: Encoding, sessionId: string, t: Track, call: Call, cutoff: nat)
    requires Succeeds(enc, sessionId, t, call) ==> call.cutoff <= cutoff
    ensures multiset(Added(enc, sessionId, t, call)) <= multiset(UpTo(cutoff, call.supplied))
    ensures multiset(Added(enc, sessionId, t, call)) == multiset(UpTo(cutoff, call.supplied))
       <==> OnTime(enc, sessionId, t, call, cutoff)
  {
    var added, supplied := multiset(Added(enc, sessionId, t, call)), multiset(UpTo(cutoff, call.supplied));
    forall g ensures added[g] <= supplied[g] {
      AddedCount(enc, sessionId, t, call, cutoff, g);
    }
    if OnTime(enc, sessionId, t, call, cutoff) {
      forall g ensures added[g] == supplied[g] {
        AddedCount(enc, sessionId, t, call, cutoff, g);
        UpToCount(cutoff, call.supplied, g);
        if supplied[g] > 0 {
          assert g in call.supplied;
        }
      }
    }
    if added == supplied {
      forall i | 0 <= i < |call.supplied| && call.supplied[i].sequence <= cutoff
        ensures Succeeds(enc, sessionId, t, call) && Admitted(t.history, call.cutoff, call.supplied[i])
      {
        var g := call.supplied[i];
        AddedCount(enc, sessionId, t, call, cutoff, g);
        UpToCount(cutoff, call.supplied, g);
        assert g in multiset(call.supplied);
      }
    }
  }

  lemma PartsEqualIff(a: multiset<Group>, b: multiset<Group>, c: multiset<Group>, d: multiset<Group>, base: multiset<Group>)
    requires a <= b && c <= d
    ensures base + a + c == base + (b + d) <==> a == b && c == d
  {
    if base + a + c == base + (b + d) {
      forall g ensures a[g] == b[g] && c[g] == d[g] {
        assert (base + a + c)[g] == (base + (b + d))[g];
      }
    }
  }

  /**
   What a chain covers is everything ever supplied up to the final cutoff, each as often as it was supplied, if
   and only if no such group came late, came early, or came in a call that failed.
   */
  lemma {:induction false} CoversSuppliedIff(enc: Encoding, sessionId: string, t: Track, calls: seq<Call>, cutoff: nat)
    requires cutoff == FinalCutoff(Chained(enc, sessionId, t, calls))
    ensures multiset(t.covered) <= multiset(Chained(enc, sessionId, t, calls).covered)
         <= multiset(t.covered) + multiset(SuppliedUpTo(calls, cutoff))
    ensures multiset(Chained(enc, sessionId, t, calls).covered) == multiset(t.covered) + multiset(SuppliedUpTo(calls, cutoff))
       <==> AllOnTime(enc, sessionId, t, calls, cutoff)
    decreases |calls|
  {
    if calls != [] {
      var u, rest := Advance(enc, sessionId, t, calls[0]), calls[1..];
      AdvanceAdds(enc, sessionId, t, calls[0]);
      CutoffGrows(enc, sessionId, u, rest);
      AddedIff(enc, sessionId, t, calls[0], cutoff);
      CoversSuppliedIff(enc, sessionId, u, rest, cutoff);
      var last := multiset(Chained(enc, sessionId, u, rest).covered);
      var a, b := multiset(Added(enc, sessionId, t, calls[0])), multiset(UpTo(cutoff, calls[0].supplied));
      var later := last - multiset(u.covered);
      assert last == multiset(t.covered) + a + later;
      PartsEqualIff(a, b, later, multiset(SuppliedUpTo(rest, cutoff)), multiset(t.covered));
    }
  }

  /**
   With every group on time and every attempt completing once, the record of a chain is a newest-first prefix of
   all groups ever supplied up to its cutoff, and retained plus omitted counts exactly these.
   */
  lemma ChainConserves(enc: Encoding, sessionId: string, calls: seq<Call>)
    requires var t := Chained(enc, sessionId, Track(None, []), calls);
             && t.history.Some?
             && AllOnTime(enc, sessionId, Track(None, []), calls, t.history.value.cutoff)
             && DistinctAttempts(SuppliedUpTo(calls, t.history.value.cutoff))
    ensures var h := Chained(enc, sessionId, Track(None, []), calls).history.value;
            var all := SuppliedUpTo(calls, h.cutoff);
            && 1 <= |h.groups| <= |SortGroups(all)| && h.groups == SortGroups(all)[..|h.groups|]
            && |h.groups| + h.omitted == h.compacted == |all|
  {
    var t := Chained(enc, sessionId, Track(None, []), calls);
    var all := SuppliedUpTo(calls, t.history.value.cutoff);
    CoversSuppliedIff(enc, sessionId, Track(None, []), calls, t.history.value.cutoff);
    assert multiset(t.covered) == multiset(all);
    DistinctMultiset(all, t.covered);
    ChainCovers(enc, sessionId, Track(None, []), calls);
    DistinctHasNoTies(all);
    SameSort(all, t.covered);
    SortPermutes(t.covered);
    assert |t.covered| == |multiset(t.covered)| == |multiset(all)| == |all|;
  }

  // ---------------------------------------------------------------- late groups

  /** A group that is not covered once the cutoff has passed it never will be, whatever later calls supply. */
  lemma {:induction false} LateIsLost(enc: Encoding, sessionId: string, t: Track, calls: seq<Call>, g: Group)
    requires t.history.Some? && g.sequence <= t.history.value.cutoff && g !in t.covered
    ensures g !in Chained(enc, sessionId, t, calls).covered
    decreases |calls|
  {
    if calls != [] {
      var u := Advance(enc, sessionId, t, calls[0]);
      AdvanceAdds(enc, sessionId, t, calls[0]);
      assert g !in Admissible(t.history, calls[0].cutoff, calls[0].supplied);
      assert u.history.Some?;
      LateIsLost(enc, sessionId, u, calls[1..], g);
    }
  }

  lemma OneGroup(prior: Option<History>, cutoff: nat, g: Group)
    requires Admitted(prior, cutoff, g)
    ensures Admissible(prior, cutoff, [g]) == [g] && SortGroups([g]) == [g] && Dedup([g]) == [g]
  {
    assert Admissible(prior, cutoff, [g]) == [g] + Admissible(prior, cutoff, []);
    assert SortGroups([g]) == Place(g, SortGroups([])) == [g];
    assert Dedup([g]) == [g] + DedupAfter(Some(g.attemptId), []);
  }

  /** Two calls, both successful, after which a group of sequence 1 is missing below the cutoff 3. */
  lemma LateGroupIsMissing(enc: Encoding, sessionId: string) returns (calls: seq<Call>, late: Group)
    ensures |calls| == 2 && late in calls[1].supplied
    ensures var t := Chained(enc, sessionId, Track(None, []), calls);
            && t.history.Some? && late.sequence <= t.history.value.cutoff == 3
            && late !in t.covered && late in SuppliedUpTo(calls, 3)
  {
    var b, c := Group("b", 2, "", ["hello"]), Group("c", 3, "", ["hello"]);
    late := Group("a", 1, "", ["hello"]);
    var first, h := FirstCall(enc, sessionId, b);
    var second := SecondCall(enc, sessionId, h, b, late, c);
    calls := [first, second];
    var t := Advance(enc, sessionId, Track(None, []), first);
    assert t == Track(Some(h), [b]);
    var u := Advance(enc, sessionId, t, second);
    assert calls[1..] == [second] && calls[1..][1..] == [];
    assert Chained(enc, sessionId, t, [second]) == Chained(enc, sessionId, u, []) == u;
    assert Chained(enc, sessionId, Track(None, []), calls) == u;
    UpToCount(3, second.supplied, late);
    assert late in multiset(UpTo(3, second.supplied));
    assert SuppliedUpTo(calls, 3) == UpTo(3, first.supplied) + SuppliedUpTo([second], 3);
    assert SuppliedUpTo([second], 3) == UpTo(3, second.supplied) + SuppliedUpTo([], 3);
  }

  lemma FirstCall(enc: Encoding, sessionId: string, b: Group) returns (call: Call, h: History)
    requires b.sequence == 2
    ensures call.cutoff == 2 && h.groups == [b] && h.cutoff == 2 && h.sessionId == sessionId && h.compacted == 1 && h.omitted == 0
    ensures h.version == HISTORY_VERSION
    ensures Advance(enc, sessionId, Track(None, []), call) == Track(Some(h), [b])
  {
    OneGroup(None, 2, b);
    assert PriorGroups(None) + [b] == [b];
    h := Candidate(sessionId, 2, None, [b], 1);
    assert CountNew(None, [b]) == 1 + CountNew(None, []);
    call := Call(2, [b], Size(enc, h));
    assert Fits(enc, sessionId, 2, None, [b], Size(enc, h), 1);
    assert [] + Admissible(None, 2, [b]) == [b];
  }

  lemma SecondCall(enc: Encoding, sessionId: string, h: History, b: Group, late: Group, c: Group) returns (call: Call)
    requires h.groups == [b] && h.cutoff == 2 && h.sessionId == sessionId && h.compacted == 1 && h.omitted == 0
    requires h.version == HISTORY_VERSION
    requires b.sequence == 2 && late.sequence == 1 && c.sequence == 3 && b.attemptId != c.attemptId
    ensures call.supplied == [late, c]
    ensures var t := Advance(enc, sessionId, Track(Some(h), [b]), call);
            t.history.Some? && t.history.value.cutoff == 3 && t.covered == [b, c]
  {
    OneGroup(Some(h), 3, c);
    assert [late, c][1..] == [c];
    assert Admissible(Some(h), 3, [late, c]) == [c];
    ArrangedOver(Some(h), 3, [late, c], [c]);
    var all := Arranged(Some(h), 3, [late, c]);
    assert all == [c] + [b];
    var kept := Candidate(sessionId, 3, Some(h), all, 2);
    call := Call(3, [late, c], Size(enc, kept));
    assert Fits(enc, sessionId, 3, Some(h), all, Size(enc, kept), 2);
    assert [b] + [c] == [b, c];
  }
}
