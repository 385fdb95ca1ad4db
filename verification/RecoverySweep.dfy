/** The startup sweep over all sessions: how far it goes, what its counters count, and when a second one is silent. */
module RecoverySweep {
  import opened Engine
  import opened Recovery
  import opened RecoveryProofs

  ghost predicate Distinct(ids: seq<string>) {
    forall i, j :: 0 <= i < j < |ids| ==> ids[i] != ids[j]
  }

  /** The session is there and its own pass completes. */
  predicate Completes(contexts: Contexts, sessions: map<string, Session>, proposals: Proposals, id: string) {
    id in sessions && ReconcileSession(contexts, id, sessions[id], proposals).ok
  }

  /** How many sessions complete before the first that does not. */
  function Reach(contexts: Contexts, sessions: map<string, Session>, ids: seq<string>, proposals: Proposals): (n: nat)
    ensures n <= |ids|
    ensures forall i :: 0 <= i < n ==> Completes(contexts, sessions, proposals, ids[i])
    ensures n < |ids| ==> !Completes(contexts, sessions, proposals, ids[n])
    decreases |ids|
  {
    if ids == [] || !Completes(contexts, sessions, proposals, ids[0]) then 0
    else 1 + Reach(contexts, sessions, ids[1..], proposals)
  }

  /** The sessions that a sweep touches: those that complete and the one that stops it. */
  ghost predicate Touched(contexts: Contexts, sessions: map<string, Session>, ids: seq<string>, proposals: Proposals,
                          id: string) {
    exists i :: 0 <= i < |ids| && i <= Reach(contexts, sessions, ids, proposals) && ids[i] == id
  }

  /** The reach does not depend on sessions that are not listed. */
  lemma {:induction false} ReachSame(contexts: Contexts, sessions: map<string, Session>, others: map<string, Session>,
                                     ids: seq<string>, proposals: Proposals)
    requires forall id :: id in ids ==> (id in sessions <==> id in others)
    requires forall id :: id in ids && id in sessions ==> sessions[id] == others[id]
    ensures Reach(contexts, sessions, ids, proposals) == Reach(contexts, others, ids, proposals)
    decreases |ids|
  {
    if ids != [] {
      ReachSame(contexts, sessions, others, ids[1..], proposals);
    }
  }

  lemma TouchedStep(contexts: Contexts, sessions: map<string, Session>, ids: seq<string>, proposals: Proposals, id: string)
    requires ids != [] && Completes(contexts, sessions, proposals, ids[0])
    ensures Touched(contexts, sessions, ids, proposals, id)
       <==> id == ids[0] || Touched(contexts, sessions, ids[1..], proposals, id)
  {
    if Touched(contexts, sessions, ids[1..], proposals, id) {
      var i :| 0 <= i < |ids[1..]| && i <= Reach(contexts, sessions, ids[1..], proposals) && ids[1..][i] == id;
      assert ids[i + 1] == id;
    }
    if Touched(contexts, sessions, ids, proposals, id) && id != ids[0] {
      var i :| 0 <= i < |ids| && i <= Reach(contexts, sessions, ids, proposals) && ids[i] == id;
      assert ids[1..][i - 1] == id;
    }
  }

  /**
   Every session ends as its own pass leaves it, taken alone, or as it was: a sweep over distinct sessions goes in
   order, touches everything up to the first session that cannot be completed, and succeeds if there is none.
   */
  lemma {:induction false} SweepIsPointwise(contexts: Contexts, sessions: map<string, Session>, ids: seq<string>,
                                            proposals: Proposals)
    requires Distinct(ids)
    ensures var r := ReconcileAll(contexts, sessions, ids, proposals);
            && (r.ok <==> Reach(contexts, sessions, ids, proposals) == |ids|)
            && r.sessions.Keys == sessions.Keys
            && forall id :: id in sessions ==>
                 r.sessions[id] == if Touched(contexts, sessions, ids, proposals, id)
                                   then Reconciled(contexts, id, sessions[id], proposals) else sessions[id]
    decreases |ids|
  {
    if ids != [] {
      if Completes(contexts, sessions, proposals, ids[0]) {
        var updated := sessions[ids[0] := Reconciled(contexts, ids[0], sessions[ids[0]], proposals)];
        SweepRest(ids);
        ReachSame(contexts, sessions, updated, ids[1..], proposals);
        SweepIsPointwise(contexts, updated, ids[1..], proposals);
        forall id | id in sessions
          ensures ReconcileAll(contexts, sessions, ids, proposals).sessions[id]
               == if Touched(contexts, sessions, ids, proposals, id)
                  then Reconciled(contexts, id, sessions[id], proposals) else sessions[id]
        {
          TouchedStep(contexts, sessions, ids, proposals, id);
        }
      } else {
        assert Touched(contexts, sessions, ids, proposals, ids[0]);
      }
    }
  }

  lemma SweepRest(ids: seq<string>)
    requires ids != [] && Distinct(ids)
    ensures Distinct(ids[1..]) && ids[0] !in ids[1..]
  {
    assert forall i :: 0 <= i < |ids[1..]| ==> ids[1..][i] == ids[i + 1];
  }

  // ---------------------------------------------------------------- a sweep of readable sessions

  /** Every listed session is there, consistent and readable. */
  ghost predicate Sweepable(contexts: Contexts, sessions: map<string, Session>, ids: seq<string>, proposals: Proposals) {
    forall id :: id in ids ==>
      id in sessions && Consistent(sessions[id]) && Readable(sessions[id], proposals) && Sane(contexts, id, sessions[id])
  }

  /** Then the sweep succeeds and reconciles exactly the listed sessions. */
  lemma SweepSucceeds(contexts: Contexts, sessions: map<string, Session>, ids: seq<string>, proposals: Proposals)
    requires Distinct(ids) && Sweepable(contexts, sessions, ids, proposals)
    ensures var r := ReconcileAll(contexts, sessions, ids, proposals);
            && r.ok && r.sessions.Keys == sessions.Keys && Sweepable(contexts, r.sessions, ids, proposals)
            && (forall id :: id in sessions ==>
                  r.sessions[id] == if id in ids then Reconciled(contexts, id, sessions[id], proposals) else sessions[id])
  {
    SweepIsPointwise(contexts, sessions, ids, proposals);
    var n := Reach(contexts, sessions, ids, proposals);
    if n < |ids| {
      ReconcileSucceeds(contexts, ids[n], sessions[ids[n]], proposals);
      assert false;
    }
    var r := ReconcileAll(contexts, sessions, ids, proposals);
    forall id | id in ids
      ensures id in r.sessions && r.sessions[id] == Reconciled(contexts, id, sessions[id], proposals)
              && Consistent(r.sessions[id]) && Readable(r.sessions[id], proposals) && Sane(contexts, id, r.sessions[id])
    {
      assert Touched(contexts, sessions, ids, proposals, id);
      SecondPassIsSane(contexts, id, sessions[id], proposals);
    }
  }

  /** A second sweep changes nothing if and only if the first one disturbed no session. */
  lemma SecondSweepSilentIff(contexts: Contexts, sessions: map<string, Session>, ids: seq<string>, proposals: Proposals)
    requires Distinct(ids) && Sweepable(contexts, sessions, ids, proposals)
    ensures var r := ReconcileAll(contexts, sessions, ids, proposals);
            ReconcileAll(contexts, r.sessions, ids, proposals).sessions == r.sessions
            <==> forall id :: id in ids ==> !Disturbed(contexts, id, sessions[id])
  {
    var r := ReconcileAll(contexts, sessions, ids, proposals);
    SweepSucceeds(contexts, sessions, ids, proposals);
    SweepSucceeds(contexts, r.sessions, ids, proposals);
    var again := ReconcileAll(contexts, r.sessions, ids, proposals);
    forall id | id in ids
      ensures again.sessions[id] == r.sessions[id] <==> !Disturbed(contexts, id, sessions[id])
    {
      SecondPassSilentIff(contexts, id, sessions[id], proposals);
    }
  }

  /** With at most one unsettled attempt in each session the sweep is idempotent. */
  lemma SweepIsIdempotent(contexts: Contexts, sessions: map<string, Session>, ids: seq<string>, proposals: Proposals)
    requires Distinct(ids) && Sweepable(contexts, sessions, ids, proposals)
    requires forall id :: id in ids ==> OneUnsettled(sessions[id])
    ensures var r := ReconcileAll(contexts, sessions, ids, proposals);
            ReconcileAll(contexts, r.sessions, ids, proposals).sessions == r.sessions
  {
    SecondSweepSilentIff(contexts, sessions, ids, proposals);
  }

  // ---------------------------------------------------------------- what the counters count

  /** How many attempts from `from` on have got this status. */
  function Turned(before: seq<Attempt>, after: seq<Attempt>, status: AttemptStatus, from: nat): (n: nat)
    requires from <= |before| == |after|
    decreases |before| - from
  {
    if from == |before| then 0
    else (if before[from].status != status && after[from].status == status then 1 else 0)
         + Turned(before, after, status, from + 1)
  }

  lemma {:induction false} TurnedSame(before: seq<Attempt>, other: seq<Attempt>, after: seq<Attempt>, status: AttemptStatus,
                                      from: nat)
    requires from <= |before| == |other| == |after|
    requires forall i :: from <= i < |before| ==> before[i] == other[i]
    ensures Turned(before, after, status, from) == Turned(other, after, status, from)
    decreases |before| - from
  {
    if from < |before| {
      TurnedSame(before, other, after, status, from + 1);
    }
  }

  /** Counting from an attempt on when a step first changes that attempt only. */
  lemma TurnedFirst(before: seq<Attempt>, middle: seq<Attempt>, after: seq<Attempt>, status: AttemptStatus, i: nat)
    requires i < |before| == |middle| == |after| && after[i] == middle[i]
    requires forall j :: i < j < |before| ==> middle[j] == before[j]
    ensures Turned(before, after, status, i)
         == (if before[i].status != status && middle[i].status == status then 1 else 0) + Turned(middle, after, status, i + 1)
  {
    TurnedSame(before, middle, after, status, i + 1);
  }

  /** One step counts what it settles. */
  lemma StepCounts(contexts: Contexts, sessionId: string, s: Session, i: nat)
    requires Consistent(s) && Quiet(s) && Sane(contexts, sessionId, s) && i < |s.attempts|
    ensures var p := AttemptStep(contexts, sessionId, s, i);
            && p.ok && Consistent(p.session)
            && (forall j :: 0 <= j < |s.attempts| && j != i ==> p.session.attempts[j] == s.attempts[j])
            && p.failed == (if s.attempts[i].status != Failed && p.session.attempts[i].status == Failed then 1 else 0)
            && p.unknown == (if s.attempts[i].status != Unknown && p.session.attempts[i].status == Unknown then 1 else 0)
  {
    AttemptStepSettles(contexts, sessionId, s, i);
    FindAttemptAt(s.attempts, i);
  }

  lemma {:induction false} AttemptsCount(contexts: Contexts, sessionId: string, s: Session, i: nat)
    requires Consistent(s) && Quiet(s) && Sane(contexts, sessionId, s) && i <= |s.attempts|
    ensures var p := RepairAttempts(contexts, sessionId, s, i);
            && p.failed == Turned(s.attempts, p.session.attempts, Failed, i)
            && p.unknown == Turned(s.attempts, p.session.attempts, Unknown, i)
    decreases |s.attempts| - i
  {
    if i < |s.attempts| {
      StepCounts(contexts, sessionId, s, i);
      AttemptStepCarries(contexts, sessionId, s, i);
      var t := AttemptStep(contexts, sessionId, s, i).session;
      AttemptsCount(contexts, sessionId, t, i + 1);
      RepairAttemptsResolves(contexts, sessionId, t, i + 1);
      var u := RepairAttempts(contexts, sessionId, t, i + 1).session;
      TurnedFirst(s.attempts, t.attempts, u.attempts, Failed, i);
      TurnedFirst(s.attempts, t.attempts, u.attempts, Unknown, i);
    }
  }

  /** The counters of a pass are the attempts it turned to failed and to unknown. */
  lemma PassCounts(contexts: Contexts, sessionId: string, s: Session, proposals: Proposals)
    requires Consistent(s) && Readable(s, proposals) && Sane(contexts, sessionId, s)
    ensures var p := ReconcileSession(contexts, sessionId, s, proposals);
            && |p.session.attempts| == |s.attempts|
            && p.failed == Turned(s.attempts, p.session.attempts, Failed, 0)
            && p.unknown == Turned(s.attempts, p.session.attempts, Unknown, 0)
  {
    var c := AfterCalls(contexts, sessionId, s, proposals);
    AttemptsCount(contexts, sessionId, c, 0);
  }

  /** The attempts that got this status in any of the listed sessions. */
  function TurnedIn(before: map<string, Session>, after: map<string, Session>, ids: seq<string>, status: AttemptStatus):
      (n: nat)
    requires forall id :: id in ids ==> id in before && id in after && |before[id].attempts| == |after[id].attempts|
    decreases |ids|
  {
    if ids == [] then 0
    else Turned(before[ids[0]].attempts, after[ids[0]].attempts, status, 0) + TurnedIn(before, after, ids[1..], status)
  }

  lemma {:induction false} TurnedInSame(before: map<string, Session>, other: map<string, Session>,
                                        after: map<string, Session>, ids: seq<string>, status: AttemptStatus)
    requires forall id :: id in ids ==> id in before && id in after && |before[id].attempts| == |after[id].attempts|
    requires forall id :: id in ids ==> id in other && other[id] == before[id]
    ensures TurnedIn(before, after, ids, status) == TurnedIn(other, after, ids, status)
    decreases |ids|
  {
    if ids != [] {
      TurnedInSame(before, other, after, ids[1..], status);
    }
  }

  /** The counters of a sweep are the attempts that it turned to failed and to unknown, over all the sessions. */
  lemma {:induction false} SweepCounts(contexts: Contexts, sessions: map<string, Session>, ids: seq<string>,
                                       proposals: Proposals)
    requires Distinct(ids) && Sweepable(contexts, sessions, ids, proposals)
    ensures var r := ReconcileAll(contexts, sessions, ids, proposals);
            && (forall id :: id in ids ==> id in r.sessions && |sessions[id].attempts| == |r.sessions[id].attempts|)
            && r.failed == TurnedIn(sessions, r.sessions, ids, Failed)
            && r.unknown == TurnedIn(sessions, r.sessions, ids, Unknown)
    decreases |ids|
  {
    SweepSucceeds(contexts, sessions, ids, proposals);
    var r := ReconcileAll(contexts, sessions, ids, proposals);
    forall id | id in ids ensures id in r.sessions && |sessions[id].attempts| == |r.sessions[id].attempts| {
      PassCounts(contexts, id, sessions[id], proposals);
    }
    if ids != [] {
      PassCounts(contexts, ids[0], sessions[ids[0]], proposals);
      ReconcileSucceeds(contexts, ids[0], sessions[ids[0]], proposals);
      var updated := sessions[ids[0] := Reconciled(contexts, ids[0], sessions[ids[0]], proposals)];
      SweepRest(ids);
      SweepCounts(contexts, updated, ids[1..], proposals);
      TurnedInSame(updated, sessions, r.sessions, ids[1..], Failed);
      TurnedInSame(updated, sessions, r.sessions, ids[1..], Unknown);
    }
  }
}
