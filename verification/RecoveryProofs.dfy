/** What a reconciliation pass achieves, when a second one is silent, and that no bound turn starts twice. */
module RecoveryProofs {
  import opened Text
  import opened Engine
  import opened Recovery

  // ---------------------------------------------------------------- what must be readable

  /** The proposal check can read what it needs for every running call. */
  ghost predicate Readable(s: Session, proposals: Proposals) {
    forall k :: 0 <= k < |s.calls| && s.calls[k].status == Running ==> proposals(s.calls[k].id) != Unreadable
  }

  /** No context turn that is due contradicts its binding. */
  ghost predicate Sane(contexts: Contexts, sessionId: string, s: Session) {
    forall i :: 0 <= i < |s.attempts| ==> !LoadExact(contexts, sessionId, s, i).Broken?
  }

  // ---------------------------------------------------------------- tool calls

  /** What a repaired call may still be: settled, or waiting for an answer under an attempt that awaits tools. */
  predicate Rested(s: Session, k: nat)
    requires k < |s.calls|
  {
    CallSettled(s.calls[k].status) || (s.calls[k].status == PermissionPending && ParentStatus(s, k) == AwaitingTools)
  }

  lemma ParentIsLive(s: Session, k: nat)
    requires Consistent(s) && k < |s.calls| && !CallSettled(s.calls[k].status)
    ensures Live(ParentStatus(s, k)) && FindAttempt(s.attempts, s.calls[k].attemptId).Some?
  {
    assert Owned(s.attempts, s.calls[k]);
    var i :| 0 <= i < |s.attempts| && s.attempts[i].id == s.calls[k].attemptId && Live(s.attempts[i].status);
    FindAttemptAt(s.attempts, i);
  }

  /** A running effect is done only if its commit can be shown; what never started is denied or cancelled. */
  function CallFate(status: CallStatus, parent: AttemptStatus, proposal: Proposal): (r: CallStatus) {
    if status == Running then (if proposal == Committed then CallCompleted else CallUnknown)
    else if status == DeniedPending then CallDenied
    else if CallSettled(status) || (status == PermissionPending && parent == AwaitingTools) then status
    else CallCancelled
  }

  function FateOf(s: Session, proposals: Proposals, k: nat): (r: CallStatus)
    requires k < |s.calls|
  {
    CallFate(s.calls[k].status, ParentStatus(s, k), proposals(s.calls[k].id))
  }

  /** Every call from `from` on has met its fate. */
  ghost predicate AllFated(s: Session, t: Session, proposals: Proposals, from: nat) {
    |t.calls| == |s.calls| && forall j :: from <= j < |s.calls| ==> t.calls[j].status == FateOf(s, proposals, j)
  }

  /** A call step is never rejected; it rests its call, and leaves no trace exactly when the call rested already. */
  lemma CallStepRests(s: Session, proposals: Proposals, k: nat)
    requires Consistent(s) && Readable(s, proposals) && k < |s.calls|
    ensures var p := CallStep(s, proposals, k);
            && p.ok && Consistent(p.session) && Readable(p.session, proposals)
            && p.session.attempts == s.attempts && Rested(p.session, k)
            && p.session.calls[k].status == FateOf(s, proposals, k)
            && (forall j :: 0 <= j < |s.calls| && j != k ==> p.session.calls[j] == s.calls[j])
            && p.session.calls[k].attemptId == s.calls[k].attemptId
            && (p.session == s <==> Rested(s, k)) && (p.session != s ==> p.session.last == s.last + 1)
  {
    var c := s.calls[k];
    var act := CallRepair(c.status, ParentStatus(s, k), proposals(c.id));
    if !CallSettled(c.status) {
      ParentIsLive(s, k);
    }
    if act.Some? {
      FindCallAt(s.calls, k);
      var t := ApplyCall(s, k, act.value).value;
      ApplyCallKeeps(s, k, act.value, t);
      assert t.calls[k].attemptId == c.attemptId;
    }
  }

  ghost predicate AllRested(s: Session, from: nat) {
    forall k :: from <= k < |s.calls| ==> Rested(s, k)
  }

  /** Resting depends only on the call itself and on the attempts. */
  lemma RestingCarries(s: Session, t: Session, from: nat)
    requires t.attempts == s.attempts && |t.calls| == |s.calls|
    requires forall j :: from <= j < |s.calls| ==> t.calls[j] == s.calls[j]
    ensures AllRested(t, from) <==> AllRested(s, from)
  {
    forall j | from <= j < |s.calls| ensures Rested(t, j) <==> Rested(s, j) {
      assert ParentStatus(t, j) == ParentStatus(s, j);
    }
  }

  /** Fates depend only on the calls and on the attempts. */
  lemma FatesCarry(s: Session, t: Session, u: Session, proposals: Proposals, from: nat)
    requires t.attempts == s.attempts && |t.calls| == |s.calls| && AllFated(t, u, proposals, from)
    requires forall j :: from <= j < |s.calls| ==> t.calls[j] == s.calls[j]
    ensures AllFated(s, u, proposals, from)
  {
    forall j | from <= j < |s.calls| ensures u.calls[j].status == FateOf(s, proposals, j) {
      assert ParentStatus(t, j) == ParentStatus(s, j);
    }
  }

  /** The calls from `k` on have rested and met their fates, silently exactly when they rested already. */
  ghost predicate RestsAll(s: Session, u: Session, proposals: Proposals, k: nat) {
    && Consistent(u) && u.attempts == s.attempts && |u.calls| == |s.calls|
    && (forall j :: 0 <= j < k <= |s.calls| ==> u.calls[j] == s.calls[j])
    && AllRested(u, k) && AllFated(s, u, proposals, k)
    && (if AllRested(s, k) then u == s else s.last < u.last)
  }

  /** One call rested, and the later ones after it. */
  lemma RestsThrough(s: Session, t: Session, u: Session, proposals: Proposals, k: nat)
    requires k < |s.calls| == |t.calls| && t.attempts == s.attempts
    requires forall j :: 0 <= j < |s.calls| && j != k ==> t.calls[j] == s.calls[j]
    requires t.calls[k].status == FateOf(s, proposals, k) && Rested(t, k)
    requires (t == s <==> Rested(s, k)) && (t != s ==> t.last == s.last + 1)
    requires RestsAll(t, u, proposals, k + 1)
    ensures RestsAll(s, u, proposals, k)
  {
    assert ParentStatus(u, k) == ParentStatus(t, k);
    RestingCarries(s, t, k + 1);
    FatesCarry(s, t, u, proposals, k + 1);
    assert AllRested(s, k) <==> Rested(s, k) && AllRested(s, k + 1);
  }

  /** A pass over the calls from `k` on rests them all, and is silent exactly when they rested already. */
  lemma {:induction false} RepairCallsRests(s: Session, proposals: Proposals, k: nat)
    requires Consistent(s) && Readable(s, proposals) && k <= |s.calls|
    ensures RepairCalls(s, proposals, k).ok && RestsAll(s, RepairCalls(s, proposals, k).session, proposals, k)
    decreases |s.calls| - k
  {
    if k < |s.calls| {
      CallStepRests(s, proposals, k);
      var t := CallStep(s, proposals, k).session;
      RepairCallsRests(t, proposals, k + 1);
      RestsThrough(s, t, RepairCalls(t, proposals, k + 1).session, proposals, k);
    }
  }

  // ---------------------------------------------------------------- attempts

  /** An attempt that a pass would settle. */
  predicate NeedsRepair(contexts: Contexts, sessionId: string, s: Session, i: nat)
    requires i < |s.attempts|
  {
    AttemptRepair(s.attempts[i], IsExact(contexts, sessionId, s, i)).Some?
  }

  /** Under the attempts that a pass settles no call is left open. */
  ghost predicate Quiet(s: Session) {
    forall i :: 0 <= i < |s.attempts| && s.attempts[i].status in {Prepared, InFlight, CancellationRequested} ==>
      CallsSettled(s.calls, s.attempts[i].id)
  }

  lemma RestedIsQuiet(s: Session)
    requires Consistent(s) && AllRested(s, 0)
    ensures Quiet(s)
  {
    forall i, k | && 0 <= i < |s.attempts| && s.attempts[i].status in {Prepared, InFlight, CancellationRequested}
                  && 0 <= k < |s.calls| && s.calls[k].attemptId == s.attempts[i].id
      ensures CallSettled(s.calls[k].status)
    {
      FindAttemptAt(s.attempts, i);
      assert Rested(s, k);
    }
  }

  /** Once the log has grown, no binding made before is the last event any more. */
  lemma NothingExactAfter(contexts: Contexts, sessionId: string, s: Session, t: Session, j: nat)
    requires Consistent(s) && s.last < t.last && j < |s.attempts| && j < |t.attempts| && t.attempts[j] == s.attempts[j]
    ensures LoadExact(contexts, sessionId, t, j) == Absent
  {
    assert Bound(s, j);
  }

  lemma AttemptStepSettles(contexts: Contexts, sessionId: string, s: Session, i: nat)
    requires Consistent(s) && Quiet(s) && Sane(contexts, sessionId, s) && i < |s.attempts|
    ensures var p := AttemptStep(contexts, sessionId, s, i);
            && p.ok && Consistent(p.session) && p.session.calls == s.calls
            && (forall j :: 0 <= j < |s.attempts| && j != i ==> p.session.attempts[j] == s.attempts[j])
            && p.session.attempts[i] == s.attempts[i].(status := p.session.attempts[i].status)
            && p.session.bound == s.bound && p.session.started == s.started
            && (if NeedsRepair(contexts, sessionId, s, i)
                then p.session.attempts[i].status in {Failed, Unknown} && p.session.last == s.last + 1
                     && p.failed + p.unknown == 1
                else p.session == s && p.failed + p.unknown == 0)
  {
    var a := s.attempts[i];
    var act := AttemptRepair(a, IsExact(contexts, sessionId, s, i));
    if act.Some? {
      FindAttemptAt(s.attempts, i);
      assert CallsSettled(s.calls, a.id);
      ApplyAttemptKeeps(s, i, act.value, ApplyAttempt(s, i, act.value).value);
    }
  }

  /** After a step the remaining attempts are still quiet and their contexts still readable. */
  lemma AttemptStepCarries(contexts: Contexts, sessionId: string, s: Session, i: nat)
    requires Consistent(s) && Quiet(s) && Sane(contexts, sessionId, s) && i < |s.attempts|
    ensures var t := AttemptStep(contexts, sessionId, s, i).session; Quiet(t) && Sane(contexts, sessionId, t)
  {
    AttemptStepSettles(contexts, sessionId, s, i);
    var t := AttemptStep(contexts, sessionId, s, i).session;
    if t != s {
      forall j | 0 <= j < |t.attempts| ensures !LoadExact(contexts, sessionId, t, j).Broken? {
        if j != i {
          NothingExactAfter(contexts, sessionId, s, t, j);
        }
      }
    }
  }

  /** What is left of an attempt after a pass. */
  predicate Resolved(contexts: Contexts, sessionId: string, s: Session, t: Session, j: nat)
    requires j < |s.attempts| && j < |t.attempts|
  {
    && t.attempts[j] == s.attempts[j].(status := t.attempts[j].status)
    && (Settled(t.attempts[j].status) || t.attempts[j].status == AwaitingTools
        || (t.attempts[j].status == InFlight && IsExact(contexts, sessionId, s, j)))
  }

  /** From one attempt on: every later one is resolved, and an exact one survives only an untouched log. */
  lemma {:induction false} RepairAttemptsResolves(contexts: Contexts, sessionId: string, s: Session, i: nat)
    requires Consistent(s) && Quiet(s) && Sane(contexts, sessionId, s) && i <= |s.attempts|
    ensures var p := RepairAttempts(contexts, sessionId, s, i);
            && p.ok && Consistent(p.session) && p.session.calls == s.calls
            && p.session.bound == s.bound && p.session.started == s.started
            && (forall j :: 0 <= j < i ==> p.session.attempts[j] == s.attempts[j])
            && (forall j :: i <= j < |s.attempts| ==> Resolved(contexts, sessionId, s, p.session, j))
            && p.session.last == s.last + p.failed + p.unknown
    decreases |s.attempts| - i
  {
    if i < |s.attempts| {
      AttemptStepSettles(contexts, sessionId, s, i);
      AttemptStepCarries(contexts, sessionId, s, i);
      var t := AttemptStep(contexts, sessionId, s, i).session;
      RepairAttemptsResolves(contexts, sessionId, t, i + 1);
      var u := RepairAttempts(contexts, sessionId, t, i + 1).session;
      forall j | i <= j < |s.attempts| ensures Resolved(contexts, sessionId, s, u, j) {
        if j == i {
          assert u.attempts[i] == t.attempts[i];
        } else {
          assert Resolved(contexts, sessionId, t, u, j);
          if t != s {
            NothingExactAfter(contexts, sessionId, s, t, j);
          }
        }
      }
    }
  }

  ghost predicate NoneNeeds(contexts: Contexts, sessionId: string, s: Session, from: nat, to: nat)
    requires to <= |s.attempts|
  {
    forall j :: from <= j < to ==> !NeedsRepair(contexts, sessionId, s, j)
  }

  /** Attempts that need nothing are skipped without a trace. */
  lemma {:induction false} RepairAttemptsSkips(contexts: Contexts, sessionId: string, s: Session, i: nat, j: nat)
    requires Consistent(s) && Quiet(s) && Sane(contexts, sessionId, s) && i <= j <= |s.attempts|
    requires NoneNeeds(contexts, sessionId, s, i, j)
    ensures RepairAttempts(contexts, sessionId, s, i).session == RepairAttempts(contexts, sessionId, s, j).session
    decreases j - i
  {
    if i < j {
      AttemptStepSettles(contexts, sessionId, s, i);
      RepairAttemptsSkips(contexts, sessionId, s, i + 1, j);
    }
  }

  lemma AttemptsMoveOn(contexts: Contexts, sessionId: string, s: Session, i: nat)
    requires Consistent(s) && Quiet(s) && Sane(contexts, sessionId, s) && i <= |s.attempts|
    ensures s.last <= RepairAttempts(contexts, sessionId, s, i).session.last
  {
    RepairAttemptsResolves(contexts, sessionId, s, i);
  }

  lemma NeededMoves(contexts: Contexts, sessionId: string, s: Session, i: nat)
    requires Consistent(s) && Quiet(s) && Sane(contexts, sessionId, s) && i < |s.attempts|
    requires NeedsRepair(contexts, sessionId, s, i)
    ensures s.last < RepairAttempts(contexts, sessionId, s, i).session.last
  {
    AttemptStepSettles(contexts, sessionId, s, i);
    AttemptStepCarries(contexts, sessionId, s, i);
    AttemptsMoveOn(contexts, sessionId, AttemptStep(contexts, sessionId, s, i).session, i + 1);
  }

  /** A pass over attempts moves the log exactly when some attempt needs settling. */
  lemma {:induction false} RepairAttemptsMovesIff(contexts: Contexts, sessionId: string, s: Session, i: nat)
    requires Consistent(s) && Quiet(s) && Sane(contexts, sessionId, s) && i <= |s.attempts|
    ensures var t := RepairAttempts(contexts, sessionId, s, i).session;
            if NoneNeeds(contexts, sessionId, s, i, |s.attempts|) then t == s else s.last < t.last
    decreases |s.attempts| - i
  {
    if i < |s.attempts| {
      if NeedsRepair(contexts, sessionId, s, i) {
        NeededMoves(contexts, sessionId, s, i);
      } else {
        RepairAttemptsSkips(contexts, sessionId, s, i, i + 1);
        RepairAttemptsMovesIff(contexts, sessionId, s, i + 1);
      }
    }
  }

  // ---------------------------------------------------------------- one pass

  function Reconciled(contexts: Contexts, sessionId: string, s: Session, proposals: Proposals): (t: Session) {
    ReconcileSession(contexts, sessionId, s, proposals).session
  }

  /** The state after the tool calls have been repaired is ready for the attempts. */
  lemma AfterCalls(contexts: Contexts, sessionId: string, s: Session, proposals: Proposals) returns (c: Session)
    requires Consistent(s) && Readable(s, proposals) && Sane(contexts, sessionId, s)
    ensures ParentsKnown(s) && RepairCalls(s, proposals, 0) == Pass(c, true, 0, 0)
    ensures Consistent(c) && Quiet(c) && Sane(contexts, sessionId, c) && AllRested(c, 0) && c.attempts == s.attempts
    ensures c.bound == s.bound && c.started == s.started
    ensures AllFated(s, c, proposals, 0) && (c == s <==> AllRested(s, 0))
    ensures c != s ==> s.last < c.last && forall j :: 0 <= j < |c.attempts| ==> LoadExact(contexts, sessionId, c, j) == Absent
  {
    forall k | 0 <= k < |s.calls| && !CallSettled(s.calls[k].status)
      ensures FindAttempt(s.attempts, s.calls[k].attemptId).Some?
    {
      ParentIsLive(s, k);
    }
    RepairCallsRests(s, proposals, 0);
    CallsLeaveAttempts(s, proposals, 0);
    c := RepairCalls(s, proposals, 0).session;
    CallsCountNothing(s, proposals, 0);
    RestedIsQuiet(c);
    if c != s {
      forall j | 0 <= j < |c.attempts| ensures LoadExact(contexts, sessionId, c, j) == Absent {
        NothingExactAfter(contexts, sessionId, s, c, j);
      }
    }
  }

  lemma {:induction false} CallsCountNothing(s: Session, proposals: Proposals, k: nat)
    requires k <= |s.calls|
    ensures RepairCalls(s, proposals, k).failed == RepairCalls(s, proposals, k).unknown == 0
    decreases |s.calls| - k
  {
    if k < |s.calls| && CallStep(s, proposals, k).ok {
      CallsCountNothing(CallStep(s, proposals, k).session, proposals, k + 1);
    }
  }

  /** No command of a pass is rejected; recovery starts no turn and changes nothing of an attempt but its status. */
  lemma ReconcileSucceeds(contexts: Contexts, sessionId: string, s: Session, proposals: Proposals)
    requires Consistent(s) && Readable(s, proposals) && Sane(contexts, sessionId, s)
    ensures var p := ReconcileSession(contexts, sessionId, s, proposals);
            && p.ok && Consistent(p.session)
            && p.session.started == s.started && p.session.bound == s.bound
            && |p.session.attempts| == |s.attempts|
            && forall j :: 0 <= j < |s.attempts| ==>
                 p.session.attempts[j] == s.attempts[j].(status := p.session.attempts[j].status)
  {
    var c := AfterCalls(contexts, sessionId, s, proposals);
    RepairAttemptsResolves(contexts, sessionId, c, 0);
    var t := Reconciled(contexts, sessionId, s, proposals);
    forall j | 0 <= j < |s.attempts| ensures t.attempts[j] == s.attempts[j].(status := t.attempts[j].status) {
      assert Resolved(contexts, sessionId, c, t, j);
    }
  }

  /** After a pass an unsettled attempt awaits tools, or is in flight with the exact context it had before the pass. */
  lemma ReconcileResolves(contexts: Contexts, sessionId: string, s: Session, proposals: Proposals, j: nat)
    requires Consistent(s) && Readable(s, proposals) && Sane(contexts, sessionId, s) && j < |s.attempts|
    ensures j < |Reconciled(contexts, sessionId, s, proposals).attempts|
    ensures Resolved(contexts, sessionId, s, Reconciled(contexts, sessionId, s, proposals), j)
  {
    var c := AfterCalls(contexts, sessionId, s, proposals);
    RepairAttemptsResolves(contexts, sessionId, c, 0);
    assert Resolved(contexts, sessionId, c, Reconciled(contexts, sessionId, s, proposals), j);
  }

  /** After a pass the only open calls wait for permission under an attempt that awaits tools. */
  lemma ReconcileRests(contexts: Contexts, sessionId: string, s: Session, proposals: Proposals)
    requires Consistent(s) && Readable(s, proposals) && Sane(contexts, sessionId, s)
    ensures AllRested(Reconciled(contexts, sessionId, s, proposals), 0)
  {
    var c := AfterCalls(contexts, sessionId, s, proposals);
    RepairAttemptsResolves(contexts, sessionId, c, 0);
    var t := Reconciled(contexts, sessionId, s, proposals);
    forall k | 0 <= k < |t.calls| ensures Rested(t, k) {
      assert Rested(c, k);
      if !CallSettled(c.calls[k].status) {
        AwaitingStays(contexts, sessionId, c, t, k);
      }
    }
  }

  /** An attempt that awaits tools is left alone, so a call waiting under it rests as before. */
  lemma AwaitingStays(contexts: Contexts, sessionId: string, c: Session, t: Session, k: nat)
    requires Consistent(c) && Consistent(t) && k < |c.calls| && t.calls == c.calls && |t.attempts| == |c.attempts|
    requires t == RepairAttempts(contexts, sessionId, c, 0).session && Quiet(c) && Sane(contexts, sessionId, c)
    requires Rested(c, k) && !CallSettled(c.calls[k].status)
    ensures Rested(t, k)
  {
    var i := FindAttempt(c.attempts, c.calls[k].attemptId).value;
    RepairAttemptsResolves(contexts, sessionId, c, 0);
    assert Resolved(contexts, sessionId, c, t, i);
    ParentIsLive(t, k);
    FindAttemptAt(t.attempts, i);
  }

  // ---------------------------------------------------------------- what becomes of each call and attempt

  lemma CallsMeetFates(contexts: Contexts, sessionId: string, s: Session, proposals: Proposals, k: nat)
    requires Consistent(s) && Readable(s, proposals) && Sane(contexts, sessionId, s) && k < |s.calls|
    ensures var t := Reconciled(contexts, sessionId, s, proposals);
            && k < |t.calls|
            && t.calls[k].status == FateOf(s, proposals, k)
  {
    var c := AfterCalls(contexts, sessionId, s, proposals);
    RepairAttemptsResolves(contexts, sessionId, c, 0);
    assert c.calls[k].status == FateOf(s, proposals, k);
  }

  /** The call makes a proposal, and the ledger shows that exactly this proposal is committed and never activated. */
  predicate CommitShown(finding: Finding) {
    finding.Rebuilt? && ShownCommitted(finding.command, finding.item)
  }

  /**
   The fate of every tool call in a pass: a running one is completed if and only if the ledger shows its proposal
   committed, and is unknown otherwise; what never started is denied or cancelled.
   */
  lemma ReconcileCallFates(contexts: Contexts, sessionId: string, s: Session, findings: Findings, k: nat)
    requires Consistent(s) && Readable(s, Verdicts(findings)) && Sane(contexts, sessionId, s) && k < |s.calls|
    ensures var t := Reconciled(contexts, sessionId, s, Verdicts(findings));
            && k < |t.calls|
            && t.calls[k].status ==
                 match s.calls[k].status
                 case Running => if CommitShown(findings(s.calls[k].id)) then CallCompleted else CallUnknown
                 case DeniedPending => CallDenied
                 case PermissionPending => if ParentStatus(s, k) == AwaitingTools then PermissionPending else CallCancelled
                 case CallProposed => CallCancelled
                 case Authorized => CallCancelled
                 case settled => settled
  {
    CallsMeetFates(contexts, sessionId, s, Verdicts(findings), k);
  }

  /** The provider may still be answering a turn of this attempt. */
  predicate MayBeAnswering(a: Attempt) {
    a.turnsStarted > 0 && !DispatchReady(a)
  }

  /** Only an attempt whose turn was dispatched is left unknown; the others have certainly failed. */
  function AttemptFate(a: Attempt): (r: AttemptStatus) {
    if Settled(a.status) || a.status == AwaitingTools then a.status
    else if a.status != Prepared && MayBeAnswering(a) then Unknown
    else Failed
  }

  lemma {:induction false} RepairAttemptsFates(contexts: Contexts, sessionId: string, s: Session, i: nat, j: nat)
    requires Consistent(s) && Quiet(s) && Sane(contexts, sessionId, s) && i <= j < |s.attempts|
    ensures var t := RepairAttempts(contexts, sessionId, s, i).session;
            t.attempts[j].status == AttemptFate(s.attempts[j]) || t.attempts[j] == s.attempts[j]
    decreases |s.attempts| - i
  {
    AttemptStepSettles(contexts, sessionId, s, i);
    AttemptStepCarries(contexts, sessionId, s, i);
    var t := AttemptStep(contexts, sessionId, s, i).session;
    if i == j {
      AttemptStepFate(contexts, sessionId, s, i);
      RepairAttemptsResolves(contexts, sessionId, t, i + 1);
    } else {
      RepairAttemptsFates(contexts, sessionId, t, i + 1, j);
    }
  }

  lemma AttemptStepFate(contexts: Contexts, sessionId: string, s: Session, i: nat)
    requires Consistent(s) && Quiet(s) && Sane(contexts, sessionId, s) && i < |s.attempts|
    ensures var t := AttemptStep(contexts, sessionId, s, i).session;
            t.attempts[i].status == AttemptFate(s.attempts[i]) || t.attempts[i] == s.attempts[i]
  {
    AttemptStepSettles(contexts, sessionId, s, i);
    FindAttemptAt(s.attempts, i);
  }

  /** The fate of every attempt in a pass: kept with its exact context, or settled for what may have happened. */
  lemma ReconcileAttemptFates(contexts: Contexts, sessionId: string, s: Session, proposals: Proposals, j: nat)
    requires Consistent(s) && Readable(s, proposals) && Sane(contexts, sessionId, s) && j < |s.attempts|
    ensures var t := Reconciled(contexts, sessionId, s, proposals);
            && j < |t.attempts|
            && (t.attempts[j].status == AttemptFate(s.attempts[j])
                || (t.attempts[j] == s.attempts[j] && IsExact(contexts, sessionId, s, j)))
  {
    var c := AfterCalls(contexts, sessionId, s, proposals);
    RepairAttemptsFates(contexts, sessionId, c, 0, j);
    ReconcileResolves(contexts, sessionId, s, proposals, j);
  }

  // ---------------------------------------------------------------- a second pass

  /** A pass keeps an attempt in flight and then moves the log past its binding. */
  ghost predicate Disturbed(contexts: Contexts, sessionId: string, s: Session) {
    && AllRested(s, 0)
    && exists i, j :: && 0 <= i < j < |s.attempts| && IsExact(contexts, sessionId, s, i)
                      && NeedsRepair(contexts, sessionId, s, j) && NoneNeeds(contexts, sessionId, s, 0, i)
  }

  lemma FirstNeed(contexts: Contexts, sessionId: string, s: Session) returns (m: nat)
    ensures m <= |s.attempts| && NoneNeeds(contexts, sessionId, s, 0, m)
    ensures m < |s.attempts| ==> NeedsRepair(contexts, sessionId, s, m)
  {
    m := 0;
    while m < |s.attempts| && !NeedsRepair(contexts, sessionId, s, m)
      invariant m <= |s.attempts| && NoneNeeds(contexts, sessionId, s, 0, m)
    {
      m := m + 1;
    }
  }

  /** With rested calls a pass is silent exactly when no attempt needs settling. */
  lemma SilentIff(contexts: Contexts, sessionId: string, s: Session, proposals: Proposals)
    requires Consistent(s) && Readable(s, proposals) && Sane(contexts, sessionId, s) && AllRested(s, 0)
    ensures Reconciled(contexts, sessionId, s, proposals) == s <==> NoneNeeds(contexts, sessionId, s, 0, |s.attempts|)
  {
    var c := AfterCalls(contexts, sessionId, s, proposals);
    RepairAttemptsMovesIff(contexts, sessionId, c, 0);
  }

  lemma PassMoves(contexts: Contexts, sessionId: string, s: Session, proposals: Proposals)
    requires Consistent(s) && Readable(s, proposals) && Sane(contexts, sessionId, s)
    ensures var t := Reconciled(contexts, sessionId, s, proposals);
            if t == s then AllRested(s, 0) && NoneNeeds(contexts, sessionId, s, 0, |s.attempts|) else s.last < t.last
  {
    var c := AfterCalls(contexts, sessionId, s, proposals);
    RepairAttemptsMovesIff(contexts, sessionId, c, 0);
  }

  /** The second pass finds nothing unreadable. */
  lemma SecondPassIsSane(contexts: Contexts, sessionId: string, s: Session, proposals: Proposals)
    requires Consistent(s) && Readable(s, proposals) && Sane(contexts, sessionId, s)
    ensures var t := Reconciled(contexts, sessionId, s, proposals);
            && Consistent(t) && Readable(t, proposals) && Sane(contexts, sessionId, t) && AllRested(t, 0)
            && |t.attempts| == |s.attempts|
            && (t != s ==> forall j :: 0 <= j < |t.attempts| ==> LoadExact(contexts, sessionId, t, j) == Absent)
  {
    ReconcileSucceeds(contexts, sessionId, s, proposals);
    ReconcileRests(contexts, sessionId, s, proposals);
    PassMoves(contexts, sessionId, s, proposals);
    var t := Reconciled(contexts, sessionId, s, proposals);
    forall k | 0 <= k < |t.calls| && t.calls[k].status == Running ensures proposals(t.calls[k].id) != Unreadable {
      assert Rested(t, k);
    }
    if t != s {
      forall j | 0 <= j < |t.attempts| ensures LoadExact(contexts, sessionId, t, j) == Absent {
        ReconcileResolves(contexts, sessionId, s, proposals, j);
        if t.attempts[j].status == InFlight {
          NothingExactAfter(contexts, sessionId, s, t, j);
        }
      }
    }
  }

  /** An attempt that survives in flight while the log moves shows that the pass disturbed it. */
  lemma SurvivorIsDisturbed(contexts: Contexts, sessionId: string, s: Session, proposals: Proposals, j: nat)
    requires Consistent(s) && Readable(s, proposals) && Sane(contexts, sessionId, s) && j < |s.attempts|
    requires var t := Reconciled(contexts, sessionId, s, proposals);
             t != s && j < |t.attempts| && t.attempts[j].status == InFlight
    ensures Disturbed(contexts, sessionId, s)
  {
    var t := Reconciled(contexts, sessionId, s, proposals);
    var c := AfterCalls(contexts, sessionId, s, proposals);
    RepairAttemptsResolves(contexts, sessionId, c, 0);
    assert Resolved(contexts, sessionId, c, t, j);
    assert c == s && IsExact(contexts, sessionId, s, j);
    var m := FirstNeed(contexts, sessionId, s);
    RepairAttemptsMovesIff(contexts, sessionId, s, 0);
    RepairAttemptsSkips(contexts, sessionId, s, 0, m);
    EarlyNeedEndsExactness(contexts, sessionId, s, m, j);
    assert NoneNeeds(contexts, sessionId, s, 0, j);
  }

  lemma InFlightWasExact(contexts: Contexts, sessionId: string, s: Session, from: nat, j: nat)
    requires Consistent(s) && Quiet(s) && Sane(contexts, sessionId, s) && from <= j < |s.attempts|
    requires RepairAttempts(contexts, sessionId, s, from).session.attempts[j].status == InFlight
    ensures IsExact(contexts, sessionId, s, j)
  {
    RepairAttemptsResolves(contexts, sessionId, s, from);
    assert Resolved(contexts, sessionId, s, RepairAttempts(contexts, sessionId, s, from).session, j);
  }

  /** Settling an attempt ends the exactness of every later one. */
  lemma EarlyNeedEndsExactness(contexts: Contexts, sessionId: string, s: Session, m: nat, j: nat)
    requires Consistent(s) && Quiet(s) && Sane(contexts, sessionId, s) && m < |s.attempts| && j < |s.attempts|
    requires NeedsRepair(contexts, sessionId, s, m) && IsExact(contexts, sessionId, s, j)
    requires RepairAttempts(contexts, sessionId, s, m).session.attempts[j].status == InFlight
    ensures j < m
  {
    AttemptStepSettles(contexts, sessionId, s, m);
    AttemptStepCarries(contexts, sessionId, s, m);
    var t := AttemptStep(contexts, sessionId, s, m).session;
    if m < j {
      InFlightWasExact(contexts, sessionId, t, m + 1, j);
      NothingExactAfter(contexts, sessionId, s, t, j);
    }
  }

  /** An attempt before which nothing needs settling keeps its place. */
  lemma KeptThrough(contexts: Contexts, sessionId: string, s: Session, i: nat)
    requires Consistent(s) && Quiet(s) && Sane(contexts, sessionId, s) && i < |s.attempts|
    requires NoneNeeds(contexts, sessionId, s, 0, i + 1)
    ensures RepairAttempts(contexts, sessionId, s, 0).session.attempts[i] == s.attempts[i]
  {
    RepairAttemptsSkips(contexts, sessionId, s, 0, i + 1);
    RepairAttemptsResolves(contexts, sessionId, s, i + 1);
  }

  lemma DisturbedSurvives(contexts: Contexts, sessionId: string, s: Session, proposals: Proposals, i: nat, j: nat)
    requires Consistent(s) && Readable(s, proposals) && Sane(contexts, sessionId, s) && AllRested(s, 0)
    requires i < j < |s.attempts| && IsExact(contexts, sessionId, s, i)
    requires NeedsRepair(contexts, sessionId, s, j) && NoneNeeds(contexts, sessionId, s, 0, i)
    ensures var t := Reconciled(contexts, sessionId, s, proposals);
            s.last < t.last && i < |t.attempts| && t.attempts[i].status == InFlight
  {
    var c := AfterCalls(contexts, sessionId, s, proposals);
    assert NoneNeeds(contexts, sessionId, s, 0, i + 1);
    KeptThrough(contexts, sessionId, s, i);
    RepairAttemptsMovesIff(contexts, sessionId, s, 0);
  }

  lemma DisturbedNeedsAgain(contexts: Contexts, sessionId: string, s: Session, proposals: Proposals, i: nat, j: nat)
    requires Consistent(s) && Readable(s, proposals) && Sane(contexts, sessionId, s) && AllRested(s, 0)
    requires i < j < |s.attempts| && IsExact(contexts, sessionId, s, i)
    requires NeedsRepair(contexts, sessionId, s, j) && NoneNeeds(contexts, sessionId, s, 0, i)
    ensures var t := Reconciled(contexts, sessionId, s, proposals);
            i < |t.attempts| && NeedsRepair(contexts, sessionId, t, i)
  {
    DisturbedSurvives(contexts, sessionId, s, proposals, i, j);
    SecondPassIsSane(contexts, sessionId, s, proposals);
  }

  /** Once the log has moved, what still needs settling is exactly what the pass disturbed. */
  lemma NeedsAgainIff(contexts: Contexts, sessionId: string, s: Session, proposals: Proposals, t: Session)
    requires Consistent(s) && Readable(s, proposals) && Sane(contexts, sessionId, s)
    requires t == Reconciled(contexts, sessionId, s, proposals) && t != s
    ensures NoneNeeds(contexts, sessionId, t, 0, |t.attempts|) <==> !Disturbed(contexts, sessionId, s)
  {
    if Disturbed(contexts, sessionId, s) {
      var i, j :| && 0 <= i < j < |s.attempts| && IsExact(contexts, sessionId, s, i)
                  && NeedsRepair(contexts, sessionId, s, j) && NoneNeeds(contexts, sessionId, s, 0, i);
      DisturbedNeedsAgain(contexts, sessionId, s, proposals, i, j);
    } else {
      ReconcileSucceeds(contexts, sessionId, s, proposals);
      forall j | 0 <= j < |t.attempts| ensures !NeedsRepair(contexts, sessionId, t, j) {
        SurvivorsAreSettled(contexts, sessionId, s, proposals, j);
      }
    }
  }

  /** A second pass issues no command exactly when the first one did not move the log past a binding it kept. */
  lemma SecondPassSilentIff(contexts: Contexts, sessionId: string, s: Session, proposals: Proposals)
    requires Consistent(s) && Readable(s, proposals) && Sane(contexts, sessionId, s)
    ensures var t := Reconciled(contexts, sessionId, s, proposals);
            Reconciled(contexts, sessionId, t, proposals) == t <==> !Disturbed(contexts, sessionId, s)
  {
    var t := Reconciled(contexts, sessionId, s, proposals);
    PassMoves(contexts, sessionId, s, proposals);
    if t != s {
      SecondPassIsSane(contexts, sessionId, s, proposals);
      SilentIff(contexts, sessionId, t, proposals);
      NeedsAgainIff(contexts, sessionId, s, proposals, t);
    }
  }

  lemma SurvivorsAreSettled(contexts: Contexts, sessionId: string, s: Session, proposals: Proposals, j: nat)
    requires Consistent(s) && Readable(s, proposals) && Sane(contexts, sessionId, s) && j < |s.attempts|
    requires Reconciled(contexts, sessionId, s, proposals) != s && !Disturbed(contexts, sessionId, s)
    ensures var t := Reconciled(contexts, sessionId, s, proposals);
            j < |t.attempts| && (Settled(t.attempts[j].status) || t.attempts[j].status == AwaitingTools)
  {
    var t := Reconciled(contexts, sessionId, s, proposals);
    ReconcileResolves(contexts, sessionId, s, proposals, j);
    if t.attempts[j].status == InFlight {
      SurvivorIsDisturbed(contexts, sessionId, s, proposals, j);
    }
  }

  ghost predicate OneUnsettled(s: Session) {
    forall i, j :: 0 <= i < j < |s.attempts| ==> Settled(s.attempts[i].status) || Settled(s.attempts[j].status)
  }

  /** With at most one unsettled attempt a pass is idempotent, and what it leaves in flight can be resumed. */
  lemma OneUnsettledIsIdempotent(contexts: Contexts, sessionId: string, s: Session, proposals: Proposals)
    requires Consistent(s) && Readable(s, proposals) && Sane(contexts, sessionId, s) && OneUnsettled(s)
    ensures var t := Reconciled(contexts, sessionId, s, proposals);
            && Reconciled(contexts, sessionId, t, proposals) == t
            && forall j :: 0 <= j < |t.attempts| ==>
                 Settled(t.attempts[j].status) || t.attempts[j].status == AwaitingTools
                 || IsExact(contexts, sessionId, t, j)
  {
    var t := Reconciled(contexts, sessionId, s, proposals);
    assert !Disturbed(contexts, sessionId, s);
    SecondPassSilentIff(contexts, sessionId, s, proposals);
    ReconcileSucceeds(contexts, sessionId, s, proposals);
    forall j | 0 <= j < |t.attempts|
      ensures Settled(t.attempts[j].status) || t.attempts[j].status == AwaitingTools || IsExact(contexts, sessionId, t, j)
    {
      ReconcileResolves(contexts, sessionId, s, proposals, j);
      if t != s {
        SurvivorsAreSettled(contexts, sessionId, s, proposals, j);
      }
    }
  }

  // ---------------------------------------------------------------- runs with restarts

  /** A durable command, a restart with its reconciliation, or a request to start a recovered turn. */
  datatype Event = Do(command: Command) | Restart(contexts: Contexts, proposals: Proposals)
                 | StartPending(store: Contexts, expected: Manifest, requestHash: string)

  /** A rejected command changes nothing; a pass that fails half way leaves what it has done. */
  function Step(sessionId: string, s: Session, e: Event): (t: Session) {
    match e
    case Do(command) => if Execute(s, command).Some? then Execute(s, command).value else s
    case Restart(contexts, proposals) => Reconciled(contexts, sessionId, s, proposals)
    case StartPending(store, expected, requestHash) =>
      var r := StartRecovered(store, s, expected, requestHash);
      if r.Some? then r.value else s
  }

  function Run(sessionId: string, s: Session, events: seq<Event>): (t: Session)
    decreases |events|
  {
    if events == [] then s else Run(sessionId, Step(sessionId, s, events[0]), events[1..])
  }

  lemma {:induction false} RepairCallsKeeps(s: Session, proposals: Proposals, k: nat)
    requires Consistent(s) && k <= |s.calls|
    ensures Consistent(RepairCalls(s, proposals, k).session)
    decreases |s.calls| - k
  {
    if k < |s.calls| {
      var c := s.calls[k];
      var act := CallRepair(c.status, ParentStatus(s, k), proposals(c.id));
      if act.Some? && Execute(s, OnCall(c.id, act.value)).Some? {
        ExecuteKeeps(s, OnCall(c.id, act.value));
      }
      if CallStep(s, proposals, k).ok {
        RepairCallsKeeps(CallStep(s, proposals, k).session, proposals, k + 1);
      }
    }
  }

  lemma AttemptStepKeeps(contexts: Contexts, sessionId: string, s: Session, i: nat)
    requires Consistent(s) && i < |s.attempts|
    ensures var t := AttemptStep(contexts, sessionId, s, i).session; Consistent(t) && t.started == s.started
  {
    var a := s.attempts[i];
    var act := AttemptRepair(a, IsExact(contexts, sessionId, s, i));
    if act.Some? && Execute(s, OnAttempt(a.id, act.value)).Some? {
      ExecuteKeeps(s, OnAttempt(a.id, act.value));
    }
  }

  lemma {:induction false} RepairAttemptsKeeps(contexts: Contexts, sessionId: string, s: Session, i: nat)
    requires Consistent(s) && i <= |s.attempts|
    ensures var t := RepairAttempts(contexts, sessionId, s, i).session; Consistent(t) && t.started == s.started
    decreases |s.attempts| - i
  {
    if i < |s.attempts| {
      AttemptStepKeeps(contexts, sessionId, s, i);
      if AttemptStep(contexts, sessionId, s, i).ok {
        RepairAttemptsKeeps(contexts, sessionId, AttemptStep(contexts, sessionId, s, i).session, i + 1);
      }
    }
  }

  /** Even a pass over a damaged store keeps the aggregate consistent and starts nothing. */
  lemma RestartStartsNothing(contexts: Contexts, sessionId: string, s: Session, proposals: Proposals)
    requires Consistent(s)
    ensures var t := Reconciled(contexts, sessionId, s, proposals); Consistent(t) && t.started == s.started
  {
    RepairCallsKeeps(s, proposals, 0);
    CallsLeaveAttempts(s, proposals, 0);
    var c := RepairCalls(s, proposals, 0).session;
    RepairAttemptsKeeps(contexts, sessionId, c, 0);
  }

  lemma ExecuteExtends(s: Session, command: Command)
    requires Execute(s, command).Some?
    ensures s.started <= Execute(s, command).value.started
  {
  }

  lemma StepKeeps(sessionId: string, s: Session, e: Event)
    requires Consistent(s)
    ensures Consistent(Step(sessionId, s, e)) && s.started <= Step(sessionId, s, e).started
  {
    match e
    case Do(command) =>
      if Execute(s, command).Some? {
        ExecuteKeeps(s, command);
        ExecuteExtends(s, command);
      }
    case Restart(contexts, proposals) => RestartStartsNothing(contexts, sessionId, s, proposals);
    case StartPending(store, expected, requestHash) =>
      if StartRecovered(store, s, expected, requestHash).Some? {
        ExecuteKeeps(s, OnAttempt(expected.attemptId, StartTurn));
        ExecuteExtends(s, OnAttempt(expected.attemptId, StartTurn));
      }
  }

  lemma {:induction false} RunKeeps(sessionId: string, s: Session, events: seq<Event>)
    requires Consistent(s)
    ensures Consistent(Run(sessionId, s, events)) && s.started <= Run(sessionId, s, events).started
    decreases |events|
  {
    if events != [] {
      StepKeeps(sessionId, s, events[0]);
      RunKeeps(sessionId, Step(sessionId, s, events[0]), events[1..]);
    }
  }

  /** In every run of commands, crashes, restarts and start requests each bound turn starts at most once. */
  lemma TurnsStartOnce(sessionId: string, events: seq<Event>, j: nat, k: nat)
    requires var started := Run(sessionId, NEW_SESSION, events).started; j < |started| && k < |started| && started[j] == started[k]
    ensures j == k
  {
    NewSessionIsConsistent();
    RunKeeps(sessionId, NEW_SESSION, events);
  }

  /** A recovered start succeeds exactly for the loaded manifest and its request, and consumes that one turn. */
  lemma StartRecoveredIff(contexts: Contexts, s: Session, expected: Manifest, requestHash: string)
    requires Consistent(s)
    ensures StartRecovered(contexts, s, expected, requestHash).Some? <==>
            exists i :: && 0 <= i < |s.attempts| && s.attempts[i].id == expected.attemptId
                        && LoadExact(contexts, expected.sessionId, s, i) == Exact(expected)
                        && requestHash == expected.requestHash
    ensures StartRecovered(contexts, s, expected, requestHash).Some? ==>
              var t := StartRecovered(contexts, s, expected, requestHash).value;
              t.started == s.started + [expected.turnId] && t.last == s.last + 1
  {
    var at := FindAttempt(s.attempts, expected.attemptId);
    if at.Some? && LoadExact(contexts, expected.sessionId, s, at.value) == Exact(expected) {
      assert Bound(s, at.value);
    }
    forall i | 0 <= i < |s.attempts| && s.attempts[i].id == expected.attemptId ensures at == Some(i) {
      FindAttemptAt(s.attempts, i);
    }
  }

  /** Once a turn has been started, no later request for it succeeds, whatever happens in between. */
  lemma NeverRestarted(sessionId: string, s: Session, events: seq<Event>, turnId: string, contexts: Contexts,
                       expected: Manifest, requestHash: string)
    requires Consistent(s) && turnId in s.started && expected.turnId == turnId
    ensures StartRecovered(contexts, Run(sessionId, s, events), expected, requestHash).None?
  {
    RunKeeps(sessionId, s, events);
    var u := Run(sessionId, s, events);
    var k :| 0 <= k < |s.started| && s.started[k] == turnId;
    assert u.started[k] == turnId;
    StartedIsConsumed(u, k, contexts, expected, requestHash);
  }

  lemma StartedIsConsumed(u: Session, k: nat, contexts: Contexts, expected: Manifest, requestHash: string)
    requires Consistent(u) && k < |u.started| && u.started[k] == expected.turnId
    ensures StartRecovered(contexts, u, expected, requestHash).None?
  {
    var r := StartRecovered(contexts, u, expected, requestHash);
    if r.Some? {
      StartRecoveredIff(contexts, u, expected, requestHash);
      ExecuteKeeps(u, OnAttempt(expected.attemptId, StartTurn));
      StartedApart(r.value, k, |u.started|);
      assert false;
    }
  }

  lemma StartedApart(v: Session, j: nat, k: nat)
    requires Consistent(v) && j < k < |v.started|
    ensures v.started[j] != v.started[k]
  {
  }

  /** Two attempts, one bound and one only prepared: the first pass keeps the one and settles the other. */
  lemma DisturbedIsReachable() returns (contexts: Contexts, events: seq<Event>)
    ensures Consistent(Run("session", NEW_SESSION, events)) && Disturbed(contexts, "session", Run("session", NEW_SESSION, events))
  {
    var bind := Bind(1, "turn", "hash");
    events := [Do(Prepare("a", 0)), Do(Prepare("b", 0)), Do(OnAttempt("a", Start)), Do(OnAttempt("a", bind))];
    contexts := map["turn" := StoredTurn(Manifest("session", "a", 1, "turn", "hash", 4, "request", [], true), [], false, {})];
    var unstarted := Attempt("a", Prepared, 0, false, None, []);
    var other := Attempt("b", Prepared, 0, false, None, []);
    var s1 := NEW_SESSION.(attempts := [unstarted], last := 2);
    var s2 := s1.(attempts := [unstarted, other], last := 3);
    var flying := unstarted.(status := InFlight, ready := true);
    var s3 := s2.(attempts := [flying, other], last := 4);
    var bound := flying.(bindings := [Binding(1, "turn", "hash", 5)]);
    var s4 := s3.(attempts := [bound, other], last := 5, bound := map["turn" := Place(0, 0)]);
    assert "a"[0] != "b"[0];
    assert NEW_SESSION.attempts + [unstarted] == [unstarted] && [unstarted] + [other] == [unstarted, other];
    assert PrepareAttempt(NEW_SESSION, "a", 0) == Some(s1);
    assert PrepareAttempt(s1, "b", 0) == Some(s2);
    assert FindAttempt(s2.attempts, "a") == Some(0) && FindAttempt(s3.attempts, "a") == Some(0);
    assert s2.attempts[0 := flying] == s3.attempts && s3.attempts[0 := bound] == s4.attempts;
    assert ApplyAttempt(s2, 0, Start) == Some(s3);
    assert [] + [Binding(1, "turn", "hash", 5)] == bound.bindings && s3.bound["turn" := Place(0, 0)] == s4.bound;
    assert ApplyAttempt(s3, 0, bind) == Some(s4);
    RunFour(NEW_SESSION, events, s1, s2, s3, s4);
    NewSessionIsConsistent();
    RunKeeps("session", NEW_SESSION, events);
    assert IsExact(contexts, "session", s4, 0) && NeedsRepair(contexts, "session", s4, 1);
    assert NoneNeeds(contexts, "session", s4, 0, 0);
  }

  lemma RunHead(s: Session, e: Event, rest: seq<Event>, t: Session)
    requires Step("session", s, e) == t
    ensures Run("session", s, [e] + rest) == Run("session", t, rest)
  {
    assert ([e] + rest)[1..] == rest;
  }

  lemma RunFour(s: Session, events: seq<Event>, s1: Session, s2: Session, s3: Session, s4: Session)
    requires |events| == 4 && Step("session", s, events[0]) == s1 && Step("session", s1, events[1]) == s2
    requires Step("session", s2, events[2]) == s3 && Step("session", s3, events[3]) == s4
    ensures Run("session", s, events) == s4
  {
    RunHead(s, events[0], events[1..], s1);
    RunHead(s1, events[1], events[2..], s2);
    RunHead(s2, events[2], events[3..], s3);
    RunHead(s3, events[3], [], s4);
    assert [events[0]] + events[1..] == events && [events[1]] + events[2..] == events[1..];
    assert [events[2]] + events[3..] == events[2..] && [events[3]] + [] == events[3..];
  }
}
