/** The life of an attempt over whole runs: which commands it accepts, and in which order. */
module RecoveryTurns {
  import opened Text
  import opened Engine
  import opened Recovery
  import opened RecoveryProofs

  // ---------------------------------------------------------------- the order of commands

  /** A command that settles an attempt. */
  predicate Ends(act: AttemptAct) {
    act.Complete? || act.Fail? || act.Cancel? || act.MarkUnknown?
  }

  /** A command that leaves an attempt in flight. */
  predicate Flies(act: AttemptAct) {
    act.Start? || act.Bind? || act.StartTurn? || act.Resume?
  }

  /** What may come right after what: a turn is bound, then started, and the next one waits for a pause and a resume. */
  predicate Follows(previous: Option<AttemptAct>, next: AttemptAct) {
    match next
    case Configure(_) => previous.None?
    case Start => previous.None? || previous.value.Configure?
    case Bind(_, _, _) => previous.Some? && (previous.value.Start? || previous.value.Resume?)
    case StartTurn => previous.Some? && previous.value.Bind?
    case Pause => previous.Some? && previous.value.StartTurn?
    case Resume => previous.Some? && previous.value.Pause?
    case RequestCancellation => previous.Some? && (Flies(previous.value) || previous.value.Pause?)
    case Cancel => previous.Some? && previous.value.RequestCancellation?
    case MarkUnknown => previous.Some? && (Flies(previous.value) || previous.value.RequestCancellation?)
    case Complete =>
      previous.Some? && (Flies(previous.value) || previous.value.Pause? || previous.value.RequestCancellation?)
    case Fail => previous.None? || !Ends(previous.value)
  }

  function Latest(acts: seq<AttemptAct>): (r: Option<AttemptAct>) {
    if acts == [] then None else Some(acts[|acts| - 1])
  }

  ghost predicate Orderly(acts: seq<AttemptAct>) {
    forall j :: 0 <= j < |acts| ==> Follows(Latest(acts[..j]), acts[j])
  }

  lemma OrderlyAppend(acts: seq<AttemptAct>, act: AttemptAct)
    requires Orderly(acts) && Follows(Latest(acts), act)
    ensures Orderly(acts + [act]) && Latest(acts + [act]) == Some(act)
  {
    forall j | 0 <= j < |acts| + 1 ensures Follows(Latest((acts + [act])[..j]), (acts + [act])[j]) {
      assert (acts + [act])[..j] == acts[..j];
      assert j == |acts| ==> acts[..j] == acts;
    }
  }

  // ---------------------------------------------------------------- the commands that a run accepts

  function Given(command: Command, id: string): (acts: seq<AttemptAct>) {
    if command.OnAttempt? && command.id == id then [command.act] else []
  }

  /** A recovered start is a start of the bound turn; a restart is no command. */
  function Accepted(s: Session, e: Event, id: string): (acts: seq<AttemptAct>) {
    match e
    case Do(command) => if Execute(s, command).Some? then Given(command, id) else []
    case Restart(_, _) => []
    case StartPending(store, expected, requestHash) =>
      if expected.attemptId == id && StartRecovered(store, s, expected, requestHash).Some? then [StartTurn] else []
  }

  /** The commands on an attempt that a run accepted, in order. */
  function Acts(sessionId: string, s: Session, events: seq<Event>, id: string): (acts: seq<AttemptAct>)
    decreases |events|
  {
    if events == [] then []
    else Accepted(s, events[0], id) + Acts(sessionId, Step(sessionId, s, events[0]), events[1..], id)
  }

  // ---------------------------------------------------------------- what an attempt tells of its commands

  /** The last command and the state agree; only a pass after a restart fails an attempt or loses it without one. */
  predicate Fits(a: Attempt, acts: seq<AttemptAct>) {
    var latest, started := Latest(acts), |a.bindings| == a.turnsStarted;
    match a.status
    case Prepared => if a.maxTurns.None? then acts == [] else latest.Some? && latest.value.Configure?
    case InFlight =>
      && latest.Some?
      && (if a.ready then (if started then latest.value.Start? || latest.value.Resume? else latest.value.Bind?)
          else started && latest.value.StartTurn?)
    case AwaitingTools => started && latest == Some(Pause)
    case CancellationRequested => latest == Some(RequestCancellation)
    case Completed => latest == Some(Complete)
    case Cancelled => latest == Some(Cancel)
    case Failed => true
    case Unknown => true
  }

  ghost predicate FitsAt(s: Session, id: string, acts: seq<AttemptAct>) {
    && Orderly(acts)
    && (forall i :: 0 <= i < |s.attempts| && s.attempts[i].id == id ==> Fits(s.attempts[i], acts))
    && ((forall i :: 0 <= i < |s.attempts| ==> s.attempts[i].id != id) ==> acts == [])
  }

  lemma AttemptAfterFits(s: Session, i: nat, act: AttemptAct, acts: seq<AttemptAct>)
    requires i < |s.attempts| && Bound(s, i) && Fits(s.attempts[i], acts) && Orderly(acts)
    requires AttemptAfter(s, s.attempts[i], act).Some?
    ensures Follows(Latest(acts), act)
    ensures Fits(AttemptAfter(s, s.attempts[i], act).value, acts + [act])
  {
    var a := s.attempts[i];
    assert a.bindings != [] ==> a.bindings[|a.bindings| - 1].runTurn == |a.bindings|;
    assert Latest(acts + [act]) == Some(act);
  }

  lemma OthersStay(s: Session, command: Command, id: string, acts: seq<AttemptAct>)
    requires FitsAt(s, id, acts) && Execute(s, command).Some? && !command.OnAttempt?
    ensures FitsAt(Execute(s, command).value, id, acts)
  {
    var t := Execute(s, command).value;
    assert |s.attempts| <= |t.attempts| && forall i :: 0 <= i < |s.attempts| ==> t.attempts[i] == s.attempts[i];
  }

  /** A command on an attempt touches that one alone. */
  lemma OnlyOneMoves(s: Session, i: nat, act: AttemptAct)
    requires i < |s.attempts| && ApplyAttempt(s, i, act).Some?
    ensures var t := ApplyAttempt(s, i, act).value;
            && |t.attempts| == |s.attempts| && AttemptAfter(s, s.attempts[i], act) == Some(t.attempts[i])
            && t.attempts[i].id == s.attempts[i].id
            && forall j :: 0 <= j < |s.attempts| && j != i ==> t.attempts[j] == s.attempts[j]
  {
  }

  lemma OneFits(s: Session, t: Session, i: nat, id: string, acts: seq<AttemptAct>)
    requires i < |s.attempts| == |t.attempts| && UniqueAttempts(s.attempts) && s.attempts[i].id == id == t.attempts[i].id
    requires forall j :: 0 <= j < |s.attempts| && j != i ==> t.attempts[j] == s.attempts[j]
    requires Orderly(acts) && Fits(t.attempts[i], acts)
    ensures FitsAt(t, id, acts)
  {
  }

  lemma OthersFit(s: Session, t: Session, i: nat, id: string, acts: seq<AttemptAct>)
    requires i < |s.attempts| == |t.attempts| && s.attempts[i].id == t.attempts[i].id != id
    requires forall j :: 0 <= j < |s.attempts| && j != i ==> t.attempts[j] == s.attempts[j]
    requires FitsAt(s, id, acts)
    ensures FitsAt(t, id, acts)
  {
  }

  lemma ApplyAttemptFits(s: Session, i: nat, act: AttemptAct, id: string, acts: seq<AttemptAct>)
    requires i < |s.attempts| && Consistent(s) && FitsAt(s, id, acts) && ApplyAttempt(s, i, act).Some?
    ensures FitsAt(ApplyAttempt(s, i, act).value, id, acts + Given(OnAttempt(s.attempts[i].id, act), id))
  {
    var t := ApplyAttempt(s, i, act).value;
    OnlyOneMoves(s, i, act);
    if s.attempts[i].id == id {
      assert Bound(s, i);
      AttemptAfterFits(s, i, act, acts);
      OrderlyAppend(acts, act);
      OneFits(s, t, i, id, acts + [act]);
    } else {
      assert acts + [] == acts;
      OthersFit(s, t, i, id, acts);
    }
  }

  lemma ExecuteFits(s: Session, command: Command, id: string, acts: seq<AttemptAct>)
    requires Consistent(s) && FitsAt(s, id, acts) && Execute(s, command).Some?
    ensures FitsAt(Execute(s, command).value, id, acts + Given(command, id))
  {
    assert acts + [] == acts;
    if command.OnAttempt? {
      ApplyAttemptFits(s, FindAttempt(s.attempts, command.id).value, command.act, id, acts);
    } else {
      OthersStay(s, command, id, acts);
    }
  }

  // ---------------------------------------------------------------- restarts

  lemma {:induction false} CallsLeaveAttempts(s: Session, proposals: Proposals, k: nat)
    requires k <= |s.calls|
    ensures RepairCalls(s, proposals, k).session.attempts == s.attempts
    decreases |s.calls| - k
  {
    if k < |s.calls| && CallStep(s, proposals, k).ok {
      CallsLeaveAttempts(CallStep(s, proposals, k).session, proposals, k + 1);
    }
  }

  /** A repair settles an attempt as failed or unknown, and nothing can follow. */
  ghost predicate OnlySettles(s: Session, t: Session) {
    && |t.attempts| == |s.attempts|
    && forall j :: 0 <= j < |s.attempts| ==>
         && t.attempts[j].id == s.attempts[j].id
         && (t.attempts[j] == s.attempts[j] || t.attempts[j].status in {Failed, Unknown})
  }

  lemma SettlingFits(s: Session, t: Session, id: string, acts: seq<AttemptAct>)
    requires FitsAt(s, id, acts) && OnlySettles(s, t)
    ensures FitsAt(t, id, acts)
  {
  }

  lemma StepOnlySettles(contexts: Contexts, sessionId: string, s: Session, i: nat)
    requires i < |s.attempts|
    ensures OnlySettles(s, AttemptStep(contexts, sessionId, s, i).session)
  {
    var a := s.attempts[i];
    var act := AttemptRepair(a, IsExact(contexts, sessionId, s, i));
    if !LoadExact(contexts, sessionId, s, i).Broken? && act.Some? && Execute(s, OnAttempt(a.id, act.value)).Some? {
      var m := FindAttempt(s.attempts, a.id).value;
      assert ApplyAttempt(s, m, act.value).Some?;
    }
  }

  /** What every step of a pass over the attempts keeps, the pass keeps. */
  lemma {:induction false} PassKeeps(inv: Session -> bool, contexts: Contexts, sessionId: string, s: Session, i: nat)
    requires inv(s) && i <= |s.attempts|
    requires forall t: Session, j: nat | inv(t) && j < |t.attempts| ::
               inv(AttemptStep(contexts, sessionId, t, j).session)
    ensures inv(RepairAttempts(contexts, sessionId, s, i).session)
    decreases |s.attempts| - i
  {
    if i < |s.attempts| && AttemptStep(contexts, sessionId, s, i).ok {
      PassKeeps(inv, contexts, sessionId, AttemptStep(contexts, sessionId, s, i).session, i + 1);
    }
  }

  lemma RepairAttemptsFits(contexts: Contexts, sessionId: string, s: Session, id: string, acts: seq<AttemptAct>)
    requires FitsAt(s, id, acts)
    ensures FitsAt(RepairAttempts(contexts, sessionId, s, 0).session, id, acts)
  {
    var inv := (t: Session) => FitsAt(t, id, acts);
    forall t: Session, j: nat | inv(t) && j < |t.attempts| ensures inv(AttemptStep(contexts, sessionId, t, j).session) {
      StepOnlySettles(contexts, sessionId, t, j);
      SettlingFits(t, AttemptStep(contexts, sessionId, t, j).session, id, acts);
    }
    PassKeeps(inv, contexts, sessionId, s, 0);
  }

  // ---------------------------------------------------------------- runs

  lemma StepFits(sessionId: string, s: Session, e: Event, id: string, acts: seq<AttemptAct>)
    requires Consistent(s) && FitsAt(s, id, acts)
    ensures FitsAt(Step(sessionId, s, e), id, acts + Accepted(s, e, id))
  {
    assert acts + [] == acts;
    match e
    case Do(command) =>
      if Execute(s, command).Some? {
        ExecuteFits(s, command, id, acts);
      }
    case Restart(contexts, proposals) =>
      var calls := RepairCalls(s, proposals, 0).session;
      CallsLeaveAttempts(s, proposals, 0);
      assert FitsAt(calls, id, acts);
      RepairAttemptsFits(contexts, sessionId, calls, id, acts);
    case StartPending(store, expected, requestHash) =>
      if StartRecovered(store, s, expected, requestHash).Some? {
        ExecuteFits(s, OnAttempt(expected.attemptId, StartTurn), id, acts);
      }
  }

  lemma Regroup<T>(a: seq<T>, b: seq<T>, c: seq<T>)
    ensures (a + b) + c == a + (b + c)
  {
  }

  lemma {:induction false} RunFits(sessionId: string, s: Session, events: seq<Event>, id: string, acts: seq<AttemptAct>)
    requires Consistent(s) && FitsAt(s, id, acts)
    ensures FitsAt(RecoveryProofs.Run(sessionId, s, events), id, acts + Acts(sessionId, s, events, id))
    decreases |events|
  {
    if events == [] {
      assert acts + [] == acts;
    } else {
      var first, next := Accepted(s, events[0], id), Step(sessionId, s, events[0]);
      StepFits(sessionId, s, events[0], id, acts);
      StepKeeps(sessionId, s, events[0]);
      RunFits(sessionId, next, events[1..], id, acts + first);
      Regroup(acts, first, Acts(sessionId, next, events[1..], id));
    }
  }

  /**
   In every run of commands, crashes, restarts and starts, the commands that an attempt accepts are in order: a budget
   before the start, every turn bound and then started, a pause and a resume between two turns, at most one command that
   settles and nothing after it; and where the attempt stands tells its last command.
   */
  lemma TurnsAlternate(sessionId: string, events: seq<Event>, id: string)
    ensures var s := RecoveryProofs.Run(sessionId, NEW_SESSION, events);
            var acts := Acts(sessionId, NEW_SESSION, events, id);
            && Orderly(acts)
            && forall i :: 0 <= i < |s.attempts| && s.attempts[i].id == id ==> Fits(s.attempts[i], acts)
  {
    NewSessionIsConsistent();
    RunFits(sessionId, NEW_SESSION, events, id, []);
    assert [] + Acts(sessionId, NEW_SESSION, events, id) == Acts(sessionId, NEW_SESSION, events, id);
  }

  /** A cancelled attempt was asked to cancel, and between the two no other command was accepted. */
  lemma CancelledWasAsked(sessionId: string, events: seq<Event>, i: nat)
    requires i < |RecoveryProofs.Run(sessionId, NEW_SESSION, events).attempts|
    requires RecoveryProofs.Run(sessionId, NEW_SESSION, events).attempts[i].status == Cancelled
    ensures var id := RecoveryProofs.Run(sessionId, NEW_SESSION, events).attempts[i].id;
            var acts := Acts(sessionId, NEW_SESSION, events, id);
            |acts| >= 2 && acts[|acts| - 2] == RequestCancellation && acts[|acts| - 1] == Cancel
  {
    var id := RecoveryProofs.Run(sessionId, NEW_SESSION, events).attempts[i].id;
    TurnsAlternate(sessionId, events, id);
    var acts := Acts(sessionId, NEW_SESSION, events, id);
    assert Follows(Latest(acts[..|acts| - 1]), acts[|acts| - 1]);
  }
}
