/** Permission for tool calls over whole runs: what was answered decides what a call may become. */
module RecoveryCalls {
  import opened Text
  import opened Engine
  import opened Recovery
  import opened RecoveryProofs

  /** A decision or an answer about this call. */
  function Given(command: Command, id: string): (acts: seq<CallAct>) {
    if command.OnCall? && command.callId == id && (command.callAct.Record? || command.callAct.Answer?)
    then [command.callAct] else []
  }

  /** What one event adds: nothing when it is rejected. */
  function Accepted(s: Session, e: Event, id: string): (acts: seq<CallAct>) {
    if e.Do? && Execute(s, e.command).Some? then Given(e.command, id) else []
  }

  /** The decisions and answers about a call that a run accepted, in order. */
  function Answers(sessionId: string, s: Session, events: seq<Event>, id: string): (acts: seq<CallAct>)
    decreases |events|
  {
    if events == [] then []
    else Accepted(s, events[0], id) + Answers(sessionId, Step(sessionId, s, events[0]), events[1..], id)
  }

  predicate Allowed(acts: seq<CallAct>) {
    acts == [Record(Allow)] || acts == [Record(Ask), Answer(true)]
  }

  predicate Denied(acts: seq<CallAct>) {
    acts == [Record(Deny)] || acts == [Record(Ask), Answer(false)]
  }

  /** What must have been answered for a call to be where it is. */
  predicate Fits(status: CallStatus, acts: seq<CallAct>) {
    match status
    case CallProposed => acts == []
    case PermissionPending => acts == [Record(Ask)]
    case Authorized => Allowed(acts)
    case Running => Allowed(acts)
    case CallCompleted => Allowed(acts)
    case CallFailed => Allowed(acts)
    case CallUnknown => Allowed(acts)
    case DeniedPending => Denied(acts)
    case CallDenied => Denied(acts)
    case CallCancelled => acts == [] || acts == [Record(Ask)] || Allowed(acts)
  }

  ghost predicate FitsAt(s: Session, id: string, acts: seq<CallAct>) {
    && (forall k :: 0 <= k < |s.calls| && s.calls[k].id == id ==> Fits(s.calls[k].status, acts))
    && ((forall k :: 0 <= k < |s.calls| ==> s.calls[k].id != id) ==> acts == [])
  }

  lemma CallAfterFits(status: CallStatus, parent: AttemptStatus, act: CallAct, acts: seq<CallAct>)
    requires CallAfter(status, parent, act).Some? && Fits(status, acts)
    ensures Fits(CallAfter(status, parent, act).value, acts + if act.Record? || act.Answer? then [act] else [])
  {
    assert [] + [act] == [act] && [Record(Ask)] + [act] == [Record(Ask), act] && acts + [] == acts;
  }

  lemma ExecuteFits(s: Session, command: Command, id: string, acts: seq<CallAct>)
    requires Consistent(s) && FitsAt(s, id, acts) && Execute(s, command).Some?
    ensures FitsAt(Execute(s, command).value, id, acts + Given(command, id))
  {
    var t := Execute(s, command).value;
    assert acts + [] == acts;
    if command.OnCall? {
      var k := FindCall(s.calls, command.callId).value;
      ApplyCallFits(s, k, command.callAct, id, acts);
    } else {
      assert |s.calls| <= |t.calls| && forall k :: 0 <= k < |s.calls| ==> t.calls[k] == s.calls[k];
    }
  }

  lemma ApplyCallFits(s: Session, k: nat, act: CallAct, id: string, acts: seq<CallAct>)
    requires UniqueCalls(s.calls) && k < |s.calls| && FitsAt(s, id, acts) && ApplyCall(s, k, act).Some?
    ensures FitsAt(ApplyCall(s, k, act).value, id, acts + Given(OnCall(s.calls[k].id, act), id))
  {
    var t := ApplyCall(s, k, act).value;
    assert acts + [] == acts;
    assert |t.calls| == |s.calls| && forall j :: 0 <= j < |s.calls| ==> t.calls[j].id == s.calls[j].id;
    if s.calls[k].id == id {
      CallAfterFits(s.calls[k].status, ParentStatus(s, k), act, acts);
    }
  }

  /** A repair is neither a decision nor an answer. */
  lemma CallStepFits(s: Session, proposals: Proposals, k: nat, id: string, acts: seq<CallAct>)
    requires Consistent(s) && k < |s.calls| && FitsAt(s, id, acts)
    ensures Consistent(CallStep(s, proposals, k).session) && FitsAt(CallStep(s, proposals, k).session, id, acts)
  {
    var c := s.calls[k];
    var act := CallRepair(c.status, ParentStatus(s, k), proposals(c.id));
    if act.Some? && Execute(s, OnCall(c.id, act.value)).Some? {
      ExecuteKeeps(s, OnCall(c.id, act.value));
      ExecuteFits(s, OnCall(c.id, act.value), id, acts);
      assert acts + [] == acts;
    }
  }

  /** What every step of a pass over the calls keeps, the pass keeps. */
  lemma {:induction false} PassKeeps(inv: Session -> bool, s: Session, proposals: Proposals, k: nat)
    requires inv(s) && k <= |s.calls|
    requires forall t: Session, j: nat | inv(t) && j < |t.calls| :: inv(CallStep(t, proposals, j).session)
    ensures inv(RepairCalls(s, proposals, k).session)
    decreases |s.calls| - k
  {
    if k < |s.calls| && CallStep(s, proposals, k).ok {
      PassKeeps(inv, CallStep(s, proposals, k).session, proposals, k + 1);
    }
  }

  lemma RepairCallsFits(s: Session, proposals: Proposals, id: string, acts: seq<CallAct>)
    requires Consistent(s) && FitsAt(s, id, acts)
    ensures FitsAt(RepairCalls(s, proposals, 0).session, id, acts)
  {
    var inv := (t: Session) => Consistent(t) && FitsAt(t, id, acts);
    forall t: Session, j: nat | inv(t) && j < |t.calls| ensures inv(CallStep(t, proposals, j).session) {
      CallStepFits(t, proposals, j, id, acts);
    }
    PassKeeps(inv, s, proposals, 0);
  }

  lemma {:induction false} AttemptsLeaveCalls(contexts: Contexts, sessionId: string, s: Session, i: nat)
    requires i <= |s.attempts|
    ensures RepairAttempts(contexts, sessionId, s, i).session.calls == s.calls
    decreases |s.attempts| - i
  {
    if i < |s.attempts| && AttemptStep(contexts, sessionId, s, i).ok {
      AttemptsLeaveCalls(contexts, sessionId, AttemptStep(contexts, sessionId, s, i).session, i + 1);
    }
  }

  lemma StepFits(sessionId: string, s: Session, e: Event, id: string, acts: seq<CallAct>)
    requires Consistent(s) && FitsAt(s, id, acts)
    ensures FitsAt(Step(sessionId, s, e), id, acts + Accepted(s, e, id))
  {
    assert acts + [] == acts;
    match e
    case Do(command) =>
      if Execute(s, command).Some? {
        ExecuteFits(s, command, id, acts);
      }
    case Restart(contexts, proposals) =>
      RepairCallsFits(s, proposals, id, acts);
      AttemptsLeaveCalls(contexts, sessionId, RepairCalls(s, proposals, 0).session, 0);
    case StartPending(store, expected, requestHash) =>
      if StartRecovered(store, s, expected, requestHash).Some? {
        ExecuteFits(s, OnAttempt(expected.attemptId, StartTurn), id, acts);
      }
  }

  lemma Regroup<T>(a: seq<T>, b: seq<T>, c: seq<T>)
    ensures (a + b) + c == a + (b + c)
  {
  }

  lemma {:induction false} RunFits(sessionId: string, s: Session, events: seq<Event>, id: string, acts: seq<CallAct>)
    requires Consistent(s) && FitsAt(s, id, acts)
    ensures FitsAt(RecoveryProofs.Run(sessionId, s, events), id, acts + Answers(sessionId, s, events, id))
    decreases |events|
  {
    if events == [] {
      assert acts + [] == acts;
    } else {
      var first, next := Accepted(s, events[0], id), Step(sessionId, s, events[0]);
      StepFits(sessionId, s, events[0], id, acts);
      StepKeeps(sessionId, s, events[0]);
      RunFits(sessionId, next, events[1..], id, acts + first);
      Regroup(acts, first, Answers(sessionId, next, events[1..], id));
    }
  }

  /**
   In every run of commands, crashes, restarts and starts: a call has run only if it was allowed, by the policy or by an
   answer to its question, and never if it was denied; a call gets at most one decision and one answer.
   */
  lemma CallsRunOnlyAllowed(sessionId: string, events: seq<Event>, k: nat)
    requires k < |RecoveryProofs.Run(sessionId, NEW_SESSION, events).calls|
    ensures var call := RecoveryProofs.Run(sessionId, NEW_SESSION, events).calls[k];
            Fits(call.status, Answers(sessionId, NEW_SESSION, events, call.id))
  {
    NewSessionIsConsistent();
    var id := RecoveryProofs.Run(sessionId, NEW_SESSION, events).calls[k].id;
    RunFits(sessionId, NEW_SESSION, events, id, []);
    assert [] + Answers(sessionId, NEW_SESSION, events, id) == Answers(sessionId, NEW_SESSION, events, id);
  }
}
