/** What an attempt may still do: settled calls stay, a resumed attempt has none open, and a cancelled one starts nothing. */
module RecoveryWork {
  import opened Text
  import opened Engine
  import opened Recovery
  import RecoveryCalls
  import RecoveryTurns
  import opened RecoveryProofs

  // ---------------------------------------------------------------- settled calls

  predicate IsCall(s: Session, k: nat, c: ToolCall) {
    k < |s.calls| && s.calls[k] == c
  }

  lemma ExecuteKeepsCall(s: Session, command: Command, k: nat, c: ToolCall)
    requires IsCall(s, k, c) && CallSettled(c.status) && Execute(s, command).Some?
    ensures IsCall(Execute(s, command).value, k, c)
  {
  }

  lemma PassKeepsCall(contexts: Contexts, sessionId: string, s: Session, proposals: Proposals, k: nat, c: ToolCall)
    requires IsCall(s, k, c) && CallSettled(c.status)
    ensures IsCall(Reconciled(contexts, sessionId, s, proposals), k, c)
  {
    var inv := (t: Session) => IsCall(t, k, c);
    forall t: Session, j: nat | inv(t) && j < |t.calls| ensures inv(CallStep(t, proposals, j).session) {
      var d := t.calls[j];
      var act := CallRepair(d.status, ParentStatus(t, j), proposals(d.id));
      if act.Some? && Execute(t, OnCall(d.id, act.value)).Some? {
        ExecuteKeepsCall(t, OnCall(d.id, act.value), k, c);
      }
    }
    RecoveryCalls.PassKeeps(inv, s, proposals, 0);
    RecoveryCalls.AttemptsLeaveCalls(contexts, sessionId, RepairCalls(s, proposals, 0).session, 0);
  }

  /** A settled call never changes. */
  lemma {:induction false} SettledCallStays(sessionId: string, s: Session, events: seq<Event>, k: nat, c: ToolCall)
    requires IsCall(s, k, c) && CallSettled(c.status)
    ensures IsCall(RecoveryProofs.Run(sessionId, s, events), k, c)
    decreases |events|
  {
    if events != [] {
      match events[0] {
        case Do(command) =>
          if Execute(s, command).Some? {
            ExecuteKeepsCall(s, command, k, c);
          }
        case Restart(contexts, proposals) => PassKeepsCall(contexts, sessionId, s, proposals, k, c);
        case StartPending(store, expected, requestHash) =>
      }
      SettledCallStays(sessionId, Step(sessionId, s, events[0]), events[1..], k, c);
    }
  }

  /** An attempt resumes only when all its calls have settled, and what they came to stays in every continuation. */
  lemma ResumedOverSettledCalls(sessionId: string, s: Session, id: string, events: seq<Event>, k: nat)
    requires Execute(s, OnAttempt(id, Resume)).Some? && k < |s.calls| && s.calls[k].attemptId == id
    ensures CallSettled(s.calls[k].status)
    ensures var resumed := Execute(s, OnAttempt(id, Resume)).value;
            IsCall(RecoveryProofs.Run(sessionId, resumed, events), k, s.calls[k])
  {
    SettledCallStays(sessionId, Execute(s, OnAttempt(id, Resume)).value, events, k, s.calls[k]);
  }

  // ---------------------------------------------------------------- new calls

  /** A new call is proposed, under a new identity, by a command on an attempt in flight; no restart or start makes one. */
  lemma CallsOnlyInFlight(sessionId: string, s: Session, e: Event, k: nat)
    requires |s.calls| <= k < |Step(sessionId, s, e).calls|
    ensures var c := Step(sessionId, s, e).calls[k];
            && e.Do? && c.status == CallProposed && (forall j :: 0 <= j < |s.calls| ==> s.calls[j].id != c.id)
            && exists i :: 0 <= i < |s.attempts| && s.attempts[i].id == c.attemptId && s.attempts[i].status == InFlight
  {
    match e
    case Do(command) =>
      if command.Propose? {
        var i := FindAttempt(s.attempts, command.attemptId).value;
        assert s.attempts[i].id == command.attemptId;
      }
    case Restart(contexts, proposals) =>
      RecoveryCalls.AttemptsLeaveCalls(contexts, sessionId, RepairCalls(s, proposals, 0).session, 0);
    case StartPending(_, _, _) =>
  }

  // ---------------------------------------------------------------- cancellation

  /** The attempt is asked to cancel, or has settled. */
  predicate Winding(s: Session, i: nat) {
    i < |s.attempts| && (s.attempts[i].status == CancellationRequested || Settled(s.attempts[i].status))
  }

  /** The attempt stays on its way out: no turn bound or started, no call proposed or started. */
  ghost predicate NoWork(s: Session, i: nat, t: Session)
    requires i < |s.attempts|
  {
    && Winding(t, i) && t.attempts[i].id == s.attempts[i].id
    && t.attempts[i].bindings == s.attempts[i].bindings && t.attempts[i].turnsStarted == s.attempts[i].turnsStarted
    && |s.calls| <= |t.calls|
    && (forall k :: 0 <= k < |s.calls| ==> t.calls[k].attemptId == s.calls[k].attemptId)
    && (forall k :: 0 <= k < |t.calls| && t.calls[k].attemptId == s.attempts[i].id ==>
          k < |s.calls| && (t.calls[k].status == Running ==> s.calls[k].status == Running))
  }

  lemma AttemptStopsWork(s: Session, m: nat, act: AttemptAct, i: nat)
    requires Winding(s, i) && m < |s.attempts| && ApplyAttempt(s, m, act).Some?
    ensures NoWork(s, i, ApplyAttempt(s, m, act).value)
  {
    RecoveryTurns.OnlyOneMoves(s, m, act);
  }

  lemma CallStopsWork(s: Session, k: nat, act: CallAct, i: nat)
    requires UniqueAttempts(s.attempts) && Winding(s, i) && k < |s.calls| && ApplyCall(s, k, act).Some?
    ensures NoWork(s, i, ApplyCall(s, k, act).value)
  {
    ParentIs(s, k);
  }

  lemma ExecuteStopsWork(s: Session, command: Command, i: nat)
    requires Consistent(s) && Winding(s, i) && Execute(s, command).Some?
    ensures NoWork(s, i, Execute(s, command).value)
  {
    match command {
      case OnAttempt(id, act) => AttemptStopsWork(s, FindAttempt(s.attempts, id).value, act, i);
      case OnCall(id, act) => CallStopsWork(s, FindCall(s.calls, id).value, act, i);
      case _ =>
    }
  }

  /** The parent that a call is judged by is the attempt of its name. */
  lemma ParentIs(s: Session, k: nat)
    requires UniqueAttempts(s.attempts) && k < |s.calls|
    ensures forall i :: 0 <= i < |s.attempts| && s.attempts[i].id == s.calls[k].attemptId ==>
              ParentStatus(s, k) == s.attempts[i].status
  {
  }

  lemma NoWorkTransitive(s: Session, i: nat, t: Session, u: Session)
    requires i < |s.attempts| && NoWork(s, i, t) && NoWork(t, i, u)
    ensures NoWork(s, i, u)
  {
  }

  lemma CommandStopsWork(s: Session, i: nat, t: Session, command: Command)
    requires i < |s.attempts| && Consistent(t) && NoWork(s, i, t) && Execute(t, command).Some?
    ensures Consistent(Execute(t, command).value) && NoWork(s, i, Execute(t, command).value)
  {
    ExecuteKeeps(t, command);
    ExecuteStopsWork(t, command, i);
    NoWorkTransitive(s, i, t, Execute(t, command).value);
  }

  lemma CallStepStopsWork(s: Session, i: nat, t: Session, proposals: Proposals, j: nat)
    requires i < |s.attempts| && Consistent(t) && NoWork(s, i, t) && j < |t.calls|
    ensures Consistent(CallStep(t, proposals, j).session) && NoWork(s, i, CallStep(t, proposals, j).session)
  {
    var c := t.calls[j];
    var act := CallRepair(c.status, ParentStatus(t, j), proposals(c.id));
    if act.Some? && Execute(t, OnCall(c.id, act.value)).Some? {
      CommandStopsWork(s, i, t, OnCall(c.id, act.value));
    }
  }

  lemma AttemptStepStopsWork(s: Session, i: nat, t: Session, contexts: Contexts, sessionId: string, j: nat)
    requires i < |s.attempts| && Consistent(t) && NoWork(s, i, t) && j < |t.attempts|
    ensures var u := AttemptStep(contexts, sessionId, t, j).session; Consistent(u) && NoWork(s, i, u)
  {
    var a := t.attempts[j];
    var act := AttemptRepair(a, IsExact(contexts, sessionId, t, j));
    if act.Some? && Execute(t, OnAttempt(a.id, act.value)).Some? {
      CommandStopsWork(s, i, t, OnAttempt(a.id, act.value));
    }
  }

  lemma PassStopsWork(contexts: Contexts, sessionId: string, s: Session, proposals: Proposals, i: nat)
    requires Consistent(s) && Winding(s, i)
    ensures NoWork(s, i, Reconciled(contexts, sessionId, s, proposals))
  {
    var inv := (t: Session) => Consistent(t) && NoWork(s, i, t);
    forall t: Session, j: nat | inv(t) && j < |t.calls| ensures inv(CallStep(t, proposals, j).session) {
      CallStepStopsWork(s, i, t, proposals, j);
    }
    RecoveryCalls.PassKeeps(inv, s, proposals, 0);
    forall t: Session, j: nat | inv(t) && j < |t.attempts| ensures inv(AttemptStep(contexts, sessionId, t, j).session) {
      AttemptStepStopsWork(s, i, t, contexts, sessionId, j);
    }
    RecoveryTurns.PassKeeps(inv, contexts, sessionId, RepairCalls(s, proposals, 0).session, 0);
  }

  lemma EventStopsWork(sessionId: string, s: Session, e: Event, i: nat)
    requires Consistent(s) && Winding(s, i)
    ensures NoWork(s, i, Step(sessionId, s, e))
  {
    match e
    case Do(command) =>
      if Execute(s, command).Some? {
        ExecuteStopsWork(s, command, i);
      }
    case Restart(contexts, proposals) => PassStopsWork(contexts, sessionId, s, proposals, i);
    case StartPending(store, expected, requestHash) =>
      if StartRecovered(store, s, expected, requestHash).Some? {
        ExecuteStopsWork(s, OnAttempt(expected.attemptId, StartTurn), i);
      }
  }

  /**
   Once an attempt is asked to cancel, or has settled, no continuation binds or starts a turn of it, proposes a call of it
   or starts one, whatever commands, crashes, restarts and starts follow.
   */
  lemma {:induction false} CancellationStopsWork(sessionId: string, s: Session, events: seq<Event>, i: nat)
    requires Consistent(s) && Winding(s, i)
    ensures NoWork(s, i, RecoveryProofs.Run(sessionId, s, events))
    decreases |events|
  {
    if events != [] {
      var next := Step(sessionId, s, events[0]);
      EventStopsWork(sessionId, s, events[0], i);
      StepKeeps(sessionId, s, events[0]);
      CancellationStopsWork(sessionId, next, events[1..], i);
      NoWorkTransitive(s, i, next, RecoveryProofs.Run(sessionId, next, events[1..]));
    }
  }

  // ---------------------------------------------------------------- stale bindings

  /** The attempt has bound a turn that did not start before something else happened in the session. */
  predicate Stale(s: Session, i: nat, a: Attempt) {
    && i < |s.attempts| && s.attempts[i].id == a.id
    && s.attempts[i].turnsStarted == a.turnsStarted && s.attempts[i].bindings == a.bindings
    && Pending(a).Some? && Pending(a).value.sequence < s.last
  }

  lemma ExecuteKeepsStale(s: Session, command: Command, i: nat, a: Attempt)
    requires Stale(s, i, a) && Execute(s, command).Some?
    ensures Stale(Execute(s, command).value, i, a)
  {
    if command.OnAttempt? {
      RecoveryTurns.OnlyOneMoves(s, FindAttempt(s.attempts, command.id).value, command.act);
    }
  }

  lemma PassKeepsStale(contexts: Contexts, sessionId: string, s: Session, proposals: Proposals, i: nat, a: Attempt)
    requires Stale(s, i, a)
    ensures Stale(Reconciled(contexts, sessionId, s, proposals), i, a)
  {
    var inv := (t: Session) => Stale(t, i, a);
    forall t: Session, j: nat | inv(t) && j < |t.calls| ensures inv(CallStep(t, proposals, j).session) {
      var c := t.calls[j];
      var act := CallRepair(c.status, ParentStatus(t, j), proposals(c.id));
      if act.Some? && Execute(t, OnCall(c.id, act.value)).Some? {
        ExecuteKeepsStale(t, OnCall(c.id, act.value), i, a);
      }
    }
    RecoveryCalls.PassKeeps(inv, s, proposals, 0);
    forall t: Session, j: nat | inv(t) && j < |t.attempts| ensures inv(AttemptStep(contexts, sessionId, t, j).session) {
      var b := t.attempts[j];
      var act := AttemptRepair(b, IsExact(contexts, sessionId, t, j));
      if act.Some? && Execute(t, OnAttempt(b.id, act.value)).Some? {
        ExecuteKeepsStale(t, OnAttempt(b.id, act.value), i, a);
      }
    }
    RecoveryTurns.PassKeeps(inv, contexts, sessionId, RepairCalls(s, proposals, 0).session, 0);
  }

  /**
   A bound turn starts next or never: once any other event has followed its binding, no continuation starts it, binds
   another turn of the attempt in its place, or starts a later one.
   */
  lemma {:induction false} StaleTurnNeverStarts(sessionId: string, s: Session, events: seq<Event>, i: nat, a: Attempt)
    requires Stale(s, i, a)
    ensures Stale(RecoveryProofs.Run(sessionId, s, events), i, a)
    decreases |events|
  {
    if events != [] {
      match events[0] {
        case Do(command) =>
          if Execute(s, command).Some? {
            ExecuteKeepsStale(s, command, i, a);
          }
        case Restart(contexts, proposals) => PassKeepsStale(contexts, sessionId, s, proposals, i, a);
        case StartPending(store, expected, requestHash) =>
          if StartRecovered(store, s, expected, requestHash).Some? {
            ExecuteKeepsStale(s, OnAttempt(expected.attemptId, StartTurn), i, a);
          }
      }
      StaleTurnNeverStarts(sessionId, Step(sessionId, s, events[0]), events[1..], i, a);
    }
  }

  // ---------------------------------------------------------------- pauses

  ghost predicate HasCall(calls: seq<ToolCall>, id: string) {
    exists k :: 0 <= k < |calls| && calls[k].attemptId == id
  }

  ghost predicate Asked(s: Session) {
    forall i :: 0 <= i < |s.attempts| && s.attempts[i].status == AwaitingTools ==> HasCall(s.calls, s.attempts[i].id)
  }

  lemma CallsGrow(a: seq<ToolCall>, b: seq<ToolCall>, id: string)
    requires HasCall(a, id) && |a| <= |b| && forall k :: 0 <= k < |a| ==> b[k].attemptId == a[k].attemptId
    ensures HasCall(b, id)
  {
    var k :| 0 <= k < |a| && a[k].attemptId == id;
    assert b[k].attemptId == id;
  }

  lemma ExecuteKeepsAsked(s: Session, command: Command)
    requires Asked(s) && Execute(s, command).Some?
    ensures Asked(Execute(s, command).value)
  {
    var t := Execute(s, command).value;
    forall i | 0 <= i < |t.attempts| && t.attempts[i].status == AwaitingTools ensures HasCall(t.calls, t.attempts[i].id) {
      if command.OnAttempt? {
        RecoveryTurns.OnlyOneMoves(s, FindAttempt(s.attempts, command.id).value, command.act);
      } else {
        CallsGrow(s.calls, t.calls, t.attempts[i].id);
      }
    }
  }

  lemma EventKeepsAsked(sessionId: string, s: Session, e: Event)
    requires Asked(s)
    ensures Asked(Step(sessionId, s, e))
  {
    match e
    case Do(command) =>
      if Execute(s, command).Some? {
        ExecuteKeepsAsked(s, command);
      }
    case Restart(contexts, proposals) =>
      forall t: Session, j: nat | Asked(t) && j < |t.calls| ensures Asked(CallStep(t, proposals, j).session) {
        var c := t.calls[j];
        var act := CallRepair(c.status, ParentStatus(t, j), proposals(c.id));
        if act.Some? && Execute(t, OnCall(c.id, act.value)).Some? {
          ExecuteKeepsAsked(t, OnCall(c.id, act.value));
        }
      }
      RecoveryCalls.PassKeeps((t: Session) => Asked(t), s, proposals, 0);
      forall t: Session, j: nat | Asked(t) && j < |t.attempts|
        ensures Asked(AttemptStep(contexts, sessionId, t, j).session)
      {
        var a := t.attempts[j];
        var act := AttemptRepair(a, IsExact(contexts, sessionId, t, j));
        if act.Some? && Execute(t, OnAttempt(a.id, act.value)).Some? {
          ExecuteKeepsAsked(t, OnAttempt(a.id, act.value));
        }
      }
      RecoveryTurns.PassKeeps((t: Session) => Asked(t), contexts, sessionId, RepairCalls(s, proposals, 0).session, 0);
    case StartPending(store, expected, requestHash) =>
      if StartRecovered(store, s, expected, requestHash).Some? {
        ExecuteKeepsAsked(s, OnAttempt(expected.attemptId, StartTurn));
      }
  }

  /** In every run an attempt that awaits tools has a call to await. */
  lemma {:induction false} PausedHasCall(sessionId: string, s: Session, events: seq<Event>)
    requires Asked(s)
    ensures Asked(RecoveryProofs.Run(sessionId, s, events))
    decreases |events|
  {
    if events != [] {
      EventKeepsAsked(sessionId, s, events[0]);
      PausedHasCall(sessionId, Step(sessionId, s, events[0]), events[1..]);
    }
  }

  // ---------------------------------------------------------------- nothing is stuck

  /** How an open call is stopped: one that was refused is denied, any other is cancelled, running or not. */
  function Stop(c: ToolCall): (command: Command) {
    OnCall(c.id, if c.status == DeniedPending then DenyCall else CancelCall)
  }

  lemma OpenCallCanStop(s: Session, k: nat)
    requires Consistent(s) && k < |s.calls| && !CallSettled(s.calls[k].status)
    ensures Execute(s, Stop(s.calls[k])).Some?
    ensures var t := Execute(s, Stop(s.calls[k])).value;
            && Consistent(t) && t.attempts == s.attempts && |t.calls| == |s.calls| && CallSettled(t.calls[k].status)
            && forall j :: 0 <= j < |s.calls| && j != k ==> t.calls[j] == s.calls[j]
  {
    assert FindCall(s.calls, s.calls[k].id) == Some(k);
    ExecuteKeeps(s, Stop(s.calls[k]));
  }

  lemma QuietAttemptCanFail(s: Session, i: nat)
    requires Consistent(s) && i < |s.attempts| && !Settled(s.attempts[i].status) && CallsSettled(s.calls, s.attempts[i].id)
    ensures var r := Execute(s, OnAttempt(s.attempts[i].id, Fail));
            r.Some? && i < |r.value.attempts| && r.value.attempts[i].status == Failed
  {
    var a := s.attempts[i];
    assert FindAttempt(s.attempts, a.id) == Some(i);
    assert a.status.Prepared? || a.status.InFlight? || a.status.AwaitingTools? || a.status.CancellationRequested?;
    assert AttemptAfter(s, a, Fail) == Some(a.(status := Failed));
  }

  lemma RunHead(sessionId: string, s: Session, e: Event, rest: seq<Event>)
    ensures RecoveryProofs.Run(sessionId, s, [e] + rest) == RecoveryProofs.Run(sessionId, Step(sessionId, s, e), rest)
  {
    assert ([e] + rest)[1..] == rest;
  }

  /** Every attempt that has not settled can be brought to its end: its open calls are stopped, then it is failed. */
  lemma {:induction false} EveryAttemptCanEnd(sessionId: string, s: Session, i: nat, k: nat) returns (events: seq<Event>)
    requires Consistent(s) && i < |s.attempts| && !Settled(s.attempts[i].status) && k <= |s.calls|
    requires forall j :: 0 <= j < k && s.calls[j].attemptId == s.attempts[i].id ==> CallSettled(s.calls[j].status)
    ensures forall j :: 0 <= j < |events| ==> events[j].Do?
    ensures var t := RecoveryProofs.Run(sessionId, s, events); i < |t.attempts| && Settled(t.attempts[i].status)
    decreases |s.calls| - k
  {
    if k == |s.calls| {
      QuietAttemptCanFail(s, i);
      events := [Do(OnAttempt(s.attempts[i].id, Fail))] + [];
      RunHead(sessionId, s, events[0], []);
    } else if s.calls[k].attemptId == s.attempts[i].id && !CallSettled(s.calls[k].status) {
      OpenCallCanStop(s, k);
      var rest := EveryAttemptCanEnd(sessionId, Execute(s, Stop(s.calls[k])).value, i, k + 1);
      events := [Do(Stop(s.calls[k]))] + rest;
      RunHead(sessionId, s, events[0], rest);
    } else {
      events := EveryAttemptCanEnd(sessionId, s, i, k + 1);
    }
  }
}
