/** The end of a bridge: shutdown is announced, requested before ready, once each, and ends with an acknowledgement. */
module BridgeShutdown {
  import opened Text
  import opened Delta
  import opened Bridge
  import BridgeAnswers
  import BridgeBounds

  /** The phases that a queue is still to announce. */
  function PhasesOf(queue: seq<QueuedNotice>): (phases: seq<ShutdownState>) {
    if queue == [] then []
    else (if queue[0].notice.Shutdown? then [queue[0].notice.phase] else []) + PhasesOf(queue[1..])
  }

  /** The phases on their way: in flight first, then in the queue. */
  function Phases(s: Bridge): (phases: seq<ShutdownState>) {
    InFlightPhase(s.wire) + PhasesOf(s.pendingNotices)
  }

  function InFlightPhase(w: Wire): (phases: seq<ShutdownState>) {
    if w.inFlight.Some? && w.inFlight.value.notice.Some? && w.inFlight.value.notice.value.notice.Shutdown?
    then [w.inFlight.value.notice.value.notice.phase] else []
  }

  /**
   Before a shutdown no phase is on its way. Once it has started the token is cancelled, and what is left to announce
   is requested and ready, or ready alone, or nothing when ready has been acknowledged.
   */
  ghost predicate Handshake(s: Bridge) {
    if s.shutdownStarted then
      && s.cancelled && s.requestedSent && s.readySent
      && (if s.readyAcknowledged then Phases(s) == [] else Phases(s) == [Requested, Ready] || Phases(s) == [Ready])
    else !s.requestedSent && !s.readySent && !s.readyAcknowledged && Phases(s) == []
  }

  /** Everything that the handshake looks at is as before. */
  ghost predicate SamePhases(s: Bridge, t: Bridge) {
    && Phases(t) == Phases(s) && t.shutdownStarted == s.shutdownStarted && t.cancelled == s.cancelled
    && t.requestedSent == s.requestedSent && t.readySent == s.readySent && t.readyAcknowledged == s.readyAcknowledged
    && (s.past.busy ==> t.past.busy)
  }

  lemma {:induction false} PhasesAppend(a: seq<QueuedNotice>, b: seq<QueuedNotice>)
    ensures PhasesOf(a + b) == PhasesOf(a) + PhasesOf(b)
    decreases |a|
  {
    if a == [] {
      assert a + b == b;
    } else {
      assert (a + b)[1..] == a[1..] + b;
      PhasesAppend(a[1..], b);
    }
  }

  /** A queue that differs in no shutdown notice announces the same phases. */
  lemma {:induction false} PhasesSame(a: seq<QueuedNotice>, b: seq<QueuedNotice>)
    requires |a| == |b|
    requires forall i :: 0 <= i < |a| ==> a[i].notice == b[i].notice || (!a[i].notice.Shutdown? && !b[i].notice.Shutdown?)
    ensures PhasesOf(a) == PhasesOf(b)
    decreases |a|
  {
    if a != [] {
      PhasesSame(a[1..], b[1..]);
    }
  }

  lemma PhasesFront(queue: seq<QueuedNotice>)
    requires queue != []
    ensures PhasesOf(queue) == (if queue[0].notice.Shutdown? then [queue[0].notice.phase] else []) + PhasesOf(queue[1..])
  {
  }

  // ---------------------------------------------------------------- the carrier

  lemma PublishPhases(s: Bridge, view: View, ok: bool)
    requires s.wire.inFlight.None?
    ensures SamePhases(s, Publish(s, view, ok)) && Publish(s, view, ok).pendingNotices == s.pendingNotices
  {
  }

  lemma NoticePhases(s: Bridge, ok: bool)
    requires s.pendingNotices != [] && s.wire.inFlight.None?
    ensures SamePhases(s, PumpNotice(s, ok).0)
  {
    PhasesFront(s.pendingNotices);
    var t := PumpNotice(s, ok).0;
    assert Phases(s) == PhasesOf(s.pendingNotices);
  }

  lemma ReadyPhases(s: Bridge)
    requires s.pendingNotices != []
    ensures SamePhases(s, FrontReady(s)) && FrontReady(s).wire == s.wire
  {
    PhasesSame(s.pendingNotices, FrontReady(s).pendingNotices);
  }

  lemma FrontPhases(s: Bridge, view: View, ok: bool)
    requires s.pendingNotices != [] && s.wire.inFlight.None?
    ensures SamePhases(s, PumpFront(s, view, ok).0)
  {
    if !s.pendingNotices[0].waitForProjection {
      NoticePhases(s, ok);
    } else {
      var published := if s.projectionDirty then Publish(s, view, ok) else s;
      PublishPhases(s, view, ok);
      ReadyPhases(published);
      if published.wire.inFlight.None? {
        NoticePhases(FrontReady(published), ok);
      }
    }
  }

  lemma QueuePhases(s: Bridge, notice: Notice, terminal: Option<nat>)
    ensures var (t, good) := QueueNotice(s, notice, terminal);
            && t.wire == s.wire && (!good ==> t.past.busy) && (s.past.busy ==> t.past.busy)
            && t == s.(pendingNotices := t.pendingNotices, past := t.past)
            && (good ==> PhasesOf(t.pendingNotices)
                         == PhasesOf(s.pendingNotices) + if notice.Shutdown? then [notice.phase] else [])
  {
    var (t, good) := QueueNotice(s, notice, terminal);
    if good {
      if |t.pendingNotices| == |s.pendingNotices| {
        PhasesSame(s.pendingNotices, t.pendingNotices);
        assert !notice.Shutdown?;
      } else {
        var last := t.pendingNotices[|s.pendingNotices|];
        assert t.pendingNotices == s.pendingNotices + [last];
        PhasesAppend(s.pendingNotices, [last]);
        assert [last][1..] == [];
        assert PhasesOf([last]) == if notice.Shutdown? then [notice.phase] else [];
      }
    }
  }

  lemma ResynchronizationPhases(s: Bridge, view: View, ok: bool)
    requires s.pendingResynchronization.Some? && s.wire.inFlight.None?
    ensures var t := PumpResynchronization(s, view, ok).0; t.past.busy || SamePhases(s, t)
  {
    if view(Current(s)).Some? {
      var id, snapshot := s.pendingResynchronization.value, view(Current(s)).value;
      var (w, good) := SendSnapshot(s.wire, SnapshotFrame(Resynchronization, snapshot), snapshot, Current(s), ok);
      QueuePhases(SentSnapshot(s, w, good).(pendingResynchronization := None), CommandCommitted(id), Some(id));
    }
  }

  lemma PumpPhases(s: Bridge, view: View, ok: bool)
    ensures var t := Pump(s, view, ok).0; t.past.busy || SamePhases(s, t)
  {
    if s.wire.inFlight.Some? || !s.wire.connected {
    } else if s.pendingResynchronization.Some? {
      ResynchronizationPhases(s, view, ok);
    } else if s.pendingNotices == [] {
      PublishPhases(s, view, ok);
    } else {
      FrontPhases(s, view, ok);
    }
  }

  // ---------------------------------------------------------------- notices and shutdown

  lemma HandleNoticePhases(s: Bridge, notice: Notice, view: View, ok: bool)
    requires !notice.Shutdown?
    ensures var t := HandleNotice(s, notice, view, ok).0; t.past.busy || SamePhases(s, t)
  {
    if !Dropped(s, notice) {
      var seen := ObserveAll(s);
      QueuePhases(seen, notice, TerminalOf(notice));
      PumpPhases(QueueNotice(seen, notice, TerminalOf(notice)).0, view, ok);
    }
  }

  ghost predicate NoShutdownAmong(notices: seq<Notice>) {
    forall i :: 0 <= i < |notices| ==> !notices[i].Shutdown?
  }

  lemma {:induction false} AllowedHasNone(open: set<nat>, notices: seq<Notice>)
    requires MaySendAll(open, notices)
    ensures NoShutdownAmong(notices)
    decreases |notices|
  {
    if notices != [] {
      AllowedHasNone(if TerminalOf(notices[0]).Some? then open - {TerminalOf(notices[0]).value} else open, notices[1..]);
    }
  }

  /** The same phases, or some notice was refused. */
  ghost predicate KeepsPhases(s: Bridge, t: Bridge) {
    t.past.busy || SamePhases(s, t)
  }

  lemma KeepsPhasesOn(s: Bridge, t: Bridge, u: Bridge)
    requires KeepsPhases(s, t) && KeepsPhases(t, u) && (t.past.busy ==> u.past.busy)
    ensures KeepsPhases(s, u)
  {
  }

  lemma {:induction false} HandleNoticesPhases(s: Bridge, notices: seq<Notice>, view: View, ok: bool)
    requires NoShutdownAmong(notices)
    ensures KeepsPhases(s, HandleNotices(s, notices, view, ok).0)
    decreases |notices|
  {
    if notices != [] {
      var (t, good) := HandleNotice(Sends(s, notices[0]), notices[0], view, ok);
      HandleNoticePhases(Sends(s, notices[0]), notices[0], view, ok);
      assert KeepsPhases(s, t);
      if good {
        HandleNoticesPhases(t, notices[1..], view, ok);
        if t.past.busy {
          BusyStays(t, notices[1..], view, ok);
        }
        KeepsPhasesOn(s, t, HandleNotices(t, notices[1..], view, ok).0);
      }
    }
  }

  /** A refusal is never forgotten. */
  lemma {:induction false} BusyStays(s: Bridge, notices: seq<Notice>, view: View, ok: bool)
    requires s.past.busy
    ensures HandleNotices(s, notices, view, ok).0.past.busy
    decreases |notices|
  {
    if notices != [] {
      HandleKeepsBusy(Sends(s, notices[0]), notices[0], view, ok);
      var (t, good) := HandleNotice(Sends(s, notices[0]), notices[0], view, ok);
      if good {
        BusyStays(t, notices[1..], view, ok);
      }
    }
  }

  lemma HandleKeepsBusy(s: Bridge, notice: Notice, view: View, ok: bool)
    requires s.past.busy
    ensures HandleNotice(s, notice, view, ok).0.past.busy
  {
    if !Dropped(s, notice) {
      PumpPhases(QueueNotice(ObserveAll(s), notice, TerminalOf(notice)).0, view, ok);
    }
  }

  /** Before any phase has been announced: both are, requested first. */
  lemma AnnouncePhases(s: Bridge, view: View, ok: bool)
    requires !s.requestedSent && !s.readySent
    ensures var t := Announce(s, view, ok).0;
            || t.past.busy
            || (&& Phases(t) == Phases(s) + [Requested, Ready] && t.requestedSent && t.readySent
                && t.shutdownStarted == s.shutdownStarted && t.cancelled == s.cancelled
                && t.readyAcknowledged == s.readyAcknowledged && (s.past.busy ==> t.past.busy))
  {
    QueuePhases(s, Shutdown(Requested), None);
    var (requested, good) := QueueShutdownNotice(s, Requested);
    if good {
      QueuePhases(requested, Shutdown(Ready), None);
      var (ready, done) := QueueShutdownNotice(requested, Ready);
      if done {
        assert Phases(ready) == Phases(s) + [Requested, Ready];
        PumpPhases(ready, view, ok);
      }
    }
  }

  lemma BeginPhases(s: Bridge, command: Option<nat>, view: View, ok: bool)
    requires Handshake(s)
    ensures var t := BeginShutdown(s, command, view, ok).0; t.past.busy || (Handshake(t) && t.shutdownStarted)
  {
    if !s.shutdownStarted {
      var started := Starting(s);
      assert Phases(started) == [];
      if command.None? {
        AnnouncePhases(started, view, ok);
      } else {
        var asked := started.(pendingRequests := started.pendingRequests + {command.value});
        QueuePhases(asked, CommandCommitted(command.value), command);
        var (answered, good) := QueueNotice(asked, CommandCommitted(command.value), command);
        if good {
          AnnouncePhases(answered, view, ok);
        }
      }
    }
  }

  /** An acknowledgement takes the first phase off, if it is in flight; ready is the last one. */
  lemma AcknowledgePhases(s: Bridge, revision: nat, view: View, ok: bool)
    requires Handshake(s)
    ensures var t := Acknowledge(s, revision, view, ok).0; t.past.busy || Handshake(t)
  {
    if s.wire.inFlight.Some? && s.wire.inFlight.value.revision == revision {
      var settled := Settle(s, s.wire.inFlight.value.notice);
      var first := InFlightPhase(s.wire);
      assert Phases(settled) == Phases(s)[|first|..] && (first != [] ==> first[0] == Phases(s)[0]);
      PumpPhases(settled, view, ok);
    }
  }

  lemma SamePhasesKeeps(s: Bridge, t: Bridge)
    requires Handshake(s) && SamePhases(s, t)
    ensures Handshake(t)
  {
  }

  lemma StepPhases(s: Bridge, step: Step, view: View)
    requires Handshake(s) && Allowed(s, step)
    ensures var t := NextState(s, step, view); t.past.busy || Handshake(t)
  {
    match step {
      case ShutdownStep(drained, ok) =>
        AllowedHasNone(s.past.open, drained);
        ShutdownPhases(s, drained, ok, view);
      case TokenShutdownStep(drained, ok) =>
        AllowedHasNone(s.past.open, drained);
        if !s.shutdownStarted {
          HandleNoticesPhases(s, drained, view, ok);
          BeginPhasesAfter(s, HandleNotices(s, drained, view, ok).0, None, view, ok);
        }
      case NoticeStep(notice, ok) => HandleNoticePhases(Sends(s, notice), notice, view, ok);
      case ResynchronizeStep(ok) => ResynchronizePhases(s, ok, view);
      case AcknowledgeStep(revision, ok) => AcknowledgePhases(s, revision, view, ok);
      case TickStep(ok) => PumpPhases(s, view, ok);
      case ConnectStep(ok) => assert Phases(NextState(s, step, view)) == Phases(s);
      case _ =>
    }
  }

  lemma BeginPhasesAfter(s: Bridge, quiet: Bridge, command: Option<nat>, view: View, ok: bool)
    requires Handshake(s) && (quiet.past.busy || SamePhases(s, quiet))
    ensures var t := BeginShutdown(quiet, command, view, ok).0; t.past.busy || (Handshake(t) && t.shutdownStarted)
  {
    if quiet.past.busy {
      BeginKeepsBusy(quiet, command, view, ok);
    } else {
      BeginPhases(quiet, command, view, ok);
    }
  }

  lemma BeginKeepsBusy(s: Bridge, command: Option<nat>, view: View, ok: bool)
    requires s.past.busy
    ensures BeginShutdown(s, command, view, ok).0.past.busy
  {
    if !s.shutdownStarted {
      var started := Starting(s);
      var answered := if command.None? then started
                      else QueueNotice(started.(pendingRequests := started.pendingRequests + {command.value}),
                                       CommandCommitted(command.value), command).0;
      var requested := QueueShutdownNotice(answered, Requested).0;
      PumpPhases(QueueShutdownNotice(requested, Ready).0, view, ok);
    }
  }

  lemma ShutdownPhases(s: Bridge, drained: seq<Notice>, ok: bool, view: View)
    requires Handshake(s) && NoShutdownAmong(drained)
    ensures var t := DispatchShutdown(s, drained, view, ok).0; t.past.busy || Handshake(t)
  {
    var (t, id) := IssueRequestId(s);
    HandleNoticesPhases(t, drained, view, ok);
    BeginPhasesAfter(t, HandleNotices(t, drained, view, ok).0, id, view, ok);
  }

  lemma ResynchronizePhases(s: Bridge, ok: bool, view: View)
    requires Handshake(s)
    ensures var t := DispatchResynchronize(s, view, ok).0; t.past.busy || Handshake(t)
  {
    var (t, id) := IssueRequestId(s);
    if id.Some? {
      PumpPhases(t.(pendingRequests := t.pendingRequests + {id.value}, pendingResynchronization := id), view, ok);
    }
  }

  /**
   In every allowed run: nothing of a shutdown is announced before it starts; once it has started the token is
   cancelled, and what is left to announce is requested and ready, in this order, or ready alone, or nothing at all,
   exactly when the renderer has acknowledged ready.
   */
  lemma {:induction false} ShutdownIsAnnounced(steps: seq<Step>, view: View)
    requires BridgeBounds.AllowedRun(steps, view)
    ensures Handshake(Run(steps, view))
    decreases |steps|
  {
    if steps != [] {
      var front := steps[..|steps| - 1];
      ShutdownIsAnnounced(front, view);
      BridgeAnswers.NothingIsRefused(steps, view);
      StepPhases(Run(front, view), steps[|steps| - 1], view);
    }
  }

  // ---------------------------------------------------------------- ready is the last notice

  /** The queue is empty or ends with the ready notice. */
  predicate EndsReady(queue: seq<QueuedNotice>) {
    queue == [] || queue[|queue| - 1].notice == Shutdown(Ready)
  }

  ghost predicate Closing(s: Bridge) {
    s.shutdownStarted ==> s.pendingResynchronization.None? && EndsReady(s.pendingNotices)
  }

  lemma PublishCloses(s: Bridge, view: View, ok: bool)
    ensures var t := Publish(s, view, ok); t == s.(wire := t.wire, projectionDirty := t.projectionDirty)
  {
  }

  lemma NoticeCloses(s: Bridge, ok: bool)
    requires s.pendingNotices != [] && EndsReady(s.pendingNotices)
    ensures var t := PumpNotice(s, ok).0;
            EndsReady(t.pendingNotices) && t == s.(wire := t.wire, pendingNotices := t.pendingNotices)
  {
  }

  lemma ReadyCloses(s: Bridge)
    requires s.pendingNotices != [] && EndsReady(s.pendingNotices)
    ensures var t := FrontReady(s);
            && t.pendingNotices != [] && EndsReady(t.pendingNotices)
            && t.shutdownStarted == s.shutdownStarted && t.pendingResynchronization == s.pendingResynchronization
  {
  }

  lemma FrontCloses(s: Bridge, view: View, ok: bool)
    requires s.pendingNotices != [] && EndsReady(s.pendingNotices)
    ensures var t := PumpFront(s, view, ok).0;
            && EndsReady(t.pendingNotices) && t.shutdownStarted == s.shutdownStarted
            && t.pendingResynchronization == s.pendingResynchronization
  {
    if !s.pendingNotices[0].waitForProjection {
      NoticeCloses(s, ok);
    } else {
      var published := if s.projectionDirty then Publish(s, view, ok) else s;
      PublishCloses(s, view, ok);
      ReadyCloses(published);
      NoticeCloses(FrontReady(published), ok);
    }
  }

  lemma PumpCloses(s: Bridge, view: View, ok: bool)
    requires s.pendingResynchronization.None? && EndsReady(s.pendingNotices)
    ensures var t := Pump(s, view, ok).0; Closing(t) && t.shutdownStarted == s.shutdownStarted
  {
    if s.wire.inFlight.Some? || !s.wire.connected {
    } else if s.pendingNotices == [] {
      PublishCloses(s, view, ok);
    } else {
      FrontCloses(s, view, ok);
    }
  }

  lemma AnnounceCloses(s: Bridge, view: View, ok: bool)
    requires s.pendingResynchronization.None? && !s.requestedSent && !s.readySent
    ensures var t := Announce(s, view, ok).0; t.past.busy || Closing(t)
  {
    QueuePhases(s, Shutdown(Requested), None);
    var (requested, good) := QueueShutdownNotice(s, Requested);
    if good {
      QueuePhases(requested, Shutdown(Ready), None);
      var (ready, done) := QueueShutdownNotice(requested, Ready);
      if done {
        PumpCloses(ready, view, ok);
      }
    }
  }

  lemma BeginCloses(s: Bridge, command: Option<nat>, view: View, ok: bool)
    requires Handshake(s) && Closing(s)
    ensures var t := BeginShutdown(s, command, view, ok).0; t.past.busy || Closing(t)
  {
    if !s.shutdownStarted {
      var started := Starting(s);
      if command.None? {
        AnnounceCloses(started, view, ok);
      } else {
        var asked := started.(pendingRequests := started.pendingRequests + {command.value});
        QueuePhases(asked, CommandCommitted(command.value), command);
        var (answered, good) := QueueNotice(asked, CommandCommitted(command.value), command);
        if good {
          AnnounceCloses(answered, view, ok);
        }
      }
    }
  }

  /** Once shutdown has started, no step but an acknowledgement, a tick or a new channel does anything to the bridge. */
  lemma StartedIgnores(s: Bridge, step: Step, view: View)
    requires s.shutdownStarted
    requires step.Observe? || step.IntentStep? || step.ResynchronizeStep? || step.ShutdownStep? || step.TokenShutdownStep?
             || step.NoticeStep?
    ensures NextState(s, step, view) == s
  {
  }

  lemma StartedCloses(s: Bridge, step: Step, view: View)
    requires s.shutdownStarted && Closing(s)
    ensures Closing(NextState(s, step, view))
  {
    match step {
      case AcknowledgeStep(revision, ok) =>
        if s.wire.inFlight.Some? {
          PumpCloses(Settle(s, s.wire.inFlight.value.notice), view, ok);
        }
      case TickStep(ok) => PumpCloses(s, view, ok);
      case ConnectStep(ok) =>
      case Change(_) =>
      case CancelToken =>
      case _ => StartedIgnores(s, step, view);
    }
  }

  lemma StepCloses(s: Bridge, step: Step, view: View)
    requires Handshake(s) && Closing(s) && Allowed(s, step)
    ensures var t := NextState(s, step, view); t.past.busy || Closing(t)
  {
    if s.shutdownStarted {
      StartedCloses(s, step, view);
    } else if step.ShutdownStep? {
      AllowedHasNone(s.past.open, step.drained);
      var (t, id) := IssueRequestId(s);
      HandleNoticesPhases(t, step.drained, view, step.ok);
      BeginClosesAfter(t, HandleNotices(t, step.drained, view, step.ok).0, id, view, step.ok);
    } else if step.TokenShutdownStep? {
      AllowedHasNone(s.past.open, step.drained);
      HandleNoticesPhases(s, step.drained, view, step.ok);
      BeginClosesAfter(s, HandleNotices(s, step.drained, view, step.ok).0, None, view, step.ok);
    } else {
      StartedByShutdown(s, step, view);
    }
  }

  lemma BeginClosesAfter(s: Bridge, quiet: Bridge, command: Option<nat>, view: View, ok: bool)
    requires Handshake(s) && !s.shutdownStarted && (quiet.past.busy || SamePhases(s, quiet))
    ensures var t := BeginShutdown(quiet, command, view, ok).0; t.past.busy || Closing(t)
  {
    if quiet.past.busy {
      BeginKeepsBusy(quiet, command, view, ok);
    } else {
      BeginCloses(quiet, command, view, ok);
    }
  }

  /** Only a shutdown command or the token starts a shutdown. */
  lemma StartedByShutdown(s: Bridge, step: Step, view: View)
    requires Handshake(s) && !s.shutdownStarted && Allowed(s, step) && !step.ShutdownStep? && !step.TokenShutdownStep?
    ensures var t := NextState(s, step, view); t.past.busy || !t.shutdownStarted
  {
    match step {
      case NoticeStep(notice, ok) => HandleNoticePhases(Sends(s, notice), notice, view, ok);
      case ResynchronizeStep(ok) =>
        var (t, id) := IssueRequestId(s);
        if id.Some? {
          PumpPhases(t.(pendingRequests := t.pendingRequests + {id.value}, pendingResynchronization := id), view, ok);
        }
      case AcknowledgeStep(revision, ok) =>
        if s.wire.inFlight.Some? {
          PumpPhases(Settle(s, s.wire.inFlight.value.notice), view, ok);
        }
      case TickStep(ok) => PumpPhases(s, view, ok);
      case _ =>
    }
  }

  lemma {:induction false} RunCloses(steps: seq<Step>, view: View)
    requires BridgeBounds.AllowedRun(steps, view)
    ensures Closing(Run(steps, view))
    decreases |steps|
  {
    if steps != [] {
      var front := steps[..|steps| - 1];
      RunCloses(front, view);
      ShutdownIsAnnounced(front, view);
      BridgeAnswers.NothingIsRefused(steps, view);
      StepCloses(Run(front, view), steps[|steps| - 1], view);
    }
  }

  lemma EndsReadyAnnounces(queue: seq<QueuedNotice>)
    requires queue != [] && EndsReady(queue)
    ensures var phases := PhasesOf(queue); phases != [] && phases[|phases| - 1] == Ready
  {
    var front, last := queue[..|queue| - 1], [queue[|queue| - 1]];
    assert queue == front + last && last[1..] == [];
    PhasesAppend(front, last);
    assert PhasesOf(last) == [Ready];
  }

  /** Behind the ready phase there is nothing. */
  lemma ReadyHasNoFollower(s: Bridge)
    requires Handshake(s) && s.pendingNotices != [] && EndsReady(s.pendingNotices)
    ensures InFlightPhase(s.wire) != [Ready] && !s.readyAcknowledged
  {
    EndsReadyAnnounces(s.pendingNotices);
    var flying, phases := InFlightPhase(s.wire), PhasesOf(s.pendingNotices);
    assert |Phases(s)| == |flying| + |phases| && Phases(s) != [];
    assert flying != [] ==> Phases(s)[0] == flying[0];
  }

  /**
   In every allowed run ready is the last notice: the queue of a started shutdown ends with it, nothing is queued behind
   it while it is in flight, and nothing is left when it has been acknowledged.
   */
  lemma ReadyIsLast(steps: seq<Step>, view: View)
    requires BridgeBounds.AllowedRun(steps, view)
    ensures var s := Run(steps, view);
            && (s.shutdownStarted ==> EndsReady(s.pendingNotices) && s.pendingResynchronization.None?)
            && (InFlightPhase(s.wire) == [Ready] || s.readyAcknowledged ==> s.pendingNotices == [])
  {
    ShutdownIsAnnounced(steps, view);
    RunCloses(steps, view);
    var s := Run(steps, view);
    if s.shutdownStarted && s.pendingNotices != [] {
      ReadyHasNoFollower(s);
    }
  }
}
