/** The bridge actor as the application runs it: fields updated step by step, each method equal to its specification. */
module BridgeActor {
  import opened Text
  import opened Delta
  import opened Bridge
  import BridgeAnswers
  import BridgeBounds
  import BridgeCarrier

  class BridgeActor {
    const view: View
    var version: nat
    var unseen: set<Watch>
    var cancelled: bool
    var connected: bool
    var lastSnapshot: Option<Snapshot>
    var nextRequestId: nat
    var nextRevision: nat
    var pendingRequests: set<nat>
    var pendingNotices: seq<QueuedNotice>
    var inFlight: Option<InFlight>
    var pendingResynchronization: Option<nat>
    var catalogGeneration: nat
    var projectionDirty: bool
    var requestedSent: bool
    var readySent: bool
    var shutdownStarted: bool
    var readyAcknowledged: bool
    ghost var sent: seq<Frame>
    ghost var basis: Basis
    ghost var past: Past

    function Here(): (b: Basis)
      reads this`version, this`catalogGeneration, this`cancelled
    {
      Basis(version, catalogGeneration, cancelled)
    }

    ghost function WireState(): (w: Wire)
      reads this`connected, this`lastSnapshot, this`nextRevision, this`inFlight, this`sent, this`basis
    {
      Wire(connected, lastSnapshot, nextRevision, inFlight, sent, basis)
    }

    ghost function State(): (s: Bridge)
      reads this
    {
      Bridge(WireState(), version, unseen, cancelled, nextRequestId, pendingRequests, pendingNotices,
             pendingResynchronization, catalogGeneration, projectionDirty, requestedSent, readySent,
             shutdownStarted, readyAcknowledged, past)
    }

    constructor (view: View)
      ensures this.view == view && State() == INITIAL
    {
      this.view := view;
      version, unseen, cancelled, connected, lastSnapshot := 0, {}, false, false, None;
      nextRequestId, nextRevision, pendingRequests, pendingNotices := 1, 1, {}, [];
      inFlight, pendingResynchronization, catalogGeneration, projectionDirty := None, None, 1, true;
      requestedSent, readySent, shutdownStarted, readyAcknowledged := false, false, false, false;
      sent, basis, past := [], Basis(0, 1, false), Past({}, {}, {}, false);
    }

    method MapSnapshot() returns (snapshot: Option<Snapshot>)
      ensures snapshot == view(Here())
    {
      snapshot := view(Here());
    }

    method SendFrame(payload: Payload, queued: Option<QueuedNotice>, ghost from: Basis, ok: bool) returns (good: bool)
      modifies this`nextRevision, this`connected, this`inFlight, this`sent
      ensures (WireState(), good) == Send(old(WireState()), payload, queued, from, ok)
    {
      if nextRevision >= U64_LIMIT - 1 {
        return false;
      }
      var revision := nextRevision;
      nextRevision := revision + 1;
      if inFlight.Some? || !connected {
        return false;
      }
      if !ok {
        connected := false;
        return false;
      }
      inFlight := Some(InFlight(revision, queued));
      sent := sent + [Frame(revision, payload, if queued.Some? then queued.value.stamp else 0, from)];
      good := true;
    }

    method SendSnapshotFrame(payload: Payload, snapshot: Snapshot, ok: bool) returns (good: bool)
      modifies this`nextRevision, this`connected, this`inFlight, this`sent, this`lastSnapshot, this`basis, this`projectionDirty
      ensures (WireState(), good) == SendSnapshot(old(WireState()), payload, snapshot, Here(), ok)
      ensures projectionDirty == (old(projectionDirty) && !good)
    {
      ghost var from := Here();
      good := SendFrame(payload, None, from, ok);
      if good {
        lastSnapshot := Some(snapshot);
        projectionDirty := false;
        basis := from;
      }
    }

    method PublishSnapshot(snapshot: Snapshot, ok: bool) returns (published: bool)
      modifies this`nextRevision, this`connected, this`inFlight, this`sent, this`lastSnapshot, this`basis, this`projectionDirty
      ensures (WireState(), published) == PublishWire(old(WireState()), snapshot, Here(), ok)
      ensures projectionDirty == (old(projectionDirty) && !published)
    {
      if inFlight.Some? || !connected {
        return false;
      }
      if lastSnapshot == Some(snapshot) {
        projectionDirty := false;
        basis := Here();
        return true;
      }
      var delta := if lastSnapshot.Some? then Between(lastSnapshot.value, snapshot) else None;
      var payload := if delta.Some? then DeltaFrame(delta.value) else SnapshotFrame(Projection, snapshot);
      published := SendSnapshotFrame(payload, snapshot, ok);
    }

    method PublishProjection(ok: bool)
      modifies this`nextRevision, this`connected, this`inFlight, this`sent, this`lastSnapshot, this`basis, this`projectionDirty
      ensures State() == Publish(old(State()), view, ok)
    {
      var snapshot := MapSnapshot();
      if snapshot.Some? {
        var _ := PublishSnapshot(snapshot.value, ok);
      }
    }

    /** Replaces the first queued notice about the same sign-in, or appends when there is room. */
    method Queue(notice: Notice, terminal: Option<nat>) returns (good: bool)
      modifies this`pendingNotices, this`past
      ensures (State(), good) == QueueNotice(old(State()), notice, terminal)
    {
      if notice.Authentication? {
        var index := 0;
        while index < |pendingNotices| && !IsAuthenticationOf(pendingNotices[index], notice.requestId)
          invariant index <= |pendingNotices| && pendingNotices == old(pendingNotices)
          invariant FindAuthentication(pendingNotices, notice.requestId)
                 == index + FindAuthentication(pendingNotices[index..], notice.requestId)
        {
          assert pendingNotices[index..][1..] == pendingNotices[index + 1..];
          index := index + 1;
        }
        if index < |pendingNotices| {
          past := Noted(past, pendingNotices, notice, terminal, true);
          pendingNotices := pendingNotices[index := pendingNotices[index].(notice := notice)];
          return true;
        }
      }
      if |pendingNotices| >= MAX_PENDING_NOTICES {
        past := past.(busy := true);
        return false;
      }
      var waitForProjection := projectionDirty && (terminal.Some? || notice.Shutdown?);
      pendingNotices := pendingNotices + [QueuedNotice(notice, terminal, waitForProjection, version)];
      good := true;
    }

    method PumpFrontNotice(ok: bool) returns (good: bool)
      requires pendingNotices != []
      modifies this
      ensures (State(), good) == PumpNotice(old(State()), ok)
    {
      var queued := pendingNotices[0];
      good := SendFrame(NoticeFrame(queued.notice), Some(queued), basis, ok);
      if good {
        pendingNotices := pendingNotices[1..];
      }
    }

    method PumpWaitingNotice(ok: bool) returns (good: bool)
      requires pendingNotices != []
      modifies this
      ensures (State(), good) == PumpFront(old(State()), view, ok)
    {
      if pendingNotices[0].waitForProjection {
        if projectionDirty {
          PublishProjection(ok);
        }
        if projectionDirty {
          return true;
        }
        pendingNotices := pendingNotices[0 := pendingNotices[0].(waitForProjection := false)];
        if inFlight.Some? {
          return true;
        }
      }
      good := PumpFrontNotice(ok);
    }

    method SendResynchronization(snapshot: Snapshot, ok: bool) returns (good: bool)
      modifies this`nextRevision, this`connected, this`inFlight, this`sent, this`lastSnapshot, this`basis, this`projectionDirty
      ensures (WireState(), good)
           == SendSnapshot(old(WireState()), SnapshotFrame(Resynchronization, snapshot), snapshot, Current(old(State())), ok)
      ensures State() == SentSnapshot(old(State()), WireState(), good)
    {
      good := SendSnapshotFrame(SnapshotFrame(Resynchronization, snapshot), snapshot, ok);
    }

    method PumpSnapshot(requestId: nat, ok: bool) returns (good: bool)
      requires pendingResynchronization == Some(requestId)
      modifies this
      ensures (State(), good) == PumpResynchronization(old(State()), view, ok)
    {
      var snapshot := MapSnapshot();
      if snapshot.None? {
        return false;
      }
      good := SendResynchronization(snapshot.value, ok);
      if good {
        good := AnswerSnapshot(requestId);
      }
    }

    method AnswerSnapshot(requestId: nat) returns (good: bool)
      modifies this`pendingResynchronization, this`pendingNotices, this`past
      ensures (State(), good) == QueueNotice(old(State()).(pendingResynchronization := None), CommandCommitted(requestId), Some(requestId))
    {
      pendingResynchronization := None;
      good := Queue(CommandCommitted(requestId), Some(requestId));
    }

    method PumpOutbound(ok: bool) returns (good: bool)
      modifies this
      ensures (State(), good) == Pump(old(State()), view, ok)
    {
      if inFlight.Some? || !connected {
        return true;
      }
      if pendingResynchronization.Some? {
        good := PumpSnapshot(pendingResynchronization.value, ok);
        return;
      }
      if pendingNotices == [] {
        if projectionDirty {
          PublishProjection(ok);
        }
        return true;
      }
      good := PumpWaitingNotice(ok);
    }

    method Join(snapshot: Option<Snapshot>, ok: bool) returns (good: bool)
      requires inFlight.None?
      modifies this`nextRevision, this`connected, this`inFlight, this`sent, this`lastSnapshot, this`basis, this`projectionDirty
      ensures (WireState(), good) == ConnectWire(old(WireState()), snapshot, Here(), ok)
      ensures projectionDirty == (old(projectionDirty) && !good)
    {
      connected, sent := true, [];
      good := false;
      if snapshot.Some? {
        good := SendSnapshotFrame(SnapshotFrame(Initial, snapshot.value), snapshot.value, ok);
      }
      if !good {
        connected, inFlight := false, None;
      }
    }

    method ConnectChannel(ok: bool) returns (good: bool)
      modifies this
      ensures (State(), good) == Connect(old(State()), view, ok)
    {
      if inFlight.Some? {
        return false;
      }
      var snapshot := MapSnapshot();
      good := Join(snapshot, ok);
    }

    method TakeRequestId() returns (id: Option<nat>)
      modifies this`nextRequestId
      ensures (State(), id) == IssueRequestId(old(State()))
    {
      if nextRequestId >= U64_LIMIT - 1 {
        return None;
      }
      id := Some(nextRequestId);
      nextRequestId := nextRequestId + 1;
    }

    method AdmitIntent(accepted: bool) returns (id: Option<nat>)
      modifies this
      ensures (State(), id) == DispatchIntent(old(State()), accepted)
    {
      if !connected || shutdownStarted {
        return None;
      }
      id := TakeRequestId();
      if id.None? || |pendingRequests| >= MAX_PENDING_REQUESTS || !accepted {
        return None;
      }
      pendingRequests := pendingRequests + {id.value};
      past := past.(open := past.open + {id.value});
    }

    method Resynchronize(ok: bool) returns (id: Option<nat>)
      modifies this
      ensures (State(), id) == DispatchResynchronize(old(State()), view, ok)
    {
      if !connected || shutdownStarted {
        return None;
      }
      id := TakeRequestId();
      if id.None? || pendingResynchronization.Some? || |pendingRequests| >= MAX_PENDING_REQUESTS {
        return None;
      }
      var good := AskSnapshot(id.value, ok);
      if !good {
        return None;
      }
    }

    method Withdraw(id: nat)
      modifies this`pendingRequests, this`pendingResynchronization
      ensures State() == WithdrawRequest(old(State()), id)
    {
      pendingResynchronization := None;
      pendingRequests := pendingRequests - {id};
    }

    method AskSnapshot(id: nat, ok: bool) returns (good: bool)
      modifies this
      ensures (State(), good) == Ask(old(State()), id, view, ok)
    {
      pendingRequests := pendingRequests + {id};
      pendingResynchronization := Some(id);
      good := PumpOutbound(ok);
      if !good {
        Withdraw(id);
      }
    }

    method QueuePhase(phase: ShutdownState) returns (good: bool)
      modifies this`pendingNotices, this`past, this`requestedSent, this`readySent
      ensures (State(), good) == QueueShutdownNotice(old(State()), phase)
    {
      if (phase == Requested && requestedSent) || (phase == Ready && readySent) {
        return true;
      }
      good := Queue(Shutdown(phase), None);
      if good {
        if phase == Requested {
          requestedSent := true;
        } else {
          readySent := true;
        }
      }
    }

    method MarkStarted()
      modifies this`cancelled, this`shutdownStarted, this`projectionDirty, this`pendingResynchronization, this`past
      ensures State() == Starting(old(State()))
    {
      past := Starting(State()).past;
      cancelled, shutdownStarted, projectionDirty, pendingResynchronization := true, true, true, None;
    }

    method AnswerShutdown(id: nat) returns (good: bool)
      modifies this`pendingRequests, this`pendingNotices, this`past
      ensures (State(), good) == QueueNotice(old(State()).(pendingRequests := old(State()).pendingRequests + {id}),
                                             CommandCommitted(id), Some(id))
    {
      pendingRequests := pendingRequests + {id};
      assert State() == old(State()).(pendingRequests := old(State()).pendingRequests + {id});
      good := Queue(CommandCommitted(id), Some(id));
    }

    method StartShutdown(command: Option<nat>, ok: bool) returns (good: bool)
      modifies this
      ensures (State(), good) == BeginShutdown(old(State()), command, view, ok)
    {
      if shutdownStarted {
        return true;
      }
      MarkStarted();
      if command.Some? {
        good := AnswerShutdown(command.value);
        if !good {
          return;
        }
      }
      good := AnnounceShutdown(ok);
    }

    method AnnounceShutdown(ok: bool) returns (good: bool)
      modifies this
      ensures (State(), good) == Announce(old(State()), view, ok)
    {
      good := QueuePhase(Requested);
      if !good {
        return;
      }
      good := QueuePhase(Ready);
      if !good {
        return;
      }
      good := PumpOutbound(ok);
    }

    method IsOutstanding(id: nat) returns (outstanding: bool)
      ensures outstanding == TerminalOutstanding(State(), id)
    {
      outstanding := inFlight.Some? && inFlight.value.notice.Some? && inFlight.value.notice.value.terminal == Some(id);
      for i := 0 to |pendingNotices|
        invariant outstanding <==>
          || (exists k :: 0 <= k < i && pendingNotices[k].terminal == Some(id))
          || (inFlight.Some? && inFlight.value.notice.Some? && inFlight.value.notice.value.terminal == Some(id))
      {
        if pendingNotices[i].terminal == Some(id) {
          outstanding := true;
        }
      }
    }

    method ObservePendingProjections()
      modifies this`unseen, this`projectionDirty, this`catalogGeneration
      ensures State() == ObserveAll(old(State()))
    {
      if unseen != {} {
        if CatalogWatch in unseen {
          catalogGeneration := SaturatingNext(catalogGeneration);
        }
        unseen := {};
        projectionDirty := true;
      }
    }

    method AcceptNotice(notice: Notice, ok: bool) returns (good: bool)
      modifies this
      ensures (State(), good) == HandleNotice(old(State()), notice, view, ok)
    {
      var terminal := TerminalOf(notice);
      if terminal.Some? {
        if terminal.value !in pendingRequests {
          return true;
        }
        var outstanding := IsOutstanding(terminal.value);
        if outstanding {
          return true;
        }
      } else if !notice.Shutdown? && notice.requestId !in pendingRequests {
        return true;
      }
      ObservePendingProjections();
      good := Queue(notice, terminal);
      if good {
        var _ := PumpOutbound(ok);
      }
    }

    method DrainAvailableNotices(notices: seq<Notice>, ok: bool) returns (good: bool)
      modifies this
      ensures (State(), good) == HandleNotices(old(State()), notices, view, ok)
    {
      for i := 0 to |notices|
        invariant HandleNotices(old(State()), notices, view, ok) == HandleNotices(State(), notices[i..], view, ok)
      {
        assert notices[i..][0] == notices[i] && notices[i..][1..] == notices[i + 1..];
        if TerminalOf(notices[i]).Some? {
          past := past.(open := past.open - {TerminalOf(notices[i]).value});
        }
        good := AcceptNotice(notices[i], ok);
        if !good {
          return;
        }
      }
      good := true;
    }

    method ShutdownCommand(drained: seq<Notice>, ok: bool) returns (id: Option<nat>)
      modifies this
      ensures (State(), id) == DispatchShutdown(old(State()), drained, view, ok)
    {
      if !connected || shutdownStarted {
        return None;
      }
      id := TakeRequestId();
      if id.None? || |pendingRequests| >= MAX_PENDING_REQUESTS {
        return None;
      }
      var good := DrainAvailableNotices(drained, ok);
      if !good {
        return None;
      }
      good := StartShutdown(id, ok);
      if !good {
        return None;
      }
    }

    method AcknowledgeFrame(revision: nat, ok: bool) returns (good: bool)
      modifies this
      ensures (State(), good) == Acknowledge(old(State()), revision, view, ok)
    {
      if inFlight.None? || inFlight.value.revision != revision {
        return false;
      }
      var queued := inFlight.value.notice;
      inFlight := None;
      if queued.Some? {
        if queued.value.terminal.Some? {
          pendingRequests := pendingRequests - {queued.value.terminal.value};
        }
        if queued.value.notice == Shutdown(Ready) {
          readyAcknowledged := true;
        }
      }
      assert State() == Settle(old(State()), queued);
      good := PumpOutbound(ok);
    }

    method ObserveWatch(watch: Watch)
      modifies this`unseen, this`projectionDirty, this`catalogGeneration
      ensures State() == if shutdownStarted || watch !in old(unseen) then old(State()) else ObserveOne(old(State()), watch)
    {
      if !shutdownStarted && watch in unseen {
        if watch == CatalogWatch {
          catalogGeneration := SaturatingNext(catalogGeneration);
        }
        unseen, projectionDirty := unseen - {watch}, true;
      }
    }

    method ReceiveNotice(notice: Notice, ok: bool)
      modifies this
      ensures State() == HandleNotice(Sends(old(State()), notice), notice, view, ok).0
    {
      if TerminalOf(notice).Some? {
        past := past.(open := past.open - {TerminalOf(notice).value});
      }
      var _ := AcceptNotice(notice, ok);
    }

    method CancelledToken(drained: seq<Notice>, ok: bool)
      modifies this
      ensures State() == TokenShutdown(old(State()), drained, view, ok)
    {
      if !shutdownStarted {
        var good := DrainAvailableNotices(drained, ok);
        if good {
          var _ := StartShutdown(None, ok);
        }
      }
    }

    /** A request of the renderer other than an acknowledgement. */
    method Request(step: Step)
      requires step.ConnectStep? || step.IntentStep? || step.ResynchronizeStep? || step.ShutdownStep?
      modifies this
      ensures State() == NextState(old(State()), step, view)
    {
      match step {
        case ConnectStep(ok) => var _ := ConnectChannel(ok);
        case IntentStep(accepted) => var _ := AdmitIntent(accepted);
        case ResynchronizeStep(ok) => var _ := Resynchronize(ok);
        case ShutdownStep(drained, ok) => var _ := ShutdownCommand(drained, ok);
      }
    }

    /** One turn of the actor's event loop. */
    method Turn(step: Step)
      modifies this
      ensures State() == NextState(old(State()), step, view)
    {
      match step {
        case Change(watch) => version, unseen := version + 1, unseen + {watch};
        case CancelToken => cancelled := true;
        case Observe(watch) => ObserveWatch(watch);
        case ConnectStep(_) => Request(step);
        case IntentStep(_) => Request(step);
        case ResynchronizeStep(_) => Request(step);
        case ShutdownStep(_, _) => Request(step);
        case TokenShutdownStep(drained, ok) => CancelledToken(drained, ok);
        case NoticeStep(notice, ok) =>
          if !shutdownStarted {
            ReceiveNotice(notice, ok);
          }
        case AcknowledgeStep(revision, ok) => var _ := AcknowledgeFrame(revision, ok);
        case TickStep(ok) => var _ := PumpOutbound(ok);
      }
    }

    /**
     A whole life of the actor, from its construction: over any turns the renderer shows the last snapshot,
     and over turns in which the application keeps its promise the queues stay bounded, no notice is refused,
     and every waiting request is accounted for.
     */
    method Perform(steps: seq<Step>)
      requires State() == INITIAL && ValidView(view)
      modifies this
      ensures State() == Run(steps, view)
      ensures sent != [] ==>
                && lastSnapshot.Some? && BridgeCarrier.LastComplete(sent).Some?
                && BridgeCarrier.Fold(sent) == Holding(sent[|sent| - 1].revision, BridgeCarrier.Shown(sent, lastSnapshot.value))
      ensures BridgeBounds.AllowedRun(steps, view) ==>
                && |pendingRequests| <= MAX_PENDING_REQUESTS
                && |pendingNotices| <= 2 * |pendingRequests| + 2 <= MAX_PENDING_NOTICES
                && !past.busy
                && pendingRequests - past.open == BridgeAnswers.Live(State()) + (past.coalesced + past.abandoned)
    {
      for i := 0 to |steps|
        invariant State() == Run(steps[..i], view)
      {
        assert steps[..i + 1][..|steps[..i + 1]| - 1] == steps[..i];
        Turn(steps[i]);
      }
      assert steps[..|steps|] == steps;
      Lived(steps, view);
    }
  }

  /** The theorems about runs, at one run. */
  lemma Lived(steps: seq<Step>, view: View)
    requires ValidView(view)
    ensures var s := Run(steps, view);
            var frames := s.wire.sent;
            frames != [] ==>
              && s.wire.lastSnapshot.Some? && BridgeCarrier.LastComplete(frames).Some?
              && BridgeCarrier.Fold(frames)
                 == Holding(frames[|frames| - 1].revision, BridgeCarrier.Shown(frames, s.wire.lastSnapshot.value))
    ensures BridgeBounds.AllowedRun(steps, view) ==>
              var s := Run(steps, view);
              && |s.pendingRequests| <= MAX_PENDING_REQUESTS
              && |s.pendingNotices| <= 2 * |s.pendingRequests| + 2 <= MAX_PENDING_NOTICES
              && !s.past.busy
              && s.pendingRequests - s.past.open == BridgeAnswers.Live(s) + (s.past.coalesced + s.past.abandoned)
  {
    if Run(steps, view).wire.sent != [] {
      BridgeCarrier.RendererShowsLastSnapshot(steps, view);
    }
    if BridgeBounds.AllowedRun(steps, view) {
      BridgeBounds.QueuesStayBounded(steps, view);
      BridgeAnswers.RunAccounts(steps, view);
    }
  }
}
