/** What is let in and what is observed: channels, requests and projection changes, step by step. */
module BridgeSteps {
  import opened Text
  import opened Delta
  import opened Bridge
  import BridgeBounds

  // ---------------------------------------------------------------- channels

  /**
   A new channel is taken if and only if no frame is in flight, the snapshot can be mapped, a revision is left and the
   channel takes the frame; then it has received exactly the initial snapshot, and the projections are clean.
   */
  lemma ConnectIff(s: Bridge, view: View, ok: bool)
    ensures NextState(s, ConnectStep(ok), view) == Connect(s, view, ok).0
    ensures var (t, good) := Connect(s, view, ok);
            && (good <==> && s.wire.inFlight.None? && view(Current(s)).Some? && s.wire.nextRevision < U64_LIMIT - 1 && ok)
            && (good ==>
                  && t.wire.connected && |t.wire.sent| == 1 && !t.projectionDirty
                  && t.wire.sent[0].revision == s.wire.nextRevision == t.wire.nextRevision - 1
                  && t.wire.sent[0].payload == SnapshotFrame(Initial, view(Current(s)).value)
                  && t.wire.lastSnapshot == view(Current(s)) && t.wire.inFlight == Some(InFlight(s.wire.nextRevision, None)))
            && (!good ==> t.projectionDirty == s.projectionDirty)
            && (!good && s.wire.inFlight.None? ==> !t.wire.connected && t.wire.inFlight.None?)
            && (s.wire.inFlight.Some? ==> t == s)
            && t.pendingRequests == s.pendingRequests && t.pendingNotices == s.pendingNotices
  {
  }

  // ---------------------------------------------------------------- projections on the wire

  /** A frame can leave: there is a channel, it is idle and takes the frame, and a revision is left. */
  predicate CanSend(w: Wire, ok: bool) {
    w.connected && w.inFlight.None? && ok && w.nextRevision < U64_LIMIT - 1
  }

  /** The frame goes out once and its snapshot is remembered, or neither. */
  lemma SnapshotSent(w: Wire, payload: Payload, snapshot: Snapshot, basis: Basis, ok: bool)
    ensures var (t, good) := SendSnapshot(w, payload, snapshot, basis, ok);
            && (good <==> CanSend(w, ok))
            && (if good
                then && |t.sent| == |w.sent| + 1 && t.sent[..|w.sent|] == w.sent && t.sent[|w.sent|].payload == payload
                     && t.lastSnapshot == Some(snapshot)
                else t.sent == w.sent && t.lastSnapshot == w.lastSnapshot)
  {
  }

  /** The projection frame over `last`: a delta exactly when one can carry the difference. */
  ghost predicate IsProjection(payload: Payload, last: Option<Snapshot>, snapshot: Snapshot) {
    if last.Some? && exists i: nat :: MovesRow(last.value, snapshot, i)
    then payload.DeltaFrame? && ApplyTo(payload.delta, last.value)
         == Some(snapshot.(memory := DEFAULT_MEMORY, recoveryPending := last.value.recoveryPending))
    else payload == SnapshotFrame(Projection, snapshot)
  }

  lemma ProjectionChosen(last: Option<Snapshot>, snapshot: Snapshot)
    requires ValidSnapshot(snapshot) && (last.Some? ==> ValidSnapshot(last.value))
    ensures var delta := if last.Some? then Between(last.value, snapshot) else None;
            IsProjection(if delta.Some? then DeltaFrame(delta.value) else SnapshotFrame(Projection, snapshot), last, snapshot)
  {
    if last.Some? {
      DeltaExistsIff(last.value, snapshot);
      if Between(last.value, snapshot).Some? {
        DeltaRoundTrip(last.value, snapshot, last.value);
      }
    }
  }

  /**
   What publishing sends: nothing over an equal snapshot; a delta if and only if nothing has moved but the active session,
   its row and the recovery count; the complete snapshot otherwise. It succeeds exactly when nothing is to be sent over an
   idle channel or the frame can leave.
   */
  lemma PublishSends(w: Wire, snapshot: Snapshot, basis: Basis, ok: bool)
    requires ValidSnapshot(snapshot) && (w.lastSnapshot.Some? ==> ValidSnapshot(w.lastSnapshot.value))
    ensures var (t, good) := PublishWire(w, snapshot, basis, ok);
            var equal := w.connected && w.inFlight.None? && w.lastSnapshot == Some(snapshot);
            && (good <==> equal || CanSend(w, ok))
            && (equal || !CanSend(w, ok) ==> t.sent == w.sent && t.lastSnapshot == w.lastSnapshot)
            && (!equal && CanSend(w, ok) ==>
                  && |t.sent| == |w.sent| + 1 && t.sent[..|w.sent|] == w.sent && t.lastSnapshot == Some(snapshot)
                  && IsProjection(t.sent[|w.sent|].payload, w.lastSnapshot, snapshot))
  {
    ProjectionChosen(w.lastSnapshot, snapshot);
    var delta := if w.lastSnapshot.Some? then Between(w.lastSnapshot.value, snapshot) else None;
    var payload := if delta.Some? then DeltaFrame(delta.value) else SnapshotFrame(Projection, snapshot);
    SnapshotSent(w, payload, snapshot, basis, ok);
  }

  // ---------------------------------------------------------------- requests

  /** What every request needs: a channel, no shutdown, an identity and room. */
  predicate Admissible(s: Bridge) {
    && s.wire.connected && !s.shutdownStarted && s.nextRequestId < U64_LIMIT - 1
    && |s.pendingRequests| < MAX_PENDING_REQUESTS
  }

  /** An intent is admitted exactly when it is admissible and the application takes it; a refused one leaves no trace. */
  lemma IntentAdmittedIff(s: Bridge, accepted: bool)
    ensures var (t, id) := DispatchIntent(s, accepted);
            && (id.Some? <==> Admissible(s) && accepted)
            && (id.Some? ==>
                  && id.value == s.nextRequestId < t.nextRequestId
                  && t.pendingRequests == s.pendingRequests + {id.value} && t.past.open == s.past.open + {id.value})
            && (id.None? ==> t == s.(nextRequestId := t.nextRequestId) && s.nextRequestId <= t.nextRequestId)
            && t.wire == s.wire && t.pendingNotices == s.pendingNotices
  {
  }

  /**
   A resynchronization is admitted exactly when it is admissible, none is pending, and a frame is in flight or its
   snapshot can leave at once; a refused one leaves no request behind.
   */
  lemma ResynchronizeAdmittedIff(s: Bridge, view: View, ok: bool)
    requires BridgeBounds.Bounded(s)
    ensures var (t, id) := DispatchResynchronize(s, view, ok);
            && (id.Some? <==>
                  && Admissible(s) && s.pendingResynchronization.None?
                  && (s.wire.inFlight.Some? || (view(Current(s)).Some? && s.wire.nextRevision < U64_LIMIT - 1 && ok)))
            && (id.Some? ==> id.value == s.nextRequestId && t.pendingRequests == s.pendingRequests + {id.value})
            && (id.None? ==> t.pendingRequests == s.pendingRequests)
  {
    var (u, id) := IssueRequestId(s);
    if Admissible(s) && s.pendingResynchronization.None? {
      var asked := u.(pendingRequests := u.pendingRequests + {id.value}, pendingResynchronization := id);
      BridgeBounds.AskKeeps(u, id.value);
      if s.wire.inFlight.None? && view(Current(s)).Some? && s.wire.nextRevision < U64_LIMIT - 1 && ok {
        var snapshot := view(Current(asked)).value;
        var (w, good) := SendSnapshot(asked.wire, SnapshotFrame(Resynchronization, snapshot), snapshot, Current(asked), ok);
        BridgeBounds.SilentWireKeeps(asked, w, false);
        BridgeBounds.ResynchronizationAnswered(SentSnapshot(asked, w, good), id.value);
      }
    }
  }

  // ---------------------------------------------------------------- projections

  /** Nothing of what has been observed changes. */
  predicate SameView(s: Bridge, t: Bridge) {
    t.unseen == s.unseen && t.catalogGeneration == s.catalogGeneration && t.version == s.version
  }

  /** Observing takes changes off, and counts those of the catalog. */
  predicate Observes(s: Bridge, t: Bridge) {
    && t.unseen <= s.unseen && t.version == s.version
    && t.catalogGeneration == if CatalogWatch in s.unseen && CatalogWatch !in t.unseen
                              then SaturatingNext(s.catalogGeneration) else s.catalogGeneration
  }

  lemma PublishSees(s: Bridge, view: View, ok: bool)
    ensures SameView(s, Publish(s, view, ok)) && Publish(s, view, ok).pendingNotices == s.pendingNotices
  {
  }

  lemma NoticeSees(s: Bridge, ok: bool)
    requires s.pendingNotices != []
    ensures SameView(s, PumpNotice(s, ok).0) && SameView(s, FrontReady(s)) && SameView(s, PumpNotice(FrontReady(s), ok).0)
  {
  }

  lemma FrontSees(s: Bridge, view: View, ok: bool)
    requires s.pendingNotices != []
    ensures SameView(s, PumpFront(s, view, ok).0)
  {
    var published := if s.projectionDirty then Publish(s, view, ok) else s;
    PublishSees(s, view, ok);
    NoticeSees(s, ok);
    NoticeSees(published, ok);
  }

  lemma ResynchronizationSees(s: Bridge, view: View, ok: bool)
    requires s.pendingResynchronization.Some?
    ensures SameView(s, PumpResynchronization(s, view, ok).0)
  {
  }

  lemma PumpSees(s: Bridge, view: View, ok: bool)
    ensures SameView(s, Pump(s, view, ok).0)
  {
    if s.wire.inFlight.Some? || !s.wire.connected {
    } else if s.pendingResynchronization.Some? {
      ResynchronizationSees(s, view, ok);
    } else if s.pendingNotices == [] {
      PublishSees(s, view, ok);
    } else {
      FrontSees(s, view, ok);
    }
  }

  lemma HandleNoticeObserves(s: Bridge, notice: Notice, view: View, ok: bool)
    ensures Observes(s, HandleNotice(s, notice, view, ok).0)
    ensures !Dropped(s, notice) ==> HandleNotice(s, notice, view, ok).0.unseen == {}
  {
    if !Dropped(s, notice) {
      PumpSees(QueueNotice(ObserveAll(s), notice, TerminalOf(notice)).0, view, ok);
    }
  }

  /** A relation that one notice keeps, any number of notices keep. */
  lemma {:induction false} NoticesKeep(keeps: (Bridge, Bridge) -> bool, s: Bridge, notices: seq<Notice>, view: View, ok: bool)
    requires forall t: Bridge :: keeps(t, t)
    requires forall t: Bridge, u: Bridge, v: Bridge | keeps(t, u) && keeps(u, v) :: keeps(t, v)
    requires forall t: Bridge, notice: Notice :: keeps(t, HandleNotice(Sends(t, notice), notice, view, ok).0)
    ensures keeps(s, HandleNotices(s, notices, view, ok).0)
    decreases |notices|
  {
    if notices != [] {
      var (t, good) := HandleNotice(Sends(s, notices[0]), notices[0], view, ok);
      assert keeps(s, t);
      if good {
        NoticesKeep(keeps, t, notices[1..], view, ok);
      }
    }
  }

  lemma HandleNoticesObserve(s: Bridge, notices: seq<Notice>, view: View, ok: bool)
    ensures Observes(s, HandleNotices(s, notices, view, ok).0)
  {
    forall t: Bridge, notice: Notice ensures Observes(t, HandleNotice(Sends(t, notice), notice, view, ok).0) {
      HandleNoticeObserves(Sends(t, notice), notice, view, ok);
    }
    NoticesKeep((t, u) => Observes(t, u), s, notices, view, ok);
  }

  lemma QueueSees(s: Bridge, notice: Notice, terminal: Option<nat>)
    ensures SameView(s, QueueNotice(s, notice, terminal).0)
  {
  }

  lemma PhaseSees(s: Bridge, phase: ShutdownState)
    ensures SameView(s, QueueShutdownNotice(s, phase).0)
  {
    QueueSees(s, Shutdown(phase), None);
  }

  lemma AnnounceSees(s: Bridge, view: View, ok: bool)
    ensures SameView(s, Announce(s, view, ok).0)
  {
    PhaseSees(s, Requested);
    var (requested, good) := QueueShutdownNotice(s, Requested);
    if good {
      PhaseSees(requested, Ready);
      PumpSees(QueueShutdownNotice(requested, Ready).0, view, ok);
    }
  }

  lemma BeginShutdownSees(s: Bridge, command: Option<nat>, view: View, ok: bool)
    ensures SameView(s, BeginShutdown(s, command, view, ok).0)
  {
    if !s.shutdownStarted {
      var started := Starting(s);
      if command.None? {
        AnnounceSees(started, view, ok);
      } else {
        var asked := started.(pendingRequests := started.pendingRequests + {command.value});
        QueueSees(asked, CommandCommitted(command.value), command);
        AnnounceSees(QueueNotice(asked, CommandCommitted(command.value), command).0, view, ok);
      }
    }
  }

  lemma ShutdownObserves(s: Bridge, drained: seq<Notice>, command: Option<nat>, ok: bool, view: View)
    ensures Observes(s, HandleNotices(s, drained, view, ok).0)
    ensures Observes(s, BeginShutdown(HandleNotices(s, drained, view, ok).0, command, view, ok).0)
  {
    HandleNoticesObserve(s, drained, view, ok);
    BeginShutdownSees(HandleNotices(s, drained, view, ok).0, command, view, ok);
  }

  lemma ResynchronizeObserves(s: Bridge, step: Step, view: View)
    requires step.ResynchronizeStep?
    ensures Observes(s, NextState(s, step, view))
  {
    var (t, id) := IssueRequestId(s);
    if id.Some? {
      PumpSees(t.(pendingRequests := t.pendingRequests + {id.value}, pendingResynchronization := id), view, step.ok);
    }
  }

  lemma CarrierObserves(s: Bridge, step: Step, view: View)
    requires step.AcknowledgeStep? || step.TickStep?
    ensures Observes(s, NextState(s, step, view))
  {
    if step.TickStep? {
      PumpSees(s, view, step.ok);
    } else if s.wire.inFlight.Some? {
      PumpSees(Settle(s, s.wire.inFlight.value.notice), view, step.ok);
    }
  }

  lemma NoticeObserves(s: Bridge, step: Step, view: View)
    requires step.NoticeStep?
    ensures Observes(s, NextState(s, step, view))
  {
    HandleNoticeObserves(Sends(s, step.notice), step.notice, view, step.ok);
  }

  lemma CommandObserves(s: Bridge, step: Step, view: View)
    requires step.ShutdownStep?
    ensures Observes(s, NextState(s, step, view))
  {
    var (t, id) := IssueRequestId(s);
    ShutdownObserves(t, step.drained, id, step.ok, view);
  }

  lemma TokenObserves(s: Bridge, step: Step, view: View)
    requires step.TokenShutdownStep?
    ensures Observes(s, NextState(s, step, view))
  {
    ShutdownObserves(s, step.drained, None, step.ok, view);
  }

  lemma SimpleObserves(s: Bridge, step: Step, view: View)
    requires step.CancelToken? || step.Observe? || step.ConnectStep? || step.IntentStep?
    ensures Observes(s, NextState(s, step, view))
  {
  }

  /** Apart from a new change, a step only observes: the catalog generation counts the observed changes of the catalog. */
  lemma GenerationCountsCatalogs(s: Bridge, step: Step, view: View)
    requires !step.Change?
    ensures Observes(s, NextState(s, step, view))
  {
    if step.NoticeStep? {
      NoticeObserves(s, step, view);
    } else if step.ShutdownStep? {
      CommandObserves(s, step, view);
    } else if step.TokenShutdownStep? {
      TokenObserves(s, step, view);
    } else if step.AcknowledgeStep? || step.TickStep? {
      CarrierObserves(s, step, view);
    } else if step.ResynchronizeStep? {
      ResynchronizeObserves(s, step, view);
    } else {
      SimpleObserves(s, step, view);
    }
  }

  /** A change only waits to be observed. */
  lemma ChangeWaits(s: Bridge, watch: Watch, view: View)
    ensures NextState(s, Change(watch), view) == s.(version := s.version + 1, unseen := s.unseen + {watch})
  {
  }

  /** A change that is observed makes the projections dirty, before a shutdown and by its own step. */
  lemma ObservedIsDirty(s: Bridge, watch: Watch, view: View)
    ensures var t := NextState(s, Observe(watch), view);
            if s.shutdownStarted || watch !in s.unseen then t == s
            else t.projectionDirty && t.unseen == s.unseen - {watch}
  {
  }
}
