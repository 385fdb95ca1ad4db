/** What every run of the renderer bridge keeps about revisions, the renderer's state, and frame order. */
module BridgeCarrier {
  import opened Text
  import opened Delta
  import opened Bridge

  /** The renderer's state after the frames of one channel. */
  function Fold(frames: seq<Frame>): (r: Replica) {
    if frames == [] then Fresh
    else
      var last := frames[|frames| - 1];
      Receive(Fold(frames[..|frames| - 1]), last.revision, last.payload)
  }

  lemma FoldAppend(frames: seq<Frame>, frame: Frame)
    ensures Fold(frames + [frame]) == Receive(Fold(frames), frame.revision, frame.payload)
  {
    assert (frames + [frame])[..|frames|] == frames;
  }

  ghost predicate Consecutive(frames: seq<Frame>) {
    forall i :: 0 <= i < |frames| ==> frames[i].revision == frames[0].revision + i
  }

  // ---------------------------------------------------------------- what the renderer shows

  /** The snapshot of the last complete frame. */
  function LastComplete(frames: seq<Frame>): (snapshot: Option<Snapshot>) {
    if frames == [] then None
    else
      var payload := frames[|frames| - 1].payload;
      if payload.SnapshotFrame? then Some(payload.snapshot) else LastComplete(frames[..|frames| - 1])
  }

  /** Some delta went out after the last complete frame. */
  predicate DeltaSince(frames: seq<Frame>) {
    frames != [] &&
    (match frames[|frames| - 1].payload
     case SnapshotFrame(_, _) => false
     case DeltaFrame(_) => true
     case NoticeFrame(_) => DeltaSince(frames[..|frames| - 1]))
  }

  /** A delta brings neither memory, which becomes the default, nor the recovery count, which stays. */
  function Shown(frames: seq<Frame>, snapshot: Snapshot): (s: Snapshot) {
    if DeltaSince(frames) && LastComplete(frames).Some?
    then snapshot.(memory := DEFAULT_MEMORY, recoveryPending := LastComplete(frames).value.recoveryPending)
    else snapshot
  }

  lemma ShownAfter(frames: seq<Frame>, frame: Frame, snapshot: Snapshot)
    ensures frame.payload.SnapshotFrame? ==>
              Shown(frames + [frame], snapshot) == snapshot && LastComplete(frames + [frame]) == Some(frame.payload.snapshot)
    ensures frame.payload.DeltaFrame? && LastComplete(frames).Some? ==>
              Shown(frames + [frame], snapshot)
              == snapshot.(memory := DEFAULT_MEMORY, recoveryPending := LastComplete(frames).value.recoveryPending)
    ensures frame.payload.NoticeFrame? ==> Shown(frames + [frame], snapshot) == Shown(frames, snapshot)
    ensures !frame.payload.SnapshotFrame? ==> LastComplete(frames + [frame]) == LastComplete(frames)
    ensures DeltaSince(frames + [frame]) <==>
              (frame.payload.DeltaFrame? || (frame.payload.NoticeFrame? && DeltaSince(frames)))
  {
    assert (frames + [frame])[..|frames|] == frames;
  }

  // ---------------------------------------------------------------- the invariant

  function LastRevision(w: Wire): (n: nat)
    requires w.sent != []
  {
    w.sent[|w.sent| - 1].revision
  }

  predicate Waits(notice: Notice) {
    notice.CommandCommitted? || notice.CommandRejected? || notice.Shutdown?
  }

  /** When this notice left, the renderer held a snapshot of the projections at or after its stamp. */
  ghost predicate InOrder(frames: seq<Frame>, i: nat, view: View)
    requires i < |frames|
  {
    frames[i].payload.NoticeFrame? && Waits(frames[i].payload.notice) ==>
      && frames[i].stamp <= frames[i].basis.version
      && view(frames[i].basis).Some?
      && Fold(frames[..i]).Holding?
      && Fold(frames[..i]).snapshot == Shown(frames[..i], view(frames[i].basis).value)
  }

  ghost predicate AllInOrder(frames: seq<Frame>, view: View) {
    forall i {:trigger InOrder(frames, i, view)} :: 0 <= i < |frames| ==> InOrder(frames, i, view)
  }

  /** Frames of a channel: consecutive, from an initial snapshot, leaving the renderer with exactly this one. */
  ghost predicate ChannelOk(frames: seq<Frame>, lastSnapshot: Option<Snapshot>) {
    && Consecutive(frames)
    && (frames != [] ==>
          && frames[0].payload.SnapshotFrame? && frames[0].payload.reason == Initial
          && lastSnapshot.Some? && LastComplete(frames).Some?
          && (DeltaSince(frames) || LastComplete(frames) == lastSnapshot)
          && Fold(frames) == Holding(frames[|frames| - 1].revision, Shown(frames, lastSnapshot.value)))
  }

  /** Revisions are consecutive from an initial snapshot and the renderer shows `lastSnapshot`. */
  ghost predicate Carrier(w: Wire, view: View) {
    && w.nextRevision >= 1
    && ChannelOk(w.sent, w.lastSnapshot)
    && AllInOrder(w.sent, view)
    && (w.connected ==> w.sent != [] && w.nextRevision == LastRevision(w) + 1)
    && (w.lastSnapshot.Some? ==> w.lastSnapshot == view(w.basis))
    && (w.inFlight.Some? ==> w.connected && w.inFlight.value.revision == LastRevision(w))
  }

  /** The renderer's snapshot captures every projection change up to `stamp`. */
  predicate Captured(w: Wire, stamp: nat) {
    w.lastSnapshot.Some? && stamp <= w.basis.version
  }

  predicate QueuedInOrder(queued: QueuedNotice, w: Wire, version: nat, dirty: bool) {
    Waits(queued.notice) ==>
      queued.stamp <= version && (Captured(w, queued.stamp) || (queued.waitForProjection && dirty))
  }

  ghost predicate QueueInOrder(queue: seq<QueuedNotice>, w: Wire, version: nat, dirty: bool) {
    forall i {:trigger QueuedInOrder(queue[i], w, version, dirty)} :: 0 <= i < |queue| ==> QueuedInOrder(queue[i], w, version, dirty)
  }

  ghost predicate Ordered(s: Bridge) {
    && (s.wire.lastSnapshot.None? ==> s.projectionDirty)
    && s.wire.basis.version <= s.version
    && (s.unseen == {} && !s.projectionDirty ==> s.wire.basis.version == s.version)
    && QueueInOrder(s.pendingNotices, s.wire, s.version, s.projectionDirty)
  }

  ghost predicate Good(s: Bridge, view: View) {
    Carrier(s.wire, view) && Ordered(s)
  }

  // ---------------------------------------------------------------- one frame

  lemma InOrderAppend(frames: seq<Frame>, frame: Frame, view: View)
    requires AllInOrder(frames, view)
    requires frame.payload.NoticeFrame? && Waits(frame.payload.notice) ==>
               && frame.stamp <= frame.basis.version && view(frame.basis).Some?
               && Fold(frames).Holding? && Fold(frames).snapshot == Shown(frames, view(frame.basis).value)
    ensures AllInOrder(frames + [frame], view)
  {
    var all := frames + [frame];
    forall i | 0 <= i < |all|
      ensures InOrder(all, i, view)
    {
      if i < |frames| {
        assert all[..i] == frames[..i];
        assert InOrder(frames, i, view);
      } else {
        assert all[..i] == frames;
      }
    }
  }

  lemma ChannelAppend(frames: seq<Frame>, before: Option<Snapshot>, frame: Frame, after: Snapshot)
    requires ChannelOk(frames, before) && frames != []
    requires frame.revision == frames[|frames| - 1].revision + 1 < U64_LIMIT
    requires Receive(Fold(frames), frame.revision, frame.payload) == Holding(frame.revision, Shown(frames + [frame], after))
    requires frame.payload.SnapshotFrame? ==> frame.payload.snapshot == after
    requires frame.payload.NoticeFrame? ==> before == Some(after)
    ensures ChannelOk(frames + [frame], Some(after))
  {
    FoldAppend(frames, frame);
    ShownAfter(frames, frame, after);
  }

  predicate Kept(w: Wire, t: Wire) {
    t.lastSnapshot == w.lastSnapshot && t.basis == w.basis
  }

  /** A projection frame, complete or incremental, brings the renderer from the last snapshot to this one. */
  lemma SendSnapshotKeeps(w: Wire, view: View, payload: Payload, snapshot: Snapshot, basis: Basis, ok: bool)
    requires ValidView(view) && Carrier(w, view) && w.inFlight.None? && w.connected
    requires view(basis) == Some(snapshot)
    requires payload == SnapshotFrame(Projection, snapshot) || payload == SnapshotFrame(Resynchronization, snapshot)
          || (payload.DeltaFrame? && Between(w.lastSnapshot.value, snapshot) == Some(payload.delta))
    ensures var (t, good) := SendSnapshot(w, payload, snapshot, basis, ok);
            Carrier(t, view) && (if good then t.lastSnapshot == Some(snapshot) && t.basis == basis else Kept(w, t))
  {
    var (t, good) := SendSnapshot(w, payload, snapshot, basis, ok);
    if good {
      var frame := Frame(w.nextRevision, payload, 0, basis);
      if payload.DeltaFrame? {
        assert Validated(view, basis) && Validated(view, w.basis);
        DeltaRoundTrip(w.lastSnapshot.value, snapshot, Fold(w.sent).snapshot);
      }
      ShownAfter(w.sent, frame, snapshot);
      ChannelAppend(w.sent, w.lastSnapshot, frame, snapshot);
      InOrderAppend(w.sent, frame, view);
    }
  }

  lemma SendNoticeKeeps(w: Wire, view: View, queued: QueuedNotice, ok: bool)
    requires Carrier(w, view) && w.inFlight.None? && w.connected
    requires Waits(queued.notice) ==> Captured(w, queued.stamp)
    ensures Carrier(Send(w, NoticeFrame(queued.notice), Some(queued), w.basis, ok).0, view)
  {
    var (t, good) := Send(w, NoticeFrame(queued.notice), Some(queued), w.basis, ok);
    if good {
      var frame := Frame(w.nextRevision, NoticeFrame(queued.notice), queued.stamp, w.basis);
      ShownAfter(w.sent, frame, w.lastSnapshot.value);
      ChannelAppend(w.sent, w.lastSnapshot, frame, w.lastSnapshot.value);
      InOrderAppend(w.sent, frame, view);
    }
  }

  /** The first frame of a channel is an initial snapshot. */
  lemma JoinKeeps(w: Wire, view: View, snapshot: Snapshot, basis: Basis, ok: bool)
    requires Carrier(w, view) && w.inFlight.None? && view(basis) == Some(snapshot)
    ensures var (t, good) := SendSnapshot(w.(connected := true, sent := []), SnapshotFrame(Initial, snapshot), snapshot, basis, ok);
            Carrier(if good then t else t.(connected := false, inFlight := None), view)
  {
    var frame := Frame(w.nextRevision, SnapshotFrame(Initial, snapshot), 0, basis);
    FoldAppend([], frame);
    ShownAfter([], frame, snapshot);
    InOrderAppend([], frame, view);
    assert [] + [frame] == [frame];
  }

  lemma PublishWireKeeps(w: Wire, view: View, snapshot: Snapshot, basis: Basis, ok: bool)
    requires ValidView(view) && Carrier(w, view) && view(basis) == Some(snapshot)
    ensures var (t, published) := PublishWire(w, snapshot, basis, ok);
            Carrier(t, view) && (if published then t.lastSnapshot == Some(snapshot) && t.basis == basis else Kept(w, t))
  {
    if w.inFlight.None? && w.connected && w.lastSnapshot != Some(snapshot) {
      var delta := if w.lastSnapshot.Some? then Between(w.lastSnapshot.value, snapshot) else None;
      var payload := if delta.Some? then DeltaFrame(delta.value) else SnapshotFrame(Projection, snapshot);
      SendSnapshotKeeps(w, view, payload, snapshot, basis, ok);
    }
  }

  lemma ConnectWireKeeps(w: Wire, view: View, basis: Basis, ok: bool)
    requires Carrier(w, view) && w.inFlight.None?
    ensures var (t, good) := ConnectWire(w, view(basis), basis, ok);
            Carrier(t, view) && (if good then t.lastSnapshot.Some? && t.basis == basis else Kept(w, t))
  {
    if view(basis).Some? {
      JoinKeeps(w, view, view(basis).value, basis, ok);
    }
  }

  // ---------------------------------------------------------------- the queue

  /** A fresher snapshot, or a raised dirty flag, only helps what is queued. */
  lemma QueueStaysInOrder(queue: seq<QueuedNotice>, w: Wire, version: nat, dirty: bool, w': Wire, version': nat, dirty': bool)
    requires QueueInOrder(queue, w, version, dirty)
    requires version <= version' && (w.lastSnapshot.Some? ==> w'.lastSnapshot.Some? && w.basis.version <= w'.basis.version)
    requires (dirty ==> dirty') || (w'.lastSnapshot.Some? && w'.basis.version == version')
    ensures QueueInOrder(queue, w', version', dirty')
  {
    forall i | 0 <= i < |queue|
      ensures QueuedInOrder(queue[i], w', version', dirty')
    {
      assert QueuedInOrder(queue[i], w, version, dirty);
    }
  }

  lemma PublishKeeps(s: Bridge, view: View, ok: bool)
    requires ValidView(view) && Good(s, view)
    ensures Good(Publish(s, view, ok), view)
  {
    if view(Current(s)).Some? {
      var t := Publish(s, view, ok);
      PublishWireKeeps(s.wire, view, view(Current(s)).value, Current(s), ok);
      QueueStaysInOrder(s.pendingNotices, s.wire, s.version, s.projectionDirty, t.wire, t.version, t.projectionDirty);
    }
  }

  lemma PumpNoticeKeeps(s: Bridge, view: View, ok: bool)
    requires Good(s, view) && s.wire.inFlight.None? && s.wire.connected
    requires s.pendingNotices != [] && (Waits(s.pendingNotices[0].notice) ==> Captured(s.wire, s.pendingNotices[0].stamp))
    ensures Good(PumpNotice(s, ok).0, view)
  {
    var t := PumpNotice(s, ok).0;
    SendNoticeKeeps(s.wire, view, s.pendingNotices[0], ok);
    QueueStaysInOrder(s.pendingNotices, s.wire, s.version, s.projectionDirty, t.wire, t.version, t.projectionDirty);
  }

  lemma FrontReadyKeeps(s: Bridge, view: View)
    requires Good(s, view) && s.pendingNotices != [] && !s.projectionDirty
    ensures Good(FrontReady(s), view)
    ensures Waits(s.pendingNotices[0].notice) ==> Captured(s.wire, s.pendingNotices[0].stamp)
  {
    assert QueuedInOrder(s.pendingNotices[0], s.wire, s.version, s.projectionDirty);
    var t := FrontReady(s);
    forall i | 0 <= i < |t.pendingNotices|
      ensures QueuedInOrder(t.pendingNotices[i], t.wire, t.version, t.projectionDirty)
    {
      assert QueuedInOrder(s.pendingNotices[i], s.wire, s.version, s.projectionDirty);
    }
  }

  lemma EnqueueInOrder(queue: seq<QueuedNotice>, entry: QueuedNotice, w: Wire, version: nat, dirty: bool)
    requires QueueInOrder(queue, w, version, dirty) && QueuedInOrder(entry, w, version, dirty)
    ensures QueueInOrder(Enqueue(queue, entry).0, w, version, dirty)
  {
    var after := Enqueue(queue, entry).0;
    forall i | 0 <= i < |after|
      ensures QueuedInOrder(after[i], w, version, dirty)
    {
      if i < |queue| {
        assert QueuedInOrder(queue[i], w, version, dirty);
      }
    }
  }

  lemma QueueKeeps(s: Bridge, view: View, notice: Notice, terminal: Option<nat>)
    requires Good(s, view) && (s.unseen == {} || s.projectionDirty || Captured(s.wire, s.version))
    requires Waits(notice) ==> notice.Shutdown? || terminal.Some?
    ensures Good(QueueNotice(s, notice, terminal).0, view)
    ensures QueueNotice(s, notice, terminal).0.projectionDirty == s.projectionDirty
  {
    var wait := s.projectionDirty && (terminal.Some? || notice.Shutdown?);
    EnqueueInOrder(s.pendingNotices, QueuedNotice(notice, terminal, wait, s.version), s.wire, s.version, s.projectionDirty);
  }

  /** A snapshot that left, or did not, over the same queue. */
  lemma SentSnapshotKeeps(s: Bridge, view: View, w: Wire, good: bool)
    requires Good(s, view) && Carrier(w, view)
    requires if good then w.lastSnapshot.Some? && w.basis == Current(s) else Kept(s.wire, w)
    ensures Good(SentSnapshot(s, w, good), view)
    ensures good ==> Captured(w, s.version)
  {
    QueueStaysInOrder(s.pendingNotices, s.wire, s.version, s.projectionDirty, w, s.version, s.projectionDirty && !good);
  }

  lemma PumpResynchronizationKeeps(s: Bridge, view: View, ok: bool)
    requires ValidView(view) && Good(s, view) && s.wire.inFlight.None? && s.wire.connected
    requires s.pendingResynchronization.Some?
    ensures Good(PumpResynchronization(s, view, ok).0, view)
  {
    if view(Current(s)).Some? {
      var snapshot := view(Current(s)).value;
      var payload := SnapshotFrame(Resynchronization, snapshot);
      SendSnapshotKeeps(s.wire, view, payload, snapshot, Current(s), ok);
      var (w, good) := SendSnapshot(s.wire, payload, snapshot, Current(s), ok);
      SentSnapshotKeeps(s, view, w, good);
      if good {
        AnsweredKeeps(SentSnapshot(s, w, good), view, s.pendingResynchronization.value);
      }
    }
  }

  lemma AnsweredKeeps(s: Bridge, view: View, id: nat)
    requires Good(s, view) && Captured(s.wire, s.version)
    ensures Good(QueueNotice(s.(pendingResynchronization := None), CommandCommitted(id), Some(id)).0, view)
  {
    QueueKeeps(s.(pendingResynchronization := None), view, CommandCommitted(id), Some(id));
  }

  lemma PumpFrontKeeps(s: Bridge, view: View, ok: bool)
    requires ValidView(view) && Good(s, view) && s.wire.inFlight.None? && s.wire.connected && s.pendingNotices != []
    ensures Good(PumpFront(s, view, ok).0, view)
  {
    if !s.pendingNotices[0].waitForProjection {
      assert QueuedInOrder(s.pendingNotices[0], s.wire, s.version, s.projectionDirty);
      PumpNoticeKeeps(s, view, ok);
    } else {
      PublishKeeps(s, view, ok);
      var published := if s.projectionDirty then Publish(s, view, ok) else s;
      if !published.projectionDirty {
        FrontReadyKeeps(published, view);
        if published.wire.inFlight.None? {
          if s.projectionDirty {
            PublishStaysConnected(s, view, ok);
          }
          PumpNoticeKeeps(FrontReady(published), view, ok);
        }
      }
    }
  }

  /** Only a refused frame loses the channel, and then the projections stay dirty. */
  lemma PublishStaysConnected(s: Bridge, view: View, ok: bool)
    requires s.wire.connected && s.projectionDirty && !Publish(s, view, ok).projectionDirty
    ensures Publish(s, view, ok).wire.connected
  {
  }

  lemma PumpKeeps(s: Bridge, view: View, ok: bool)
    requires ValidView(view) && Good(s, view)
    ensures Good(Pump(s, view, ok).0, view)
  {
    if s.wire.inFlight.Some? || !s.wire.connected {
    } else if s.pendingResynchronization.Some? {
      PumpResynchronizationKeeps(s, view, ok);
    } else if s.pendingNotices == [] {
      PublishKeeps(s, view, ok);
    } else {
      PumpFrontKeeps(s, view, ok);
    }
  }

  lemma ConnectKeeps(s: Bridge, view: View, ok: bool)
    requires Good(s, view)
    ensures Good(Connect(s, view, ok).0, view)
  {
    if s.wire.inFlight.None? {
      var t := Connect(s, view, ok).0;
      ConnectWireKeeps(s.wire, view, Current(s), ok);
      QueueStaysInOrder(s.pendingNotices, s.wire, s.version, s.projectionDirty, t.wire, t.version, t.projectionDirty);
    }
  }

  // ---------------------------------------------------------------- every step

  lemma ObserveAllKeeps(s: Bridge, view: View)
    requires Good(s, view)
    ensures Good(ObserveAll(s), view) && ObserveAll(s).unseen == {}
  {
    QueueStaysInOrder(s.pendingNotices, s.wire, s.version, s.projectionDirty, s.wire, s.version, ObserveAll(s).projectionDirty);
  }

  lemma HandleNoticeKeeps(s: Bridge, notice: Notice, view: View, ok: bool)
    requires ValidView(view) && Good(s, view)
    ensures Good(HandleNotice(s, notice, view, ok).0, view)
  {
    var seen := ObserveAll(s);
    ObserveAllKeeps(s, view);
    QueueKeeps(seen, view, notice, TerminalOf(notice));
    PumpKeeps(QueueNotice(seen, notice, TerminalOf(notice)).0, view, ok);
  }

  lemma {:induction false} HandleNoticesKeeps(s: Bridge, notices: seq<Notice>, view: View, ok: bool)
    requires ValidView(view) && Good(s, view)
    ensures Good(HandleNotices(s, notices, view, ok).0, view)
    decreases |notices|
  {
    if notices != [] {
      HandleNoticeKeeps(Sends(s, notices[0]), notices[0], view, ok);
      HandleNoticesKeeps(HandleNotice(Sends(s, notices[0]), notices[0], view, ok).0, notices[1..], view, ok);
    }
  }

  lemma ShutdownNoticeKeeps(s: Bridge, view: View, phase: ShutdownState)
    requires Good(s, view) && s.projectionDirty
    ensures Good(QueueShutdownNotice(s, phase).0, view) && QueueShutdownNotice(s, phase).0.projectionDirty
  {
    QueueKeeps(s, view, Shutdown(phase), None);
  }

  lemma BeginShutdownKeeps(s: Bridge, command: Option<nat>, view: View, ok: bool)
    requires ValidView(view) && Good(s, view)
    ensures Good(BeginShutdown(s, command, view, ok).0, view)
  {
    if !s.shutdownStarted {
      var started := Starting(s);
      QueueStaysInOrder(s.pendingNotices, s.wire, s.version, s.projectionDirty, s.wire, s.version, true);
      var answered := started;
      if command.Some? {
        var asked := started.(pendingRequests := started.pendingRequests + {command.value});
        QueueKeeps(asked, view, CommandCommitted(command.value), command);
        answered := QueueNotice(asked, CommandCommitted(command.value), command).0;
      }
      ShutdownNoticeKeeps(answered, view, Requested);
      var requested := QueueShutdownNotice(answered, Requested).0;
      ShutdownNoticeKeeps(requested, view, Ready);
      PumpKeeps(QueueShutdownNotice(requested, Ready).0, view, ok);
    }
  }

  lemma AcknowledgeKeeps(s: Bridge, revision: nat, view: View, ok: bool)
    requires ValidView(view) && Good(s, view)
    ensures Good(Acknowledge(s, revision, view, ok).0, view)
  {
    if s.wire.inFlight.Some? && s.wire.inFlight.value.revision == revision {
      var settled := Settle(s, s.wire.inFlight.value.notice);
      QueueStaysInOrder(s.pendingNotices, s.wire, s.version, s.projectionDirty, settled.wire, s.version, s.projectionDirty);
      PumpKeeps(settled, view, ok);
    }
  }

  lemma DispatchKeeps(s: Bridge, view: View, drained: seq<Notice>, ok: bool)
    requires ValidView(view) && Good(s, view)
    ensures Good(DispatchResynchronize(s, view, ok).0, view)
    ensures Good(DispatchShutdown(s, drained, view, ok).0, view)
  {
    var (t, id) := IssueRequestId(s);
    assert Good(t, view);
    if id.Some? {
      var asked := t.(pendingRequests := t.pendingRequests + {id.value}, pendingResynchronization := id);
      assert Good(asked, view);
      PumpKeeps(asked, view, ok);
      HandleNoticesKeeps(t, drained, view, ok);
      BeginShutdownKeeps(HandleNotices(t, drained, view, ok).0, id, view, ok);
    }
  }

  /** Steps that touch neither the wire nor the queue. */
  lemma ProjectionStepKeeps(s: Bridge, t: Bridge, view: View)
    requires Good(s, view) && t.wire == s.wire && t.pendingNotices == s.pendingNotices
    requires s.version <= t.version && (s.projectionDirty ==> t.projectionDirty)
    requires t.unseen == {} && !t.projectionDirty ==> s.unseen == {} && t.version == s.version
    ensures Good(t, view)
  {
    QueueStaysInOrder(s.pendingNotices, s.wire, s.version, s.projectionDirty, s.wire, t.version, t.projectionDirty);
  }

  lemma QuietStep(s: Bridge, step: Step, view: View)
    requires step.Change? || step.CancelToken? || step.Observe? || step.IntentStep?
    ensures var t := NextState(s, step, view);
            && t.wire == s.wire && t.pendingNotices == s.pendingNotices
            && s.version <= t.version && (s.projectionDirty ==> t.projectionDirty)
            && (t.unseen == {} && !t.projectionDirty ==> s.unseen == {} && t.version == s.version)
  {
    assert step.Change? ==> step.watch in NextState(s, step, view).unseen;
  }

  /** Every step of the bridge, whatever the application, the renderer and the projections do. */
  lemma StepKeeps(s: Bridge, step: Step, view: View)
    requires ValidView(view) && Good(s, view)
    ensures Good(NextState(s, step, view), view)
  {
    match step {
      case ConnectStep(ok) => ConnectKeeps(s, view, ok);
      case ResynchronizeStep(ok) => DispatchKeeps(s, view, [], ok);
      case ShutdownStep(drained, ok) => DispatchKeeps(s, view, drained, ok);
      case TokenShutdownStep(drained, ok) =>
        HandleNoticesKeeps(s, drained, view, ok);
        BeginShutdownKeeps(HandleNotices(s, drained, view, ok).0, None, view, ok);
      case NoticeStep(notice, ok) => HandleNoticeKeeps(Sends(s, notice), notice, view, ok);
      case AcknowledgeStep(revision, ok) => AcknowledgeKeeps(s, revision, view, ok);
      case TickStep(ok) => PumpKeeps(s, view, ok);
      case _ =>
        QuietStep(s, step, view);
        ProjectionStepKeeps(s, NextState(s, step, view), view);
    }
  }

  lemma {:induction false} RunKeeps(steps: seq<Step>, view: View)
    requires ValidView(view)
    ensures Good(Run(steps, view), view)
  {
    if steps != [] {
      RunKeeps(steps[..|steps| - 1], view);
      StepKeeps(Run(steps[..|steps| - 1], view), steps[|steps| - 1], view);
    }
  }

  /**
   For every run: the frames of a channel have consecutive revisions from an initial snapshot, and the renderer
   that folds them shows exactly `lastSnapshot`, but for memory and the recovery count once a delta went out.
   It equals `lastSnapshot` if and only if no delta went out since the last complete frame, or the memory is
   the default one and the recovery count is that of the last complete frame.
   */
  lemma RendererShowsLastSnapshot(steps: seq<Step>, view: View)
    requires ValidView(view) && Run(steps, view).wire.sent != []
    ensures var s := Run(steps, view);
            var frames, last := s.wire.sent, s.wire.lastSnapshot;
            && frames[0].payload.SnapshotFrame? && frames[0].payload.reason == Initial
            && (forall i :: 0 <= i < |frames| ==> frames[i].revision == frames[0].revision + i)
            && last.Some? && LastComplete(frames).Some? && Fold(frames).Holding?
            && Fold(frames).revision == frames[|frames| - 1].revision
            && Fold(frames).snapshot == Shown(frames, last.value)
            && (Fold(frames).snapshot == last.value <==>
                  (|| !DeltaSince(frames)
                   || (&& last.value.memory == DEFAULT_MEMORY
                       && last.value.recoveryPending == LastComplete(frames).value.recoveryPending)))
  {
    RunKeeps(steps, view);
  }

  /**
   For every run: when a committed, rejected or shutdown notice leaves, the renderer already shows a
   snapshot of the projections no older than the moment the notice was queued.
   */
  lemma NoticesFollowProjections(steps: seq<Step>, view: View, i: nat)
    requires ValidView(view) && i < |Run(steps, view).wire.sent|
    requires var frame := Run(steps, view).wire.sent[i]; frame.payload.NoticeFrame? && Waits(frame.payload.notice)
    ensures var frames := Run(steps, view).wire.sent;
            && frames[i].stamp <= frames[i].basis.version
            && view(frames[i].basis).Some?
            && Fold(frames[..i]).Holding?
            && Fold(frames[..i]).snapshot == Shown(frames[..i], view(frames[i].basis).value)
  {
    RunKeeps(steps, view);
    assert InOrder(Run(steps, view).wire.sent, i, view);
  }
}
