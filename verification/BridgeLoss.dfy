/** A renderer that misses frames, gets them twice or out of order: it never shows what was not sent to be shown. */
module BridgeLoss {
  import opened Text
  import opened Delta
  import opened Bridge
  import opened BridgeCarrier
  import BridgeSteps

  // ---------------------------------------------------------------- any deliveries

  /** The renderer after frames were delivered in this order, whichever they are. */
  function Delivered(frames: seq<Frame>, order: seq<nat>): (r: Replica)
    requires forall i :: 0 <= i < |order| ==> order[i] < |frames|
  {
    if order == [] then Fresh
    else
      var frame := frames[order[|order| - 1]];
      Receive(Delivered(frames, order[..|order| - 1]), frame.revision, frame.payload)
  }

  /** Whoever receives the first n frames in order holds the n-th revision. */
  ghost predicate HeldAt(frames: seq<Frame>, n: nat)
    requires 0 < n <= |frames|
  {
    Fold(frames[..n]).Holding? && Fold(frames[..n]).revision == frames[n - 1].revision
  }

  ghost predicate AllHeld(frames: seq<Frame>) {
    forall n {:trigger HeldAt(frames, n)} :: 0 < n <= |frames| ==> HeldAt(frames, n)
  }

  /** Fresh, lost, or showing exactly what the frames up to some point show. */
  ghost predicate Faithful(frames: seq<Frame>, r: Replica) {
    r.Holding? ==> exists n :: 0 < n <= |frames| && r == Fold(frames[..n])
  }

  lemma FoldNext(frames: seq<Frame>, n: nat)
    requires n < |frames|
    ensures Fold(frames[..n + 1]) == Receive(Fold(frames[..n]), frames[n].revision, frames[n].payload)
  {
    assert frames[..n + 1] == frames[..n] + [frames[n]];
    FoldAppend(frames[..n], frames[n]);
  }

  /** A complete frame shows its snapshot, to the renderer that has followed and to one that starts with it. */
  lemma CompleteFrameHolds(frames: seq<Frame>, j: nat)
    requires j < |frames| && AllHeld(frames) && Consecutive(frames) && frames[j].payload.SnapshotFrame?
    ensures Fold(frames[..j + 1]) == Holding(frames[j].revision, frames[j].payload.snapshot)
  {
    FoldNext(frames, j);
    assert HeldAt(frames, j + 1);
    if j > 0 {
      assert HeldAt(frames, j);
    }
  }

  lemma DeliveryIsFaithful(frames: seq<Frame>, r: Replica, j: nat)
    requires j < |frames| && AllHeld(frames) && Consecutive(frames) && Faithful(frames, r)
    ensures Faithful(frames, Receive(r, frames[j].revision, frames[j].payload))
  {
    var frame := frames[j];
    var last := match r case Fresh => None case Holding(revision, _) => Some(revision) case Lost(last) => last;
    match Classify(frame.revision, frame.payload, last)
    case Baseline => CompleteFrameHolds(frames, j);
    case Next =>
      if r.Holding? {
        var n :| 0 < n <= |frames| && r == Fold(frames[..n]);
        assert HeldAt(frames, n);
        assert j == n;
        FoldNext(frames, n);
      }
    case _ =>
  }

  lemma {:induction false} DeliveriesAreFaithful(frames: seq<Frame>, order: seq<nat>)
    requires AllHeld(frames) && Consecutive(frames) && forall i :: 0 <= i < |order| ==> order[i] < |frames|
    ensures Faithful(frames, Delivered(frames, order))
    decreases |order|
  {
    if order != [] {
      var front := order[..|order| - 1];
      DeliveriesAreFaithful(frames, front);
      DeliveryIsFaithful(frames, Delivered(frames, front), order[|order| - 1]);
    }
  }

  // ---------------------------------------------------------------- the frames of a run

  /** At most one frame has gone out, and only into a free slot. */
  ghost predicate OneFrame(w: Wire, t: Wire) {
    || (t.sent == w.sent && (w.inFlight.Some? ==> t.inFlight.Some?))
    || (w.inFlight.None? && t.inFlight.Some? && |t.sent| == |w.sent| + 1 && t.sent[..|w.sent|] == w.sent)
  }

  lemma SendSendsOne(w: Wire, payload: Payload, queued: Option<QueuedNotice>, basis: Basis, ok: bool)
    ensures OneFrame(w, Send(w, payload, queued, basis, ok).0)
  {
  }

  lemma SnapshotSendsOne(w: Wire, payload: Payload, snapshot: Snapshot, basis: Basis, ok: bool)
    ensures OneFrame(w, SendSnapshot(w, payload, snapshot, basis, ok).0)
  {
    SendSendsOne(w, payload, None, basis, ok);
  }

  lemma PublishWireSendsOne(w: Wire, snapshot: Snapshot, basis: Basis, ok: bool)
    ensures OneFrame(w, PublishWire(w, snapshot, basis, ok).0)
  {
    if w.inFlight.None? && w.connected && w.lastSnapshot != Some(snapshot) {
      var delta := if w.lastSnapshot.Some? then Between(w.lastSnapshot.value, snapshot) else None;
      var payload := if delta.Some? then DeltaFrame(delta.value) else SnapshotFrame(Projection, snapshot);
      SnapshotSendsOne(w, payload, snapshot, basis, ok);
    }
  }

  lemma PublishSendsOne(s: Bridge, view: View, ok: bool)
    ensures OneFrame(s.wire, Publish(s, view, ok).wire)
  {
    if view(Current(s)).Some? {
      PublishWireSendsOne(s.wire, view(Current(s)).value, Current(s), ok);
    }
  }

  lemma NoticeSendsOne(s: Bridge, ok: bool)
    requires s.pendingNotices != []
    ensures OneFrame(s.wire, PumpNotice(s, ok).0.wire)
  {
    SendSendsOne(s.wire, NoticeFrame(s.pendingNotices[0].notice), Some(s.pendingNotices[0]), s.wire.basis, ok);
  }

  lemma OneFrameTransitive(w: Wire, t: Wire, u: Wire)
    requires OneFrame(w, t) && OneFrame(t, u)
    ensures OneFrame(w, u)
  {
  }

  lemma FrontSendsOne(s: Bridge, view: View, ok: bool)
    requires s.pendingNotices != []
    ensures OneFrame(s.wire, PumpFront(s, view, ok).0.wire)
  {
    if !s.pendingNotices[0].waitForProjection {
      NoticeSendsOne(s, ok);
    } else {
      var published := if s.projectionDirty then Publish(s, view, ok) else s;
      PublishSendsOne(s, view, ok);
      NoticeSendsOne(FrontReady(published), ok);
      OneFrameTransitive(s.wire, published.wire, PumpNotice(FrontReady(published), ok).0.wire);
    }
  }

  lemma ResynchronizationSendsOne(s: Bridge, view: View, ok: bool)
    requires s.pendingResynchronization.Some?
    ensures OneFrame(s.wire, PumpResynchronization(s, view, ok).0.wire)
  {
    if view(Current(s)).Some? {
      var snapshot := view(Current(s)).value;
      SnapshotSendsOne(s.wire, SnapshotFrame(Resynchronization, snapshot), snapshot, Current(s), ok);
    }
  }

  lemma PumpSendsOne(s: Bridge, view: View, ok: bool)
    ensures OneFrame(s.wire, Pump(s, view, ok).0.wire)
  {
    if s.wire.inFlight.Some? || !s.wire.connected {
    } else if s.pendingResynchronization.Some? {
      ResynchronizationSendsOne(s, view, ok);
    } else if s.pendingNotices == [] {
      PublishSendsOne(s, view, ok);
    } else {
      FrontSendsOne(s, view, ok);
    }
  }

  lemma HandleNoticesSendOne(s: Bridge, notices: seq<Notice>, view: View, ok: bool)
    ensures OneFrame(s.wire, HandleNotices(s, notices, view, ok).0.wire)
  {
    forall t: Bridge, notice: Notice ensures OneFrame(t.wire, HandleNotice(Sends(t, notice), notice, view, ok).0.wire) {
      HandleNoticeSendsOne(Sends(t, notice), notice, view, ok);
    }
    BridgeSteps.NoticesKeep((t: Bridge, u: Bridge) => OneFrame(t.wire, u.wire), s, notices, view, ok);
  }

  lemma HandleNoticeSendsOne(s: Bridge, notice: Notice, view: View, ok: bool)
    ensures OneFrame(s.wire, HandleNotice(s, notice, view, ok).0.wire)
  {
    if !Dropped(s, notice) {
      PumpSendsOne(QueueNotice(ObserveAll(s), notice, TerminalOf(notice)).0, view, ok);
    }
  }

  lemma QueueingSendsNone(s: Bridge, phase: ShutdownState)
    ensures QueueShutdownNotice(s, phase).0.wire == s.wire
  {
  }

  lemma AnnounceSendsOne(s: Bridge, view: View, ok: bool)
    ensures OneFrame(s.wire, Announce(s, view, ok).0.wire)
  {
    var (requested, good) := QueueShutdownNotice(s, Requested);
    QueueingSendsNone(s, Requested);
    if good {
      QueueingSendsNone(requested, Ready);
      PumpSendsOne(QueueShutdownNotice(requested, Ready).0, view, ok);
    }
  }

  lemma BeginSendsOne(s: Bridge, command: Option<nat>, view: View, ok: bool)
    ensures OneFrame(s.wire, BeginShutdown(s, command, view, ok).0.wire)
  {
    if !s.shutdownStarted {
      var started := Starting(s);
      if command.None? {
        AnnounceSendsOne(started, view, ok);
      } else {
        var asked := started.(pendingRequests := started.pendingRequests + {command.value});
        AnnounceSendsOne(QueueNotice(asked, CommandCommitted(command.value), command).0, view, ok);
      }
    }
  }

  lemma ShutdownSendsOne(s: Bridge, drained: seq<Notice>, command: Option<nat>, view: View, ok: bool)
    ensures OneFrame(s.wire, HandleNotices(s, drained, view, ok).0.wire)
    ensures OneFrame(s.wire, BeginShutdown(HandleNotices(s, drained, view, ok).0, command, view, ok).0.wire)
  {
    var quiet := HandleNotices(s, drained, view, ok).0;
    HandleNoticesSendOne(s, drained, view, ok);
    BeginSendsOne(quiet, command, view, ok);
    OneFrameTransitive(s.wire, quiet.wire, BeginShutdown(quiet, command, view, ok).0.wire);
  }

  /** The frames after a step: as before, one more, those of a new channel, or none. */
  ghost predicate Grown(before: seq<Frame>, after: seq<Frame>) {
    after == before || |after| <= 1 || after[..|after| - 1] == before
  }

  lemma OneFrameGrows(w: Wire, t: Wire)
    requires OneFrame(w, t)
    ensures Grown(w.sent, t.sent)
  {
  }

  lemma CommandGrows(s: Bridge, drained: seq<Notice>, view: View, ok: bool)
    ensures Grown(s.wire.sent, DispatchShutdown(s, drained, view, ok).0.wire.sent)
  {
    var (t, id) := IssueRequestId(s);
    ShutdownSendsOne(t, drained, id, view, ok);
    OneFrameGrows(t.wire, HandleNotices(t, drained, view, ok).0.wire);
    OneFrameGrows(t.wire, BeginShutdown(HandleNotices(t, drained, view, ok).0, id, view, ok).0.wire);
  }

  lemma TokenGrows(s: Bridge, drained: seq<Notice>, view: View, ok: bool)
    ensures Grown(s.wire.sent, TokenShutdown(s, drained, view, ok).wire.sent)
  {
    ShutdownSendsOne(s, drained, None, view, ok);
    OneFrameGrows(s.wire, HandleNotices(s, drained, view, ok).0.wire);
    OneFrameGrows(s.wire, BeginShutdown(HandleNotices(s, drained, view, ok).0, None, view, ok).0.wire);
  }

  lemma ResynchronizeGrows(s: Bridge, view: View, ok: bool)
    ensures Grown(s.wire.sent, DispatchResynchronize(s, view, ok).0.wire.sent)
  {
    var (t, id) := IssueRequestId(s);
    if id.Some? {
      var asked := t.(pendingRequests := t.pendingRequests + {id.value}, pendingResynchronization := id);
      PumpSendsOne(asked, view, ok);
      OneFrameGrows(asked.wire, Pump(asked, view, ok).0.wire);
    }
  }

  lemma AcknowledgeGrows(s: Bridge, revision: nat, view: View, ok: bool)
    ensures Grown(s.wire.sent, Acknowledge(s, revision, view, ok).0.wire.sent)
  {
    if s.wire.inFlight.Some? {
      var settled := Settle(s, s.wire.inFlight.value.notice);
      PumpSendsOne(settled, view, ok);
      OneFrameGrows(settled.wire, Pump(settled, view, ok).0.wire);
    }
  }

  lemma NoticeGrows(s: Bridge, notice: Notice, view: View, ok: bool)
    ensures Grown(s.wire.sent, HandleNotice(Sends(s, notice), notice, view, ok).0.wire.sent)
  {
    HandleNoticeSendsOne(Sends(s, notice), notice, view, ok);
    OneFrameGrows(s.wire, HandleNotice(Sends(s, notice), notice, view, ok).0.wire);
  }

  lemma ConnectGrows(s: Bridge, view: View, ok: bool)
    ensures Grown(s.wire.sent, Connect(s, view, ok).0.wire.sent)
  {
  }

  lemma StepGrows(s: Bridge, step: Step, view: View)
    ensures Grown(s.wire.sent, NextState(s, step, view).wire.sent)
  {
    match step
    case ConnectStep(ok) => ConnectGrows(s, view, ok);
    case ResynchronizeStep(ok) => ResynchronizeGrows(s, view, ok);
    case ShutdownStep(drained, ok) => CommandGrows(s, drained, view, ok);
    case TokenShutdownStep(drained, ok) => TokenGrows(s, drained, view, ok);
    case NoticeStep(notice, ok) => NoticeGrows(s, notice, view, ok);
    case AcknowledgeStep(revision, ok) => AcknowledgeGrows(s, revision, view, ok);
    case TickStep(ok) => PumpSendsOne(s, view, ok); OneFrameGrows(s.wire, Pump(s, view, ok).0.wire);
    case _ =>
  }

  lemma GrownIsHeld(before: seq<Frame>, after: seq<Frame>, last: Option<Snapshot>)
    requires AllHeld(before) && Grown(before, after) && ChannelOk(after, last)
    ensures AllHeld(after)
  {
    forall n | 0 < n <= |after| ensures HeldAt(after, n) {
      assert after[..|after|] == after;
      if n < |after| && after != before {
        assert after[..n] == before[..n];
        assert HeldAt(before, n);
      }
    }
  }

  lemma {:induction false} RunIsHeld(steps: seq<Step>, view: View)
    requires ValidView(view)
    ensures AllHeld(Run(steps, view).wire.sent)
    decreases |steps|
  {
    if steps != [] {
      var front, s := steps[..|steps| - 1], Run(steps[..|steps| - 1], view);
      RunIsHeld(front, view);
      RunKeeps(steps, view);
      StepGrows(s, steps[|steps| - 1], view);
      GrownIsHeld(s.wire.sent, Run(steps, view).wire.sent, Run(steps, view).wire.lastSnapshot);
    }
  }

  /**
   After every run, for every selection of the channel's frames, with losses, repetitions and in any order: a renderer that
   holds a snapshot holds exactly what the frames up to some point show, at the revision of that point.
   */
  lemma LossNeverShowsWrong(steps: seq<Step>, view: View, order: seq<nat>)
    requires ValidView(view) && forall i :: 0 <= i < |order| ==> order[i] < |Run(steps, view).wire.sent|
    ensures var frames := Run(steps, view).wire.sent;
            var r := Delivered(frames, order);
            r.Holding? ==> exists n :: 0 < n <= |frames| && r == Fold(frames[..n]) && r.revision == frames[n - 1].revision
  {
    var frames := Run(steps, view).wire.sent;
    RunKeeps(steps, view);
    RunIsHeld(steps, view);
    DeliveriesAreFaithful(frames, order);
    var r := Delivered(frames, order);
    if r.Holding? {
      var n :| 0 < n <= |frames| && r == Fold(frames[..n]);
      assert HeldAt(frames, n);
    }
  }

  /** A newer resynchronization frame repairs any renderer: it then shows exactly what one that missed nothing shows. */
  lemma ResynchronizationRepairs(steps: seq<Step>, view: View, j: nat, r: Replica)
    requires ValidView(view) && j < |Run(steps, view).wire.sent|
    requires var payload := Run(steps, view).wire.sent[j].payload;
             payload.SnapshotFrame? && payload.reason == Resynchronization
    requires match r
             case Fresh => true
             case Holding(revision, _) => revision < Run(steps, view).wire.sent[j].revision
             case Lost(last) => last.Some? ==> last.value < Run(steps, view).wire.sent[j].revision
    ensures var frames := Run(steps, view).wire.sent;
            Receive(r, frames[j].revision, frames[j].payload) == Fold(frames[..j + 1])
  {
    RunKeeps(steps, view);
    RunIsHeld(steps, view);
    CompleteFrameHolds(Run(steps, view).wire.sent, j);
  }

  /** A renderer that has missed frames notices with the next frame that depends on them, and asks for a complete one. */
  lemma MissedFrameIsNoticed(steps: seq<Step>, view: View, n: nat, j: nat)
    requires ValidView(view) && 0 < n < j < |Run(steps, view).wire.sent|
    requires var payload := Run(steps, view).wire.sent[j].payload;
             !(payload.SnapshotFrame? && payload.reason == Resynchronization)
    ensures var frames := Run(steps, view).wire.sent;
            Receive(Fold(frames[..n]), frames[j].revision, frames[j].payload) == Lost(Some(frames[n - 1].revision))
  {
    RunKeeps(steps, view);
    RunIsHeld(steps, view);
    var frames := Run(steps, view).wire.sent;
    assert HeldAt(frames, n);
    assert frames[n - 1].revision == frames[0].revision + (n - 1) && frames[j].revision == frames[0].revision + j;
  }
}
