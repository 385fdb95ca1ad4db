/** While frames are accepted and acknowledged every queued notice is delivered in order; what waits forever, and when. */
module BridgeProgress {
  import opened Text
  import opened Delta
  import opened Bridge
  import opened BridgeBounds

  // ---------------------------------------------------------------- what is to be delivered

  function Notices(queue: seq<QueuedNotice>): (notices: seq<Notice>)
    ensures |notices| == |queue| && forall i :: 0 <= i < |queue| ==> notices[i] == queue[i].notice
  {
    seq(|queue|, i requires 0 <= i < |queue| => queue[i].notice)
  }

  /** The queue, and the answer that a pending resynchronization adds to it. */
  function Queued(s: Bridge): (notices: seq<Notice>) {
    Notices(s.pendingNotices)
    + if s.pendingResynchronization.Some? then [CommandCommitted(s.pendingResynchronization.value)] else []
  }

  /** The notices among the frames of a channel. */
  function NoticesIn(frames: seq<Frame>): (notices: seq<Notice>) {
    if frames == [] then []
    else
      var payload := frames[|frames| - 1].payload;
      NoticesIn(frames[..|frames| - 1]) + if payload.NoticeFrame? then [payload.notice] else []
  }

  lemma NoticesAppend(frames: seq<Frame>, frame: Frame)
    ensures NoticesIn(frames + [frame])
         == NoticesIn(frames) + if frame.payload.NoticeFrame? then [frame.payload.notice] else []
  {
    assert (frames + [frame])[..|frames|] == frames;
  }

  /** A queued or flying answer, or a pending resynchronization, is about to release the request. */
  predicate Due(s: Bridge, id: nat) {
    TerminalOutstanding(s, id) || s.pendingResynchronization == Some(id)
  }

  /** How many frames are still to leave. */
  function Frames(s: Bridge): (n: nat) {
    |s.pendingNotices| + (if s.pendingResynchronization.Some? then 2 else 0) + (if s.projectionDirty then 1 else 0)
  }

  /** Connected, with a snapshot that can be mapped, revisions left, and room for the answer of a resynchronization. */
  predicate Able(s: Bridge, view: View) {
    && s.wire.connected && view(Current(s)).Some?
    && s.wire.nextRevision + Frames(s) < U64_LIMIT
    && (s.pendingResynchronization.Some? ==> |s.pendingNotices| < MAX_PENDING_NOTICES)
  }

  /** Nothing is queued, nothing is on its way, and the renderer's view is the current one. */
  predicate Delivered(s: Bridge) {
    && s.wire.connected && s.wire.inFlight.None? && Frames(s) == 0
  }

  // ---------------------------------------------------------------- one round

  /** The acknowledgement of the frame on its way, or one turn of the carrier; the channel takes what it is given. */
  function RoundStep(s: Bridge): (step: Step) {
    if s.wire.inFlight.Some? then AcknowledgeStep(s.wire.inFlight.value.revision, true) else TickStep(true)
  }

  function Round(view: View): (round: Bridge -> Bridge) {
    s => NextState(s, RoundStep(s), view)
  }

  function Iterate<S>(f: S -> S, s: S, n: nat): (t: S)
    decreases n
  {
    if n == 0 then s else Iterate(f, f(s), n - 1)
  }

  function Rounds(s: Bridge, view: View, n: nat): (t: Bridge) {
    Iterate(Round(view), s, n)
  }

  /** Frames and queue together are the same notices, in the same order. */
  ghost predicate SameNotices(s: Bridge, t: Bridge) {
    NoticesIn(t.wire.sent) + Queued(t) == NoticesIn(s.wire.sent) + Queued(s)
  }

  /** The request is left without an answer due, before as after. */
  predicate RemainsAt(s: Bridge, t: Bridge, id: nat) {
    id in t.pendingRequests && !Due(t, id) <==> id in s.pendingRequests && !Due(s, id)
  }

  ghost predicate SameRemain(s: Bridge, t: Bridge) {
    forall id: nat :: RemainsAt(s, t, id)
  }

  /** A move that only turns what is to be delivered into frames, and answers into released requests. */
  ghost predicate Moves(s: Bridge, t: Bridge) {
    Current(t) == Current(s) && t.wire.connected == s.wire.connected && SameNotices(s, t) && SameRemain(s, t)
  }

  lemma MovesOn(s: Bridge, t: Bridge, u: Bridge)
    requires Moves(s, t) && Moves(t, u)
    ensures Moves(s, u)
  {
    forall id: nat ensures RemainsAt(s, u, id) {
      assert RemainsAt(s, t, id) && RemainsAt(t, u, id);
    }
  }

  lemma NoticeFrameLeaves(w: Wire, queued: QueuedNotice)
    requires w.inFlight.None? && w.connected && w.nextRevision < U64_LIMIT - 1
    ensures var (t, good) := Send(w, NoticeFrame(queued.notice), Some(queued), w.basis, true);
            && good && t.connected && t.nextRevision == w.nextRevision + 1
            && t.inFlight == Some(InFlight(w.nextRevision, Some(queued)))
            && NoticesIn(t.sent) == NoticesIn(w.sent) + [queued.notice]
  {
    NoticesAppend(w.sent, Frame(w.nextRevision, NoticeFrame(queued.notice), queued.stamp, w.basis));
  }

  lemma Shift<T>(sent: seq<T>, front: T, rest: seq<T>, last: seq<T>)
    ensures (sent + [front]) + (rest + last) == sent + (([front] + rest) + last)
  {
  }

  /** The front notice leaves. */
  lemma NoticeLeaves(s: Bridge)
    requires s.pendingNotices != [] && s.wire.inFlight.None? && s.wire.connected && s.wire.nextRevision < U64_LIMIT - 1
    ensures var t := PumpNotice(s, true).0;
            && t.pendingNotices == s.pendingNotices[1..]
            && NoticesIn(t.wire.sent) == NoticesIn(s.wire.sent) + [s.pendingNotices[0].notice]
            && t == s.(wire := t.wire, pendingNotices := t.pendingNotices)
            && t.wire.connected && t.wire.nextRevision == s.wire.nextRevision + 1
            && t.wire.inFlight == Some(InFlight(s.wire.nextRevision, Some(s.pendingNotices[0])))
  {
    NoticeFrameLeaves(s.wire, s.pendingNotices[0]);
  }

  lemma FrontIsSame(s: Bridge, t: Bridge)
    requires s.pendingNotices != [] && t.pendingNotices == s.pendingNotices[1..]
    requires NoticesIn(t.wire.sent) == NoticesIn(s.wire.sent) + [s.pendingNotices[0].notice]
    requires t.pendingResynchronization == s.pendingResynchronization
    ensures SameNotices(s, t)
  {
    var front := s.pendingNotices[0].notice;
    var last := if s.pendingResynchronization.Some? then [CommandCommitted(s.pendingResynchronization.value)] else [];
    assert Notices(s.pendingNotices) == [front] + Notices(t.pendingNotices);
    Shift(NoticesIn(s.wire.sent), front, Notices(t.pendingNotices), last);
  }

  lemma NoticeLeavesDue(s: Bridge, t: Bridge, id: nat)
    requires s.pendingNotices != [] && s.wire.inFlight.None? && t.pendingNotices == s.pendingNotices[1..]
    requires t.wire.inFlight.Some? && t.wire.inFlight.value.notice == Some(s.pendingNotices[0])
    requires t.pendingResynchronization == s.pendingResynchronization
    ensures Due(t, id) <==> Due(s, id)
  {
    if i :| 0 < i < |s.pendingNotices| && s.pendingNotices[i].terminal == Some(id) {
      assert t.pendingNotices[i - 1].terminal == Some(id);
    }
    if i :| 0 <= i < |t.pendingNotices| && t.pendingNotices[i].terminal == Some(id) {
      assert s.pendingNotices[i + 1].terminal == Some(id);
    }
  }

  lemma NoticeMoves(s: Bridge, view: View)
    requires s.pendingNotices != [] && s.wire.inFlight.None? && Able(s, view)
    ensures var t := PumpNotice(s, true).0; Moves(s, t) && Frames(t) + 1 == Frames(s) && Able(t, view)
  {
    NoticeLeaves(s);
    var t := PumpNotice(s, true).0;
    FrontIsSame(s, t);
    forall id: nat ensures RemainsAt(s, t, id) {
      NoticeLeavesDue(s, t, id);
    }
  }

  // ---------------------------------------------------------------- projections

  /** A projection frame is no notice. */
  lemma SnapshotLeaves(w: Wire, payload: Payload, snapshot: Snapshot, basis: Basis)
    requires !payload.NoticeFrame? && w.inFlight.None? && w.connected && w.nextRevision < U64_LIMIT - 1
    ensures var (t, good) := SendSnapshot(w, payload, snapshot, basis, true);
            && good && t.connected && t.nextRevision == w.nextRevision + 1
            && t.inFlight == Some(InFlight(w.nextRevision, None)) && NoticesIn(t.sent) == NoticesIn(w.sent)
  {
    NoticesAppend(w.sent, Frame(w.nextRevision, payload, 0, basis));
  }

  lemma PublishLeaves(w: Wire, snapshot: Snapshot, basis: Basis)
    requires w.inFlight.None? && w.connected && w.nextRevision < U64_LIMIT - 1
    ensures var (t, good) := PublishWire(w, snapshot, basis, true);
            && good && t.connected && NoticesIn(t.sent) == NoticesIn(w.sent)
            && (t.inFlight.Some? ==> t.inFlight.value.notice.None? && t.nextRevision == w.nextRevision + 1)
            && (t.inFlight.None? ==> t.nextRevision == w.nextRevision)
  {
    if w.lastSnapshot != Some(snapshot) {
      var delta := if w.lastSnapshot.Some? then Between(w.lastSnapshot.value, snapshot) else None;
      var payload := if delta.Some? then DeltaFrame(delta.value) else SnapshotFrame(Projection, snapshot);
      SnapshotLeaves(w, payload, snapshot, basis);
    }
  }

  /** A projection changes nothing of the notices. */
  lemma PublishMoves(s: Bridge, view: View)
    requires s.wire.inFlight.None? && Able(s, view) && s.projectionDirty
    ensures var t := Publish(s, view, true);
            && Moves(s, t) && Frames(t) + 1 == Frames(s) && Able(t, view)
            && t == s.(wire := t.wire, projectionDirty := false)
            && (t.wire.inFlight.Some? || t.wire.nextRevision == s.wire.nextRevision)
  {
    PublishLeaves(s.wire, view(Current(s)).value, Current(s));
    SilentDue(s, Publish(s, view, true));
  }

  /** Nothing that answers has changed. */
  lemma SilentDue(s: Bridge, t: Bridge)
    requires t.pendingNotices == s.pendingNotices && t.pendingResynchronization == s.pendingResynchronization
    requires InFlightAnswer(t.wire) == InFlightAnswer(s.wire)
    requires t.pendingRequests == s.pendingRequests
    ensures SameRemain(s, t)
  {
    forall id: nat ensures RemainsAt(s, t, id) {
      assert Due(t, id) <==> Due(s, id);
    }
  }

  lemma FrontReadyMoves(s: Bridge, view: View)
    requires s.pendingNotices != []
    ensures var t := FrontReady(s); Moves(s, t) && Frames(t) == Frames(s) && (Able(s, view) ==> Able(t, view))
  {
    var t := FrontReady(s);
    assert Notices(t.pendingNotices) == Notices(s.pendingNotices);
    forall id: nat ensures RemainsAt(s, t, id) {
      assert forall i :: 0 <= i < |s.pendingNotices| ==> t.pendingNotices[i].terminal == s.pendingNotices[i].terminal;
    }
  }

  /** The front notice, behind a projection frame if it waits for one. */
  lemma FrontMoves(s: Bridge, view: View)
    requires s.pendingNotices != [] && s.wire.inFlight.None? && Able(s, view)
    ensures var t := PumpFront(s, view, true).0; Moves(s, t) && Frames(t) < Frames(s) && Able(t, view)
  {
    if !s.pendingNotices[0].waitForProjection {
      NoticeMoves(s, view);
    } else if s.projectionDirty {
      PublishMoves(s, view);
      ReadyMoves(s, Publish(s, view, true), view);
    } else {
      FrontReadyMoves(s, view);
      NoticeMoves(FrontReady(s), view);
      MovesOn(s, FrontReady(s), PumpNotice(FrontReady(s), true).0);
    }
  }

  lemma ReadyMoves(s: Bridge, published: Bridge, view: View)
    requires Moves(s, published) && published.pendingNotices != [] && Able(published, view) && Frames(published) < Frames(s)
    ensures var t := if published.wire.inFlight.Some? then FrontReady(published)
                     else PumpNotice(FrontReady(published), true).0;
            Moves(s, t) && Frames(t) < Frames(s) && Able(t, view)
  {
    FrontReadyMoves(published, view);
    MovesOn(s, published, FrontReady(published));
    if published.wire.inFlight.None? {
      NoticeMoves(FrontReady(published), view);
      MovesOn(s, FrontReady(published), PumpNotice(FrontReady(published), true).0);
    }
  }

  /** The snapshot of a resynchronization leaves and its answer is queued behind everything else. */
  lemma ResynchronizationMoves(s: Bridge, view: View)
    requires s.pendingResynchronization.Some? && s.wire.inFlight.None? && Able(s, view)
    ensures var t := PumpResynchronization(s, view, true).0; Moves(s, t) && Frames(t) < Frames(s) && Able(t, view)
  {
    var t := PumpResynchronization(s, view, true).0;
    var entry := ResynchronizationLeaves(s, view);
    forall other: nat ensures RemainsAt(s, t, other) {
      QueuedAnswerDue(s, t, entry, other);
    }
  }

  lemma ResynchronizationLeaves(s: Bridge, view: View) returns (entry: QueuedNotice)
    requires s.pendingResynchronization.Some? && s.wire.inFlight.None? && Able(s, view)
    ensures var t := PumpResynchronization(s, view, true).0;
            && SameNotices(s, t) && Current(t) == Current(s) && t.wire.connected && t.pendingRequests == s.pendingRequests
            && t.pendingNotices == s.pendingNotices + [entry] && entry.terminal == s.pendingResynchronization
            && t.pendingResynchronization.None? && !t.projectionDirty && InFlightAnswer(t.wire).None?
            && t.wire.nextRevision == s.wire.nextRevision + 1
  {
    var id, snapshot := s.pendingResynchronization.value, view(Current(s)).value;
    SnapshotLeaves(s.wire, SnapshotFrame(Resynchronization, snapshot), snapshot, Current(s));
    var t := PumpResynchronization(s, view, true).0;
    entry := t.pendingNotices[|s.pendingNotices|];
    assert t.pendingNotices == s.pendingNotices + [entry] && entry.notice == CommandCommitted(id);
    assert Notices(t.pendingNotices) == Notices(s.pendingNotices) + [CommandCommitted(id)];
  }

  lemma QueuedAnswerDue(s: Bridge, t: Bridge, entry: QueuedNotice, id: nat)
    requires t.pendingNotices == s.pendingNotices + [entry] && entry.terminal == s.pendingResynchronization
    requires t.pendingResynchronization.None? && s.pendingResynchronization.Some?
    requires InFlightAnswer(s.wire).None? && InFlightAnswer(t.wire).None?
    ensures Due(t, id) <==> Due(s, id)
  {
    assert t.pendingNotices[|s.pendingNotices|] == entry;
    if i :| 0 <= i < |s.pendingNotices| && s.pendingNotices[i].terminal == Some(id) {
      assert t.pendingNotices[i].terminal == Some(id);
    }
  }

  // ---------------------------------------------------------------- rounds

  lemma PumpMoves(s: Bridge, view: View)
    requires s.wire.inFlight.None? && Able(s, view)
    ensures var t := Pump(s, view, true).0;
            Moves(s, t) && Able(t, view) && if Frames(s) == 0 then t == s else Frames(t) < Frames(s)
  {
    if s.pendingResynchronization.Some? {
      ResynchronizationMoves(s, view);
    } else if s.pendingNotices != [] {
      FrontMoves(s, view);
    } else if s.projectionDirty {
      PublishMoves(s, view);
    }
  }

  lemma SettleMoves(s: Bridge, view: View)
    requires s.wire.inFlight.Some?
    ensures var t := Settle(s, s.wire.inFlight.value.notice);
            Moves(s, t) && Frames(t) == Frames(s) && (Able(s, view) ==> Able(t, view))
  {
  }

  /** A round moves, and sends a frame while there is one to send. */
  ghost predicate Progresses(s: Bridge, t: Bridge, view: View) {
    && Moves(s, t) && Able(t, view)
    && (if Frames(s) == 0 then Delivered(t) else Frames(t) < Frames(s))
    && (Delivered(s) ==> t == s)
  }

  lemma RoundMoves(s: Bridge, view: View)
    requires Able(s, view)
    ensures Progresses(s, NextState(s, RoundStep(s), view), view)
  {
    if s.wire.inFlight.Some? {
      var settled := Settle(s, s.wire.inFlight.value.notice);
      SettleMoves(s, view);
      PumpMoves(settled, view);
      MovesOn(s, settled, NextState(s, RoundStep(s), view));
    } else {
      PumpMoves(s, view);
    }
  }

  /** Exactly what was queued has left, in its order, and exactly the requests with an answer due are released. */
  ghost predicate Delivers(s: Bridge, t: Bridge) {
    NoticesIn(t.wire.sent) == NoticesIn(s.wire.sent) + Queued(s) && forall id: nat :: ReleasedAt(s, t, id)
  }

  predicate ReleasedAt(s: Bridge, t: Bridge, id: nat) {
    id in t.pendingRequests <==> id in s.pendingRequests && !Due(s, id)
  }

  lemma DeliveredMeans(s: Bridge, t: Bridge)
    requires Moves(s, t) && Delivered(t)
    ensures Delivers(s, t)
  {
    assert Queued(t) == [];
    forall id: nat ensures ReleasedAt(s, t, id) {
      assert !Due(t, id) && RemainsAt(s, t, id);
    }
  }

  lemma DeliversBefore(s: Bridge, next: Bridge, t: Bridge)
    requires Moves(s, next) && Delivers(next, t)
    ensures Delivers(s, t)
  {
    forall id: nat ensures ReleasedAt(s, t, id) {
      assert RemainsAt(s, next, id) && ReleasedAt(next, t, id);
    }
  }

  /** What the rounds leave. */
  ghost predicate AllDelivered(s: Bridge, t: Bridge) {
    Delivered(t) && Current(t) == Current(s) && Delivers(s, t)
  }

  lemma AllDeliveredBefore(s: Bridge, next: Bridge, t: Bridge)
    requires Moves(s, next) && AllDelivered(next, t)
    ensures AllDelivered(s, t)
  {
    DeliversBefore(s, next, t);
  }

  lemma AllDeliveredNow(s: Bridge, t: Bridge)
    requires Moves(s, t) && Delivered(t)
    ensures AllDelivered(s, t)
  {
    DeliveredMeans(s, t);
  }

  lemma {:induction false} IterateDelivers(round: Bridge -> Bridge, s: Bridge, view: View, n: nat)
    requires forall r {:trigger round(r)} :: Able(r, view) ==> Progresses(r, round(r), view)
    requires Able(s, view) && Frames(s) < n
    ensures AllDelivered(s, Iterate(round, s, n))
    decreases n
  {
    if Frames(s) > 0 {
      IterateDelivers(round, round(s), view, n - 1);
      AllDeliveredBefore(s, round(s), Iterate(round, round(s), n - 1));
    } else {
      IterateRests(round, round(s), view, n - 1);
      AllDeliveredNow(s, round(s));
    }
  }

  lemma {:induction false} IterateRests(round: Bridge -> Bridge, s: Bridge, view: View, n: nat)
    requires forall r {:trigger round(r)} :: Able(r, view) ==> Progresses(r, round(r), view)
    requires Able(s, view) && Delivered(s)
    ensures Iterate(round, s, n) == s
    decreases n
  {
    if n > 0 {
      IterateRests(round, s, view, n - 1);
    }
  }

  /** After as many rounds as there are frames to send, and one more, everything is delivered and stays so. */
  lemma RoundsDeliver(s: Bridge, view: View, n: nat)
    requires Able(s, view) && Frames(s) < n
    ensures AllDelivered(s, Rounds(s, view, n))
  {
    forall r | Able(r, view) ensures Progresses(r, Round(view)(r), view) {
      RoundMoves(r, view);
    }
    IterateDelivers(Round(view), s, view, n);
  }

  // ---------------------------------------------------------------- rounds are steps

  function After(s: Bridge, steps: seq<Step>, view: View): (t: Bridge)
    decreases |steps|
  {
    if steps == [] then s else NextState(After(s, steps[..|steps| - 1], view), steps[|steps| - 1], view)
  }

  lemma {:induction false} AfterBoth(s: Bridge, first: seq<Step>, second: seq<Step>, view: View)
    ensures After(s, first + second, view) == After(After(s, first, view), second, view)
    decreases |second|
  {
    if second == [] {
      assert first + second == first;
    } else {
      var all := first + second;
      assert all[..|all| - 1] == first + second[..|second| - 1];
      AfterBoth(s, first, second[..|second| - 1], view);
    }
  }

  lemma {:induction false} RunIsAfter(steps: seq<Step>, view: View)
    ensures Run(steps, view) == After(INITIAL, steps, view)
    decreases |steps|
  {
    if steps != [] {
      RunIsAfter(steps[..|steps| - 1], view);
    }
  }

  /** A step of the projections or of the carrier: no new request, no new notice, no new channel. */
  predicate Carries(step: Step) {
    step.Change? || step.CancelToken? || step.Observe? || step.AcknowledgeStep? || step.TickStep?
  }

  predicate Carrying(steps: seq<Step>) {
    forall i :: 0 <= i < |steps| ==> Carries(steps[i])
  }

  lemma OneAfter(s: Bridge, step: Step, view: View)
    ensures After(s, [step], view) == NextState(s, step, view)
  {
    assert [step][..0] == [];
    assert After(s, [step][..0], view) == s;
  }

  lemma {:induction false} RoundsAreSteps(s: Bridge, view: View, n: nat) returns (steps: seq<Step>)
    ensures |steps| == n && Carrying(steps) && After(s, steps, view) == Rounds(s, view, n)
    decreases n
  {
    if n == 0 {
      steps := [];
    } else {
      var step := RoundStep(s);
      var next := Round(view)(s);
      OneAfter(s, step, view);
      var rest := RoundsAreSteps(next, view, n - 1);
      steps := [step] + rest;
      AfterBoth(s, [step], rest, view);
    }
  }

  // ---------------------------------------------------------------- reachable bridges

  /** A pending resynchronization always finds room for its answer. */
  lemma RoomForAnswer(s: Bridge)
    requires Bounded(s) && s.pendingResynchronization.Some?
    ensures |s.pendingNotices| < MAX_PENDING_NOTICES
  {
    ResynchronizationAnswered(s, s.pendingResynchronization.value);
  }

  /**
   In every run of an application that answers once: while the bridge is connected and its snapshot can be mapped,
   70 accepted and acknowledged frames deliver everything that is queued and release every request with an answer due.
   */
  lemma RunDelivers(steps: seq<Step>, view: View) returns (more: seq<Step>)
    requires AllowedRun(steps, view)
    requires Run(steps, view).wire.connected && view(Current(Run(steps, view))).Some?
    requires Run(steps, view).wire.nextRevision + 69 < U64_LIMIT
    ensures |more| == 70 && Carrying(more) && AllDelivered(Run(steps, view), Run(steps + more, view))
  {
    var s := Run(steps, view);
    QueuesStayBounded(steps, view);
    RunKeeps(steps, view);
    if s.pendingResynchronization.Some? {
      RoomForAnswer(s);
    }
    RoundsDeliver(s, view, 70);
    more := RoundsAreSteps(s, view, 70);
    AfterBoth(INITIAL, steps, more, view);
    RunIsAfter(steps, view);
    RunIsAfter(steps + more, view);
  }

  // ---------------------------------------------------------------- waiting for a projection

  /** The front notice waits for a projection that is still to be sent. */
  predicate Waiting(s: Bridge) {
    s.wire.connected && s.pendingNotices != [] && s.pendingNotices[0].waitForProjection && s.projectionDirty
  }

  /** The carrier has not moved. */
  predicate Unmoved(s: Bridge, t: Bridge) {
    && Waiting(t) && t.pendingNotices == s.pendingNotices && t.pendingResynchronization == s.pendingResynchronization
    && t.wire.nextRevision == s.wire.nextRevision
  }

  lemma HeldStep(s: Bridge, step: Step, view: View)
    requires Waiting(s) && Carries(step) && view(Current(s)).None?
    ensures Unmoved(s, NextState(s, step, view))
  {
  }

  /** While no snapshot can be mapped nothing moves. */
  lemma {:induction false} HeldWhile(s: Bridge, steps: seq<Step>, view: View)
    requires Waiting(s) && Carrying(steps)
    requires forall k {:trigger steps[..k]} :: 0 <= k < |steps| ==> view(Current(After(s, steps[..k], view))).None?
    ensures Unmoved(s, After(s, steps, view))
    decreases |steps|
  {
    if steps != [] {
      var front := steps[..|steps| - 1];
      forall k | 0 <= k < |front| ensures view(Current(After(s, front[..k], view))).None? {
        assert front[..k] == steps[..k];
      }
      HeldWhile(s, front, view);
      HeldStep(After(s, front, view), steps[|steps| - 1], view);
    }
  }

  /** The first state at which a snapshot can be mapped. */
  lemma FirstMapped(s: Bridge, steps: seq<Step>, view: View) returns (k: nat)
    requires view(Current(After(s, steps, view))).Some?
    ensures k <= |steps| && view(Current(After(s, steps[..k], view))).Some?
    ensures forall j {:trigger steps[..j]} :: 0 <= j < k ==> view(Current(After(s, steps[..j], view))).None?
  {
    k := 0;
    assert steps[..|steps|] == steps;
    while view(Current(After(s, steps[..k], view))).None?
      invariant k <= |steps|
      invariant forall j {:trigger steps[..j]} :: 0 <= j < k ==> view(Current(After(s, steps[..j], view))).None?
      decreases |steps| - k
    {
      k := k + 1;
    }
  }

  lemma DeliveredFrom(s: Bridge, t: Bridge, view: View) returns (rest: seq<Step>)
    requires Waiting(s) && s.wire.nextRevision + Frames(s) < U64_LIMIT && Unmoved(s, t) && view(Current(t)).Some?
    requires s.pendingResynchronization.Some? ==> |s.pendingNotices| < MAX_PENDING_NOTICES
    ensures Carrying(rest) && After(t, rest, view).pendingNotices == []
  {
    RoundsDeliver(t, view, Frames(t) + 1);
    rest := RoundsAreSteps(t, view, Frames(t) + 1);
  }

  /** Once a snapshot can be mapped the waiting notices are delivered. */
  lemma MappedIsDelivered(s: Bridge, steps: seq<Step>, view: View) returns (all: seq<Step>)
    requires Waiting(s) && s.wire.nextRevision + Frames(s) < U64_LIMIT && Carrying(steps)
    requires s.pendingResynchronization.Some? ==> |s.pendingNotices| < MAX_PENDING_NOTICES
    requires view(Current(After(s, steps, view))).Some?
    ensures Carrying(all) && After(s, all, view).pendingNotices == []
  {
    var k := FirstMapped(s, steps, view);
    var first := steps[..k];
    forall j | 0 <= j < |first| ensures view(Current(After(s, first[..j], view))).None? {
      assert first[..j] == steps[..j];
    }
    HeldWhile(s, first, view);
    var rest := DeliveredFrom(s, After(s, first, view), view);
    all := first + rest;
    AfterBoth(s, first, rest, view);
  }

  /**
   The queue behind a notice that waits for a projection is held in every continuation of the projections and the
   carrier if and only if no such continuation reaches a snapshot that can be mapped.
   */
  lemma HeldForeverIff(s: Bridge, view: View)
    requires Waiting(s) && s.wire.nextRevision + Frames(s) < U64_LIMIT
    requires s.pendingResynchronization.Some? ==> |s.pendingNotices| < MAX_PENDING_NOTICES
    ensures (forall steps | Carrying(steps) :: After(s, steps, view).pendingNotices == s.pendingNotices)
       <==> (forall steps | Carrying(steps) :: view(Current(After(s, steps, view))).None?)
  {
    if forall steps | Carrying(steps) :: view(Current(After(s, steps, view))).None? {
      forall steps | Carrying(steps) ensures After(s, steps, view).pendingNotices == s.pendingNotices {
        HeldWhile(s, steps, view);
      }
    } else {
      var steps :| Carrying(steps) && view(Current(After(s, steps, view))).Some?;
      var all := MappedIsDelivered(s, steps, view);
    }
  }
}
