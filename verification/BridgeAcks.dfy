/** Stop and wait: only the acknowledgement of its own revision releases a frame, and only an answer a request. */
module BridgeAcks {
  import opened Text
  import opened Delta
  import opened Bridge

  // ---------------------------------------------------------------- the invariant

  /** Revisions and request identities still to be issued are above all that were. */
  ghost predicate Issued(s: Bridge) {
    && (s.wire.inFlight.Some? ==> s.wire.inFlight.value.revision < s.wire.nextRevision)
    && (forall id :: id in s.pendingRequests ==> id < s.nextRequestId)
  }

  predicate SameRequests(s: Bridge, t: Bridge) {
    t.pendingRequests == s.pendingRequests && t.nextRequestId == s.nextRequestId
  }

  /** The sending side: a frame in flight stays, and what goes out on a free wire takes a new revision. */
  predicate WireCarried(w: Wire, v: Wire) {
    && w.nextRevision <= v.nextRevision
    && (w.inFlight.Some? ==> v == w)
    && (w.inFlight.None? && v.inFlight.Some? ==> w.nextRevision <= v.inFlight.value.revision < v.nextRevision)
  }

  /** What a turn of the carrier does: no request changes. */
  ghost predicate Carried(s: Bridge, t: Bridge) {
    SameRequests(s, t) && WireCarried(s.wire, t.wire)
  }

  lemma CarriedOn(s: Bridge, t: Bridge, u: Bridge)
    requires Carried(s, t) && Carried(t, u)
    ensures Carried(s, u)
  {
  }

  lemma SendCarries(w: Wire, payload: Payload, queued: Option<QueuedNotice>, basis: Basis, ok: bool)
    ensures WireCarried(w, Send(w, payload, queued, basis, ok).0) || w.inFlight.Some?
  {
  }

  lemma PublishCarries(s: Bridge, view: View, ok: bool)
    ensures Carried(s, Publish(s, view, ok)) && Publish(s, view, ok).pendingNotices == s.pendingNotices
  {
    if view(Current(s)).Some? {
      PublishWireCarries(s.wire, view(Current(s)).value, Current(s), ok);
    }
  }

  lemma PublishWireCarries(w: Wire, snapshot: Snapshot, basis: Basis, ok: bool)
    ensures WireCarried(w, PublishWire(w, snapshot, basis, ok).0)
  {
    var delta := if w.lastSnapshot.Some? then Between(w.lastSnapshot.value, snapshot) else None;
    var payload := if delta.Some? then DeltaFrame(delta.value) else SnapshotFrame(Projection, snapshot);
    SendCarries(w, payload, None, basis, ok);
  }

  lemma NoticeCarries(s: Bridge, ok: bool)
    requires s.pendingNotices != [] && s.wire.inFlight.None?
    ensures Carried(s, PumpNotice(s, ok).0)
  {
    var queued := s.pendingNotices[0];
    SendCarries(s.wire, NoticeFrame(queued.notice), Some(queued), s.wire.basis, ok);
  }

  lemma FrontCarries(s: Bridge, view: View, ok: bool)
    requires s.pendingNotices != [] && s.wire.inFlight.None?
    ensures Carried(s, PumpFront(s, view, ok).0)
  {
    if !s.pendingNotices[0].waitForProjection {
      NoticeCarries(s, ok);
    } else {
      var published := if s.projectionDirty then Publish(s, view, ok) else s;
      PublishCarries(s, view, ok);
      ReadyCarries(s, published, ok);
    }
  }

  lemma ReadyCarries(s: Bridge, published: Bridge, ok: bool)
    requires Carried(s, published) && published.pendingNotices != []
    ensures Carried(s, FrontReady(published))
    ensures published.wire.inFlight.None? ==> Carried(s, PumpNotice(FrontReady(published), ok).0)
  {
    if published.wire.inFlight.None? {
      NoticeCarries(FrontReady(published), ok);
      CarriedOn(s, FrontReady(published), PumpNotice(FrontReady(published), ok).0);
    }
  }

  lemma ResynchronizationCarries(s: Bridge, view: View, ok: bool)
    requires s.pendingResynchronization.Some? && s.wire.inFlight.None?
    ensures Carried(s, PumpResynchronization(s, view, ok).0)
  {
    if view(Current(s)).Some? {
      SendCarries(s.wire, SnapshotFrame(Resynchronization, view(Current(s)).value), None, Current(s), ok);
    }
  }

  lemma PumpCarries(s: Bridge, view: View, ok: bool)
    ensures Carried(s, Pump(s, view, ok).0)
  {
    if s.wire.inFlight.Some? || !s.wire.connected {
    } else if s.pendingResynchronization.Some? {
      ResynchronizationCarries(s, view, ok);
    } else if s.pendingNotices == [] {
      PublishCarries(s, view, ok);
    } else {
      FrontCarries(s, view, ok);
    }
  }

  lemma HandleNoticeCarries(s: Bridge, notice: Notice, view: View, ok: bool)
    ensures Carried(s, HandleNotice(s, notice, view, ok).0)
  {
    if !Dropped(s, notice) {
      var seen := ObserveAll(s);
      PumpCarries(QueueNotice(seen, notice, TerminalOf(notice)).0, view, ok);
    }
  }

  lemma {:induction false} HandleNoticesCarry(s: Bridge, notices: seq<Notice>, view: View, ok: bool)
    ensures Carried(s, HandleNotices(s, notices, view, ok).0)
    decreases |notices|
  {
    if notices != [] {
      HandleNoticeCarries(Sends(s, notices[0]), notices[0], view, ok);
      HandleNoticesCarry(HandleNotice(Sends(s, notices[0]), notices[0], view, ok).0, notices[1..], view, ok);
    }
  }

  lemma AnnounceCarries(s: Bridge, view: View, ok: bool)
    ensures Carried(s, Announce(s, view, ok).0)
  {
    var (requested, good) := QueueShutdownNotice(s, Requested);
    if good {
      PumpCarries(QueueShutdownNotice(requested, Ready).0, view, ok);
    }
  }

  /** Shutting down adds its own request and removes none. */
  lemma BeginShutdownCarries(s: Bridge, command: Option<nat>, view: View, ok: bool)
    requires command.Some? ==> command.value < s.nextRequestId
    ensures var t := BeginShutdown(s, command, view, ok).0;
            && s.pendingRequests <= t.pendingRequests && WireCarried(s.wire, t.wire)
            && (Issued(s) ==> Issued(t))
  {
    if !s.shutdownStarted {
      var started := Starting(s);
      if command.None? {
        AnnounceCarries(started, view, ok);
      } else {
        var asked := started.(pendingRequests := started.pendingRequests + {command.value});
        AnnounceCarries(QueueNotice(asked, CommandCommitted(command.value), command).0, view, ok);
      }
    }
  }

  // ---------------------------------------------------------------- one step

  /** The step acknowledges the frame in flight. */
  predicate Acknowledges(s: Bridge, step: Step) {
    step.AcknowledgeStep? && s.wire.inFlight.Some? && step.revision == s.wire.inFlight.value.revision
  }

  /** The frame in flight carries the answer of this request. */
  predicate CarriesAnswer(s: Bridge, id: nat) {
    && s.wire.inFlight.Some? && s.wire.inFlight.value.notice.Some?
    && s.wire.inFlight.value.notice.value.terminal == Some(id)
  }

  /** An acknowledgement of any other revision, or of nothing, changes nothing at all. */
  lemma StaleAcknowledgementIsIgnored(s: Bridge, revision: nat, ok: bool, view: View)
    requires s.wire.inFlight.None? || revision != s.wire.inFlight.value.revision
    ensures NextState(s, AcknowledgeStep(revision, ok), view) == s
  {
  }

  /** An acknowledged frame frees its slot and releases exactly the request that it answered. */
  lemma AcknowledgementSettles(s: Bridge, step: Step, view: View)
    requires Issued(s) && Acknowledges(s, step)
    ensures var t := NextState(s, step, view);
            && Issued(t) && t.wire.inFlight != s.wire.inFlight
            && forall id :: id in t.pendingRequests <==> id in s.pendingRequests && !CarriesAnswer(s, id)
  {
    var settled := Settle(s, s.wire.inFlight.value.notice);
    PumpCarries(settled, view, step.ok);
  }

  /** A frame in flight is left alone, with the whole sending side, and no request is released. */
  ghost predicate Waits(s: Bridge, t: Bridge) {
    Issued(t) && s.pendingRequests <= t.pendingRequests && (s.wire.inFlight.Some? ==> t.wire == s.wire)
  }

  /** Any step other than its acknowledgement waits for the frame in flight. */
  lemma OtherStepsWait(s: Bridge, step: Step, view: View)
    requires Issued(s) && !Acknowledges(s, step)
    ensures Waits(s, NextState(s, step, view))
  {
    match step {
      case ShutdownStep(drained, ok) => ShutdownWaits(s, drained, ok, view);
      case TokenShutdownStep(drained, ok) => TokenWaits(s, drained, ok, view);
      case NoticeStep(notice, ok) => HandleNoticeCarries(Sends(s, notice), notice, view, ok);
      case ResynchronizeStep(ok) => ResynchronizeWaits(s, ok, view);
      case TickStep(ok) => PumpCarries(s, view, ok);
      case _ => SimpleStepsWait(s, step, view);
    }
  }

  lemma ConnectWaits(s: Bridge, view: View, ok: bool)
    requires Issued(s)
    ensures Waits(s, Connect(s, view, ok).0)
  {
    if s.wire.inFlight.None? && view(Current(s)).Some? {
      var snapshot := view(Current(s)).value;
      SendCarries(s.wire.(connected := true, sent := []), SnapshotFrame(Initial, snapshot), None, Current(s), ok);
    }
  }

  lemma SimpleStepsWait(s: Bridge, step: Step, view: View)
    requires Issued(s) && !Acknowledges(s, step)
    requires step.Change? || step.CancelToken? || step.Observe? || step.ConnectStep? || step.IntentStep? || step.AcknowledgeStep?
    ensures Waits(s, NextState(s, step, view))
  {
    if step.ConnectStep? {
      ConnectWaits(s, view, step.ok);
    }
  }

  lemma TokenWaits(s: Bridge, drained: seq<Notice>, ok: bool, view: View)
    requires Issued(s)
    ensures Waits(s, TokenShutdown(s, drained, view, ok))
  {
    if !s.shutdownStarted {
      HandleNoticesCarry(s, drained, view, ok);
      BeginShutdownCarries(HandleNotices(s, drained, view, ok).0, None, view, ok);
    }
  }

  lemma ShutdownWaits(s: Bridge, drained: seq<Notice>, ok: bool, view: View)
    requires Issued(s)
    ensures Waits(s, DispatchShutdown(s, drained, view, ok).0)
  {
    var (t, id) := IssueRequestId(s);
    if id.Some? {
      HandleNoticesCarry(t, drained, view, ok);
      BeginShutdownCarries(HandleNotices(t, drained, view, ok).0, id, view, ok);
    }
  }

  /** A withdrawn resynchronization takes back its own request, which is new. */
  lemma ResynchronizeWaits(s: Bridge, ok: bool, view: View)
    requires Issued(s)
    ensures Waits(s, DispatchResynchronize(s, view, ok).0)
  {
    var (t, id) := IssueRequestId(s);
    if id.Some? {
      var asked := t.(pendingRequests := t.pendingRequests + {id.value}, pendingResynchronization := id);
      PumpCarries(asked, view, ok);
    }
  }

  lemma StepIssues(s: Bridge, step: Step, view: View)
    requires Issued(s)
    ensures Issued(NextState(s, step, view))
  {
    if Acknowledges(s, step) {
      AcknowledgementSettles(s, step, view);
    } else {
      OtherStepsWait(s, step, view);
    }
  }

  lemma {:induction false} RunIssues(steps: seq<Step>, view: View)
    ensures Issued(Run(steps, view))
    decreases |steps|
  {
    if steps != [] {
      RunIssues(steps[..|steps| - 1], view);
      StepIssues(Run(steps[..|steps| - 1], view), steps[|steps| - 1], view);
    }
  }

  // ---------------------------------------------------------------- runs

  /**
   After every run a frame in flight is released by the next step if and only if the step acknowledges its revision;
   until then the sending side does not change at all, so nothing is sent over it.
   */
  lemma ReleasedIffAcknowledged(steps: seq<Step>, step: Step, view: View)
    requires Run(steps, view).wire.inFlight.Some?
    ensures var s, t := Run(steps, view), Run(steps + [step], view);
            && (t.wire.inFlight != s.wire.inFlight <==> Acknowledges(s, step))
            && (!Acknowledges(s, step) ==> t.wire == s.wire)
  {
    RunIssues(steps, view);
    assert (steps + [step])[..|steps|] == steps;
    if Acknowledges(Run(steps, view), step) {
      AcknowledgementSettles(Run(steps, view), step, view);
    } else {
      OtherStepsWait(Run(steps, view), step, view);
    }
  }

  /** After every run a pending request leaves at the next step if and only if the frame with its answer is acknowledged. */
  lemma LeavesIffAnswered(steps: seq<Step>, step: Step, view: View, id: nat)
    requires id in Run(steps, view).pendingRequests
    ensures id !in Run(steps + [step], view).pendingRequests
       <==> Acknowledges(Run(steps, view), step) && CarriesAnswer(Run(steps, view), id)
  {
    RunIssues(steps, view);
    assert (steps + [step])[..|steps|] == steps;
    if Acknowledges(Run(steps, view), step) {
      AcknowledgementSettles(Run(steps, view), step, view);
    } else {
      OtherStepsWait(Run(steps, view), step, view);
    }
  }

  /** So a request that has left was answered by a frame that the renderer acknowledged. */
  lemma {:induction false} LeftMeansAnswered(before: seq<Step>, after: seq<Step>, view: View, id: nat) returns (k: nat)
    requires id in Run(before, view).pendingRequests && id !in Run(before + after, view).pendingRequests
    ensures k < |after|
    ensures Acknowledges(Run(before + after[..k], view), after[k]) && CarriesAnswer(Run(before + after[..k], view), id)
    decreases |after|
  {
    assert before + [] == before;
    var front := after[..|after| - 1];
    assert before + after == before + front + [after[|after| - 1]];
    if id in Run(before + front, view).pendingRequests {
      LeavesIffAnswered(before + front, after[|after| - 1], view, id);
      k := |after| - 1;
    } else {
      k := LeftMeansAnswered(before, front, view, id);
      assert front[..k] == after[..k];
    }
  }
}
