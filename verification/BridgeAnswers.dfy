/** Which requests the bridge answers and releases, which it keeps for good, and that it never refuses a notice. */
module BridgeAnswers {
  import opened Text
  import opened Delta
  import opened Bridge
  import opened BridgeBounds

  function AsSet(id: Option<nat>): (ids: set<nat>) {
    if id.Some? then {id.value} else {}
  }

  /** The requests that queued notices answer. */
  function Terminals(queue: seq<QueuedNotice>): (ids: set<nat>) {
    set i | 0 <= i < |queue| && queue[i].terminal.Some? :: queue[i].terminal.value
  }

  /** Requests with an answer under way: queued, in flight, or a snapshot still to be sent. */
  function Underway(queue: seq<QueuedNotice>, answer: Option<nat>, resynchronization: Option<nat>): (ids: set<nat>) {
    Terminals(queue) + AsSet(answer) + AsSet(resynchronization)
  }

  function Live(s: Bridge): (ids: set<nat>) {
    Underway(s.pendingNotices, InFlightAnswer(s.wire), s.pendingResynchronization)
  }

  /** A pending request is open, has an answer under way, is owed one, or is lost; nothing was ever refused. */
  ghost predicate Balanced(pending: set<nat>, past: Past, live: set<nat>, owed: set<nat>) {
    var lost := past.coalesced + past.abandoned;
    pending - past.open == live + lost + owed && live !! lost && owed !! live && owed !! lost && !past.busy
  }

  ghost predicate Owing(s: Bridge, owed: set<nat>) {
    Balanced(s.pendingRequests, s.past, Live(s), owed)
  }

  ghost predicate Accounted(s: Bridge) {
    Owing(s, {})
  }

  /** The application has given its final answer, and the answer was not coalesced. */
  predicate Closed(s: Bridge, id: nat) {
    && id < s.nextRequestId && id !in s.past.open && id !in s.past.coalesced && id !in s.past.abandoned
    && s.pendingResynchronization != Some(id)
  }

  /** Lost requests stay lost, and a closed one stays closed. */
  ghost predicate Grown(s: Bridge, t: Bridge) {
    && s.past.coalesced <= t.past.coalesced && s.past.abandoned <= t.past.abandoned
    && forall id :: Closed(s, id) ==> Closed(t, id)
  }

  /** A step that loses no request: it may open new ones and settle a resynchronization. */
  lemma GrownByFields(s: Bridge, t: Bridge)
    requires t.past.coalesced == s.past.coalesced && t.past.abandoned == s.past.abandoned && s.nextRequestId <= t.nextRequestId
    requires forall id :: id in t.past.open ==> id in s.past.open || s.nextRequestId <= id
    requires || t.pendingResynchronization.None? || t.pendingResynchronization == s.pendingResynchronization
             || s.nextRequestId <= t.pendingResynchronization.value
    ensures Grown(s, t)
  {
  }

  lemma GrownByNotice(s: Bridge, t: Bridge, lost: set<nat>)
    requires t.past.coalesced == s.past.coalesced + lost && lost <= s.past.open && t.past.abandoned == s.past.abandoned
    requires t.past.open <= s.past.open && t.nextRequestId == s.nextRequestId
    requires t.pendingResynchronization.None? || t.pendingResynchronization == s.pendingResynchronization
    ensures Grown(s, t)
  {
  }

  lemma GrownThrough(s: Bridge, m: Bridge, t: Bridge)
    requires Grown(s, m) && Grown(m, t)
    ensures Grown(s, t)
  {
  }

  // ---------------------------------------------------------------- the queue

  predicate Replaces(queue: seq<QueuedNotice>, notice: Notice) {
    notice.Authentication? && FindAuthentication(queue, notice.requestId) < |queue|
  }

  lemma AppendTerminals(queue: seq<QueuedNotice>, entry: QueuedNotice)
    ensures Terminals(queue + [entry]) == Terminals(queue) + AsSet(entry.terminal)
  {
    var all := queue + [entry];
    forall id | id in Terminals(queue) + AsSet(entry.terminal)
      ensures id in Terminals(all)
    {
      if id in Terminals(queue) {
        var i :| 0 <= i < |queue| && queue[i].terminal == Some(id);
        assert all[i].terminal == Some(id);
      } else {
        assert all[|queue|].terminal == Some(id);
      }
    }
  }

  lemma SameTerminals(queue: seq<QueuedNotice>, other: seq<QueuedNotice>)
    requires |queue| == |other| && forall i :: 0 <= i < |queue| ==> other[i].terminal == queue[i].terminal
    ensures Terminals(queue) == Terminals(other)
  {
    forall id ensures id in Terminals(queue) <==> id in Terminals(other) {
      if id in Terminals(queue) {
        var i :| 0 <= i < |queue| && queue[i].terminal == Some(id);
        assert other[i].terminal == Some(id);
      }
      if id in Terminals(other) {
        var i :| 0 <= i < |other| && other[i].terminal == Some(id);
        assert queue[i].terminal == Some(id);
      }
    }
  }

  lemma FirstTerminal(queue: seq<QueuedNotice>)
    requires queue != []
    ensures Terminals(queue) == Terminals(queue[1..]) + AsSet(queue[0].terminal)
  {
    forall id | id in Terminals(queue)
      ensures id in Terminals(queue[1..]) + AsSet(queue[0].terminal)
    {
      var i :| 0 <= i < |queue| && queue[i].terminal == Some(id);
      assert i > 0 ==> queue[1..][i - 1].terminal == Some(id);
    }
    forall id | id in Terminals(queue[1..])
      ensures id in Terminals(queue)
    {
      var i :| 0 <= i < |queue| - 1 && queue[1..][i].terminal == Some(id);
      assert queue[i + 1].terminal == Some(id);
    }
  }

  lemma EnqueueTerminals(queue: seq<QueuedNotice>, entry: QueuedNotice)
    requires Enqueue(queue, entry).1
    ensures Terminals(Enqueue(queue, entry).0)
         == if Replaces(queue, entry.notice) then Terminals(queue) else Terminals(queue) + AsSet(entry.terminal)
  {
    if Replaces(queue, entry.notice) {
      SameTerminals(queue, Enqueue(queue, entry).0);
    } else {
      AppendTerminals(queue, entry);
    }
  }

  /** A queued answer is under way, unless it replaced a sign-in notice: then its request is lost. */
  lemma QueueAccounts(s: Bridge, notice: Notice, terminal: Option<nat>)
    requires Owing(s, AsSet(terminal)) && QueueNotice(s, notice, terminal).1
    ensures Accounted(QueueNotice(s, notice, terminal).0)
    ensures QueueNotice(s, notice, terminal).0.past.coalesced
         == if Coalesces(s.pendingNotices, notice, terminal) then s.past.coalesced + AsSet(terminal) else s.past.coalesced
  {
    var wait := s.projectionDirty && (terminal.Some? || notice.Shutdown?);
    EnqueueTerminals(s.pendingNotices, QueuedNotice(notice, terminal, wait, s.version));
  }

  // ---------------------------------------------------------------- the carrier

  /** A wire that carries no answer, over the same queue and requests. */
  lemma SilentWireAccounts(s: Bridge, t: Bridge)
    requires Accounted(s) && InFlightAnswer(s.wire).None? && InFlightAnswer(t.wire).None?
    requires t.pendingNotices == s.pendingNotices && t.pendingResynchronization == s.pendingResynchronization
    requires t.pendingRequests == s.pendingRequests && t.past == s.past
    ensures Accounted(t)
  {
  }

  lemma PublishAccounts(s: Bridge, view: View, ok: bool)
    requires Accounted(s) && s.wire.inFlight.None?
    ensures Accounted(Publish(s, view, ok)) && Publish(s, view, ok).past == s.past
  {
    SilentWireAccounts(s, Publish(s, view, ok));
  }

  /** The front answer moves from the queue into flight. */
  lemma PumpNoticeAccounts(s: Bridge, ok: bool)
    requires Accounted(s) && s.wire.inFlight.None? && s.pendingNotices != []
    ensures Accounted(PumpNotice(s, ok).0) && PumpNotice(s, ok).0.past == s.past
  {
    FirstTerminal(s.pendingNotices);
  }

  lemma FrontReadyAccounts(s: Bridge)
    requires Accounted(s) && s.pendingNotices != []
    ensures Accounted(FrontReady(s)) && FrontReady(s).past == s.past
  {
    SameTerminals(s.pendingNotices, FrontReady(s).pendingNotices);
  }

  lemma PumpFrontAccounts(s: Bridge, view: View, ok: bool)
    requires Accounted(s) && s.wire.inFlight.None? && s.pendingNotices != []
    ensures Accounted(PumpFront(s, view, ok).0) && PumpFront(s, view, ok).0.past == s.past
  {
    if !s.pendingNotices[0].waitForProjection {
      PumpNoticeAccounts(s, ok);
    } else {
      PublishAccounts(s, view, ok);
      var published := if s.projectionDirty then Publish(s, view, ok) else s;
      FrontReadyAccounts(published);
      if published.wire.inFlight.None? {
        PumpNoticeAccounts(FrontReady(published), ok);
      }
    }
  }

  /** The answer to a resynchronization is queued right behind its snapshot: there is always room. */
  lemma ResynchronizationAccounts(s: Bridge, view: View, ok: bool)
    requires Bounded(s) && Accounted(s) && s.wire.inFlight.None? && s.pendingResynchronization.Some?
    ensures Accounted(PumpResynchronization(s, view, ok).0) && PumpResynchronization(s, view, ok).0.past == s.past
  {
    if view(Current(s)).Some? {
      var id := s.pendingResynchronization.value;
      var snapshot := view(Current(s)).value;
      var (w, good) := SendSnapshot(s.wire, SnapshotFrame(Resynchronization, snapshot), snapshot, Current(s), ok);
      var sent := SentSnapshot(s, w, good);
      SilentWireAccounts(s, sent);
      if good {
        SilentWireKeeps(s, w, s.projectionDirty && !good);
        AnswerResynchronization(sent, id);
      }
    }
  }

  lemma AnswerResynchronization(s: Bridge, id: nat)
    requires Bounded(s) && Accounted(s) && s.pendingResynchronization == Some(id)
    ensures var t := QueueNotice(s.(pendingResynchronization := None), CommandCommitted(id), Some(id)).0;
            Accounted(t) && t.past == s.past
  {
    ResynchronizationAnswered(s, id);
    NotUnderway(s, id);
    ResynchronizationOwed(s, id);
    QueueAccounts(s.(pendingResynchronization := None), CommandCommitted(id), Some(id));
  }

  lemma NotUnderway(s: Bridge, id: nat)
    requires Bounded(s) && s.pendingResynchronization == Some(id)
    ensures id !in Terminals(s.pendingNotices) && InFlightAnswer(s.wire) != Some(id)
  {
    assert forall i :: 0 <= i < |s.pendingNotices| ==> EntryOk(s.pendingNotices[i], s.pendingRequests, s.past.open);
  }

  lemma ResynchronizationOwed(s: Bridge, id: nat)
    requires Accounted(s) && s.pendingResynchronization == Some(id)
    requires id !in Terminals(s.pendingNotices) && InFlightAnswer(s.wire) != Some(id)
    ensures Owing(s.(pendingResynchronization := None), {id})
  {
    assert Live(s.(pendingResynchronization := None)) == Live(s) - {id};
  }

  /** One turn keeps the requests, and a resynchronization either waits on or is answered. */
  lemma PumpSettlesResynchronization(s: Bridge, view: View, ok: bool)
    requires Bounded(s)
    ensures var t := Pump(s, view, ok).0;
            && SameRequests(s, t)
            && (t.pendingResynchronization.None? || t.pendingResynchronization == s.pendingResynchronization)
  {
    if s.wire.inFlight.Some? || !s.wire.connected {
    } else if s.pendingResynchronization.Some? {
      ResynchronizationKeeps(s, view, ok);
    } else if s.pendingNotices == [] {
      PublishKeeps(s, view, ok);
    } else {
      PumpFrontKeeps(s, view, ok);
    }
  }

  lemma PumpAccounts(s: Bridge, view: View, ok: bool)
    requires Bounded(s) && Accounted(s)
    ensures Accounted(Pump(s, view, ok).0) && Pump(s, view, ok).0.past == s.past && Grown(s, Pump(s, view, ok).0)
  {
    PumpSettlesResynchronization(s, view, ok);
    if s.wire.inFlight.Some? || !s.wire.connected {
    } else if s.pendingResynchronization.Some? {
      ResynchronizationAccounts(s, view, ok);
    } else if s.pendingNotices == [] {
      PublishAccounts(s, view, ok);
    } else {
      PumpFrontAccounts(s, view, ok);
    }
  }

  // ---------------------------------------------------------------- application notices

  /** What an open request's final notice adds to the lost ones. */
  function Loses(s: Bridge, notice: Notice): (ids: set<nat>) {
    if Coalesces(s.pendingNotices, notice, TerminalOf(notice)) then {TerminalOf(notice).value} else {}
  }

  lemma SendsOwes(s: Bridge, notice: Notice)
    requires Accounted(s) && s.past.open <= s.pendingRequests && MaySend(s, notice)
    ensures Owing(Sends(s, notice), AsSet(TerminalOf(notice)))
  {
    if TerminalOf(notice).Some? {
      Answered(s.pendingRequests, s.past, Live(s), notice.requestId);
    }
  }

  lemma Answered(pending: set<nat>, past: Past, live: set<nat>, id: nat)
    requires Balanced(pending, past, live, {}) && past.open <= pending && id in past.open
    ensures Balanced(pending, past.(open := past.open - {id}), live, {id})
  {
    assert pending - (past.open - {id}) == pending - past.open + {id};
  }

  lemma ObserveOwes(s: Bridge, owed: set<nat>)
    requires Owing(s, owed)
    ensures Owing(ObserveAll(s), owed)
  {
  }

  lemma ObserveIsSame(s: Bridge)
    ensures var t := ObserveAll(s);
            && t.past == s.past && t.pendingNotices == s.pendingNotices && t.nextRequestId == s.nextRequestId
            && t.pendingResynchronization == s.pendingResynchronization
  {
  }

  lemma SeenIsSame(s: Bridge, notice: Notice)
    ensures var seen := ObserveAll(Sends(s, notice));
            && Loses(seen, notice) == Loses(s, notice)
            && seen.past.coalesced == s.past.coalesced && seen.past.abandoned == s.past.abandoned
            && seen.past.open == Sends(s, notice).past.open <= s.past.open && seen.nextRequestId == s.nextRequestId
            && seen.pendingResynchronization == s.pendingResynchronization
  {
    ObserveIsSame(Sends(s, notice));
  }

  lemma DeliverAccounts(s: Bridge, notice: Notice, view: View, ok: bool)
    requires Bounded(s) && Owing(s, AsSet(TerminalOf(notice))) && !notice.Shutdown?
    requires MayEnqueue(s.pendingNotices, QueuedNotice(notice, TerminalOf(notice), false, 0), s.pendingRequests, s.past.open)
    requires InFlightAnswer(s.wire) != Some(notice.requestId) && s.pendingResynchronization != Some(notice.requestId)
    ensures var t := Deliver(s, notice, view, ok).0;
            && Accounted(t) && t.past.coalesced == s.past.coalesced + Loses(s, notice)
            && t.past.abandoned == s.past.abandoned && SameRequests(s, t)
            && (t.pendingResynchronization.None? || t.pendingResynchronization == s.pendingResynchronization)
  {
    QueueKeeps(s, notice, TerminalOf(notice));
    QueueAccounts(s, notice, TerminalOf(notice));
    PumpAccounts(QueueNotice(s, notice, TerminalOf(notice)).0, view, ok);
    PumpSettlesResynchronization(QueueNotice(s, notice, TerminalOf(notice)).0, view, ok);
  }

  /** The application spoke for an open request: only a coalesced sign-in is lost. */
  lemma HandleNoticeAccounts(s: Bridge, notice: Notice, view: View, ok: bool)
    requires Bounded(s) && Accounted(s) && MaySend(s, notice)
    ensures var t := HandleNotice(Sends(s, notice), notice, view, ok).0;
            && Accounted(t) && t.past.coalesced == s.past.coalesced + Loses(s, notice)
            && t.past.abandoned == s.past.abandoned && Grown(s, t)
            && t.past.open == Sends(s, notice).past.open && t.nextRequestId == s.nextRequestId
            && (t.pendingResynchronization.None? || t.pendingResynchronization == s.pendingResynchronization)
  {
    var seen := ObserveAll(Sends(s, notice));
    SendsOwes(s, notice);
    ObserveOwes(Sends(s, notice), AsSet(TerminalOf(notice)));
    QueuedIsNotOpen(s);
    OpenIsNotDropped(s, notice);
    ReadyToDeliver(s, notice, seen);
    SeenIsSame(s, notice);
    DeliverAccounts(seen, notice, view, ok);
    GrownByNotice(s, Deliver(seen, notice, view, ok).0, Loses(s, notice));
  }

  lemma {:induction false} HandleNoticesAccounts(s: Bridge, notices: seq<Notice>, view: View, ok: bool)
    requires Bounded(s) && Accounted(s) && MaySendAll(s.past.open, notices)
    ensures var t := HandleNotices(s, notices, view, ok).0;
            Accounted(t) && Grown(s, t)
    decreases |notices|
  {
    if notices != [] {
      HandleNoticeAccounts(s, notices[0], view, ok);
      HandleNoticeKeeps(s, notices[0], view, ok);
      HandleNoticesAccounts(HandleNotice(Sends(s, notices[0]), notices[0], view, ok).0, notices[1..], view, ok);
    }
  }

  // ---------------------------------------------------------------- requests and shutdown

  lemma PhaseAccounts(s: Bridge, phase: ShutdownState)
    requires Bounded(s) && Accounted(s)
    ensures Accounted(QueueShutdownNotice(s, phase).0) && Grown(s, QueueShutdownNotice(s, phase).0)
  {
    if !((phase == Requested && s.requestedSent) || (phase == Ready && s.readySent)) {
      ShutdownNoticeKeeps(s, phase);
      QueueAccounts(s, Shutdown(phase), None);
    }
  }

  lemma AnnounceAccounts(s: Bridge, view: View, ok: bool)
    requires Bounded(s) && Accounted(s)
    ensures Accounted(Announce(s, view, ok).0) && Grown(s, Announce(s, view, ok).0)
  {
    PhaseAccounts(s, Requested);
    ShutdownNoticeKeeps(s, Requested);
    var requested := QueueShutdownNotice(s, Requested).0;
    PhaseAccounts(requested, Ready);
    ShutdownNoticeKeeps(requested, Ready);
    PumpAccounts(QueueShutdownNotice(requested, Ready).0, view, ok);
  }

  lemma StartingAccounts(s: Bridge)
    requires Bounded(s) && Accounted(s)
    ensures Bounded(Starting(s)) && Accounted(Starting(s)) && Grown(s, Starting(s))
  {
    if s.pendingResynchronization.Some? {
      var id := s.pendingResynchronization.value;
      assert forall i :: 0 <= i < |s.pendingNotices| ==> EntryOk(s.pendingNotices[i], s.pendingRequests, s.past.open);
      assert id !in Terminals(s.pendingNotices);
    }
  }

  lemma CommandQueues(s: Bridge, id: nat)
    requires Bounded(s) && id !in s.pendingRequests && id < s.nextRequestId && |s.pendingRequests| < MAX_PENDING_REQUESTS
    requires Quiet(s.pendingNotices, id) && InFlightAnswer(s.wire) != Some(id) && s.pendingResynchronization.None?
    ensures var (t, good) := QueueNotice(s.(pendingRequests := s.pendingRequests + {id}), CommandCommitted(id), Some(id));
            good && Bounded(t)
  {
    var asked := s.(pendingRequests := s.pendingRequests + {id});
    MoreRequests(s, id);
    QuietHasNoAnswer(asked, id);
    QueueKeeps(asked, CommandCommitted(id), Some(id));
  }

  lemma CommandOwed(pending: set<nat>, past: Past, live: set<nat>, id: nat)
    requires Balanced(pending, past, live, {}) && id !in pending && past.open <= pending
    ensures Balanced(pending + {id}, past, live, {id})
  {
    assert pending + {id} - past.open == pending - past.open + {id};
  }

  lemma AnswerCommand(s: Bridge, id: nat)
    requires Bounded(s) && Accounted(s) && id !in s.pendingRequests && id < s.nextRequestId
    requires |s.pendingRequests| < MAX_PENDING_REQUESTS && Quiet(s.pendingNotices, id) && InFlightAnswer(s.wire) != Some(id)
    requires s.pendingResynchronization.None?
    ensures var asked := s.(pendingRequests := s.pendingRequests + {id});
            var (t, good) := QueueNotice(asked, CommandCommitted(id), Some(id));
            good && Bounded(t) && Accounted(t) && Grown(s, t)
  {
    CommandQueues(s, id);
    CommandOwed(s.pendingRequests, s.past, Live(s), id);
    QueueAccounts(s.(pendingRequests := s.pendingRequests + {id}), CommandCommitted(id), Some(id));
  }

  lemma BeginShutdownAccounts(s: Bridge, command: Option<nat>, view: View, ok: bool)
    requires Bounded(s) && Accounted(s)
    requires command.Some? ==> command.value !in s.pendingRequests && command.value < s.nextRequestId
                               && |s.pendingRequests| < MAX_PENDING_REQUESTS
    ensures var t := BeginShutdown(s, command, view, ok).0; Accounted(t) && Grown(s, t)
  {
    if !s.shutdownStarted {
      StartingAccounts(s);
      var started := Starting(s);
      if command.Some? {
        FreshIsQuiet(started, command.value);
        AnswerCommand(started, command.value);
        var asked := started.(pendingRequests := started.pendingRequests + {command.value});
        AnnounceAccounts(QueueNotice(asked, CommandCommitted(command.value), command).0, view, ok);
      } else {
        AnnounceAccounts(started, view, ok);
      }
    }
  }

  lemma ShutdownAccounts(s: Bridge, drained: seq<Notice>, view: View, ok: bool)
    requires Bounded(s) && Accounted(s) && MaySendAll(s.past.open, drained)
    ensures var t := DispatchShutdown(s, drained, view, ok).0; Accounted(t) && Grown(s, t)
  {
    var (t, id) := IssueRequestId(s);
    if id.Some? && |t.pendingRequests| < MAX_PENDING_REQUESTS {
      HandleNoticesKeeps(t, drained, view, ok);
      HandleNoticesAccounts(t, drained, view, ok);
      BeginShutdownAccounts(HandleNotices(t, drained, view, ok).0, id, view, ok);
    }
  }

  lemma IntentAccounts(s: Bridge, accepted: bool)
    requires Accounted(s) && s.past.open <= s.pendingRequests && s.nextRequestId !in s.pendingRequests
    ensures Accounted(DispatchIntent(s, accepted).0)
  {
    Opened(s.pendingRequests, s.past, Live(s), s.nextRequestId);
  }

  lemma Opened(pending: set<nat>, past: Past, live: set<nat>, id: nat)
    requires Balanced(pending, past, live, {}) && id !in pending && past.open <= pending
    ensures Balanced(pending + {id}, past.(open := past.open + {id}), live, {})
  {
    assert pending + {id} - (past.open + {id}) == pending - past.open;
  }

  lemma IntentGrows(s: Bridge, accepted: bool)
    ensures Grown(s, DispatchIntent(s, accepted).0)
  {
    GrownByFields(s, DispatchIntent(s, accepted).0);
  }

  lemma AskedAccounts(s: Bridge, id: nat)
    requires Accounted(s) && s.past.open <= s.pendingRequests && id !in s.pendingRequests && s.pendingResynchronization.None?
    ensures Accounted(s.(pendingRequests := s.pendingRequests + {id}, pendingResynchronization := Some(id)))
  {
    var asked := s.(pendingRequests := s.pendingRequests + {id}, pendingResynchronization := Some(id));
    assert Live(asked) == Live(s) + {id};
    Joined(s.pendingRequests, s.past, Live(s), id);
  }

  lemma Joined(pending: set<nat>, past: Past, live: set<nat>, id: nat)
    requires Balanced(pending, past, live, {}) && id !in pending && past.open <= pending
    ensures Balanced(pending + {id}, past, live + {id}, {})
  {
    assert pending + {id} - past.open == pending - past.open + {id};
  }

  /** Asked for and sent, or withdrawn: a resynchronization is never lost while the bridge runs. */
  lemma AskAccounts(s: Bridge, id: nat, view: View, ok: bool)
    requires Bounded(s) && Accounted(s) && id !in s.pendingRequests && id < s.nextRequestId
    requires |s.pendingRequests| < MAX_PENDING_REQUESTS && s.pendingResynchronization.None?
    ensures var t := Ask(s, id, view, ok).0;
            && Accounted(t) && t.past == s.past && t.nextRequestId == s.nextRequestId
            && (t.pendingResynchronization.None? || t.pendingResynchronization == Some(id))
  {
    var asked := s.(pendingRequests := s.pendingRequests + {id}, pendingResynchronization := Some(id));
    AskKeeps(s, id);
    AskedAccounts(s, id);
    PumpAccounts(asked, view, ok);
    PumpKeeps(asked, view, ok);
    PumpSettlesResynchronization(asked, view, ok);
    if !Pump(asked, view, ok).1 {
      WithdrawAccounts(Pump(asked, view, ok).0, id);
    }
  }

  lemma WithdrawAccounts(s: Bridge, id: nat)
    requires Bounded(s) && Accounted(s) && s.pendingResynchronization == Some(id)
    ensures Accounted(WithdrawRequest(s, id)) && WithdrawRequest(s, id).past == s.past
  {
    assert forall i :: 0 <= i < |s.pendingNotices| ==> EntryOk(s.pendingNotices[i], s.pendingRequests, s.past.open);
    assert id !in Terminals(s.pendingNotices);
  }

  lemma IssueAccounts(s: Bridge)
    requires Bounded(s) && Accounted(s)
    ensures Bounded(IssueRequestId(s).0) && Accounted(IssueRequestId(s).0) && Grown(s, IssueRequestId(s).0)
    ensures IssueRequestId(s).0.past == s.past
  {
  }

  lemma ResynchronizeAccounts(s: Bridge, view: View, ok: bool)
    requires Bounded(s) && Accounted(s)
    ensures var t := DispatchResynchronize(s, view, ok).0; Accounted(t) && Grown(s, t)
  {
    if s.wire.connected && !s.shutdownStarted {
      var (t, id) := IssueRequestId(s);
      IssueAccounts(s);
      if id.Some? && t.pendingResynchronization.None? && |t.pendingRequests| < MAX_PENDING_REQUESTS {
        AskAccounts(t, id.value, view, ok);
        GrownByFields(s, Ask(t, id.value, view, ok).0);
      }
    }
  }

  /** No other answer is under way for the request of an answer in flight. */
  lemma AnswerIsAlone(s: Bridge)
    requires Bounded(s)
    ensures AsSet(InFlightAnswer(s.wire)) !! Terminals(s.pendingNotices)
    ensures AsSet(InFlightAnswer(s.wire)) !! AsSet(s.pendingResynchronization)
  {
    assert forall i :: 0 <= i < |s.pendingNotices| ==> EntryOk(s.pendingNotices[i], s.pendingRequests, s.past.open);
  }

  /** An acknowledged answer releases its request and nothing else. */
  lemma SettleAccounts(s: Bridge, queued: Option<QueuedNotice>)
    requires Accounted(s) && s.wire.inFlight.Some? && queued == s.wire.inFlight.value.notice
    requires AsSet(InFlightAnswer(s.wire)) !! Terminals(s.pendingNotices)
    requires AsSet(InFlightAnswer(s.wire)) !! AsSet(s.pendingResynchronization)
    ensures Accounted(Settle(s, queued)) && Grown(s, Settle(s, queued))
  {
    var done := AsSet(InFlightAnswer(s.wire));
    assert Live(Settle(s, queued)) == Live(s) - done;
    Released(s.pendingRequests, s.past, Live(s), done);
  }

  lemma Released(pending: set<nat>, past: Past, live: set<nat>, done: set<nat>)
    requires Balanced(pending, past, live, {}) && done <= live
    ensures Balanced(pending - done, past, live - done, {})
  {
  }

  lemma SettleKeeps(s: Bridge, queued: Option<QueuedNotice>)
    requires Bounded(s) && Accounted(s) && s.wire.inFlight.Some? && queued == s.wire.inFlight.value.notice
    ensures Bounded(Settle(s, queued)) && Accounted(Settle(s, queued)) && Grown(s, Settle(s, queued))
  {
    AnswerIsAlone(s);
    SettleAccounts(s, queued);
    RetireKeeps(s, Settle(s, queued).wire, AsSet(InFlightAnswer(s.wire)), Settle(s, queued).readyAcknowledged);
  }

  lemma AcknowledgeAccounts(s: Bridge, revision: nat, view: View, ok: bool)
    requires Bounded(s) && Accounted(s)
    ensures var t := Acknowledge(s, revision, view, ok).0; Accounted(t) && Grown(s, t)
  {
    if s.wire.inFlight.Some? && s.wire.inFlight.value.revision == revision {
      var settled := Settle(s, s.wire.inFlight.value.notice);
      SettleKeeps(s, s.wire.inFlight.value.notice);
      PumpAccounts(settled, view, ok);
      GrownThrough(s, settled, Pump(settled, view, ok).0);
    }
  }

  lemma ConnectAccounts(s: Bridge, view: View, ok: bool)
    requires Accounted(s)
    ensures var t := Connect(s, view, ok).0; Accounted(t) && Grown(s, t)
  {
    if s.wire.inFlight.None? {
      SilentWireAccounts(s, Connect(s, view, ok).0);
    }
  }

  // ---------------------------------------------------------------- every step

  lemma StepAccounts(s: Bridge, step: Step, view: View)
    requires Bounded(s) && Accounted(s) && Allowed(s, step)
    ensures Accounted(NextState(s, step, view)) && Grown(s, NextState(s, step, view))
  {
    match step {
      case Change(watch) =>
      case CancelToken =>
      case Observe(watch) =>
      case ConnectStep(ok) => ConnectAccounts(s, view, ok);
      case IntentStep(accepted) =>
        IntentAccounts(s, accepted);
        IntentGrows(s, accepted);
      case ResynchronizeStep(ok) => ResynchronizeAccounts(s, view, ok);
      case ShutdownStep(drained, ok) => ShutdownAccounts(s, drained, view, ok);
      case TokenShutdownStep(drained, ok) =>
        HandleNoticesKeeps(s, drained, view, ok);
        HandleNoticesAccounts(s, drained, view, ok);
        BeginShutdownAccounts(HandleNotices(s, drained, view, ok).0, None, view, ok);
      case NoticeStep(notice, ok) => HandleNoticeAccounts(s, notice, view, ok);
      case AcknowledgeStep(revision, ok) => AcknowledgeAccounts(s, revision, view, ok);
      case TickStep(ok) => PumpAccounts(s, view, ok);
    }
  }

  // ---------------------------------------------------------------- runs

  lemma {:induction false} RunAccounts(steps: seq<Step>, view: View)
    requires AllowedRun(steps, view)
    ensures Bounded(Run(steps, view)) && Accounted(Run(steps, view))
  {
    RunKeeps(steps, view);
    if steps != [] {
      var front := steps[..|steps| - 1];
      RunAccounts(front, view);
      StepAccounts(Run(front, view), steps[|steps| - 1], view);
    }
  }

  /** In every run no notice is refused: not the application's, an answer's, or a shutdown phase's. */
  lemma NothingIsRefused(steps: seq<Step>, view: View)
    requires AllowedRun(steps, view)
    ensures !Run(steps, view).past.busy
  {
    RunAccounts(steps, view);
  }

  /**
   After every run a request waits for one of five reasons: the application may still answer it, its answer
   is queued or in flight, its snapshot is to be sent, or it is lost; and no two reasons hold at once.
   */
  lemma WaitingIsAccounted(steps: seq<Step>, view: View)
    requires AllowedRun(steps, view)
    ensures var s := Run(steps, view);
            && s.past.open <= s.pendingRequests
            && s.pendingRequests - s.past.open == Terminals(s.pendingNotices) + AsSet(InFlightAnswer(s.wire))
                 + AsSet(s.pendingResynchronization) + (s.past.coalesced + s.past.abandoned)
            && Terminals(s.pendingNotices) !! AsSet(InFlightAnswer(s.wire)) !! AsSet(s.pendingResynchronization)
                 !! (s.past.coalesced + s.past.abandoned)
  {
    RunAccounts(steps, view);
    var s := Run(steps, view);
    AnswerIsAlone(s);
    if s.pendingResynchronization.Some? {
      assert forall i :: 0 <= i < |s.pendingNotices| ==> EntryOk(s.pendingNotices[i], s.pendingRequests, s.past.open);
      assert s.pendingResynchronization.value !in Terminals(s.pendingNotices);
    }
  }

  /** Nothing is queued or in flight, and no snapshot is to be sent. */
  predicate Settled(s: Bridge) {
    s.pendingNotices == [] && InFlightAnswer(s.wire).None? && s.pendingResynchronization.None?
  }

  /** What still waits then, beyond what the application may answer, is exactly what was lost. */
  lemma SettledLeavesLost(steps: seq<Step>, view: View)
    requires AllowedRun(steps, view) && Settled(Run(steps, view))
    ensures var s := Run(steps, view); s.pendingRequests - s.past.open == s.past.coalesced + s.past.abandoned
  {
    RunAccounts(steps, view);
    assert Terminals(Run(steps, view).pendingNotices) == {};
  }

  /** A continued run keeps what was lost and what was closed. */
  lemma {:induction false} RunGrows(before: seq<Step>, after: seq<Step>, view: View)
    requires AllowedRun(before + after, view)
    ensures AllowedRun(before, view) && Grown(Run(before, view), Run(before + after, view))
    decreases |after|
  {
    if after == [] {
      assert before + after == before;
    } else {
      var front := after[..|after| - 1];
      var all := before + after;
      assert all[..|all| - 1] == before + front && all[|all| - 1] == after[|after| - 1];
      RunGrows(before, front, view);
      RunAccounts(before + front, view);
      StepAccounts(Run(before + front, view), after[|after| - 1], view);
      GrownThrough(Run(before, view), Run(before + front, view), Run(all, view));
    }
  }

  /** A lost request waits forever: no acknowledgement, whenever it comes, releases it. */
  lemma LostForever(before: seq<Step>, after: seq<Step>, view: View)
    requires AllowedRun(before + after, view)
    ensures Run(before, view).past.coalesced + Run(before, view).past.abandoned <= Run(before + after, view).pendingRequests
  {
    RunGrows(before, after, view);
    RunAccounts(before + after, view);
  }

  /** A notice of this sign-in is still queued. */
  predicate SignInQueued(s: Bridge, id: nat) {
    exists i :: 0 <= i < |s.pendingNotices| && IsAuthenticationOf(s.pendingNotices[i], id)
  }

  lemma OpenIsNotLost(pending: set<nat>, past: Past, live: set<nat>)
    requires Balanced(pending, past, live, {})
    ensures past.open !! live && past.open !! past.coalesced && past.open !! past.abandoned
  {
  }

  /** A final notice is lost when it ends a sign-in of which a notice is queued; otherwise it closes its request. */
  lemma FinalNoticeFate(s: Bridge, notice: Notice, view: View, ok: bool)
    requires Bounded(s) && Accounted(s) && MaySend(s, notice) && TerminalOf(notice).Some?
    ensures var t := HandleNotice(Sends(s, notice), notice, view, ok).0;
            && (notice.requestId in t.past.coalesced <==> notice.Authentication? && SignInQueued(s, notice.requestId))
            && (notice.requestId !in t.past.coalesced ==> Closed(t, notice.requestId))
  {
    HandleNoticeAccounts(s, notice, view, ok);
    OpenIsNotLost(s.pendingRequests, s.past, Live(s));
    assert Loses(s, notice) == {notice.requestId} <==> notice.Authentication? && SignInQueued(s, notice.requestId);
  }

  lemma SettledPending(s: Bridge, id: nat)
    requires Accounted(s) && Settled(s)
    ensures id in s.past.coalesced ==> id in s.pendingRequests
    ensures Closed(s, id) ==> id !in s.pendingRequests
  {
    assert Live(s) == {};
    assert id in s.pendingRequests - s.past.open <==> id in s.past.coalesced + s.past.abandoned;
  }

  // ---------------------------------------------------------------- when a request is released

  /** The application notices that a step takes in: one, or those a shutdown finds in the channel. */
  function NoticesOf(step: Step): (notices: seq<Notice>) {
    match step
    case NoticeStep(notice, _) => [notice]
    case ShutdownStep(drained, _) => drained
    case TokenShutdownStep(drained, _) => drained
    case _ => []
  }

  predicate Accepted(step: Step) {
    match step
    case NoticeStep(_, ok) => ok
    case ShutdownStep(_, ok) => ok
    case TokenShutdownStep(_, ok) => ok
    case _ => false
  }

  /** The step does take its notices in: the bridge is not shutting down yet, and a command is admitted. */
  predicate Takes(s: Bridge, step: Step) {
    && !s.shutdownStarted
    && (step.ShutdownStep? ==>
          s.wire.connected && s.nextRequestId < U64_LIMIT - 1 && |s.pendingRequests| < MAX_PENDING_REQUESTS)
  }

  function Taking(s: Bridge, step: Step): (t: Bridge) {
    if step.ShutdownStep? then IssueRequestId(s).0 else s
  }

  /** The state in which the step takes its `i`-th notice. */
  function Arrival(s: Bridge, step: Step, i: nat, view: View): (t: Bridge)
    requires i <= |NoticesOf(step)|
  {
    HandleNotices(Taking(s, step), NoticesOf(step)[..i], view, Accepted(step)).0
  }

  /** A final notice that arrived at `s` has left its request lost, or closed, in `t`. */
  ghost predicate Fated(s: Bridge, notice: Notice, t: Bridge)
    requires !notice.Shutdown?
  {
    if notice.Authentication? && SignInQueued(s, notice.requestId) then notice.requestId in t.past.coalesced
    else Closed(t, notice.requestId)
  }

  lemma FatedGrows(s: Bridge, notice: Notice, t: Bridge, u: Bridge)
    requires !notice.Shutdown? && Fated(s, notice, t) && Grown(t, u)
    ensures Fated(s, notice, u)
  {
  }

  lemma TakeOne(s: Bridge, notices: seq<Notice>, view: View, ok: bool, next: Bridge)
    requires Bounded(s) && Accounted(s) && MaySendAll(s.past.open, notices) && notices != []
    requires next == HandleNotice(Sends(s, notices[0]), notices[0], view, ok).0
    ensures Bounded(next) && Accounted(next) && MaySendAll(next.past.open, notices[1..])
    ensures HandleNotices(s, notices, view, ok) == HandleNotices(next, notices[1..], view, ok)
    ensures TerminalOf(notices[0]).Some? ==> Fated(s, notices[0], next)
  {
    HandleNoticeKeeps(s, notices[0], view, ok);
    HandleNoticeAccounts(s, notices[0], view, ok);
    if TerminalOf(notices[0]).Some? {
      FinalNoticeFate(s, notices[0], view, ok);
    }
  }

  lemma DrainFirst(s: Bridge, notices: seq<Notice>, view: View, ok: bool)
    requires Bounded(s) && Accounted(s) && MaySendAll(s.past.open, notices)
    requires notices != [] && TerminalOf(notices[0]).Some?
    ensures Fated(s, notices[0], HandleNotices(s, notices, view, ok).0)
  {
    var next := HandleNotice(Sends(s, notices[0]), notices[0], view, ok).0;
    TakeOne(s, notices, view, ok, next);
    HandleNoticesAccounts(next, notices[1..], view, ok);
    FatedGrows(s, notices[0], next, HandleNotices(next, notices[1..], view, ok).0);
  }

  lemma {:induction false} DrainFate(s: Bridge, notices: seq<Notice>, i: nat, view: View, ok: bool)
    requires Bounded(s) && Accounted(s) && MaySendAll(s.past.open, notices)
    requires i < |notices| && TerminalOf(notices[i]).Some?
    ensures Fated(HandleNotices(s, notices[..i], view, ok).0, notices[i], HandleNotices(s, notices, view, ok).0)
    decreases i
  {
    if i == 0 {
      DrainFirst(s, notices, view, ok);
    } else {
      var next := HandleNotice(Sends(s, notices[0]), notices[0], view, ok).0;
      TakeOne(s, notices, view, ok, next);
      assert notices[..i][0] == notices[0] && notices[..i][1..] == notices[1..][..i - 1];
      TakePrefix(s, notices[..i], view, ok, next);
      DrainFate(next, notices[1..], i - 1, view, ok);
    }
  }

  lemma TakePrefix(s: Bridge, notices: seq<Notice>, view: View, ok: bool, next: Bridge)
    requires Bounded(s) && notices != [] && MaySend(s, notices[0])
    requires next == HandleNotice(Sends(s, notices[0]), notices[0], view, ok).0
    ensures HandleNotices(s, notices, view, ok) == HandleNotices(next, notices[1..], view, ok)
  {
    HandleNoticeKeeps(s, notices[0], view, ok);
  }

  lemma TakingAccounts(s: Bridge, step: Step)
    requires Bounded(s) && Accounted(s)
    ensures Bounded(Taking(s, step)) && Accounted(Taking(s, step)) && Taking(s, step).past == s.past
  {
    IssueAccounts(s);
  }

  /** What a step makes of each final notice it takes in. */
  lemma StepFate(s: Bridge, step: Step, i: nat, view: View)
    requires Bounded(s) && Accounted(s) && Allowed(s, step) && Takes(s, step)
    requires i < |NoticesOf(step)| && TerminalOf(NoticesOf(step)[i]).Some?
    ensures Fated(Arrival(s, step, i, view), NoticesOf(step)[i], NextState(s, step, view))
  {
    var taking, notices, ok := Taking(s, step), NoticesOf(step), Accepted(step);
    TakingAccounts(s, step);
    if step.NoticeStep? {
      FinalNoticeFate(s, step.notice, view, ok);
    } else {
      DrainFate(taking, notices, i, view, ok);
      HandleNoticesKeeps(taking, notices, view, ok);
      HandleNoticesAccounts(taking, notices, view, ok);
      ShutdownGrows(s, step, view, HandleNotices(taking, notices, view, ok).0);
      FatedGrows(Arrival(s, step, i, view), notices[i], HandleNotices(taking, notices, view, ok).0, NextState(s, step, view));
    }
  }

  /** What follows the drained notices only adds to the history. */
  lemma ShutdownGrows(s: Bridge, step: Step, view: View, quiet: Bridge)
    requires step.ShutdownStep? || step.TokenShutdownStep?
    requires Bounded(s) && Takes(s, step) && Bounded(quiet) && Accounted(quiet)
    requires HandleNotices(Taking(s, step), NoticesOf(step), view, Accepted(step)) == (quiet, true)
    requires quiet.pendingRequests == s.pendingRequests && quiet.nextRequestId == Taking(s, step).nextRequestId
    ensures Grown(quiet, NextState(s, step, view))
  {
    var command := if step.ShutdownStep? then Some(s.nextRequestId) else None;
    BeginShutdownAccounts(quiet, command, view, Accepted(step));
  }

  /**
   When is a request released? Its final notice is the `i`-th that some step of an allowed run takes in, from the
   channel or drained by a shutdown, and the run goes on until nothing is under way: then the request still waits
   if and only if the notice ended a sign-in of which a notice was still queued when it arrived. A committed or
   rejected answer therefore always releases its request.
   */
  lemma ReleasedIff(before: seq<Step>, step: Step, i: nat, after: seq<Step>, view: View)
    requires AllowedRun(before + [step] + after, view) && Takes(Run(before, view), step)
    requires i < |NoticesOf(step)| && TerminalOf(NoticesOf(step)[i]).Some?
    requires Settled(Run(before + [step] + after, view))
    ensures var notice := NoticesOf(step)[i];
            notice.requestId in Run(before + [step] + after, view).pendingRequests <==>
              (notice.Authentication? && SignInQueued(Arrival(Run(before, view), step, i, view), notice.requestId))
  {
    var said, notice := before + [step], NoticesOf(step)[i];
    assert said[..|said| - 1] == before;
    RunGrows(said, after, view);
    RunAccounts(before, view);
    StepFate(Run(before, view), step, i, view);
    FatedGrows(Arrival(Run(before, view), step, i, view), notice, Run(said, view), Run(said + after, view));
    RunAccounts(said + after, view);
    SettledPending(Run(said + after, view), notice.requestId);
  }
}
