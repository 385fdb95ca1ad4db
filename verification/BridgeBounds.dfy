/** Why the bridge's bounded queues never refuse: every queued notice owns a slot of its own. */
module BridgeBounds {
  import opened Lists
  import opened Text
  import opened Delta
  import opened Bridge

  datatype Slot = SignIn(id: nat) | Answer(id: nat) | Phase(phase: ShutdownState)

  function SlotOf(notice: Notice): (slot: Slot) {
    match notice
    case CommandCommitted(id) => Answer(id)
    case CommandRejected(id, _) => Answer(id)
    case Authentication(id, _) => SignIn(id)
    case Shutdown(phase) => Phase(phase)
  }

  predicate About(notice: Notice, id: nat) {
    !notice.Shutdown? && notice.requestId == id
  }

  // ---------------------------------------------------------------- counting slots

  function SignIns(pending: set<nat>): (slots: set<Slot>) {
    set id | id in pending :: SignIn(id)
  }

  function Answers(pending: set<nat>): (slots: set<Slot>) {
    set id | id in pending :: Answer(id)
  }

  function Universe(pending: set<nat>): (slots: set<Slot>) {
    SignIns(pending) + Answers(pending) + {Phase(Requested), Phase(Ready)}
  }

  lemma {:induction false} RequestSlots(pending: set<nat>)
    ensures |SignIns(pending)| == |pending| && |Answers(pending)| == |pending|
    decreases |pending|
  {
    if pending == {} {
      assert SignIns(pending) == {} && Answers(pending) == {};
    } else {
      var id :| id in pending;
      var rest := pending - {id};
      RequestSlots(rest);
      assert SignIns(pending) == SignIns(rest) + {SignIn(id)};
      assert Answers(pending) == Answers(rest) + {Answer(id)};
    }
  }

  lemma UniverseSize(pending: set<nat>)
    ensures |Universe(pending)| == 2 * |pending| + 2
  {
    RequestSlots(pending);
    assert SignIns(pending) !! Answers(pending);
    assert (SignIns(pending) + Answers(pending)) !! {Phase(Requested), Phase(Ready)};
  }

  ghost predicate OwnSlots(queue: seq<QueuedNotice>) {
    forall i, j :: 0 <= i < j < |queue| ==> SlotOf(queue[i].notice) != SlotOf(queue[j].notice)
  }

  function Slots(queue: seq<QueuedNotice>): (slots: set<Slot>) {
    set i | 0 <= i < |queue| :: SlotOf(queue[i].notice)
  }

  lemma {:induction false} SlotsSize(queue: seq<QueuedNotice>)
    requires OwnSlots(queue)
    ensures |Slots(queue)| == |queue|
  {
    if queue == [] {
      assert Slots(queue) == {};
    } else {
      var front := queue[..|queue| - 1];
      var last := SlotOf(queue[|queue| - 1].notice);
      SlotsSize(front);
      assert Slots(queue) == Slots(front) + {last};
      assert last !in Slots(front);
    }
  }

  // ---------------------------------------------------------------- the invariant

  /** A queued answer is the last word on its request, which stays pending until it is acknowledged. */
  predicate EntryOk(queued: QueuedNotice, pending: set<nat>, open: set<nat>) {
    && (!queued.notice.Shutdown? ==> queued.notice.requestId in pending)
    && (queued.notice.CommandCommitted? || queued.notice.CommandRejected? ==> queued.terminal == Some(queued.notice.requestId))
    && (queued.terminal.Some? ==> About(queued.notice, queued.terminal.value) && queued.terminal.value !in open)
  }

  ghost predicate QueueOk(queue: seq<QueuedNotice>, pending: set<nat>, open: set<nat>) {
    && OwnSlots(queue)
    && (forall i :: 0 <= i < |queue| ==> EntryOk(queue[i], pending, open))
    && (forall i, j :: 0 <= i < j < |queue| && queue[i].terminal.Some? ==> !About(queue[j].notice, queue[i].terminal.value))
  }

  /** Nothing queued is about this request. */
  ghost predicate Quiet(queue: seq<QueuedNotice>, id: nat) {
    forall i :: 0 <= i < |queue| ==> !About(queue[i].notice, id)
  }

  function InFlightAnswer(w: Wire): (id: Option<nat>) {
    if w.inFlight.Some? && w.inFlight.value.notice.Some? then w.inFlight.value.notice.value.terminal else None
  }

  ghost predicate PhasesOk(queue: seq<QueuedNotice>, requestedSent: bool, readySent: bool) {
    forall i :: 0 <= i < |queue| && queue[i].notice.Shutdown? ==>
      if queue[i].notice.phase == Requested then requestedSent else readySent
  }

  /** The requests, the queue, and the two requests that hold the wire: an answer in flight, a snapshot to be sent. */
  ghost predicate Sound(queue: seq<QueuedNotice>, pending: set<nat>, open: set<nat>, next: nat, answer: Option<nat>,
                        resynchronization: Option<nat>, requestedSent: bool, readySent: bool) {
    && |pending| <= MAX_PENDING_REQUESTS
    && open <= pending
    && (forall id :: id in pending ==> id < next)
    && QueueOk(queue, pending, open)
    && PhasesOk(queue, requestedSent, readySent)
    && (answer.Some? ==> Quiet(queue, answer.value) && answer.value in pending && answer.value !in open)
    && (resynchronization.Some? ==>
          && resynchronization.value in pending && resynchronization.value !in open
          && answer != resynchronization && Quiet(queue, resynchronization.value))
  }

  ghost predicate Bounded(s: Bridge) {
    Sound(s.pendingNotices, s.pendingRequests, s.past.open, s.nextRequestId, InFlightAnswer(s.wire),
          s.pendingResynchronization, s.requestedSent, s.readySent)
  }

  /** The queue never holds more than two notices a request and the two shutdown phases. */
  lemma QueueFits(queue: seq<QueuedNotice>, pending: set<nat>, open: set<nat>)
    requires QueueOk(queue, pending, open) && |pending| <= MAX_PENDING_REQUESTS
    ensures |queue| <= 2 * |pending| + 2 <= MAX_PENDING_NOTICES
  {
    SlotsSize(queue);
    UniverseSize(pending);
    forall slot | slot in Slots(queue)
      ensures slot in Universe(pending)
    {
      var i :| 0 <= i < |queue| && slot == SlotOf(queue[i].notice);
      assert EntryOk(queue[i], pending, open);
      assert slot.SignIn? ==> slot in SignIns(pending);
      assert slot.Answer? ==> slot in Answers(pending);
      assert slot.Phase? ==> slot.phase.Requested? || slot.phase.Ready?;
    }
    SubsetSize(Slots(queue), Universe(pending));
  }

  // ---------------------------------------------------------------- enqueueing

  /** What lets a notice in: a request still pending, and no earlier answer or phase in the same slot. */
  ghost predicate MayEnqueue(queue: seq<QueuedNotice>, entry: QueuedNotice, pending: set<nat>, open: set<nat>) {
    && EntryOk(entry, pending, open)
    && (forall i :: 0 <= i < |queue| ==>
          && (SlotOf(queue[i].notice) == SlotOf(entry.notice) ==> entry.notice.Authentication?)
          && (queue[i].terminal.Some? ==> !About(entry.notice, queue[i].terminal.value)))
  }

  /** Enqueueing never finds the queue full. */
  lemma EnqueueKeeps(queue: seq<QueuedNotice>, entry: QueuedNotice, pending: set<nat>, open: set<nat>)
    requires QueueOk(queue, pending, open) && |pending| <= MAX_PENDING_REQUESTS
    requires MayEnqueue(queue, entry, pending, open)
    ensures Enqueue(queue, entry).1
    ensures QueueOk(Enqueue(queue, entry).0, pending, open)
  {
    var index := if entry.notice.Authentication? then FindAuthentication(queue, entry.notice.requestId) else |queue|;
    if index < |queue| {
      assert queue[index].terminal.None? || !About(entry.notice, queue[index].terminal.value);
      assert queue[index].terminal.None?;
    } else {
      forall i | 0 <= i < |queue|
        ensures SlotOf(queue[i].notice) != SlotOf(entry.notice)
      {
        assert entry.notice.Authentication? ==> !IsAuthenticationOf(queue[i], entry.notice.requestId);
      }
      QueueFits(queue + [entry], pending, open);
    }
  }

  /** The notices after enqueueing are about the same requests, plus this one. */
  lemma EnqueueAbout(queue: seq<QueuedNotice>, entry: QueuedNotice, id: nat)
    requires Quiet(queue, id) && !About(entry.notice, id)
    ensures Quiet(Enqueue(queue, entry).0, id)
  {
  }

  lemma EnqueuePhases(queue: seq<QueuedNotice>, entry: QueuedNotice, requestedSent: bool, readySent: bool)
    requires PhasesOk(queue, requestedSent, readySent)
    requires entry.notice.Shutdown? ==> if entry.notice.phase == Requested then requestedSent else readySent
    ensures PhasesOk(Enqueue(queue, entry).0, requestedSent, readySent)
  {
  }

  lemma EnqueueSound(queue: seq<QueuedNotice>, entry: QueuedNotice, pending: set<nat>, open: set<nat>, next: nat,
                     answer: Option<nat>, resynchronization: Option<nat>, requestedSent: bool, readySent: bool)
    requires Sound(queue, pending, open, next, answer, resynchronization, requestedSent, readySent)
    requires MayEnqueue(queue, entry, pending, open)
    requires if entry.notice.Shutdown? then (if entry.notice.phase == Requested then requestedSent else readySent)
             else answer != Some(entry.notice.requestId) && resynchronization != Some(entry.notice.requestId)
    ensures Enqueue(queue, entry).1
    ensures Sound(Enqueue(queue, entry).0, pending, open, next, answer, resynchronization, requestedSent, readySent)
  {
    EnqueueKeeps(queue, entry, pending, open);
    EnqueuePhases(queue, entry, requestedSent, readySent);
    if answer.Some? {
      EnqueueAbout(queue, entry, answer.value);
    }
    if resynchronization.Some? {
      EnqueueAbout(queue, entry, resynchronization.value);
    }
  }

  /** Queueing an answer or a sign-in notice for a request that is neither in flight nor resynchronizing. */
  lemma QueueKeeps(s: Bridge, notice: Notice, terminal: Option<nat>)
    requires Bounded(s) && !notice.Shutdown?
    requires MayEnqueue(s.pendingNotices, QueuedNotice(notice, terminal, false, 0), s.pendingRequests, s.past.open)
    requires InFlightAnswer(s.wire) != Some(notice.requestId) && s.pendingResynchronization != Some(notice.requestId)
    ensures QueueNotice(s, notice, terminal).1
    ensures Bounded(QueueNotice(s, notice, terminal).0)
  {
    var entry := QueuedNotice(notice, terminal, s.projectionDirty && terminal.Some?, s.version);
    assert MayEnqueue(s.pendingNotices, entry, s.pendingRequests, s.past.open);
    EnqueueSound(s.pendingNotices, entry, s.pendingRequests, s.past.open, s.nextRequestId, InFlightAnswer(s.wire),
                 s.pendingResynchronization, s.requestedSent, s.readySent);
  }

  lemma ShutdownNoticeKeeps(s: Bridge, phase: ShutdownState)
    requires Bounded(s)
    ensures QueueShutdownNotice(s, phase).1
    ensures Bounded(QueueShutdownNotice(s, phase).0)
  {
    if !((phase == Requested && s.requestedSent) || (phase == Ready && s.readySent)) {
      var entry := QueuedNotice(Shutdown(phase), None, s.projectionDirty, s.version);
      PhaseFits(s, entry);
      EnqueueSound(s.pendingNotices, entry, s.pendingRequests, s.past.open, s.nextRequestId, InFlightAnswer(s.wire),
                   s.pendingResynchronization, s.requestedSent || phase == Requested, s.readySent || phase == Ready);
    }
  }

  lemma PhaseFits(s: Bridge, entry: QueuedNotice)
    requires Bounded(s) && entry.notice.Shutdown? && entry.terminal.None?
    requires if entry.notice.phase == Requested then !s.requestedSent else !s.readySent
    ensures MayEnqueue(s.pendingNotices, entry, s.pendingRequests, s.past.open)
    ensures Sound(s.pendingNotices, s.pendingRequests, s.past.open, s.nextRequestId, InFlightAnswer(s.wire),
                  s.pendingResynchronization, s.requestedSent || entry.notice.phase == Requested,
                  s.readySent || entry.notice.phase == Ready)
  {
  }

  // ---------------------------------------------------------------- the carrier

  /** A wire that carries no answer, as it is while no frame or only a projection frame is in flight. */
  lemma SilentWireKeeps(s: Bridge, w: Wire, dirty: bool)
    requires Bounded(s) && InFlightAnswer(w).None?
    ensures Bounded(s.(wire := w, projectionDirty := dirty))
  {
  }

  lemma FrontReadyKeeps(s: Bridge)
    requires Bounded(s) && s.pendingNotices != []
    ensures Bounded(FrontReady(s)) && SameRequests(s, FrontReady(s))
  {
    var t := FrontReady(s);
    assert forall i :: 0 <= i < |t.pendingNotices| ==>
      t.pendingNotices[i].notice == s.pendingNotices[i].notice && t.pendingNotices[i].terminal == s.pendingNotices[i].terminal;
    assert forall i :: 0 <= i < |t.pendingNotices| ==> EntryOk(s.pendingNotices[i], s.pendingRequests, s.past.open);
  }

  lemma PumpNoticeKeeps(s: Bridge, ok: bool)
    requires Bounded(s) && s.wire.inFlight.None? && s.pendingNotices != []
    ensures Bounded(PumpNotice(s, ok).0) && SameRequests(s, PumpNotice(s, ok).0)
    ensures PumpNotice(s, ok).0.pendingResynchronization == s.pendingResynchronization
  {
    var t := PumpNotice(s, ok).0;
    var queue, rest := s.pendingNotices, s.pendingNotices[1..];
    assert forall i :: 0 <= i < |rest| ==> rest[i] == queue[i + 1];
    assert EntryOk(queue[0], s.pendingRequests, s.past.open);
    assert QueueOk(rest, s.pendingRequests, s.past.open);
    if s.pendingResynchronization.Some? {
      assert !About(queue[0].notice, s.pendingResynchronization.value);
    }
  }

  /** What the carrier never touches. */
  predicate SameRequests(s: Bridge, t: Bridge) {
    t.pendingRequests == s.pendingRequests && t.nextRequestId == s.nextRequestId && t.past.open == s.past.open
  }

  lemma PublishKeeps(s: Bridge, view: View, ok: bool)
    requires Bounded(s) && s.wire.inFlight.None?
    ensures Bounded(Publish(s, view, ok)) && SameRequests(s, Publish(s, view, ok))
    ensures Publish(s, view, ok).pendingNotices == s.pendingNotices
    ensures Publish(s, view, ok).pendingResynchronization == s.pendingResynchronization
  {
    var t := Publish(s, view, ok);
    SilentWireKeeps(s, t.wire, t.projectionDirty);
  }

  lemma PumpFrontKeeps(s: Bridge, view: View, ok: bool)
    requires Bounded(s) && s.wire.inFlight.None? && s.pendingNotices != []
    ensures Bounded(PumpFront(s, view, ok).0) && SameRequests(s, PumpFront(s, view, ok).0)
    ensures PumpFront(s, view, ok).0.pendingResynchronization == s.pendingResynchronization
  {
    if !s.pendingNotices[0].waitForProjection {
      PumpNoticeKeeps(s, ok);
    } else {
      var published := if s.projectionDirty then Publish(s, view, ok) else s;
      PublishKeeps(s, view, ok);
      PumpReadyKeeps(published, ok);
    }
  }

  lemma PumpReadyKeeps(s: Bridge, ok: bool)
    requires Bounded(s) && s.pendingNotices != []
    ensures Bounded(FrontReady(s)) && SameRequests(s, FrontReady(s))
    ensures s.wire.inFlight.None? ==>
              var t := PumpNotice(FrontReady(s), ok).0;
              Bounded(t) && SameRequests(s, t) && t.pendingResynchronization == s.pendingResynchronization
  {
    FrontReadyKeeps(s);
    if s.wire.inFlight.None? {
      PumpNoticeKeeps(FrontReady(s), ok);
    }
  }

  /** The answer that follows a resynchronization snapshot always finds room. */
  lemma ResynchronizationAnswered(s: Bridge, id: nat)
    requires Bounded(s) && s.pendingResynchronization == Some(id)
    ensures var (t, good) := QueueNotice(s.(pendingResynchronization := None), CommandCommitted(id), Some(id));
            good && Bounded(t) && SameRequests(s, t) && t.pendingResynchronization.None?
  {
    QuietHasNoAnswer(s, id);
    QueueKeeps(s.(pendingResynchronization := None), CommandCommitted(id), Some(id));
  }

  /** A resynchronization snapshot that leaves is always followed by its answer. */
  lemma ResynchronizationKeeps(s: Bridge, view: View, ok: bool)
    requires Bounded(s) && s.wire.inFlight.None? && s.pendingResynchronization.Some?
    ensures var (t, good) := PumpResynchronization(s, view, ok);
            && Bounded(t) && SameRequests(s, t)
            && (if good then t.pendingResynchronization.None? else t.pendingResynchronization == s.pendingResynchronization)
            && (!good ==> InFlightAnswer(t.wire).None? && t.pendingNotices == s.pendingNotices)
  {
    if view(Current(s)).Some? {
      var snapshot := view(Current(s)).value;
      var (w, good) := SendSnapshot(s.wire, SnapshotFrame(Resynchronization, snapshot), snapshot, Current(s), ok);
      SilentWireKeeps(s, w, s.projectionDirty && !good);
      if good {
        ResynchronizationAnswered(SentSnapshot(s, w, good), s.pendingResynchronization.value);
      }
    }
  }

  lemma QuietHasNoAnswer(s: Bridge, id: nat)
    requires Bounded(s) && id in s.pendingRequests && id !in s.past.open && Quiet(s.pendingNotices, id)
    ensures forall wait, stamp ::
      MayEnqueue(s.pendingNotices, QueuedNotice(CommandCommitted(id), Some(id), wait, stamp), s.pendingRequests, s.past.open)
  {
    forall i | 0 <= i < |s.pendingNotices|
      ensures SlotOf(s.pendingNotices[i].notice) != Answer(id)
      ensures s.pendingNotices[i].terminal != Some(id)
    {
      assert !About(s.pendingNotices[i].notice, id);
      assert EntryOk(s.pendingNotices[i], s.pendingRequests, s.past.open);
    }
  }

  /** One turn of the carrier, which can only fail to send what it already had. */
  lemma PumpKeeps(s: Bridge, view: View, ok: bool)
    requires Bounded(s)
    ensures var (t, good) := Pump(s, view, ok);
            && Bounded(t) && SameRequests(s, t)
            && (!good ==> t.pendingResynchronization == s.pendingResynchronization)
  {
    if s.wire.inFlight.Some? || !s.wire.connected {
    } else if s.pendingResynchronization.Some? {
      ResynchronizationKeeps(s, view, ok);
    } else if s.pendingNotices == [] {
      PublishKeeps(s, view, ok);
    } else {
      PumpFrontKeeps(s, view, ok);
    }
  }

  // ---------------------------------------------------------------- application notices

  /** The application's notice for an open request is never dropped. */
  lemma OpenIsNotDropped(s: Bridge, notice: Notice)
    requires MaySend(s, notice) && s.past.open <= s.pendingRequests
    requires forall i :: 0 <= i < |s.pendingNotices| && s.pendingNotices[i].terminal.Some? ==>
               s.pendingNotices[i].terminal.value !in s.past.open
    requires InFlightAnswer(s.wire).Some? ==> InFlightAnswer(s.wire).value !in s.past.open
    ensures !Dropped(Sends(s, notice), notice)
  {
  }

  lemma QueuedIsNotOpen(s: Bridge)
    requires Bounded(s)
    ensures forall i :: 0 <= i < |s.pendingNotices| && s.pendingNotices[i].terminal.Some? ==>
              s.pendingNotices[i].terminal.value !in s.past.open
  {
    forall i | 0 <= i < |s.pendingNotices| && s.pendingNotices[i].terminal.Some?
      ensures s.pendingNotices[i].terminal.value !in s.past.open
    {
      assert EntryOk(s.pendingNotices[i], s.pendingRequests, s.past.open);
    }
  }

  /** The application spoke for an open request: its notice is queued, never dropped and never refused. */
  lemma HandleNoticeKeeps(s: Bridge, notice: Notice, view: View, ok: bool)
    requires Bounded(s) && MaySend(s, notice)
    ensures var (t, good) := HandleNotice(Sends(s, notice), notice, view, ok);
            && good && Bounded(t) && t.pendingRequests == s.pendingRequests && t.nextRequestId == s.nextRequestId
            && t.past.open == Sends(s, notice).past.open
  {
    QueuedIsNotOpen(s);
    OpenIsNotDropped(s, notice);
    ReadyToDeliver(s, notice, ObserveAll(Sends(s, notice)));
    DeliverKeeps(ObserveAll(Sends(s, notice)), notice, view, ok);
  }

  /** A notice that is not dropped finds its place once the projections have been observed. */
  lemma ReadyToDeliver(s: Bridge, notice: Notice, seen: Bridge)
    requires Bounded(s) && MaySend(s, notice) && seen == ObserveAll(Sends(s, notice))
    requires !Dropped(Sends(s, notice), notice)
    ensures Bounded(seen) && !notice.Shutdown?
    ensures MayEnqueue(seen.pendingNotices, QueuedNotice(notice, TerminalOf(notice), false, 0), seen.pendingRequests, seen.past.open)
    ensures InFlightAnswer(seen.wire) != Some(notice.requestId) && seen.pendingResynchronization != Some(notice.requestId)
    ensures SameRequests(Sends(s, notice), seen)
  {
    var said := Sends(s, notice);
    SendsKeeps(s, notice);
    SilentObserve(said);
    assert TerminalOf(notice).Some? ==> !TerminalOutstanding(s, TerminalOf(notice).value);
    SaidMayEnqueue(s, notice);
  }

  lemma DeliverKeeps(s: Bridge, notice: Notice, view: View, ok: bool)
    requires Bounded(s) && !notice.Shutdown?
    requires MayEnqueue(s.pendingNotices, QueuedNotice(notice, TerminalOf(notice), false, 0), s.pendingRequests, s.past.open)
    requires InFlightAnswer(s.wire) != Some(notice.requestId) && s.pendingResynchronization != Some(notice.requestId)
    ensures var (t, good) := Deliver(s, notice, view, ok);
            good && Bounded(t) && SameRequests(s, t)
  {
    QueueKeeps(s, notice, TerminalOf(notice));
    PumpKeeps(QueueNotice(s, notice, TerminalOf(notice)).0, view, ok);
  }

  lemma SaidMayEnqueue(s: Bridge, notice: Notice)
    requires Bounded(s) && MaySend(s, notice)
    requires TerminalOf(notice).Some? ==> !TerminalOutstanding(s, TerminalOf(notice).value)
    ensures InFlightAnswer(s.wire) != Some(notice.requestId) && s.pendingResynchronization != Some(notice.requestId)
    ensures MayEnqueue(s.pendingNotices, QueuedNotice(notice, TerminalOf(notice), false, 0),
                       s.pendingRequests, Sends(s, notice).past.open)
  {
    forall i | 0 <= i < |s.pendingNotices|
      ensures SlotOf(s.pendingNotices[i].notice) == SlotOf(notice) ==> notice.Authentication?
      ensures s.pendingNotices[i].terminal.Some? ==> !About(notice, s.pendingNotices[i].terminal.value)
    {
      assert EntryOk(s.pendingNotices[i], s.pendingRequests, s.past.open);
    }
  }

  lemma SendsKeeps(s: Bridge, notice: Notice)
    requires Bounded(s)
    ensures Bounded(Sends(s, notice))
  {
    var t := Sends(s, notice);
    forall i | 0 <= i < |s.pendingNotices|
      ensures EntryOk(t.pendingNotices[i], t.pendingRequests, t.past.open)
    {
      assert EntryOk(s.pendingNotices[i], s.pendingRequests, s.past.open);
    }
  }

  lemma SilentObserve(s: Bridge)
    requires Bounded(s)
    ensures Bounded(ObserveAll(s)) && SameRequests(s, ObserveAll(s))
    ensures ObserveAll(s).pendingNotices == s.pendingNotices && ObserveAll(s).wire == s.wire
    ensures ObserveAll(s).pendingResynchronization == s.pendingResynchronization
  {
  }

  lemma {:induction false} HandleNoticesKeeps(s: Bridge, notices: seq<Notice>, view: View, ok: bool)
    requires Bounded(s) && MaySendAll(s.past.open, notices)
    ensures var (t, good) := HandleNotices(s, notices, view, ok);
            good && Bounded(t) && t.pendingRequests == s.pendingRequests && t.nextRequestId == s.nextRequestId
    decreases |notices|
  {
    if notices != [] {
      HandleNoticeKeeps(s, notices[0], view, ok);
      HandleNoticesKeeps(HandleNotice(Sends(s, notices[0]), notices[0], view, ok).0, notices[1..], view, ok);
    }
  }

  // ---------------------------------------------------------------- shutdown and other requests

  lemma BeginShutdownKeeps(s: Bridge, command: Option<nat>, view: View, ok: bool)
    requires Bounded(s)
    requires command.Some? ==> command.value !in s.pendingRequests && command.value < s.nextRequestId
                               && |s.pendingRequests| < MAX_PENDING_REQUESTS
                               && Quiet(s.pendingNotices, command.value) && InFlightAnswer(s.wire) != command
    ensures Bounded(BeginShutdown(s, command, view, ok).0)
  {
    if !s.shutdownStarted {
      var started := Starting(s);
      var answered := started;
      if command.Some? {
        var asked := started.(pendingRequests := started.pendingRequests + {command.value});
        MoreRequests(started, command.value);
        QuietHasNoAnswer(asked, command.value);
        QueueKeeps(asked, CommandCommitted(command.value), command);
        answered := QueueNotice(asked, CommandCommitted(command.value), command).0;
      }
      ShutdownNoticeKeeps(answered, Requested);
      var requested := QueueShutdownNotice(answered, Requested).0;
      ShutdownNoticeKeeps(requested, Ready);
      PumpKeeps(QueueShutdownNotice(requested, Ready).0, view, ok);
    }
  }

  lemma MoreRequests(s: Bridge, id: nat)
    requires Bounded(s) && id !in s.pendingRequests && id < s.nextRequestId && |s.pendingRequests| < MAX_PENDING_REQUESTS
    ensures Bounded(s.(pendingRequests := s.pendingRequests + {id}))
  {
    forall i | 0 <= i < |s.pendingNotices|
      ensures EntryOk(s.pendingNotices[i], s.pendingRequests + {id}, s.past.open)
    {
      assert EntryOk(s.pendingNotices[i], s.pendingRequests, s.past.open);
    }
  }

  /** A fresh request identity occurs nowhere. */
  lemma FreshIsQuiet(s: Bridge, id: nat)
    requires Bounded(s) && id !in s.pendingRequests
    ensures Quiet(s.pendingNotices, id)
  {
    forall i | 0 <= i < |s.pendingNotices|
      ensures !About(s.pendingNotices[i].notice, id)
    {
      assert EntryOk(s.pendingNotices[i], s.pendingRequests, s.past.open);
    }
  }

  lemma IntentKeeps(s: Bridge, accepted: bool)
    requires Bounded(s)
    ensures Bounded(DispatchIntent(s, accepted).0)
  {
    var t := DispatchIntent(s, accepted).0;
    if t.pendingRequests != s.pendingRequests {
      var id := s.nextRequestId;
      FreshIsQuiet(s, id);
      MoreRequests(s.(nextRequestId := id + 1), id);
      forall i | 0 <= i < |s.pendingNotices|
        ensures EntryOk(s.pendingNotices[i], t.pendingRequests, t.past.open)
      {
        assert EntryOk(s.pendingNotices[i], s.pendingRequests, s.past.open);
        assert !About(s.pendingNotices[i].notice, id);
      }
    }
  }

  lemma AskKeeps(s: Bridge, id: nat)
    requires Bounded(s) && id !in s.pendingRequests && id < s.nextRequestId
    requires |s.pendingRequests| < MAX_PENDING_REQUESTS && s.pendingResynchronization.None?
    ensures Bounded(s.(pendingRequests := s.pendingRequests + {id}, pendingResynchronization := Some(id)))
  {
    FreshIsQuiet(s, id);
    MoreRequests(s, id);
  }

  lemma AskPumpKeeps(s: Bridge, id: nat, view: View, ok: bool)
    requires Bounded(s) && id !in s.pendingRequests && id < s.nextRequestId
    requires |s.pendingRequests| < MAX_PENDING_REQUESTS && s.pendingResynchronization.None?
    ensures Bounded(Ask(s, id, view, ok).0)
  {
    AskKeeps(s, id);
    var asked := s.(pendingRequests := s.pendingRequests + {id}, pendingResynchronization := Some(id));
    PumpKeeps(asked, view, ok);
    var (pumped, good) := Pump(asked, view, ok);
    if !good {
      WithdrawKeeps(pumped, id);
    }
  }

  lemma ResynchronizeKeeps(s: Bridge, view: View, ok: bool)
    requires Bounded(s)
    ensures Bounded(DispatchResynchronize(s, view, ok).0)
  {
    var (t, id) := IssueRequestId(s);
    if id.Some? && t.pendingResynchronization.None? && |t.pendingRequests| < MAX_PENDING_REQUESTS {
      AskPumpKeeps(t, id.value, view, ok);
    }
  }

  /** A resynchronization that could not be sent is withdrawn together with its request. */
  lemma WithdrawKeeps(s: Bridge, id: nat)
    requires Bounded(s) && s.pendingResynchronization == Some(id)
    ensures Bounded(WithdrawRequest(s, id))
  {
    RetireKeeps(s.(pendingResynchronization := None), s.wire, {id}, s.readyAcknowledged);
  }

  /** Requests that nothing queued or in flight is about may be forgotten. */
  lemma RetireKeeps(s: Bridge, w: Wire, done: set<nat>, acknowledged: bool)
    requires |s.pendingRequests| <= MAX_PENDING_REQUESTS && (forall id :: id in s.pendingRequests ==> id < s.nextRequestId)
    requires QueueOk(s.pendingNotices, s.pendingRequests, s.past.open) && PhasesOk(s.pendingNotices, s.requestedSent, s.readySent)
    requires forall id :: id in done ==> Quiet(s.pendingNotices, id) && id !in s.past.open && s.pendingResynchronization != Some(id)
    requires s.past.open <= s.pendingRequests
    requires InFlightAnswer(w).Some? ==>
               && Quiet(s.pendingNotices, InFlightAnswer(w).value) && InFlightAnswer(w).value !in s.past.open
               && InFlightAnswer(w).value in s.pendingRequests - done
    requires s.pendingResynchronization.Some? ==>
               && s.pendingResynchronization.value in s.pendingRequests && s.pendingResynchronization.value !in s.past.open
               && InFlightAnswer(w) != s.pendingResynchronization && Quiet(s.pendingNotices, s.pendingResynchronization.value)
    ensures Bounded(s.(wire := w, pendingRequests := s.pendingRequests - done, readyAcknowledged := acknowledged))
  {
    SubsetSize(s.pendingRequests - done, s.pendingRequests);
    forall i | 0 <= i < |s.pendingNotices|
      ensures EntryOk(s.pendingNotices[i], s.pendingRequests - done, s.past.open)
    {
      assert EntryOk(s.pendingNotices[i], s.pendingRequests, s.past.open);
      assert forall id :: id in done ==> !About(s.pendingNotices[i].notice, id);
    }
  }

  lemma AcknowledgeKeeps(s: Bridge, revision: nat, view: View, ok: bool)
    requires Bounded(s)
    ensures Bounded(Acknowledge(s, revision, view, ok).0)
  {
    if s.wire.inFlight.Some? && s.wire.inFlight.value.revision == revision {
      var settled := Settle(s, s.wire.inFlight.value.notice);
      var done := if InFlightAnswer(s.wire).Some? then {InFlightAnswer(s.wire).value} else {};
      RetireKeeps(s, settled.wire, done, settled.readyAcknowledged);
      PumpKeeps(settled, view, ok);
    }
  }

  lemma ShutdownKeeps(s: Bridge, drained: seq<Notice>, view: View, ok: bool)
    requires Bounded(s) && MaySendAll(s.past.open, drained)
    ensures Bounded(DispatchShutdown(s, drained, view, ok).0)
  {
    var (t, id) := IssueRequestId(s);
    if id.Some? && |t.pendingRequests| < MAX_PENDING_REQUESTS {
      HandleNoticesKeeps(t, drained, view, ok);
      var quiet := HandleNotices(t, drained, view, ok).0;
      FreshIsQuiet(quiet, id.value);
      BeginShutdownKeeps(quiet, id, view, ok);
    }
  }

  lemma ConnectKeeps(s: Bridge, view: View, ok: bool)
    requires Bounded(s)
    ensures Bounded(Connect(s, view, ok).0)
  {
    var t := Connect(s, view, ok).0;
    if s.wire.inFlight.None? {
      SilentWireKeeps(s, t.wire, t.projectionDirty);
    }
  }

  lemma StepKeeps(s: Bridge, step: Step, view: View)
    requires Bounded(s) && Allowed(s, step)
    ensures Bounded(NextState(s, step, view))
  {
    match step {
      case Change(watch) =>
      case CancelToken =>
      case Observe(watch) =>
      case ConnectStep(ok) => ConnectKeeps(s, view, ok);
      case IntentStep(accepted) => IntentKeeps(s, accepted);
      case ResynchronizeStep(ok) => ResynchronizeKeeps(s, view, ok);
      case ShutdownStep(drained, ok) => ShutdownKeeps(s, drained, view, ok);
      case TokenShutdownStep(drained, ok) =>
        HandleNoticesKeeps(s, drained, view, ok);
        BeginShutdownKeeps(HandleNotices(s, drained, view, ok).0, None, view, ok);
      case NoticeStep(notice, ok) => HandleNoticeKeeps(s, notice, view, ok);
      case AcknowledgeStep(revision, ok) => AcknowledgeKeeps(s, revision, view, ok);
      case TickStep(ok) => PumpKeeps(s, view, ok);
    }
  }

  // ---------------------------------------------------------------- runs

  /** A run in which the application keeps its promise at every step. */
  ghost predicate AllowedRun(steps: seq<Step>, view: View) {
    steps == [] ||
    (AllowedRun(steps[..|steps| - 1], view) && Allowed(Run(steps[..|steps| - 1], view), steps[|steps| - 1]))
  }

  lemma {:induction false} RunKeeps(steps: seq<Step>, view: View)
    requires AllowedRun(steps, view)
    ensures Bounded(Run(steps, view))
  {
    if steps != [] {
      RunKeeps(steps[..|steps| - 1], view);
      StepKeeps(Run(steps[..|steps| - 1], view), steps[|steps| - 1], view);
    }
  }

  /** For every run: at most 32 requests wait, at most two notices for each and two for shutdown. */
  lemma QueuesStayBounded(steps: seq<Step>, view: View)
    requires AllowedRun(steps, view)
    ensures var s := Run(steps, view);
            && |s.pendingRequests| <= MAX_PENDING_REQUESTS
            && |s.pendingNotices| <= 2 * |s.pendingRequests| + 2 <= MAX_PENDING_NOTICES
  {
    RunKeeps(steps, view);
    var s := Run(steps, view);
    QueueFits(s.pendingNotices, s.pendingRequests, s.past.open);
  }
}
