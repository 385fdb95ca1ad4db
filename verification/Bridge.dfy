/**
 The renderer bridge: a stop-and-wait carrier of snapshots, deltas and notices. One value of `Bridge` is
 the actor's fields; the last group of fields is history that no transition reads.
 */
module Bridge {
  import opened Text
  import opened Delta

  const MAX_PENDING_REQUESTS: nat := 32
  const MAX_PENDING_NOTICES: nat := MAX_PENDING_REQUESTS * 2 + 2

  datatype Watch = SessionWatch | SessionListWatch | CatalogWatch | ProfilesWatch | SettingsWatch | MemoriesWatch

  /** What a snapshot was mapped from: how many projection changes, which catalog generation, shutting down or not. */
  datatype Basis = Basis(version: nat, generation: nat, shuttingDown: bool)

  /** The snapshot that the projections map to, or nothing when they cannot be represented. */
  type View = Basis -> Option<Snapshot>

  /** A mapped snapshot went through the validating constructor. */
  predicate Validated(view: View, basis: Basis) {
    view(basis).Some? ==> ValidSnapshot(view(basis).value)
  }

  ghost predicate ValidView(view: View) {
    forall b {:trigger Validated(view, b)} :: Validated(view, b)
  }

  datatype QueuedNotice = QueuedNotice(notice: Notice, terminal: Option<nat>, waitForProjection: bool, stamp: nat)

  datatype InFlight = InFlight(revision: nat, notice: Option<QueuedNotice>)

  /** `stamp` and `basis` are history: what a notice had to wait for, and what the renderer then held. */
  datatype Frame = Frame(revision: nat, payload: Payload, stamp: nat, basis: Basis)

  /** The sending side; `sent` (the frames of the latest channel) and `basis` are history. */
  datatype Wire = Wire(
    connected: bool,
    lastSnapshot: Option<Snapshot>,
    nextRevision: nat,
    inFlight: Option<InFlight>,
    sent: seq<Frame>,
    basis: Basis)

  /**
   History of the requests: `open` are those the application may still answer, `coalesced` those whose final
   sign-in notice replaced a queued one, `abandoned` the resynchronizations dropped by a shutdown; `busy`
   says whether a notice was ever refused for want of room.
   */
  datatype Past = Past(open: set<nat>, coalesced: set<nat>, abandoned: set<nat>, busy: bool)

  /** `version` counts projection changes; `past` is history. */
  datatype Bridge = Bridge(
    wire: Wire,
    version: nat,
    unseen: set<Watch>,
    cancelled: bool,
    nextRequestId: nat,
    pendingRequests: set<nat>,
    pendingNotices: seq<QueuedNotice>,
    pendingResynchronization: Option<nat>,
    catalogGeneration: nat,
    projectionDirty: bool,
    requestedSent: bool,
    readySent: bool,
    shutdownStarted: bool,
    readyAcknowledged: bool,
    past: Past)

  const INITIAL: Bridge := Bridge(Wire(false, None, 1, None, [], Basis(0, 1, false)), 0, {}, false, 1, {}, [], None,
                                  1, true, false, false, false, false, Past({}, {}, {}, false))

  // ---------------------------------------------------------------- sending

  function Current(s: Bridge): (b: Basis) {
    Basis(s.version, s.catalogGeneration, s.cancelled)
  }

  /** Takes a revision and hands the frame to the channel; a refused frame loses revision and channel. */
  function Send(w: Wire, payload: Payload, queued: Option<QueuedNotice>, basis: Basis, ok: bool): (r: (Wire, bool)) {
    if w.nextRevision >= U64_LIMIT - 1 then (w, false)
    else
      var taken := w.(nextRevision := w.nextRevision + 1);
      if w.inFlight.Some? || !w.connected then (taken, false)
      else if !ok then (taken.(connected := false), false)
      else
        var stamp := if queued.Some? then queued.value.stamp else 0;
        (taken.(inFlight := Some(InFlight(w.nextRevision, queued)),
                sent := w.sent + [Frame(w.nextRevision, payload, stamp, basis)]),
         true)
  }

  /** Sends a projection frame and, when the channel takes it, remembers its snapshot. */
  function SendSnapshot(w: Wire, payload: Payload, snapshot: Snapshot, basis: Basis, ok: bool): (r: (Wire, bool)) {
    var (t, good) := Send(w, payload, None, basis, ok);
    (if good then t.(lastSnapshot := Some(snapshot), basis := basis) else t, good)
  }

  /** An unchanged snapshot needs no frame; otherwise a delta goes out when one exists. */
  function PublishWire(w: Wire, snapshot: Snapshot, basis: Basis, ok: bool): (r: (Wire, bool)) {
    if w.inFlight.Some? || !w.connected then (w, false)
    else if w.lastSnapshot == Some(snapshot) then (w.(basis := basis), true)
    else
      var delta := if w.lastSnapshot.Some? then Between(w.lastSnapshot.value, snapshot) else None;
      var payload := if delta.Some? then DeltaFrame(delta.value) else SnapshotFrame(Projection, snapshot);
      SendSnapshot(w, payload, snapshot, basis, ok)
  }

  function Publish(s: Bridge, view: View, ok: bool): (t: Bridge) {
    if view(Current(s)).None? then s
    else
      var (w, published) := PublishWire(s.wire, view(Current(s)).value, Current(s), ok);
      s.(wire := w, projectionDirty := s.projectionDirty && !published)
  }

  /** A new channel starts with a complete snapshot or not at all. */
  function ConnectWire(w: Wire, snapshot: Option<Snapshot>, basis: Basis, ok: bool): (r: (Wire, bool))
    requires w.inFlight.None?
  {
    var joined := w.(connected := true, sent := []);
    if snapshot.None? then (joined.(connected := false), false)
    else
      var (t, good) := SendSnapshot(joined, SnapshotFrame(Initial, snapshot.value), snapshot.value, basis, ok);
      (if good then t else t.(connected := false, inFlight := None), good)
  }

  // ---------------------------------------------------------------- the notice queue

  predicate IsAuthenticationOf(queued: QueuedNotice, requestId: nat) {
    queued.notice.Authentication? && queued.notice.requestId == requestId
  }

  function FindAuthentication(queue: seq<QueuedNotice>, requestId: nat): (index: nat)
    ensures index <= |queue|
    ensures forall i :: 0 <= i < index ==> !IsAuthenticationOf(queue[i], requestId)
    ensures index < |queue| ==> IsAuthenticationOf(queue[index], requestId)
  {
    if queue == [] || IsAuthenticationOf(queue[0], requestId) then 0
    else 1 + FindAuthentication(queue[1..], requestId)
  }

  /** A notice about the same sign-in replaces the queued one in place; any other is appended if there is room. */
  function Enqueue(queue: seq<QueuedNotice>, entry: QueuedNotice): (r: (seq<QueuedNotice>, bool)) {
    var index := if entry.notice.Authentication? then FindAuthentication(queue, entry.notice.requestId) else |queue|;
    if index < |queue| then (queue[index := queue[index].(notice := entry.notice)], true)
    else if |queue| >= MAX_PENDING_NOTICES then (queue, false)
    else (queue + [entry], true)
  }

  /** An answer that replaces a queued sign-in notice leaves no answer behind. */
  predicate Coalesces(queue: seq<QueuedNotice>, notice: Notice, terminal: Option<nat>) {
    terminal.Some? && notice.Authentication? && FindAuthentication(queue, notice.requestId) < |queue|
  }

  function Noted(past: Past, queue: seq<QueuedNotice>, notice: Notice, terminal: Option<nat>, good: bool): (p: Past) {
    past.(coalesced := if Coalesces(queue, notice, terminal) then past.coalesced + {terminal.value} else past.coalesced,
          busy := past.busy || !good)
  }

  function QueueNotice(s: Bridge, notice: Notice, terminal: Option<nat>): (r: (Bridge, bool)) {
    var wait := s.projectionDirty && (terminal.Some? || notice.Shutdown?);
    var (queue, good) := Enqueue(s.pendingNotices, QueuedNotice(notice, terminal, wait, s.version));
    (s.(pendingNotices := queue, past := Noted(s.past, s.pendingNotices, notice, terminal, good)), good)
  }

  function FrontReady(s: Bridge): (t: Bridge)
    requires s.pendingNotices != []
  {
    s.(pendingNotices := s.pendingNotices[0 := s.pendingNotices[0].(waitForProjection := false)])
  }

  /** One turn of the carrier: at most one frame leaves. */
  function Pump(s: Bridge, view: View, ok: bool): (r: (Bridge, bool)) {
    if s.wire.inFlight.Some? || !s.wire.connected then (s, true)
    else if s.pendingResynchronization.Some? then PumpResynchronization(s, view, ok)
    else if s.pendingNotices == [] then (if s.projectionDirty then Publish(s, view, ok) else s, true)
    else PumpFront(s, view, ok)
  }

  /** The front notice leaves, after a projection frame when it waits for one. */
  function PumpFront(s: Bridge, view: View, ok: bool): (r: (Bridge, bool))
    requires s.pendingNotices != []
  {
    if !s.pendingNotices[0].waitForProjection then PumpNotice(s, ok)
    else
      var published := if s.projectionDirty then Publish(s, view, ok) else s;
      if published.projectionDirty then (published, true)
      else if published.wire.inFlight.Some? then (FrontReady(published), true)
      else PumpNotice(FrontReady(published), ok)
  }

  function PumpResynchronization(s: Bridge, view: View, ok: bool): (r: (Bridge, bool))
    requires s.pendingResynchronization.Some?
  {
    if view(Current(s)).None? then (s, false)
    else
      var requestId := s.pendingResynchronization.value;
      var snapshot := view(Current(s)).value;
      var (w, good) := SendSnapshot(s.wire, SnapshotFrame(Resynchronization, snapshot), snapshot, Current(s), ok);
      var t := SentSnapshot(s, w, good);
      if !good then (t, false)
      else QueueNotice(t.(pendingResynchronization := None), CommandCommitted(requestId), Some(requestId))
  }

  function SentSnapshot(s: Bridge, w: Wire, good: bool): (t: Bridge) {
    s.(wire := w, projectionDirty := s.projectionDirty && !good)
  }

  function PumpNotice(s: Bridge, ok: bool): (r: (Bridge, bool))
    requires s.pendingNotices != []
  {
    var queued := s.pendingNotices[0];
    var (w, good) := Send(s.wire, NoticeFrame(queued.notice), Some(queued), s.wire.basis, ok);
    (s.(wire := w, pendingNotices := if good then s.pendingNotices[1..] else s.pendingNotices), good)
  }

  // ---------------------------------------------------------------- requests

  function Connect(s: Bridge, view: View, ok: bool): (r: (Bridge, bool)) {
    if s.wire.inFlight.Some? then (s, false)
    else
      var (w, good) := ConnectWire(s.wire, view(Current(s)), Current(s), ok);
      (s.(wire := w, projectionDirty := s.projectionDirty && !good), good)
  }

  function IssueRequestId(s: Bridge): (r: (Bridge, Option<nat>)) {
    if s.nextRequestId >= U64_LIMIT - 1 then (s, None)
    else (s.(nextRequestId := s.nextRequestId + 1), Some(s.nextRequestId))
  }

  /** A command or credential that becomes an application intent; `accepted` covers mapping and the intent channel. */
  function DispatchIntent(s: Bridge, accepted: bool): (r: (Bridge, Option<nat>)) {
    if !s.wire.connected || s.shutdownStarted then (s, None)
    else
      var (t, id) := IssueRequestId(s);
      if id.None? || |t.pendingRequests| >= MAX_PENDING_REQUESTS || !accepted then (t, None)
      else (t.(pendingRequests := t.pendingRequests + {id.value}, past := t.past.(open := t.past.open + {id.value})), id)
  }

  function DispatchResynchronize(s: Bridge, view: View, ok: bool): (r: (Bridge, Option<nat>)) {
    if !s.wire.connected || s.shutdownStarted then (s, None)
    else
      var (t, id) := IssueRequestId(s);
      if id.None? || t.pendingResynchronization.Some? || |t.pendingRequests| >= MAX_PENDING_REQUESTS then (t, None)
      else
        var (pumped, good) := Ask(t, id.value, view, ok);
        (pumped, if good then id else None)
  }

  /** A resynchronization that cannot be sent at once is withdrawn with its request. */
  function Ask(s: Bridge, id: nat, view: View, ok: bool): (r: (Bridge, bool)) {
    var asked := s.(pendingRequests := s.pendingRequests + {id}, pendingResynchronization := Some(id));
    var (pumped, good) := Pump(asked, view, ok);
    (if good then pumped else WithdrawRequest(pumped, id), good)
  }

  function WithdrawRequest(s: Bridge, id: nat): (t: Bridge) {
    s.(pendingResynchronization := None, pendingRequests := s.pendingRequests - {id})
  }

  function QueueShutdownNotice(s: Bridge, phase: ShutdownState): (r: (Bridge, bool)) {
    if (phase == Requested && s.requestedSent) || (phase == Ready && s.readySent) then (s, true)
    else
      var (t, good) := QueueNotice(s, Shutdown(phase), None);
      if !good then (t, false)
      else (if phase == Requested then t.(requestedSent := true) else t.(readySent := true), true)
  }

  /** The token, the flags, and a resynchronization that is dropped while its request stays. */
  function Starting(s: Bridge): (t: Bridge) {
    var dropped := if s.pendingResynchronization.Some? then {s.pendingResynchronization.value} else {};
    s.(cancelled := true, shutdownStarted := true, projectionDirty := true, pendingResynchronization := None,
       past := s.past.(abandoned := s.past.abandoned + dropped))
  }

  function BeginShutdown(s: Bridge, command: Option<nat>, view: View, ok: bool): (r: (Bridge, bool)) {
    if s.shutdownStarted then (s, true)
    else
      var started := Starting(s);
      var (answered, good1) :=
        if command.None? then (started, true)
        else QueueNotice(started.(pendingRequests := started.pendingRequests + {command.value}),
                         CommandCommitted(command.value), command);
      if good1 then Announce(answered, view, ok) else (answered, false)
  }

  function Announce(s: Bridge, view: View, ok: bool): (r: (Bridge, bool)) {
    var (requested, good) := QueueShutdownNotice(s, Requested);
    if !good then (requested, false)
    else
      var (ready, done) := QueueShutdownNotice(requested, Ready);
      if done then Pump(ready, view, ok) else (ready, false)
  }

  /** A shutdown command: `drained` are the application notices still in the channel. */
  function DispatchShutdown(s: Bridge, drained: seq<Notice>, view: View, ok: bool): (r: (Bridge, Option<nat>)) {
    if !s.wire.connected || s.shutdownStarted then (s, None)
    else
      var (t, id) := IssueRequestId(s);
      if id.None? || |t.pendingRequests| >= MAX_PENDING_REQUESTS then (t, None)
      else
        var (quiet, good) := HandleNotices(t, drained, view, ok);
        if !good then (quiet, None)
        else
          var (u, done) := BeginShutdown(quiet, id, view, ok);
          (u, if done then id else None)
  }

  // ---------------------------------------------------------------- application notices

  function TerminalOf(notice: Notice): (terminal: Option<nat>) {
    match notice
    case CommandCommitted(id) => Some(id)
    case CommandRejected(id, _) => Some(id)
    case Authentication(id, state) => if state == BrowserOpened then None else Some(id)
    case Shutdown(_) => None
  }

  predicate TerminalOutstanding(s: Bridge, id: nat) {
    || (exists i :: 0 <= i < |s.pendingNotices| && s.pendingNotices[i].terminal == Some(id))
    || (&& s.wire.inFlight.Some? && s.wire.inFlight.value.notice.Some?
        && s.wire.inFlight.value.notice.value.terminal == Some(id))
  }

  /** Every projection change so far becomes visible to the dirty flag. */
  function ObserveAll(s: Bridge): (t: Bridge) {
    if s.unseen == {} then s
    else s.(unseen := {}, projectionDirty := true,
            catalogGeneration := if CatalogWatch in s.unseen then SaturatingNext(s.catalogGeneration) else s.catalogGeneration)
  }

  function SaturatingNext(n: nat): (m: nat) {
    if n >= U64_LIMIT - 1 then n else n + 1
  }

  /** A notice for no pending request, or a second answer, is dropped. */
  predicate Dropped(s: Bridge, notice: Notice) {
    var terminal := TerminalOf(notice);
    if terminal.Some? then terminal.value !in s.pendingRequests || TerminalOutstanding(s, terminal.value)
    else !notice.Shutdown? && notice.requestId !in s.pendingRequests
  }

  function HandleNotice(s: Bridge, notice: Notice, view: View, ok: bool): (r: (Bridge, bool)) {
    if Dropped(s, notice) then (s, true) else Deliver(ObserveAll(s), notice, view, ok)
  }

  function Deliver(s: Bridge, notice: Notice, view: View, ok: bool): (r: (Bridge, bool)) {
    var (t, good) := QueueNotice(s, notice, TerminalOf(notice));
    if good then (Pump(t, view, ok).0, true) else (t, false)
  }

  function HandleNotices(s: Bridge, notices: seq<Notice>, view: View, ok: bool): (r: (Bridge, bool))
    decreases |notices|
  {
    if notices == [] then (s, true)
    else
      var (t, good) := HandleNotice(Sends(s, notices[0]), notices[0], view, ok);
      if good then HandleNotices(t, notices[1..], view, ok) else (t, false)
  }

  /** History: after a terminal notice the application has nothing more to send for that request. */
  function Sends(s: Bridge, notice: Notice): (t: Bridge) {
    if TerminalOf(notice).Some? then s.(past := s.past.(open := s.past.open - {TerminalOf(notice).value})) else s
  }

  /** The cancelled token: the notices still in the channel first, then shutdown. */
  function TokenShutdown(s: Bridge, drained: seq<Notice>, view: View, ok: bool): (t: Bridge) {
    if s.shutdownStarted then s
    else
      var (quiet, good) := HandleNotices(s, drained, view, ok);
      if good then BeginShutdown(quiet, None, view, ok).0 else quiet
  }

  // ---------------------------------------------------------------- acknowledgements

  function Acknowledge(s: Bridge, revision: nat, view: View, ok: bool): (r: (Bridge, bool)) {
    if s.wire.inFlight.None? || s.wire.inFlight.value.revision != revision then (s, false)
    else Pump(Settle(s, s.wire.inFlight.value.notice), view, ok)
  }

  /** What an acknowledged frame releases: its slot, its request when it answered one, the exit when it was the last. */
  function Settle(s: Bridge, queued: Option<QueuedNotice>): (t: Bridge) {
    var answered := if queued.Some? && queued.value.terminal.Some? then {queued.value.terminal.value} else {};
    s.(wire := s.wire.(inFlight := None),
       pendingRequests := s.pendingRequests - answered,
       readyAcknowledged := s.readyAcknowledged || (queued.Some? && queued.value.notice == Shutdown(Ready)))
  }

  // ---------------------------------------------------------------- runs

  datatype Step =
    | Change(watch: Watch)
    | CancelToken
    | Observe(watch: Watch)
    | ConnectStep(ok: bool)
    | IntentStep(accepted: bool)
    | ResynchronizeStep(ok: bool)
    | ShutdownStep(drained: seq<Notice>, ok: bool)
    | TokenShutdownStep(drained: seq<Notice>, ok: bool)
    | NoticeStep(notice: Notice, ok: bool)
    | AcknowledgeStep(revision: nat, ok: bool)
    | TickStep(ok: bool)

  function NextState(s: Bridge, step: Step, view: View): (t: Bridge) {
    match step
    case Change(watch) => s.(version := s.version + 1, unseen := s.unseen + {watch})
    case CancelToken => s.(cancelled := true)
    case Observe(watch) => if s.shutdownStarted || watch !in s.unseen then s else ObserveOne(s, watch)
    case ConnectStep(ok) => Connect(s, view, ok).0
    case IntentStep(accepted) => DispatchIntent(s, accepted).0
    case ResynchronizeStep(ok) => DispatchResynchronize(s, view, ok).0
    case ShutdownStep(drained, ok) => DispatchShutdown(s, drained, view, ok).0
    case TokenShutdownStep(drained, ok) => TokenShutdown(s, drained, view, ok)
    case NoticeStep(notice, ok) => if s.shutdownStarted then s else HandleNotice(Sends(s, notice), notice, view, ok).0
    case AcknowledgeStep(revision, ok) => Acknowledge(s, revision, view, ok).0
    case TickStep(ok) => Pump(s, view, ok).0
  }

  function Run(steps: seq<Step>, view: View): (s: Bridge) {
    if steps == [] then INITIAL else NextState(Run(steps[..|steps| - 1], view), steps[|steps| - 1], view)
  }

  function ObserveOne(s: Bridge, watch: Watch): (t: Bridge) {
    s.(unseen := s.unseen - {watch}, projectionDirty := true,
       catalogGeneration := if watch == CatalogWatch then SaturatingNext(s.catalogGeneration) else s.catalogGeneration)
  }

  /** What the application may send: never a shutdown notice, and only for requests it has not settled. */
  predicate MaySend(s: Bridge, notice: Notice) {
    !notice.Shutdown? && notice.requestId in s.past.open
  }

  ghost predicate MaySendAll(open: set<nat>, notices: seq<Notice>)
  {
    notices == [] ||
    (&& !notices[0].Shutdown? && notices[0].requestId in open
     && MaySendAll(if TerminalOf(notices[0]).Some? then open - {TerminalOf(notices[0]).value} else open, notices[1..]))
  }

  /** The hypothesis about the application: nothing for a request after its terminal notice. */
  ghost predicate Allowed(s: Bridge, step: Step) {
    match step
    case NoticeStep(notice, _) => MaySend(s, notice)
    case ShutdownStep(drained, _) => MaySendAll(s.past.open, drained)
    case TokenShutdownStep(drained, _) => MaySendAll(s.past.open, drained)
    case _ => true
  }
}
