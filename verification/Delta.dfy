/** Client snapshots, the incremental update between two of them, and a renderer that folds frames. */
module Delta {
  import opened Text

  const MAX_TRANSCRIPT_ITEMS: nat := 65536
  const MAX_PERMISSION_REQUESTS: nat := 256
  const MAX_SESSIONS: nat := 4096
  const MAX_PROVIDERS: nat := 64

  /** A projection part that the carrier only compares, copies and validates. */
  datatype Part = Part(wellFormed: bool, content: string)

  datatype Permission = Permission(toolCallId: string, detail: Part)

  datatype Summary = Summary(sessionId: string, row: string)

  datatype Session = Session(sessionId: string, revision: nat, selectedModel: Option<string>,
                             transcript: seq<string>, permissions: seq<Permission>)

  datatype Provider = Provider(connectionId: string, active: bool, detail: Part)

  datatype Snapshot = Snapshot(schemaVersion: nat, memory: string, lifecycle: string, activeSessionId: Option<string>,
                               sessions: seq<Summary>, activeSession: Option<Session>, catalog: Part,
                               providers: seq<Provider>, settings: string, recoveryPending: nat)

  const CLIENT_SCHEMA_VERSION: nat := 4
  const DEFAULT_MEMORY: string := ""

  // ---------------------------------------------------------------- validation

  predicate ValidSession(s: Session) {
    && |s.transcript| <= MAX_TRANSCRIPT_ITEMS
    && |s.permissions| <= MAX_PERMISSION_REQUESTS
    && (forall i :: 0 <= i < |s.permissions| ==> s.permissions[i].detail.wellFormed)
    && (forall i, j :: 0 <= i < j < |s.permissions| ==> s.permissions[i].toolCallId != s.permissions[j].toolCallId)
  }

  predicate DistinctSessions(sessions: seq<Summary>) {
    forall i, j :: 0 <= i < j < |sessions| ==> sessions[i].sessionId != sessions[j].sessionId
  }

  predicate ValidProviders(providers: seq<Provider>) {
    && |providers| <= MAX_PROVIDERS
    && (forall i :: 0 <= i < |providers| ==> providers[i].detail.wellFormed)
    && (forall i, j :: 0 <= i < j < |providers| ==>
          && providers[i].connectionId != providers[j].connectionId
          && !(providers[i].active && providers[j].active))
  }

  predicate ValidActive(activeSessionId: Option<string>, sessions: seq<Summary>, activeSession: Option<Session>) {
    match activeSession
    case None => activeSessionId.None?
    case Some(session) =>
      && activeSessionId == Some(session.sessionId)
      && exists i :: 0 <= i < |sessions| && sessions[i].sessionId == session.sessionId
  }

  /** What the two validating constructors, of the snapshot and of its active session, let through. */
  predicate ValidSnapshot(s: Snapshot) {
    && s.schemaVersion == CLIENT_SCHEMA_VERSION
    && |s.sessions| <= MAX_SESSIONS
    && s.catalog.wellFormed
    && ValidProviders(s.providers)
    && DistinctSessions(s.sessions)
    && ValidActive(s.activeSessionId, s.sessions, s.activeSession)
    && (s.activeSession.Some? ==> ValidSession(s.activeSession.value))
  }

  // ---------------------------------------------------------------- transcript splices

  datatype Splice = Splice(start: nat, deleteCount: nat, items: seq<string>)

  function CommonPrefix(a: seq<string>, b: seq<string>): (n: nat)
    ensures n <= |a| && n <= |b|
    ensures a[..n] == b[..n]
    ensures n == |a| || n == |b| || a[n] != b[n]
  {
    if a == [] || b == [] || a[0] != b[0] then 0
    else
      var rest := CommonPrefix(a[1..], b[1..]);
      assert a[..1 + rest] == [a[0]] + a[1..][..rest] && b[..1 + rest] == [b[0]] + b[1..][..rest];
      1 + rest
  }

  /** Length of the longest common suffix that is no longer than `limit`. */
  function CommonSuffix(a: seq<string>, b: seq<string>, limit: nat): (n: nat)
    requires limit <= |a| && limit <= |b|
    ensures n <= limit
  {
    if limit == 0 || a[|a| - 1] != b[|b| - 1] then 0
    else 1 + CommonSuffix(a[..|a| - 1], b[..|b| - 1], limit - 1)
  }

  lemma DropAppend(front: seq<string>, last: string, k: nat)
    requires k <= |front|
    ensures (front + [last])[k..] == front[k..] + [last]
  {
  }

  lemma {:induction false} CommonSuffixAgrees(a: seq<string>, b: seq<string>, limit: nat)
    requires limit <= |a| && limit <= |b|
    ensures a[|a| - CommonSuffix(a, b, limit)..] == b[|b| - CommonSuffix(a, b, limit)..]
  {
    if limit > 0 && a[|a| - 1] == b[|b| - 1] {
      var frontA, frontB, last := a[..|a| - 1], b[..|b| - 1], a[|a| - 1];
      CommonSuffixAgrees(frontA, frontB, limit - 1);
      var n := CommonSuffix(frontA, frontB, limit - 1);
      DropAppend(frontA, last, |frontA| - n);
      DropAppend(frontB, last, |frontB| - n);
      assert a == frontA + [last] && b == frontB + [last];
    }
  }

  lemma {:induction false} CommonSuffixLongest(a: seq<string>, b: seq<string>, limit: nat, tail: nat)
    requires limit <= |a| && limit <= |b| && tail <= |a| && tail <= |b|
    requires a[|a| - tail..] == b[|b| - tail..]
    ensures Shorter(tail, limit) <= CommonSuffix(a, b, limit)
  {
    if limit > 0 && tail > 0 {
      var frontA, frontB := a[..|a| - 1], b[..|b| - 1];
      assert a[|a| - 1] == a[|a| - tail..][tail - 1] == b[|b| - tail..][tail - 1] == b[|b| - 1];
      assert frontA[|frontA| - (tail - 1)..] == a[|a| - tail..][..tail - 1];
      assert frontB[|frontB| - (tail - 1)..] == b[|b| - tail..][..tail - 1];
      CommonSuffixLongest(frontA, frontB, limit - 1, tail - 1);
    }
  }

  lemma {:induction false} CommonPrefixLongest(a: seq<string>, b: seq<string>, head: nat)
    requires head <= |a| && head <= |b| && a[..head] == b[..head]
    ensures head <= CommonPrefix(a, b)
  {
    if head > 0 {
      assert a[0] == a[..head][0] == b[..head][0] == b[0];
      assert a[1..][..head - 1] == a[..head][1..] && b[1..][..head - 1] == b[..head][1..];
      CommonPrefixLongest(a[1..], b[1..], head - 1);
    }
  }

  function Shorter(m: nat, n: nat): (k: nat) {
    if m < n then m else n
  }

  function SpliceBetween(previous: seq<string>, next: seq<string>): (splice: Splice) {
    var prefix := CommonPrefix(previous, next);
    var suffix := CommonSuffix(previous, next, Shorter(|previous|, |next|) - prefix);
    Splice(prefix, |previous| - suffix - prefix, next[prefix..|next| - suffix])
  }

  function ApplySplice(splice: Splice, transcript: seq<string>): (result: seq<string>)
    requires splice.start + splice.deleteCount <= |transcript|
  {
    transcript[..splice.start] + splice.items + transcript[splice.start + splice.deleteCount..]
  }

  lemma Glue(s: seq<string>, head: nat, tail: nat)
    requires head + tail <= |s|
    ensures s[..head] + s[head..|s| - tail] + s[|s| - tail..] == s
  {
  }

  /** The prefix and suffix never overlap, and the splice rebuilds the next transcript exactly. */
  lemma SpliceRebuilds(previous: seq<string>, next: seq<string>)
    ensures var splice := SpliceBetween(previous, next);
            && splice.start + splice.deleteCount <= |previous|
            && ApplySplice(splice, previous) == next
  {
    var prefix, suffix := SpliceShape(previous, next);
    Rebuild(previous, next, prefix, suffix);
  }

  lemma SpliceShape(previous: seq<string>, next: seq<string>) returns (prefix: nat, suffix: nat)
    ensures prefix + suffix <= |previous| && prefix + suffix <= |next|
    ensures SpliceBetween(previous, next)
         == Splice(prefix, |previous| - suffix - prefix, next[prefix..|next| - suffix])
    ensures previous[..prefix] == next[..prefix]
    ensures previous[|previous| - suffix..] == next[|next| - suffix..]
  {
    prefix := CommonPrefix(previous, next);
    var limit := Shorter(|previous|, |next|) - prefix;
    suffix := CommonSuffix(previous, next, limit);
    CommonSuffixAgrees(previous, next, limit);
  }

  lemma Rebuild(previous: seq<string>, next: seq<string>, head: nat, tail: nat)
    requires head + tail <= |previous| && head + tail <= |next|
    requires previous[..head] == next[..head] && previous[|previous| - tail..] == next[|next| - tail..]
    ensures ApplySplice(Splice(head, |previous| - tail - head, next[head..|next| - tail]), previous) == next
  {
    Glue(next, head, tail);
  }

  lemma SpliceEnds(splice: Splice, transcript: seq<string>)
    requires splice.start + splice.deleteCount <= |transcript|
    ensures var tail := |transcript| - splice.start - splice.deleteCount;
            var result := ApplySplice(splice, transcript);
            && |result| == splice.start + |splice.items| + tail
            && result[..splice.start] == transcript[..splice.start]
            && result[|result| - tail..] == transcript[|transcript| - tail..]
  {
  }

  lemma KeptIsShorter(previous: seq<string>, next: seq<string>, head: nat, tail: nat)
    requires head + tail <= |previous| && head + tail <= |next|
    requires previous[..head] == next[..head] && previous[|previous| - tail..] == next[|next| - tail..]
    ensures head + tail <= |next| - |SpliceBetween(previous, next).items|
  {
    var prefix := CommonPrefix(previous, next);
    var limit := Shorter(|previous|, |next|) - prefix;
    CommonPrefixLongest(previous, next, head);
    CommonSuffixLongest(previous, next, limit, tail);
  }

  /** No single splice that turns `previous` into `next` carries fewer items. */
  lemma SpliceIsShortest(previous: seq<string>, next: seq<string>, other: Splice)
    requires other.start + other.deleteCount <= |previous|
    requires ApplySplice(other, previous) == next
    ensures |SpliceBetween(previous, next).items| <= |other.items|
  {
    SpliceEnds(other, previous);
    KeptIsShorter(previous, next, other.start, |previous| - other.start - other.deleteCount);
  }

  // ---------------------------------------------------------------- active-session deltas

  datatype ActiveSessionDelta = ActiveSessionDelta(sessionId: string, revision: nat, summary: Summary,
                                                   selectedModel: Option<string>, transcript: Splice,
                                                   permissions: seq<Permission>)

  function FindSummary(sessions: seq<Summary>, sessionId: string): (index: nat)
    ensures index <= |sessions|
    ensures forall i :: 0 <= i < index ==> sessions[i].sessionId != sessionId
    ensures index < |sessions| ==> sessions[index].sessionId == sessionId
  {
    if sessions == [] || sessions[0].sessionId == sessionId then 0
    else 1 + FindSummary(sessions[1..], sessionId)
  }

  predicate SameOtherSessions(previous: seq<Summary>, next: seq<Summary>, activeId: string) {
    && |previous| == |next|
    && forall i :: 0 <= i < |previous| ==>
         && previous[i].sessionId == next[i].sessionId
         && (previous[i].sessionId == activeId || previous[i] == next[i])
  }

  function Between(previous: Snapshot, next: Snapshot): (delta: Option<ActiveSessionDelta>) {
    if || previous.memory != next.memory
       || previous.schemaVersion != next.schemaVersion
       || previous.lifecycle != next.lifecycle
       || previous.activeSessionId != next.activeSessionId
       || previous.catalog != next.catalog
       || previous.providers != next.providers
       || previous.settings != next.settings
       || |previous.sessions| != |next.sessions|
       || previous.activeSession.None? || next.activeSession.None?
    then None
    else
      var before, after := previous.activeSession.value, next.activeSession.value;
      if before.sessionId != after.sessionId || !SameOtherSessions(previous.sessions, next.sessions, after.sessionId)
      then None
      else
        var index := FindSummary(next.sessions, after.sessionId);
        if index == |next.sessions| then None
        else Some(ActiveSessionDelta(after.sessionId, after.revision, next.sessions[index], after.selectedModel,
                                     SpliceBetween(before.transcript, after.transcript), after.permissions))
  }

  function ApplyTo(delta: ActiveSessionDelta, snapshot: Snapshot): (r: Option<Snapshot>) {
    if snapshot.activeSessionId != Some(delta.sessionId) || snapshot.activeSession.None? then None
    else
      var active := snapshot.activeSession.value;
      var splice := delta.transcript;
      if active.sessionId != delta.sessionId then None
      else if splice.start + splice.deleteCount > |active.transcript| then None
      else if |active.transcript| - splice.deleteCount + |splice.items| > MAX_TRANSCRIPT_ITEMS then None
      else
        var session := Session(delta.sessionId, delta.revision, delta.selectedModel,
                               ApplySplice(splice, active.transcript), delta.permissions);
        var index := FindSummary(snapshot.sessions, delta.sessionId);
        if !ValidSession(session) || index == |snapshot.sessions| then None
        else
          var result := Snapshot(CLIENT_SCHEMA_VERSION, DEFAULT_MEMORY, snapshot.lifecycle, snapshot.activeSessionId,
                                 snapshot.sessions[index := delta.summary], Some(session), snapshot.catalog,
                                 snapshot.providers, snapshot.settings, snapshot.recoveryPending);
          if ValidSnapshot(result) then Some(result) else None
  }

  /** Equal but for memory, which a delta requires to be unchanged, and the recovery count, which it ignores. */
  predicate Agrees(a: Snapshot, b: Snapshot) {
    a.(memory := b.memory, recoveryPending := b.recoveryPending) == b
  }

  lemma SummariesReplaced(previous: seq<Summary>, next: seq<Summary>, activeId: string)
    requires DistinctSessions(next) && SameOtherSessions(previous, next, activeId)
    requires FindSummary(next, activeId) < |next|
    ensures FindSummary(previous, activeId) == FindSummary(next, activeId)
    ensures previous[FindSummary(next, activeId) := next[FindSummary(next, activeId)]] == next
  {
  }

  /**
   Whenever a delta exists, applying it to any baseline that agrees with the previous snapshot succeeds
   and gives the next snapshot, with the default memory and the baseline's own recovery count.
   */
  lemma DeltaRoundTrip(previous: Snapshot, next: Snapshot, baseline: Snapshot)
    requires ValidSnapshot(previous) && ValidSnapshot(next)
    requires Agrees(baseline, previous)
    requires Between(previous, next).Some?
    ensures ApplyTo(Between(previous, next).value, baseline)
         == Some(next.(memory := DEFAULT_MEMORY, recoveryPending := baseline.recoveryPending))
  {
    var delta := Between(previous, next).value;
    var before, after := previous.activeSession.value, next.activeSession.value;
    SpliceRebuilds(before.transcript, after.transcript);
    SummariesReplaced(previous.sessions, next.sessions, after.sessionId);
    assert baseline.activeSession == previous.activeSession && baseline.sessions == previous.sessions;
    assert Session(delta.sessionId, delta.revision, delta.selectedModel,
                   ApplySplice(delta.transcript, before.transcript), delta.permissions) == after;
    assert ValidSnapshot(next.(memory := DEFAULT_MEMORY, recoveryPending := baseline.recoveryPending));
  }

  /** The round trip is exact if and only if memory is empty and the recovery count did not move. */
  lemma DeltaExactIff(previous: Snapshot, next: Snapshot)
    requires ValidSnapshot(previous) && ValidSnapshot(next)
    requires Between(previous, next).Some?
    ensures ApplyTo(Between(previous, next).value, previous) == Some(next)
       <==> next.memory == DEFAULT_MEMORY && next.recoveryPending == previous.recoveryPending
  {
    DeltaRoundTrip(previous, next, previous);
  }

  /** A changed recovery count alone is sent as a delta that leaves the renderer where it was. */
  lemma RecoveryCountIsNotCarried(previous: Snapshot, next: Snapshot)
    requires previous == Snapshot(CLIENT_SCHEMA_VERSION, DEFAULT_MEMORY, "ready", Some("s"), [Summary("s", "row")],
                                  Some(Session("s", 1, None, ["hello"], [])), Part(true, ""), [], "", 0)
    requires next == previous.(recoveryPending := 1)
    ensures ValidSnapshot(previous) && ValidSnapshot(next) && previous != next
    ensures Between(previous, next).Some?
    ensures ApplyTo(Between(previous, next).value, previous) == Some(previous)
  {
    var summaries := [Summary("s", "row")];
    assert summaries[0].sessionId == "s";
    assert ValidActive(Some("s"), summaries, previous.activeSession);
    assert FindSummary(summaries, "s") == 0;
    DeltaRoundTrip(previous, next, previous);
  }

  /** Only the active session, its own row, the i-th one, and the recovery count have changed. */
  predicate MovesRow(previous: Snapshot, next: Snapshot, i: nat) {
    && i < |previous.sessions| && i < |next.sessions| && previous.activeSession.Some? && next.activeSession.Some?
    && previous.activeSession.value.sessionId == next.activeSession.value.sessionId
    && previous.sessions[i].sessionId == next.sessions[i].sessionId == next.activeSession.value.sessionId
    && next == previous.(sessions := previous.sessions[i := next.sessions[i]], activeSession := next.activeSession,
                         recoveryPending := next.recoveryPending)
  }

  /** Between valid snapshots there is a delta if and only if nothing else has moved. */
  lemma DeltaExistsIff(previous: Snapshot, next: Snapshot)
    requires ValidSnapshot(previous) && ValidSnapshot(next)
    ensures Between(previous, next).Some? <==> exists i: nat :: MovesRow(previous, next, i)
  {
    if Between(previous, next).Some? {
      var i := FindSummary(next.sessions, next.activeSession.value.sessionId);
      SummariesReplaced(previous.sessions, next.sessions, next.activeSession.value.sessionId);
      assert MovesRow(previous, next, i);
    }
    if i: nat :| MovesRow(previous, next, i) {
      assert next.sessions[i].sessionId == next.activeSession.value.sessionId;
    }
  }

  /**
   A renderer takes a delta only over a snapshot whose active session is the delta's, changes that session and its row,
   memory and nothing else, and is left with a valid snapshot.
   */
  lemma ApplyIsConfined(delta: ActiveSessionDelta, snapshot: Snapshot)
    requires ApplyTo(delta, snapshot).Some?
    ensures var after := ApplyTo(delta, snapshot).value;
            && snapshot.activeSession.Some? && snapshot.activeSession.value.sessionId == delta.sessionId
            && ValidSnapshot(after)
            && after.activeSession.Some? && after.activeSession.value.sessionId == delta.sessionId
            && after.activeSession.value.revision == delta.revision
            && |after.sessions| == |snapshot.sessions|
            && (forall i :: 0 <= i < |snapshot.sessions| && snapshot.sessions[i].sessionId != delta.sessionId ==>
                  after.sessions[i] == snapshot.sessions[i])
            && after == snapshot.(schemaVersion := CLIENT_SCHEMA_VERSION, memory := DEFAULT_MEMORY,
                                  sessions := after.sessions, activeSession := after.activeSession)
  {
  }

  // ---------------------------------------------------------------- frames and the renderer

  datatype SnapshotReason = Initial | Projection | Resynchronization

  datatype AuthenticationState = BrowserOpened | Completed | Cancelled

  datatype ShutdownState = Requested | Ready

  datatype Notice =
    | CommandCommitted(requestId: nat)
    | CommandRejected(requestId: nat, failure: string)
    | Authentication(requestId: nat, state: AuthenticationState)
    | Shutdown(phase: ShutdownState)

  datatype Payload =
    | SnapshotFrame(reason: SnapshotReason, snapshot: Snapshot)
    | DeltaFrame(delta: ActiveSessionDelta)
    | NoticeFrame(notice: Notice)

  datatype Disposition = Baseline | Next | Stale | Gap | InvalidBaseline | SequenceExhausted

  /** How a client that last applied some revision treats a received frame. */
  function Classify(revision: nat, payload: Payload, lastApplied: Option<nat>): (d: Disposition) {
    var baseline := payload.SnapshotFrame? && payload.reason != Projection;
    match lastApplied
    case None => if baseline then Baseline else InvalidBaseline
    case Some(last) =>
      if revision <= last then Stale
      else if payload.SnapshotFrame? && payload.reason == Resynchronization then Baseline
      else if last >= U64_LIMIT - 1 then SequenceExhausted
      else if revision == last + 1 then Next
      else Gap
  }

  /** A renderer's state; `Lost` is one that needs a resynchronization snapshot. */
  datatype Replica = Fresh | Holding(revision: nat, snapshot: Snapshot) | Lost(last: Option<nat>)

  function Receive(replica: Replica, revision: nat, payload: Payload): (r: Replica) {
    var last := match replica
      case Fresh => None
      case Holding(revision, _) => Some(revision)
      case Lost(last) => last;
    match Classify(revision, payload, last)
    case Baseline => Holding(revision, payload.snapshot)
    case Stale => replica
    case Next =>
      if replica.Lost? then replica
      else
        (match payload
         case SnapshotFrame(_, snapshot) => Holding(revision, snapshot)
         case DeltaFrame(delta) =>
           var applied := ApplyTo(delta, replica.snapshot);
           if applied.Some? then Holding(revision, applied.value) else Lost(last)
         case NoticeFrame(_) => Holding(revision, replica.snapshot))
    case _ => Lost(last)
  }
}
