/** Sign-ins that complete while their own notice is queued: each keeps its request for good, and 32 block the bridge. */
module BridgeStuck {
  import opened Lists
  import opened Text
  import opened Delta
  import opened Bridge
  import opened BridgeBounds
  import opened BridgeAnswers

  function Ids(k: nat): (ids: set<nat>)
    ensures forall i :: i in ids <==> 1 <= i <= k
    ensures |ids| == k
  {
    if k == 0 then {} else Ids(k - 1) + {k}
  }

  /** One request: admitted, browser opened, completed, and the frame before its notice acknowledged. */
  function Round(k: nat): (steps: seq<Step>) {
    [IntentStep(true), NoticeStep(Authentication(k + 1, BrowserOpened), true),
     NoticeStep(Authentication(k + 1, Completed), true), AcknowledgeStep(k + 1, true)]
  }

  /** A channel, and then this many such requests. */
  function Rounds(k: nat): (steps: seq<Step>) {
    if k == 0 then [ConnectStep(true)] else Rounds(k - 1) + Round(k - 1)
  }

  /** The bridge is up, nothing is dirty, and a frame that answers nothing is in flight. */
  predicate Carrying(s: Bridge, k: nat) {
    && s.wire.connected && !s.shutdownStarted && s.unseen == {} && !s.projectionDirty
    && s.wire.nextRevision == k + 2 && s.wire.inFlight.Some? && s.wire.inFlight.value.revision == k + 1
    && InFlightAnswer(s.wire).None? && s.pendingResynchronization.None?
  }

  /** After `k` rounds: `k` requests wait, none is open, and nothing is queued. */
  predicate After(s: Bridge, k: nat) {
    && Carrying(s, k) && s.pendingNotices == [] && s.nextRequestId == k + 1
    && s.pendingRequests == Ids(k) && s.past.open == {} && s.past.coalesced == Ids(k)
  }

  /** At most this notice is queued, as one that answers nothing and waits for nothing. */
  predicate Queued(queue: seq<QueuedNotice>, notice: Option<Notice>) {
    if notice.None? then queue == []
    else |queue| == 1 && queue[0].notice == notice.value && queue[0].terminal.None? && !queue[0].waitForProjection
  }

  predicate Opening(s: Bridge, k: nat, notice: Option<Notice>, open: set<nat>, coalesced: set<nat>) {
    && Carrying(s, k) && Queued(s.pendingNotices, notice) && s.nextRequestId == k + 2
    && s.pendingRequests == Ids(k + 1) && s.past.open == open && s.past.coalesced == coalesced
  }

  lemma Admitted(s: Bridge, k: nat, view: View)
    requires After(s, k) && k < MAX_PENDING_REQUESTS
    ensures Opening(NextState(s, IntentStep(true), view), k, None, {k + 1}, Ids(k))
  {
    assert Ids(k + 1) == Ids(k) + {k + 1};
  }

  lemma BrowserOpens(s: Bridge, k: nat, view: View)
    requires Opening(s, k, None, {k + 1}, Ids(k))
    ensures var notice := Authentication(k + 1, BrowserOpened);
            Opening(NextState(s, NoticeStep(notice, true), view), k, Some(notice), {k + 1}, Ids(k))
  {
  }

  lemma Completes(s: Bridge, k: nat, view: View)
    requires Opening(s, k, Some(Authentication(k + 1, BrowserOpened)), {k + 1}, Ids(k))
    ensures var notice := Authentication(k + 1, Completed);
            Opening(NextState(s, NoticeStep(notice, true), view), k, Some(notice), {}, Ids(k + 1))
  {
    var notice := Authentication(k + 1, Completed);
    assert FindAuthentication(s.pendingNotices, k + 1) == 0;
    assert Ids(k + 1) == Ids(k) + {k + 1};
    assert !TerminalOutstanding(Sends(s, notice), k + 1);
  }

  lemma Leaves(s: Bridge, k: nat, view: View)
    requires k <= MAX_PENDING_REQUESTS && Opening(s, k, Some(Authentication(k + 1, Completed)), {}, Ids(k + 1))
    ensures After(NextState(s, AcknowledgeStep(k + 1, true), view), k + 1)
  {
  }

  // ---------------------------------------------------------------- the runs

  lemma OneMore(steps: seq<Step>, step: Step, view: View)
    ensures Run(steps + [step], view) == NextState(Run(steps, view), step, view)
    ensures AllowedRun(steps + [step], view) <==> AllowedRun(steps, view) && Allowed(Run(steps, view), step)
  {
    assert (steps + [step])[..|steps|] == steps;
  }

  /** An allowed run that ends after `k` rounds, and one that ends inside the next. */
  ghost predicate Reaches(steps: seq<Step>, k: nat, view: View) {
    AllowedRun(steps, view) && After(Run(steps, view), k)
  }

  ghost predicate Inside(steps: seq<Step>, k: nat, view: View, notice: Option<Notice>, open: set<nat>, coalesced: set<nat>) {
    AllowedRun(steps, view) && Opening(Run(steps, view), k, notice, open, coalesced)
  }

  lemma IntentRuns(steps: seq<Step>, k: nat, view: View)
    requires Reaches(steps, k, view) && k < MAX_PENDING_REQUESTS
    ensures Inside(steps + [IntentStep(true)], k, view, None, {k + 1}, Ids(k))
  {
    OneMore(steps, IntentStep(true), view);
    Admitted(Run(steps, view), k, view);
  }

  lemma BrowserRuns(steps: seq<Step>, k: nat, view: View)
    requires Inside(steps, k, view, None, {k + 1}, Ids(k))
    ensures var notice := Authentication(k + 1, BrowserOpened);
            Inside(steps + [NoticeStep(notice, true)], k, view, Some(notice), {k + 1}, Ids(k))
  {
    OneMore(steps, NoticeStep(Authentication(k + 1, BrowserOpened), true), view);
    BrowserOpens(Run(steps, view), k, view);
  }

  lemma CompletionRuns(steps: seq<Step>, k: nat, view: View)
    requires Inside(steps, k, view, Some(Authentication(k + 1, BrowserOpened)), {k + 1}, Ids(k))
    ensures var notice := Authentication(k + 1, Completed);
            Inside(steps + [NoticeStep(notice, true)], k, view, Some(notice), {}, Ids(k + 1))
  {
    OneMore(steps, NoticeStep(Authentication(k + 1, Completed), true), view);
    Completes(Run(steps, view), k, view);
  }

  lemma AcknowledgementRuns(steps: seq<Step>, k: nat, view: View)
    requires k <= MAX_PENDING_REQUESTS && Inside(steps, k, view, Some(Authentication(k + 1, Completed)), {}, Ids(k + 1))
    ensures Reaches(steps + [AcknowledgeStep(k + 1, true)], k + 1, view)
  {
    OneMore(steps, AcknowledgeStep(k + 1, true), view);
    Leaves(Run(steps, view), k, view);
  }

  lemma Joins(view: View)
    requires view(Basis(0, 1, false)).Some?
    ensures After(NextState(INITIAL, ConnectStep(true), view), 0)
  {
    assert Current(INITIAL) == Basis(0, 1, false);
    assert Ids(0) == {};
  }

  lemma FirstRound(view: View)
    requires view(Basis(0, 1, false)).Some?
    ensures Reaches(Rounds(0), 0, view)
  {
    Joins(view);
    OneMore([], ConnectStep(true), view);
    assert [] + [ConnectStep(true)] == Rounds(0);
  }

  lemma HalfRound(steps: seq<Step>, k: nat, view: View, half: seq<Step>)
    requires Reaches(steps, k, view) && k < MAX_PENDING_REQUESTS
    requires half == steps + [IntentStep(true)] + [NoticeStep(Authentication(k + 1, BrowserOpened), true)]
    ensures Inside(half, k, view, Some(Authentication(k + 1, BrowserOpened)), {k + 1}, Ids(k))
  {
    IntentRuns(steps, k, view);
    BrowserRuns(steps + [IntentStep(true)], k, view);
  }

  lemma OtherHalf(half: seq<Step>, k: nat, view: View, all: seq<Step>)
    requires k < MAX_PENDING_REQUESTS
    requires Inside(half, k, view, Some(Authentication(k + 1, BrowserOpened)), {k + 1}, Ids(k))
    requires all == half + [NoticeStep(Authentication(k + 1, Completed), true)] + [AcknowledgeStep(k + 1, true)]
    ensures Reaches(all, k + 1, view)
  {
    CompletionRuns(half, k, view);
    AcknowledgementRuns(half + [NoticeStep(Authentication(k + 1, Completed), true)], k, view);
  }

  lemma RoundShape(steps: seq<Step>, k: nat) returns (half: seq<Step>)
    ensures half == steps + [IntentStep(true)] + [NoticeStep(Authentication(k + 1, BrowserOpened), true)]
    ensures half + [NoticeStep(Authentication(k + 1, Completed), true)] + [AcknowledgeStep(k + 1, true)] == steps + Round(k)
  {
    half := steps + [IntentStep(true)] + [NoticeStep(Authentication(k + 1, BrowserOpened), true)];
  }

  lemma RoundReaches(steps: seq<Step>, k: nat, view: View, all: seq<Step>)
    requires Reaches(steps, k, view) && k < MAX_PENDING_REQUESTS && all == steps + Round(k)
    ensures Reaches(all, k + 1, view)
  {
    var half := RoundShape(steps, k);
    HalfRound(steps, k, view, half);
    OtherHalf(half, k, view, all);
  }

  lemma {:induction false} RoundsRun(k: nat, view: View, steps: seq<Step>)
    requires k <= MAX_PENDING_REQUESTS && view(Basis(0, 1, false)).Some? && steps == Rounds(k)
    ensures Reaches(steps, k, view)
  {
    if k == 0 {
      FirstRound(view);
    } else {
      var before := Rounds(k - 1);
      RoundsRun(k - 1, view, before);
      RoundReaches(before, k - 1, view, steps);
    }
  }

  /** Six steps: the request waits although nothing is open, queued, in flight or to be sent. */
  lemma OneRequestStays(view: View)
    requires view(Basis(0, 1, false)).Some?
    ensures var steps := Rounds(1) + [AcknowledgeStep(2, true)];
            var s := Run(steps, view);
            && |steps| == 6 && AllowedRun(steps, view)
            && s.pendingRequests == {1} && s.past.open == {} && s.pendingNotices == []
            && s.wire.inFlight.None? && s.pendingResynchronization.None?
  {
    RoundsRun(1, view, Rounds(1));
    OneMore(Rounds(1), AcknowledgeStep(2, true), view);
    assert Ids(1) == {1};
  }

  /** Once 32 sign-ins were coalesced nothing is admitted any more, whatever happens next. */
  lemma BlockedForever(before: seq<Step>, after: seq<Step>, view: View)
    requires AllowedRun(before + after, view) && |Run(before, view).past.coalesced| >= MAX_PENDING_REQUESTS
    ensures forall accepted :: DispatchIntent(Run(before + after, view), accepted).1.None?
    ensures forall ok :: DispatchResynchronize(Run(before + after, view), view, ok).1.None?
    ensures forall drained, ok :: DispatchShutdown(Run(before + after, view), drained, view, ok).1.None?
  {
    LostForever(before, after, view);
    SubsetSize(Run(before, view).past.coalesced, Run(before + after, view).pendingRequests);
  }

  /** Such a run exists over every view: 32 sign-ins later the bridge admits no request for good. */
  lemma ThirtyTwoBlock(after: seq<Step>, view: View)
    requires view(Basis(0, 1, false)).Some? && AllowedRun(Rounds(MAX_PENDING_REQUESTS) + after, view)
    ensures AllowedRun(Rounds(MAX_PENDING_REQUESTS), view)
    ensures var s := Run(Rounds(MAX_PENDING_REQUESTS) + after, view);
            && (forall accepted :: DispatchIntent(s, accepted).1.None?)
            && (forall ok :: DispatchResynchronize(s, view, ok).1.None?)
            && (forall drained, ok :: DispatchShutdown(s, drained, view, ok).1.None?)
  {
    RoundsRun(MAX_PENDING_REQUESTS, view, Rounds(MAX_PENDING_REQUESTS));
    BlockedForever(Rounds(MAX_PENDING_REQUESTS), after, view);
  }
}
