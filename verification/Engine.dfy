/** The session aggregate: attempts, tool calls and context-turn bindings under every durable command. */
module Engine {
  import opened Lists
  import opened Text

  const U32_LIMIT: nat := 0x1_0000_0000

  datatype AttemptStatus = Prepared | InFlight | AwaitingTools | CancellationRequested
                         | Completed | Failed | Cancelled | Unknown

  datatype CallStatus = CallProposed | PermissionPending | Authorized | DeniedPending | Running
                      | CallCompleted | CallFailed | CallDenied | CallCancelled | CallUnknown

  datatype Binding = Binding(runTurn: nat, turnId: string, manifestHash: string, sequence: nat)

  datatype Attempt = Attempt(id: string, status: AttemptStatus, turnsStarted: nat, ready: bool,
                             maxTurns: Option<nat>, bindings: seq<Binding>)

  datatype ToolCall = ToolCall(id: string, attemptId: string, status: CallStatus)

  /** Where a context turn was bound: which attempt, which of its turns. */
  datatype Place = Place(attempt: nat, turn: nat)

  /** The keys of `bound` are the bound context turns; its values and `started`, the dispatched turns, are history. */
  datatype Session = Session(attempts: seq<Attempt>, calls: seq<ToolCall>, last: nat,
                             bound: map<string, Place>, started: seq<string>)

  const NEW_SESSION: Session := Session([], [], 1, map[], [])

  datatype AttemptAct =
    | Configure(maxTurns: nat) | Start | Bind(runTurn: nat, turnId: string, manifestHash: string) | StartTurn
    | RequestCancellation | Complete | Fail | Cancel | MarkUnknown | Pause | Resume

  datatype Outcome = Allow | Ask | Deny

  datatype CallAct = Record(outcome: Outcome) | Answer(allow: bool) | StartCall | CompleteCall | FailCall
                   | DenyCall | CancelCall | MarkCallUnknown

  /** `Other` stands for every command that touches neither attempts nor tool calls, by the events it appends. */
  datatype Command = Other(events: nat) | Prepare(id: string, earlierEvents: nat) | OnAttempt(id: string, act: AttemptAct)
                   | Propose(attemptId: string, callId: string) | OnCall(callId: string, callAct: CallAct)

  predicate Settled(status: AttemptStatus) {
    status in {Completed, Failed, Cancelled, Unknown}
  }

  predicate CallSettled(status: CallStatus) {
    status in {CallCompleted, CallFailed, CallDenied, CallCancelled, CallUnknown}
  }

  // ---------------------------------------------------------------- lookup

  function FindAttempt(attempts: seq<Attempt>, id: string): (r: Option<nat>)
    ensures r.Some? ==> r.value < |attempts| && attempts[r.value].id == id
    ensures r.None? ==> forall i :: 0 <= i < |attempts| ==> attempts[i].id != id
  {
    FindFrom(attempts, (a: Attempt) => a.id, id, 0)
  }

  function FindCall(calls: seq<ToolCall>, id: string): (r: Option<nat>)
    ensures r.Some? ==> r.value < |calls| && calls[r.value].id == id
    ensures r.None? ==> forall i :: 0 <= i < |calls| ==> calls[i].id != id
  {
    FindFrom(calls, (c: ToolCall) => c.id, id, 0)
  }

  // ---------------------------------------------------------------- transitions

  /** The binding that no dispatch has consumed yet. */
  function Pending(a: Attempt): (b: Option<Binding>) {
    if a.turnsStarted + 1 < U32_LIMIT && a.bindings != []
       && a.bindings[|a.bindings| - 1].runTurn == a.turnsStarted + 1
    then Some(a.bindings[|a.bindings| - 1]) else None
  }

  predicate DispatchReady(a: Attempt) {
    a.status == InFlight && a.ready
  }

  predicate CallsSettled(calls: seq<ToolCall>, attemptId: string) {
    forall k :: 0 <= k < |calls| && calls[k].attemptId == attemptId ==> CallSettled(calls[k].status)
  }

  predicate WithinBudget(a: Attempt, turn: nat) {
    a.maxTurns.Some? ==> turn <= a.maxTurns.value
  }

  predicate Bindable(s: Session, a: Attempt, runTurn: nat, turnId: string) {
    && DispatchReady(a) && turnId !in s.bound
    && runTurn == a.turnsStarted + 1 && runTurn < U32_LIMIT && Pending(a).None? && WithinBudget(a, runTurn)
  }

  /** A turn starts only from the binding that is the very last event of the session. */
  predicate Startable(s: Session, a: Attempt) {
    && DispatchReady(a) && Pending(a).Some? && s.last == Pending(a).value.sequence
    && WithinBudget(a, a.turnsStarted + 1)
  }

  /** The status that a lifecycle command leads to, or nothing when it is rejected. */
  function StatusAfter(status: AttemptStatus, act: AttemptAct, quiet: bool): (r: Option<AttemptStatus>) {
    match act
    case RequestCancellation => if status in {InFlight, AwaitingTools} then Some(CancellationRequested) else None
    case Complete =>
      if quiet && status in {InFlight, AwaitingTools, CancellationRequested} then Some(Completed) else None
    case Fail =>
      if quiet && status in {Prepared, InFlight, AwaitingTools, CancellationRequested} then Some(Failed) else None
    case Cancel => if quiet && status == CancellationRequested then Some(Cancelled) else None
    case MarkUnknown => if quiet && status in {InFlight, CancellationRequested} then Some(Unknown) else None
    case _ => None
  }

  function AttemptAfter(s: Session, a: Attempt, act: AttemptAct): (r: Option<Attempt>) {
    match act
    case Configure(maxTurns) =>
      if a.status == Prepared && a.maxTurns.None? then Some(a.(maxTurns := Some(maxTurns))) else None
    case Start => if a.status == Prepared then Some(a.(status := InFlight, ready := true)) else None
    case Bind(runTurn, turnId, manifestHash) =>
      if Bindable(s, a, runTurn, turnId)
      then Some(a.(bindings := a.bindings + [Binding(runTurn, turnId, manifestHash, s.last + 1)])) else None
    case StartTurn =>
      if Startable(s, a) then Some(a.(turnsStarted := a.turnsStarted + 1, ready := false)) else None
    case Pause =>
      if a.status == InFlight && !a.ready && a.turnsStarted > 0
         && (exists k :: 0 <= k < |s.calls| && s.calls[k].attemptId == a.id)
      then Some(a.(status := AwaitingTools)) else None
    case Resume =>
      if a.status == AwaitingTools && CallsSettled(s.calls, a.id) then Some(a.(status := InFlight, ready := true))
      else None
    case _ =>
      var status := StatusAfter(a.status, act, CallsSettled(s.calls, a.id));
      if status.Some? then Some(a.(status := status.value)) else None
  }

  function ApplyAttempt(s: Session, i: nat, act: AttemptAct): (r: Option<Session>)
    requires i < |s.attempts|
  {
    var a := s.attempts[i];
    var after := AttemptAfter(s, a, act);
    if after.None? then None
    else
      var t := s.(attempts := s.attempts[i := after.value], last := s.last + 1);
      Some(if act.Bind? then t.(bound := s.bound[act.turnId := Place(i, |a.bindings|)])
           else if act.StartTurn? then t.(started := s.started + [Pending(a).value.turnId])
           else t)
  }

  function CallAfter(status: CallStatus, parent: AttemptStatus, act: CallAct): (r: Option<CallStatus>) {
    match act
    case Record(outcome) =>
      if status != CallProposed then None
      else Some(match outcome case Allow => Authorized case Ask => PermissionPending case Deny => DeniedPending)
    case Answer(allow) =>
      if status != PermissionPending then None else Some(if allow then Authorized else DeniedPending)
    case StartCall => if status == Authorized && parent in {InFlight, AwaitingTools} then Some(Running) else None
    case CompleteCall => if status == Running then Some(CallCompleted) else None
    case FailCall => if status == Running then Some(CallFailed) else None
    case DenyCall => if status == DeniedPending then Some(CallDenied) else None
    case CancelCall =>
      if status in {CallProposed, PermissionPending, Authorized, Running} then Some(CallCancelled) else None
    case MarkCallUnknown => if status == Running then Some(CallUnknown) else None
  }

  function ParentStatus(s: Session, k: nat): (r: AttemptStatus)
    requires k < |s.calls|
  {
    var i := FindAttempt(s.attempts, s.calls[k].attemptId);
    if i.Some? then s.attempts[i.value].status else Unknown
  }

  function ApplyCall(s: Session, k: nat, act: CallAct): (r: Option<Session>)
    requires k < |s.calls|
  {
    var status := CallAfter(s.calls[k].status, ParentStatus(s, k), act);
    if status.None? then None
    else Some(s.(calls := s.calls[k := s.calls[k].(status := status.value)], last := s.last + 1))
  }

  function ProposeCall(s: Session, attemptId: string, callId: string): (r: Option<Session>) {
    var i := FindAttempt(s.attempts, attemptId);
    if i.None? || s.attempts[i.value].status != InFlight || FindCall(s.calls, callId).Some? then None
    else Some(s.(calls := s.calls + [ToolCall(callId, attemptId, CallProposed)], last := s.last + 1))
  }

  function PrepareAttempt(s: Session, id: string, earlierEvents: nat): (r: Option<Session>) {
    if FindAttempt(s.attempts, id).Some? then None
    else Some(s.(attempts := s.attempts + [Attempt(id, Prepared, 0, false, None, [])],
                 last := s.last + earlierEvents + 1))
  }

  /** Deciding a command and applying its events; nothing when the aggregate rejects it. */
  function Execute(s: Session, command: Command): (r: Option<Session>) {
    match command
    case Other(events) => Some(s.(last := s.last + events))
    case Prepare(id, earlierEvents) => PrepareAttempt(s, id, earlierEvents)
    case OnAttempt(id, act) =>
      var i := FindAttempt(s.attempts, id);
      if i.None? then None else ApplyAttempt(s, i.value, act)
    case Propose(attemptId, callId) => ProposeCall(s, attemptId, callId)
    case OnCall(callId, act) =>
      var k := FindCall(s.calls, callId);
      if k.None? then None else ApplyCall(s, k.value, act)
  }

  // ---------------------------------------------------------------- what every command keeps

  ghost predicate UniqueAttempts(attempts: seq<Attempt>) {
    forall i, j :: 0 <= i < j < |attempts| ==> attempts[i].id != attempts[j].id
  }

  ghost predicate UniqueCalls(calls: seq<ToolCall>) {
    forall i, j :: 0 <= i < j < |calls| ==> calls[i].id != calls[j].id
  }

  predicate Live(status: AttemptStatus) {
    status in {InFlight, AwaitingTools, CancellationRequested}
  }

  /** Every call belongs to an attempt, and one that is not settled to a live attempt. */
  ghost predicate Owned(attempts: seq<Attempt>, c: ToolCall) {
    exists i :: 0 <= i < |attempts| && attempts[i].id == c.attemptId && (CallSettled(c.status) || Live(attempts[i].status))
  }

  ghost predicate AllOwned(s: Session) {
    forall k :: 0 <= k < |s.calls| ==> Owned(s.attempts, s.calls[k])
  }

  /** Turns are bound in order, within budget, at most one ahead of those started, never after the end of the log. */
  ghost predicate Bound(s: Session, i: nat)
    requires i < |s.attempts|
  {
    var a := s.attempts[i];
    && a.turnsStarted <= |a.bindings| <= a.turnsStarted + 1
    && WithinBudget(a, |a.bindings|) && (a.status == Prepared ==> a.bindings == [])
    && forall m :: 0 <= m < |a.bindings| ==>
         && a.bindings[m].runTurn == m + 1
         && 0 < a.bindings[m].sequence <= s.last
         && a.bindings[m].turnId in s.bound && s.bound[a.bindings[m].turnId] == Place(i, m)
  }

  ghost predicate AllBound(s: Session) {
    forall i {:trigger Bound(s, i)} :: 0 <= i < |s.attempts| ==> Bound(s, i)
  }

  function LatestBound(a: Attempt): (n: nat) {
    if a.bindings == [] then 0 else a.bindings[|a.bindings| - 1].sequence
  }

  /** No two attempts were bound by the same event. */
  ghost predicate BoundApart(attempts: seq<Attempt>) {
    forall i, j :: 0 <= i < j < |attempts| && attempts[i].bindings != [] && attempts[j].bindings != [] ==>
      LatestBound(attempts[i]) != LatestBound(attempts[j])
  }

  /** A started turn sits in its attempt below the number of turns started. */
  ghost predicate StartedAt(s: Session, turnId: string) {
    && turnId in s.bound
    && s.bound[turnId].attempt < |s.attempts|
    && s.bound[turnId].turn < s.attempts[s.bound[turnId].attempt].turnsStarted
  }

  ghost predicate StartedOnce(s: Session) {
    && (forall k :: 0 <= k < |s.started| ==> StartedAt(s, s.started[k]))
    && (forall j, k :: 0 <= j < k < |s.started| ==> s.started[j] != s.started[k])
  }

  ghost predicate Consistent(s: Session) {
    && UniqueAttempts(s.attempts) && UniqueCalls(s.calls)
    && AllOwned(s) && AllBound(s) && BoundApart(s.attempts) && StartedOnce(s)
  }

  lemma NewSessionIsConsistent()
    ensures Consistent(NEW_SESSION)
  {
  }

  // ---------------------------------------------------------------- proofs, transition by transition

  lemma OwnedWiden(a: seq<Attempt>, b: seq<Attempt>, c: ToolCall)
    requires Owned(a, c) && |a| <= |b|
    requires forall i :: 0 <= i < |a| ==> b[i].id == a[i].id && (Live(a[i].status) ==> Live(b[i].status))
    ensures Owned(b, c)
  {
    var i :| 0 <= i < |a| && a[i].id == c.attemptId && (CallSettled(c.status) || Live(a[i].status));
    assert b[i].id == c.attemptId;
  }

  /** When an attempt stops being live, its calls have settled. */
  lemma AttemptKeepsOwned(s: Session, i: nat, act: AttemptAct, t: Session)
    requires i < |s.attempts| && AllOwned(s) && UniqueAttempts(s.attempts) && ApplyAttempt(s, i, act) == Some(t)
    ensures AllOwned(t)
  {
    forall k | 0 <= k < |t.calls| ensures Owned(t.attempts, t.calls[k]) {
      var c := s.calls[k];
      var j :| 0 <= j < |s.attempts| && s.attempts[j].id == c.attemptId
               && (CallSettled(c.status) || Live(s.attempts[j].status));
      assert t.attempts[j].id == c.attemptId;
      if j == i && !Live(t.attempts[i].status) {
        assert CallsSettled(s.calls, s.attempts[i].id) || s.attempts[i].status == Prepared;
      }
    }
  }

  lemma AttemptKeepsBound(s: Session, i: nat, act: AttemptAct, t: Session)
    requires i < |s.attempts| && AllBound(s) && ApplyAttempt(s, i, act) == Some(t)
    ensures AllBound(t)
  {
    forall j | 0 <= j < |t.attempts| ensures Bound(t, j) {
      assert Bound(s, j);
      assert Bound(s, i);
      if act.Bind? {
        BindKeepsBound(s, i, act, t, j);
      }
    }
  }

  lemma BindKeepsBound(s: Session, i: nat, act: AttemptAct, t: Session, j: nat)
    requires i < |s.attempts| && j < |s.attempts| && act.Bind? && ApplyAttempt(s, i, act) == Some(t)
    requires Bound(s, i) && Bound(s, j)
    ensures Bound(t, j)
  {
    var a, b := s.attempts[j], t.attempts[j];
    assert act.turnId !in s.bound;
    forall m | 0 <= m < |b.bindings|
      ensures && b.bindings[m].runTurn == m + 1 && 0 < b.bindings[m].sequence <= t.last
              && b.bindings[m].turnId in t.bound && t.bound[b.bindings[m].turnId] == Place(j, m)
    {
      if m < |a.bindings| {
        assert b.bindings[m] == a.bindings[m];
      }
    }
  }

  lemma AttemptKeepsApart(s: Session, i: nat, act: AttemptAct, t: Session)
    requires i < |s.attempts| && AllBound(s) && BoundApart(s.attempts) && ApplyAttempt(s, i, act) == Some(t)
    ensures BoundApart(t.attempts)
  {
    forall j | 0 <= j < |s.attempts| && s.attempts[j].bindings != [] ensures LatestBound(s.attempts[j]) <= s.last {
      assert Bound(s, j);
    }
  }

  /** The pending turn has not been started: started turns lie below it. */
  lemma AttemptKeepsStarted(s: Session, i: nat, act: AttemptAct, t: Session)
    requires i < |s.attempts| && AllBound(s) && StartedOnce(s) && ApplyAttempt(s, i, act) == Some(t)
    ensures StartedOnce(t)
  {
    assert Bound(s, i);
    forall k | 0 <= k < |s.started| ensures StartedAt(t, s.started[k]) {
      assert StartedAt(s, s.started[k]);
    }
    if act.StartTurn? {
      var a := s.attempts[i];
      var m := |a.bindings| - 1;
      assert a.bindings[m].runTurn == m + 1 == a.turnsStarted + 1;
      assert s.bound[a.bindings[m].turnId] == Place(i, m);
      assert StartedAt(t, a.bindings[m].turnId);
    }
  }

  lemma ApplyAttemptKeeps(s: Session, i: nat, act: AttemptAct, t: Session)
    requires i < |s.attempts| && Consistent(s) && ApplyAttempt(s, i, act) == Some(t)
    ensures Consistent(t) && t.calls == s.calls && t.last == s.last + 1
  {
    AttemptKeepsOwned(s, i, act, t);
    AttemptKeepsBound(s, i, act, t);
    AttemptKeepsApart(s, i, act, t);
    AttemptKeepsStarted(s, i, act, t);
    assert forall j :: 0 <= j < |t.attempts| ==> t.attempts[j].id == s.attempts[j].id;
  }

  /** Bindings, starts and the log only ask that attempts and history stay and that the log does not shrink. */
  lemma LogGrowsKeeps(s: Session, t: Session)
    requires Consistent(s) && t.attempts == s.attempts && t.bound == s.bound && t.started == s.started && s.last <= t.last
    ensures AllBound(t) && BoundApart(t.attempts) && StartedOnce(t) && UniqueAttempts(t.attempts)
  {
    forall i | 0 <= i < |t.attempts| ensures Bound(t, i) {
      assert Bound(s, i);
    }
    forall k | 0 <= k < |t.started| ensures StartedAt(t, t.started[k]) {
      assert StartedAt(s, s.started[k]);
    }
  }

  lemma SettlingKeepsOwned(attempts: seq<Attempt>, c: ToolCall, d: ToolCall)
    requires Owned(attempts, c) && d.attemptId == c.attemptId && (CallSettled(c.status) ==> CallSettled(d.status))
    ensures Owned(attempts, d)
  {
    var i :| 0 <= i < |attempts| && attempts[i].id == c.attemptId && (CallSettled(c.status) || Live(attempts[i].status));
    assert attempts[i].id == d.attemptId;
  }

  lemma ApplyCallKeeps(s: Session, k: nat, act: CallAct, t: Session)
    requires k < |s.calls| && Consistent(s) && ApplyCall(s, k, act) == Some(t)
    ensures Consistent(t) && t.attempts == s.attempts && t.last == s.last + 1
  {
    LogGrowsKeeps(s, t);
    forall j | 0 <= j < |t.calls| ensures Owned(t.attempts, t.calls[j]) {
      SettlingKeepsOwned(s.attempts, s.calls[j], t.calls[j]);
    }
    assert forall j :: 0 <= j < |t.calls| ==> t.calls[j].id == s.calls[j].id;
  }

  lemma ProposeKeeps(s: Session, attemptId: string, callId: string, t: Session)
    requires Consistent(s) && ProposeCall(s, attemptId, callId) == Some(t)
    ensures Consistent(t)
  {
    LogGrowsKeeps(s, t);
    var i := FindAttempt(s.attempts, attemptId).value;
    forall k | 0 <= k < |t.calls| ensures Owned(t.attempts, t.calls[k]) {
      if k == |s.calls| {
        assert t.attempts[i].id == attemptId && Live(t.attempts[i].status);
      }
    }
  }

  lemma PrepareKeeps(s: Session, id: string, earlierEvents: nat, t: Session)
    requires Consistent(s) && PrepareAttempt(s, id, earlierEvents) == Some(t)
    ensures Consistent(t)
  {
    forall k | 0 <= k < |t.calls| ensures Owned(t.attempts, t.calls[k]) {
      OwnedWiden(s.attempts, t.attempts, s.calls[k]);
    }
    forall i | 0 <= i < |t.attempts| ensures Bound(t, i) {
      if i < |s.attempts| {
        assert Bound(s, i);
      }
    }
    forall k | 0 <= k < |t.started| ensures StartedAt(t, t.started[k]) {
      assert StartedAt(s, s.started[k]);
    }
  }

  /** Every accepted command keeps the aggregate consistent. */
  lemma ExecuteKeeps(s: Session, command: Command)
    requires Consistent(s) && Execute(s, command).Some?
    ensures Consistent(Execute(s, command).value)
  {
    var t := Execute(s, command).value;
    match command
    case Other(events) => LogGrowsKeeps(s, t);
    case Prepare(id, earlierEvents) => PrepareKeeps(s, id, earlierEvents, t);
    case OnAttempt(id, act) => ApplyAttemptKeeps(s, FindAttempt(s.attempts, id).value, act, t);
    case Propose(attemptId, callId) => ProposeKeeps(s, attemptId, callId, t);
    case OnCall(callId, act) => ApplyCallKeeps(s, FindCall(s.calls, callId).value, act, t);
  }
}
