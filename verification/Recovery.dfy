/** Startup reconciliation of interrupted tool calls and attempts, and the guarded start of a recovered turn. */
module Recovery {
  import opened Text
  import opened Engine
  import Ledger
  import LedgerAudit
  import Planner

  // ---------------------------------------------------------------- the exact pending context

  /** `verified` says that the stored hash is the one recomputed from the manifest. */
  datatype Manifest = Manifest(sessionId: string, attemptId: string, runTurn: nat, turnId: string, manifestHash: string,
                               expectedSequence: nat, requestHash: string, admissions: seq<string>, verified: bool)

  /** A committed context turn with the rows and the rendered texts that are still retained. */
  datatype StoredTurn = StoredTurn(manifest: Manifest, admissions: seq<string>, prelude: bool, texts: set<string>)

  type Contexts = map<string, StoredTurn>

  datatype Loaded = Broken | Absent | Exact(manifest: Manifest)

  predicate ManifestMatches(m: Manifest, sessionId: string, attemptId: string, b: Binding) {
    && m.sessionId == sessionId && m.attemptId == attemptId && m.runTurn == b.runTurn && m.turnId == b.turnId
    && m.manifestHash == b.manifestHash && m.expectedSequence + 1 == b.sequence && m.verified
  }

  /** What the store says of a turn: a contradiction, erased text, or exactly what was committed. */
  function ReadTurn(turn: StoredTurn): (r: Loaded) {
    if turn.admissions != turn.manifest.admissions then Broken
    else if turn.admissions == [] then (if turn.prelude then Broken else Exact(turn.manifest))
    else if !turn.prelude || exists i :: 0 <= i < |turn.admissions| && turn.admissions[i] !in turn.texts then Absent
    else Exact(turn.manifest)
  }

  function LoadExact(contexts: Contexts, sessionId: string, s: Session, i: nat): (r: Loaded)
    requires i < |s.attempts|
  {
    var a := s.attempts[i];
    if !DispatchReady(a) || Pending(a).None? || s.last != Pending(a).value.sequence then Absent
    else
      var b := Pending(a).value;
      if b.turnId !in contexts || !ManifestMatches(contexts[b.turnId].manifest, sessionId, a.id, b) then Broken
      else ReadTurn(contexts[b.turnId])
  }

  predicate IsExact(contexts: Contexts, sessionId: string, s: Session, i: nat)
    requires i < |s.attempts|
  {
    LoadExact(contexts, sessionId, s, i).Exact?
  }

  // ---------------------------------------------------------------- repairing tool calls

  /**
   What is found for a running call: its context cannot be loaded, it makes no proposal, or it makes one whose
   command is rebuilt and whose ledger item is read.
   */
  datatype Finding = Unread | NoProposal | Rebuilt(command: Planner.Command, item: Ledger.Item)

  type Findings = string -> Finding

  /** What the proposal check says of a running call. */
  datatype Proposal = NotCommitted | Committed | Unreadable

  /** The text kept for the revision that a command introduces. */
  function ContentOf(command: Planner.Command, item: Ledger.Item): (content: Option<string>) {
    if command.request.CreateMemory? && command.request.draft.id in item.contents
    then Some(item.contents[command.request.draft.id]) else None
  }

  /** The check of a rebuilt command against the first page of its item's operations. */
  predicate ShownCommitted(command: Planner.Command, item: Ledger.Item) {
    LedgerAudit.ProposalCommitted(command, LedgerAudit.FirstPage(item.operations), ContentOf(command, item))
  }

  function Judged(finding: Finding): (r: Proposal) {
    match finding
    case Unread => Unreadable
    case NoProposal => NotCommitted
    case Rebuilt(command, item) => if ShownCommitted(command, item) then Committed else NotCommitted
  }

  function Verdicts(findings: Findings): (proposals: Proposals) {
    id => Judged(findings(id))
  }

  function CallRepair(status: CallStatus, parent: AttemptStatus, proposal: Proposal): (r: Option<CallAct>) {
    match status
    case Running => Some(if proposal == Committed then CompleteCall else MarkCallUnknown)
    case DeniedPending => Some(DenyCall)
    case CallProposed => Some(CancelCall)
    case Authorized => Some(CancelCall)
    case PermissionPending => if parent in {InFlight, CancellationRequested} then Some(CancelCall) else None
    case _ => None
  }

  /** A pass over a session: the state reached, whether it completed, and the two counters. */
  datatype Pass = Pass(session: Session, ok: bool, failed: nat, unknown: nat)

  /** What the check says of each call; the store's own answers are `Verdicts` of what is found. */
  type Proposals = string -> Proposal

  function CallStep(s: Session, proposals: Proposals, k: nat): (r: Pass)
    requires k < |s.calls|
    ensures |r.session.calls| == |s.calls|
  {
    var c := s.calls[k];
    if c.status == Running && proposals(c.id) == Unreadable then Pass(s, false, 0, 0)
    else
      var act := CallRepair(c.status, ParentStatus(s, k), proposals(c.id));
      if act.None? then Pass(s, true, 0, 0)
      else
        var t := Execute(s, OnCall(c.id, act.value));
        if t.None? then Pass(s, false, 0, 0) else Pass(t.value, true, 0, 0)
  }

  function RepairCalls(s: Session, proposals: Proposals, k: nat): (r: Pass)
    requires k <= |s.calls|
    ensures |r.session.calls| == |s.calls|
    decreases |s.calls| - k
  {
    if k == |s.calls| then Pass(s, true, 0, 0)
    else
      var p := CallStep(s, proposals, k);
      if !p.ok then p else RepairCalls(p.session, proposals, k + 1)
  }

  // ---------------------------------------------------------------- repairing attempts

  function AttemptRepair(a: Attempt, exact: bool): (r: Option<AttemptAct>) {
    match a.status
    case Prepared => Some(Fail)
    case InFlight => if exact then None else Some(if a.ready || a.turnsStarted == 0 then Fail else MarkUnknown)
    case CancellationRequested => Some(if a.turnsStarted == 0 then Fail else MarkUnknown)
    case _ => None
  }

  function AttemptStep(contexts: Contexts, sessionId: string, s: Session, i: nat): (r: Pass)
    requires i < |s.attempts|
    ensures |r.session.attempts| == |s.attempts|
  {
    var a := s.attempts[i];
    if LoadExact(contexts, sessionId, s, i).Broken? then Pass(s, false, 0, 0)
    else
      var act := AttemptRepair(a, IsExact(contexts, sessionId, s, i));
      if act.None? then Pass(s, true, 0, 0)
      else
        var t := Execute(s, OnAttempt(a.id, act.value));
        if t.None? then Pass(s, false, 0, 0)
        else Pass(t.value, true, if act.value == Fail then 1 else 0, if act.value == Fail then 0 else 1)
  }

  function Added(p: Pass, rest: Pass): (r: Pass) {
    rest.(failed := p.failed + rest.failed, unknown := p.unknown + rest.unknown)
  }

  function RepairAttempts(contexts: Contexts, sessionId: string, s: Session, i: nat): (r: Pass)
    requires i <= |s.attempts|
    ensures |r.session.attempts| == |s.attempts|
    decreases |s.attempts| - i
  {
    if i == |s.attempts| then Pass(s, true, 0, 0)
    else
      var p := AttemptStep(contexts, sessionId, s, i);
      if !p.ok then p else Added(p, RepairAttempts(contexts, sessionId, p.session, i + 1))
  }

  /** Every unsettled call names an attempt of the session. */
  predicate ParentsKnown(s: Session) {
    forall k :: 0 <= k < |s.calls| && !CallSettled(s.calls[k].status) ==>
      FindAttempt(s.attempts, s.calls[k].attemptId).Some?
  }

  function ReconcileSession(contexts: Contexts, sessionId: string, s: Session, proposals: Proposals): (r: Pass) {
    if !ParentsKnown(s) then Pass(s, false, 0, 0)
    else
      var calls := RepairCalls(s, proposals, 0);
      if !calls.ok then calls else RepairAttempts(contexts, sessionId, calls.session, 0)
  }

  // ---------------------------------------------------------------- the recovered start

  /** Starts the pending turn only for the very manifest and request that were bound. */
  function StartRecovered(contexts: Contexts, s: Session, expected: Manifest, requestHash: string): (r: Option<Session>) {
    var i := FindAttempt(s.attempts, expected.attemptId);
    if i.None? || LoadExact(contexts, expected.sessionId, s, i.value) != Exact(expected)
       || requestHash != expected.requestHash then None
    else Execute(s, OnAttempt(expected.attemptId, StartTurn))
  }

  // ---------------------------------------------------------------- the engine

  /** A sweep over several sessions: the states reached, whether it completed, and the summed counters. */
  datatype Sweep = Sweep(sessions: map<string, Session>, ok: bool, failed: nat, unknown: nat)

  function ReconcileAll(contexts: Contexts, sessions: map<string, Session>, ids: seq<string>, proposals: Proposals):
      (r: Sweep)
    decreases |ids|
  {
    if ids == [] then Sweep(sessions, true, 0, 0)
    else if ids[0] !in sessions then Sweep(sessions, false, 0, 0)
    else
      var p := ReconcileSession(contexts, ids[0], sessions[ids[0]], proposals);
      var updated := sessions[ids[0] := p.session];
      if !p.ok then Sweep(updated, false, 0, 0)
      else
        var rest := ReconcileAll(contexts, updated, ids[1..], proposals);
        rest.(failed := p.failed + rest.failed, unknown := p.unknown + rest.unknown)
  }

  /** Attempts and calls are indexed by identity. */
  ghost predicate Keyed(s: Session) {
    UniqueAttempts(s.attempts) && UniqueCalls(s.calls)
  }

  class LocalEngine {
    var sessions: map<string, Session>

    constructor (sessions: map<string, Session>)
      ensures this.sessions == sessions
    {
      this.sessions := sessions;
    }

    method Perform(sessionId: string, command: Command) returns (ok: bool)
      requires sessionId in sessions
      modifies this
      ensures ok == Execute(old(sessions)[sessionId], command).Some?
      ensures sessions == if ok then old(sessions)[sessionId := Execute(old(sessions)[sessionId], command).value]
                          else old(sessions)
    {
      var next := Execute(sessions[sessionId], command);
      ok := next.Some?;
      if ok {
        sessions := sessions[sessionId := next.value];
      }
    }

    /** One call as it was listed when the pass began. */
    method SettleCall(sessionId: string, proposals: Proposals, k: nat, call: ToolCall) returns (ok: bool)
      requires sessionId in sessions && k < |sessions[sessionId].calls| && call == sessions[sessionId].calls[k]
      modifies this
      ensures var p := CallStep(old(sessions)[sessionId], proposals, k);
              ok == p.ok && sessions == old(sessions)[sessionId := p.session]
    {
      if call.status == Running && proposals(call.id) == Unreadable {
        return false;
      }
      var act := CallRepair(call.status, ParentStatus(sessions[sessionId], k), proposals(call.id));
      if act.None? {
        return true;
      }
      ok := Perform(sessionId, OnCall(call.id, act.value));
    }

    /** Repairs the calls that were unsettled when the pass began, in proposal order. */
    method SettleCalls(sessionId: string, proposals: Proposals) returns (ok: bool)
      requires sessionId in sessions && UniqueCalls(sessions[sessionId].calls)
      modifies this
      ensures var p := RepairCalls(old(sessions)[sessionId], proposals, 0);
              ok == p.ok && sessions == old(sessions)[sessionId := p.session]
    {
      var listed := sessions[sessionId].calls;
      ghost var whole := RepairCalls(sessions[sessionId], proposals, 0);
      for k := 0 to |listed|
        invariant sessionId in sessions && |sessions[sessionId].calls| == |listed|
        invariant sessions == old(sessions)[sessionId := sessions[sessionId]]
        invariant UniqueCalls(sessions[sessionId].calls) && sessions[sessionId].calls[k..] == listed[k..]
        invariant LeadsTo(sessions[sessionId], proposals, k, whole)
      {
        ok := SettleNextCall(sessionId, proposals, k, listed, whole);
        if !ok {
          return;
        }
      }
      CallsEnd(sessions[sessionId], proposals, |listed|, whole);
      ok := true;
    }

    /** One round of the loop over the listed calls. */
    method SettleNextCall(sessionId: string, proposals: Proposals, k: nat, listed: seq<ToolCall>, ghost whole: Pass)
        returns (ok: bool)
      requires sessionId in sessions && k < |sessions[sessionId].calls| == |listed|
      requires UniqueCalls(sessions[sessionId].calls) && sessions[sessionId].calls[k..] == listed[k..]
      requires LeadsTo(sessions[sessionId], proposals, k, whole)
      modifies this
      ensures sessionId in sessions && sessions == old(sessions)[sessionId := sessions[sessionId]]
      ensures |sessions[sessionId].calls| == |listed| && UniqueCalls(sessions[sessionId].calls)
      ensures sessions[sessionId].calls[k + 1..] == listed[k + 1..]
      ensures if ok then LeadsTo(sessions[sessionId], proposals, k + 1, whole)
              else !whole.ok && whole.session == sessions[sessionId]
    {
      assert listed[k] == listed[k..][0] == sessions[sessionId].calls[k];
      CallStepFrame(sessions[sessionId], proposals, k, listed);
      CallsUnfold(sessions[sessionId], proposals, k, whole);
      ok := SettleCall(sessionId, proposals, k, listed[k]);
    }

    /** One attempt as it was listed after the calls had been repaired. */
    method SettleAttempt(contexts: Contexts, sessionId: string, i: nat, attempt: Attempt)
        returns (ok: bool, failed: nat, unknown: nat)
      requires sessionId in sessions && i < |sessions[sessionId].attempts| && attempt == sessions[sessionId].attempts[i]
      modifies this
      ensures var p := AttemptStep(contexts, sessionId, old(sessions)[sessionId], i);
              && ok == p.ok && failed == p.failed && unknown == p.unknown
              && sessions == old(sessions)[sessionId := p.session]
    {
      failed, unknown := 0, 0;
      var loaded := LoadExact(contexts, sessionId, sessions[sessionId], i);
      if loaded.Broken? {
        return false, 0, 0;
      }
      var act := AttemptRepair(attempt, loaded.Exact?);
      if act.None? {
        return true, 0, 0;
      }
      ok := Perform(sessionId, OnAttempt(attempt.id, act.value));
      if ok && act.value == Fail {
        failed := 1;
      } else if ok {
        unknown := 1;
      }
    }

    /** Repairs the attempts that were unsettled when the calls had been repaired, in preparation order. */
    method SettleAttempts(contexts: Contexts, sessionId: string) returns (ok: bool, failed: nat, unknown: nat)
      requires sessionId in sessions && UniqueAttempts(sessions[sessionId].attempts)
      modifies this
      ensures var p := RepairAttempts(contexts, sessionId, old(sessions)[sessionId], 0);
              && ok == p.ok && sessions == old(sessions)[sessionId := p.session]
              && (ok ==> failed == p.failed && unknown == p.unknown)
    {
      var listed := sessions[sessionId].attempts;
      ghost var whole := RepairAttempts(contexts, sessionId, sessions[sessionId], 0);
      failed, unknown := 0, 0;
      for i := 0 to |listed|
        invariant sessionId in sessions && |sessions[sessionId].attempts| == |listed|
        invariant sessions == old(sessions)[sessionId := sessions[sessionId]]
        invariant UniqueAttempts(sessions[sessionId].attempts) && sessions[sessionId].attempts[i..] == listed[i..]
        invariant Continues(whole, RepairAttempts(contexts, sessionId, sessions[sessionId], i), failed, unknown)
      {
        ok, failed, unknown := SettleNext(contexts, sessionId, i, listed, failed, unknown, whole);
        if !ok {
          return;
        }
      }
      AttemptsEnd(contexts, sessionId, sessions[sessionId], |listed|, whole, failed, unknown);
      ok := true;
    }

    /** One round of the loop over the listed attempts. */
    method SettleNext(contexts: Contexts, sessionId: string, i: nat, listed: seq<Attempt>, failed: nat, unknown: nat,
                      ghost whole: Pass)
        returns (ok: bool, nowFailed: nat, nowUnknown: nat)
      requires sessionId in sessions && i < |sessions[sessionId].attempts| == |listed|
      requires UniqueAttempts(sessions[sessionId].attempts) && sessions[sessionId].attempts[i..] == listed[i..]
      requires Continues(whole, RepairAttempts(contexts, sessionId, sessions[sessionId], i), failed, unknown)
      modifies this
      ensures sessionId in sessions && sessions == old(sessions)[sessionId := sessions[sessionId]]
      ensures |sessions[sessionId].attempts| == |listed| && UniqueAttempts(sessions[sessionId].attempts)
      ensures sessions[sessionId].attempts[i + 1..] == listed[i + 1..]
      ensures if ok then Continues(whole, RepairAttempts(contexts, sessionId, sessions[sessionId], i + 1), nowFailed, nowUnknown)
              else !whole.ok && whole.session == sessions[sessionId]
    {
      assert listed[i] == listed[i..][0] == sessions[sessionId].attempts[i];
      AttemptStepFrame(contexts, sessionId, sessions[sessionId], i, listed);
      AttemptsUnfold(contexts, sessionId, sessions[sessionId], i, whole, failed, unknown);
      var newlyFailed, newlyUnknown;
      ok, newlyFailed, newlyUnknown := SettleAttempt(contexts, sessionId, i, listed[i]);
      nowFailed, nowUnknown := failed + newlyFailed, unknown + newlyUnknown;
    }

    method ReconcileOne(contexts: Contexts, sessionId: string, proposals: Proposals)
        returns (ok: bool, failed: nat, unknown: nat)
      requires sessionId in sessions && Keyed(sessions[sessionId])
      modifies this
      ensures var p := ReconcileSession(contexts, sessionId, old(sessions)[sessionId], proposals);
              && ok == p.ok && sessions == old(sessions)[sessionId := p.session]
              && (ok ==> failed == p.failed && unknown == p.unknown)
    {
      failed, unknown := 0, 0;
      if !ParentsKnown(sessions[sessionId]) {
        return false, 0, 0;
      }
      CallsLeaveAttempts(sessions[sessionId], proposals, 0);
      ok := SettleCalls(sessionId, proposals);
      if !ok {
        return;
      }
      ok, failed, unknown := SettleAttempts(contexts, sessionId);
    }

    method StartRecoveredTurn(contexts: Contexts, expected: Manifest, requestHash: string) returns (ok: bool)
      modifies this
      ensures ok <==> expected.sessionId in old(sessions)
                      && StartRecovered(contexts, old(sessions)[expected.sessionId], expected, requestHash).Some?
      ensures sessions == if !ok then old(sessions)
                          else old(sessions)[expected.sessionId :=
                            StartRecovered(contexts, old(sessions)[expected.sessionId], expected, requestHash).value]
    {
      if expected.sessionId !in sessions {
        return false;
      }
      var s := sessions[expected.sessionId];
      var i := FindAttempt(s.attempts, expected.attemptId);
      if i.None? {
        return false;
      }
      var loaded := LoadExact(contexts, expected.sessionId, s, i.value);
      if !loaded.Exact? || loaded.manifest != expected || requestHash != loaded.manifest.requestHash {
        return false;
      }
      ok := Perform(expected.sessionId, OnAttempt(expected.attemptId, StartTurn));
    }

    /** The whole startup sweep; the counters are summed over the sessions. */
    method ReconcileInterrupted(contexts: Contexts, ids: seq<string>, findings: Findings)
        returns (ok: bool, failed: nat, unknown: nat)
      requires forall id :: id in sessions ==> Keyed(sessions[id])
      requires forall i, j :: 0 <= i < j < |ids| ==> ids[i] != ids[j]
      modifies this
      ensures var r := ReconcileAll(contexts, old(sessions), ids, Verdicts(findings));
              && ok == r.ok && sessions == r.sessions && (ok ==> failed == r.failed && unknown == r.unknown)
    {
      ghost var whole := ReconcileAll(contexts, sessions, ids, Verdicts(findings));
      failed, unknown := 0, 0;
      for n := 0 to |ids|
        invariant forall m :: n <= m < |ids| && ids[m] in sessions ==> Keyed(sessions[ids[m]])
        invariant ContinuesSweep(whole, ReconcileAll(contexts, sessions, ids[n..], Verdicts(findings)), failed, unknown)
      {
        assert ids[n..][0] == ids[n] && ids[n..][1..] == ids[n + 1..];
        if ids[n] !in sessions {
          return false, failed, unknown;
        }
        var newlyFailed, newlyUnknown;
        ok, newlyFailed, newlyUnknown := ReconcileOne(contexts, ids[n], Verdicts(findings));
        if !ok {
          return;
        }
        failed, unknown := failed + newlyFailed, unknown + newlyUnknown;
      }
      ok := true;
    }
  }

  ghost predicate ContinuesSweep(whole: Sweep, rest: Sweep, failed: nat, unknown: nat) {
    && whole.sessions == rest.sessions && whole.ok == rest.ok
    && (whole.ok ==> whole.failed == rest.failed + failed && whole.unknown == rest.unknown + unknown)
  }

  /** What is left of a pass once part of it has been counted. */
  ghost predicate Continues(whole: Pass, rest: Pass, failed: nat, unknown: nat) {
    && whole.session == rest.session && whole.ok == rest.ok
    && whole.failed == rest.failed + failed && whole.unknown == rest.unknown + unknown
  }

  /** The pass over the calls from `k` on ends like the whole one. */
  ghost predicate LeadsTo(s: Session, proposals: Proposals, k: nat, whole: Pass) {
    k <= |s.calls| && whole == RepairCalls(s, proposals, k)
  }

  lemma CallsUnfold(s: Session, proposals: Proposals, k: nat, whole: Pass)
    requires k < |s.calls| && LeadsTo(s, proposals, k, whole)
    ensures var p := CallStep(s, proposals, k);
            if p.ok then LeadsTo(p.session, proposals, k + 1, whole) else !whole.ok && whole.session == p.session
  {
  }

  lemma CallsEnd(s: Session, proposals: Proposals, k: nat, whole: Pass)
    requires k == |s.calls| && LeadsTo(s, proposals, k, whole)
    ensures whole.ok && whole.session == s
  {
  }

  lemma AttemptsEnd(contexts: Contexts, sessionId: string, s: Session, i: nat, whole: Pass, failed: nat, unknown: nat)
    requires i == |s.attempts| && Continues(whole, RepairAttempts(contexts, sessionId, s, i), failed, unknown)
    ensures whole == Pass(s, true, failed, unknown)
  {
  }

  lemma AttemptsUnfold(contexts: Contexts, sessionId: string, s: Session, i: nat, whole: Pass, failed: nat, unknown: nat)
    requires i < |s.attempts| && Continues(whole, RepairAttempts(contexts, sessionId, s, i), failed, unknown)
    ensures var p := AttemptStep(contexts, sessionId, s, i);
            if p.ok then Continues(whole, RepairAttempts(contexts, sessionId, p.session, i + 1),
                                   failed + p.failed, unknown + p.unknown)
            else !whole.ok && whole.session == p.session
  {
  }

  lemma CallStepFrame(s: Session, proposals: Proposals, k: nat, listed: seq<ToolCall>)
    requires k < |s.calls| == |listed| && UniqueCalls(s.calls) && s.calls[k..] == listed[k..]
    ensures var t := CallStep(s, proposals, k).session; UniqueCalls(t.calls) && t.calls[k + 1..] == listed[k + 1..]
  {
    var c := s.calls[k];
    assert forall j :: k < j < |listed| ==> s.calls[j] == s.calls[k..][j - k] == listed[k..][j - k] == listed[j];
    var act := CallRepair(c.status, ParentStatus(s, k), proposals(c.id));
    if act.Some? && Execute(s, OnCall(c.id, act.value)).Some? {
      OnlyThatCall(s, k, act.value);
    }
  }

  lemma AttemptStepFrame(contexts: Contexts, sessionId: string, s: Session, i: nat, listed: seq<Attempt>)
    requires i < |s.attempts| == |listed| && UniqueAttempts(s.attempts) && s.attempts[i..] == listed[i..]
    ensures var t := AttemptStep(contexts, sessionId, s, i).session;
            UniqueAttempts(t.attempts) && t.attempts[i + 1..] == listed[i + 1..]
  {
    var a := s.attempts[i];
    assert forall j :: i < j < |listed| ==> s.attempts[j] == s.attempts[i..][j - i] == listed[i..][j - i] == listed[j];
    var act := AttemptRepair(a, IsExact(contexts, sessionId, s, i));
    if act.Some? && Execute(s, OnAttempt(a.id, act.value)).Some? {
      OnlyThatAttempt(s, i, act.value);
    }
  }

  /** Repairing calls leaves the attempts, the bindings and the starts alone. */
  lemma {:induction false} CallsLeaveAttempts(s: Session, proposals: Proposals, k: nat)
    requires k <= |s.calls|
    ensures var t := RepairCalls(s, proposals, k).session;
            t.attempts == s.attempts && t.bound == s.bound && t.started == s.started && s.last <= t.last
    decreases |s.calls| - k
  {
    if k < |s.calls| && CallStep(s, proposals, k).ok {
      CallsLeaveAttempts(CallStep(s, proposals, k).session, proposals, k + 1);
    }
  }

  lemma FindCallAt(calls: seq<ToolCall>, k: nat)
    requires UniqueCalls(calls) && k < |calls|
    ensures FindCall(calls, calls[k].id) == Some(k)
  {
    assert FindCall(calls, calls[k].id).Some?;
  }

  lemma FindAttemptAt(attempts: seq<Attempt>, i: nat)
    requires UniqueAttempts(attempts) && i < |attempts|
    ensures FindAttempt(attempts, attempts[i].id) == Some(i)
  {
    assert FindAttempt(attempts, attempts[i].id).Some?;
  }

  lemma OnlyThatCall(s: Session, k: nat, act: CallAct)
    requires UniqueCalls(s.calls) && k < |s.calls| && Execute(s, OnCall(s.calls[k].id, act)).Some?
    ensures var t := Execute(s, OnCall(s.calls[k].id, act)).value;
            && ApplyCall(s, k, act) == Some(t)
            && |t.calls| == |s.calls| && UniqueCalls(t.calls) && t.attempts == s.attempts
            && forall j :: 0 <= j < |s.calls| && j != k ==> t.calls[j] == s.calls[j]
  {
    FindCallAt(s.calls, k);
  }

  lemma OnlyThatAttempt(s: Session, i: nat, act: AttemptAct)
    requires UniqueAttempts(s.attempts) && i < |s.attempts| && Execute(s, OnAttempt(s.attempts[i].id, act)).Some?
    ensures var t := Execute(s, OnAttempt(s.attempts[i].id, act)).value;
            && ApplyAttempt(s, i, act) == Some(t)
            && |t.attempts| == |s.attempts| && UniqueAttempts(t.attempts) && t.calls == s.calls
            && forall j :: 0 <= j < |s.attempts| && j != i ==> t.attempts[j] == s.attempts[j]
  {
    FindAttemptAt(s.attempts, i);
  }
}
