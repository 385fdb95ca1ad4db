/** When a pending context turn is exact, said of the session and the stored rows alone, and what erasing them does. */
module RecoveryExact {
  import opened Text
  import opened Engine
  import opened Recovery
  import opened RecoveryProofs

  /** The attempt is ready to dispatch, and its last binding is its next turn and the session's last event. */
  ghost predicate Due(s: Session, i: nat, b: Binding)
    requires i < |s.attempts|
  {
    var a := s.attempts[i];
    && a.status == InFlight && a.ready
    && a.turnsStarted + 1 < U32_LIMIT && |a.bindings| == a.turnsStarted + 1 && a.bindings[a.turnsStarted] == b
    && s.last == b.sequence
  }

  /** The manifest is the one that was bound: the same session, attempt, run turn, turn, hash and place in the log. */
  ghost predicate IsBound(m: Manifest, sessionId: string, attemptId: string, b: Binding) {
    && m.sessionId == sessionId && m.attemptId == attemptId
    && m.runTurn == b.runTurn && m.turnId == b.turnId && m.manifestHash == b.manifestHash
    && b.sequence == m.expectedSequence + 1 && m.verified
  }

  /** The rows agree with the manifest, and there is a prelude only over admissions. */
  ghost predicate Agreeing(turn: StoredTurn) {
    turn.admissions == turn.manifest.admissions && (turn.admissions == [] ==> !turn.prelude)
  }

  /** Nothing that was rendered has been erased. */
  ghost predicate Retained(turn: StoredTurn) {
    (turn.admissions != [] ==> turn.prelude) && forall a :: a in turn.admissions ==> a in turn.texts
  }

  lemma PendingIff(s: Session, i: nat, b: Binding)
    requires Consistent(s) && i < |s.attempts|
    ensures Due(s, i, b) <==> && DispatchReady(s.attempts[i]) && Pending(s.attempts[i]) == Some(b) && s.last == b.sequence
  {
    assert Bound(s, i);
  }

  /** A load answers with exactly this manifest if and only if its turn is due, bound, agreeing and retained. */
  lemma ExactIff(contexts: Contexts, sessionId: string, s: Session, i: nat, m: Manifest)
    requires Consistent(s) && i < |s.attempts|
    ensures LoadExact(contexts, sessionId, s, i) == Exact(m) <==>
              && m.turnId in contexts && contexts[m.turnId].manifest == m
              && Agreeing(contexts[m.turnId]) && Retained(contexts[m.turnId])
              && exists b :: Due(s, i, b) && IsBound(m, sessionId, s.attempts[i].id, b)
  {
    var a := s.attempts[i];
    if DispatchReady(a) && Pending(a).Some? && s.last == Pending(a).value.sequence {
      var b := Pending(a).value;
      PendingIff(s, i, b);
      if b.turnId in contexts {
        RetainedIff(contexts[b.turnId]);
      }
      if c :| Due(s, i, c) {
        PendingIff(s, i, c);
      }
    } else {
      forall b ensures !Due(s, i, b) {
        PendingIff(s, i, b);
      }
    }
  }

  lemma RetainedIff(turn: StoredTurn)
    ensures ReadTurn(turn) == Exact(turn.manifest) <==> Agreeing(turn) && Retained(turn)
    ensures ReadTurn(turn).Broken? <==> !Agreeing(turn)
    ensures ReadTurn(turn).Exact? ==> ReadTurn(turn).manifest == turn.manifest
  {
    if i :| 0 <= i < |turn.admissions| && turn.admissions[i] !in turn.texts {
      assert turn.admissions[i] in turn.admissions;
    }
  }

  /** A load is refused if and only if a turn is due that is not stored, not the bound one, or disagrees with its rows. */
  lemma BrokenIff(contexts: Contexts, sessionId: string, s: Session, i: nat)
    requires Consistent(s) && i < |s.attempts|
    ensures LoadExact(contexts, sessionId, s, i).Broken? <==>
              exists b :: Due(s, i, b)
                && !(&& b.turnId in contexts && Agreeing(contexts[b.turnId])
                     && IsBound(contexts[b.turnId].manifest, sessionId, s.attempts[i].id, b))
  {
    var a := s.attempts[i];
    if DispatchReady(a) && Pending(a).Some? && s.last == Pending(a).value.sequence {
      var b := Pending(a).value;
      PendingIff(s, i, b);
      if b.turnId in contexts {
        RetainedIff(contexts[b.turnId]);
      }
      if c :| Due(s, i, c) && c != b {
        PendingIff(s, i, c);
      }
    } else {
      forall b ensures !Due(s, i, b) {
        PendingIff(s, i, b);
      }
    }
  }

  /**
   A recovered start succeeds if and only if it asks for the request of a manifest that is stored, bound by the last
   event to a ready attempt of the session, with its own admission rows, a prelude exactly when there are admissions,
   and every admission's text retained.
   */
  lemma StartsIff(contexts: Contexts, s: Session, expected: Manifest, requestHash: string)
    requires Consistent(s)
    ensures StartRecovered(contexts, s, expected, requestHash).Some? <==>
              && requestHash == expected.requestHash
              && expected.turnId in contexts && contexts[expected.turnId].manifest == expected
              && Agreeing(contexts[expected.turnId]) && Retained(contexts[expected.turnId])
              && exists i, b :: 0 <= i < |s.attempts| && s.attempts[i].id == expected.attemptId && Due(s, i, b)
                   && IsBound(expected, expected.sessionId, expected.attemptId, b)
  {
    StartRecoveredIff(contexts, s, expected, requestHash);
    forall i | 0 <= i < |s.attempts|
      ensures LoadExact(contexts, expected.sessionId, s, i) == Exact(expected) <==>
                && expected.turnId in contexts && contexts[expected.turnId].manifest == expected
                && Agreeing(contexts[expected.turnId]) && Retained(contexts[expected.turnId])
                && exists b :: Due(s, i, b) && IsBound(expected, expected.sessionId, s.attempts[i].id, b)
    {
      ExactIff(contexts, expected.sessionId, s, i, expected);
    }
  }

  // ---------------------------------------------------------------- erased and replaced rows

  /** The store after one admission's text has been erased. */
  function TextErased(contexts: Contexts, turnId: string, text: string): (after: Contexts)
    requires turnId in contexts
  {
    contexts[turnId := contexts[turnId].(texts := contexts[turnId].texts - {text})]
  }

  /** The store after its manifest row got another hash. */
  function Rehashed(contexts: Contexts, turnId: string, hash: string): (after: Contexts)
    requires turnId in contexts
  {
    contexts[turnId := contexts[turnId].(manifest := contexts[turnId].manifest.(manifestHash := hash))]
  }

  /** Erasing one text between binding and restart makes the start fail. */
  lemma ErasedTextStopsStart(contexts: Contexts, s: Session, expected: Manifest, requestHash: string, text: string)
    requires Consistent(s) && expected.turnId in contexts && text in expected.admissions
    ensures StartRecovered(TextErased(contexts, expected.turnId, text), s, expected, requestHash).None?
  {
    StartsIff(TextErased(contexts, expected.turnId, text), s, expected, requestHash);
  }

  /** Another stored hash makes every start of the turn fail, whatever manifest is expected, and the pass is refused. */
  lemma OtherHashStopsStart(contexts: Contexts, sessionId: string, s: Session, i: nat, b: Binding, hash: string,
                            expected: Manifest, requestHash: string)
    requires Consistent(s) && i < |s.attempts| && Due(s, i, b) && b.turnId in contexts && hash != b.manifestHash
    requires expected.attemptId == s.attempts[i].id
    ensures StartRecovered(Rehashed(contexts, b.turnId, hash), s, expected, requestHash).None?
    ensures LoadExact(Rehashed(contexts, b.turnId, hash), sessionId, s, i).Broken?
  {
    var after := Rehashed(contexts, b.turnId, hash);
    BrokenIff(after, sessionId, s, i);
    BrokenIff(after, expected.sessionId, s, i);
    StartRecoveredIff(after, s, expected, requestHash);
  }

  /** Erasing one text makes the next pass settle the attempt as failed, where it would have kept it. */
  lemma ErasedTextSettles(contexts: Contexts, sessionId: string, s: Session, proposals: Proposals, i: nat, text: string)
    requires Consistent(s) && Readable(s, proposals) && Sane(contexts, sessionId, s) && i < |s.attempts|
    requires LoadExact(contexts, sessionId, s, i).Exact?
    requires text in LoadExact(contexts, sessionId, s, i).manifest.admissions
    ensures var turnId := LoadExact(contexts, sessionId, s, i).manifest.turnId;
            && turnId in contexts
            && var t := Reconciled(TextErased(contexts, turnId, text), sessionId, s, proposals);
               i < |t.attempts| && t.attempts[i].status == Failed
  {
    var m := LoadExact(contexts, sessionId, s, i).manifest;
    ExactIff(contexts, sessionId, s, i, m);
    var after := TextErased(contexts, m.turnId, text);
    var b :| Due(s, i, b) && IsBound(m, sessionId, s.attempts[i].id, b);
    forall j | 0 <= j < |s.attempts| ensures !LoadExact(after, sessionId, s, j).Broken? {
      BrokenIff(contexts, sessionId, s, j);
      BrokenIff(after, sessionId, s, j);
      assert forall turnId :: turnId in contexts ==> (Agreeing(after[turnId]) <==> Agreeing(contexts[turnId]));
    }
    if LoadExact(after, sessionId, s, i).Exact? {
      ExactIff(after, sessionId, s, i, LoadExact(after, sessionId, s, i).manifest);
    }
    ReconcileAttemptFates(after, sessionId, s, proposals, i);
    ReconcileResolves(after, sessionId, s, proposals, i);
  }

  // ---------------------------------------------------------------- when an attempt is kept

  /**
   A pass keeps an attempt in flight if and only if its context is exact, every call is settled already or waits for
   permission, and no attempt before it has to be settled.
   */
  lemma KeptIff(contexts: Contexts, sessionId: string, s: Session, proposals: Proposals, j: nat)
    requires Consistent(s) && Readable(s, proposals) && Sane(contexts, sessionId, s) && j < |s.attempts|
    ensures j < |Reconciled(contexts, sessionId, s, proposals).attempts|
    ensures Reconciled(contexts, sessionId, s, proposals).attempts[j].status == InFlight
       <==> IsExact(contexts, sessionId, s, j) && AllRested(s, 0) && NoneNeeds(contexts, sessionId, s, 0, j)
  {
    ReconcileResolves(contexts, sessionId, s, proposals, j);
    if Reconciled(contexts, sessionId, s, proposals).attempts[j].status == InFlight {
      KeptWasFirst(contexts, sessionId, s, proposals, j);
    } else if IsExact(contexts, sessionId, s, j) && AllRested(s, 0) && NoneNeeds(contexts, sessionId, s, 0, j) {
      FirstIsKept(contexts, sessionId, s, proposals, j);
    }
  }

  lemma KeptWasFirst(contexts: Contexts, sessionId: string, s: Session, proposals: Proposals, j: nat)
    requires Consistent(s) && Readable(s, proposals) && Sane(contexts, sessionId, s) && j < |s.attempts|
    requires j < |Reconciled(contexts, sessionId, s, proposals).attempts|
    requires Reconciled(contexts, sessionId, s, proposals).attempts[j].status == InFlight
    ensures IsExact(contexts, sessionId, s, j) && AllRested(s, 0) && NoneNeeds(contexts, sessionId, s, 0, j)
  {
    var t := Reconciled(contexts, sessionId, s, proposals);
    var c := AfterCalls(contexts, sessionId, s, proposals);
    InFlightWasExact(contexts, sessionId, c, 0, j);
    assert c == s;
    var m := FirstNeed(contexts, sessionId, s);
    RepairAttemptsSkips(contexts, sessionId, s, 0, m);
    if m < j {
      EarlyNeedEndsExactness(contexts, sessionId, s, m, j);
    }
  }

  lemma FirstIsKept(contexts: Contexts, sessionId: string, s: Session, proposals: Proposals, j: nat)
    requires Consistent(s) && Readable(s, proposals) && Sane(contexts, sessionId, s) && j < |s.attempts|
    requires IsExact(contexts, sessionId, s, j) && AllRested(s, 0) && NoneNeeds(contexts, sessionId, s, 0, j)
    ensures j < |Reconciled(contexts, sessionId, s, proposals).attempts|
    ensures Reconciled(contexts, sessionId, s, proposals).attempts[j].status == InFlight
  {
    var c := AfterCalls(contexts, sessionId, s, proposals);
    assert NoneNeeds(contexts, sessionId, s, 0, j + 1);
    KeptThrough(contexts, sessionId, s, j);
  }
}
