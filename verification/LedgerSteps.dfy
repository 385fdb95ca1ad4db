/** What one planned batch does to a sound projection. */
module LedgerSteps {
  import opened Text
  import opened Ledger
  import opened Planner

  // ---------------------------------------------------------------- what every batch keeps

  ghost predicate Numbered(rs: seq<Revision>) {
    forall i :: 0 <= i < |rs| ==> rs[i].number == i + 1
  }

  ghost predicate DistinctIds(rs: seq<Revision>) {
    forall i, j :: 0 <= i < j < |rs| ==> rs[i].id != rs[j].id
  }

  ghost predicate OneActive(rs: seq<Revision>) {
    forall i, j :: 0 <= i < j < |rs| ==> !(rs[i].status.Active? && rs[j].status.Active?)
  }

  ghost predicate ActiveTrusted(rs: seq<Revision>) {
    forall i :: 0 <= i < |rs| && rs[i].status.Active? ==> Trusted(rs[i].facts)
  }

  /** Only the first revision supersedes nothing; the others name an earlier one that is no longer a proposal. */
  ghost predicate Descends(rs: seq<Revision>, i: nat)
    requires i < |rs|
  {
    if i == 0 then rs[i].supersedes.None?
    else exists j :: 0 <= j < i && rs[i].supersedes == Some(rs[j].id) && !rs[j].status.Proposed?
  }

  ghost predicate Lineage(rs: seq<Revision>) {
    && (forall i {:trigger Descends(rs, i)} :: 0 <= i < |rs| ==> Descends(rs, i))
    && (|rs| > 1 ==> !rs[0].status.Proposed?)
  }

  ghost predicate PointerActive(p: Projection) {
    p.pointer.Some? ==> InState(p.revisions, p.pointer.value, {Active})
  }

  ghost predicate Sound(p: Projection) {
    && Numbered(p.revisions)
    && DistinctIds(p.revisions)
    && OneActive(p.revisions)
    && ActiveTrusted(p.revisions)
    && Lineage(p.revisions)
    && PointerActive(p)
  }

  /** Between batches no revision becomes active, and none becomes a proposal again. */
  predicate Moves(a: Status, b: Status) {
    a == b || match a
              case Proposed => b in {Superseded, Rejected, Deleted}
              case Active => b in {Superseded, Retracted, Deleted}
              case Rejected => b == Deleted
              case Retracted => b == Deleted
              case _ => false
  }

  ghost predicate Advances(a: seq<Revision>, b: seq<Revision>) {
    && |a| <= |b|
    && (forall i :: 0 <= i < |a| ==> b[i] == a[i].(status := b[i].status) && Moves(a[i].status, b[i].status))
  }

  lemma AdvancesTransitive(a: seq<Revision>, b: seq<Revision>, c: seq<Revision>)
    requires Advances(a, b) && Advances(b, c)
    ensures Advances(a, c)
  {
    forall i | 0 <= i < |a| ensures c[i] == a[i].(status := c[i].status) && Moves(a[i].status, c[i].status) {
      assert b[i] == a[i].(status := b[i].status) && c[i] == b[i].(status := c[i].status);
    }
  }

  // ---------------------------------------------------------------- rows

  lemma FindAt(rs: seq<Revision>, i: nat)
    requires DistinctIds(rs) && i < |rs|
    ensures Find(rs, rs[i].id) == Some(i)
  {
    var at := Find(rs, rs[i].id);
    assert at.Some?;
  }

  lemma SetStatusAppend(rs: seq<Revision>, r: Revision, id: string, status: Status)
    ensures SetStatus(rs + [r], id, status)
         == SetStatus(rs, id, status) + [if r.id == id then r.(status := status) else r]
  {
  }

  lemma ProjectTwo(p: Projection, c0: Change, c1: Change, p1: Projection, p2: Projection)
    requires Project(p, c0) == Some(p1) && Project(p1, c1) == Some(p2)
    ensures ProjectAll(p, [c0, c1]) == Some(p2)
  {
    assert [c0, c1][1..] == [c1] && [c1][1..] == [];
    assert ProjectAll(p1, [c1]) == ProjectAll(p2, []);
  }

  lemma ProjectFour(p: Projection, c: seq<Change>, p1: Projection, p2: Projection, p3: Projection, p4: Projection)
    requires |c| == 4
    requires Project(p, c[0]) == Some(p1) && Project(p1, c[1]) == Some(p2)
    requires Project(p2, c[2]) == Some(p3) && Project(p3, c[3]) == Some(p4)
    ensures ProjectAll(p, c) == Some(p4)
  {
    ProjectTwo(p, c[0], c[1], p1, p2);
    ProjectTwo(p2, c[2], c[3], p3, p4);
    ProjectAllAppend(p, [c[0], c[1]], [c[2], c[3]]);
    assert c == [c[0], c[1]] + [c[2], c[3]];
  }

  // ---------------------------------------------------------------- projections of the planned batches

  /** A revision that the planner may introduce next. */
  ghost predicate Next(rs: seq<Revision>, r: Revision) {
    r.status.Proposed? && r.number == |rs| + 1 && Find(rs, r.id).None?
  }

  ghost predicate Vouches(v: Validation, r: Revision) {
    v.contentHash == r.facts.contentHash
  }

  lemma NextInserts(p: Projection, r: Revision)
    requires Sound(p) && Next(p.revisions, r)
    ensures Insert(p, r) == Some(p.(revisions := p.revisions + [r]))
    ensures DistinctIds(p.revisions + [r])
    ensures Find(p.revisions + [r], r.id) == Some(|p.revisions|)
  {
    var rs := p.revisions + [r];
    assert DistinctIds(rs);
    assert rs[|p.revisions|] == r;
    FindAt(rs, |p.revisions|);
  }

  lemma NextValidates(p: Projection, r: Revision, v: Validation)
    requires Sound(p) && Next(p.revisions, r) && Vouches(v, r)
    ensures var q := p.(revisions := p.revisions + [r]); Project(q, RevisionValidated(r.id, v)) == Some(q)
  {
    NextInserts(p, r);
  }

  lemma ProjectsProposal(p: Projection, r: Revision, v: Validation)
    requires Sound(p) && Next(p.revisions, r) && Vouches(v, r)
    ensures ProjectAll(p, [RevisionProposed(r), RevisionValidated(r.id, v)])
         == Some(p.(revisions := p.revisions + [r]))
  {
    NextInserts(p, r);
    NextValidates(p, r, v);
    var q := p.(revisions := p.revisions + [r]);
    ProjectTwo(p, RevisionProposed(r), RevisionValidated(r.id, v), q, q);
  }

  lemma BlankIsSound()
    ensures Sound(BLANK)
  {
  }

  lemma ProjectsCreation(scope: string, kind: string, r: Revision, v: Validation)
    requires Next([], r) && Vouches(v, r)
    ensures ProjectAll(BLANK, [MemoryCreated(scope, kind, r), RevisionValidated(r.id, v)])
         == Some(Projection([r], None))
    ensures ProjectAll(BLANK, [MemoryCreated(scope, kind, r), RevisionValidated(r.id, v), RevisionActivated(r.id)])
         == Some(Projection([r.(status := Active)], Some(r.id)))
  {
    BlankIsSound();
    NextInserts(BLANK, r);
    NextValidates(BLANK, r, v);
    var q := Projection([r], None);
    assert BLANK.(revisions := BLANK.revisions + [r]) == q;
    var c0, c1, c2 := MemoryCreated(scope, kind, r), RevisionValidated(r.id, v), RevisionActivated(r.id);
    ProjectTwo(BLANK, c0, c1, q, q);
    assert SetStatus([r], r.id, Active) == [r.(status := Active)];
    var active := Projection([r.(status := Active)], Some(r.id));
    assert Project(q, c2) == Some(active);
    assert [c2][1..] == [] && ProjectAll(q, [c2]) == Some(active);
    ProjectAllAppend(BLANK, [c0, c1], [c2]);
    assert [c0, c1, c2] == [c0, c1] + [c2];
  }

  /** Retiring the replaced revision and appending its active successor. */
  function Succeeded(rs: seq<Revision>, replaced: string, r: Revision): (q: Projection) {
    Projection(SetStatus(rs, replaced, Superseded) + [r.(status := Active)], Some(r.id))
  }

  /** After its introduction, a new revision is activated over the pointer, and the replaced one retired again. */
  lemma ActivationReplaces(p: Projection, r: Revision, replaced: string, p3: Projection)
    requires DistinctIds(p.revisions + [r]) && r.status.Proposed?
    requires p.pointer.Some? ==> p.pointer.value == replaced
    requires InState(p.revisions, replaced, {Active, Superseded}) && r.id != replaced
    requires p3 == Activate(p.(revisions := p.revisions + [r]), r.id)
    ensures Project(p.(revisions := p.revisions + [r]), RevisionActivated(r.id)) == Some(p3)
    ensures Project(p3, RevisionSuperseded(replaced, r.id)) == Some(Succeeded(p.revisions, replaced, r))
  {
    var rs := p.revisions + [r];
    var n := |p.revisions|;
    assert rs[n] == r;
    FindAt(rs, n);
    var prior := Find(p.revisions, replaced).value;
    assert p3.pointer == Some(r.id);
    assert |p3.revisions| == |rs| && forall i :: 0 <= i < |rs| ==> p3.revisions[i].id == rs[i].id;
    assert DistinctIds(p3.revisions);
    FindAt(p3.revisions, n);
    FindAt(p3.revisions, prior);
    assert SetStatus(p3.revisions, replaced, Superseded) == Succeeded(p.revisions, replaced, r).revisions;
  }

  lemma PointerIsReplaced(p: Projection, replaced: string)
    requires Sound(p) && InState(p.revisions, replaced, {Active})
    ensures p.pointer.Some? ==> p.pointer.value == replaced
  {
    var i := Find(p.revisions, replaced).value;
    if p.pointer.Some? {
      var j := Find(p.revisions, p.pointer.value).value;
      assert i == j;
    }
  }

  lemma ProjectsRevision(p: Projection, r: Revision, v: Validation, replaced: string)
    requires Sound(p) && Next(p.revisions, r) && Vouches(v, r) && InState(p.revisions, replaced, {Active})
    ensures ProjectAll(p, [MemoryRevised(r), RevisionValidated(r.id, v), RevisionActivated(r.id),
                           RevisionSuperseded(replaced, r.id)])
         == Some(Succeeded(p.revisions, replaced, r))
  {
    NextInserts(p, r);
    NextValidates(p, r, v);
    PointerIsReplaced(p, replaced);
    var q := p.(revisions := p.revisions + [r]);
    var p3 := Activate(q, r.id);
    ActivationReplaces(p, r, replaced, p3);
    ProjectFour(p, [MemoryRevised(r), RevisionValidated(r.id, v), RevisionActivated(r.id),
                    RevisionSuperseded(replaced, r.id)], q, q, p3, Succeeded(p.revisions, replaced, r));
  }

  /** The projection with an approved proposal already retired. */
  function Decided(p: Projection, proposalId: string): (q: Projection) {
    p.(revisions := SetStatus(p.revisions, proposalId, Superseded))
  }

  lemma ApprovalIntroduces(p: Projection, r: Revision, v: Validation, proposalId: string)
    requires Sound(p) && Next(p.revisions, r) && Vouches(v, r)
    requires InState(p.revisions, proposalId, {Proposed})
    ensures var q := Decided(p, proposalId).(revisions := Decided(p, proposalId).revisions + [r]);
            && Project(p, ProposalApproved(proposalId, r)) == Some(q)
            && Project(q, RevisionValidated(r.id, v)) == Some(q)
            && DistinctIds(q.revisions) && r.id != proposalId
  {
    NextInserts(p, r);
    SetStatusAppend(p.revisions, r, proposalId, Superseded);
    var q := Decided(p, proposalId).(revisions := Decided(p, proposalId).revisions + [r]);
    assert forall i :: 0 <= i < |q.revisions| ==> q.revisions[i].id == (p.revisions + [r])[i].id;
    assert q.revisions[|p.revisions|] == r;
    FindAt(q.revisions, |p.revisions|);
  }

  /** With a proposal that supersedes nothing there is no active revision at all. */
  lemma FirstProposalStandsAlone(p: Projection, proposalId: string)
    requires Sound(p) && InState(p.revisions, proposalId, {Proposed})
    ensures var at := Find(p.revisions, proposalId).value;
            p.revisions[at].supersedes.None? ==> |p.revisions| == 1 && p.pointer.None?
    ensures var at := Find(p.revisions, proposalId).value;
            p.revisions[at].supersedes.Some? ==> Replaced(p.revisions, proposalId) != proposalId
  {
    var at := Find(p.revisions, proposalId).value;
    assert Descends(p.revisions, at);
  }

  lemma ApprovalTarget(p: Projection, proposalId: string, replaced: string)
    requires Sound(p) && InState(p.revisions, proposalId, {Proposed}) && replaced == Replaced(p.revisions, proposalId)
    requires replaced != proposalId ==> InState(p.revisions, replaced, {Active})
    ensures p.pointer.Some? ==> p.pointer.value == replaced
    ensures InState(Decided(p, proposalId).revisions, replaced, {Active, Superseded})
  {
    FirstProposalStandsAlone(p, proposalId);
    var rs := Decided(p, proposalId).revisions;
    assert DistinctIds(rs);
    var at := Find(p.revisions, replaced).value;
    FindAt(p.revisions, at);
    FindAt(rs, at);
    if replaced != proposalId {
      PointerIsReplaced(p, replaced);
    }
  }

  lemma ProjectsApproval(p: Projection, r: Revision, v: Validation, proposalId: string, replaced: string)
    requires Sound(p) && Next(p.revisions, r) && Vouches(v, r)
    requires InState(p.revisions, proposalId, {Proposed}) && replaced == Replaced(p.revisions, proposalId)
    requires replaced != proposalId ==> InState(p.revisions, replaced, {Active})
    ensures ProjectAll(p, [ProposalApproved(proposalId, r), RevisionValidated(r.id, v), RevisionActivated(r.id),
                           RevisionSuperseded(replaced, r.id)])
         == Some(Succeeded(Decided(p, proposalId).revisions, replaced, r))
  {
    ApprovalIntroduces(p, r, v, proposalId);
    ApprovalTarget(p, proposalId, replaced);
    var d := Decided(p, proposalId);
    var q := d.(revisions := d.revisions + [r]);
    var p3 := Activate(q, r.id);
    ActivationReplaces(d, r, replaced, p3);
    ProjectFour(p, [ProposalApproved(proposalId, r), RevisionValidated(r.id, v), RevisionActivated(r.id),
                    RevisionSuperseded(replaced, r.id)], q, q, p3, Succeeded(d.revisions, replaced, r));
  }

  // ---------------------------------------------------------------- what those projections keep

  /** Statuses advanced in place keep the lineage. */
  lemma LineageAdvances(a: seq<Revision>, b: seq<Revision>)
    requires Lineage(a) && Advances(a, b) && |a| == |b|
    ensures Lineage(b)
  {
    forall i | 0 <= i < |b| ensures Descends(b, i) {
      assert Descends(a, i);
      if i > 0 {
        var j :| 0 <= j < i && a[i].supersedes == Some(a[j].id) && !a[j].status.Proposed?;
        assert b[i].supersedes == Some(b[j].id) && !b[j].status.Proposed?;
      }
    }
  }

  lemma LineageAppends(rs: seq<Revision>, r: Revision, target: nat)
    requires Lineage(rs) && target < |rs| && r.supersedes == Some(rs[target].id)
    requires !rs[target].status.Proposed? && !rs[0].status.Proposed?
    ensures Lineage(rs + [r])
  {
    var b := rs + [r];
    forall i | 0 <= i < |b| ensures Descends(b, i) {
      if i < |rs| {
        assert Descends(rs, i);
        if i > 0 {
          var j :| 0 <= j < i && rs[i].supersedes == Some(rs[j].id) && !rs[j].status.Proposed?;
          assert b[i].supersedes == Some(b[j].id) && !b[j].status.Proposed?;
        }
      } else {
        assert b[i].supersedes == Some(b[target].id);
      }
    }
  }

  /** A status change that leaves the proposal or active state alone, or retires it. */
  lemma RetiringKeeps(p: Projection, id: string, status: Status, pointer: Option<string>)
    requires Sound(p) && status in {Superseded, Rejected, Retracted, Deleted}
    requires Find(p.revisions, id).Some?
    requires Moves(p.revisions[Find(p.revisions, id).value].status, status)
    requires pointer == None
          || (pointer == p.pointer && (pointer.Some? ==> pointer.value != id))
    ensures Sound(Projection(SetStatus(p.revisions, id, status), pointer))
    ensures Advances(p.revisions, SetStatus(p.revisions, id, status))
  {
    var rs := SetStatus(p.revisions, id, status);
    var at := Find(p.revisions, id).value;
    assert Advances(p.revisions, rs);
    LineageAdvances(p.revisions, rs);
    assert DistinctIds(rs);
    if pointer.Some? {
      var k := Find(p.revisions, pointer.value).value;
      FindAt(rs, k);
    }
  }

  lemma ProposalKeeps(p: Projection, r: Revision, supersedes: string)
    requires Sound(p) && Next(p.revisions, r) && r.supersedes == Some(supersedes)
    requires InState(p.revisions, supersedes, {Active})
    ensures Sound(p.(revisions := p.revisions + [r])) && Advances(p.revisions, p.revisions + [r])
  {
    NextInserts(p, r);
    var target := Find(p.revisions, supersedes).value;
    assert Descends(p.revisions, 0);
    ActiveMeansFirstDecided(p, target);
    LineageAppends(p.revisions, r, target);
    var rs := p.revisions + [r];
    if p.pointer.Some? {
      var k := Find(p.revisions, p.pointer.value).value;
      assert rs[k] == p.revisions[k];
      FindAt(rs, k);
    }
  }

  lemma ActiveMeansFirstDecided(p: Projection, i: nat)
    requires Sound(p) && i < |p.revisions| && !p.revisions[i].status.Proposed?
    ensures !p.revisions[0].status.Proposed?
  {
  }

  /** Nothing is active, and a trusted successor of a retired revision is appended active. */
  lemma SuccessorKeeps(rs: seq<Revision>, target: nat, r: Revision)
    requires Sound(Projection(rs, None)) && target < |rs| && !rs[target].status.Proposed? && !rs[0].status.Proposed?
    requires forall i :: 0 <= i < |rs| ==> !rs[i].status.Active?
    requires Next(rs, r) && r.supersedes == Some(rs[target].id) && Trusted(r.facts)
    ensures Sound(Projection(rs + [r.(status := Active)], Some(r.id)))
  {
    var b := rs + [r.(status := Active)];
    LineageAppends(rs, r.(status := Active), target);
    assert DistinctIds(b);
    assert b[|rs|].id == r.id;
    FindAt(b, |rs|);
  }

  /** Retiring the only active revision leaves none. */
  lemma RetiredLeavesNone(p: Projection, id: string)
    requires Sound(p) && InState(p.revisions, id, {Active})
    ensures var rs := SetStatus(p.revisions, id, Superseded); forall i :: 0 <= i < |rs| ==> !rs[i].status.Active?
  {
    var at := Find(p.revisions, id).value;
    var rs := SetStatus(p.revisions, id, Superseded);
    forall i | 0 <= i < |rs| ensures !rs[i].status.Active? {
      if p.revisions[i].status.Active? {
        assert i == at;
      }
    }
  }

  lemma RevisionKeeps(p: Projection, r: Revision, replaced: string)
    requires Sound(p) && Next(p.revisions, r) && r.supersedes == Some(replaced) && Trusted(r.facts)
    requires InState(p.revisions, replaced, {Active})
    ensures Sound(Succeeded(p.revisions, replaced, r))
    ensures Advances(p.revisions, Succeeded(p.revisions, replaced, r).revisions)
  {
    var rs := SetStatus(p.revisions, replaced, Superseded);
    var target := Find(p.revisions, replaced).value;
    RetiringKeeps(p, replaced, Superseded, None);
    RetiredLeavesNone(p, replaced);
    assert Find(rs, r.id).None?;
    SuccessorKeeps(rs, target, r);
  }

  /** A proposal whose target is still active, or that has none, is retired together with that target. */
  lemma ApprovalKeeps(p: Projection, r: Revision, proposalId: string, replaced: string)
    requires Sound(p) && Next(p.revisions, r) && r.supersedes == Some(replaced) && Trusted(r.facts)
    requires InState(p.revisions, proposalId, {Proposed}) && replaced == Replaced(p.revisions, proposalId)
    requires replaced != proposalId ==> InState(p.revisions, replaced, {Active})
    ensures Sound(Succeeded(Decided(p, proposalId).revisions, replaced, r))
    ensures Advances(p.revisions, Succeeded(Decided(p, proposalId).revisions, replaced, r).revisions)
  {
    FirstProposalStandsAlone(p, proposalId);
    ApprovalTarget(p, proposalId, replaced);
    var d := Decided(p, proposalId);
    RetiringKeeps(p, proposalId, Superseded, None);
    var n := Projection(d.revisions, None);
    var at := Find(d.revisions, replaced).value;
    assert Find(d.revisions, r.id).None?;
    if replaced != proposalId {
      assert InState(d.revisions, replaced, {Active}) by {
        FindAt(p.revisions, at);
      }
      RevisionKeeps(n, r, replaced);
      AdvancesTransitive(p.revisions, d.revisions, Succeeded(d.revisions, replaced, r).revisions);
    } else {
      assert |p.revisions| == 1;
      var rs := SetStatus(d.revisions, replaced, Superseded);
      assert rs == d.revisions;
      SuccessorKeeps(rs, 0, r);
    }
  }
}
