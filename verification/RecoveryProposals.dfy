/** Startup recovery and the memory ledger together: which running proposals a pass completes, and what that says. */
module RecoveryProposals {
  import opened Text
  import Engine
  import Ledger
  import Planner
  import LedgerItem
  import LedgerAudit
  import opened Recovery
  import opened RecoveryProofs

  /**
   A proposal that was committed for review before the crash: whatever commands the ledger has seen since, the
   pass completes its call while the proposed text is retained.
   */
  lemma CommittedProposalCompletes(contexts: Contexts, sessionId: string, s: Engine.Session, findings: Findings, k: nat,
                                   judge: Planner.Judge, memoryId: string, e: LedgerItem.Event, events: seq<LedgerItem.Event>)
    requires Engine.Consistent(s) && Readable(s, Verdicts(findings)) && Sane(contexts, sessionId, s)
    requires k < |s.calls| && s.calls[k].status == Engine.Running
    requires e.command.request.CreateMemory? && LedgerItem.Execute(judge, memoryId, Ledger.NO_ITEM, e) != Ledger.NO_ITEM
    requires Planner.OutcomeOf(judge, e.command, [], e.existing).Ok?
    requires Planner.OutcomeOf(judge, e.command, [], e.existing).value.verdict == Ledger.NeedsReview
    requires var item := LedgerItem.Run(judge, memoryId, LedgerItem.Execute(judge, memoryId, Ledger.NO_ITEM, e), events);
             findings(s.calls[k].id) == Rebuilt(e.command, item) && e.command.request.draft.id in item.contents
    ensures var t := Reconciled(contexts, sessionId, s, Verdicts(findings));
            k < |t.calls| && t.calls[k].status == Engine.CallCompleted
  {
    LedgerAudit.ProposalStaysCommitted(judge, memoryId, e, events);
    ReconcileCallFates(contexts, sessionId, s, findings, k);
  }

  /**
   A call that the pass completes has put exactly its draft into the ledger as the first revision of a new item,
   and that revision is not active, now or after any later commands.
   */
  lemma CompletedIsNeverActive(contexts: Contexts, sessionId: string, s: Engine.Session, findings: Findings, k: nat,
                               judge: Planner.Judge, memoryId: string, events: seq<LedgerItem.Event>)
    requires Engine.Consistent(s) && Readable(s, Verdicts(findings)) && Sane(contexts, sessionId, s)
    requires k < |s.calls| && s.calls[k].status == Engine.Running
    requires k < |Reconciled(contexts, sessionId, s, Verdicts(findings)).calls|
    requires Reconciled(contexts, sessionId, s, Verdicts(findings)).calls[k].status == Engine.CallCompleted
    requires findings(s.calls[k].id).Rebuilt? ==> LedgerItem.Good(memoryId, findings(s.calls[k].id).item)
    ensures findings(s.calls[k].id).Rebuilt?
    ensures var command, item := findings(s.calls[k].id).command, findings(s.calls[k].id).item;
            var rs := LedgerItem.Run(judge, memoryId, item, events).projection.revisions;
            && command.request.CreateMemory? && rs != [] && !rs[0].status.Active?
            && rs[0] == Planner.FromDraft(command.request.draft, rs[0].createdAt, None).(status := rs[0].status)
  {
    ReconcileCallFates(contexts, sessionId, s, findings, k);
    var command, item := findings(s.calls[k].id).command, findings(s.calls[k].id).item;
    LedgerAudit.CommittedMeansNeverActive(judge, command, memoryId, item, ContentOf(command, item), events);
  }
}
