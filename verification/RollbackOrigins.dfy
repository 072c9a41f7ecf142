/** What a rollback rolls back: when the call names the action that was executed, and how many
    calls one reconciliation case can see. */
module RollbackOrigins {
  import opened Basics
  import opened Execution
  import opened Reconciliation
  import opened IdempotencyLedger
  import opened GovernedRuns
  import opened SampleRuns

  /** The request names the action and proposal of the receipt it rolls back, and what that action
      was about. */
  ghost predicate NamesOriginal(q: RollbackRequest) {
    var receipt := q.receipt.receipt;
    && q.action == receipt.action && q.proposal == receipt.proposal
    && q.listingId == receipt.action.action.listingId && q.actionType == receipt.action.action.actionType
  }

  lemma RollbackCallFacts(events: seq<Event>, a: RollbackAttempt)
    requires a in Run(events).rollbackCalls
    ensures RequestOk(a) && ReceiptOk(a.request.receipt.receipt)
  {
    RunIsSafe(events);
    hide Run, Disciplined, OneCallEach, CallIsAuthorized, ReviewsOk, RollbackLineage;
    assert RollbackEvidence(Run(events), a);
  }

  /** In every run, a rollback call names what was executed exactly when its action is the one on
      the receipt. */
  lemma NamesOriginalIff(events: seq<Event>, a: RollbackAttempt)
    requires a in Run(events).rollbackCalls
    ensures NamesOriginal(a.request) <==> a.request.action == a.request.receipt.receipt.action
  {
    hide Run;
    RollbackCallFacts(events, a);
  }

  /** The caller can tell before the call: it names what was executed exactly when the action it
      passes has the fingerprint on the receipt it passes. */
  lemma RollsBackOriginalIff(events: seq<Event>, e: Event)
    requires e.Rollback? && |Next(Run(events), e).rollbackCalls| > |Run(events).rollbackCalls|
    ensures var calls := Next(Run(events), e).rollbackCalls;
            calls == Run(events).rollbackCalls + [e.rollback]
            && (NamesOriginal(e.rollback.request) <==> ActionFp(e.action) == e.receipt.action)
  {
    hide Run, NamesOriginal, ReceiptOk, RequestOk;
    var w := Run(events);
    OnlyRollbacksCall(w, e);
    RequestOfEvent(w, e);
    assert Run(events + [e]) == Next(w, e) by { RunStep(events, e); }
    assert e.rollback in Next(w, e).rollbackCalls;
    NamesOriginalIff(events + [e], e.rollback);
  }

  lemma RequestOfEvent(w: World, e: Event)
    requires e.Rollback? && |Next(w, e).rollbackCalls| > |w.rollbackCalls|
    ensures e.rollback.request.action == ActionFp(e.action) && e.rollback.request.receipt == ReceiptFp(e.receipt)
  {
    hide NextRollback;
  }

  /** If the executed action was made by the authorization builder, a call that names it is about
      the listing and action type of the proposal that was executed. */
  lemma RollsBackExecutedProposal(
    events: seq<Event>, a: RollbackAttempt, actionId: string, p: Proposal, approval: Approval, authority: Authority, at: Timestamp)
    requires a in Run(events).rollbackCalls && a.request.action == a.request.receipt.receipt.action
    requires AuthorizeAction(actionId, p, approval, authority, at) == Ok(a.request.action.action)
    ensures a.request.receipt.receipt.proposal == ProposalFp(p) == a.request.proposal
    ensures a.request.listingId == p.listingId && a.request.actionType == p.actionType
    ensures a.authority.listingId == p.listingId && p.actionType in a.authority.actionTypes
  {
    hide Run, ProposalRejection, AuthorityRejection;
    RollbackCallFacts(events, a);
  }

  // ---- calls of one case ----

  /** What an approval of a case is used with. */
  datatype Grant = Grant(action: ActionFp, approval: RollbackApprovalFp, authority: RollbackAuthorityFp, adapterId: string)

  function GrantOf(a: RollbackAttempt): Grant {
    Grant(a.request.action, a.request.approval, a.request.authority, a.request.adapterId)
  }

  lemma KeysDiffer(events: seq<Event>, i: nat, j: nat)
    requires i < j < |Run(events).rollbackCalls|
    ensures Run(events).rollbackCalls[i].request.key != Run(events).rollbackCalls[j].request.key
  {
    hide Run;
    var ks := RollbackCallKeys(Run(events).rollbackCalls);
    if ks[i] == ks[j] {
      AtMostOneRollback(events, ks[i]);
      CountedTwice(ks, i, j);
    }
  }

  /** On evidence, a key is a case and a grant. */
  lemma KeyIsGrant(w: World, a: RollbackAttempt, b: RollbackAttempt)
    requires RollbackEvidence(w, a) && RollbackEvidence(w, b)
    ensures a.request.key == b.request.key <==> a.c == b.c && GrantOf(a) == GrantOf(b)
  {
  }

  /** Of the calls on one case no two carry the same grant: each distinct action, approval,
      authority and adapter gets one call. */
  lemma OneCallPerGrant(events: seq<Event>, i: nat, j: nat)
    requires i < |Run(events).rollbackCalls| && j < |Run(events).rollbackCalls|
    requires Run(events).rollbackCalls[i].c == Run(events).rollbackCalls[j].c
    ensures GrantOf(Run(events).rollbackCalls[i]) == GrantOf(Run(events).rollbackCalls[j]) <==> i == j
  {
    RunIsSafe(events);
    hide Run, ExecutionsOk, ReviewsOk, Disciplined, OneCallEach, RollbackEvidence, RollbackLineage;
    var w := Run(events);
    assert RollbackEvidence(w, w.rollbackCalls[i]) && RollbackEvidence(w, w.rollbackCalls[j]);
    if i < j { KeysDiffer(events, i, j); }
    if j < i { KeysDiffer(events, j, i); }
    KeyIsGrant(w, w.rollbackCalls[i], w.rollbackCalls[j]);
  }

  ghost predicate CalledOnce(calls: seq<RollbackAttempt>, c: Case) {
    forall i, j | 0 <= i < |calls| && 0 <= j < |calls| && calls[i].c == c && calls[j].c == c :: i == j
  }

  ghost predicate OneGrant(calls: seq<RollbackAttempt>, c: Case) {
    forall a, b | a in calls && b in calls && a.c == c && b.c == c :: GrantOf(a) == GrantOf(b)
  }

  /** In every run a case is rolled back at most once if and only if all its calls carry one
      grant; a second approval of the same case is a second call. */
  lemma CaseCalledOnceIff(events: seq<Event>, c: Case)
    ensures CalledOnce(Run(events).rollbackCalls, c) <==> OneGrant(Run(events).rollbackCalls, c)
  {
    hide Run, GrantOf, CalledOnce, OneGrant;
    var calls := Run(events).rollbackCalls;
    if OneGrant(calls, c) {
      forall i, j | 0 <= i < |calls| && 0 <= j < |calls| && calls[i].c == c && calls[j].c == c
        ensures GrantOf(calls[i]) == GrantOf(calls[j]) <==> i == j
      {
        OneCallPerGrant(events, i, j);
      }
      OneGrantOneCall(calls, c);
    }
    if CalledOnce(calls, c) { OneCallOneGrant(calls, c); }
  }

  lemma OneGrantOneCall(calls: seq<RollbackAttempt>, c: Case)
    requires OneGrant(calls, c)
    requires forall i, j | 0 <= i < |calls| && 0 <= j < |calls| && calls[i].c == c && calls[j].c == c ::
      GrantOf(calls[i]) == GrantOf(calls[j]) <==> i == j
    ensures CalledOnce(calls, c)
  {
    hide GrantOf;
    forall i, j | 0 <= i < |calls| && 0 <= j < |calls| && calls[i].c == c && calls[j].c == c ensures i == j {
      assert calls[i] in calls && calls[j] in calls;
    }
  }

  lemma OneCallOneGrant(calls: seq<RollbackAttempt>, c: Case)
    requires CalledOnce(calls, c)
    ensures OneGrant(calls, c)
  {
    hide GrantOf;
    forall a, b | a in calls && b in calls && a.c == c && b.c == c ensures GrantOf(a) == GrantOf(b) {
      var i :| 0 <= i < |calls| && calls[i] == a;
      var j :| 0 <= j < |calls| && calls[j] == b;
      assert i == j;
    }
  }

  lemma InMapped<A, K>(xs: seq<A>, keys: seq<K>, f: A -> K, k: K)
    requires |keys| == |xs| && forall i | 0 <= i < |xs| :: keys[i] == f(xs[i])
    ensures k in keys <==> exists x | x in xs :: f(x) == k
  {
    if k in keys {
      var i :| 0 <= i < |keys| && keys[i] == k;
      assert xs[i] in xs;
    }
    if x :| x in xs && f(x) == k {
      var i :| 0 <= i < |xs| && xs[i] == x;
      assert keys[i] == k;
    }
  }

  function KeyOfCall(a: RollbackAttempt): RollbackKey {
    a.request.key
  }

  /** A key has a receipt exactly when a call carries it. */
  lemma RecordedIffCalled(w: World, key: RollbackKey)
    requires OneCallEach(RollbackEntries(w.rollbacks), RollbackCallKeys(w.rollbackCalls))
    ensures Recorded(RollbackEntries(w.rollbacks), key) <==> exists a | a in w.rollbackCalls :: KeyOfCall(a) == key
  {
    hide Recorded, OneCallEach;
    CalledIffRecorded(RollbackEntries(w.rollbacks), RollbackCallKeys(w.rollbackCalls), key);
    hide RollbackEntries;
    InMapped(w.rollbackCalls, RollbackCallKeys(w.rollbackCalls), KeyOfCall, key);
  }

  /** Before the step: a rollback that is not refused calls the adapter, again if the case was called
      before, if and only if no earlier call on the case carries its grant. */
  lemma CallsAgainIff(events: seq<Event>, e: Event)
    requires e.Rollback? && Next(Run(events), e) != Run(events)
    ensures Next(Run(events), e).rollbackCalls != Run(events).rollbackCalls <==>
            forall a | a in Run(events).rollbackCalls && a.c == e.rollback.c :: GrantOf(a) != GrantOf(e.rollback)
  {
    RunIsSafe(events);
    var w := Run(events);
    hide Run, ExecutionsOk, ResolutionsOk;
    RollbackChecked(w, e);
    hide ReviewsOk, Next, NextRollback, RollbackDecide, RollbackLineage, Recorded, OnRecord, RollbackEvidence, GrantOf;
    hide Disciplined, OneCallEach;
    var key := e.rollback.request.key;
    RollbackStep(w, e.rollback, e.rollbackReply);
    RollbackFits(w.rollbacks, e.rollback, e.rollbackReply);
    RecordedIffCalled(w, key);
    forall a | a in w.rollbackCalls
      ensures KeyOfCall(a) == key <==> a.c == e.rollback.c && GrantOf(a) == GrantOf(e.rollback)
    {
      KeyIsGrant(w, a, e.rollback);
    }
  }

  // ---- runs that go wrong ----

  /** The builder and the executor accept an unrelated authorized action on listing L2: the
      adapter is asked to roll back on L2 what was executed on L1. */
  lemma WrongActionRolledBack()
    ensures var w := Run(CaseOpened() + [RollbackEvent("L2", "RA1")]);
            && w.rollbackCalls == [RollbackAt("L2", "RA1")]
            && AuthorizeAction("AA", ProposalAt("L1"), ApprovalAt("L1"), AuthorityAt("L1"), Noon) == Ok(ActionAt("L1"))
            && AuthorizeAction("AA", ProposalAt("L2"), ApprovalAt("L2"), AuthorityAt("L2"), Noon) == Ok(ActionAt("L2"))
            && w.rollbackCalls[0].request.listingId == "L2"
            && w.rollbackCalls[0].request.receipt.receipt.action.action.listingId == "L1"
            && !NamesOriginal(w.rollbackCalls[0].request)
  {
    hide Run, Next, CaseOpened, AuthorizeAction;
    ActionsAreAuthorized("L1");
    ActionsAreAuthorized("L2");
    CaseOpens();
    RunStep(CaseOpened(), RollbackEvent("L2", "RA1"));
    RollbackCalls(Run(CaseOpened()), "L2", "RA1");
    ReceiptShape();
    hide ReceiptAt, VerificationAt, CaseAt;
  }

  /** Two approvals of one case are two keys and two adapter calls. */
  lemma CaseRolledBackTwice()
    ensures var w := Run(CaseOpened() + [RollbackEvent("L1", "RA1")] + [RollbackEvent("L1", "RA2")]);
            && w.rollbackCalls == [RollbackAt("L1", "RA1"), RollbackAt("L1", "RA2")]
            && w.rollbackCalls[0].c == w.rollbackCalls[1].c && NamesOriginal(w.rollbackCalls[0].request) && NamesOriginal(w.rollbackCalls[1].request)
  {
    hide Run, Next, CaseOpened;
    CaseOpens();
    var es := CaseOpened() + [RollbackEvent("L1", "RA1")];
    RunStep(CaseOpened(), RollbackEvent("L1", "RA1"));
    RollbackCalls(Run(CaseOpened()), "L1", "RA1");
    KeysOfApprovals();
    RunStep(es, RollbackEvent("L1", "RA2"));
    RollbackCalls(Run(es), "L1", "RA2");
    OriginalNamed("RA1");
    OriginalNamed("RA2");
    hide ReceiptAt, VerificationAt, CaseAt, NamesOriginal;
  }

  lemma KeysOfApprovals()
    ensures RollbackReceiptFor(RollbackAt("L1", "RA1"), RollbackRaised).key != RollbackRequestAt("L1", "RA2").key
  {
    hide RollbackReceiptFor, ReceiptAt, VerificationAt, CaseAt, ActionAt;
    assert "RA1"[2] != "RA2"[2];
  }

  lemma OriginalNamed(approvalId: string)
    ensures NamesOriginal(RollbackAt("L1", approvalId).request) && RollbackAt("L1", approvalId).c == CaseAt()
  {
    ReceiptShape();
  }
}
