/** The read-only execution workspace: one operational state per governed action, and counts. */
module Workspace {
  import opened Basics
  import opened Order
  import opened Execution
  import opened Reconciliation
  import opened IdempotencyLedger
  import opened GovernedRuns

  datatype HealthState = Healthy | Degraded | Unavailable | HealthUnknown

  datatype AdapterHealth = AdapterHealth(adapterId: string, state: HealthState)

  /** The records of one governed action, as far as it has come. */
  datatype Chain = Chain(
    proposal: Proposal, approval: Option<Approval>, authority: Option<Authority>, action: Option<Action>,
    receipt: Option<Receipt>, verification: Option<Verification>, c: Option<Case>, rollback: Option<RollbackReceipt>)

  datatype State =
    | NeedsHumanDecision
    | ApprovedNotExecuted
    | Executing
    | VerificationReconciliationRequired
    | Blocked
    | Complete

  datatype Reason =
    | StaleApproval
    | ApprovalNotApproved
    | AuthorityNotValid
    | AuthorityExpired
    | AdapterDegraded
    | AdapterUnavailable
    | UnknownOutcome
    | OpenReconciliation

  /** `authorityStatus` is None when no authority is given. */
  datatype Item = Item(
    itemId: string, listingId: string, proposal: ProposalFp, state: State, blocking: set<Reason>,
    authorityStatus: Option<string>, authorityExpired: bool, health: HealthState,
    verificationState: Option<VerificationState>, executionOutcome: Option<Outcome>,
    receipt: Option<ReceiptFp>, rollbackEligible: bool, rollbackAuthorized: bool)

  // ---- lineage ----

  function ChainRejection(ch: Chain): Option<string> {
    if ch.proposal.publicEligible || ch.proposal.externalCapability != "NONE" then Some("proposal workspace boundary violated")
    else if ch.approval.Some? && ch.approval.value.proposal != ProposalFp(ch.proposal) then Some("approval/proposal lineage mismatch")
    else if ch.authority.Some? && ch.authority.value.listingId != ch.proposal.listingId then Some("authority/listing lineage mismatch")
    else if ActionRejection(ch).Some? then ActionRejection(ch)
    else if ReceiptRejection(ch).Some? then ReceiptRejection(ch)
    else if ReviewRejection(ch).Some? then ReviewRejection(ch)
    else RollbackLineageRejection(ch)
  }

  function ActionRejection(ch: Chain): Option<string> {
    if ch.action.None? then None
    else if ch.approval.None? || ch.authority.None? then Some("authorized action requires approval and authority")
    else if ch.action.value.proposal != ProposalFp(ch.proposal) then Some("authorized action/proposal lineage mismatch")
    else if ch.action.value.approval != ApprovalFp(ch.approval.value) then Some("authorized action/approval lineage mismatch")
    else if ch.action.value.authority != AuthorityFp(ch.authority.value) then Some("authorized action/authority lineage mismatch")
    else None
  }

  function ReceiptRejection(ch: Chain): Option<string> {
    if ch.receipt.None? then None
    else if ch.action.None? then Some("execution receipt requires authorized action")
    else if ch.receipt.value.proposal != ProposalFp(ch.proposal) then Some("execution receipt/proposal lineage mismatch")
    else if ch.receipt.value.action != ActionFp(ch.action.value) then Some("execution receipt/authorized action lineage mismatch")
    else None
  }

  function ReviewRejection(ch: Chain): Option<string> {
    if ch.verification.Some? && ch.receipt.None? then Some("verification requires execution receipt")
    else if ch.verification.Some? && ch.verification.value.receipt != ReceiptFp(ch.receipt.value) then
      Some("verification/execution receipt lineage mismatch")
    else if ch.c.None? then None
    else if ch.verification.None? || ch.receipt.None? then Some("reconciliation requires verification and execution receipt")
    else if ch.c.value.receipt != ReceiptFp(ch.receipt.value) then Some("reconciliation/execution receipt lineage mismatch")
    else if ch.c.value.verification != VerificationFp(ch.verification.value) then
      Some("reconciliation/verification lineage mismatch")
    else None
  }

  function RollbackLineageRejection(ch: Chain): Option<string> {
    if ch.rollback.None? then None
    else if ch.c.None? || ch.verification.None? || ch.receipt.None? then Some("rollback receipt requires reconciliation chain")
    else if ch.rollback.value.c != CaseFp(ch.c.value) then Some("rollback/reconciliation lineage mismatch")
    else if ch.rollback.value.receipt != ReceiptFp(ch.receipt.value) then Some("rollback/execution lineage mismatch")
    else if ch.rollback.value.verification != VerificationFp(ch.verification.value) then
      Some("rollback/verification lineage mismatch")
    else None
  }

  // ---- one item ----

  /** Some outcome of the chain is unknown. */
  predicate HasUnknown(ch: Chain) {
    || (ch.receipt.Some? && ch.receipt.value.unknown)
    || (ch.verification.Some? && ch.verification.value.state.VerificationUnknown?)
    || (ch.rollback.Some? && ch.rollback.value.unknown)
  }

  predicate Blocks(r: Reason, ch: Chain, health: Option<AdapterHealth>, now: Timestamp, staleAfter: int) {
    match r
    case StaleApproval => ch.approval.Some? && now.instant - ch.approval.value.approvedAt.instant > staleAfter
    case ApprovalNotApproved => ch.approval.Some? && !ch.approval.value.decision.Approved?
    case AuthorityNotValid => ch.authority.Some? && ch.authority.value.status != "VALID"
    case AuthorityExpired => ch.authority.Some? && now.instant > ch.authority.value.validUntil.instant
    case AdapterDegraded => health.Some? && health.value.state.Degraded? && ch.receipt.None?
    case AdapterUnavailable => health.Some? && health.value.state.Unavailable? && ch.receipt.None?
    case UnknownOutcome => HasUnknown(ch)
    case OpenReconciliation => ch.c.Some? && ch.c.value.state.Open?
  }

  function BlockingReasons(ch: Chain, health: Option<AdapterHealth>, now: Timestamp, staleAfter: int): set<Reason> {
    set r: Reason | Blocks(r, ch, health, now, staleAfter)
  }

  /** The operational state as a table over how far the chain has come. */
  function OperationalState(ch: Chain, blocked: bool): State {
    match (ch.rollback, ch.c, ch.receipt)
    case (Some(rollback), _, _) =>
      if rollback.outcome.Succeeded? then Complete
      else if rollback.unknown then Blocked
      else VerificationReconciliationRequired
    case (None, Some(_), _) => VerificationReconciliationRequired
    case (None, None, Some(receipt)) =>
      if ch.verification.Some? && (ch.verification.value.state.Mismatch? || ch.verification.value.state.VerificationUnknown?)
      then VerificationReconciliationRequired
      else if receipt.outcome.Succeeded? && ch.verification.Some? && ch.verification.value.state.Verified? then Complete
      else if receipt.unknown then Blocked
      else VerificationReconciliationRequired
    case (None, None, None) =>
      if ch.action.Some? || (ch.approval.Some? && ch.approval.value.decision.Approved?) then
        if blocked then Blocked else ApprovedNotExecuted
      else NeedsHumanDecision
  }

  function ItemOf(itemId: string, ch: Chain, health: Option<AdapterHealth>, now: Timestamp, staleAfter: int): Result<Item> {
    if itemId == "" then Err("workspace_item_id required")
    else if ChainRejection(ch).Some? then Err(ChainRejection(ch).value)
    else if health.Some? && ch.receipt.Some? && health.value.adapterId != ch.receipt.value.adapterId then
      Err("adapter health/execution receipt adapter mismatch")
    else
      var blocking := BlockingReasons(ch, health, now, staleAfter);
      Ok(MakeItem(itemId, ch, health, now, OperationalState(ch, blocking != {}), blocking))
  }

  function MakeItem(itemId: string, ch: Chain, health: Option<AdapterHealth>, now: Timestamp, state: State, blocking: set<Reason>): Item {
    Item(itemId, ch.proposal.listingId, ProposalFp(ch.proposal), state, blocking,
         if ch.authority.Some? then Some(ch.authority.value.status) else None,
         ch.authority.Some? && now.instant > ch.authority.value.validUntil.instant,
         if health.Some? then health.value.state else HealthUnknown,
         if ch.verification.Some? then Some(ch.verification.value.state) else None,
         if ch.receipt.Some? then Some(ch.receipt.value.outcome) else None,
         if ch.receipt.Some? then Some(ReceiptFp(ch.receipt.value)) else None,
         ch.c.Some? && ch.c.value.rollbackEligible, false)
  }

  method CollectBlocking(ch: Chain, health: Option<AdapterHealth>, now: Timestamp, staleAfter: int)
    returns (blocking: set<Reason>)
    ensures forall r: Reason :: r in blocking <==> Blocks(r, ch, health, now, staleAfter)
  {
    BlocksCases(ch, health, now, staleAfter);
    hide Blocks, HasUnknown;
    blocking := {};
    if ch.approval.Some? {
      if now.instant - ch.approval.value.approvedAt.instant > staleAfter { blocking := blocking + {StaleApproval}; }
      if !ch.approval.value.decision.Approved? { blocking := blocking + {ApprovalNotApproved}; }
    }
    assert StaleApproval in blocking <==> Blocks(StaleApproval, ch, health, now, staleAfter);
    assert ApprovalNotApproved in blocking <==> Blocks(ApprovalNotApproved, ch, health, now, staleAfter);
    assert blocking <= {StaleApproval, ApprovalNotApproved};
    if ch.authority.Some? {
      if ch.authority.value.status != "VALID" { blocking := blocking + {AuthorityNotValid}; }
      if now.instant > ch.authority.value.validUntil.instant { blocking := blocking + {AuthorityExpired}; }
    }
    assert AuthorityNotValid in blocking <==> Blocks(AuthorityNotValid, ch, health, now, staleAfter);
    assert AuthorityExpired in blocking <==> Blocks(AuthorityExpired, ch, health, now, staleAfter);
    if health.Some? && ch.receipt.None? {
      if health.value.state.Degraded? { blocking := blocking + {AdapterDegraded}; }
      if health.value.state.Unavailable? { blocking := blocking + {AdapterUnavailable}; }
    }
    assert AdapterDegraded in blocking <==> Blocks(AdapterDegraded, ch, health, now, staleAfter);
    assert AdapterUnavailable in blocking <==> Blocks(AdapterUnavailable, ch, health, now, staleAfter);
    if HasUnknown(ch) { blocking := blocking + {UnknownOutcome}; }
    if ch.c.Some? && ch.c.value.state.Open? { blocking := blocking + {OpenReconciliation}; }
    forall r: Reason ensures r in blocking <==> Blocks(r, ch, health, now, staleAfter) {
      match r
      case StaleApproval =>
      case ApprovalNotApproved =>
      case AuthorityNotValid =>
      case AuthorityExpired =>
      case AdapterDegraded =>
      case AdapterUnavailable =>
      case UnknownOutcome =>
      case OpenReconciliation =>
    }
  }

  lemma BlocksCases(ch: Chain, health: Option<AdapterHealth>, now: Timestamp, staleAfter: int)
    ensures Blocks(StaleApproval, ch, health, now, staleAfter) <==>
            ch.approval.Some? && now.instant - ch.approval.value.approvedAt.instant > staleAfter
    ensures Blocks(ApprovalNotApproved, ch, health, now, staleAfter) <==>
            ch.approval.Some? && !ch.approval.value.decision.Approved?
    ensures Blocks(AuthorityNotValid, ch, health, now, staleAfter) <==>
            ch.authority.Some? && ch.authority.value.status != "VALID"
    ensures Blocks(AuthorityExpired, ch, health, now, staleAfter) <==>
            ch.authority.Some? && now.instant > ch.authority.value.validUntil.instant
    ensures Blocks(AdapterDegraded, ch, health, now, staleAfter) <==>
            health.Some? && health.value.state.Degraded? && ch.receipt.None?
    ensures Blocks(AdapterUnavailable, ch, health, now, staleAfter) <==>
            health.Some? && health.value.state.Unavailable? && ch.receipt.None?
    ensures Blocks(UnknownOutcome, ch, health, now, staleAfter) <==> HasUnknown(ch)
    ensures Blocks(OpenReconciliation, ch, health, now, staleAfter) <==> ch.c.Some? && ch.c.value.state.Open?
  {
    hide HasUnknown;
  }

  lemma SameReasons(blocking: set<Reason>, ch: Chain, health: Option<AdapterHealth>, now: Timestamp, staleAfter: int)
    requires forall r: Reason :: r in blocking <==> Blocks(r, ch, health, now, staleAfter)
    ensures blocking == BlockingReasons(ch, health, now, staleAfter)
  {
    hide Blocks;
  }

  method DetermineState(ch: Chain, blocked: bool) returns (state: State)
    requires ch.verification.Some? ==> ch.receipt.Some?
    ensures state == OperationalState(ch, blocked)
  {
    if ch.rollback.Some? {
      state := if ch.rollback.value.outcome.Succeeded? then Complete
               else if ch.rollback.value.unknown then Blocked else VerificationReconciliationRequired;
    } else if ch.c.Some? || (ch.verification.Some? &&
              (ch.verification.value.state.Mismatch? || ch.verification.value.state.VerificationUnknown?)) {
      state := VerificationReconciliationRequired;
    } else if ch.receipt.Some? {
      if ch.receipt.value.outcome.Succeeded? && ch.verification.Some? && ch.verification.value.state.Verified? {
        state := Complete;
      } else if ch.receipt.value.unknown {
        state := Blocked;
      } else {
        state := VerificationReconciliationRequired;
      }
    } else if ch.action.Some? {
      state := if blocked then Blocked else ApprovedNotExecuted;
    } else if ch.approval.Some? && ch.approval.value.decision.Approved? {
      state := if blocked then Blocked else ApprovedNotExecuted;
    } else {
      state := NeedsHumanDecision;
    }
  }

  method BuildWorkspaceItem(itemId: string, ch: Chain, health: Option<AdapterHealth>, now: Timestamp, staleAfter: int)
    returns (r: Result<Item>)
    ensures r == ItemOf(itemId, ch, health, now, staleAfter)
  {
    if itemId == "" { return Err("workspace_item_id required"); }
    var rejection := ChainRejection(ch);
    if rejection.Some? { return Err(rejection.value); }
    VerifiedHasReceipt(ch);
    hide ChainRejection, BlockingReasons, OperationalState, HasUnknown, Blocks, MakeItem;
    if health.Some? && ch.receipt.Some? && health.value.adapterId != ch.receipt.value.adapterId {
      return Err("adapter health/execution receipt adapter mismatch");
    }
    var blocking := CollectBlocking(ch, health, now, staleAfter);
    assert blocking == BlockingReasons(ch, health, now, staleAfter) by { SameReasons(blocking, ch, health, now, staleAfter); }
    var state := DetermineState(ch, blocking != {});
    r := Ok(MakeItem(itemId, ch, health, now, state, blocking));
  }

  lemma ReviewLineage(ch: Chain)
    requires ReviewRejection(ch).None?
    ensures ch.verification.Some? ==> ch.receipt.Some? && ch.verification.value.receipt == ReceiptFp(ch.receipt.value)
    ensures ch.c.Some? ==> ch.receipt.Some? && ch.verification.Some? && ch.c.value.receipt == ReceiptFp(ch.receipt.value)
                           && ch.c.value.verification == VerificationFp(ch.verification.value)
  {
  }

  lemma RollbackChainLineage(ch: Chain)
    requires RollbackLineageRejection(ch).None?
    ensures ch.rollback.Some? ==> ch.c.Some? && ch.rollback.value.c == CaseFp(ch.c.value)
  {
  }

  lemma VerifiedHasReceipt(ch: Chain)
    requires ChainRejection(ch).None?
    ensures ch.verification.Some? ==> ch.receipt.Some? && ch.verification.value.receipt == ReceiptFp(ch.receipt.value)
    ensures ch.c.Some? ==> ch.receipt.Some? && ch.verification.Some? && ch.c.value.receipt == ReceiptFp(ch.receipt.value)
                           && ch.c.value.verification == VerificationFp(ch.verification.value)
    ensures ch.rollback.Some? ==> ch.c.Some? && ch.rollback.value.c == CaseFp(ch.c.value)
  {
    hide ActionRejection, ReceiptRejection, ReviewRejection, RollbackLineageRejection;
    ReviewLineage(ch);
    RollbackChainLineage(ch);
  }

  // ---- chains of a run ----

  /** The chain's records are on the ledgers of a run. */
  ghost predicate FromRun(ch: Chain, w: World) {
    && (ch.receipt.Some? ==> ch.receipt.value in w.receipts)
    && (ch.verification.Some? ==> ch.verification.value in w.verifications)
    && (ch.c.Some? ==> ch.c.value in w.cases || ch.c.value in w.resolved)
    && (ch.rollback.Some? ==> ch.rollback.value in w.rollbacks)
  }

  /** Completed exactly by a rollback that succeeded, or by a success that was independently
      verified and opened no case. */
  ghost predicate Done(ch: Chain) {
    || (ch.rollback.Some? && ch.rollback.value.outcome.Succeeded?)
    || (&& ch.rollback.None? && ch.c.None? && ch.receipt.Some? && ch.receipt.value.outcome.Succeeded?
        && ch.verification.Some? && ch.verification.value.state.Verified?)
  }

  /** A receipt under a mismatch has a known outcome. */
  lemma MismatchIsKnown(w: World, v: Verification)
    requires Safe(w) && v in w.verifications && (v.state.Mismatch? || v.state.Verified?)
    ensures v.receipt.receipt in w.receipts && !v.receipt.receipt.unknown
  {
    hide OneCallEach, CallIsAuthorized, RollbacksOk, CaseOk;
    var r := v.receipt.receipt;
    assert VerificationOk(w.receipts, v);
    assert ReceiptOk(r);
    if r.outcome.BlockedOutcomeUnknown? { BlockedNotAttempted(w.receipts, r); }
  }

  lemma BlockedNotAttempted(rs: seq<Receipt>, r: Receipt)
    requires Disciplined(Entries(rs)) && r in rs && r.outcome.BlockedOutcomeUnknown?
    ensures !r.attempted
  {
    var i :| 0 <= i < |rs| && rs[i] == r;
    DisciplinedAt(Entries(rs), i);
  }

  /** On the chains of every run, COMPLETE means done, and nothing in the chain is unknown. */
  lemma CompleteMeansKnown(events: seq<Event>, itemId: string, ch: Chain, health: Option<AdapterHealth>, now: Timestamp, staleAfter: int)
    requires FromRun(ch, Run(events))
    requires ItemOf(itemId, ch, health, now, staleAfter).Ok?
    ensures var item := ItemOf(itemId, ch, health, now, staleAfter).value;
            && (item.state == Complete <==> Done(ch))
            && (item.state == Complete ==> !HasUnknown(ch) && UnknownOutcome !in item.blocking)
  {
    RunIsSafe(events);
    hide Run, ChainRejection, ExecutionsOk, RollbacksOk, ReviewsOk;
    VerifiedHasReceipt(ch);
    var w := Run(events);
    if Done(ch) {
      if ch.rollback.Some? {
        RollbackOfMismatch(w, ch.rollback.value);
      }
      MismatchIsKnown(w, ch.verification.value);
    }
  }

  lemma RollbackOfMismatch(w: World, r: RollbackReceipt)
    requires Safe(w) && r in w.rollbacks
    ensures r.c.c.verification.verification.state.Mismatch? && r.c.c.state.Open?
    ensures r.unknown == IsUnknown(r.outcome)
  {
    hide ExecutionsOk, Disciplined, OneCallEach, VerificationOk, RollbackEvidence;
    assert RollbackLineage(w, r);
    assert CaseOk(w.verifications, r.c.c);
  }

  /** Completion by rollback leaves its reconciliation case open, and says so. */
  lemma RolledBackStillOpen(events: seq<Event>, itemId: string, ch: Chain, health: Option<AdapterHealth>, now: Timestamp, staleAfter: int)
    requires FromRun(ch, Run(events)) && ItemOf(itemId, ch, health, now, staleAfter).Ok?
    requires ItemOf(itemId, ch, health, now, staleAfter).value.state == Complete && ch.rollback.Some?
    ensures OpenReconciliation in ItemOf(itemId, ch, health, now, staleAfter).value.blocking
    ensures ItemOf(itemId, ch, health, now, staleAfter).value.rollbackEligible
  {
    RunIsSafe(events);
    hide Run, ChainRejection, ExecutionsOk, RollbacksOk, ReviewsOk;
    VerifiedHasReceipt(ch);
    RollbackOfMismatch(Run(events), ch.rollback.value);
    EligibleCase(Run(events), ch.rollback.value);
  }

  lemma EligibleCase(w: World, r: RollbackReceipt)
    requires Safe(w) && r in w.rollbacks
    ensures r.c.c.rollbackEligible
  {
    hide ExecutionsOk, ReviewsOk, Disciplined, OneCallEach, RollbackEvidence;
    assert RollbackLineage(w, r);
  }

  // ---- the workspace ----

  function ItemKey(i: Item): Key {
    [i.listingId, i.itemId]
  }

  datatype Summary = Summary(
    items: seq<Item>, counts: map<State, nat>, blocked: seq<string>, unknown: seq<string>, eligible: seq<string>)

  function Having(s: State, items: seq<Item>): nat {
    if items == [] then 0
    else Having(s, items[..|items| - 1]) + (if items[|items| - 1].state == s then 1 else 0)
  }

  function Ids(items: seq<Item>, keep: Item -> bool): seq<string> {
    if items == [] then []
    else if keep(items[0]) then [items[0].itemId] + Ids(items[1..], keep)
    else Ids(items[1..], keep)
  }

  predicate DistinctIds(items: seq<Item>) {
    forall i, j | 0 <= i < j < |items| :: items[i].itemId != items[j].itemId
  }

  method BuildExecutionWorkspace(items: seq<Item>) returns (r: Result<Summary>)
    ensures r.Err? <==> !DistinctIds(SortBy(items, ItemKey))
    ensures r.Ok? ==>
              && r.value.items == SortBy(items, ItemKey)
              && (forall s: State :: s in r.value.counts && r.value.counts[s] == Having(s, r.value.items))
              && r.value.blocked == Ids(r.value.items, (i: Item) => i.state == Blocked)
              && r.value.unknown == Ids(r.value.items, (i: Item) => UnknownOutcome in i.blocking)
              && r.value.eligible == Ids(r.value.items, (i: Item) => i.rollbackEligible)
  {
    var rows := SortBy(items, ItemKey);
    hide SortBy;
    var distinct := CheckDistinct(rows);
    if !distinct { return Err("duplicate workspace_item_id"); }
    var counts := CountStates(rows);
    r := Ok(Summary(rows, counts, Ids(rows, (i: Item) => i.state == Blocked),
                    Ids(rows, (i: Item) => UnknownOutcome in i.blocking), Ids(rows, (i: Item) => i.rollbackEligible)));
  }

  method CheckDistinct(rows: seq<Item>) returns (distinct: bool)
    ensures distinct <==> DistinctIds(rows)
  {
    var seen: set<string> := {};
    for i := 0 to |rows|
      invariant DistinctIds(rows[..i])
      invariant seen == set k | 0 <= k < i :: rows[k].itemId
    {
      if rows[i].itemId in seen {
        return false;
      }
      seen := seen + {rows[i].itemId};
    }
    assert rows[..|rows|] == rows;
    return true;
  }

  method CountStates(rows: seq<Item>) returns (counts: map<State, nat>)
    ensures forall s: State :: s in counts && counts[s] == Having(s, rows)
  {
    counts := map[NeedsHumanDecision := 0, ApprovedNotExecuted := 0, Executing := 0,
                  VerificationReconciliationRequired := 0, Blocked := 0, Complete := 0];
    forall s: State ensures s in counts && counts[s] == Having(s, rows[..0]) {
      assert rows[..0] == [];
      match s
      case NeedsHumanDecision =>
      case ApprovedNotExecuted =>
      case Executing =>
      case VerificationReconciliationRequired =>
      case Blocked =>
      case Complete =>
    }
    for i := 0 to |rows|
      invariant forall s: State :: s in counts && counts[s] == Having(s, rows[..i])
    {
      assert rows[..i + 1][..i] == rows[..i];
      counts := counts[rows[i].state := counts[rows[i].state] + 1];
    }
    assert rows[..|rows|] == rows;
  }

  /** Every item is counted once: the counts of the six states add up to the number of items. */
  lemma {:induction false} CountsAddUp(items: seq<Item>)
    ensures Having(NeedsHumanDecision, items) + Having(ApprovedNotExecuted, items) + Having(Executing, items)
          + Having(VerificationReconciliationRequired, items) + Having(Blocked, items) + Having(Complete, items) == |items|
    ensures |SortBy(items, ItemKey)| == |items|
  {
    SortFacts(items, ItemKey);
    if items != [] { CountsAddUp(items[..|items| - 1]); }
  }
}
