/** Independent verification of execution receipts, reconciliation cases and rollback. */
module Reconciliation {
  import opened Basics
  import opened Execution

  datatype ReceiptFp = ReceiptFp(receipt: Receipt)

  datatype VerificationRequest = VerificationRequest(
    verificationId: string, receipt: ReceiptFp, listingId: string, actionType: string, requestedAt: Timestamp)

  datatype Observation = Observation(
    observationId: string, listingId: string, actionType: string, observedAt: Timestamp,
    stateCode: string, source: string, independent: bool)

  datatype VerificationState = Verified | Mismatch | VerificationUnknown | NotApplicable

  datatype Verification = Verification(
    verificationId: string, receipt: ReceiptFp, observation: Option<Observation>, state: VerificationState,
    expectedOutcome: Outcome, observedCode: Option<string>, reasons: seq<string>, verifiedAt: Timestamp)

  datatype VerificationFp = VerificationFp(verification: Verification)

  datatype CaseState = Open | Resolved

  datatype Case = Case(
    caseId: string, receipt: ReceiptFp, verification: VerificationFp, state: CaseState,
    reasons: seq<string>, rollbackEligible: bool, openedAt: Timestamp)

  datatype CaseFp = CaseFp(c: Case)

  datatype RollbackApproval = RollbackApproval(
    approvalId: string, c: CaseFp, actorId: string, decision: HumanDecision, approvedAt: Timestamp, rationale: string)

  datatype RollbackApprovalFp = RollbackApprovalFp(approval: RollbackApproval)

  datatype RollbackAuthority = RollbackAuthority(
    authorityId: string, principalId: string, listingId: string, actionTypes: set<string>,
    status: string, validFrom: Timestamp, validUntil: Timestamp, source: string)

  datatype RollbackAuthorityFp = RollbackAuthorityFp(authority: RollbackAuthority)

  datatype RollbackKey = RollbackKey(
    proposal: ProposalFp, action: ActionFp, receipt: ReceiptFp, verification: VerificationFp,
    c: CaseFp, approval: RollbackApprovalFp, authority: RollbackAuthorityFp, adapterId: string)

  datatype RollbackRequest = RollbackRequest(
    requestId: string, c: CaseFp, proposal: ProposalFp, action: ActionFp, receipt: ReceiptFp,
    verification: VerificationFp, approval: RollbackApprovalFp, authority: RollbackAuthorityFp,
    listingId: string, actionType: string, adapterId: string, requestedAt: Timestamp, key: RollbackKey)

  datatype RollbackRequestFp = RollbackRequestFp(request: RollbackRequest)

  datatype RollbackResponse = RollbackResponse(
    adapterId: string, request: RollbackRequestFp, outcome: AdapterOutcome, externalId: Option<string>)

  datatype RollbackReply = RollbackRaised | RollbackResponded(response: RollbackResponse)

  datatype RollbackReceipt = RollbackReceipt(
    receiptId: string, request: RollbackRequestFp, key: RollbackKey, c: CaseFp, receipt: ReceiptFp,
    verification: VerificationFp, approval: RollbackApprovalFp, authority: RollbackAuthorityFp,
    outcome: Outcome, externalId: Option<string>, attempted: bool, suppressed: bool, unknown: bool, recordedAt: Timestamp)

  // ---- verification ----

  method VerifyExecution(
    request: VerificationRequest, receipt: Receipt, observation: Option<Observation>, expected: Option<string>,
    at: Timestamp, prior: seq<Verification>)
    returns (r: Result<Verification>)
    ensures r == VerificationOf(request, receipt, observation, expected, at, prior)
  {
    if request.receipt != ReceiptFp(receipt) { return Err("verification request receipt binding mismatch"); }
    if exists x | x in prior :: x.receipt == ReceiptFp(receipt) {
      return Err("execution receipt already independently verified");
    }
    var reasons: seq<string> := [];
    var observed: Option<string> := None;
    var state: VerificationState;
    if (receipt.outcome.DuplicateSuppressed? || receipt.outcome.BlockedOutcomeUnknown?) && !receipt.attempted {
      state := if receipt.outcome.DuplicateSuppressed? then NotApplicable else VerificationUnknown;
      reasons := [OutcomeText(receipt.outcome)];
    } else if receipt.outcome.OutcomeUnknown? {
      state := VerificationUnknown;
      reasons := ["EXECUTION_OUTCOME_UNKNOWN"];
    } else if observation.None? {
      state := VerificationUnknown;
      reasons := ["OBSERVED_STATE_MISSING"];
    } else {
      var seen := observation.value;
      if seen.listingId != request.listingId || seen.actionType != request.actionType {
        return Err("observation scope mismatch");
      }
      if !seen.independent { return Err("observation is not independent"); }
      observed := Some(seen.stateCode);
      if expected.None? {
        state := VerificationUnknown;
        reasons := ["EXPECTED_STATE_UNSPECIFIED"];
      } else if observed == expected {
        state := Verified;
        reasons := ["OBSERVED_STATE_MATCH"];
      } else {
        state := Mismatch;
        reasons := ["OBSERVED_STATE_MISMATCH"];
      }
    }
    r := Ok(Verification(request.verificationId, ReceiptFp(receipt), observation, state, receipt.outcome,
                         observed, reasons, at));
  }

  function OutcomeText(o: Outcome): string {
    match o
    case Succeeded => "SUCCEEDED"
    case Failed => "FAILED"
    case OutcomeUnknown => "OUTCOME_UNKNOWN"
    case DuplicateSuppressed => "DUPLICATE_SUPPRESSED"
    case BlockedOutcomeUnknown => "BLOCKED_OUTCOME_UNKNOWN"
  }

  /** A receipt whose own record leaves nothing to observe. */
  predicate Unobservable(receipt: Receipt) {
    receipt.outcome.OutcomeUnknown?
    || ((receipt.outcome.DuplicateSuppressed? || receipt.outcome.BlockedOutcomeUnknown?) && !receipt.attempted)
  }

  function VerifiedState(receipt: Receipt, observation: Option<Observation>, expected: Option<string>)
    : (VerificationState, string)
  {
    if Unobservable(receipt) then
      if receipt.outcome.OutcomeUnknown? then (VerificationUnknown, "EXECUTION_OUTCOME_UNKNOWN")
      else if receipt.outcome.DuplicateSuppressed? then (NotApplicable, "DUPLICATE_SUPPRESSED")
      else (VerificationUnknown, "BLOCKED_OUTCOME_UNKNOWN")
    else if observation.None? then (VerificationUnknown, "OBSERVED_STATE_MISSING")
    else if expected.None? then (VerificationUnknown, "EXPECTED_STATE_UNSPECIFIED")
    else if observation.value.stateCode == expected.value then (Verified, "OBSERVED_STATE_MATCH")
    else (Mismatch, "OBSERVED_STATE_MISMATCH")
  }

  function VerificationOf(
    request: VerificationRequest, receipt: Receipt, observation: Option<Observation>, expected: Option<string>,
    at: Timestamp, prior: seq<Verification>)
    : Result<Verification>
  {
    if request.receipt != ReceiptFp(receipt) then Err("verification request receipt binding mismatch")
    else if exists x | x in prior :: x.receipt == ReceiptFp(receipt) then
      Err("execution receipt already independently verified")
    else
      var observes := !Unobservable(receipt) && observation.Some?;
      if observes && (observation.value.listingId != request.listingId || observation.value.actionType != request.actionType)
      then Err("observation scope mismatch")
      else if observes && !observation.value.independent then Err("observation is not independent")
      else
        var (state, reason) := VerifiedState(receipt, observation, expected);
        Ok(Verification(request.verificationId, ReceiptFp(receipt), observation, state, receipt.outcome,
                        if observes then Some(observation.value.stateCode) else None, [reason], at))
  }

  // ---- reconciliation ----

  function BuildCase(caseId: string, receipt: Receipt, v: Verification, at: Timestamp): Result<Option<Case>> {
    if v.receipt != ReceiptFp(receipt) then Err("verification/receipt binding mismatch")
    else if !v.state.Mismatch? && !v.state.VerificationUnknown? then Ok(None)
    else Ok(Some(Case(caseId, ReceiptFp(receipt), VerificationFp(v), Open, v.reasons,
                      v.state.Mismatch? && receipt.attempted, at)))
  }

  // ---- rollback ----

  predicate AuthorityValidAt(authority: RollbackAuthority, at: Timestamp) {
    authority.status == "VALID" && authority.validFrom.instant <= at.instant <= authority.validUntil.instant
  }

  function BuildRollbackRequest(
    requestId: string, c: Case, action: Action, receipt: Receipt, v: Verification,
    approval: RollbackApproval, authority: RollbackAuthority, adapterId: string, at: Timestamp)
    : Result<RollbackRequest>
  {
    if !c.rollbackEligible then Err("reconciliation case is not rollback eligible")
    else if !c.state.Open? then Err("reconciliation case is not open")
    else if c.receipt != ReceiptFp(receipt) then Err("rollback original receipt lineage mismatch")
    else if c.verification != VerificationFp(v) then Err("rollback verification lineage mismatch")
    else if approval.c != CaseFp(c) then Err("rollback approval case binding mismatch")
    else if !approval.decision.Approved? then Err("explicit rollback approval required")
    else if authority.status != "VALID" then Err("rollback authority is not VALID")
    else if authority.listingId != action.listingId then Err("rollback authority listing scope mismatch")
    else if action.actionType !in authority.actionTypes then Err("rollback authority action scope mismatch")
    else if !AuthorityValidAt(authority, at) then Err("rollback authority is not valid at request time")
    else
      var key := RollbackKey(action.proposal, ActionFp(action), ReceiptFp(receipt), VerificationFp(v), CaseFp(c),
                             RollbackApprovalFp(approval), RollbackAuthorityFp(authority), adapterId);
      Ok(RollbackRequest(requestId, CaseFp(c), action.proposal, ActionFp(action), ReceiptFp(receipt), VerificationFp(v),
                         RollbackApprovalFp(approval), RollbackAuthorityFp(authority), action.listingId,
                         action.actionType, adapterId, at, key))
  }

  datatype RollbackAttempt = RollbackAttempt(
    receiptId: string, request: RollbackRequest, c: Case, approval: RollbackApproval,
    authority: RollbackAuthority, at: Timestamp)

  function RollbackRejection(a: RollbackAttempt): Option<string> {
    if a.request.c != CaseFp(a.c) then Some("rollback request case binding mismatch")
    else if a.request.approval != RollbackApprovalFp(a.approval) then Some("rollback request approval binding mismatch")
    else if a.request.authority != RollbackAuthorityFp(a.authority) then Some("rollback request authority binding mismatch")
    else if !a.approval.decision.Approved? then Some("explicit rollback approval required")
    else if !AuthorityValidAt(a.authority, a.at) then Some("rollback authority is not valid at execution time")
    else None
  }

  function MakeRollbackReceipt(a: RollbackAttempt, outcome: Outcome, externalId: Option<string>,
                               attempted: bool, suppressed: bool): (r: RollbackReceipt)
    ensures r.key == a.request.key && r.c == a.request.c && r.receipt == a.request.receipt
    ensures r.verification == a.request.verification && r.unknown == IsUnknown(r.outcome)
  {
    RollbackReceipt(a.receiptId, RollbackRequestFp(a.request), a.request.key, a.request.c, a.request.receipt,
                    a.request.verification, a.request.approval, a.request.authority,
                    outcome, externalId, attempted, suppressed, IsUnknown(outcome), a.at)
  }

  /** The rollback executor looks for OUTCOME_UNKNOWN only, not for earlier blocks. */
  function OnRecord(key: RollbackKey, prior: seq<RollbackReceipt>): (d: Decision)
    ensures !d.Refuse?
  {
    if exists x | x in prior :: x.key == key && x.outcome.OutcomeUnknown? then Suppress(BlockedOutcomeUnknown)
    else if exists x | x in prior :: x.key == key then Suppress(DuplicateSuppressed)
    else CallAdapter
  }

  function RollbackDecide(a: RollbackAttempt, prior: seq<RollbackReceipt>): Decision {
    match RollbackRejection(a)
    case Some(e) => Refuse(e)
    case None => OnRecord(a.request.key, prior)
  }

  /** The execution engine's wider test, for an unknown outcome or an earlier block. */
  function OnRecordWider(key: RollbackKey, prior: seq<RollbackReceipt>): Decision {
    if exists x | x in prior :: x.key == key && IsUnknown(x.outcome) then Suppress(BlockedOutcomeUnknown)
    else if exists x | x in prior :: x.key == key then Suppress(DuplicateSuppressed)
    else CallAdapter
  }

  /** What a reply says of the rollback: its outcome and its external id. */
  function RollbackOutcome(a: RollbackAttempt, reply: RollbackReply): (Outcome, Option<string>) {
    match reply
    case RollbackRaised => (OutcomeUnknown, None)
    case RollbackResponded(response) =>
      if response.adapterId != a.request.adapterId || response.request != RollbackRequestFp(a.request) then (OutcomeUnknown, None)
      else
        match response.outcome
        case AdapterSucceeded => if HasId(response.externalId) then (Succeeded, response.externalId) else (OutcomeUnknown, None)
        case AdapterFailed => (Failed, response.externalId)
        case AdapterUnknown => (OutcomeUnknown, response.externalId)
  }

  function RollbackReceiptFor(a: RollbackAttempt, reply: RollbackReply): (r: RollbackReceipt)
    ensures r.key == a.request.key && r.c == a.request.c && r.receipt == a.request.receipt
    ensures r.verification == a.request.verification && r.unknown == IsUnknown(r.outcome)
  {
    var (outcome, external) := RollbackOutcome(a, reply);
    MakeRollbackReceipt(a, outcome, external, true, false)
  }

  /** A rollback request of the builder is refused at execution only when the authority is not
      valid at that time; its key names the receipt, verification, case and approval of the case,
      and the action is the one that was passed. */
  lemma RollbackRequestExecutes(
    requestId: string, c: Case, action: Action, receipt: Receipt, v: Verification, approval: RollbackApproval,
    authority: RollbackAuthority, adapterId: string, requestedAt: Timestamp, receiptId: string, at: Timestamp, prior: seq<RollbackReceipt>)
    requires BuildRollbackRequest(requestId, c, action, receipt, v, approval, authority, adapterId, requestedAt).Ok?
    ensures var request := BuildRollbackRequest(requestId, c, action, receipt, v, approval, authority, adapterId, requestedAt).value;
            var a := RollbackAttempt(receiptId, request, c, approval, authority, at);
            && (RollbackDecide(a, prior).Refuse? <==>
                at.instant < authority.validFrom.instant || at.instant > authority.validUntil.instant)
            && request.key.receipt == ReceiptFp(receipt) && request.key.verification == VerificationFp(v)
            && request.key.c == CaseFp(c) && request.key.approval.approval.c == CaseFp(c)
            && c.receipt == request.key.receipt && c.verification == request.key.verification
            && request.key.action == request.action == ActionFp(action) && request.proposal == action.proposal
            && request.listingId == action.listingId && request.actionType == action.actionType
  {
    hide OnRecord;
    var request := BuildRollbackRequest(requestId, c, action, receipt, v, approval, authority, adapterId, requestedAt).value;
    var a := RollbackAttempt(receiptId, request, c, approval, authority, at);
    assert RollbackRejection(a).None? <==> AuthorityValidAt(authority, at);
  }

  class RollbackAdapter {
    const behave: (seq<RollbackRequest>, RollbackRequest) -> RollbackReply
    var calls: seq<RollbackRequest>

    constructor (behave: (seq<RollbackRequest>, RollbackRequest) -> RollbackReply)
      ensures this.behave == behave && calls == []
    {
      this.behave := behave;
      calls := [];
    }

    method Call(request: RollbackRequest) returns (reply: RollbackReply)
      modifies this
      ensures calls == old(calls) + [request]
      ensures reply == behave(old(calls), request)
    {
      reply := behave(calls, request);
      calls := calls + [request];
    }
  }

  method RecordRollbackReply(a: RollbackAttempt, reply: RollbackReply) returns (r: RollbackReceipt)
    ensures r == RollbackReceiptFor(a, reply)
  {
    hide MakeRollbackReceipt;
    if reply.RollbackRaised? { return MakeRollbackReceipt(a, OutcomeUnknown, None, true, false); }
    var response := reply.response;
    var outcome := match response.outcome
      case AdapterSucceeded => Succeeded
      case AdapterFailed => Failed
      case AdapterUnknown => OutcomeUnknown;
    var external := response.externalId;
    if response.adapterId != a.request.adapterId || response.request != RollbackRequestFp(a.request) {
      outcome, external := OutcomeUnknown, None;
    } else if outcome == Succeeded && !HasId(external) {
      outcome, external := OutcomeUnknown, None;
    }
    r := MakeRollbackReceipt(a, outcome, external, true, false);
  }

  method ExecuteRollback(a: RollbackAttempt, adapter: RollbackAdapter, prior: seq<RollbackReceipt>)
    returns (r: Result<RollbackReceipt>)
    modifies adapter
    ensures RollbackDecide(a, prior).CallAdapter? ==>
              && adapter.calls == old(adapter.calls) + [a.request]
              && r == Ok(RollbackReceiptFor(a, adapter.behave(old(adapter.calls), a.request)))
    ensures RollbackDecide(a, prior).Refuse? ==>
              adapter.calls == old(adapter.calls) && r == Err(RollbackDecide(a, prior).error)
    ensures RollbackDecide(a, prior).Suppress? ==>
              && adapter.calls == old(adapter.calls)
              && r == Ok(MakeRollbackReceipt(a, RollbackDecide(a, prior).outcome, None, false, true))
  {
    hide RollbackRejection, MakeRollbackReceipt, RollbackReceiptFor, OnRecord;
    var rejection := RollbackRejection(a);
    if rejection.Some? { return Err(rejection.value); }

    var record := OnRecord(a.request.key, prior);
    if record.Suppress? { return Ok(MakeRollbackReceipt(a, record.outcome, None, false, true)); }

    var reply := adapter.Call(a.request);
    var receipt := RecordRollbackReply(a, reply);
    r := Ok(receipt);
  }
}
