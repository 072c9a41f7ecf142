/** Governed execution of one approved action: authority checks, idempotency, the adapter call
    and the receipt. */
module Execution {
  import opened Basics

  datatype Proposal = Proposal(
    proposalId: string, propertyId: string, listingId: string, actionType: string,
    status: string, approvalState: string, authorizationState: string, executionState: string,
    publicEligible: bool, externalCapability: string)

  datatype ProposalFp = ProposalFp(proposal: Proposal)

  datatype HumanDecision = Approved | Rejected

  datatype Approval = Approval(
    approvalId: string, proposal: ProposalFp, actorId: string, decision: HumanDecision,
    approvedAt: Timestamp, rationale: string)

  datatype ApprovalFp = ApprovalFp(approval: Approval)

  datatype Authority = Authority(
    authorityId: string, principalId: string, listingId: string, actionTypes: set<string>,
    status: string, validFrom: Timestamp, validUntil: Timestamp, source: string)

  datatype AuthorityFp = AuthorityFp(authority: Authority)

  datatype Action = Action(
    actionId: string, proposalId: string, proposal: ProposalFp, listingId: string, propertyId: string,
    actionType: string, approval: ApprovalFp, authority: AuthorityFp, authorizedAt: Timestamp)

  datatype ActionFp = ActionFp(action: Action)

  /** The fields an idempotency key is hashed from: no request id and no time. */
  datatype IdempotencyKey = IdempotencyKey(
    proposal: ProposalFp, approval: ApprovalFp, authority: AuthorityFp,
    actionType: string, listingId: string, adapterId: string)

  datatype Request = Request(
    requestId: string, action: ActionFp, proposal: ProposalFp, listingId: string, actionType: string,
    adapterId: string, requestedAt: Timestamp, key: IdempotencyKey)

  datatype RequestFp = RequestFp(request: Request)

  datatype AdapterOutcome = AdapterSucceeded | AdapterFailed | AdapterUnknown

  datatype Response = Response(
    adapterId: string, request: RequestFp, outcome: AdapterOutcome, externalId: Option<string>)

  /** What calling an adapter gives: an exception or a response. */
  datatype Reply = Raised | Responded(response: Response)

  datatype Outcome = Succeeded | Failed | OutcomeUnknown | DuplicateSuppressed | BlockedOutcomeUnknown

  datatype Receipt = Receipt(
    receiptId: string, requestId: string, request: RequestFp, key: IdempotencyKey,
    proposal: ProposalFp, action: ActionFp, approval: ApprovalFp, authority: AuthorityFp,
    adapterId: string, response: Option<Response>, outcome: Outcome, externalId: Option<string>,
    attempted: bool, suppressed: bool, unknown: bool, recordedAt: Timestamp)

  /** The arguments of one execution other than the adapter and the prior receipts. */
  datatype Attempt = Attempt(
    receiptId: string, proposal: Proposal, approval: Approval, authority: Authority,
    action: Action, request: Request, at: Timestamp)

  predicate IsUnknown(o: Outcome) {
    o == OutcomeUnknown || o == BlockedOutcomeUnknown
  }

  /** A truthy external receipt id. */
  predicate HasId(id: Option<string>) {
    id.Some? && id.value != ""
  }

  // ---- approval, authority, authorization ----

  function MakeAuthority(
    authorityId: string, principalId: string, listingId: string, actionTypes: set<string>,
    status: string, validFrom: Timestamp, validUntil: Timestamp, source: string)
    : (r: Result<Authority>)
    ensures r.Ok? ==> r.value.validFrom.instant < r.value.validUntil.instant && r.value.actionTypes != {}
  {
    if authorityId == "" || principalId == "" || listingId == "" then Err("authority id, principal id, and listing id required")
    else if validUntil.instant <= validFrom.instant then Err("authority valid_until must be after valid_from")
    else if actionTypes == {} then Err("authority action scope required")
    else Ok(Authority(authorityId, principalId, listingId, actionTypes, status, validFrom, validUntil, source))
  }

  function ProposalRejection(p: Proposal): Option<string> {
    if p.status != "PROPOSED" then Some("M12-002 requires current PROPOSED action")
    else if p.approvalState != "NOT_APPROVED" || p.authorizationState != "NOT_AUTHORIZED" then
      Some("M12-001 proposal authority state is not pristine")
    else if p.executionState != "NOT_EXECUTABLE" then Some("M12-001 proposal execution state is not pristine")
    else if p.publicEligible || p.externalCapability != "NONE" then Some("M12-001 proposal boundary violated")
    else None
  }

  function AuthorityRejection(p: Proposal, approval: Approval, authority: Authority, at: Timestamp): Option<string> {
    if approval.proposal != ProposalFp(p) then Some("approval is not bound to exact proposal")
    else if approval.decision != Approved then Some("explicit APPROVED human approval required")
    else if authority.status != "VALID" then Some("execution authority is not VALID")
    else if authority.listingId != p.listingId then Some("execution authority listing scope mismatch")
    else if p.actionType !in authority.actionTypes then Some("execution authority action scope mismatch")
    else if at.instant < authority.validFrom.instant || at.instant > authority.validUntil.instant then
      Some("execution authority is not valid at requested time")
    else None
  }

  /** Proposed, and untouched by approval, authorization, execution or publication so far. */
  predicate Pristine(p: Proposal) {
    && p.status == "PROPOSED" && p.approvalState == "NOT_APPROVED" && p.authorizationState == "NOT_AUTHORIZED"
    && p.executionState == "NOT_EXECUTABLE" && !p.publicEligible && p.externalCapability == "NONE"
  }

  /** A human approved exactly this proposal and the authority covers it at this time. */
  ghost predicate Authorized(p: Proposal, approval: Approval, authority: Authority, at: Timestamp) {
    && approval.proposal.proposal == p && approval.decision.Approved?
    && authority.status == "VALID" && authority.listingId == p.listingId && p.actionType in authority.actionTypes
    && authority.validFrom.instant <= at.instant <= authority.validUntil.instant
    && Pristine(p)
  }

  function AuthorizeAction(
    actionId: string, p: Proposal, approval: Approval, authority: Authority, at: Timestamp)
    : (r: Result<Action>)
    ensures r.Ok? ==> Authorized(p, approval, authority, at)
  {
    if actionId == "" then Err("authorized_action_id required")
    else match (ProposalRejection(p), AuthorityRejection(p, approval, authority, at))
      case (Some(e), _) => Err(e)
      case (_, Some(e)) => Err(e)
      case _ => Ok(Action(actionId, p.proposalId, ProposalFp(p), p.listingId, p.propertyId, p.actionType,
                          ApprovalFp(approval), AuthorityFp(authority), at))
  }

  function KeyOf(action: Action, adapterId: string): IdempotencyKey {
    IdempotencyKey(action.proposal, action.approval, action.authority, action.actionType, action.listingId, adapterId)
  }

  function BuildRequest(requestId: string, action: Action, adapterId: string, at: Timestamp): Result<Request> {
    if requestId == "" || adapterId == "" then Err("request_id and adapter_id required")
    else Ok(Request(requestId, ActionFp(action), action.proposal, action.listingId, action.actionType,
                    adapterId, at, KeyOf(action, adapterId)))
  }

  /** A retry under any request id and time has the key of the first request, and only a new
      adapter or newly bound action gets another one. */
  lemma RetriesShareKey(r1: Request, r2: Request, id1: string, id2: string, a1: Action, a2: Action,
                        adapter1: string, adapter2: string, t1: Timestamp, t2: Timestamp)
    requires BuildRequest(id1, a1, adapter1, t1) == Ok(r1) && BuildRequest(id2, a2, adapter2, t2) == Ok(r2)
    ensures r1.key == r2.key <==>
            && a1.proposal == a2.proposal && a1.approval == a2.approval && a1.authority == a2.authority
            && a1.actionType == a2.actionType && a1.listingId == a2.listingId && adapter1 == adapter2
  {
  }

  // ---- execution ----

  function ExecutionRejection(a: Attempt): Option<string> {
    if a.receiptId == "" then Some("receipt_id required")
    else if ProposalRejection(a.proposal).Some? then ProposalRejection(a.proposal)
    else if a.action.proposal != ProposalFp(a.proposal) then Some("authorized action proposal binding mismatch")
    else if a.action.approval != ApprovalFp(a.approval) then Some("authorized action approval binding mismatch")
    else if a.action.authority != AuthorityFp(a.authority) then Some("authorized action authority binding mismatch")
    else if a.request.action != ActionFp(a.action) then Some("request authorized-action binding mismatch")
    else if a.request.proposal != ProposalFp(a.proposal) then Some("request proposal binding mismatch")
    else AuthorityRejection(a.proposal, a.approval, a.authority, a.at)
  }

  function MakeReceipt(a: Attempt, outcome: Outcome, externalId: Option<string>, response: Option<Response>,
                       attempted: bool, suppressed: bool): Receipt
  {
    Receipt(a.receiptId, a.request.requestId, RequestFp(a.request), a.request.key,
            a.action.proposal, ActionFp(a.action), ApprovalFp(a.approval), AuthorityFp(a.authority),
            a.request.adapterId, response, outcome, externalId, attempted, suppressed, IsUnknown(outcome), a.at)
  }

  /** What an attempt does before any reply: refuse, suppress, or call the adapter. */
  datatype Decision = Refuse(error: string) | Suppress(outcome: Outcome) | CallAdapter

  function Decide(a: Attempt, prior: seq<Receipt>): Decision {
    match ExecutionRejection(a)
    case Some(e) => Refuse(e)
    case None =>
      if exists x | x in prior :: x.key == a.request.key && IsUnknown(x.outcome) then Suppress(BlockedOutcomeUnknown)
      else if exists x | x in prior :: x.key == a.request.key then Suppress(DuplicateSuppressed)
      else CallAdapter
  }

  /** The receipt for an adapter's reply. */
  function ReceiptFor(a: Attempt, reply: Reply): Receipt {
    match reply
    case Raised => MakeReceipt(a, OutcomeUnknown, None, None, true, false)
    case Responded(response) =>
      if response.adapterId != a.request.adapterId || response.request != RequestFp(a.request) then
        MakeReceipt(a, OutcomeUnknown, None, Some(response), true, false)
      else
        match response.outcome
        case AdapterSucceeded =>
          if HasId(response.externalId) then MakeReceipt(a, Succeeded, response.externalId, Some(response), true, false)
          else MakeReceipt(a, OutcomeUnknown, None, Some(response), true, false)
        case AdapterFailed => MakeReceipt(a, Failed, response.externalId, Some(response), true, false)
        case AdapterUnknown => MakeReceipt(a, OutcomeUnknown, None, Some(response), true, false)
  }

  /** An adapter: any callable, seen as a reply for each history of calls and next request. */
  class Adapter {
    const behave: (seq<Request>, Request) -> Reply
    var calls: seq<Request>

    constructor (behave: (seq<Request>, Request) -> Reply)
      ensures this.behave == behave && calls == []
    {
      this.behave := behave;
      calls := [];
    }

    method Call(request: Request) returns (reply: Reply)
      modifies this
      ensures calls == old(calls) + [request]
      ensures reply == behave(old(calls), request)
    {
      reply := behave(calls, request);
      calls := calls + [request];
    }
  }

  method ExecuteAuthorizedAction(a: Attempt, adapter: Adapter, prior: seq<Receipt>) returns (r: Result<Receipt>)
    modifies adapter
    ensures Decide(a, prior).CallAdapter? ==>
              && adapter.calls == old(adapter.calls) + [a.request]
              && r == Ok(ReceiptFor(a, adapter.behave(old(adapter.calls), a.request)))
    ensures Decide(a, prior).Refuse? ==> adapter.calls == old(adapter.calls) && r == Err(Decide(a, prior).error)
    ensures Decide(a, prior).Suppress? ==>
              && adapter.calls == old(adapter.calls)
              && r == Ok(MakeReceipt(a, Decide(a, prior).outcome, None, None, false, true))
  {
    var rejection := ExecutionRejection(a);
    if rejection.Some? { return Err(rejection.value); }

    var blocked := exists x | x in prior :: x.key == a.request.key && IsUnknown(x.outcome);
    var duplicate := exists x | x in prior :: x.key == a.request.key;
    if blocked { return Ok(MakeReceipt(a, BlockedOutcomeUnknown, None, None, false, true)); }
    if duplicate { return Ok(MakeReceipt(a, DuplicateSuppressed, None, None, false, true)); }

    var reply := adapter.Call(a.request);
    if reply.Raised? { return Ok(MakeReceipt(a, OutcomeUnknown, None, None, true, false)); }
    var response := reply.response;
    if response.adapterId != a.request.adapterId || response.request != RequestFp(a.request) {
      return Ok(MakeReceipt(a, OutcomeUnknown, None, Some(response), true, false));
    }
    var outcome := match response.outcome
      case AdapterSucceeded => Succeeded
      case AdapterFailed => Failed
      case AdapterUnknown => OutcomeUnknown;
    var external := response.externalId;
    if outcome == Succeeded && !HasId(external) { outcome := OutcomeUnknown; }
    if outcome == OutcomeUnknown { external := None; }
    r := Ok(MakeReceipt(a, outcome, external, Some(response), true, false));
  }

  // ---- what receipts say ----

  /** A receipt that says SUCCEEDED carries the adapter's own id for exactly this request. */
  lemma SuccessIsEvidenced(a: Attempt, reply: Reply)
    ensures ReceiptFor(a, reply).outcome == Succeeded <==>
            && reply.Responded? && reply.response.outcome.AdapterSucceeded? && HasId(reply.response.externalId)
            && reply.response.request == RequestFp(a.request) && reply.response.adapterId == a.request.adapterId
    ensures ReceiptFor(a, reply).outcome == Succeeded ==> ReceiptFor(a, reply).externalId == reply.response.externalId
    ensures ReceiptFor(a, reply).outcome == OutcomeUnknown ==> ReceiptFor(a, reply).externalId == None
    ensures ReceiptFor(a, reply).attempted && !ReceiptFor(a, reply).suppressed
  {
  }

  /** An action that was authorized and requested by the builders is refused at execution only
      for a missing receipt id or because the authority is not valid at that time: the
      revalidation repeats every check and nothing else can have gone wrong. */
  lemma AuthorizedActionExecutes(
    actionId: string, p: Proposal, approval: Approval, authority: Authority, authorizedAt: Timestamp,
    requestId: string, adapterId: string, requestedAt: Timestamp, receiptId: string, at: Timestamp, prior: seq<Receipt>)
    requires AuthorizeAction(actionId, p, approval, authority, authorizedAt).Ok?
    requires BuildRequest(requestId, AuthorizeAction(actionId, p, approval, authority, authorizedAt).value, adapterId, requestedAt).Ok?
    ensures var action := AuthorizeAction(actionId, p, approval, authority, authorizedAt).value;
            var request := BuildRequest(requestId, action, adapterId, requestedAt).value;
            var a := Attempt(receiptId, p, approval, authority, action, request, at);
            && request.key == IdempotencyKey(ProposalFp(p), ApprovalFp(approval), AuthorityFp(authority), p.actionType, p.listingId, adapterId)
            && (Decide(a, prior).Refuse? <==>
                receiptId == "" || at.instant < authority.validFrom.instant || at.instant > authority.validUntil.instant)
  {
    hide ProposalRejection;
    var action := AuthorizeAction(actionId, p, approval, authority, authorizedAt).value;
    var request := BuildRequest(requestId, action, adapterId, requestedAt).value;
    var a := Attempt(receiptId, p, approval, authority, action, request, at);
    assert ExecutionRejection(a).None? <==>
      receiptId != "" && authority.validFrom.instant <= at.instant <= authority.validUntil.instant;
  }
}
