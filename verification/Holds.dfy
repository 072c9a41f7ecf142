/** Incidents and the holds they allow: placing a hold, lifting it, and the guard that refuses an
    execution while one matches. */
module Holds {
  import opened Basics
  import opened Execution
  import opened Reconciliation

  datatype Kind =
    | DegradedAdapter
    | UnavailableAdapter
    | UnknownResult
    | UnreconciledCase
    | AuthorityAnomaly
    | RepeatedUnknown

  datatype Scope = ActionScope(proposal: ProposalFp) | ListingScope(listingId: string) | AdapterScope(adapterId: string)

  /** `receipts` are the execution receipts its evidence leads to. */
  datatype Incident = Incident(incidentId: string, kind: Kind, itemId: string, blast: set<Scope>, receipts: set<ReceiptFp>)

  datatype IncidentFp = IncidentFp(incident: Incident)

  datatype Hold = Hold(holdId: string, incident: IncidentFp, scope: Scope, active: bool)

  predicate UnknownKind(k: Kind) {
    k.UnknownResult? || k.RepeatedUnknown?
  }

  function CreateHold(holdId: string, incident: Incident, scope: Scope): Result<Hold> {
    if scope !in incident.blast then Err("hold target outside incident blast radius")
    else Ok(Hold(holdId, IncidentFp(incident), scope, true))
  }

  // ---- the guard ----

  predicate HoldMatches(h: Hold, p: Proposal, r: Request) {
    h.active &&
    match h.scope
    case ActionScope(fp) => fp == ProposalFp(p)
    case ListingScope(listing) => listing == p.listingId
    case AdapterScope(adapter) => adapter == r.adapterId
  }

  predicate Held(holds: set<Hold>, a: Attempt) {
    exists h | h in holds :: HoldMatches(h, a.proposal, a.request)
  }

  function GuardedDecide(holds: set<Hold>, a: Attempt, prior: seq<Receipt>): Decision {
    if Held(holds, a) then Refuse("execution blocked by active incident hold") else Decide(a, prior)
  }

  method ExecuteWithIncidentGuard(holds: set<Hold>, a: Attempt, adapter: Adapter, prior: seq<Receipt>)
    returns (r: Result<Receipt>)
    modifies adapter
    ensures Held(holds, a) ==> r.Err? && adapter.calls == old(adapter.calls)
    ensures GuardedDecide(holds, a, prior).CallAdapter? ==>
              && adapter.calls == old(adapter.calls) + [a.request]
              && r == Ok(ReceiptFor(a, adapter.behave(old(adapter.calls), a.request)))
    ensures GuardedDecide(holds, a, prior).Refuse? ==>
              adapter.calls == old(adapter.calls) && r == Err(GuardedDecide(holds, a, prior).error)
    ensures GuardedDecide(holds, a, prior).Suppress? ==>
              && adapter.calls == old(adapter.calls)
              && r == Ok(MakeReceipt(a, GuardedDecide(holds, a, prior).outcome, None, None, false, true))
  {
    if Held(holds, a) { return Err("execution blocked by active incident hold"); }
    r := ExecuteAuthorizedAction(a, adapter, prior);
  }

  /** An adapter is called only under authority, with no matching hold and a key not on record. */
  lemma CallMeans(holds: set<Hold>, a: Attempt, prior: seq<Receipt>)
    requires GuardedDecide(holds, a, prior).CallAdapter?
    ensures Authorized(a.proposal, a.approval, a.authority, a.at) && !Held(holds, a)
    ensures a.request.action.action == a.action && a.action.approval.approval == a.approval
    ensures forall x | x in prior :: x.key != a.request.key
  {
  }

  // ---- closure ----

  datatype Release = Release(hold: Hold, actorId: string, release: bool)

  datatype Validation = Validation(hold: Hold, prerequisitesCurrent: bool, authorityCurrent: bool, reconciled: bool)

  function CloseIncident(
    incident: Incident, hold: Hold, release: Release, validation: Validation, c: Option<Case>): Result<()> {
    if release.hold != hold || validation.hold != hold then Err("recovery hold lineage mismatch")
    else if !release.release then Err("explicit human RELEASE decision required")
    else if !validation.prerequisitesCurrent || !validation.authorityCurrent then
      Err("fresh prerequisite and authority revalidation required")
    else if UnknownKind(incident.kind) && (c.None? || !c.value.state.Resolved? || !validation.reconciled) then
      Err("outcome-unknown cannot close before independent reconciliation")
    else Ok(())
  }
}
