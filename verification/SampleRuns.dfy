/** A run used as a counterexample: an authorized action on listing L1 is executed, its effect is
    not observed and a case opens, which can then be rolled back. */
module SampleRuns {
  import opened Basics
  import opened Execution
  import opened Reconciliation
  import opened GovernedRuns

  const Morning := Timestamp("2026-01-01T08:00:00+00:00", 0)
  const Noon := Timestamp("2026-01-01T12:00:00+00:00", 14400)
  const Evening := Timestamp("2026-01-01T18:00:00+00:00", 36000)

  function ProposalAt(listing: string): Proposal {
    Proposal("P-" + listing, "H-" + listing, listing, "PRICE",
             "PROPOSED", "NOT_APPROVED", "NOT_AUTHORIZED", "NOT_EXECUTABLE", false, "NONE")
  }

  function ApprovalAt(listing: string): Approval {
    Approval("AP", ProposalFp(ProposalAt(listing)), "human", Approved, Noon, "why")
  }

  function AuthorityAt(listing: string): Authority {
    Authority("AU", "broker", listing, {"PRICE"}, "VALID", Morning, Evening, "src")
  }

  function ActionAt(listing: string): Action {
    Action("AA", "P-" + listing, ProposalFp(ProposalAt(listing)), listing, "H-" + listing, "PRICE",
           ApprovalFp(ApprovalAt(listing)), AuthorityFp(AuthorityAt(listing)), Noon)
  }

  lemma ActionsAreAuthorized(listing: string)
    ensures AuthorizeAction("AA", ProposalAt(listing), ApprovalAt(listing), AuthorityAt(listing), Noon) == Ok(ActionAt(listing))
  {
  }

  function RequestAt(listing: string): Request {
    var action := ActionAt(listing);
    Request("RQ", ActionFp(action), action.proposal, listing, "PRICE", "MLS", Noon, KeyOf(action, "MLS"))
  }

  function AttemptAt(listing: string): Attempt {
    Attempt("RC", ProposalAt(listing), ApprovalAt(listing), AuthorityAt(listing), ActionAt(listing), RequestAt(listing), Noon)
  }

  function ReplyAt(): Reply {
    Responded(Response("MLS", RequestFp(RequestAt("L1")), AdapterSucceeded, Some("X1")))
  }

  function ReceiptAt(): Receipt {
    ReceiptFor(AttemptAt("L1"), ReplyAt())
  }

  function VerifyAt(): Event {
    Verify(VerificationRequest("VQ", ReceiptFp(ReceiptAt()), "L1", "PRICE", Noon), ReceiptAt(),
           Some(Observation("OB", "L1", "PRICE", Noon, "OLD", "src", true)), Some("NEW"), Noon)
  }

  function VerificationAt(): Verification {
    Verification("VQ", ReceiptFp(ReceiptAt()), Some(Observation("OB", "L1", "PRICE", Noon, "OLD", "src", true)), Mismatch,
                 Succeeded, Some("OLD"), ["OBSERVED_STATE_MISMATCH"], Noon)
  }

  function CaseAt(): Case {
    Case("RC-1", ReceiptFp(ReceiptAt()), VerificationFp(VerificationAt()), Open, ["OBSERVED_STATE_MISMATCH"], true, Noon)
  }

  /** An authorized action on listing L1 is executed, its effect is not observed, and a case opens. */
  function CaseOpened(): seq<Event> {
    [Execute(AttemptAt("L1"), ReplyAt()), VerifyAt(), OpenCase("RC-1", ReceiptAt(), VerificationAt(), Noon)]
  }

  function RollbackAuthorityAt(listing: string): RollbackAuthority {
    RollbackAuthority("RAU", "broker", listing, {"PRICE"}, "VALID", Morning, Evening, "src")
  }

  function RollbackRequestAt(listing: string, approvalId: string): RollbackRequest {
    var action := ActionAt(listing);
    var approval := RollbackApprovalFp(RollbackApproval(approvalId, CaseFp(CaseAt()), "human", Approved, Noon, "why"));
    var authority := RollbackAuthorityFp(RollbackAuthorityAt(listing));
    RollbackRequest("RB", CaseFp(CaseAt()), action.proposal, ActionFp(action), ReceiptFp(ReceiptAt()), VerificationFp(VerificationAt()),
                    approval, authority, listing, "PRICE", "MLS", Noon,
                    RollbackKey(action.proposal, ActionFp(action), ReceiptFp(ReceiptAt()), VerificationFp(VerificationAt()),
                                CaseFp(CaseAt()), approval, authority, "MLS"))
  }

  function RollbackAt(listing: string, approvalId: string): RollbackAttempt {
    RollbackAttempt("RR", RollbackRequestAt(listing, approvalId), CaseAt(),
                    RollbackApproval(approvalId, CaseFp(CaseAt()), "human", Approved, Noon, "why"), RollbackAuthorityAt(listing), Noon)
  }

  /** Rolling back under an approval, with the authorized action of a listing. */
  function RollbackEvent(listing: string, approvalId: string): Event {
    Rollback("RB", ActionAt(listing), ReceiptAt(), VerificationAt(), "MLS", Noon, RollbackAt(listing, approvalId), RollbackRaised)
  }

  lemma CaseOpens()
    ensures Run(CaseOpened()) == World({}, [ReceiptAt()], [Call({}, AttemptAt("L1"))], [VerificationAt()], [CaseAt()], [], [], [])
  {
    hide ReceiptAt, VerificationAt, CaseAt, AttemptAt, ReplyAt, VerifyAt, Next;
    var es := CaseOpened();
    assert es[..2][..1][..0] == [] && es[..2][..1][0] == es[0] && es[..2][1] == es[1];
    assert Run(es[..2][..1][..0]) == Nothing;
    assert Run(es[..2][..1]) == Next(Nothing, es[0]);
    assert Run(es[..2]) == Next(Run(es[..2][..1]), es[1]);
    assert Run(es) == Next(Run(es[..2]), es[2]);
    ExecuteOpens();
    VerifyOpens();
    CaseStep();
  }

  lemma ExecuteOpens()
    ensures Next(Nothing, Execute(AttemptAt("L1"), ReplyAt())) == World({}, [ReceiptAt()], [Call({}, AttemptAt("L1"))], [], [], [], [], [])
  {
    AttemptDecides("L1", []);
    hide ReceiptFor, ReplyAt, Decide;
  }

  lemma AttemptDecides(listing: string, prior: seq<Receipt>)
    requires forall r | r in prior :: r.key != RequestAt(listing).key
    ensures Decide(AttemptAt(listing), prior).CallAdapter?
  {
    assert ExecutionRejection(AttemptAt(listing)).None?;
  }

  lemma ReceiptShape()
    ensures ReceiptAt().outcome == Succeeded && ReceiptAt().attempted && ReceiptAt().action == ActionFp(ActionAt("L1"))
  {
  }

  lemma VerifyOpens()
    ensures var w := World({}, [ReceiptAt()], [Call({}, AttemptAt("L1"))], [], [], [], [], []);
            Next(w, VerifyAt()) == w.(verifications := [VerificationAt()])
  {
    ReceiptShape();
    hide ReceiptAt, AttemptAt;
  }

  lemma CaseStep()
    ensures var w := World({}, [ReceiptAt()], [Call({}, AttemptAt("L1"))], [VerificationAt()], [], [], [], []);
            Next(w, OpenCase("RC-1", ReceiptAt(), VerificationAt(), Noon)) == w.(cases := [CaseAt()])
  {
    ReceiptShape();
    hide ReceiptAt, AttemptAt;
  }

  lemma RequestBuilds(listing: string, approvalId: string)
    ensures var a := RollbackAt(listing, approvalId);
            && BuildRollbackRequest("RB", CaseAt(), ActionAt(listing), ReceiptAt(), VerificationAt(), a.approval, a.authority, "MLS", Noon)
               == Ok(a.request)
            && RollbackRejection(a).None?
  {
    hide ReceiptAt, VerificationAt;
  }

  /** The step calls the adapter unless its key is on record. */
  lemma RollbackCalls(w: World, listing: string, approvalId: string)
    requires ReceiptAt() in w.receipts && VerificationAt() in w.verifications && CaseAt() in w.cases
    requires forall r | r in w.rollbacks :: r.key != RollbackRequestAt(listing, approvalId).key
    ensures var a := RollbackAt(listing, approvalId);
            Next(w, RollbackEvent(listing, approvalId))
            == w.(rollbacks := w.rollbacks + [RollbackReceiptFor(a, RollbackRaised)], rollbackCalls := w.rollbackCalls + [a])
  {
    RequestBuilds(listing, approvalId);
    hide ReceiptAt, VerificationAt, CaseAt, RollbackReceiptFor, BuildRollbackRequest, RollbackRejection, RollbackRequestAt, ActionAt;
  }
}
