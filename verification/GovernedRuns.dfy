/** Runs of the governed protocol over append-only ledgers and the standing holds: executions,
    verifications, reconciliation cases and their resolution from outside, rollbacks, and holds
    placed and lifted, in any order and with any adapter replies. */
module GovernedRuns {
  import opened Basics
  import opened Execution
  import opened Reconciliation
  import opened Holds
  import opened IdempotencyLedger

  /** An adapter call and the holds that stood when it was made. */
  datatype Call = Call(holds: set<Hold>, attempt: Attempt)

  /** The standing holds, the ledgers, and the adapter calls made so far. */
  datatype World = World(
    holds: set<Hold>, receipts: seq<Receipt>, calls: seq<Call>, verifications: seq<Verification>, cases: seq<Case>,
    resolved: seq<Case>, rollbacks: seq<RollbackReceipt>, rollbackCalls: seq<RollbackAttempt>)

  /** One step. Replies are whatever the adapter gives; records used are those on the ledgers,
      except that a hold may be lifted with any case. `Resolve` is not a function of the engine: a
      case is marked RESOLVED outside it. */
  datatype Event =
    | PlaceHold(holdId: string, incident: Incident, scope: Scope)
    | LiftHold(incident: Incident, hold: Hold, release: Release, validation: Validation, evidence: Option<Case>)
    | Execute(attempt: Attempt, reply: Reply)
    | Verify(request: VerificationRequest, receipt: Receipt, observation: Option<Observation>,
             expected: Option<string>, at: Timestamp)
    | OpenCase(caseId: string, receipt: Receipt, verification: Verification, at: Timestamp)
    | Resolve(c: Case)
    | Rollback(requestId: string, action: Action, receipt: Receipt, verification: Verification,
               adapterId: string, requestedAt: Timestamp, rollback: RollbackAttempt, rollbackReply: RollbackReply)

  const Nothing := World({}, [], [], [], [], [], [], [])

  function Next(w: World, e: Event): World {
    match e
    case PlaceHold(holdId, incident, scope) => NextPlace(w, CreateHold(holdId, incident, scope))
    case LiftHold(incident, h, release, validation, c) =>
      if h !in w.holds then w else NextLift(w, h, CloseIncident(incident, h, release, validation, c))
    case Execute(a, reply) => NextExecute(w, a, reply)
    case Verify(request, receipt, observation, expected, at) =>
      if receipt in w.receipts then NextVerify(w, VerificationOf(request, receipt, observation, expected, at, w.verifications))
      else w
    case OpenCase(caseId, receipt, v, at) =>
      if receipt in w.receipts && v in w.verifications then NextCase(w, BuildCase(caseId, receipt, v, at)) else w
    case Resolve(c) => if c in w.cases then w.(resolved := w.resolved + [c.(state := Resolved)]) else w
    case Rollback(id, action, receipt, v, adapterId, requestedAt, a, reply) =>
      if receipt !in w.receipts || v !in w.verifications || a.c !in w.cases then w
      else if BuildRollbackRequest(id, a.c, action, receipt, v, a.approval, a.authority, adapterId, requestedAt)
              != Ok(a.request) then w
      else NextRollback(w, a, reply)
  }

  function NextPlace(w: World, r: Result<Hold>): World {
    match r
    case Ok(h) => w.(holds := w.holds + {h})
    case Err(_) => w
  }

  /** A hold stands until recovery evidence is produced under it. */
  function NextLift(w: World, h: Hold, r: Result<()>): World {
    match r
    case Ok(_) => w.(holds := w.holds - {h})
    case Err(_) => w
  }

  function NextVerify(w: World, r: Result<Verification>): World {
    match r
    case Ok(v) => w.(verifications := w.verifications + [v])
    case Err(_) => w
  }

  function NextCase(w: World, r: Result<Option<Case>>): World {
    match r
    case Ok(Some(c)) => w.(cases := w.cases + [c])
    case _ => w
  }

  function NextExecute(w: World, a: Attempt, reply: Reply): World {
    match GuardedDecide(w.holds, a, w.receipts)
    case Refuse(_) => w
    case Suppress(outcome) => w.(receipts := w.receipts + [MakeReceipt(a, outcome, None, None, false, true)])
    case CallAdapter =>
      w.(receipts := w.receipts + [ReceiptFor(a, reply)], calls := w.calls + [Call(w.holds, a)])
  }

  function NextRollback(w: World, a: RollbackAttempt, reply: RollbackReply): World {
    match RollbackDecide(a, w.rollbacks)
    case Refuse(_) => w
    case Suppress(outcome) => w.(rollbacks := w.rollbacks + [MakeRollbackReceipt(a, outcome, None, false, true)])
    case CallAdapter =>
      w.(rollbacks := w.rollbacks + [RollbackReceiptFor(a, reply)], rollbackCalls := w.rollbackCalls + [a])
  }

  function Run(events: seq<Event>): World {
    if events == [] then Nothing else Next(Run(events[..|events| - 1]), events[|events| - 1])
  }

  // ---- the two ledgers as idempotency ledgers ----

  function EntryOf(r: Receipt): Entry<IdempotencyKey> {
    Entry(r.key, r.outcome, r.attempted, r.suppressed)
  }

  function RollbackEntryOf(r: RollbackReceipt): Entry<RollbackKey> {
    Entry(r.key, r.outcome, r.attempted, r.suppressed)
  }

  function Entries(rs: seq<Receipt>): (es: seq<Entry<IdempotencyKey>>)
    ensures |es| == |rs| && forall i | 0 <= i < |rs| :: es[i] == EntryOf(rs[i])
  {
    seq(|rs|, i requires 0 <= i < |rs| => EntryOf(rs[i]))
  }

  function RollbackEntries(rs: seq<RollbackReceipt>): (es: seq<Entry<RollbackKey>>)
    ensures |es| == |rs| && forall i | 0 <= i < |rs| :: es[i] == RollbackEntryOf(rs[i])
  {
    seq(|rs|, i requires 0 <= i < |rs| => RollbackEntryOf(rs[i]))
  }

  function CallKeys(calls: seq<Call>): (ks: seq<IdempotencyKey>)
    ensures |ks| == |calls| && forall i | 0 <= i < |calls| :: ks[i] == calls[i].attempt.request.key
  {
    seq(|calls|, i requires 0 <= i < |calls| => calls[i].attempt.request.key)
  }

  function RollbackCallKeys(calls: seq<RollbackAttempt>): (ks: seq<RollbackKey>)
    ensures |ks| == |calls| && forall i | 0 <= i < |calls| :: ks[i] == calls[i].request.key
  {
    seq(|calls|, i requires 0 <= i < |calls| => calls[i].request.key)
  }

  lemma SeesReceipts(rs: seq<Receipt>, k: IdempotencyKey)
    ensures Recorded(Entries(rs), k) <==> exists x | x in rs :: x.key == k
    ensures UnknownOrBlockedRecorded(Entries(rs), k) <==> exists x | x in rs :: x.key == k && IsUnknown(x.outcome)
  {
    hide Recorded, UnknownOrBlockedRecorded, UnknownRecorded;
    SeenThrough(rs, Entries(rs), EntryOf, k);
    hide Entries;
    assert forall x | x in rs :: EntryOf(x).key == x.key && EntryOf(x).outcome == x.outcome;
  }

  lemma SeesRollbacks(rs: seq<RollbackReceipt>, k: RollbackKey)
    ensures Recorded(RollbackEntries(rs), k) <==> exists x | x in rs :: x.key == k
    ensures UnknownRecorded(RollbackEntries(rs), k) <==> exists x | x in rs :: x.key == k && x.outcome.OutcomeUnknown?
    ensures UnknownOrBlockedRecorded(RollbackEntries(rs), k) <==> exists x | x in rs :: x.key == k && IsUnknown(x.outcome)
  {
    hide Recorded, UnknownOrBlockedRecorded, UnknownRecorded, RollbackEntryOf, IsUnknown;
    SeenThrough(rs, RollbackEntries(rs), RollbackEntryOf, k);
    forall x ensures RollbackEntryOf(x).key == x.key && RollbackEntryOf(x).outcome == x.outcome { RollbackEntryFields(x); }
    hide RollbackEntries;
  }

  lemma RollbackEntryFields(x: RollbackReceipt)
    ensures RollbackEntryOf(x).key == x.key && RollbackEntryOf(x).outcome == x.outcome
  {
  }

  // ---- executions ----

  /** Receipts follow the idempotency discipline and each recorded key was called once. */
  ghost predicate ExecutionsOk(w: World) {
    && Disciplined(Entries(w.receipts))
    && OneCallEach(Entries(w.receipts), CallKeys(w.calls))
    && (forall r | r in w.receipts :: ReceiptOk(r))
    && (forall c | c in w.calls :: CallIsAuthorized(c))
  }

  /** The unknown flag is the outcome's, and the proposal is that of the executed action. */
  ghost predicate ReceiptOk(r: Receipt) {
    r.unknown == IsUnknown(r.outcome) && r.proposal == r.action.action.proposal
  }

  ghost predicate CallIsAuthorized(c: Call) {
    Authorized(c.attempt.proposal, c.attempt.approval, c.attempt.authority, c.attempt.at) && !Held(c.holds, c.attempt)
  }

  lemma ReceiptFields(a: Attempt, reply: Reply, outcome: Outcome)
    ensures var r := MakeReceipt(a, outcome, None, None, false, true); EntryOf(r) == Entry(a.request.key, outcome, false, true)
    ensures var r := ReceiptFor(a, reply);
            r.key == a.request.key && r.attempted && !r.suppressed && ReceiptOk(r)
            && (r.outcome.Succeeded? || r.outcome.Failed? || r.outcome.OutcomeUnknown?)
  {
  }

  /** What is on record decides what an unrefused attempt does. */
  lemma DecideByRecord(a: Attempt, prior: seq<Receipt>)
    requires Disciplined(Entries(prior)) && !Decide(a, prior).Refuse?
    ensures Decide(a, prior) == if UnknownRecorded(Entries(prior), a.request.key) then Suppress(BlockedOutcomeUnknown)
                                else if Recorded(Entries(prior), a.request.key) then Suppress(DuplicateSuppressed)
                                else CallAdapter
    ensures UnknownRecorded(Entries(prior), a.request.key) ==> Recorded(Entries(prior), a.request.key)
  {
    hide ExecutionRejection;
    SeesReceipts(prior, a.request.key);
    NarrowTestIsWide(Entries(prior), a.request.key);
    hide Disciplined, Entries;
    UnknownIsRecorded(Entries(prior), a.request.key);
    hide Recorded, UnknownRecorded, UnknownOrBlockedRecorded;
  }

  /** The receipt a decision leads to. */
  function ReceiptOf(d: Decision, a: Attempt, reply: Reply): Receipt {
    match d
    case Suppress(outcome) => MakeReceipt(a, outcome, None, None, false, true)
    case _ => ReceiptFor(a, reply)
  }

  lemma ReceiptFits(a: Attempt, prior: seq<Receipt>, reply: Reply)
    requires Disciplined(Entries(prior)) && !Decide(a, prior).Refuse?
    ensures var r := ReceiptOf(Decide(a, prior), a, reply);
            Fits(Entries(prior), EntryOf(r)) && r.key == a.request.key && ReceiptOk(r)
    ensures Decide(a, prior).CallAdapter? <==> !Recorded(Entries(prior), a.request.key)
  {
    DecideByRecord(a, prior);
    hide Decide, Disciplined, Recorded, UnknownRecorded, ReceiptFor, MakeReceipt;
    var d := Decide(a, prior);
    ReceiptFields(a, reply, if d.Suppress? then d.outcome else OutcomeUnknown);
    if d.Suppress? { SuppressedOk(a, d.outcome); }
  }

  lemma SuppressedOk(a: Attempt, outcome: Outcome)
    ensures ReceiptOk(MakeReceipt(a, outcome, None, None, false, true))
  {
  }

  lemma ExecuteKeeps(w: World, a: Attempt, reply: Reply)
    requires ExecutionsOk(w)
    ensures ExecutionsOk(NextExecute(w, a, reply))
  {
    hide Held, Authorized, Fits, Disciplined, OneCallEach, ReceiptFor, MakeReceipt, Decide, Recorded;
    var w' := NextExecute(w, a, reply);
    var d := GuardedDecide(w.holds, a, w.receipts);
    if !d.Refuse? {
      var r := ReceiptOf(d, a, reply);
      ReceiptFits(a, w.receipts, reply);
      assert w'.receipts == w.receipts + [r];
      assert Entries(w'.receipts) == Entries(w.receipts) + [EntryOf(r)];
      ExtendDisciplined(Entries(w.receipts), EntryOf(r));
      if d.CallAdapter? {
        CallMeans(w.holds, a, w.receipts);
        assert CallKeys(w'.calls) == CallKeys(w.calls) + [r.key];
        ExtendCalled(Entries(w.receipts), CallKeys(w.calls), EntryOf(r));
      } else {
        ExtendSuppressed(Entries(w.receipts), CallKeys(w.calls), EntryOf(r));
      }
    }
  }

  // ---- verifications and cases ----

  /** A verification speaks of a recorded receipt, and a mismatch is an independent observation
      of a receipt whose outcome is known. */
  ghost predicate VerificationOk(receipts: seq<Receipt>, v: Verification) {
    && v.receipt.receipt in receipts
    && (v.state.Mismatch? || v.state.Verified? ==>
          !Unobservable(v.receipt.receipt) && v.observation.Some? && v.observation.value.independent)
  }

  ghost predicate OncePerReceipt(vs: seq<Verification>) {
    forall i, j | 0 <= i < j < |vs| :: vs[i].receipt != vs[j].receipt
  }

  ghost predicate CaseOk(verifications: seq<Verification>, c: Case) {
    && c.verification.verification in verifications
    && c.receipt == c.verification.verification.receipt
    && c.state.Open?
    && (c.rollbackEligible <==> c.verification.verification.state.Mismatch? && c.receipt.receipt.attempted)
  }

  ghost predicate ReviewsOk(w: World) {
    && (forall v | v in w.verifications :: VerificationOk(w.receipts, v))
    && OncePerReceipt(w.verifications)
    && (forall c | c in w.cases :: CaseOk(w.verifications, c))
  }

  /** Every resolved case is one that was opened. */
  ghost predicate ResolutionsOk(w: World) {
    forall c | c in w.resolved :: c.state.Resolved? && c.(state := Open) in w.cases
  }

  lemma VerifyKeeps(w: World, e: Event)
    requires ReviewsOk(w) && e.Verify?
    ensures ReviewsOk(Next(w, e))
  {
    var w' := Next(w, e);
    if |w'.verifications| > |w.verifications| {
      var v := w'.verifications[|w.verifications|];
      assert VerificationOk(w.receipts, v);
      assert forall x | x in w.verifications :: x.receipt != v.receipt;
      CasesKept(w, v);
    }
  }

  lemma CasesKept(w: World, v: Verification)
    requires forall c | c in w.cases :: CaseOk(w.verifications, c)
    ensures forall c | c in w.cases :: CaseOk(w.verifications + [v], c)
  {
  }

  lemma OpenCaseKeeps(w: World, e: Event)
    requires ReviewsOk(w) && e.OpenCase?
    ensures ReviewsOk(Next(w, e))
  {
    hide VerificationOk, OncePerReceipt;
  }

  lemma ReviewsKept(w: World, w': World)
    requires ReviewsOk(w) && w.receipts <= w'.receipts && w'.verifications == w.verifications && w'.cases == w.cases
    ensures ReviewsOk(w')
  {
    forall v | v in w'.verifications ensures VerificationOk(w'.receipts, v) {
      assert VerificationOk(w.receipts, v);
      assert v.receipt.receipt in w'.receipts;
    }
  }

  // ---- rollbacks ----

  /** An attempted execution, its mismatch, an eligible open case on them, and a human approval
      of that very case under a valid authority. */
  ghost predicate RollbackEvidence(w: World, a: RollbackAttempt) {
    && a.c in w.cases && a.c.rollbackEligible
    && a.approval.c == CaseFp(a.c) && a.approval.decision.Approved?
    && AuthorityValidAt(a.authority, a.at)
    && a.request.receipt == a.c.receipt && a.request.verification == a.c.verification
    && a.c.verification.verification in w.verifications
    && a.c.verification.verification.state.Mismatch?
    && a.c.verification.verification.receipt == a.c.receipt
    && a.c.receipt.receipt in w.receipts && a.c.receipt.receipt.attempted
    && RequestOk(a)
  }

  /** The request speaks of the action it names, within the authority, and its key covers all it
      says but its id and time. */
  ghost predicate RequestOk(a: RollbackAttempt) {
    var q, action := a.request, a.request.action.action;
    && q.c == CaseFp(a.c) && q.proposal == action.proposal && q.listingId == action.listingId && q.actionType == action.actionType
    && a.authority.listingId == q.listingId && q.actionType in a.authority.actionTypes
    && q.approval == RollbackApprovalFp(a.approval) && q.authority == RollbackAuthorityFp(a.authority)
    && q.key == RollbackKey(q.proposal, q.action, q.receipt, q.verification, q.c, q.approval, q.authority, q.adapterId)
  }

  /** A rollback receipt hangs on an eligible case of the ledger. */
  ghost predicate RollbackLineage(w: World, r: RollbackReceipt) {
    && r.c.c in w.cases && r.c.c.rollbackEligible
    && r.receipt == r.c.c.receipt && r.verification == r.c.c.verification
    && r.unknown == IsUnknown(r.outcome)
  }

  ghost predicate RollbacksOk(w: World) {
    && Disciplined(RollbackEntries(w.rollbacks))
    && OneCallEach(RollbackEntries(w.rollbacks), RollbackCallKeys(w.rollbackCalls))
    && (forall r | r in w.rollbacks :: RollbackLineage(w, r))
    && (forall a | a in w.rollbackCalls :: RollbackEvidence(w, a))
  }

  /** What the request builder and the executor checked before a rollback receipt is written. */
  lemma RollbackChecked(w: World, e: Event)
    requires ReviewsOk(w) && e.Rollback? && Next(w, e) != w
    ensures RollbackEvidence(w, e.rollback) && !RollbackDecide(e.rollback, w.rollbacks).Refuse?
    ensures e.rollback.request.c == CaseFp(e.rollback.c)
    ensures Next(w, e) == NextRollback(w, e.rollback, e.rollbackReply)
  {
    hide VerificationOf, NextRollback, VerificationOk, OncePerReceipt;
    assert CaseOk(w.verifications, e.rollback.c);
    assert VerificationOk(w.receipts, e.rollback.c.verification.verification) by { OkOf(w, e.rollback.c.verification.verification); }
    VerifiedReceipt(w.receipts, e.rollback.c.verification.verification);
    assert RollbackRejection(e.rollback).None? by { NotRefused(w, e.rollback, e.rollbackReply); }
  }

  lemma OkOf(w: World, v: Verification)
    requires ReviewsOk(w) && v in w.verifications
    ensures VerificationOk(w.receipts, v)
  {
  }

  lemma VerifiedReceipt(receipts: seq<Receipt>, v: Verification)
    requires VerificationOk(receipts, v)
    ensures v.receipt.receipt in receipts
  {
  }

  lemma NotRefused(w: World, a: RollbackAttempt, reply: RollbackReply)
    requires NextRollback(w, a, reply) != w
    ensures RollbackRejection(a).None?
  {
  }

  /** The receipt a rollback decision leads to. */
  function RollbackReceiptOf(d: Decision, a: RollbackAttempt, reply: RollbackReply): (r: RollbackReceipt)
    ensures r.key == a.request.key && r.c == a.request.c && r.receipt == a.request.receipt
    ensures r.verification == a.request.verification && r.unknown == IsUnknown(r.outcome)
  {
    match d
    case Suppress(outcome) => MakeRollbackReceipt(a, outcome, None, false, true)
    case _ => RollbackReceiptFor(a, reply)
  }

  lemma RollbackFits(prior: seq<RollbackReceipt>, a: RollbackAttempt, reply: RollbackReply)
    requires Disciplined(RollbackEntries(prior))
    ensures Fits(RollbackEntries(prior), RollbackEntryOf(RollbackReceiptOf(OnRecord(a.request.key, prior), a, reply)))
    ensures OnRecord(a.request.key, prior).CallAdapter? <==> !Recorded(RollbackEntries(prior), a.request.key)
  {
    SeesRollbacks(prior, a.request.key);
    hide Disciplined, Recorded, UnknownRecorded, UnknownOrBlockedRecorded;
    UnknownIsRecorded(RollbackEntries(prior), a.request.key);
  }

  lemma UnknownIsRecorded<K>(es: seq<Entry<K>>, k: K)
    ensures UnknownRecorded(es, k) ==> Recorded(es, k)
  {
  }

  lemma RollbackStep(w: World, a: RollbackAttempt, reply: RollbackReply)
    requires !RollbackDecide(a, w.rollbacks).Refuse?
    ensures var d, w' := OnRecord(a.request.key, w.rollbacks), NextRollback(w, a, reply);
            && w'.rollbacks == w.rollbacks + [RollbackReceiptOf(d, a, reply)]
            && w'.rollbackCalls == w.rollbackCalls + (if d.CallAdapter? then [a] else [])
            && w'.cases == w.cases && w'.verifications == w.verifications && w'.receipts == w.receipts
  {
    hide RollbackRejection, MakeRollbackReceipt, RollbackReceiptFor;
    assert RollbackDecide(a, w.rollbacks) == OnRecord(a.request.key, w.rollbacks);
    assert !OnRecord(a.request.key, w.rollbacks).Refuse?;
  }

  lemma RollbackLedgerKeeps(w: World, a: RollbackAttempt, r: RollbackReceipt, called: bool, w': World)
    requires Disciplined(RollbackEntries(w.rollbacks)) && OneCallEach(RollbackEntries(w.rollbacks), RollbackCallKeys(w.rollbackCalls))
    requires w'.rollbacks == w.rollbacks + [r] && w'.rollbackCalls == w.rollbackCalls + (if called then [a] else [])
    requires r.key == a.request.key && Fits(RollbackEntries(w.rollbacks), RollbackEntryOf(r))
    requires called <==> !Recorded(RollbackEntries(w.rollbacks), a.request.key)
    ensures Disciplined(RollbackEntries(w'.rollbacks)) && OneCallEach(RollbackEntries(w'.rollbacks), RollbackCallKeys(w'.rollbackCalls))
  {
    hide Disciplined, OneCallEach, Recorded, Fits;
    var es, ks := RollbackEntries(w.rollbacks), RollbackCallKeys(w.rollbackCalls);
    assert RollbackEntries(w'.rollbacks) == es + [RollbackEntryOf(r)];
    ExtendDisciplined(es, RollbackEntryOf(r));
    if called {
      assert RollbackCallKeys(w'.rollbackCalls) == ks + [r.key];
      ExtendCalled(es, ks, RollbackEntryOf(r));
    } else {
      assert RollbackCallKeys(w'.rollbackCalls) == ks;
      ExtendSuppressed(es, ks, RollbackEntryOf(r));
    }
  }

  lemma RollbacksOkAfter(w: World, w': World, a: RollbackAttempt, r: RollbackReceipt, called: bool)
    requires RollbacksOk(w) && RollbackEvidence(w, a) && RollbackLineage(w', r)
    requires w'.rollbacks == w.rollbacks + [r] && w'.rollbackCalls == w.rollbackCalls + (if called then [a] else [])
    requires w'.cases == w.cases && w'.verifications == w.verifications && w'.receipts == w.receipts
    requires Disciplined(RollbackEntries(w'.rollbacks)) && OneCallEach(RollbackEntries(w'.rollbacks), RollbackCallKeys(w'.rollbackCalls))
    ensures RollbacksOk(w')
  {
    hide RollbackEvidence, RollbackLineage, Disciplined, OneCallEach;
    forall b | b in w'.rollbackCalls ensures RollbackEvidence(w', b) { EvidenceKept(w, w', b); }
    forall x | x in w'.rollbacks ensures RollbackLineage(w', x) { LineageKept(w, w', x, r); }
  }

  lemma RollbackStepKeeps(w: World, a: RollbackAttempt, reply: RollbackReply)
    requires RollbacksOk(w) && RollbackEvidence(w, a) && a.request.c == CaseFp(a.c)
    requires !RollbackDecide(a, w.rollbacks).Refuse?
    ensures RollbacksOk(NextRollback(w, a, reply))
  {
    RollbackStep(w, a, reply);
    hide RollbackEvidence, RollbackLineage, Fits, Disciplined, OneCallEach, OnRecord, RollbackReceiptOf;
    hide NextRollback, RollbackDecide, Recorded;
    var w' := NextRollback(w, a, reply);
    var d := OnRecord(a.request.key, w.rollbacks);
    var r := RollbackReceiptOf(d, a, reply);
    RollbackFits(w.rollbacks, a, reply);
    LineageFrom(w, w', a, r);
    RollbackLedgerKeeps(w, a, r, d.CallAdapter?, w');
    hide RollbacksOk;
    RollbacksOkAfter(w, w', a, r, d.CallAdapter?);
  }

  lemma RollbackKeeps(w: World, e: Event)
    requires ReviewsOk(w) && RollbacksOk(w) && e.Rollback?
    ensures RollbacksOk(Next(w, e))
  {
    if Next(w, e) != w {
      RollbackChecked(w, e);
      hide RollbackEvidence, RollbacksOk, ReviewsOk, Next, NextRollback, RollbackDecide;
      RollbackStepKeeps(w, e.rollback, e.rollbackReply);
    }
  }

  lemma LineageKept(w: World, w': World, x: RollbackReceipt, r: RollbackReceipt)
    requires (x in w.rollbacks && RollbackLineage(w, x)) || (x == r && RollbackLineage(w', r))
    requires w'.cases == w.cases
    ensures RollbackLineage(w', x)
  {
  }

  lemma LineageFrom(w: World, w': World, a: RollbackAttempt, r: RollbackReceipt)
    requires RollbackEvidence(w, a) && a.request.c == CaseFp(a.c) && w'.cases == w.cases
    requires r.c == a.request.c && r.receipt == a.request.receipt && r.verification == a.request.verification
    requires r.unknown == IsUnknown(r.outcome)
    ensures RollbackLineage(w', r)
  {
  }

  lemma EvidenceKept(w: World, w': World, a: RollbackAttempt)
    requires RollbackEvidence(w, a)
    requires w.cases <= w'.cases && w.verifications <= w'.verifications && w.receipts <= w'.receipts
    ensures RollbackEvidence(w', a)
  {
  }

  lemma RollbacksKept(w: World, w': World)
    requires RollbacksOk(w) && w'.rollbacks == w.rollbacks && w'.rollbackCalls == w.rollbackCalls
    requires w.cases <= w'.cases && w.verifications <= w'.verifications && w.receipts <= w'.receipts
    ensures RollbacksOk(w')
  {
    hide RollbackEvidence, Disciplined, OneCallEach;
    forall b | b in w'.rollbackCalls ensures RollbackEvidence(w', b) { EvidenceKept(w, w', b); }
  }

  // ---- every run ----

  ghost predicate Safe(w: World) {
    ExecutionsOk(w) && ReviewsOk(w) && ResolutionsOk(w) && RollbacksOk(w)
  }

  ghost predicate Extends(w: World, w': World) {
    && w.receipts <= w'.receipts && w.calls <= w'.calls && w.verifications <= w'.verifications
    && w.cases <= w'.cases && w.resolved <= w'.resolved && w.rollbacks <= w'.rollbacks && w.rollbackCalls <= w'.rollbackCalls
  }

  lemma StepExtends(w: World, e: Event)
    ensures Extends(w, Next(w, e))
  {
    hide Next;
    match e
    case Execute(_, _) => OnlyExecutions(w, e);
    case Rollback(_, _, _, _, _, _, _, _) => OnlyRollbacks(w, e);
    case Verify(_, _, _, _, _) => OnlyReviews(w, e);
    case OpenCase(_, _, _, _) => OnlyReviews(w, e);
    case Resolve(_) => OnlyResolutions(w, e);
    case _ => OnlyHolds(w, e);
  }

  lemma StepIsSafe(w: World, e: Event)
    requires Safe(w)
    ensures Safe(Next(w, e))
  {
    hide ExecutionsOk, ReviewsOk, RollbacksOk, ResolutionsOk;
    StepExtends(w, e);
    ResolutionsKept(w, e);
    var w' := Next(w, e);
    match e
    case Execute(a, reply) =>
      ExecuteKeeps(w, a, reply);
      OnlyExecutions(w, e);
      ReviewsKept(w, w');
      RollbacksKept(w, w');
    case Verify(_, _, _, _, _) => VerifyKeeps(w, e); OnlyReviews(w, e); RollbacksKept(w, w'); ExecutionsKept(w, w');
    case OpenCase(_, _, _, _) => OpenCaseKeeps(w, e); OnlyReviews(w, e); RollbacksKept(w, w'); ExecutionsKept(w, w');
    case Rollback(_, _, _, _, _, _, _, _) =>
      RollbackKeeps(w, e);
      OnlyRollbacks(w, e);
      ReviewsKept(w, w');
      ExecutionsKept(w, w');
    case Resolve(_) => OnlyResolutions(w, e); ReviewsKept(w, w'); RollbacksKept(w, w'); ExecutionsKept(w, w');
    case _ => OnlyHolds(w, e); ReviewsKept(w, w'); RollbacksKept(w, w'); ExecutionsKept(w, w');
  }

  lemma ResolutionsKept(w: World, e: Event)
    requires ReviewsOk(w) && ResolutionsOk(w)
    ensures ResolutionsOk(Next(w, e))
  {
    hide VerificationOk, OncePerReceipt, Next;
    match e
    case Execute(_, _) => OnlyExecutions(w, e);
    case Rollback(_, _, _, _, _, _, _, _) => OnlyRollbacks(w, e);
    case Verify(_, _, _, _, _) => OnlyReviews(w, e);
    case OpenCase(_, _, _, _) => OnlyReviews(w, e);
    case Resolve(c) => OnlyResolutions(w, e); if c in w.cases { assert CaseOk(w.verifications, c); }
    case _ => OnlyHolds(w, e);
  }

  lemma OnlyResolutions(w: World, e: Event)
    requires e.Resolve?
    ensures Next(w, e) == w.(resolved := Next(w, e).resolved) && w.resolved <= Next(w, e).resolved
    ensures Next(w, e).resolved == if e.c in w.cases then w.resolved + [e.c.(state := Resolved)] else w.resolved
  {
  }

  lemma OnlyHolds(w: World, e: Event)
    requires e.PlaceHold? || e.LiftHold?
    ensures Next(w, e) == w.(holds := Next(w, e).holds)
    ensures e.PlaceHold? ==> w.holds <= Next(w, e).holds
  {
    hide CreateHold, CloseIncident;
  }

  lemma OnlyExecutions(w: World, e: Event)
    requires e.Execute?
    ensures var w' := Next(w, e); w'.verifications == w.verifications && w'.cases == w.cases
    ensures var w' := Next(w, e); w'.rollbacks == w.rollbacks && w'.rollbackCalls == w.rollbackCalls
    ensures var w' := Next(w, e); w.receipts <= w'.receipts && w.calls <= w'.calls
    ensures Next(w, e).holds == w.holds && Next(w, e).resolved == w.resolved
  {
    hide GuardedDecide;
  }

  lemma OnlyReviews(w: World, e: Event)
    requires e.Verify? || e.OpenCase?
    ensures var w' := Next(w, e); w.verifications <= w'.verifications && w.cases <= w'.cases
    ensures var w' := Next(w, e); w'.receipts == w.receipts && w'.calls == w.calls
    ensures var w' := Next(w, e); w'.rollbacks == w.rollbacks && w'.rollbackCalls == w.rollbackCalls
    ensures Next(w, e).holds == w.holds && Next(w, e).resolved == w.resolved
  {
    hide VerificationOf, BuildCase;
  }

  lemma OnlyRollbacks(w: World, e: Event)
    requires e.Rollback?
    ensures var w' := Next(w, e); w.rollbacks <= w'.rollbacks && w.rollbackCalls <= w'.rollbackCalls
    ensures var w' := Next(w, e); w'.receipts == w.receipts && w'.calls == w.calls
    ensures var w' := Next(w, e); w'.verifications == w.verifications && w'.cases == w.cases
    ensures Next(w, e).holds == w.holds && Next(w, e).resolved == w.resolved
  {
    hide RollbackDecide, BuildRollbackRequest;
  }

  lemma ExecutionsKept(w: World, w': World)
    requires ExecutionsOk(w) && w'.receipts == w.receipts && w'.calls == w.calls
    ensures ExecutionsOk(w')
  {
    hide Disciplined, OneCallEach, CallIsAuthorized;
  }

  /** Every run of the protocol is safe. */
  lemma {:induction false} RunIsSafe(events: seq<Event>)
    ensures Safe(Run(events))
  {
    if events == [] {
      NothingIsSafe();
    } else {
      RunIsSafe(events[..|events| - 1]);
      StepIsSafe(Run(events[..|events| - 1]), events[|events| - 1]);
    }
  }

  lemma NothingIsSafe()
    ensures Safe(Nothing)
  {
  }

  lemma {:induction false} RunExtends(events: seq<Event>, more: seq<Event>)
    ensures Extends(Run(events), Run(events + more))
    decreases |more|
  {
    hide Next;
    if more == [] {
      assert events + more == events;
    } else {
      var all := events + more;
      assert all[..|all| - 1] == events + more[..|more| - 1];
      RunExtends(events, more[..|more| - 1]);
      StepExtends(Run(all[..|all| - 1]), all[|all| - 1]);
    }
  }

  lemma RunStep(events: seq<Event>, e: Event)
    ensures Run(events + [e]) == Next(Run(events), e)
  {
    hide Next;
    assert (events + [e])[..|events|] == events;
  }

  // ---- main results ----

  /** Whatever the request ids, times, holds and replies, a key sees one adapter call if it has
      a receipt at all, and none otherwise. */
  lemma AtMostOneCall(events: seq<Event>, key: IdempotencyKey)
    ensures var w := Run(events);
            Count(CallKeys(w.calls), key) == if exists r | r in w.receipts :: r.key == key then 1 else 0
  {
    hide Run, CallIsAuthorized;
    RunIsSafe(events);
    SeesReceipts(Run(events).receipts, key);
  }

  /** The first receipt of a key records its call; every later one is suppressed, and blocked
      exactly when that first outcome is unknown. */
  lemma FirstReceiptDecides(events: seq<Event>, i: nat, j: nat)
    requires i < |Run(events).receipts| && j < |Run(events).receipts|
    requires Run(events).receipts[i].key == Run(events).receipts[j].key
    requires forall k | 0 <= k < i :: Run(events).receipts[k].key != Run(events).receipts[i].key
    ensures var rs := Run(events).receipts;
            rs[i].attempted && !rs[i].suppressed && !rs[i].outcome.DuplicateSuppressed? && !rs[i].outcome.BlockedOutcomeUnknown?
    ensures var rs := Run(events).receipts;
            i < j ==> !rs[j].attempted && rs[j].suppressed
                      && rs[j].outcome == if rs[i].outcome.OutcomeUnknown? then BlockedOutcomeUnknown else DuplicateSuppressed
  {
    RunIsSafe(events);
    hide Run, CallIsAuthorized, OneCallEach, Disciplined;
    var es := Entries(Run(events).receipts);
    DisciplinedAt(es, i);
    FreshBefore(es, i);
    if i < j { LaterIsSuppressed(es, i, j); }
  }

  lemma FreshBefore<K>(es: seq<Entry<K>>, i: nat)
    requires i < |es| && forall k | 0 <= k < i :: es[k].key != es[i].key
    ensures !Recorded(es[..i], es[i].key)
  {
    forall e | e in es[..i] ensures e.key != es[i].key {
      var k :| 0 <= k < i && es[..i][k] == e;
    }
  }

  lemma DisciplinedAt<K>(es: seq<Entry<K>>, i: nat)
    requires Disciplined(es) && i < |es|
    ensures Fits(es[..i], es[i])
  {
  }

  /** An unknown outcome stays blocked in every continuation of the run. */
  lemma UnknownStaysBlocked(events: seq<Event>, more: seq<Event>, i: nat, j: nat)
    requires i < |Run(events).receipts| <= j < |Run(events + more).receipts|
    requires Run(events).receipts[i].outcome.OutcomeUnknown?
    requires Run(events + more).receipts[j].key == Run(events).receipts[i].key
    ensures Run(events + more).receipts[j].outcome.BlockedOutcomeUnknown?
    ensures !Run(events + more).receipts[j].attempted
  {
    RunExtends(events, more);
    RunIsSafe(events + more);
    hide Run, CallIsAuthorized, OneCallEach, Disciplined;
    var rs := Run(events + more).receipts;
    assert rs[i] == Run(events).receipts[i];
    var es := Entries(rs);
    DisciplinedAt(es, i);
    LaterIsSuppressed(es, i, j);
  }

  /** Every adapter call was authorized when it was made, and no hold that stood then matched it. */
  lemma {:induction false} CallsAreAuthorized(events: seq<Event>, c: Call)
    requires c in Run(events).calls
    ensures Authorized(c.attempt.proposal, c.attempt.approval, c.attempt.authority, c.attempt.at)
    ensures forall h | h in c.holds :: !HoldMatches(h, c.attempt.proposal, c.attempt.request)
  {
    RunIsSafe(events);
    hide Run, HoldMatches;
    assert CallIsAuthorized(c);
  }

  lemma NarrowIsWideOn(prior: seq<RollbackReceipt>, key: RollbackKey)
    requires Disciplined(RollbackEntries(prior))
    ensures OnRecord(key, prior) == OnRecordWider(key, prior)
  {
    NarrowTestIsWide(RollbackEntries(prior), key);
    SeesRollbacks(prior, key);
    hide Recorded, UnknownRecorded, UnknownOrBlockedRecorded, Disciplined, RollbackEntries;
    var narrow := exists x | x in prior :: x.key == key && x.outcome.OutcomeUnknown?;
    var wide := exists x | x in prior :: x.key == key && IsUnknown(x.outcome);
    assert narrow <==> wide;
  }

  /** On every reachable rollback ledger the narrower test decides as the wider one would. */
  lemma NarrowRollbackTestSuffices(events: seq<Event>, key: RollbackKey)
    ensures OnRecord(key, Run(events).rollbacks) == OnRecordWider(key, Run(events).rollbacks)
  {
    RunIsSafe(events);
    hide Run, ExecutionsOk, ReviewsOk, OnRecord, OnRecordWider, Disciplined;
    NarrowIsWideOn(Run(events).rollbacks, key);
  }

  /** A rollback key sees one adapter call if it has a receipt at all, and none otherwise. */
  lemma AtMostOneRollback(events: seq<Event>, key: RollbackKey)
    ensures var w := Run(events);
            Count(RollbackCallKeys(w.rollbackCalls), key) == if exists r | r in w.rollbacks :: r.key == key then 1 else 0
  {
    hide Run, RollbackEvidence, RollbackLineage;
    RunIsSafe(events);
    SeesRollbacks(Run(events).rollbacks, key);
  }

  /** When a step calls the rollback adapter, the attempted execution, the mismatch found in that
      very receipt, the eligible case and the approval of that case were there before it. */
  lemma RollbackIsPreceded(events: seq<Event>, e: Event)
    requires |Next(Run(events), e).rollbackCalls| > |Run(events).rollbackCalls|
    ensures var w, w' := Run(events), Next(Run(events), e);
            w'.rollbackCalls == w.rollbackCalls + [w'.rollbackCalls[|w.rollbackCalls|]]
            && RollbackEvidence(w, w'.rollbackCalls[|w.rollbackCalls|])
  {
    RunIsSafe(events);
    var w := Run(events);
    hide Run, RollbackEvidence, ExecutionsOk, ReviewsOk, RollbacksOk, ResolutionsOk;
    OnlyRollbacksCall(w, e);
    RollbackChecked(w, e);
  }

  lemma OnlyRollbacksCall(w: World, e: Event)
    requires |Next(w, e).rollbackCalls| > |w.rollbackCalls|
    ensures e.Rollback? && Next(w, e) != w
    ensures Next(w, e).rollbackCalls == w.rollbackCalls + [e.rollback]
  {
    hide GuardedDecide, VerificationOf, BuildCase, BuildRollbackRequest, RollbackDecide;
  }

  /** A receipt is verified at most once. */
  lemma {:induction false} VerifiedOnce(events: seq<Event>, i: nat, j: nat)
    requires i < |Run(events).verifications| && j < |Run(events).verifications|
    requires Run(events).verifications[i].receipt == Run(events).verifications[j].receipt
    ensures i == j
  {
    RunIsSafe(events);
    hide Run;
  }
}
