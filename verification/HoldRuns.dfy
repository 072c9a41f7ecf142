/** Holds over whole runs: nothing is executed while a matching hold stands, rollbacks look at no
    hold, and when a hold can be lifted. */
module HoldRuns {
  import opened Basics
  import opened Execution
  import opened Reconciliation
  import opened Holds
  import opened GovernedRuns
  import opened SampleRuns

  /** The execution calls `w'` made on top of those of `w` are none that `h` matches. */
  ghost predicate NewCallsAvoid(w: World, w': World, h: Hold) {
    forall i | |w.calls| <= i < |w'.calls| :: !HoldMatches(h, w'.calls[i].attempt.proposal, w'.calls[i].attempt.request)
  }

  lemma StepAvoids(w: World, e: Event, h: Hold)
    requires h in w.holds
    ensures NewCallsAvoid(w, Next(w, e), h)
  {
    hide HoldMatches, Next;
    if e.Execute? {
      ExecuteAvoids(w, e.attempt, e.reply, h);
      assert Next(w, e) == NextExecute(w, e.attempt, e.reply) by { ExecuteStep(w, e); }
    } else {
      SameCalls(w, e);
    }
  }

  lemma ExecuteStep(w: World, e: Event)
    requires e.Execute?
    ensures Next(w, e) == NextExecute(w, e.attempt, e.reply)
  {
    hide NextExecute;
  }

  lemma ExecuteAvoids(w: World, a: Attempt, reply: Reply, h: Hold)
    requires h in w.holds
    ensures NewCallsAvoid(w, NextExecute(w, a, reply), h)
  {
    hide HoldMatches, Decide, ReceiptFor, MakeReceipt;
  }

  lemma SameCalls(w: World, e: Event)
    requires !e.Execute?
    ensures Next(w, e).calls == w.calls
  {
    hide Next;
    match e
    case PlaceHold(_, _, _) => OnlyHolds(w, e);
    case LiftHold(_, _, _, _, _) => OnlyHolds(w, e);
    case Rollback(_, _, _, _, _, _, _, _) => OnlyRollbacks(w, e);
    case Resolve(_) => OnlyResolutions(w, e);
    case _ => OnlyReviews(w, e);
  }

  /** The hold stands before each of the further steps. */
  ghost predicate StandsThrough(events: seq<Event>, more: seq<Event>, h: Hold) {
    forall k | 0 <= k < |more| :: h in Run(events + more[..k]).holds
  }

  /** While a hold stands no execution it matches calls an adapter, whatever else happens. */
  lemma {:induction false} NoCallUnderHold(events: seq<Event>, more: seq<Event>, h: Hold)
    requires StandsThrough(events, more, h)
    ensures NewCallsAvoid(Run(events), Run(events + more), h)
    decreases |more|
  {
    hide Next, HoldMatches, Run;
    if more == [] {
      assert events + more == events;
    } else {
      var n := |more| - 1;
      forall k | 0 <= k < n ensures h in Run(events + more[..n][..k]).holds { assert more[..n][..k] == more[..k]; }
      NoCallUnderHold(events, more[..n], h);
      LastStep(events, more);
      StepAvoids(Run(events + more[..n]), more[n], h);
      CallsGrow(Run(events + more[..n]), more[n]);
    }
  }

  lemma CallsGrow(w: World, e: Event)
    ensures w.calls <= Next(w, e).calls
  {
    hide Next;
    StepExtends(w, e);
  }

  lemma LastStep(events: seq<Event>, more: seq<Event>)
    requires more != []
    ensures Run(events + more) == Next(Run(events + more[..|more| - 1]), more[|more| - 1])
  {
    hide Next, Run;
    var n := |more| - 1;
    assert events + more == (events + more[..n]) + [more[n]];
    RunStep(events + more[..n], more[n]);
  }

  // ---- rollbacks ----

  /** What the guard would ask of a rollback request. */
  predicate RollbackMatches(h: Hold, q: RollbackRequest) {
    h.active &&
    match h.scope
    case ActionScope(fp) => fp == q.proposal
    case ListingScope(listing) => listing == q.listingId
    case AdapterScope(adapter) => adapter == q.adapterId
  }

  /** In every run a rollback step does the same whatever holds stand. */
  lemma RollbackIgnoresHolds(events: seq<Event>, e: Event, holds: set<Hold>)
    requires e.Rollback?
    ensures Next(Run(events).(holds := holds), e) == Next(Run(events), e).(holds := holds)
  {
    hide Run, RollbackDecide, BuildRollbackRequest, RollbackReceiptFor, MakeRollbackReceipt;
  }

  /** A rollback calls the very adapter that an incident's hold stands on. */
  lemma RollbackUnderHold() returns (events: seq<Event>, h: Hold)
    ensures h in Run(events).holds && h.scope == AdapterScope("MLS")
    ensures var w, w' := Run(events), Run(events + [RollbackEvent("L1", "RA1")]);
            && w.rollbackCalls == [] && w'.rollbackCalls == [RollbackAt("L1", "RA1")]
            && h in w'.holds && RollbackMatches(h, w'.rollbackCalls[0].request)
  {
    hide Run, Next, CaseOpened;
    var incident := Incident("INC-1", DegradedAdapter, "W1", {AdapterScope("MLS")}, {});
    h := Hold("H1", IncidentFp(incident), AdapterScope("MLS"), true);
    var place := PlaceHold("H1", incident, AdapterScope("MLS"));
    events := CaseOpened() + [place];
    CaseOpens();
    RunStep(CaseOpened(), place);
    Placed(Run(CaseOpened()), h);
    RunStep(events, RollbackEvent("L1", "RA1"));
    RollbackCalls(Run(events), "L1", "RA1");
    assert RollbackMatches(h, RollbackAt("L1", "RA1").request) by { RequestThroughMls(); }
  }

  lemma RequestThroughMls()
    ensures RollbackAt("L1", "RA1").request.adapterId == "MLS"
  {
  }

  lemma Placed(w: World, h: Hold)
    requires CreateHold(h.holdId, h.incident.incident, h.scope) == Ok(h)
    ensures Next(w, PlaceHold(h.holdId, h.incident.incident, h.scope)) == w.(holds := w.holds + {h})
  {
  }

  // ---- lifting ----

  /** Every resolved case of a run was opened in it and marked by a step from outside. */
  lemma {:induction false} ResolvedByStep(events: seq<Event>, c: Case)
    requires c in Run(events).resolved
    ensures Resolve(c.(state := Open)) in events && c.state.Resolved? && c.(state := Open) in Run(events).cases
  {
    RunIsSafe(events);
    if events != [] {
      var n := |events| - 1;
      var w, e := Run(events[..n]), events[n];
      assert Run(events) == Next(w, e);
      RunIsSafe(events[..n]);
      hide Run, Next, ExecutionsOk, ReviewsOk, RollbacksOk;
      if c in w.resolved {
        ResolvedByStep(events[..n], c);
      } else {
        NewlyResolved(w, e, c);
        OpenAgain(w, e);
      }
    }
  }

  lemma NewlyResolved(w: World, e: Event, c: Case)
    requires c in Next(w, e).resolved && c !in w.resolved
    ensures e.Resolve? && e.c in w.cases && c == e.c.(state := Resolved)
  {
    hide Next;
    match e
    case PlaceHold(_, _, _) => OnlyHolds(w, e);
    case LiftHold(_, _, _, _, _) => OnlyHolds(w, e);
    case Execute(_, _) => OnlyExecutions(w, e);
    case Rollback(_, _, _, _, _, _, _, _) => OnlyRollbacks(w, e);
    case Resolve(_) => OnlyResolutions(w, e);
    case _ => OnlyReviews(w, e);
  }

  lemma OpenAgain(w: World, e: Event)
    requires Safe(w) && e.Resolve? && e.c in w.cases
    ensures e == Resolve(e.c.(state := Resolved).(state := Open))
  {
    hide ExecutionsOk, RollbacksOk, VerificationOk, ResolutionsOk;
    assert CaseOk(w.verifications, e.c);
  }

  /** Of the cases of a run, open or resolved, only one that was marked RESOLVED from outside closes
      an unknown-outcome incident: the engine opens cases and never resolves them. */
  lemma UnknownNeedsOutsideResolution(
    events: seq<Event>, incident: Incident, h: Hold, release: Release, validation: Validation, c: Option<Case>)
    requires UnknownKind(incident.kind) && (c.Some? ==> c.value in Run(events).cases || c.value in Run(events).resolved)
    requires CloseIncident(incident, h, release, validation, c).Ok?
    ensures c.Some? && c.value in Run(events).resolved && Resolve(c.value.(state := Open)) in events
  {
    hide Run;
    StaysOpen(events);
    ResolvedByStep(events, c.value);
  }

  lemma StaysOpen(events: seq<Event>)
    ensures forall c | c in Run(events).cases :: c.state.Open?
  {
    hide Run, ExecutionsOk, RollbacksOk, VerificationOk, ResolutionsOk;
    RunIsSafe(events);
    forall c | c in Run(events).cases ensures c.state.Open? { assert CaseOk(Run(events).verifications, c); }
  }

  predicate IsResolved(c: Option<Case>) {
    c.Some? && c.value.state.Resolved?
  }

  /** In every run a standing hold is lifted exactly by a human release of it under fresh
      validation, and for an unknown outcome with a RESOLVED case and a validation that says
      reconciled. Which incident is passed and what the case is about is not asked. */
  lemma LiftedIff(
    events: seq<Event>, incident: Incident, h: Hold, release: Release, validation: Validation, c: Option<Case>)
    requires h in Run(events).holds
    ensures h !in Next(Run(events), LiftHold(incident, h, release, validation, c)).holds <==>
            && release.hold == h && validation.hold == h && release.release
            && validation.prerequisitesCurrent && validation.authorityCurrent
            && (UnknownKind(incident.kind) ==> IsResolved(c) && validation.reconciled)
  {
    hide Run;
  }

  /** The closing evidence reconciles what the incident is about: the case is resolved, it is about
      the incident's one receipt, and the validation says reconciled. */
  predicate Settles(incident: Incident, validation: Validation, c: Option<Case>) {
    IsResolved(c) && validation.reconciled && incident.receipts == {c.value.receipt}
  }

  /** Whatever the run, the release and the validation, passing this incident and this case lifts
      the hold only after what it was placed for is reconciled. */
  ghost predicate LiftsOnlySettled(h: Hold, incident: Incident, c: Option<Case>) {
    forall events, release, validation
      | h in Run(events).holds && h !in Next(Run(events), LiftHold(incident, h, release, validation, c)).holds ::
      Settles(h.incident.incident, validation, c)
  }

  /** A caller can tell beforehand: a hold that can be placed is lifted only after its own receipt is
      reconciled if and only if the incident passed, such as the hold's own, is about an unknown
      outcome, and the case passed, if resolved, is about that one receipt. */
  lemma LiftsOnlySettledIff(h: Hold, incident: Incident, c: Option<Case>)
    requires CreateHold(h.holdId, h.incident.incident, h.scope) == Ok(h)
    ensures LiftsOnlySettled(h, incident, c) <==>
            UnknownKind(incident.kind) && (IsResolved(c) ==> h.incident.incident.receipts == {c.value.receipt})
  {
    hide Run, Next;
    if UnknownKind(incident.kind) && (IsResolved(c) ==> h.incident.incident.receipts == {c.value.receipt}) {
      forall events, release, validation
        | h in Run(events).holds && h !in Next(Run(events), LiftHold(incident, h, release, validation, c)).holds
        ensures Settles(h.incident.incident, validation, c)
      {
        LiftedIff(events, incident, h, release, validation, c);
      }
    } else {
      var events := [PlaceHold(h.holdId, h.incident.incident, h.scope)];
      assert h in Run(events).holds by { FirstPlaced(h); }
      var release, validation := Release(h, "human", true), Validation(h, true, true, UnknownKind(incident.kind));
      LiftedIff(events, incident, h, release, validation, c);
      assert !Settles(h.incident.incident, validation, c);
    }
  }

  lemma FirstPlaced(h: Hold)
    requires CreateHold(h.holdId, h.incident.incident, h.scope) == Ok(h)
    ensures h in Run([PlaceHold(h.holdId, h.incident.incident, h.scope)]).holds
  {
    hide CreateHold;
    var place := PlaceHold(h.holdId, h.incident.incident, h.scope);
    assert [] + [place] == [place];
    RunStep([], place);
    Placed(Run([]), h);
  }

  // ---- how long a hold stands ----

  /** The step keeps to the condition: for this hold it passes an incident about an unknown outcome
      and, if the case is resolved, one on record about the hold's one receipt. */
  ghost predicate CarefulLift(w: World, e: Event, h: Hold) {
    e.LiftHold? && e.hold == h ==>
      && UnknownKind(e.incident.kind)
      && (IsResolved(e.evidence) ==>
            e.evidence.value in w.resolved && h.incident.incident.receipts == {e.evidence.value.receipt})
  }

  ghost predicate CarefulLifts(events: seq<Event>, more: seq<Event>, h: Hold) {
    forall k | 0 <= k < |more| :: CarefulLift(Run(events + more[..k]), more[k], h)
  }

  /** A case about the incident's one receipt has been resolved. */
  ghost predicate Settled(w: World, incident: Incident) {
    exists c | c in w.resolved :: incident.receipts == {c.receipt}
  }

  lemma StaysHeld(events: seq<Event>, e: Event, h: Hold)
    requires h in Run(events).holds && CarefulLift(Run(events), e, h) && !Settled(Run(events), h.incident.incident)
    ensures h in Next(Run(events), e).holds
  {
    hide Run, CloseIncident;
    var w := Run(events);
    match e
    case PlaceHold(_, _, _) => OnlyHolds(w, e);
    case LiftHold(incident, other, release, validation, c) =>
      if other == h { LiftedIff(events, incident, h, release, validation, c); }
    case Execute(_, _) => OnlyExecutions(w, e);
    case Rollback(_, _, _, _, _, _, _, _) => OnlyRollbacks(w, e);
    case Resolve(_) => OnlyResolutions(w, e);
    case _ => OnlyReviews(w, e);
  }

  lemma EarlierUnsettled(events: seq<Event>, more: seq<Event>, k: nat, incident: Incident)
    requires k <= |more| && !Settled(Run(events + more), incident)
    ensures !Settled(Run(events + more[..k]), incident)
  {
    hide Run;
    assert events + more == (events + more[..k]) + more[k..];
    RunExtends(events + more[..k], more[k..]);
    assert forall c | c in Run(events + more[..k]).resolved :: c in Run(events + more).resolved;
  }

  lemma {:induction false} HoldStands(events: seq<Event>, more: seq<Event>, h: Hold)
    requires h in Run(events).holds && CarefulLifts(events, more, h)
    requires !Settled(Run(events + more), h.incident.incident)
    ensures h in Run(events + more).holds
    decreases |more|
  {
    hide Next, Run, CarefulLift, Settled;
    if more == [] {
      assert events + more == events;
    } else {
      var n := |more| - 1;
      EarlierUnsettled(events, more, n, h.incident.incident);
      CarefulPrefix(events, more, n, h);
      HoldStands(events, more[..n], h);
      LastStep(events, more);
      StaysHeld(events + more[..n], more[n], h);
    }
  }

  lemma CarefulPrefix(events: seq<Event>, more: seq<Event>, n: nat, h: Hold)
    requires n <= |more| && CarefulLifts(events, more, h)
    ensures CarefulLifts(events, more[..n], h)
  {
    hide CarefulLift, Run;
    forall k | 0 <= k < n ensures CarefulLift(Run(events + more[..n][..k]), more[..n][k], h) {
      assert more[..n][..k] == more[..k];
    }
  }

  /** If every lift keeps to that condition, a hold stands in every continuation until a case about
      its own receipt is resolved from outside, and until then nothing it matches is executed. */
  lemma HoldStandsUntilSettled(events: seq<Event>, more: seq<Event>, h: Hold)
    requires h in Run(events).holds && CarefulLifts(events, more, h)
    requires !Settled(Run(events + more), h.incident.incident)
    ensures h in Run(events + more).holds && NewCallsAvoid(Run(events), Run(events + more), h)
  {
    hide Run, NewCallsAvoid, CarefulLifts, Settled;
    HoldStands(events, more, h);
    forall k | 0 <= k < |more| ensures h in Run(events + more[..k]).holds {
      CarefulPrefix(events, more, k, h);
      EarlierUnsettled(events, more, k, h.incident.incident);
      HoldStands(events, more[..k], h);
    }
    NoCallUnderHold(events, more, h);
  }

  // ---- runs that lift too early ----

  /** What an execution on listing L2 leaves when its adapter raises. */
  function UnknownReceipt(): Receipt {
    ReceiptFor(AttemptAt("L2"), Raised)
  }

  function UnknownIncident(): Incident {
    Incident("INC-W2-OUTCOME_UNKNOWN", UnknownResult, "W2", {ListingScope("L2")}, {ReceiptFp(UnknownReceipt())})
  }

  function UnknownHold(): Hold {
    Hold("H2", IncidentFp(UnknownIncident()), ListingScope("L2"), true)
  }

  /** A hold for an unknown outcome is lifted by recovery evidence of some other incident. */
  lemma UnknownHoldLiftedElsewhere() returns (events: seq<Event>, lift: Event)
    ensures UnknownHold() in Run(events).holds && Run(events).cases == []
    ensures lift.LiftHold? && lift.hold == UnknownHold() && lift.incident != UnknownIncident() && lift.evidence == None
    ensures !lift.validation.reconciled && UnknownHold() !in Next(Run(events), lift).holds
  {
    hide UnknownReceipt;
    var h := UnknownHold();
    var degraded := Incident("INC-W2-ADAPTER_DEGRADED", DegradedAdapter, "W2", {ListingScope("L2")}, {ReceiptFp(UnknownReceipt())});
    events := [PlaceHold("H2", UnknownIncident(), ListingScope("L2"))];
    lift := LiftHold(degraded, h, Release(h, "human", true), Validation(h, true, true, false), None);
    FirstPlaced(h);
    assert events[..0] == [];
    LiftedIff(events, degraded, h, lift.release, lift.validation, None);
  }

  /** A case opens on L1; an execution on L2 ends unknown and its listing is held; the case about L1
      is resolved. */
  function HeldRun(): seq<Event> {
    CaseOpened() + [Execute(AttemptAt("L2"), Raised)] + [PlaceHold("H2", UnknownIncident(), ListingScope("L2"))] + [Resolve(CaseAt())]
  }

  lemma UnknownShape()
    ensures UnknownReceipt().outcome.OutcomeUnknown? && UnknownReceipt().action == ActionFp(ActionAt("L2"))
    ensures ReceiptAt().action == ActionFp(ActionAt("L1")) && ActionAt("L1").listingId != ActionAt("L2").listingId
    ensures ReceiptAt().key != RequestAt("L2").key
  {
    assert "L1"[1] != "L2"[1];
    ReceiptShape();
  }

  lemma HeldRunEnds()
    ensures var w := Run(HeldRun());
            && w.holds == {UnknownHold()} && w.receipts == [ReceiptAt(), UnknownReceipt()]
            && w.cases == [CaseAt()] && w.resolved == [CaseAt().(state := Resolved)]
  {
    hide Run, Next, CaseOpened, CaseAt, ReceiptAt, RequestAt;
    CaseOpens();
    UnknownShape();
    var e1, e2, e3 := Execute(AttemptAt("L2"), Raised), PlaceHold("H2", UnknownIncident(), ListingScope("L2")), Resolve(CaseAt());
    var es1 := CaseOpened() + [e1];
    var es2 := es1 + [e2];
    RunStep(CaseOpened(), e1);
    UnknownExecuted(Run(CaseOpened()));
    RunStep(es1, e2);
    Placed(Run(es1), UnknownHold());
    RunStep(es2, e3);
    OnlyResolutions(Run(es2), e3);
  }

  lemma UnknownExecuted(w: World)
    requires w.holds == {} && forall r | r in w.receipts :: r.key != RequestAt("L2").key
    ensures var w' := Next(w, Execute(AttemptAt("L2"), Raised));
            w' == w.(receipts := w.receipts + [UnknownReceipt()], calls := w.calls + [Call({}, AttemptAt("L2"))])
  {
    AttemptDecides("L2", w.receipts);
    hide Decide, AttemptAt, ReceiptFor, RequestAt;
  }

  /** A hold for an unknown outcome is lifted under its own incident by a resolved case about another
      receipt: nothing about its own was ever verified, opened or resolved. */
  lemma UnrelatedCaseLifts() returns (lift: Event)
    ensures var w, h := Run(HeldRun()), UnknownHold();
            && h in w.holds && UnknownReceipt() in w.receipts && UnknownReceipt().outcome.OutcomeUnknown?
            && lift.LiftHold? && lift.hold == h && lift.incident == h.incident.incident
            && lift.evidence.Some? && lift.evidence.value in w.resolved && lift.validation.reconciled
            && (forall c | c in w.cases || c in w.resolved :: c.receipt != ReceiptFp(UnknownReceipt()))
            && h !in Next(w, lift).holds
  {
    hide Run, Next, HeldRun, CaseAt, UnknownReceipt;
    HeldRunEnds();
    UnknownShape();
    CaseOfOther();
    var h := UnknownHold();
    lift := LiftHold(UnknownIncident(), h, Release(h, "human", true), Validation(h, true, true, true), Some(CaseAt().(state := Resolved)));
    LiftedIff(HeldRun(), UnknownIncident(), h, lift.release, lift.validation, lift.evidence);
  }

  lemma CaseOfOther()
    ensures CaseAt().receipt == ReceiptFp(ReceiptAt()) && ReceiptAt() != UnknownReceipt()
  {
    UnknownShape();
    hide ReceiptAt, UnknownReceipt;
  }
}
