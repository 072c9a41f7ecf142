/** When applying a plan is accepted, and that rebuilding what a plan asks for is always enough:
    no chain of snapshots gets stuck. */
module RefreshAcceptance {
  import opened Basics
  import opened Order
  import opened Snapshot
  import opened Delta
  import opened DeltaReplay
  import opened ImpactRefresh
  import opened RefreshSoundness
  import opened RefreshChains

  /** A replacement of the same artifact that is bound to the later snapshot, the delta and the
      decision. */
  ghost predicate Bound(r: Record, d: Decision, plan: PlanPayload, registry: RefreshRegistry) {
    && r.artifact == d.current.artifact && r.certification in registry.allowedReplacement
    && r.sourceHash == plan.afterHash && DeltaRef(plan.delta) in r.lineage && DecisionRef(d) in r.lineage
  }

  /** The record the decision was made for is still there, and is kept or has a bound replacement. */
  ghost predicate Applies(
    d: Decision, plan: PlanPayload, current: seq<Record>, replacements: seq<Record>, registry: RefreshRegistry) {
    && d.current in current && d.current.artifact.id == d.artifact.id
    && (d.verdict == NoImpact || exists r :: r in replacements && Bound(r, d, plan, registry))
  }

  ghost predicate NamesExactly(rs: seq<Record>, ids: seq<string>) {
    (forall r | r in rs :: r.artifact.id in ids) && (forall id | id in ids :: exists r :: r in rs && r.artifact.id == id)
  }

  ghost predicate HasDecision(ds: seq<Decision>, id: string) {
    exists d :: d in ds && d.artifact.id == id
  }

  ghost predicate EachDecided(current: seq<Record>, ds: seq<Decision>) {
    forall r | r in current :: HasDecision(ds, r.artifact.id)
  }

  lemma AppliesIff(
    d: Decision, plan: PlanPayload, current: seq<Record>, replacements: seq<Record>, registry: RefreshRegistry)
    requires DistinctKeys(current, RecordKey) && DistinctKeys(replacements, RecordKey)
    ensures var applied := ApplyDecision(d, plan, Dict(current, RecordKey), Dict(replacements, RecordKey), registry);
      && (applied.Ok? <==> Applies(d, plan, current, replacements, registry))
      && (applied.Ok? ==> RecordKey(applied.value) == [d.artifact.id])
  {
    hide Dict, DistinctKeys;
    DistinctUnique(current, RecordKey);
    DistinctUnique(replacements, RecordKey);
    var key, cur, rep := [d.artifact.id], Dict(current, RecordKey), Dict(replacements, RecordKey);
    if key in cur { assert RecordKey(cur[key]) == key && cur[key].artifact.id == RecordKey(cur[key])[0]; }
    if key in rep { assert RecordKey(rep[key]) == key && rep[key].artifact.id == RecordKey(rep[key])[0]; }
    if d.current in current && d.current.artifact.id == d.artifact.id {
      DictLookup(current, RecordKey, d.current);
      if r :| r in replacements && Bound(r, d, plan, registry) { DictLookup(replacements, RecordKey, r); }
    }
  }

  lemma {:induction false} ApplyDecisionsOkIff(
    ds: seq<Decision>, plan: PlanPayload, current: RecordMap, replacements: RecordMap, registry: RefreshRegistry)
    ensures ApplyDecisions(ds, plan, current, replacements, registry).Ok?
       <==> forall d | d in ds :: ApplyDecision(d, plan, current, replacements, registry).Ok?
  {
    hide ApplyDecision;
    if ds != [] {
      ApplyDecisionsOkIff(ds[1..], plan, current, replacements, registry);
      assert ds == [ds[0]] + ds[1..];
    }
  }

  lemma NamesIff(rs: seq<Record>, ids: seq<string>)
    ensures Dict(rs, RecordKey).Keys == IdSet(ids) <==> NamesExactly(rs, ids)
  {
    hide Dict;
    var m := Dict(rs, RecordKey);
    forall r | r in rs ensures [r.artifact.id] in m.Keys { assert RecordKey(r) in m; }
    forall id ensures [id] in IdSet(ids) <==> id in ids { if [id] in IdSet(ids) { var i :| i in ids && [i] == [id]; assert [i][0] == id; } }
    if m.Keys == IdSet(ids) {
      forall r | r in rs ensures r.artifact.id in ids { assert [r.artifact.id] in IdSet(ids); }
      forall id | id in ids ensures exists r :: r in rs && r.artifact.id == id {
        assert [id] in m.Keys;
        assert RecordKey(m[[id]])[0] == id;
      }
    }
    if NamesExactly(rs, ids) {
      forall k | k in m ensures k in IdSet(ids) { assert RecordKey(m[k]) == k && m[k].artifact.id in ids; }
      forall k | k in IdSet(ids) ensures k in m {
        var id :| id in ids && k == [id];
        var r :| r in rs && r.artifact.id == id;
        assert RecordKey(r) in m;
      }
    }
  }

  ghost function DecidedKeys(ds: seq<Decision>): set<Key> {
    set d | d in ds :: [d.artifact.id]
  }

  /** The records an application leaves have the ids of the decisions. */
  lemma OutputKeys(ds: seq<Decision>, out: seq<Record>)
    requires |out| == |ds| && forall i | 0 <= i < |ds| :: RecordKey(out[i]) == [ds[i].artifact.id]
    ensures (set r | r in SortBy(out, RecordKey) :: RecordKey(r)) == DecidedKeys(ds)
  {
    hide SortBy, RecordKey;
    SortFacts(out, RecordKey);
    forall r | r in SortBy(out, RecordKey) ensures RecordKey(r) in DecidedKeys(ds) {
      var i :| 0 <= i < |out| && out[i] == r;
      assert ds[i] in ds;
    }
    forall d | d in ds ensures exists r :: r in SortBy(out, RecordKey) && RecordKey(r) == [d.artifact.id] {
      var i :| 0 <= i < |ds| && ds[i] == d;
      assert out[i] in out;
    }
  }

  lemma DecidedKeysIff(ds: seq<Decision>, current: seq<Record>)
    requires forall d | d in ds :: [d.artifact.id] in Dict(current, RecordKey)
    ensures DecidedKeys(ds) == Dict(current, RecordKey).Keys <==> EachDecided(current, ds)
  {
    hide Dict, HasDecision;
    var m := Dict(current, RecordKey);
    KeysAreIds(current);
    forall id ensures [id] in DecidedKeys(ds) <==> HasDecision(ds, id) { DecidedKey(ds, id); }
    hide DecidedKeys;
    assert DecidedKeys(ds) <= m.Keys by { DecidedKeysWithin(ds, m.Keys); }
    if EachDecided(current, ds) {
      forall k | k in m ensures k in DecidedKeys(ds) {
        assert m[k] in current && RecordKey(m[k]) == k;
        assert [m[k].artifact.id] in DecidedKeys(ds);
      }
    }
    if DecidedKeys(ds) == m.Keys {
      forall r | r in current ensures HasDecision(ds, r.artifact.id) { assert [r.artifact.id] in m.Keys; }
    }
  }

  lemma DecidedKeysWithin(ds: seq<Decision>, keys: set<Key>)
    requires forall d | d in ds :: [d.artifact.id] in keys
    ensures DecidedKeys(ds) <= keys
  {
  }

  lemma DecidedKey(ds: seq<Decision>, id: string)
    ensures [id] in DecidedKeys(ds) <==> HasDecision(ds, id)
  {
    if [id] in DecidedKeys(ds) {
      var d :| d in ds && [d.artifact.id] == [id];
      assert [d.artifact.id][0] == [id][0];
    }
  }

  lemma KeysAreIds(rs: seq<Record>)
    ensures forall r | r in rs :: [r.artifact.id] in Dict(rs, RecordKey)
  {
    forall r | r in rs ensures [r.artifact.id] in Dict(rs, RecordKey) { assert RecordKey(r) in Dict(rs, RecordKey); }
  }

  /** Applying is accepted exactly when the plan is intact, ids are distinct, the replacements are
      those the plan asks for, every decision still applies and every current record was decided. */
  lemma ApplyAcceptedIff(
    resultId: string, plan: Plan, current: seq<Record>, replacements: seq<Record>, registry: RefreshRegistry)
    ensures Apply(resultId, plan, current, replacements, registry).Ok? <==>
      && resultId != "" && PlanReplayValid(plan)
      && DistinctKeys(current, RecordKey) && DistinctKeys(replacements, RecordKey)
      && NamesExactly(replacements, plan.payload.refreshIds)
      && (forall d | d in plan.payload.decisions :: Applies(d, plan.payload, current, replacements, registry))
      && EachDecided(current, plan.payload.decisions)
  {
    hide ApplyDecision, ApplyDecisions, Dict, NamesExactly, Applies, EachDecided, DistinctKeys, SortBy, SortedStrings, RefreshedRecords, IdSet;
    NamesIff(replacements, plan.payload.refreshIds);
    if ApplyRejection(resultId, plan, current, replacements).None? {
      var ds, cur, rep := plan.payload.decisions, Dict(current, RecordKey), Dict(replacements, RecordKey);
      forall d | d in ds ensures ApplyDecision(d, plan.payload, cur, rep, registry).Ok? <==> Applies(d, plan.payload, current, replacements, registry) {
        AppliesIff(d, plan.payload, current, replacements, registry);
      }
      ApplyDecisionsOkIff(ds, plan.payload, cur, rep, registry);
      if ApplyDecisions(ds, plan.payload, cur, rep, registry).Ok? {
        AppliedOutput(ds, plan.payload, current, replacements, registry);
      }
    }
  }

  lemma AppliedOutput(
    ds: seq<Decision>, plan: PlanPayload, current: seq<Record>, replacements: seq<Record>, registry: RefreshRegistry)
    requires DistinctKeys(current, RecordKey) && DistinctKeys(replacements, RecordKey)
    requires ApplyDecisions(ds, plan, Dict(current, RecordKey), Dict(replacements, RecordKey), registry).Ok?
    ensures var out := ApplyDecisions(ds, plan, Dict(current, RecordKey), Dict(replacements, RecordKey), registry).value;
      && |out| == |ds| && (forall i | 0 <= i < |ds| :: RecordKey(out[i]) == [ds[i].artifact.id])
      && ((set r | r in SortBy(out, RecordKey) :: RecordKey(r)) == Dict(current, RecordKey).Keys <==> EachDecided(current, ds))
  {
    hide ApplyDecision, ApplyDecisions, Dict, EachDecided, DistinctKeys, SortBy, RecordKey;
    var cur, rep := Dict(current, RecordKey), Dict(replacements, RecordKey);
    ApplyDecisionsElementwise(ds, plan, cur, rep, registry);
    var out := ApplyDecisions(ds, plan, cur, rep, registry).value;
    forall i | 0 <= i < |ds| ensures RecordKey(out[i]) == [ds[i].artifact.id] {
      AppliesIff(ds[i], plan, current, replacements, registry);
    }
    forall d | d in ds ensures [d.artifact.id] in cur {
      var i :| 0 <= i < |ds| && ds[i] == d;
      AppliesIff(d, plan, current, replacements, registry);
      KeysAreIds(current);
      assert d.current in current && d.current.artifact.id == d.artifact.id;
    }
    OutputKeys(ds, out);
    DecidedKeysIff(ds, current);
  }

  // ---- feeding a plan ----

  /** The certified replacement a rebuild delivers for one decision. */
  ghost function Rebuilt(d: Decision, plan: PlanPayload, rebuild: Rebuild, after: Body): Record {
    Record(d.current.artifact, plan.afterHash, rebuild(d.current.artifact, after), Certified, [DeltaRef(plan.delta), DecisionRef(d)])
  }

  /** The replacements for what a plan says must be refreshed, and nothing else. */
  ghost function RebuiltFor(ds: seq<Decision>, plan: PlanPayload, rebuild: Rebuild, after: Body): seq<Record> {
    if ds == [] then []
    else (if ds[0].verdict == RefreshRequired then [Rebuilt(ds[0], plan, rebuild, after)] else []) + RebuiltFor(ds[1..], plan, rebuild, after)
  }

  lemma {:induction false} RebuiltFacts(ds: seq<Decision>, plan: PlanPayload, rebuild: Rebuild, after: Body)
    ensures forall r :: r in RebuiltFor(ds, plan, rebuild, after) <==>
      exists d :: d in ds && d.verdict == RefreshRequired && r == Rebuilt(d, plan, rebuild, after)
    ensures forall id :: id in IdsWith(ds, RefreshRequired) <==> exists d :: d in ds && d.verdict == RefreshRequired && d.artifact.id == id
  {
    hide Rebuilt;
    if ds != [] {
      RebuiltFacts(ds[1..], plan, rebuild, after);
      assert ds == [ds[0]] + ds[1..];
    }
  }

  ghost predicate DistinctIds(ds: seq<Decision>) {
    forall i, j | 0 <= i < j < |ds| :: ds[i].current.artifact.id != ds[j].current.artifact.id
  }

  lemma {:induction false} RebuiltDistinct(ds: seq<Decision>, plan: PlanPayload, rebuild: Rebuild, after: Body)
    requires DistinctIds(ds)
    ensures DistinctKeys(RebuiltFor(ds, plan, rebuild, after), RecordKey)
  {
    if ds != [] {
      var rest := RebuiltFor(ds[1..], plan, rebuild, after);
      RebuiltDistinct(ds[1..], plan, rebuild, after);
      RebuiltFacts(ds[1..], plan, rebuild, after);
      forall j | 0 <= j < |rest| ensures RecordKey(rest[j]) != [ds[0].current.artifact.id] {
        assert rest[j] in rest;
        var d :| d in ds[1..] && d.verdict == RefreshRequired && rest[j] == Rebuilt(d, plan, rebuild, after);
        var k :| 0 <= k < |ds[1..]| && ds[1..][k] == d;
        assert ds[k + 1] == d;
        assert RecordKey(rest[j])[0] == d.current.artifact.id;
      }
    }
  }

  /** A plan as the planner makes it: one decision per record, about that record. */
  ghost predicate Decided(ds: seq<Decision>, records: seq<Record>) {
    && DistinctIds(ds) && (forall d | d in ds :: d.artifact == d.current.artifact && d.current in records)
    && EachDecided(records, ds)
  }

  lemma PlannedDecisions(records: seq<Record>, changes: seq<Change>, registry: RefreshRegistry)
    requires DistinctKeys(records, RecordKey)
    ensures Decided(Decisions(SortBy(records, RecordKey), changes, registry), records)
  {
    hide SortBy, KeyLe;
    var sorted := SortBy(records, RecordKey);
    var ds := Decisions(sorted, changes, registry);
    SortFacts(records, RecordKey);
    SortStrict(records, RecordKey);
    forall i, j | 0 <= i < j < |ds| ensures ds[i].current.artifact.id != ds[j].current.artifact.id {
      assert RecordKey(sorted[i]) != RecordKey(sorted[j]);
    }
    forall d | d in ds ensures d.artifact == d.current.artifact && d.current in records {
      var i :| 0 <= i < |ds| && ds[i] == d;
      assert sorted[i] in sorted;
    }
    forall r | r in records ensures HasDecision(ds, r.artifact.id) {
      assert r in sorted;
      var i :| 0 <= i < |sorted| && sorted[i] == r;
      assert ds[i] in ds;
    }
  }

  /** Delivering a rebuilt certified record for exactly the artifacts a plan refreshes is accepted. */
  lemma FedPlanAccepted(
    resultId: string, plan: Plan, records: seq<Record>, registry: RefreshRegistry, rebuild: Rebuild, after: Body)
    requires resultId != "" && PlanReplayValid(plan)
    requires DistinctKeys(records, RecordKey) && Decided(plan.payload.decisions, records)
    requires plan.payload.refreshIds == IdsWith(plan.payload.decisions, RefreshRequired)
    requires Certified in registry.allowedReplacement
    ensures Apply(resultId, plan, records, RebuiltFor(plan.payload.decisions, plan.payload, rebuild, after), registry).Ok?
  {
    hide Apply, DistinctKeys, DistinctIds, PlanReplayValid, EachDecided;
    var ds := plan.payload.decisions;
    var rs := RebuiltFor(ds, plan.payload, rebuild, after);
    RebuiltDistinct(ds, plan.payload, rebuild, after);
    RebuiltFacts(ds, plan.payload, rebuild, after);
    hide RebuiltFor, IdsWith;
    assert NamesExactly(rs, plan.payload.refreshIds) by { FedNames(ds, plan.payload, rebuild, after); }
    forall d | d in ds ensures Applies(d, plan.payload, records, rs, registry) {
      if d.verdict == RefreshRequired { assert Bound(Rebuilt(d, plan.payload, rebuild, after), d, plan.payload, registry); }
    }
    ApplyAcceptedIff(resultId, plan, records, rs, registry);
  }

  lemma FedNames(ds: seq<Decision>, plan: PlanPayload, rebuild: Rebuild, after: Body)
    requires forall d | d in ds :: d.artifact == d.current.artifact
    ensures NamesExactly(RebuiltFor(ds, plan, rebuild, after), IdsWith(ds, RefreshRequired))
  {
    RebuiltFacts(ds, plan, rebuild, after);
    hide RebuiltFor, IdsWith;
    var rs, ids := RebuiltFor(ds, plan, rebuild, after), IdsWith(ds, RefreshRequired);
    forall id | id in ids ensures exists r :: r in rs && r.artifact.id == id {
      var d :| d in ds && d.verdict == RefreshRequired && d.artifact.id == id;
      assert Rebuilt(d, plan, rebuild, after) in rs;
    }
  }

  // ---- feeding a chain ----

  /** No difference is NOT_COMPARABLE, so every delta that is built can be certified. */
  lemma BuiltDeltaCertifies(
    deltaId: string, before: Snapshot, after: Snapshot, detectedAt: Timestamp, staleDomains: set<Domain>)
    requires DeltaRejection(deltaId, before, after, detectedAt).None?
    ensures BuildDelta(deltaId, before, after, detectedAt, staleDomains).Ok?
    ensures CertifyDelta(BuildDelta(deltaId, before, after, detectedAt, staleDomains).value).Ok?
  {
    hide DeltaRejection, Diffs, SortBy, Number, DiffAt;
    var changes := SortBy(Number(Diffs(before.body, after.body), staleDomains), ChangeKey);
    DeltaChanges(before.body, after.body, staleDomains);
    forall c | c in changes ensures c.diff.classification != NotComparable {
      assert c.diff in Diffs(before.body, after.body);
      var o := OriginOf(before.body, after.body, c.diff);
      OriginShape(before.body, after.body, o);
    }
  }

  /** The plan of one step. */
  function PlanAt(
    before: Snapshot, records: seq<Record>, step: Refresh, registry: RefreshRegistry, staleDomains: set<Domain>): Result<Plan> {
    match BuildDelta(step.deltaId, before, step.after, step.detectedAt, staleDomains)
    case Err(e) => Err(e)
    case Ok(draft) =>
      match CertifyDelta(draft)
      case Err(e) => Err(e)
      case Ok(delta) => BuildPlan(step.planId, delta, records, registry)
  }

  /** The step with the replacements its plan asks for. */
  ghost function Fed(
    before: Snapshot, records: seq<Record>, step: Refresh, registry: RefreshRegistry, staleDomains: set<Domain>, rebuild: Rebuild): Refresh
  {
    match PlanAt(before, records, step, registry, staleDomains)
    case Err(_) => step
    case Ok(plan) => step.(replacements := RebuiltFor(plan.payload.decisions, plan.payload, rebuild, step.after.body))
  }

  /** Ids are given and the differ accepts the two snapshots. */
  ghost predicate Steps(before: Snapshot, step: Refresh) {
    step.planId != "" && step.resultId != "" && DeltaRejection(step.deltaId, before, step.after, step.detectedAt).None?
  }

  /** Records the planner takes: distinct ids, certified. */
  ghost predicate Plannable(records: seq<Record>, registry: RefreshRegistry) {
    DistinctKeys(records, RecordKey) && AllAllowed(records, registry.allowedCurrent)
  }

  lemma PlanMade(
    before: Snapshot, records: seq<Record>, step: Refresh, registry: RefreshRegistry, staleDomains: set<Domain>)
    requires Steps(before, step) && Plannable(records, registry)
    ensures var p := PlanAt(before, records, step, registry, staleDomains);
      && p.Ok? && PlanReplayValid(p.value) && Decided(p.value.payload.decisions, records)
      && p.value.payload.refreshIds == IdsWith(p.value.payload.decisions, RefreshRequired)
  {
    hide DeltaRejection, Decisions, SortBy, DistinctKeys, Decided, IdsWith, AllAllowed, Diffs, Number;
    BuiltDeltaCertifies(step.deltaId, before, step.after, step.detectedAt, staleDomains);
    var delta := CertifyDelta(BuildDelta(step.deltaId, before, step.after, step.detectedAt, staleDomains).value).value;
    assert delta.certification == Certified && DeltaReplayValid(delta);
    PlannedDecisions(records, delta.payload.changes, registry);
  }

  /** What an accepted application leaves can be planned for again. */
  lemma PlannableAgain(
    resultId: string, plan: Plan, records: seq<Record>, replacements: seq<Record>, registry: RefreshRegistry)
    requires Plannable(records, registry) && registry.allowedReplacement <= registry.allowedCurrent
    requires Decided(plan.payload.decisions, records)
    requires Apply(resultId, plan, records, replacements, registry).Ok?
    ensures Plannable(Apply(resultId, plan, records, replacements, registry).value.records, registry)
  {
    hide ApplyDecision, ApplyDecisions, Dict, DistinctKeys, SortBy, RecordKey, EachDecided, SortedStrings, RefreshedRecords, IdSet, KeyLe;
    var ds, cur, rep := plan.payload.decisions, Dict(records, RecordKey), Dict(replacements, RecordKey);
    var out := ApplyDecisions(ds, plan.payload, cur, rep, registry).value;
    AppliedOutput(ds, plan.payload, records, replacements, registry);
    ApplyDecisionsElementwise(ds, plan.payload, cur, rep, registry);
    forall i | 0 <= i < |out| ensures out[i].certification in registry.allowedCurrent {
      AppliedDecision(ds[i], plan.payload, records, replacements, registry, out[i]);
    }
    OutputDistinct(ds, out);
    SortFacts(out, RecordKey);
    SortStrict(out, RecordKey);
    var sorted := SortBy(out, RecordKey);
    assert DistinctKeys(sorted, RecordKey) by { StrictIsDistinct(sorted); }
  }

  lemma StrictIsDistinct(s: seq<Record>)
    requires StrictlySorted(s, RecordKey)
    ensures DistinctKeys(s, RecordKey)
  {
    hide RecordKey, KeyLe;
  }

  lemma OutputDistinct(ds: seq<Decision>, out: seq<Record>)
    requires DistinctIds(ds) && (forall d | d in ds :: d.artifact == d.current.artifact)
    requires |out| == |ds| && forall i | 0 <= i < |ds| :: RecordKey(out[i]) == [ds[i].artifact.id]
    ensures DistinctKeys(out, RecordKey)
  {
    hide RecordKey;
    forall i, j | 0 <= i < j < |out| ensures RecordKey(out[i]) != RecordKey(out[j]) {
      assert ds[i] in ds && ds[j] in ds;
      assert [ds[i].artifact.id][0] != [ds[j].artifact.id][0];
    }
  }

  /** One fed step is accepted, its replacements are up to date, and it can be followed by another. */
  lemma FedStepAccepted(
    before: Snapshot, records: seq<Record>, step: Refresh, registry: RefreshRegistry, staleDomains: set<Domain>, rebuild: Rebuild)
    requires Steps(before, step) && Plannable(records, registry)
    requires Certified in registry.allowedReplacement && registry.allowedReplacement <= registry.allowedCurrent
    ensures var fed := Fed(before, records, step, registry, staleDomains, rebuild);
      && fed.after == step.after && UpToDate(rebuild, fed.replacements, step.after.body)
      && RefreshOnce(before, records, fed, registry, staleDomains).Ok?
      && Plannable(RefreshOnce(before, records, fed, registry, staleDomains).value, registry)
  {
    hide BuildDelta, CertifyDelta, BuildPlan, Apply, Plannable, Decided, RebuiltFor, Steps;
    PlanMade(before, records, step, registry, staleDomains);
    var plan := PlanAt(before, records, step, registry, staleDomains).value;
    var fed := Fed(before, records, step, registry, staleDomains, rebuild);
    StepIds(before, step);
    DistinctOf(records, registry);
    FedPlanAccepted(step.resultId, plan, records, registry, rebuild, step.after.body);
    PlannableAgain(step.resultId, plan, records, fed.replacements, registry);
    RebuiltFacts(plan.payload.decisions, plan.payload, rebuild, step.after.body);
    assert PlanAt(before, records, fed, registry, staleDomains) == Ok(plan);
  }

  lemma StepIds(before: Snapshot, step: Refresh)
    requires Steps(before, step)
    ensures step.resultId != ""
  {
  }

  lemma DistinctOf(records: seq<Record>, registry: RefreshRegistry)
    requires Plannable(records, registry)
    ensures DistinctKeys(records, RecordKey)
  {
  }

  function StartOf(before: Snapshot, steps: seq<Refresh>, i: nat): Snapshot
    requires i <= |steps|
  {
    if i == 0 then before else steps[i - 1].after
  }

  ghost predicate ChainSteps(before: Snapshot, steps: seq<Refresh>) {
    forall i | 0 <= i < |steps| :: Steps(StartOf(before, steps, i), steps[i])
  }

  ghost function FedChain(
    before: Snapshot, records: seq<Record>, steps: seq<Refresh>, registry: RefreshRegistry, staleDomains: set<Domain>, rebuild: Rebuild)
    : seq<Refresh>
    decreases |steps|
  {
    if steps == [] then [] else
      var fed := Fed(before, records, steps[0], registry, staleDomains, rebuild);
      match RefreshOnce(before, records, fed, registry, staleDomains)
      case Err(_) => steps
      case Ok(rs) => [fed] + FedChain(steps[0].after, rs, steps[1..], registry, staleDomains, rebuild)
  }

  /** No chain of comparable snapshots gets stuck: rebuilding what each plan asks for is accepted
      at every step, and leaves the records of a full rebuild if every artifact is well scoped. */
  lemma {:induction false} FedChainAccepted(
    before: Snapshot, records: seq<Record>, steps: seq<Refresh>, registry: RefreshRegistry, staleDomains: set<Domain>,
    reach: Reach, rebuild: Rebuild)
    requires ChainSteps(before, steps) && Plannable(records, registry)
    requires Certified in registry.allowedReplacement && registry.allowedReplacement <= registry.allowedCurrent
    ensures var r := RefreshChain(before, records, FedChain(before, records, steps, registry, staleDomains, rebuild), registry, staleDomains);
      && r.Ok?
      && (RefreshesEveryChange(registry) && AllScoped(registry.dependencyRules, reach, records)
          && Governed(rebuild, registry.dependencyRules, reach) && UpToDate(rebuild, records, before.body) ==>
            && UpToDate(rebuild, r.value, Latest(before, steps).body)
            && Artifacts(r.value) == Artifacts(records) && |r.value| == |records|)
    decreases |steps|
  {
    hide RefreshOnce, Fed, Steps, Plannable, Governed, AllScoped, UpToDate, RefreshesEveryChange;
    if steps != [] {
      TailSteps(before, steps);
      var fed := Fed(before, records, steps[0], registry, staleDomains, rebuild);
      FedStepAccepted(before, records, steps[0], registry, staleDomains, rebuild);
      var rs := RefreshOnce(before, records, fed, registry, staleDomains).value;
      if RefreshesEveryChange(registry) && AllScoped(registry.dependencyRules, reach, records)
         && Governed(rebuild, registry.dependencyRules, reach) && UpToDate(rebuild, records, before.body) {
        RefreshOnceIsFullRebuild(before, records, fed, registry, staleDomains, reach, rebuild);
        SameArtifactsScoped(registry.dependencyRules, reach, records, rs);
      }
      FedChainAccepted(steps[0].after, rs, steps[1..], registry, staleDomains, reach, rebuild);
      var rest := FedChain(steps[0].after, rs, steps[1..], registry, staleDomains, rebuild);
      assert ([fed] + rest)[1..] == rest;
    }
  }

  lemma TailSteps(before: Snapshot, steps: seq<Refresh>)
    requires steps != [] && ChainSteps(before, steps)
    ensures Steps(before, steps[0]) && ChainSteps(steps[0].after, steps[1..])
    ensures Latest(before, steps) == Latest(steps[0].after, steps[1..])
  {
    hide Steps;
    assert Steps(StartOf(before, steps, 0), steps[0]);
    var tail := steps[1..];
    forall i | 0 <= i < |tail| ensures Steps(StartOf(steps[0].after, tail, i), tail[i]) {
      assert Steps(StartOf(before, steps, i + 1), steps[i + 1]);
    }
  }
}
