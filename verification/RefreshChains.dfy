/** Applying plans: when a refresh is accepted, what it leaves, and why over any chain of
    snapshots the refreshed records are those of a full rebuild. */
module RefreshChains {
  import opened Basics
  import opened Order
  import opened Snapshot
  import opened Delta
  import opened ImpactRefresh
  import opened RefreshSoundness

  // ---- one refresh ----

  datatype Refresh = Refresh(
    after: Snapshot, deltaId: string, detectedAt: Timestamp, planId: string, resultId: string, replacements: seq<Record>)

  /** Diff, certify, plan, apply. */
  function RefreshOnce(
    before: Snapshot, records: seq<Record>, step: Refresh, registry: RefreshRegistry, staleDomains: set<Domain>)
    : Result<seq<Record>>
  {
    match BuildDelta(step.deltaId, before, step.after, step.detectedAt, staleDomains)
    case Err(e) => Err(e)
    case Ok(draft) =>
      match CertifyDelta(draft)
      case Err(e) => Err(e)
      case Ok(delta) =>
        match BuildPlan(step.planId, delta, records, registry)
        case Err(e) => Err(e)
        case Ok(plan) =>
          match Apply(step.resultId, plan, records, step.replacements, registry)
          case Err(e) => Err(e)
          case Ok(result) => Ok(result.records)
  }

  /** No artifact reads more of properties than the plan takes account of. */
  ghost predicate AllScoped(rules: Rules, reach: Reach, records: seq<Record>) {
    forall r | r in records :: WellScoped(rules, reach, r.artifact)
  }

  ghost predicate UpToDate(rebuild: Rebuild, records: seq<Record>, b: Body) {
    forall r | r in records :: r.payload == rebuild(r.artifact, b)
  }

  ghost function Artifacts(records: seq<Record>): set<Artifact> {
    set r | r in records :: r.artifact
  }

  lemma {:induction false} ApplyDecisionsElementwise(
    ds: seq<Decision>, plan: PlanPayload, current: RecordMap, replacements: RecordMap, registry: RefreshRegistry)
    requires ApplyDecisions(ds, plan, current, replacements, registry).Ok?
    ensures var out := ApplyDecisions(ds, plan, current, replacements, registry).value;
      |out| == |ds| && forall i | 0 <= i < |ds| :: ApplyDecision(ds[i], plan, current, replacements, registry) == Ok(out[i])
  {
    if ds != [] {
      ApplyDecisionsElementwise(ds[1..], plan, current, replacements, registry);
      var out := ApplyDecisions(ds, plan, current, replacements, registry).value;
      forall i | 0 <= i < |ds| ensures ApplyDecision(ds[i], plan, current, replacements, registry) == Ok(out[i]) {
        if i > 0 { assert ds[i] == ds[1..][i-1]; }
      }
    }
  }

  /** An accepted application found every record as it was planned, kept each unaffected record
      exactly, and replaced each affected one by a certified record of the same artifact that
      is bound to the later snapshot and to this delta and decision. */
  lemma AppliedFaithfully(
    resultId: string, plan: Plan, current: seq<Record>, replacements: seq<Record>, registry: RefreshRegistry, d: Decision)
    requires Apply(resultId, plan, current, replacements, registry).Ok? && d in plan.payload.decisions
    ensures var out := Apply(resultId, plan, current, replacements, registry).value.records;
      && d.current in current
      && (d.verdict == NoImpact ==> d.current in out)
      && (d.verdict == RefreshRequired ==>
            exists r :: r in out && r in replacements && r.artifact == d.current.artifact.(id := d.artifact.id)
              && r.certification in registry.allowedReplacement
              && r.sourceHash == plan.payload.afterHash && DeltaRef(plan.payload.delta) in r.lineage && DecisionRef(d) in r.lineage)
  {
    hide SortBy, SortedStrings, ApplyDecision, ApplyDecisions, IdSet, RefreshedRecords;
    var cur, rep, ds := Dict(current, RecordKey), Dict(replacements, RecordKey), plan.payload.decisions;
    ApplyDecisionsElementwise(ds, plan.payload, cur, rep, registry);
    var unsorted := ApplyDecisions(ds, plan.payload, cur, rep, registry).value;
    SortFacts(unsorted, RecordKey);
    var i :| 0 <= i < |ds| && ds[i] == d;
    assert unsorted[i] in unsorted;
    AppliedDecision(d, plan.payload, current, replacements, registry, unsorted[i]);
  }

  lemma AppliedDecision(
    d: Decision, plan: PlanPayload, current: seq<Record>, replacements: seq<Record>, registry: RefreshRegistry, r: Record)
    requires ApplyDecision(d, plan, Dict(current, RecordKey), Dict(replacements, RecordKey), registry) == Ok(r)
    ensures d.current in current && (d.verdict == NoImpact ==> r == d.current)
    ensures d.verdict == RefreshRequired ==>
      && r in replacements && r.artifact == d.current.artifact.(id := d.artifact.id)
      && r.certification in registry.allowedReplacement && r.sourceHash == plan.afterHash
      && DeltaRef(plan.delta) in r.lineage && DecisionRef(d) in r.lineage
  {
    hide Dict;
    if d.verdict == RefreshRequired {
      assert RecordKey(r) == [d.artifact.id] && r.artifact.id == RecordKey(r)[0];
    }
  }

  /** One decision, applied to the record it was planned for, keeps the artifact and brings the
      payload up to date. */
  lemma AppliedRecord(
    before: Body, after: Body, staleDomains: set<Domain>, r: Record, out: Record, plan: PlanPayload,
    current: RecordMap, replacements: RecordMap, registry: RefreshRegistry, reach: Reach, rebuild: Rebuild)
    requires RefreshesEveryChange(registry) && WellScoped(registry.dependencyRules, reach, r.artifact)
    requires Governed(rebuild, registry.dependencyRules, reach)
    requires forall k | k in replacements :: RecordKey(replacements[k]) == k
    requires forall k | k in replacements :: replacements[k].payload == rebuild(replacements[k].artifact, after)
    requires r.payload == rebuild(r.artifact, before)
    requires var d := Decide(r, SortBy(Number(Diffs(before, after), staleDomains), ChangeKey), registry);
      ApplyDecision(d, plan, current, replacements, registry) == Ok(out)
    ensures out.artifact == r.artifact && out.payload == rebuild(out.artifact, after)
  {
    hide Diffs, SortBy, Number, SameView, MustRefresh, WellScoped;
    VerdictMeaning(before, after, staleDomains, r, registry);
    if !SameView(registry.dependencyRules, reach, r.artifact, before, after) {
      ChangeIsSeen(registry, reach, r.artifact, before, after);
    }
    if MustRefresh(registry, r.artifact, Diffs(before, after)) {
      assert RecordKey(out) == [r.artifact.id];
      assert out.artifact.id == RecordKey(out)[0];
    }
  }

  /** Sorting records keeps what they say. */
  lemma SortedRecords(records: seq<Record>, b: Body, rebuild: Rebuild)
    ensures |SortBy(records, RecordKey)| == |records| && SameElements(SortBy(records, RecordKey), records)
    ensures Artifacts(SortBy(records, RecordKey)) == Artifacts(records)
    ensures UpToDate(rebuild, SortBy(records, RecordKey), b) <==> UpToDate(rebuild, records, b)
  {
    SortFacts(records, RecordKey);
  }

  lemma SameArtifactsScoped(rules: Rules, reach: Reach, records: seq<Record>, others: seq<Record>)
    requires AllScoped(rules, reach, records) && Artifacts(others) == Artifacts(records)
    ensures AllScoped(rules, reach, others)
  {
    hide WellScoped;
    forall r | r in others ensures WellScoped(rules, reach, r.artifact) {
      assert r.artifact in Artifacts(others);
      var q :| q in records && q.artifact == r.artifact;
    }
  }

  /** One diff, plan and apply brings every payload up to date, if every artifact is well scoped. */
  lemma RefreshOnceIsFullRebuild(
    before: Snapshot, records: seq<Record>, step: Refresh, registry: RefreshRegistry, staleDomains: set<Domain>,
    reach: Reach, rebuild: Rebuild)
    requires RefreshesEveryChange(registry) && AllScoped(registry.dependencyRules, reach, records)
    requires Governed(rebuild, registry.dependencyRules, reach)
    requires UpToDate(rebuild, records, before.body) && UpToDate(rebuild, step.replacements, step.after.body)
    ensures var r := RefreshOnce(before, records, step, registry, staleDomains);
      r.Ok? ==> UpToDate(rebuild, r.value, step.after.body) && Artifacts(r.value) == Artifacts(records) && |r.value| == |records|
  {
    hide Diffs, Comparable, SemanticPayload, DeltaRejection, Decisions, WellScoped, Governed, ApplyDecisions, SortBy, SortedStrings, Number;
    var r := RefreshOnce(before, records, step, registry, staleDomains);
    if r.Ok? {
      var draft := BuildDelta(step.deltaId, before, step.after, step.detectedAt, staleDomains).value;
      var delta := CertifyDelta(draft).value;
      var plan := BuildPlan(step.planId, delta, records, registry).value;
      var sorted := SortBy(records, RecordKey);
      SortedRecords(records, before.body, rebuild);
      AppliedPlan(before.body, step.after.body, staleDomains, sorted, plan, records, step, registry, reach, rebuild);
      var out := ApplyDecisions(plan.payload.decisions, plan.payload, Dict(records, RecordKey), Dict(step.replacements, RecordKey), registry).value;
      SortedRecords(out, step.after.body, rebuild);
      assert r.value == SortBy(out, RecordKey);
    }
  }

  lemma AppliedPlan(
    before: Body, after: Body, staleDomains: set<Domain>, sorted: seq<Record>, plan: Plan, records: seq<Record>, step: Refresh,
    registry: RefreshRegistry, reach: Reach, rebuild: Rebuild)
    requires RefreshesEveryChange(registry) && AllScoped(registry.dependencyRules, reach, sorted)
    requires Governed(rebuild, registry.dependencyRules, reach)
    requires UpToDate(rebuild, sorted, before) && UpToDate(rebuild, step.replacements, after)
    requires plan.payload.decisions ==
      Decisions(sorted, SortBy(Number(Diffs(before, after), staleDomains), ChangeKey), registry)
    requires ApplyDecisions(plan.payload.decisions, plan.payload, Dict(records, RecordKey), Dict(step.replacements, RecordKey), registry).Ok?
    ensures var out := ApplyDecisions(plan.payload.decisions, plan.payload, Dict(records, RecordKey), Dict(step.replacements, RecordKey), registry).value;
      |out| == |sorted| && UpToDate(rebuild, out, after) && Artifacts(out) == Artifacts(sorted)
  {
    hide Diffs, SortBy, Number, ApplyDecisions, ApplyDecision, WellScoped, Governed;
    var cur, rep := Dict(records, RecordKey), Dict(step.replacements, RecordKey);
    var out := ApplyDecisions(plan.payload.decisions, plan.payload, cur, rep, registry).value;
    ApplyDecisionsElementwise(plan.payload.decisions, plan.payload, cur, rep, registry);
    forall i | 0 <= i < |sorted| ensures out[i].artifact == sorted[i].artifact && out[i].payload == rebuild(out[i].artifact, after) {
      assert sorted[i] in sorted;
      AppliedRecord(before, after, staleDomains, sorted[i], out[i], plan.payload, cur, rep, registry, reach, rebuild);
    }
    forall a | a in Artifacts(sorted) ensures a in Artifacts(out) {
      var i :| 0 <= i < |sorted| && sorted[i].artifact == a;
      assert out[i] in out;
    }
    forall a | a in Artifacts(out) ensures a in Artifacts(sorted) {
      var i :| 0 <= i < |out| && out[i].artifact == a;
      assert sorted[i] in sorted;
    }
  }

  // ---- chains of snapshots ----

  function RefreshChain(
    before: Snapshot, records: seq<Record>, steps: seq<Refresh>, registry: RefreshRegistry, staleDomains: set<Domain>)
    : Result<seq<Record>>
    decreases |steps|
  {
    hide RefreshOnce;
    if steps == [] then Ok(records) else
      match RefreshOnce(before, records, steps[0], registry, staleDomains)
      case Err(e) => Err(e)
      case Ok(rs) => RefreshChain(steps[0].after, rs, steps[1..], registry, staleDomains)
  }

  function Latest(before: Snapshot, steps: seq<Refresh>): Snapshot {
    if steps == [] then before else steps[|steps| - 1].after
  }

  /** Over any chain of snapshots, repeated diff, plan and apply leaves every artifact with the
      payload a full rebuild from the latest snapshot gives, and never adds or drops one, if every
      artifact is well scoped. */
  lemma {:induction false} IncrementalEqualsFullRebuild(
    before: Snapshot, records: seq<Record>, steps: seq<Refresh>, registry: RefreshRegistry, staleDomains: set<Domain>,
    reach: Reach, rebuild: Rebuild)
    requires RefreshesEveryChange(registry) && AllScoped(registry.dependencyRules, reach, records)
    requires Governed(rebuild, registry.dependencyRules, reach)
    requires UpToDate(rebuild, records, before.body)
    requires forall i | 0 <= i < |steps| :: UpToDate(rebuild, steps[i].replacements, steps[i].after.body)
    ensures var r := RefreshChain(before, records, steps, registry, staleDomains);
      r.Ok? ==>
        && UpToDate(rebuild, r.value, Latest(before, steps).body)
        && Artifacts(r.value) == Artifacts(records) && |r.value| == |records|
    decreases |steps|
  {
    hide RefreshOnce;
    if steps != [] {
      RefreshOnceIsFullRebuild(before, records, steps[0], registry, staleDomains, reach, rebuild);
      var r := RefreshOnce(before, records, steps[0], registry, staleDomains);
      if r.Ok? {
        SameArtifactsScoped(registry.dependencyRules, reach, records, r.value);
        IncrementalEqualsFullRebuild(steps[0].after, r.value, steps[1..], registry, staleDomains, reach, rebuild);
        assert Latest(before, steps) == Latest(steps[0].after, steps[1..]);
      }
    }
  }
}
