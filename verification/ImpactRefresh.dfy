/** Planning and applying a selective refresh of derived intelligence records. */
module ImpactRefresh {
  import opened Basics
  import opened Order
  import opened Snapshot
  import opened Delta

  datatype RecordScope = PropertyRecord | CommunityRecord

  /** What a derived record is about; its payload is recomputed, its identity never changes. */
  datatype Artifact = Artifact(id: string, artifactType: string, scope: RecordScope, scopeId: string)

  datatype LineageRef = DeltaRef(delta: DeltaFp) | DecisionRef(decision: Decision) | OtherRef(fingerprint: string)

  datatype Record = Record(
    artifact: Artifact, sourceHash: Digest<Body>, payload: string, certification: Certification, lineage: seq<LineageRef>)

  datatype Reason = Reason(domain: Domain, classification: Classification)

  datatype Verdict = RefreshRequired | NoImpact

  datatype Decision = Decision(
    artifact: Artifact, verdict: Verdict, reasons: set<Reason>, sources: set<Change>, current: Record)

  type Rules = map<Domain, set<string>>

  datatype RefreshRegistry = RefreshRegistry(
    refreshRequired: set<Classification>, dependencyRules: Rules,
    allowedCurrent: set<Certification>, allowedReplacement: set<Certification>)

  datatype PlanPayload = PlanPayload(
    planId: string, communityId: string, delta: DeltaFp, afterHash: Digest<Body>, policy: RefreshRegistry,
    decisions: seq<Decision>, refreshIds: seq<string>, preservedIds: seq<string>)

  datatype PlanFp = PlanFp(payload: PlanPayload)

  datatype Plan = Plan(payload: PlanPayload, fingerprint: PlanFp)

  datatype RefreshResult = RefreshResult(
    resultId: string, plan: PlanFp, records: seq<Record>, refreshedIds: seq<string>, preservedIds: seq<string>,
    replacements: set<Record>)

  function DependsOn(rules: Rules, domain: Domain): set<string> {
    if domain in rules then rules[domain] else {}
  }

  predicate Targets(d: Diff, a: Artifact, rules: Rules) {
    a.artifactType in DependsOn(rules, d.domain)
    && (d.scope == PropertyScope ==> a.scope == PropertyRecord && a.scopeId == d.objectId)
  }

  predicate Matches(c: Change, a: Artifact, registry: RefreshRegistry) {
    c.diff.classification in registry.refreshRequired && Targets(c.diff, a, registry.dependencyRules)
  }

  function Decide(r: Record, changes: seq<Change>, registry: RefreshRegistry): Decision {
    var matching := set c | c in changes && Matches(c, r.artifact, registry);
    Decision(r.artifact, if matching == {} then NoImpact else RefreshRequired,
             set c | c in matching :: Reason(c.diff.domain, c.diff.classification), matching, r)
  }

  function RecordKey(r: Record): Key {
    [r.artifact.id]
  }

  function Decisions(rs: seq<Record>, changes: seq<Change>, registry: RefreshRegistry): (ds: seq<Decision>)
    ensures |ds| == |rs| && forall i | 0 <= i < |rs| :: ds[i] == Decide(rs[i], changes, registry)
  {
    if rs == [] then [] else [Decide(rs[0], changes, registry)] + Decisions(rs[1..], changes, registry)
  }

  function IdsWith(ds: seq<Decision>, verdict: Verdict): seq<string> {
    if ds == [] then []
    else if ds[0].verdict == verdict then [ds[0].artifact.id] + IdsWith(ds[1..], verdict)
    else IdsWith(ds[1..], verdict)
  }

  function PlanRejection(planId: string, delta: CommunityDelta, records: seq<Record>): Option<string> {
    if planId == "" then Some("plan_id required")
    else if delta.certification != Certified then Some("certified delta required")
    else if !DeltaReplayValid(delta) then Some("reproducible delta required")
    else if !DistinctKeys(records, RecordKey) then Some("duplicate artifact ids prohibited")
    else None
  }

  function PlanOf(planId: string, delta: CommunityDelta, ds: seq<Decision>, registry: RefreshRegistry): Plan {
    var payload := PlanPayload(planId, delta.payload.communityId, delta.fingerprint, delta.payload.afterHash, registry,
                               ds, IdsWith(ds, RefreshRequired), IdsWith(ds, NoImpact));
    Plan(payload, PlanFp(payload))
  }

  predicate AllAllowed(records: seq<Record>, allowed: set<Certification>) {
    forall r | r in records :: r.certification in allowed
  }

  function BuildPlan(planId: string, delta: CommunityDelta, records: seq<Record>, registry: RefreshRegistry): Result<Plan> {
    match PlanRejection(planId, delta, records)
    case Some(reason) => Err(reason)
    case None =>
      if !AllAllowed(records, registry.allowedCurrent) then Err("current derived state must be certified")
      else Ok(PlanOf(planId, delta, Decisions(SortBy(records, RecordKey), delta.payload.changes, registry), registry))
  }

  method BuildSelectiveRefreshPlan(
    planId: string, delta: CommunityDelta, records: seq<Record>, registry: RefreshRegistry) returns (r: Result<Plan>)
    ensures r == BuildPlan(planId, delta, records, registry)
  {
    var rejection := PlanRejection(planId, delta, records);
    if rejection.Some? { return Err(rejection.value); }
    var decisions := DecideAll(SortBy(records, RecordKey), delta.payload.changes, registry);
    SortFacts(records, RecordKey);
    if decisions.Err? { return Err(decisions.error); }
    return Ok(PlanOf(planId, delta, decisions.value, registry));
  }

  /** The planner's loop over the sorted records. */
  method DecideAll(sorted: seq<Record>, changes: seq<Change>, registry: RefreshRegistry) returns (r: Result<seq<Decision>>)
    ensures r == if AllAllowed(sorted, registry.allowedCurrent) then Ok(Decisions(sorted, changes, registry))
                 else Err("current derived state must be certified")
  {
    var decisions: seq<Decision> := [];
    for i := 0 to |sorted|
      invariant |decisions| == i && forall j | 0 <= j < i :: decisions[j] == Decide(sorted[j], changes, registry)
      invariant forall j | 0 <= j < i :: sorted[j].certification in registry.allowedCurrent
    {
      if sorted[i].certification !in registry.allowedCurrent {
        assert sorted[i] in sorted;
        return Err("current derived state must be certified");
      }
      decisions := decisions + [Decide(sorted[i], changes, registry)];
    }
    assert decisions == Decisions(sorted, changes, registry);
    return Ok(decisions);
  }

  predicate PlanReplayValid(p: Plan) {
    p.fingerprint == PlanFp(p.payload)
  }

  // ---- applying a plan ----

  type RecordMap = map<Key, Record>

  function ApplyDecision(
    d: Decision, plan: PlanPayload, current: RecordMap, replacements: RecordMap, registry: RefreshRegistry): Result<Record>
  {
    var key := [d.artifact.id];
    if key !in current || current[key] != d.current then Err("current derived state drifted after refresh planning")
    else if d.verdict == NoImpact then Ok(current[key])
    else if key !in replacements then Err("replacement missing")
    else
      var held, update := current[key], replacements[key];
      if update.certification !in registry.allowedReplacement then Err("authoritative replacement must be CERTIFIED")
      else if update.artifact.artifactType != held.artifact.artifactType || update.artifact.scope != held.artifact.scope
              || update.artifact.scopeId != held.artifact.scopeId then Err("replacement artifact identity/scope mismatch")
      else if update.sourceHash != plan.afterHash then Err("replacement not bound to delta after-snapshot")
      else if DeltaRef(plan.delta) !in update.lineage || DecisionRef(d) !in update.lineage then
        Err("replacement missing refresh lineage")
      else Ok(update)
  }

  function ApplyDecisions(
    ds: seq<Decision>, plan: PlanPayload, current: RecordMap, replacements: RecordMap, registry: RefreshRegistry)
    : Result<seq<Record>>
  {
    if ds == [] then Ok([]) else
      match ApplyDecision(ds[0], plan, current, replacements, registry)
      case Err(e) => Err(e)
      case Ok(r) =>
        match ApplyDecisions(ds[1..], plan, current, replacements, registry)
        case Err(e) => Err(e)
        case Ok(rs) => Ok([r] + rs)
  }

  function RefreshedRecords(ds: seq<Decision>, replacements: RecordMap): set<Record> {
    set d | d in ds && d.verdict == RefreshRequired && [d.artifact.id] in replacements :: replacements[[d.artifact.id]]
  }

  function IdSet(ids: seq<string>): set<Key> {
    set id | id in ids :: [id]
  }

  function ApplyRejection(
    resultId: string, plan: Plan, current: seq<Record>, replacements: seq<Record>): Option<string>
  {
    if resultId == "" then Some("result_id required")
    else if !PlanReplayValid(plan) then Some("refresh plan is nonreproducible")
    else if !DistinctKeys(current, RecordKey) || !DistinctKeys(replacements, RecordKey) then
      Some("duplicate artifact ids prohibited")
    else if Dict(replacements, RecordKey).Keys != IdSet(plan.payload.refreshIds) then
      Some("authoritative replacements must exactly match refresh set")
    else None
  }

  function ResultOf(
    resultId: string, plan: Plan, out: seq<Record>, current: seq<Record>, replacements: seq<Record>): Result<RefreshResult>
  {
    var records := SortBy(out, RecordKey);
    if (set r | r in records :: RecordKey(r)) != Dict(current, RecordKey).Keys then
      Err("selective refresh cannot add or drop current artifact identities")
    else Ok(RefreshResult(resultId, plan.fingerprint, records, SortedStrings(plan.payload.refreshIds),
                          SortedStrings(plan.payload.preservedIds),
                          RefreshedRecords(plan.payload.decisions, Dict(replacements, RecordKey))))
  }

  function Apply(
    resultId: string, plan: Plan, current: seq<Record>, replacements: seq<Record>, registry: RefreshRegistry)
    : Result<RefreshResult>
  {
    match ApplyRejection(resultId, plan, current, replacements)
    case Some(reason) => Err(reason)
    case None =>
      match ApplyDecisions(plan.payload.decisions, plan.payload, Dict(current, RecordKey), Dict(replacements, RecordKey), registry)
      case Err(e) => Err(e)
      case Ok(out) => ResultOf(resultId, plan, out, current, replacements)
  }

  method ApplySelectiveRefresh(
    resultId: string, plan: Plan, current: seq<Record>, replacements: seq<Record>, registry: RefreshRegistry)
    returns (r: Result<RefreshResult>)
    ensures r == Apply(resultId, plan, current, replacements, registry)
  {
    hide ApplyDecision, ResultOf, ApplyRejection, Dict;
    var rejection := ApplyRejection(resultId, plan, current, replacements);
    if rejection.Some? { return Err(rejection.value); }
    var cur, rep := Dict(current, RecordKey), Dict(replacements, RecordKey);
    var ds := plan.payload.decisions;
    var out: seq<Record> := [];
    ghost var whole := ApplyDecisions(ds, plan.payload, cur, rep, registry);
    assert ds[0..] == ds && (whole.Ok? ==> out + whole.value == whole.value);
    for i := 0 to |ds|
      invariant whole ==
        match ApplyDecisions(ds[i..], plan.payload, cur, rep, registry) { case Err(e) => Err(e) case Ok(rest) => Ok(out + rest) }
    {
      assert ds[i..][0] == ds[i] && ds[i..][1..] == ds[i+1..];
      var one := ApplyDecision(ds[i], plan.payload, cur, rep, registry);
      if one.Err? { return Err(one.error); }
      ghost var rest := ApplyDecisions(ds[i+1..], plan.payload, cur, rep, registry);
      if rest.Ok? { assert out + ([one.value] + rest.value) == (out + [one.value]) + rest.value; }
      out := out + [one.value];
    }
    assert out + [] == out;
    r := ResultOf(resultId, plan, out, current, replacements);
  }
}
