/** The progressive build pipeline: stages in order, stopping at the first that cannot pass,
    and the resume check that accepts exactly where it stopped. */
module Pipeline {
  import opened Basics
  import opened Order

  datatype StageSpec = StageSpec(id: string, order: int, needs: seq<string>)

  datatype StageInput = StageInput(stageId: string, checks: map<string, bool>, evidence: map<string, string>)

  datatype StageResult = StageResult(stageId: string, order: int, passed: bool, failedChecks: set<string>)

  datatype PipelineResult = PipelineResult(stages: seq<StageResult>, passed: bool, stoppedAt: Option<string>)

  /** The registry: stage specifications and the identities no new community may use. `leaks`
      says whether a protected token occurs in the serialized input. */
  datatype Registry = Registry(stages: seq<StageSpec>, protectedIds: seq<string>, leaks: StageInput -> bool)

  function OrderOf(s: StageSpec): int {
    s.order
  }

  function NoName(s: StageSpec): string {
    ""
  }

  /** `sorted(stages, key=order)`, which keeps the order of equal keys. */
  function Ordered(stages: seq<StageSpec>): seq<StageSpec> {
    SortByTime(stages, OrderOf, NoName)
  }

  predicate ValidInput(i: StageInput) {
    && i.checks != map[] && i.evidence != map[]
    && "" !in i.checks && forall k | k in i.evidence :: k != "" && i.evidence[k] != ""
  }

  function FailedChecks(i: StageInput): set<string> {
    set k | k in i.checks && !i.checks[k]
  }

  /** The stage ran and passed before. */
  predicate Passed(id: string, done: seq<StageResult>) {
    exists r | r in done :: r.stageId == id && r.passed
  }

  predicate NeedsMet(spec: StageSpec, done: seq<StageResult>) {
    forall dep | dep in spec.needs :: Passed(dep, done)
  }

  function ResultOf(spec: StageSpec, i: StageInput): StageResult {
    StageResult(spec.id, spec.order, FailedChecks(i) == {}, FailedChecks(i))
  }

  predicate Supplied(spec: StageSpec, inputs: map<string, StageInput>, leaks: StageInput -> bool) {
    spec.id in inputs && inputs[spec.id].stageId == spec.id && ValidInput(inputs[spec.id]) && !leaks(inputs[spec.id])
  }

  /** What the stages from here on give when `done` have passed. */
  function Outcome(specs: seq<StageSpec>, done: seq<StageResult>, inputs: map<string, StageInput>, leaks: StageInput -> bool)
    : Result<PipelineResult>
    decreases |specs|
  {
    if specs == [] then Ok(PipelineResult(done, true, None))
    else if !NeedsMet(specs[0], done) then Ok(PipelineResult(done, false, Some(specs[0].id)))
    else if !Supplied(specs[0], inputs, leaks) then Err("stage input refused")
    else
      var result := ResultOf(specs[0], inputs[specs[0].id]);
      if result.passed then Outcome(specs[1..], done + [result], inputs, leaks)
      else Ok(PipelineResult(done + [result], false, Some(specs[0].id)))
  }

  predicate Covered(stages: seq<StageSpec>, inputs: map<string, StageInput>) {
    (forall s | s in stages :: s.id in inputs) && forall k | k in inputs :: exists s | s in stages :: s.id == k
  }

  method ExecuteProgressivePipeline(communityId: string, bootstrapFp: string, inputs: map<string, StageInput>, registry: Registry)
    returns (r: Result<PipelineResult>)
    ensures r.Ok? <==>
            && communityId != "" && communityId !in registry.protectedIds && |bootstrapFp| == 64
            && Covered(registry.stages, inputs) && Outcome(Ordered(registry.stages), [], inputs, registry.leaks).Ok?
    ensures r.Ok? ==> r == Outcome(Ordered(registry.stages), [], inputs, registry.leaks)
  {
    hide ValidInput, FailedChecks, Ordered, NeedsMet, Covered;
    if communityId == "" { return Err("community_id required"); }
    if communityId in registry.protectedIds {
      return Err("protected community identity cannot be used as a new-community pipeline target");
    }
    if |bootstrapFp| != 64 { return Err("onboarding bootstrap fingerprint must be sha256"); }
    if !Covered(registry.stages, inputs) { return Err("stage input coverage mismatch"); }

    var ordered := Ordered(registry.stages);
    AllPresent(registry.stages, inputs);
    var results: seq<StageResult> := [];
    for i := 0 to |ordered|
      invariant forall x | x in results :: x.passed
      invariant Outcome(ordered, [], inputs, registry.leaks) == Outcome(ordered[i..], results, inputs, registry.leaks)
    {
      var spec := ordered[i];
      assert spec in ordered;
      assert ordered[i..][0] == spec && ordered[i..][1..] == ordered[i + 1..];
      var met := CheckNeeds(spec, results);
      if !met { return Ok(PipelineResult(results, false, Some(spec.id))); }
      var supplied := inputs[spec.id];
      if supplied.stageId != spec.id { return Err("stage identity mismatch"); }
      if !ValidInput(supplied) { return Err("checks and evidence must be supplied and nonblank"); }
      if registry.leaks(supplied) { return Err("protected default leakage detected"); }
      var failed := FailedChecks(supplied);
      results := results + [StageResult(spec.id, spec.order, failed == {}, failed)];
      if failed != {} { return Ok(PipelineResult(results, false, Some(spec.id))); }
    }
    r := Ok(PipelineResult(results, true, None));
  }

  method CheckNeeds(spec: StageSpec, done: seq<StageResult>) returns (met: bool)
    ensures met == NeedsMet(spec, done)
  {
    hide Passed;
    for j := 0 to |spec.needs|
      invariant forall dep | dep in spec.needs[..j] :: Passed(dep, done)
    {
      assert spec.needs[j] in spec.needs;
      if !Passed(spec.needs[j], done) { return false; }
    }
    assert spec.needs[..|spec.needs|] == spec.needs;
    met := true;
  }

  lemma OrderedSame(stages: seq<StageSpec>)
    ensures forall s :: s in Ordered(stages) <==> s in stages
    ensures |Ordered(stages)| == |stages|
  {
    SortByTimeFacts(stages, OrderOf, NoName);
    forall s | s in Ordered(stages) ensures s in stages { assert s in multiset(Ordered(stages)); }
    forall s | s in stages ensures s in Ordered(stages) { assert s in multiset(stages); }
  }

  lemma AllPresent(stages: seq<StageSpec>, inputs: map<string, StageInput>)
    requires Covered(stages, inputs)
    ensures forall s | s in Ordered(stages) :: s.id in inputs
  {
    OrderedSame(stages);
  }

  // ---- what a run says ----

  predicate DistinctIds(specs: seq<StageSpec>) {
    forall i, j | 0 <= i < j < |specs| :: specs[i].id != specs[j].id
  }

  predicate AllSupplied(specs: seq<StageSpec>, inputs: map<string, StageInput>, leaks: StageInput -> bool) {
    forall s | s in specs :: Supplied(s, inputs, leaks)
  }

  predicate ChecksPass(spec: StageSpec, inputs: map<string, StageInput>) {
    spec.id in inputs && FailedChecks(inputs[spec.id]) == {}
  }

  ghost predicate NeedsEarlier(specs: seq<StageSpec>, k: nat)
    requires k < |specs|
  {
    forall dep | dep in specs[k].needs :: exists j | 0 <= j < k :: specs[j].id == dep
  }

  /** The first `n` stages ran in order and all passed. */
  ghost predicate Ran(specs: seq<StageSpec>, n: nat, done: seq<StageResult>) {
    n <= |specs| && |done| == n && forall k | 0 <= k < n :: done[k].stageId == specs[k].id && done[k].passed
  }

  lemma NeedsMetIff(specs: seq<StageSpec>, n: nat, done: seq<StageResult>)
    requires n < |specs| && Ran(specs, n, done)
    ensures NeedsMet(specs[n], done) <==> NeedsEarlier(specs, n)
  {
    forall dep ensures Passed(dep, done) <==> exists j | 0 <= j < n :: specs[j].id == dep {
      if Passed(dep, done) {
        var r :| r in done && r.stageId == dep && r.passed;
        var j :| 0 <= j < n && done[j] == r;
        assert specs[j].id == dep;
      }
      if exists j | 0 <= j < n :: specs[j].id == dep {
        var j :| 0 <= j < n && specs[j].id == dep;
        assert done[j] in done;
      }
    }
  }

  /** How a run that starts at stage `n` ends. */
  ghost predicate Ends(specs: seq<StageSpec>, n: nat, inputs: map<string, StageInput>, r: PipelineResult)
    requires n <= |specs|
  {
    && n <= |r.stages| <= |specs|
    && (forall k | 0 <= k < |r.stages| :: r.stages[k].stageId == specs[k].id)
    && (forall k | 0 <= k < |r.stages| - 1 :: r.stages[k].passed)
    && (r.passed <==> forall k | n <= k < |specs| :: ChecksPass(specs[k], inputs) && NeedsEarlier(specs, k))
    && (if r.passed then r.stoppedAt == None && |r.stages| == |specs| && (forall k | 0 <= k < |specs| :: r.stages[k].passed)
        else if r.stages != [] && !r.stages[|r.stages| - 1].passed then r.stoppedAt == Some(specs[|r.stages| - 1].id)
        else |r.stages| < |specs| && r.stoppedAt == Some(specs[|r.stages|].id) && !NeedsEarlier(specs, |r.stages|))
  }

  lemma {:induction false} OutcomeEnds(
    specs: seq<StageSpec>, n: nat, done: seq<StageResult>, inputs: map<string, StageInput>, leaks: StageInput -> bool)
    requires AllSupplied(specs, inputs, leaks) && Ran(specs, n, done)
    ensures var r := Outcome(specs[n..], done, inputs, leaks); r.Ok? && Ends(specs, n, inputs, r.value)
    decreases |specs| - n
  {
    hide NeedsMet, FailedChecks, ValidInput;
    if n < |specs| {
      assert specs[n..][0] == specs[n] && specs[n..][1..] == specs[n + 1..];
      assert specs[n] in specs && Supplied(specs[n], inputs, leaks);
      NeedsMetIff(specs, n, done);
      if NeedsEarlier(specs, n) {
        var result := ResultOf(specs[n], inputs[specs[n].id]);
        assert result.passed <==> ChecksPass(specs[n], inputs);
        if result.passed {
          OutcomeEnds(specs, n + 1, done + [result], inputs, leaks);
          var r := Outcome(specs[n..], done, inputs, leaks).value;
          assert r == Outcome(specs[n + 1..], done + [result], inputs, leaks).value;
        }
      }
    }
  }

  /** With valid inputs the pipeline passes exactly when every check of every stage is true and
      every requirement names an earlier stage; otherwise its results are a prefix of the stage
      order in which only the last may have failed, and it says where it stopped. */
  lemma PipelineEnds(specs: seq<StageSpec>, inputs: map<string, StageInput>, leaks: StageInput -> bool)
    requires AllSupplied(specs, inputs, leaks)
    ensures var r := Outcome(specs, [], inputs, leaks); r.Ok? && Ends(specs, 0, inputs, r.value)
  {
    assert specs[0..] == specs;
    OutcomeEnds(specs, 0, [], inputs, leaks);
  }

  // ---- resume ----

  datatype Status = PassStatus | FailStatus

  /** The statuses a caller keeps from a run; a stage that did not run has none. */
  function StatusesOf(results: seq<StageResult>): map<string, Status> {
    if results == [] then map[] else
      var n := |results| - 1;
      StatusesOf(results[..n])[results[n].stageId := if results[n].passed then PassStatus else FailStatus]
  }

  predicate StatusPass(id: string, statuses: map<string, Status>) {
    id in statuses && statuses[id].PassStatus?
  }

  function FirstIncomplete(ids: seq<string>, statuses: map<string, Status>): Option<string> {
    if ids == [] then None
    else if StatusPass(ids[0], statuses) then FirstIncomplete(ids[1..], statuses)
    else Some(ids[0])
  }

  /** Resume is granted at the first stage without a pass, and nowhere else. */
  method ValidateResume(ids: seq<string>, prior: Option<map<string, Status>>, requested: Option<string>)
    returns (r: Result<Option<string>>)
    ensures r.Ok? <==> requested == (if prior.None? then None else FirstIncomplete(ids, prior.value))
    ensures r.Ok? ==> r.value == requested
  {
    if prior.None? {
      if requested.Some? { return Err("resume stage cannot be requested without prior stage status"); }
      return Ok(None);
    }
    var first: Option<string> := None;
    var i := 0;
    while i < |ids|
      invariant 0 <= i <= |ids| && first == None
      invariant FirstIncomplete(ids, prior.value) == FirstIncomplete(ids[i..], prior.value)
    {
      assert ids[i..][1..] == ids[i + 1..];
      if !StatusPass(ids[i], prior.value) {
        first := Some(ids[i]);
        break;
      }
      i := i + 1;
    }
    if first.None? {
      if requested.Some? { return Err("fully passed run has no valid resume stage"); }
      return Ok(None);
    }
    if requested != first { return Err("retry/resume must start at first incomplete or failed stage"); }
    r := Ok(first);
  }

  function IdsOf(specs: seq<StageSpec>): (ids: seq<string>)
    ensures |ids| == |specs| && forall i | 0 <= i < |specs| :: ids[i] == specs[i].id
  {
    seq(|specs|, i requires 0 <= i < |specs| => specs[i].id)
  }

  lemma {:induction false} StatusAt(results: seq<StageResult>, id: string)
    requires forall i, j | 0 <= i < j < |results| :: results[i].stageId != results[j].stageId
    ensures StatusPass(id, StatusesOf(results)) <==> Passed(id, results)
    ensures id in StatusesOf(results) ==> exists r | r in results :: r.stageId == id
  {
    if results != [] {
      var n := |results| - 1;
      StatusAt(results[..n], id);
      assert results == results[..n] + [results[n]];
      forall r | r in results[..n] ensures r.stageId != results[n].stageId {
        var k :| 0 <= k < n && results[..n][k] == r;
      }
      if Passed(id, results[..n]) {
        var r :| r in results[..n] && r.stageId == id && r.passed;
        assert r in results;
      }
    }
  }

  lemma {:induction false} FirstIncompleteAt(ids: seq<string>, statuses: map<string, Status>, k: nat)
    requires k <= |ids| && (forall i | 0 <= i < k :: StatusPass(ids[i], statuses))
    requires k < |ids| ==> !StatusPass(ids[k], statuses)
    ensures FirstIncomplete(ids, statuses) == if k < |ids| then Some(ids[k]) else None
    decreases |ids|
  {
    if k > 0 { FirstIncompleteAt(ids[1..], statuses, k - 1); }
  }

  /** A stage of the run has a pass on record exactly when it is before the stopping point. */
  lemma PassedBefore(specs: seq<StageSpec>, results: seq<StageResult>, n: nat, i: nat)
    requires DistinctIds(specs) && |results| <= |specs| && i < |specs| && i <= n && n <= |results|
    requires forall k | 0 <= k < |results| :: results[k].stageId == specs[k].id && (results[k].passed <==> k < n)
    ensures StatusPass(specs[i].id, StatusesOf(results)) <==> i < n
  {
    StatusAt(results, specs[i].id);
    if i < n { assert results[i] in results; }
    if Passed(specs[i].id, results) {
      var x :| x in results && x.stageId == specs[i].id && x.passed;
      var k :| 0 <= k < |results| && results[k] == x;
      assert specs[k].id == specs[i].id;
    }
  }

  /** Fed the statuses of a run, the resume check asks for exactly the stage the run stopped at. */
  lemma ResumesWhereStopped(specs: seq<StageSpec>, inputs: map<string, StageInput>, leaks: StageInput -> bool)
    requires AllSupplied(specs, inputs, leaks) && DistinctIds(specs)
    ensures var r := Outcome(specs, [], inputs, leaks);
            r.Ok? && FirstIncomplete(IdsOf(specs), StatusesOf(r.value.stages)) == r.value.stoppedAt
  {
    PipelineEnds(specs, inputs, leaks);
    var r := Outcome(specs, [], inputs, leaks).value;
    hide Outcome, AllSupplied, StatusPass, StatusesOf, FirstIncomplete, DistinctIds, NeedsEarlier, ChecksPass;
    var n := if r.stages != [] && !r.stages[|r.stages| - 1].passed then |r.stages| - 1 else |r.stages|;
    forall i | 0 <= i < |specs| && i <= n ensures StatusPass(specs[i].id, StatusesOf(r.stages)) <==> i < n {
      PassedBefore(specs, r.stages, n, i);
    }
    FirstIncompleteAt(IdsOf(specs), StatusesOf(r.stages), n);
  }
}
