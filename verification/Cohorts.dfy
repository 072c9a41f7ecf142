/** Staged publication cohorts: exact slices of the sorted fleet. */
module Cohorts {
  import opened Basics
  import opened Order

  /** A stage of the publication policy; `size` is None for all that remain. */
  datatype Stage = Stage(size: Option<nat>, priorRequired: bool)

  function IdKey(id: string): Key {
    [id]
  }

  predicate CanonicalId(id: string) {
    "STH-" <= id
  }

  predicate ValidFleet(eligible: seq<string>) {
    DistinctKeys(eligible, IdKey) && forall p | p in eligible :: CanonicalId(p)
  }

  function Remaining(eligible: seq<string>, prior: seq<string>): seq<string> {
    Filter(SortBy(eligible, IdKey), (p: string) => p !in prior)
  }

  function FreezeCohort(eligible: seq<string>, prior: seq<string>, stage: Stage): Result<seq<string>> {
    if !DistinctKeys(eligible, IdKey) then Err("duplicate eligible property ids")
    else if exists p | p in eligible :: !CanonicalId(p) then Err("invalid canonical property id in eligibility set")
    else if stage.priorRequired && prior == [] then Err("prior cohort evidence is required")
    else
      var remaining := Remaining(eligible, prior);
      var wanted := if stage.size.Some? then stage.size.value else |remaining|;
      if |remaining| < wanted then Err("insufficient eligible properties for exact cohort")
      else if remaining[..wanted] == [] then Err("publication cohort cannot be empty")
      else Ok(remaining[..wanted])
  }

  /** The stages in order, each given all earlier cohorts as prior. */
  function RunStages(eligible: seq<string>, prior: seq<string>, plan: seq<Stage>): Result<seq<seq<string>>>
    decreases |plan|
  {
    if plan == [] then Ok([])
    else
      match FreezeCohort(eligible, prior, plan[0])
      case Err(e) => Err(e)
      case Ok(cohort) =>
        match RunStages(eligible, prior + cohort, plan[1..])
        case Err(e) => Err(e)
        case Ok(rest) => Ok([cohort] + rest)
  }

  function Joined(cohorts: seq<seq<string>>): seq<string> {
    if cohorts == [] then [] else cohorts[0] + Joined(cohorts[1..])
  }

  // ---- a cohort is a slice ----

  lemma NotEarlier(s: seq<string>, k: nat, i: nat)
    requires DistinctKeys(s, IdKey) && k <= i < |s|
    ensures s[i] !in s[..k]
  {
    forall j | 0 <= j < k ensures s[..k][j] != s[i] {
      assert IdKey(s[j]) != IdKey(s[i]);
    }
  }

  lemma {:induction false} FilterSuffix(s: seq<string>, k: nat, keep: string -> bool)
    requires k <= |s| && forall i | 0 <= i < |s| :: keep(s[i]) <==> i >= k
    ensures Filter(s, keep) == s[k..]
    decreases |s|
  {
    if s != [] {
      var rest := if k == 0 then 0 else k - 1;
      assert forall i | 0 <= i < |s[1..]| :: s[1..][i] == s[i + 1];
      FilterSuffix(s[1..], rest, keep);
      if k == 0 { assert s == [s[0]] + s[1..]; } else { assert s[1..][rest..] == s[k..]; }
    }
  }

  lemma RemainingIsSuffix(eligible: seq<string>, k: nat)
    requires DistinctKeys(eligible, IdKey) && k <= |SortBy(eligible, IdKey)|
    ensures Remaining(eligible, SortBy(eligible, IdKey)[..k]) == SortBy(eligible, IdKey)[k..]
  {
    var fleet := SortBy(eligible, IdKey);
    SortStrict(eligible, IdKey);
    assert DistinctKeys(fleet, IdKey);
    hide SortBy, StrictlySorted, DistinctKeys;
    var prior := fleet[..k];
    var keep := (p: string) => p !in prior;
    forall i | 0 <= i < |fleet| ensures keep(fleet[i]) <==> i >= k {
      if i < k { assert prior[i] == fleet[i]; } else { NotEarlier(fleet, k, i); }
    }
    FilterSuffix(fleet, k, keep);
  }

  /** How far a stage reaches when `k` of `total` properties have gone out. */
  function Reach(stage: Stage, k: nat, total: nat): nat
    requires k <= total
  {
    if stage.size.Some? then k + stage.size.value else total
  }

  predicate Possible(stage: Stage, k: nat, total: nat)
    requires k <= total
  {
    k < Reach(stage, k, total) <= total && (stage.priorRequired ==> k > 0)
  }

  /** The next cohort after `k` properties is the next slice of the sorted fleet. */
  lemma NextCohort(eligible: seq<string>, k: nat, stage: Stage)
    requires ValidFleet(eligible) && k <= |SortBy(eligible, IdKey)|
    ensures var fleet := SortBy(eligible, IdKey); var r := FreezeCohort(eligible, fleet[..k], stage);
            && (r.Ok? <==> Possible(stage, k, |fleet|))
            && (r.Ok? ==> r.value == fleet[k..Reach(stage, k, |fleet|)])
  {
    RemainingIsSuffix(eligible, k);
    hide SortBy, Remaining, DistinctKeys, CanonicalId;
    var fleet := SortBy(eligible, IdKey);
    var wanted := if stage.size.Some? then stage.size.value else |fleet| - k;
    if k + wanted <= |fleet| { assert fleet[k..][..wanted] == fleet[k..k + wanted]; }
  }

  predicate Feasible(plan: seq<Stage>, k: nat, total: nat)
    requires k <= total
  {
    plan == [] || (Possible(plan[0], k, total) && Feasible(plan[1..], Reach(plan[0], k, total), total))
  }

  function Slices(fleet: seq<string>, k: nat, plan: seq<Stage>): (cs: seq<seq<string>>)
    requires k <= |fleet| && Feasible(plan, k, |fleet|)
    ensures |cs| == |plan|
    decreases |plan|
  {
    if plan == [] then [] else
      var j := Reach(plan[0], k, |fleet|);
      [fleet[k..j]] + Slices(fleet, j, plan[1..])
  }

  /** A whole staged run cuts the sorted fleet into consecutive slices, and succeeds exactly
      when every stage finds enough properties left. */
  lemma {:induction false} StagesAreSlices(eligible: seq<string>, k: nat, plan: seq<Stage>)
    requires ValidFleet(eligible) && k <= |SortBy(eligible, IdKey)|
    ensures var fleet := SortBy(eligible, IdKey); var r := RunStages(eligible, fleet[..k], plan);
            && (r.Ok? <==> Feasible(plan, k, |fleet|))
            && (r.Ok? ==> r.value == Slices(fleet, k, plan))
    decreases |plan|
  {
    hide SortBy, FreezeCohort, ValidFleet;
    if plan != [] {
      var fleet := SortBy(eligible, IdKey);
      NextCohort(eligible, k, plan[0]);
      if Possible(plan[0], k, |fleet|) {
        var j := Reach(plan[0], k, |fleet|);
        assert fleet[..k] + fleet[k..j] == fleet[..j];
        StagesAreSlices(eligible, j, plan[1..]);
      }
    }
  }

  lemma {:induction false} SlicesJoin(fleet: seq<string>, k: nat, plan: seq<Stage>)
    requires k <= |fleet| && Feasible(plan, k, |fleet|)
    requires plan != [] ==> plan[|plan| - 1].size.None?
    requires plan == [] ==> k == |fleet|
    ensures Joined(Slices(fleet, k, plan)) == fleet[k..]
    decreases |plan|
  {
    if plan != [] {
      var j := Reach(plan[0], k, |fleet|);
      if |plan| > 1 { assert plan[1..][|plan| - 2] == plan[|plan| - 1]; }
      SlicesJoin(fleet, j, plan[1..]);
      assert fleet[k..j] + fleet[j..] == fleet[k..];
    }
  }

  // ---- the shipped policy ----

  function ShippedPlan(): seq<Stage> {
    [Stage(Some(25), false), Stage(Some(100), true), Stage(Some(500), true), Stage(None, true)]
  }

  lemma ShippedFeasible(total: nat)
    ensures Feasible(ShippedPlan(), 0, total) <==> total > 625
  {
    var p := ShippedPlan();
    assert p[1..][0] == p[1] && p[1..][1..][0] == p[2] && p[1..][1..][1..][0] == p[3];
    assert p[1..][1..][1..][1..] == [];
    assert Reach(p[0], 0, total) == 25;
    if total >= 25 {
      assert Reach(p[1], 25, total) == 125;
      if total >= 125 {
        assert Reach(p[2], 125, total) == 625;
        if total >= 625 {
          assert Feasible(p[1..][1..][1..], 625, total) <==> total > 625;
          assert Feasible(p[1..][1..], 125, total) <==> total > 625;
        }
        assert Feasible(p[1..], 25, total) <==> total > 625;
      }
    }
  }

  /** The four cohorts freeze exactly when the fleet holds more than 625 properties; they have
      the exact sizes, are disjoint, and joined in order are the sorted fleet. */
  lemma StagesCutTheFleet(eligible: seq<string>)
    requires ValidFleet(eligible)
    ensures var fleet, r := SortBy(eligible, IdKey), RunStages(eligible, [], ShippedPlan());
            && (r.Ok? <==> |eligible| > 625)
            && (r.Ok? ==>
                  && |r.value| == 4 && |r.value[0]| == 25 && |r.value[1]| == 100 && |r.value[2]| == 500
                  && Joined(r.value) == fleet)
            && DistinctKeys(fleet, IdKey)
  {
    var fleet := SortBy(eligible, IdKey);
    SortFacts(eligible, IdKey);
    SortStrict(eligible, IdKey);
    assert DistinctKeys(fleet, IdKey);
    hide SortBy, StrictlySorted, DistinctKeys, Sorted, SameElements, RunStages, Feasible;
    assert fleet[..0] == [];
    StagesAreSlices(eligible, 0, ShippedPlan());
    ShippedFeasible(|fleet|);
    if |fleet| > 625 {
      SlicesJoin(fleet, 0, ShippedPlan());
      assert fleet[0..] == fleet;
      ShippedSizes(fleet);
    }
  }

  lemma ShippedSizes(fleet: seq<string>)
    requires Feasible(ShippedPlan(), 0, |fleet|)
    ensures var cs := Slices(fleet, 0, ShippedPlan()); |cs[0]| == 25 && |cs[1]| == 100 && |cs[2]| == 500
  {
    var p := ShippedPlan();
    assert p[1..][0] == p[1] && p[1..][1..][0] == p[2];
    var rest := Slices(fleet, 25, p[1..]);
    assert Slices(fleet, 0, p) == [fleet[0..25]] + rest;
    var last := Slices(fleet, 125, p[1..][1..]);
    assert rest == [fleet[25..125]] + last;
    assert last[0] == fleet[125..625];
  }
}
