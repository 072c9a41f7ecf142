/** Strategy dimensions: at most one eligible finding makes a dimension current. */
module Strategy {
  import opened Basics

  datatype Status = Current | Suppressed | Missing

  datatype Finding = Finding(
    findingId: string, state: string, summary: string, baselineCertified: bool,
    qaStatus: string, outputTier: string, freshness: string)

  datatype Required = Required(qaStatus: string, outputTier: string, freshness: string)

  datatype Dimension = Dimension(name: string, status: Status, state: Option<string>, suppressed: seq<Finding>)

  predicate Eligible(f: Finding, required: Required) {
    f.baselineCertified && f.qaStatus == required.qaStatus && f.outputTier == required.outputTier
    && f.freshness == required.freshness
  }

  predicate Admissible(f: Finding, allowed: set<string>) {
    f.state in allowed && f.baselineCertified
  }

  function EligibleOf(rows: seq<Finding>, required: Required, eligible: bool): seq<Finding> {
    if rows == [] then [] else
      var n := |rows| - 1;
      EligibleOf(rows[..n], required, eligible) + if Eligible(rows[n], required) == eligible then [rows[n]] else []
  }

  predicate BuildableDimension(rows: seq<Finding>, allowed: set<string>, required: Required) {
    && (forall f | f in rows :: Admissible(f, allowed))
    && |EligibleOf(rows, required, true)| <= 1
    && (forall f | f in EligibleOf(rows, required, true) :: f.summary != "")
  }

  /** Only a current dimension has a state: the state of its one eligible finding. A dimension
      is missing when there is no finding at all, and suppressed when none is eligible. */
  method BuildDimension(name: string, rows: seq<Finding>, allowed: set<string>, required: Required)
    returns (r: Result<Dimension>)
    ensures r.Ok? <==> BuildableDimension(rows, allowed, required)
    ensures r.Ok? ==>
              var current := EligibleOf(rows, required, true);
              && r.value.name == name && r.value.suppressed == EligibleOf(rows, required, false)
              && (r.value.status.Current? <==> current != [])
              && r.value.state == (if current != [] then Some(current[0].state) else None)
              && (r.value.status.Missing? <==> rows == [])
  {
    var current: seq<Finding> := [];
    var suppressed: seq<Finding> := [];
    for i := 0 to |rows|
      invariant forall f | f in rows[..i] :: Admissible(f, allowed)
      invariant current == EligibleOf(rows[..i], required, true)
      invariant suppressed == EligibleOf(rows[..i], required, false)
    {
      assert rows[..i + 1][..i] == rows[..i];
      assert rows[i] in rows;
      if rows[i].state !in allowed { return Err("unsupported governed state"); }
      if !rows[i].baselineCertified { return Err("uncertified community baseline input prohibited"); }
      if Eligible(rows[i], required) { current := current + [rows[i]]; } else { suppressed := suppressed + [rows[i]]; }
    }
    assert rows[..|rows|] == rows;
    EverySorted(rows, required);
    if |current| > 1 { return Err("multiple current governed findings"); }
    if current != [] {
      if current[0].summary == "" {
        assert current[0] in current;
        return Err("current finding summary required");
      }
      r := Ok(Dimension(name, Current, Some(current[0].state), suppressed));
    } else {
      r := Ok(Dimension(name, if suppressed != [] then Suppressed else Missing, None, suppressed));
    }
  }

  /** Every finding is eligible or suppressed. */
  lemma {:induction false} EverySorted(rows: seq<Finding>, required: Required)
    ensures |EligibleOf(rows, required, true)| + |EligibleOf(rows, required, false)| == |rows|
  {
    if rows != [] { EverySorted(rows[..|rows| - 1], required); }
  }
}
