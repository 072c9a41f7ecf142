/** The exception ledger: evaluation and audit, accounting between ledgers, repair replay. */
module Exceptions {
  import opened Basics
  import opened Order

  datatype RepairState = Open | Quarantined | RepairPending | RepairedPendingReplay | ReplayValidated | Closed

  datatype Record = Record(
    exceptionId: string, propertyId: string, scopeKey: string, exceptionClass: string,
    repairState: RepairState, owningLayer: string, waiverRequested: bool,
    supersedes: Option<string>, repairEvidence: bool)

  datatype ClassPolicy = ClassPolicy(owningLayer: string, isDefect: bool, quarantineRequired: bool, publicationAllowed: bool)

  datatype KnownException = KnownException(propertyId: string, scopeKey: string, exceptionClass: string)

  datatype Policy = Policy(classes: map<string, ClassPolicy>, nonDefectClasses: set<string>, known: KnownException)

  datatype Decision = Decision(exceptionId: string, isDefect: bool, quarantineRequired: bool, publicationAllowed: bool)

  function RecordKey(r: Record): Key {
    [r.exceptionId]
  }

  predicate UnderRepair(s: RepairState) {
    s == Quarantined || s == RepairPending || s == RepairedPendingReplay
  }

  function EvaluateException(r: Record, policy: Policy): (d: Result<Decision>)
    ensures d.Ok? ==> r.exceptionClass in policy.classes
    ensures d.Ok? ==> (d.value.publicationAllowed <==>
                       policy.classes[r.exceptionClass].publicationAllowed && !UnderRepair(r.repairState))
  {
    if r.exceptionClass !in policy.classes then Err("unknown exception class")
    else
      var c := policy.classes[r.exceptionClass];
      if r.owningLayer != c.owningLayer then Err("exception owning layer mismatch")
      else
        var waived := if r.waiverRequested && !c.publicationAllowed then false else c.publicationAllowed;
        Ok(Decision(r.exceptionId, c.isDefect && r.exceptionClass !in policy.nonDefectClasses, c.quarantineRequired,
                    if UnderRepair(r.repairState) then false else waived))
  }

  // ---- audit ----

  datatype Audit = Audit(records: nat, defects: nat, quarantined: nat, nonDefects: nat, publicationAllowed: nat)

  predicate IsKnown(r: Record, known: KnownException) {
    r.propertyId == known.propertyId && r.scopeKey == known.scopeKey && r.exceptionClass == known.exceptionClass
  }

  function Tally(a: Audit, d: Decision): Audit {
    Audit(a.records + 1, a.defects + (if d.isDefect then 1 else 0), a.quarantined + (if d.quarantineRequired then 1 else 0),
          a.nonDefects + (if d.isDefect then 0 else 1), a.publicationAllowed + (if d.publicationAllowed then 1 else 0))
  }

  function Counted(rs: seq<Record>, policy: Policy): Audit {
    if rs == [] then Audit(0, 0, 0, 0, 0)
    else
      var a := Counted(rs[..|rs| - 1], policy);
      match EvaluateException(rs[|rs| - 1], policy)
      case Err(_) => a
      case Ok(d) => Tally(a, d)
  }

  /** A record may stand in an audited ledger. */
  predicate Acceptable(r: Record, policy: Policy) {
    EvaluateException(r, policy).Ok? && (IsKnown(r, policy.known) && r.repairState.Closed? ==> r.repairEvidence)
  }

  predicate AllAcceptable(rs: seq<Record>, policy: Policy) {
    forall r | r in rs :: Acceptable(r, policy)
  }

  predicate HoldsKnown(rs: seq<Record>, policy: Policy) {
    exists r | r in rs :: IsKnown(r, policy.known)
  }

  method AuditExceptionLedger(rs: seq<Record>, policy: Policy) returns (r: Result<Audit>)
    ensures r.Ok? <==> DistinctKeys(rs, RecordKey) && AllAcceptable(rs, policy) && HoldsKnown(rs, policy)
    ensures r.Ok? ==> r.value == Counted(rs, policy)
  {
    hide EvaluateException, IsKnown, Tally;
    var seen: set<string> := {};
    var audit := Audit(0, 0, 0, 0, 0);
    var knownPresent := false;
    assert rs[..0] == [];
    for i := 0 to |rs|
      invariant DistinctKeys(rs[..i], RecordKey) && AllAcceptable(rs[..i], policy)
      invariant seen == set k | 0 <= k < i :: rs[k].exceptionId
      invariant knownPresent == HoldsKnown(rs[..i], policy)
      invariant audit == Counted(rs[..i], policy)
    {
      var record := rs[i];
      assert record in rs;
      if record.exceptionId in seen {
        var k :| 0 <= k < i && rs[k].exceptionId == record.exceptionId;
        assert RecordKey(rs[k]) == RecordKey(rs[i]);
        return Err("duplicate exception_id");
      }
      seen := seen + {record.exceptionId};
      var decision := EvaluateException(record, policy);
      if decision.Err? { return Err(decision.error); }
      if IsKnown(record, policy.known) {
        knownPresent := true;
        if record.repairState.Closed? && !record.repairEvidence {
          return Err("known governed exception cannot close without repair evidence");
        }
      }
      audit := Tally(audit, decision.value);
      AuditStep(rs, i, policy);
    }
    assert rs[..|rs|] == rs;
    if !knownPresent { return Err("known governed frontage exception missing from ledger"); }
    r := Ok(audit);
  }

  lemma AuditStep(rs: seq<Record>, i: nat, policy: Policy)
    requires i < |rs|
    ensures EvaluateException(rs[i], policy).Ok? ==>
              Counted(rs[..i + 1], policy) == Tally(Counted(rs[..i], policy), EvaluateException(rs[i], policy).value)
    ensures DistinctKeys(rs[..i], RecordKey) && (forall k | 0 <= k < i :: rs[k].exceptionId != rs[i].exceptionId)
            ==> DistinctKeys(rs[..i + 1], RecordKey)
    ensures AllAcceptable(rs[..i + 1], policy) <==> AllAcceptable(rs[..i], policy) && Acceptable(rs[i], policy)
    ensures HoldsKnown(rs[..i + 1], policy) <==> HoldsKnown(rs[..i], policy) || IsKnown(rs[i], policy.known)
  {
    hide EvaluateException, IsKnown, Tally, Acceptable;
    assert rs[..i + 1][..i] == rs[..i];
    assert rs[..i + 1] == rs[..i] + [rs[i]];
    var all := rs[..i + 1];
    if DistinctKeys(rs[..i], RecordKey) && forall k | 0 <= k < i :: rs[k].exceptionId != rs[i].exceptionId {
      forall j, k | 0 <= j < k < |all| ensures RecordKey(all[j]) != RecordKey(all[k]) {
        if k < i { assert RecordKey(rs[..i][j]) != RecordKey(rs[..i][k]); }
        else { assert RecordKey(all[j])[0] != RecordKey(all[k])[0]; }
      }
    }
  }

  /** Every audited record is counted as a defect or as a non-defect condition. */
  lemma {:induction false} CountsPartition(rs: seq<Record>, policy: Policy)
    requires AllAcceptable(rs, policy)
    ensures Counted(rs, policy).records == |rs|
    ensures Counted(rs, policy).defects + Counted(rs, policy).nonDefects == |rs|
  {
    if rs != [] {
      CountsPartition(rs[..|rs| - 1], policy);
      assert Acceptable(rs[|rs| - 1], policy);
    }
  }

  // ---- accounting ----

  ghost predicate Present(id: string, ledger: seq<Record>) {
    exists r | r in ledger :: r.exceptionId == id
  }

  /** A record that the dictionary of the ledger keeps supersedes `id`. */
  predicate Superseded(id: string, ledger: seq<Record>) {
    var byId := Dict(ledger, RecordKey);
    exists k | k in byId :: byId[k].supersedes == Some(id)
  }

  ghost predicate Accounted(previous: seq<Record>, current: seq<Record>) {
    forall r | r in previous :: Present(r.exceptionId, current) || Superseded(r.exceptionId, current)
  }

  /** The ids in the order they are checked. */
  function IdList(ids: set<string>): (s: seq<string>)
    ensures forall id :: id in s <==> id in ids
  {
    SortedKeysFacts(set id | id in ids :: [id]);
    FirstsFacts(SortedKeys(set id | id in ids :: [id]));
    Firsts(SortedKeys(set id | id in ids :: [id]))
  }

  method ValidateExceptionAccounting(previous: seq<Record>, current: seq<Record>) returns (r: Result<()>)
    ensures r.Ok? <==> Accounted(previous, current)
  {
    hide Superseded, Present, IdList;
    var before := set x | x in previous :: x.exceptionId;
    var after := set x | x in current :: x.exceptionId;
    PresentIds(current);
    var missing := IdList(before - after);
    for i := 0 to |missing|
      invariant forall k | 0 <= k < i :: Superseded(missing[k], current)
    {
      if !Superseded(missing[i], current) {
        assert missing[i] in missing && missing[i] in before;
        ghost var lost :| lost in previous && lost.exceptionId == missing[i];
        return Err("exception silently disappeared");
      }
    }
    forall x | x in previous ensures Present(x.exceptionId, current) || Superseded(x.exceptionId, current) {
      if x.exceptionId !in after {
        assert x.exceptionId in missing;
        var k :| 0 <= k < |missing| && missing[k] == x.exceptionId;
      }
    }
    r := Ok(());
  }

  lemma PresentIds(ledger: seq<Record>)
    ensures forall id :: Present(id, ledger) <==> id in set x | x in ledger :: x.exceptionId
  {
  }

  // ---- no exception is lost ----

  /** Some ledger of the history holds a record `next` that supersedes `id`. */
  ghost predicate Supersedes(next: string, id: string, ledgers: seq<seq<Record>>) {
    exists n, r | 0 <= n < |ledgers| && r in ledgers[n] :: r.exceptionId == next && r.supersedes == Some(id)
  }

  /** A finite chain of supersessions from the first exception to the last. */
  ghost predicate Chain(ids: seq<string>, ledgers: seq<seq<Record>>) {
    ids != [] && forall k | 0 <= k < |ids| - 1 :: Supersedes(ids[k + 1], ids[k], ledgers)
  }

  lemma NextInLedger(id: string, ledger: seq<Record>) returns (next: string)
    requires Superseded(id, ledger)
    ensures Present(next, ledger)
    ensures exists r | r in ledger :: r.exceptionId == next && r.supersedes == Some(id)
  {
    var byId := Dict(ledger, RecordKey);
    var k :| k in byId && byId[k].supersedes == Some(id);
    next := byId[k].exceptionId;
    assert byId[k] in ledger;
  }

  /** Along any history whose consecutive ledgers pass the accounting check, an exception ever
      recorded is in the last ledger or reaches a member of it through supersessions. */
  lemma {:induction false} NeverLost(ledgers: seq<seq<Record>>, i: nat, id: string) returns (ids: seq<string>)
    requires i < |ledgers| && Present(id, ledgers[i])
    requires forall n | 0 <= n < |ledgers| - 1 :: Accounted(ledgers[n], ledgers[n + 1])
    ensures Chain(ids, ledgers) && ids[0] == id && Present(ids[|ids| - 1], ledgers[|ledgers| - 1])
    decreases |ledgers| - i
  {
    if i == |ledgers| - 1 {
      ids := [id];
    } else {
      hide Superseded, Supersedes, Present;
      assert Accounted(ledgers[i], ledgers[i + 1]);
      AccountedFor(ledgers[i], ledgers[i + 1], id);
      if Present(id, ledgers[i + 1]) {
        ids := NeverLost(ledgers, i + 1, id);
      } else {
        var next := NextInLedger(id, ledgers[i + 1]);
        var rest := NeverLost(ledgers, i + 1, next);
        ids := [id] + rest;
        SupersedesIn(next, id, ledgers, i + 1);
        forall k | 0 <= k < |ids| - 1 ensures Supersedes(ids[k + 1], ids[k], ledgers) {
          if k > 0 { assert Supersedes(rest[k], rest[k - 1], ledgers); }
        }
      }
    }
  }

  lemma AccountedFor(previous: seq<Record>, current: seq<Record>, id: string)
    requires Accounted(previous, current) && Present(id, previous)
    ensures Present(id, current) || Superseded(id, current)
  {
    var r :| r in previous && r.exceptionId == id;
  }

  lemma SupersedesIn(next: string, id: string, ledgers: seq<seq<Record>>, n: nat)
    requires n < |ledgers| && exists r | r in ledgers[n] :: r.exceptionId == next && r.supersedes == Some(id)
    ensures Supersedes(next, id, ledgers)
  {
    var r :| r in ledgers[n] && r.exceptionId == next && r.supersedes == Some(id);
  }

  // ---- repair replay ----

  datatype ReplayAudit = ReplayAudit(changed: set<string>, kept: set<string>)

  function Changed(before: map<string, string>, after: map<string, string>): set<string> {
    set k | k in before && k in after && before[k] != after[k]
  }

  function ValidateRepairReplay(allowed: set<string>, before: map<string, string>, after: map<string, string>)
    : (r: Result<ReplayAudit>)
    ensures r.Ok? ==> r.value.changed + r.value.kept == before.Keys && r.value.changed * r.value.kept == {}
  {
    if before.Keys != after.Keys then Err("repair replay dependency key set drift")
    else
      var changed := Changed(before, after);
      if changed - allowed != {} then Err("repair replay changed unaffected dependencies")
      else if changed == {} then Err("repair replay produced no governed dependency change")
      else Ok(ReplayAudit(changed, before.Keys - changed))
  }

  lemma SameOutside(allowed: set<string>, before: map<string, string>, after: map<string, string>, k: string)
    requires before - allowed == after - allowed && k in before && k in after && k !in allowed
    ensures before[k] == after[k]
  {
    assert before[k] == (before - allowed)[k];
    assert after[k] == (after - allowed)[k];
  }

  /** A replay is accepted exactly when it changes something and nothing outside the allowed
      dependencies: outside them the two states are one. */
  lemma ReplayAcceptedIff(allowed: set<string>, before: map<string, string>, after: map<string, string>)
    ensures ValidateRepairReplay(allowed, before, after).Ok?
            <==> before.Keys == after.Keys && before != after && before - allowed == after - allowed
  {
    if before.Keys == after.Keys {
      assert before == after <==> Changed(before, after) == {} by {
        if Changed(before, after) == {} {
          forall k | k in before ensures before[k] == after[k] { assert k !in Changed(before, after); }
        }
      }
      if Changed(before, after) - allowed == {} {
        forall k | k in before && k !in allowed ensures before[k] == after[k] {
          assert k !in Changed(before, after) - allowed;
        }
        assert (before - allowed).Keys == (after - allowed).Keys;
      }
      if before - allowed == after - allowed {
        forall k | k in Changed(before, after) ensures k in allowed {
          if k !in allowed { SameOutside(allowed, before, after, k); }
        }
      }
    }
  }
}
