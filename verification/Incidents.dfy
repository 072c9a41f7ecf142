/** Incidents detected in the workspace and what the holds they allow contain. */
module Incidents {
  import opened Basics
  import opened Order
  import opened Execution
  import opened Reconciliation
  import opened Holds
  import opened Workspace

  function KindText(k: Kind): string {
    match k
    case DegradedAdapter => "ADAPTER_DEGRADED"
    case UnavailableAdapter => "ADAPTER_UNAVAILABLE"
    case UnknownResult => "OUTCOME_UNKNOWN"
    case UnreconciledCase => "OPEN_RECONCILIATION"
    case AuthorityAnomaly => "AUTHORITY_ANOMALY"
    case RepeatedUnknown => "REPEATED_OUTCOME_UNKNOWN"
  }

  /** When an item shows a condition. */
  predicate Shows(i: Item, k: Kind) {
    match k
    case DegradedAdapter => i.health.Degraded?
    case UnavailableAdapter => i.health.Unavailable?
    case UnknownResult => UnknownOutcome in i.blocking
    case UnreconciledCase => OpenReconciliation in i.blocking
    case AuthorityAnomaly => i.authorityExpired || (i.authorityStatus.Some? && i.authorityStatus.value !in {"VALID", "MISSING"})
    case RepeatedUnknown => false
  }

  function BlastRadius(i: Item, adapterIds: map<string, string>): set<Scope> {
    {ActionScope(i.proposal), ListingScope(i.listingId)}
    + if i.itemId in adapterIds then {AdapterScope(adapterIds[i.itemId])} else {}
  }

  /** The execution receipt in the item's lineage. */
  function ReceiptOf(i: Item): set<ReceiptFp> {
    match i.receipt case Some(fp) => {fp} case None => {}
  }

  function IncidentOf(i: Item, k: Kind, adapterIds: map<string, string>): Incident {
    Incident("INC-" + i.itemId + "-" + KindText(k), k, i.itemId, BlastRadius(i, adapterIds), ReceiptOf(i))
  }

  function ListingsOf(rows: seq<Item>): set<Scope> {
    set i | i in rows && Shows(i, UnknownResult) :: ListingScope(i.listingId)
  }

  function ReceiptsOf(rows: seq<Item>): set<ReceiptFp> {
    set i | i in rows && Shows(i, UnknownResult) && i.receipt.Some? :: i.receipt.value
  }

  predicate ShowsUnknown(i: Item) {
    Shows(i, UnknownResult)
  }

  function UnknownCount(rows: seq<Item>): nat {
    |Filter(rows, ShowsUnknown)|
  }

  function Repeated(rows: seq<Item>): Incident {
    Incident("INC-PORTFOLIO-REPEATED_OUTCOME_UNKNOWN", RepeatedUnknown, "PORTFOLIO", ListingsOf(rows), ReceiptsOf(rows))
  }

  function RowKey(i: Item): Key {
    [i.itemId]
  }

  function IncidentKey(i: Incident): Key {
    [i.incidentId]
  }

  /** The incidents are those of the conditions that items show, and one for the portfolio when
      two or more items have an unknown outcome. */
  method DetectIncidents(items: seq<Item>, adapterIds: map<string, string>) returns (incidents: seq<Incident>)
    ensures forall x :: x in incidents <==>
              || (exists i, k | i in items && Shows(i, k) :: x == IncidentOf(i, k, adapterIds))
              || (UnknownCount(items) >= 2 && x == Repeated(items))
    ensures Sorted(incidents, IncidentKey)
  {
    hide SortBy, Shows, IncidentOf, UnknownCount;
    var rows := SortBy(items, RowKey);
    SortFacts(items, RowKey);
    var found: seq<Incident> := [];
    var unknown := 0;
    assert UnknownCount(rows[..0]) == 0 by { NoneUnknown(rows); }
    for n := 0 to |rows|
      invariant forall x :: x in found <==> exists i, k | i in rows[..n] && Shows(i, k) :: x == IncidentOf(i, k, adapterIds)
      invariant unknown == UnknownCount(rows[..n])
    {
      assert rows[..n + 1] == rows[..n] + [rows[n]];
      CountStep(rows, n);
      var more := ItemIncidents(rows[n], adapterIds);
      if Shows(rows[n], UnknownResult) { unknown := unknown + 1; }
      found := found + more;
    }
    assert rows[..|rows|] == rows;
    assert UnknownCount(rows) == UnknownCount(items) by { CountPermuted(rows, items); }
    if unknown >= 2 {
      assert ListingsOf(rows) == ListingsOf(items) && ReceiptsOf(rows) == ReceiptsOf(items);
      found := found + [Repeated(rows)];
    }
    incidents := SortBy(found, IncidentKey);
    SortFacts(found, IncidentKey);
  }

  method ItemIncidents(i: Item, adapterIds: map<string, string>) returns (found: seq<Incident>)
    ensures forall x :: x in found <==> exists k | Shows(i, k) :: x == IncidentOf(i, k, adapterIds)
  {
    hide IncidentOf, Shows;
    var conditions := Conditions(i);
    found := [];
    for n := 0 to |conditions|
      invariant forall x :: x in found <==> exists k | k in conditions[..n] :: x == IncidentOf(i, k, adapterIds)
    {
      assert conditions[..n + 1] == conditions[..n] + [conditions[n]];
      found := found + [IncidentOf(i, conditions[n], adapterIds)];
    }
    assert conditions[..|conditions|] == conditions;
  }

  method Conditions(i: Item) returns (conditions: seq<Kind>)
    ensures forall k :: k in conditions <==> Shows(i, k)
  {
    conditions := [];
    if i.health.Degraded? { conditions := conditions + [DegradedAdapter]; }
    if i.health.Unavailable? { conditions := conditions + [UnavailableAdapter]; }
    if UnknownOutcome in i.blocking { conditions := conditions + [UnknownResult]; }
    if OpenReconciliation in i.blocking { conditions := conditions + [UnreconciledCase]; }
    if i.authorityExpired || (i.authorityStatus.Some? && i.authorityStatus.value !in {"VALID", "MISSING"}) {
      conditions := conditions + [AuthorityAnomaly];
    }
  }

  lemma NoneUnknown(rows: seq<Item>)
    ensures UnknownCount(rows[..0]) == 0
  {
    assert rows[..0] == [];
  }

  lemma CountStep(rows: seq<Item>, n: nat)
    requires n < |rows|
    ensures UnknownCount(rows[..n + 1]) == UnknownCount(rows[..n]) + if Shows(rows[n], UnknownResult) then 1 else 0
  {
    hide Shows;
    assert rows[..n + 1] == rows[..n] + [rows[n]];
    FilterConcat(rows[..n], [rows[n]], ShowsUnknown);
    FilterStep([rows[n]], ShowsUnknown);
    assert [rows[n]][1..] == [];
  }

  lemma CountPermuted(rows: seq<Item>, items: seq<Item>)
    requires multiset(rows) == multiset(items)
    ensures UnknownCount(rows) == UnknownCount(items)
  {
    FilterPermutation(rows, items, ShowsUnknown);
  }

  // ---- holds ----

  /** Any hold an item's incident allows refuses every execution of the item's proposal, on its
      listing and through its adapter: containment fails closed. */
  lemma HoldsContain(i: Item, k: Kind, adapterIds: map<string, string>, holdId: string, scope: Scope, holds: set<Hold>, a: Attempt, prior: seq<Receipt>)
    requires CreateHold(holdId, IncidentOf(i, k, adapterIds), scope).Ok?
    requires CreateHold(holdId, IncidentOf(i, k, adapterIds), scope).value in holds
    requires ProposalFp(a.proposal) == i.proposal && a.proposal.listingId == i.listingId
    requires i.itemId in adapterIds ==> a.request.adapterId == adapterIds[i.itemId]
    ensures GuardedDecide(holds, a, prior).Refuse?
  {
    hide KindText;
    var h := CreateHold(holdId, IncidentOf(i, k, adapterIds), scope).value;
    assert scope in BlastRadius(i, adapterIds);
    assert HoldMatches(h, a.proposal, a.request);
  }

  /** An unknown outcome anywhere in a chain is reported by the workspace as an incident under
      which the action itself can be held, and which is about the chain's one execution receipt. */
  lemma UnknownIsContainable(itemId: string, ch: Chain, health: Option<AdapterHealth>, now: Timestamp, staleAfter: int,
                             adapterIds: map<string, string>, holdId: string)
    requires ItemOf(itemId, ch, health, now, staleAfter).Ok? && HasUnknown(ch)
    ensures var i := ItemOf(itemId, ch, health, now, staleAfter).value;
            && Shows(i, UnknownResult) && CreateHold(holdId, IncidentOf(i, UnknownResult, adapterIds), ActionScope(ProposalFp(ch.proposal))).Ok?
            && ch.receipt.Some? && IncidentOf(i, UnknownResult, adapterIds).receipts == {ReceiptFp(ch.receipt.value)}
  {
    hide ChainRejection, OperationalState, HasUnknown, KindText, Blocks;
    UnknownHasReceipt(ch);
    BlocksCases(ch, health, now, staleAfter);
    assert UnknownOutcome in BlockingReasons(ch, health, now, staleAfter);
    hide BlockingReasons;
  }

  lemma UnknownHasReceipt(ch: Chain)
    requires ChainRejection(ch).None? && HasUnknown(ch)
    ensures ch.receipt.Some?
  {
    hide ActionRejection, ReceiptRejection;
    VerifiedHasReceipt(ch);
  }
}
