/** The seller decision timeline: transitions between strategy snapshots, the review events they
    raise, and the review items that follow. */
module Timeline {
  import opened Basics
  import opened Order
  import opened Numbers
  import opened Strategy

  datatype Trigger = Trigger(day: nat, triggered: bool)

  datatype StrategySnapshot = StrategySnapshot(
    subject: string, alternatives: string, pressure: string, dimensions: seq<Dimension>, triggers: seq<Trigger>,
    lineage: set<string>, fingerprint: string)

  datatype Scenario = Scenario(assumptions: set<string>, fingerprint: string, evidence: string, consistent: bool)

  datatype Snapshot = Snapshot(
    id: string, at: Timestamp, strategy: StrategySnapshot, certified: bool, evidence: string, scenario: Option<Scenario>)

  datatype Cell = Cell(status: Status, state: Option<string>)

  type Surface = map<string, Cell>

  datatype Transition =
    | RemainedMissing
    | RemainedSuppressed
    | BecameMissing
    | BecameSuppressed
    | NewlyCurrent
    | Unchanged
    | ChangedState

  datatype Change = Change(target: string, prior: Cell, current: Cell, transition: Transition)

  datatype Event = Event(snapshotId: string, reasons: set<(string, Transition)>)

  datatype Entry = Entry(
    snapshotId: string, at: Timestamp, priorId: Option<string>, changes: seq<Change>, event: Option<Event>,
    lineage: set<string>, hypothetical: set<string>)

  datatype SellerTimeline = SellerTimeline(subject: string, entries: seq<Entry>, currentId: string, supersededIds: seq<string>)

  // ---- transitions ----

  /** The surface is a dictionary: a later dimension or trigger of the same name replaces an
      earlier one. */
  function SurfaceOf(s: StrategySnapshot): Surface {
    WithTriggers(WithDimensions(map["BUYER_ALTERNATIVE_SET" := Cell(Current, Some(s.alternatives)),
                                    "COMPETITIVE_PRESSURE" := Cell(Current, Some(s.pressure))],
                                s.dimensions), s.triggers)
  }

  function WithDimensions(m: Surface, ds: seq<Dimension>): Surface {
    if ds == [] then m
    else WithDimensions(m, ds[..|ds| - 1])[ds[|ds| - 1].name := Cell(ds[|ds| - 1].status, ds[|ds| - 1].state)]
  }

  function WithTriggers(m: Surface, ts: seq<Trigger>): Surface {
    if ts == [] then m
    else
      var t := ts[|ts| - 1];
      WithTriggers(m, ts[..|ts| - 1])["REVIEW_DAY_" + Digits(t.day) :=
        Cell(Current, Some(if t.triggered then "TRIGGERED" else "NOT_TRIGGERED"))]
  }

  function TransitionOf(p: Cell, c: Cell): Transition {
    if p.status.Missing? && c.status.Missing? then RemainedMissing
    else if p.status.Suppressed? && c.status.Suppressed? then RemainedSuppressed
    else if c.status.Missing? && !p.status.Missing? then BecameMissing
    else if c.status.Suppressed? && !p.status.Suppressed? then BecameSuppressed
    else if c.status.Current? && !p.status.Current? then NewlyCurrent
    else if p.status == c.status && p.state == c.state then Unchanged
    else ChangedState
  }

  predicate RaisesReview(t: Transition) {
    t.ChangedState? || t.NewlyCurrent? || t.BecameMissing? || t.BecameSuppressed?
  }

  /** Only a current cell has a state. */
  predicate WellStated(c: Cell) {
    c.state.Some? ==> c.status.Current?
  }

  /** A transition raises a review exactly when the cells differ, except that the state of a cell
      that stays missing or suppressed is not looked at. */
  lemma ReviewExactlyWhen(p: Cell, c: Cell)
    ensures RaisesReview(TransitionOf(p, c)) <==> !(p.status == c.status && (p.state == c.state || !p.status.Current?))
    ensures WellStated(p) && WellStated(c) ==> (RaisesReview(TransitionOf(p, c)) <==> p != c)
  {
  }

  predicate SurfaceWellStated(m: Surface) {
    forall k | k in m :: WellStated(m[k])
  }

  predicate DimensionsWellStated(ds: seq<Dimension>) {
    forall d | d in ds :: d.state.Some? ==> d.status.Current?
  }

  lemma {:induction false} DimensionsStay(m: Surface, ds: seq<Dimension>)
    requires SurfaceWellStated(m) && DimensionsWellStated(ds)
    ensures SurfaceWellStated(WithDimensions(m, ds))
  {
    if ds != [] {
      assert ds[|ds| - 1] in ds;
      assert DimensionsWellStated(ds[..|ds| - 1]);
      DimensionsStay(m, ds[..|ds| - 1]);
    }
  }

  lemma {:induction false} TriggersStay(m: Surface, ts: seq<Trigger>)
    requires SurfaceWellStated(m)
    ensures SurfaceWellStated(WithTriggers(m, ts))
  {
    hide Digits;
    if ts != [] { TriggersStay(m, ts[..|ts| - 1]); }
  }

  /** The surface of a strategy whose dimensions were built is well stated. */
  lemma BuiltSurface(s: StrategySnapshot)
    requires DimensionsWellStated(s.dimensions)
    ensures SurfaceWellStated(SurfaceOf(s))
  {
    var m := map["BUYER_ALTERNATIVE_SET" := Cell(Current, Some(s.alternatives)),
                 "COMPETITIVE_PRESSURE" := Cell(Current, Some(s.pressure))];
    DimensionsStay(m, s.dimensions);
    TriggersStay(WithDimensions(m, s.dimensions), s.triggers);
  }

  // ---- entries ----

  function ChangesOf(p: Surface, c: Surface, tracked: seq<string>): seq<Change> {
    if tracked == [] then [] else
      var n := |tracked| - 1;
      ChangesOf(p, c, tracked[..n]) +
      if tracked[n] in p && tracked[n] in c then
        [Change(tracked[n], p[tracked[n]], c[tracked[n]], TransitionOf(p[tracked[n]], c[tracked[n]]))]
      else []
  }

  predicate Tracked(m: Surface, tracked: seq<string>) {
    (forall k | k in m :: k in tracked) && forall k | k in tracked :: k in m
  }

  function Reasons(changes: seq<Change>): set<(string, Transition)> {
    set c | c in changes && RaisesReview(c.transition) :: (c.target, c.transition)
  }

  function FactLineage(s: Snapshot): set<string> {
    s.strategy.lineage + {s.strategy.fingerprint, s.evidence}
  }

  function HypotheticalLineage(s: Snapshot): set<string> {
    match s.scenario
    case None => {}
    case Some(sc) => sc.assumptions + {sc.fingerprint, sc.evidence}
  }

  function EventOf(id: string, changes: seq<Change>): Option<Event> {
    if Reasons(changes) == {} then None else Some(Event(id, Reasons(changes)))
  }

  /** The entry of a snapshot after its predecessor; None when it is refused. */
  function EntryOf(prior: Option<Snapshot>, s: Snapshot, tracked: seq<string>): Option<Entry> {
    if FactLineage(s) * HypotheticalLineage(s) != {} then None
    else
      match prior
      case None => Some(Entry(s.id, s.at, None, [], None, FactLineage(s), HypotheticalLineage(s)))
      case Some(p) =>
        if !Tracked(SurfaceOf(p.strategy), tracked) || !Tracked(SurfaceOf(s.strategy), tracked) then None
        else
          var changes := ChangesOf(SurfaceOf(p.strategy), SurfaceOf(s.strategy), tracked);
          Some(Entry(s.id, s.at, Some(p.id), changes, EventOf(s.id, changes), FactLineage(s), HypotheticalLineage(s)))
  }

  function EntriesOf(rows: seq<Snapshot>, tracked: seq<string>): Option<seq<Entry>> {
    if rows == [] then Some([]) else
      var n := |rows| - 1;
      match EntriesOf(rows[..n], tracked)
      case None => None
      case Some(es) =>
        match EntryOf(if n == 0 then None else Some(rows[n - 1]), rows[n], tracked)
        case None => None
        case Some(e) => Some(es + [e])
  }

  function At(s: Snapshot): int {
    s.at.instant
  }

  function IdOf(s: Snapshot): string {
    s.id
  }

  // ---- the timeline ----

  predicate ValidSnapshot(s: Snapshot) {
    s.id != "" && s.certified && (s.scenario.Some? ==> s.scenario.value.consistent)
  }

  predicate DistinctSnapshotIds(s: seq<Snapshot>) {
    forall i, j | 0 <= i < j < |s| :: s[i].id != s[j].id
  }

  predicate Acceptable(rows: seq<Snapshot>) {
    && rows != [] && (forall s | s in rows :: ValidSnapshot(s)) && DistinctSnapshotIds(rows)
    && (forall s | s in rows :: s.strategy.subject == rows[0].strategy.subject)
    && DistinctTimes(SortByTime(rows, At, IdOf), At)
  }

  function TimelineOf(rows: seq<Snapshot>, tracked: seq<string>): Option<SellerTimeline> {
    if !Acceptable(rows) then None
    else
      match EntriesOf(SortByTime(rows, At, IdOf), tracked)
      case None => None
      case Some(es) => if es == [] then None else Some(TimelineFrom(rows[0].strategy.subject, es))
  }

  function TimelineFrom(subject: string, es: seq<Entry>): SellerTimeline
    requires es != []
  {
    SellerTimeline(subject, es, es[|es| - 1].snapshotId, IdsOf(es[..|es| - 1]))
  }

  function IdsOf(es: seq<Entry>): (ids: seq<string>)
    ensures |ids| == |es| && forall i | 0 <= i < |es| :: ids[i] == es[i].snapshotId
  {
    seq(|es|, i requires 0 <= i < |es| => es[i].snapshotId)
  }

  method BuildSellerDecisionTimeline(rows: seq<Snapshot>, tracked: seq<string>) returns (r: Result<SellerTimeline>)
    ensures r.Ok? <==> TimelineOf(rows, tracked).Some?
    ensures r.Ok? ==> Some(r.value) == TimelineOf(rows, tracked)
  {
    hide EntryOf, ValidSnapshot, SortByTime, DistinctTimes;
    if rows == [] { return Err("at least one certified strategy snapshot required"); }
    var seen: set<string> := {};
    for i := 0 to |rows|
      invariant forall s | s in rows[..i] :: ValidSnapshot(s) && s.strategy.subject == rows[0].strategy.subject
      invariant DistinctSnapshotIds(rows[..i])
      invariant seen == set k | 0 <= k < i :: rows[k].id
    {
      assert rows[i] in rows;
      assert rows[..i + 1] == rows[..i] + [rows[i]];
      if !ValidSnapshot(rows[i]) { return Err("snapshot is not a valid certified snapshot"); }
      if rows[i].id in seen { return Err("duplicate snapshot_id"); }
      seen := seen + {rows[i].id};
      if rows[i].strategy.subject != rows[0].strategy.subject {
        return Err("timeline snapshots must belong to one property");
      }
    }
    assert rows[..|rows|] == rows;
    var sorted := SortByTime(rows, At, IdOf);
    if !DistinctTimes(sorted, At) { return Err("timeline snapshot timestamps must be unique"); }
    var entries := BuildEntries(sorted, tracked);
    if entries.Err? { return Err(entries.error); }
    SortByTimeFacts(rows, At, IdOf);
    var es := entries.value;
    var superseded: seq<string> := IdsOf(es[..|es| - 1]);
    r := Ok(SellerTimeline(rows[0].strategy.subject, es, es[|es| - 1].snapshotId, superseded));
  }

  method BuildEntries(sorted: seq<Snapshot>, tracked: seq<string>) returns (r: Result<seq<Entry>>)
    ensures r.Ok? <==> EntriesOf(sorted, tracked).Some?
    ensures r.Ok? ==> Some(r.value) == EntriesOf(sorted, tracked) && |r.value| == |sorted|
  {
    hide EntryOf;
    var es: seq<Entry> := [];
    var prior: Option<Snapshot> := None;
    assert sorted[..0] == [];
    for i := 0 to |sorted|
      invariant EntriesOf(sorted[..i], tracked) == Some(es) && |es| == i
      invariant prior == if i == 0 then None else Some(sorted[i - 1])
    {
      assert sorted[..i + 1][..i] == sorted[..i];
      var e := EntryOf(prior, sorted[i], tracked);
      if e.None? {
        RefusalStays(sorted, i + 1, tracked);
        return Err("lineage collision or tracked strategy surface mismatch");
      }
      es := es + [e.value];
      prior := Some(sorted[i]);
    }
    assert sorted[..|sorted|] == sorted;
    r := Ok(es);
  }

  lemma {:induction false} RefusalStays(rows: seq<Snapshot>, i: nat, tracked: seq<string>)
    requires i <= |rows| && EntriesOf(rows[..i], tracked).None?
    ensures EntriesOf(rows, tracked).None?
    decreases |rows|
  {
    hide EntryOf;
    if i < |rows| {
      var n := |rows| - 1;
      assert rows[..n][..i] == rows[..i];
      RefusalStays(rows[..n], i, tracked);
    } else {
      assert rows[..i] == rows;
    }
  }

  // ---- main results ----

  lemma AcceptablePermuted(rows: seq<Snapshot>, others: seq<Snapshot>)
    requires multiset(rows) == multiset(others) && Acceptable(rows)
    ensures Acceptable(others) && SortByTime(rows, At, IdOf) == SortByTime(others, At, IdOf)
    ensures others[0].strategy.subject == rows[0].strategy.subject
  {
    hide ValidSnapshot, SortByTime, DistinctSnapshotIds;
    SameLength(rows, others);
    SortByTimeFacts(rows, At, IdOf);
    SortByTimeFacts(others, At, IdOf);
    ChronologicalUnique(SortByTime(rows, At, IdOf), SortByTime(others, At, IdOf), At);
    forall s | s in others ensures s in rows { assert s in multiset(others); }
    assert others[0] in others;
    DistinctIdsPermuted(rows, others);
  }

  lemma DistinctIdsPermuted(rows: seq<Snapshot>, others: seq<Snapshot>)
    requires multiset(rows) == multiset(others) && DistinctSnapshotIds(rows)
    ensures DistinctSnapshotIds(others)
  {
    forall i, j | 0 <= i < j < |others| ensures others[i].id != others[j].id {
      assert others[i] in multiset(rows) && others[j] in multiset(rows);
      var k :| 0 <= k < |rows| && rows[k] == others[i];
      var m :| 0 <= m < |rows| && rows[m] == others[j];
      if k == m {
        AtMostOnce(rows, others[i]);
        AtLeastTwice(others, i, j);
      }
    }
  }

  lemma {:induction false} AtMostOnce(rows: seq<Snapshot>, x: Snapshot)
    requires DistinctSnapshotIds(rows)
    ensures multiset(rows)[x] <= 1
  {
    if rows != [] {
      assert rows == [rows[0]] + rows[1..];
      AtMostOnce(rows[1..], x);
      if rows[0] == x {
        forall s | s in rows[1..] ensures s != x {
          var k :| 0 <= k < |rows[1..]| && rows[1..][k] == s;
          assert rows[0].id != rows[k + 1].id;
        }
        assert x !in multiset(rows[1..]);
      }
    }
  }

  lemma AtLeastTwice(others: seq<Snapshot>, i: nat, j: nat)
    requires i < j < |others| && others[i] == others[j]
    ensures multiset(others)[others[i]] >= 2
  {
    var rest := others[..j] + others[j + 1..];
    RemoveAt(others, j, rest);
    assert rest[i] == others[i] && rest[i] in multiset(rest);
  }

  /** The timeline does not depend on the order the snapshots come in. */
  lemma OrderDoesNotMatter(rows: seq<Snapshot>, others: seq<Snapshot>, tracked: seq<string>)
    requires multiset(rows) == multiset(others)
    ensures TimelineOf(rows, tracked) == TimelineOf(others, tracked)
  {
    hide EntriesOf, Acceptable, SortByTime;
    if Acceptable(rows) { AcceptablePermuted(rows, others); }
    if Acceptable(others) { AcceptablePermuted(others, rows); }
  }

  lemma {:induction false} EntriesFacts(rows: seq<Snapshot>, tracked: seq<string>, i: nat)
    requires EntriesOf(rows, tracked).Some? && i < |rows|
    ensures |EntriesOf(rows, tracked).value| == |rows|
    ensures EntryOf(if i == 0 then None else Some(rows[i - 1]), rows[i], tracked) == Some(EntriesOf(rows, tracked).value[i])
    decreases |rows|
  {
    hide EntryOf;
    var n := |rows| - 1;
    if n > 0 { EntriesFacts(rows[..n], tracked, if i < n then i else 0); }
  }

  lemma {:induction false} ChangesFacts(p: Surface, c: Surface, tracked: seq<string>)
    requires forall k | k in tracked :: k in p && k in c
    ensures forall k | k in tracked :: Change(k, p[k], c[k], TransitionOf(p[k], c[k])) in ChangesOf(p, c, tracked)
    ensures forall x | x in ChangesOf(p, c, tracked) ::
              x.target in tracked && x == Change(x.target, p[x.target], c[x.target], TransitionOf(p[x.target], c[x.target]))
  {
    hide TransitionOf;
    if tracked != [] {
      var n := |tracked| - 1;
      assert tracked == tracked[..n] + [tracked[n]];
      ChangesFacts(p, c, tracked[..n]);
    }
  }

  lemma ReasonsExactlyWhenDiffer(p: Surface, c: Surface, tracked: seq<string>)
    requires Tracked(p, tracked) && Tracked(c, tracked) && SurfaceWellStated(p) && SurfaceWellStated(c)
    ensures Reasons(ChangesOf(p, c, tracked)) != {} <==> p != c
  {
    ChangesFacts(p, c, tracked);
    hide TransitionOf, RaisesReview, ChangesOf;
    var changes := ChangesOf(p, c, tracked);
    forall k | k in tracked ensures RaisesReview(TransitionOf(p[k], c[k])) <==> p[k] != c[k] { ReviewExactlyWhen(p[k], c[k]); }
    if p != c {
      var k :| k in p && k in c && p[k] != c[k];
      var change := Change(k, p[k], c[k], TransitionOf(p[k], c[k]));
      assert change in changes && (change.target, change.transition) in Reasons(changes);
    }
    if Reasons(changes) != {} {
      var r :| r in Reasons(changes);
      var change :| change in changes && RaisesReview(change.transition) && r == (change.target, change.transition);
      assert p[change.target] != c[change.target];
    }
  }

  /** An entry after the first carries a review event exactly when its strategy surface differs
      from that of the snapshot before it. */
  lemma EventExactlyWhenChanged(rows: seq<Snapshot>, tracked: seq<string>, i: nat)
    requires EntriesOf(rows, tracked).Some? && i < |rows|
    requires forall s | s in rows :: DimensionsWellStated(s.strategy.dimensions)
    ensures |EntriesOf(rows, tracked).value| == |rows|
    ensures EntriesOf(rows, tracked).value[i].event.Some?
            <==> i > 0 && SurfaceOf(rows[i - 1].strategy) != SurfaceOf(rows[i].strategy)
    ensures EntriesOf(rows, tracked).value[i].snapshotId == rows[i].id
  {
    EntriesFacts(rows, tracked, i);
    hide EntriesOf, SurfaceOf, ChangesOf, Reasons, DimensionsWellStated;
    if i > 0 {
      assert rows[i - 1] in rows && rows[i] in rows;
      BuiltSurface(rows[i - 1].strategy);
      BuiltSurface(rows[i].strategy);
      ReasonsExactlyWhenDiffer(SurfaceOf(rows[i - 1].strategy), SurfaceOf(rows[i].strategy), tracked);
    }
  }

  // ---- review items ----

  datatype DecisionType = Acknowledge | Resolve | Defer | Other

  datatype Decision = Decision(id: string, reviewItem: Option<string>, kind: DecisionType, at: Timestamp)

  datatype ReviewStatus = Pending | Acknowledged | Resolved | Superseded

  datatype ReviewItem = ReviewItem(
    id: string, snapshotId: string, status: ReviewStatus, reasons: set<(string, Transition)>,
    acknowledgedBy: Option<string>, resolvedBy: Option<string>)

  datatype Review = Review(status: ReviewStatus, acknowledgedBy: Option<string>, resolvedBy: Option<string>)

  function DecidedAt(d: Decision): int {
    d.at.instant
  }

  function DecisionId(d: Decision): string {
    d.id
  }

  function ItemId(snapshotId: string): string {
    "REVIEW-" + snapshotId + "-REVIEW"
  }

  function Decide(r: Review, d: Decision): Review {
    match d.kind
    case Acknowledge => Review(Acknowledged, Some(d.id), r.resolvedBy)
    case Resolve => Review(Resolved, r.acknowledgedBy, Some(d.id))
    case Defer => Review(Pending, r.acknowledgedBy, r.resolvedBy)
    case Other => r
  }

  function Fold(ds: seq<Decision>): Review {
    if ds == [] then Review(Pending, None, None) else Decide(Fold(ds[..|ds| - 1]), ds[|ds| - 1])
  }

  function Related(item: string, decisions: seq<Decision>): seq<Decision> {
    SortByTime(Filter(decisions, (d: Decision) => d.reviewItem == Some(item)), DecidedAt, DecisionId)
  }

  function ItemOf(e: Entry, currentId: string, decisions: seq<Decision>): ReviewItem
    requires e.event.Some?
  {
    var id := ItemId(e.event.value.snapshotId);
    var review := Fold(Related(id, decisions));
    ReviewItem(id, e.snapshotId, if e.snapshotId != currentId && !review.status.Resolved? then Superseded else review.status,
               e.event.value.reasons, review.acknowledgedBy, review.resolvedBy)
  }

  function ItemsOf(es: seq<Entry>, currentId: string, decisions: seq<Decision>): seq<ReviewItem> {
    if es == [] then [] else
      var n := |es| - 1;
      ItemsOf(es[..n], currentId, decisions) + if es[n].event.Some? then [ItemOf(es[n], currentId, decisions)] else []
  }

  function ItemKey(i: ReviewItem): Key {
    [i.id]
  }

  method ReviewItems(t: SellerTimeline, decisions: seq<Decision>) returns (items: seq<ReviewItem>)
    ensures items == SortBy(ItemsOf(t.entries, t.currentId, decisions), ItemKey)
  {
    hide Related, ItemId;
    items := [];
    assert t.entries[..0] == [];
    for i := 0 to |t.entries|
      invariant items == ItemsOf(t.entries[..i], t.currentId, decisions)
    {
      var e := t.entries[i];
      assert t.entries[..i + 1][..i] == t.entries[..i];
      if e.event.Some? {
        var id := ItemId(e.event.value.snapshotId);
        var related := Related(id, decisions);
        var status, ack, resolved := Pending, None, None;
        for j := 0 to |related|
          invariant Review(status, ack, resolved) == Fold(related[..j])
        {
          assert related[..j + 1][..j] == related[..j];
          if related[j].kind.Acknowledge? {
            ack, status := Some(related[j].id), Acknowledged;
          } else if related[j].kind.Resolve? {
            resolved, status := Some(related[j].id), Resolved;
          } else if related[j].kind.Defer? {
            status := Pending;
          }
        }
        assert related[..|related|] == related;
        if e.snapshotId != t.currentId && status != Resolved { status := Superseded; }
        items := items + [ReviewItem(id, e.snapshotId, status, e.event.value.reasons, ack, resolved)];
      }
    }
    assert t.entries[..|t.entries|] == t.entries;
    items := SortBy(items, ItemKey);
  }

  predicate OpenItem(i: ReviewItem) {
    i.status.Pending? || i.status.Acknowledged?
  }

  lemma {:induction false} ItemsComeFrom(es: seq<Entry>, currentId: string, decisions: seq<Decision>, item: ReviewItem)
    requires item in ItemsOf(es, currentId, decisions)
    ensures exists k | 0 <= k < |es| :: es[k].event.Some? && item == ItemOf(es[k], currentId, decisions)
  {
    hide ItemOf;
    if es != [] {
      var n := |es| - 1;
      if item in ItemsOf(es[..n], currentId, decisions) {
        ItemsComeFrom(es[..n], currentId, decisions, item);
        var k :| 0 <= k < n && es[..n][k].event.Some? && item == ItemOf(es[..n][k], currentId, decisions);
        assert es[k] == es[..n][k];
      }
    }
  }

  lemma OpenIsCurrent(e: Entry, currentId: string, decisions: seq<Decision>)
    requires e.event.Some? && OpenItem(ItemOf(e, currentId, decisions))
    ensures e.snapshotId == currentId
  {
  }

  /** No item of an entry before the current one is open. */
  lemma {:induction false} NoneOpen(es: seq<Entry>, currentId: string, decisions: seq<Decision>)
    requires forall k | 0 <= k < |es| :: es[k].snapshotId != currentId
    ensures Filter(ItemsOf(es, currentId, decisions), OpenItem) == []
  {
    var open := Filter(ItemsOf(es, currentId, decisions), OpenItem);
    if open != [] {
      var item := open[0];
      assert item in open;
      ItemsComeFrom(es, currentId, decisions, item);
      var k :| 0 <= k < |es| && es[k].event.Some? && item == ItemOf(es[k], currentId, decisions);
      OpenIsCurrent(es[k], currentId, decisions);
    }
  }

  /** In every timeline that is built at most one review item is open, and it is the current
      snapshot's: reviews of superseded snapshots are closed whatever was decided. */
  lemma AtMostOneOpen(rows: seq<Snapshot>, tracked: seq<string>, decisions: seq<Decision>)
    requires TimelineOf(rows, tracked).Some?
    ensures var t := TimelineOf(rows, tracked).value; var items := SortBy(ItemsOf(t.entries, t.currentId, decisions), ItemKey);
            && |Filter(items, OpenItem)| <= 1
            && forall item | item in items && OpenItem(item) :: item.snapshotId == t.currentId
  {
    var t := TimelineOf(rows, tracked).value;
    var es, n := t.entries, |t.entries| - 1;
    EntriesDistinct(rows, tracked);
    hide TimelineOf, OpenItem, ItemOf, SortBy;
    var init, items := ItemsOf(es[..n], t.currentId, decisions), ItemsOf(es, t.currentId, decisions);
    NoneOpen(es[..n], t.currentId, decisions);
    FilterConcat(init, items[|init|..], OpenItem);
    assert items == init + items[|init|..] && |items[|init|..]| <= 1;
    SortFacts(items, ItemKey);
    FilterPermutation(SortBy(items, ItemKey), items, OpenItem);
    AtMostOneKept(items[|init|..]);
    forall item | item in items && OpenItem(item) ensures item.snapshotId == t.currentId {
      ItemsComeFrom(es, t.currentId, decisions, item);
      var k :| 0 <= k < |es| && es[k].event.Some? && item == ItemOf(es[k], t.currentId, decisions);
      OpenIsCurrent(es[k], t.currentId, decisions);
      ItemSnapshot(es[k], t.currentId, decisions);
    }
  }

  lemma AtMostOneKept(items: seq<ReviewItem>)
    requires |items| <= 1
    ensures |Filter(items, OpenItem)| <= 1
  {
    hide OpenItem;
    if items != [] { assert items[1..] == []; }
  }

  lemma ItemSnapshot(e: Entry, currentId: string, decisions: seq<Decision>)
    requires e.event.Some?
    ensures ItemOf(e, currentId, decisions).snapshotId == e.snapshotId
  {
  }

  lemma EntriesDistinct(rows: seq<Snapshot>, tracked: seq<string>)
    requires TimelineOf(rows, tracked).Some?
    ensures var t := TimelineOf(rows, tracked).value;
            && t.entries != [] && t.entries[|t.entries| - 1].snapshotId == t.currentId
            && forall i, j | 0 <= i < j < |t.entries| :: t.entries[i].snapshotId != t.entries[j].snapshotId
  {
    hide EntryOf, ValidSnapshot, SortByTime, EntriesOf;
    var sorted := SortByTime(rows, At, IdOf);
    SortByTimeFacts(rows, At, IdOf);
    DistinctIdsPermuted(rows, sorted);
    var es := TimelineOf(rows, tracked).value.entries;
    forall i | 0 <= i < |sorted| ensures |es| == |sorted| && es[i].snapshotId == sorted[i].id {
      EntriesFacts(sorted, tracked, i);
      EntryIds(if i == 0 then None else Some(sorted[i - 1]), sorted[i], tracked);
    }
    assert |sorted| > 0 && es[0].snapshotId == sorted[0].id;
  }

  lemma EntryIds(prior: Option<Snapshot>, s: Snapshot, tracked: seq<string>)
    ensures EntryOf(prior, s, tracked).Some? ==>
              EntryOf(prior, s, tracked).value.snapshotId == s.id
              && EntryOf(prior, s, tracked).value.priorId == if prior.Some? then Some(prior.value.id) else None
  {
  }

  function PriorId(sorted: seq<Snapshot>, i: nat): Option<string>
    requires i < |sorted|
  {
    if i == 0 then None else Some(sorted[i - 1].id)
  }

  lemma EntriesLink(sorted: seq<Snapshot>, tracked: seq<string>)
    requires EntriesOf(sorted, tracked).Some?
    ensures var es := EntriesOf(sorted, tracked).value;
            && |es| == |sorted|
            && forall i | 0 <= i < |sorted| :: es[i].snapshotId == sorted[i].id && es[i].priorId == PriorId(sorted, i)
  {
    hide EntryOf, EntriesOf;
    var es := EntriesOf(sorted, tracked).value;
    assert |es| == |sorted| by {
      if sorted == [] { NoEntries(tracked); } else { EntriesFacts(sorted, tracked, 0); }
    }
    forall i | 0 <= i < |sorted| ensures es[i].snapshotId == sorted[i].id && es[i].priorId == PriorId(sorted, i) {
      EntriesFacts(sorted, tracked, i);
      EntryIds(if i == 0 then None else Some(sorted[i - 1]), sorted[i], tracked);
    }
  }

  lemma NoEntries(tracked: seq<string>)
    ensures EntriesOf([], tracked) == Some([])
  {
  }

  /** A timeline lists every snapshot once, in order of time: the last is current and all others
      are superseded, each entry naming its predecessor. */
  lemma TimelineListsSnapshots(rows: seq<Snapshot>, tracked: seq<string>)
    requires TimelineOf(rows, tracked).Some?
    ensures var t := TimelineOf(rows, tracked).value; var sorted := SortByTime(rows, At, IdOf);
            && |sorted| == |rows| == |t.entries| && multiset(sorted) == multiset(rows)
            && (forall i, j | 0 <= i < j < |sorted| :: sorted[i].at.instant < sorted[j].at.instant)
            && (forall i | 0 <= i < |sorted| ::
                  t.entries[i].snapshotId == sorted[i].id && t.entries[i].priorId == PriorId(sorted, i))
            && t.supersededIds + [t.currentId] == IdsOf(t.entries)
  {
    hide ValidSnapshot, SortByTime, EntriesOf, DistinctSnapshotIds, PriorId;
    var sorted := SortByTime(rows, At, IdOf);
    SortByTimeFacts(rows, At, IdOf);
    EntriesLink(sorted, tracked);
    StrictTimes(sorted);
  }

  lemma StrictTimes(sorted: seq<Snapshot>)
    requires Chronological(sorted, At) && DistinctTimes(sorted, At)
    ensures forall i, j | 0 <= i < j < |sorted| :: sorted[i].at.instant < sorted[j].at.instant
  {
    forall i, j | 0 <= i < j < |sorted| ensures sorted[i].at.instant < sorted[j].at.instant {
      assert At(sorted[i]) <= At(sorted[j]) && At(sorted[i]) != At(sorted[j]);
    }
  }

  predicate Decisive(d: Decision) {
    !d.kind.Other?
  }

  /** The latest acknowledgement, resolution or deferral alone decides the status. */
  lemma {:induction false} LastDecisionDecides(ds: seq<Decision>, k: nat)
    requires k < |ds| && Decisive(ds[k]) && forall j | k < j < |ds| :: !Decisive(ds[j])
    ensures Fold(ds).status == match ds[k].kind
                               case Acknowledge => Acknowledged
                               case Resolve => Resolved
                               case _ => Pending
    decreases |ds|
  {
    if k < |ds| - 1 { LastDecisionDecides(ds[..|ds| - 1], k); }
  }
}
