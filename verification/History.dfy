/** The bitemporal ledger: entries with a valid time and a knowledge time, appends, corrections
    and historical views. `hash` is the fingerprint function; where its collision-freedom is
    used it is a hypothesis. */
module History {
  import opened Basics
  import opened Order

  /** The hashed part of an entry. */
  datatype Payload = Payload(
    entryId: string, communityId: string, entryType: string, scope: string, scopeId: string,
    factKey: string, factValue: string, validFrom: Timestamp, validTo: Option<Timestamp>,
    knownAt: Timestamp, recordedAt: Timestamp, truthState: string, sources: set<string>,
    previous: Option<string>, evidence: set<string>, limitations: set<string>)

  datatype Entry = Entry(p: Payload, fp: string)

  datatype LedgerFp = LedgerFp(ledgerId: string, communityId: string, entries: seq<Entry>)

  datatype Ledger = Ledger(ledgerId: string, communityId: string, entries: seq<Entry>, fp: LedgerFp)

  datatype HistoryRegistry = HistoryRegistry(entryTypes: set<string>, scopes: set<string>, truthStates: set<string>)

  datatype Mode = TrueNow | TrueThen | KnownThen | KnownNow

  datatype View = View(communityId: string, query: Query, entries: seq<Entry>)

  type Hash = Payload -> string

  ghost predicate CollisionFree(hash: Hash) {
    forall p, q :: hash(p) == hash(q) ==> p == q
  }

  // ---- entries ----

  function MakeEntry(p: Payload, registry: HistoryRegistry, hash: Hash): Result<Entry> {
    if p.entryId == "" || p.communityId == "" || p.scopeId == "" || p.factKey == "" then
      Err("entry identity, community, scope_id, and fact_key are required")
    else if p.entryType !in registry.entryTypes then Err("unsupported temporal entry type")
    else if p.scope !in registry.scopes then Err("unsupported temporal entry scope")
    else if p.truthState !in registry.truthStates then Err("unsupported truth state")
    else if p.recordedAt.instant < p.knownAt.instant then Err("recorded_at cannot precede known_at")
    else if p.validTo.Some? && p.validTo.value.instant < p.validFrom.instant then Err("valid_to cannot precede valid_from")
    else if p.entryType == "CORRECTION" && p.previous.None? then Err("correction requires previous entry fingerprint")
    else Ok(Entry(p, hash(p)))
  }

  function EntryId(e: Entry): Key {
    [e.p.entryId]
  }

  function EntryKey(e: Entry): Key {
    [e.p.validFrom.text, e.p.knownAt.text, e.p.entryId, e.fp]
  }

  // ---- ledgers ----

  function FingerprintOf(ledgerId: string, communityId: string, entries: seq<Entry>): LedgerFp {
    LedgerFp(ledgerId, communityId, entries)
  }

  predicate ReplayValid(l: Ledger) {
    l.fp == FingerprintOf(l.ledgerId, l.communityId, l.entries)
  }

  function BuildLedger(ledgerId: string, communityId: string, entries: seq<Entry>): Result<Ledger> {
    if ledgerId == "" || communityId == "" then Err("ledger_id and community_id required")
    else if exists e | e in entries :: e.p.communityId != communityId then Err("ledger community mismatch")
    else if !DistinctKeys(entries, EntryId) then Err("duplicate temporal entry ids prohibited")
    else
      var ordered := SortBy(entries, EntryKey);
      Ok(Ledger(ledgerId, communityId, ordered, FingerprintOf(ledgerId, communityId, ordered)))
  }

  predicate Linked(l: Ledger, e: Entry) {
    e.p.previous.None? || exists x | x in l.entries :: x.fp == e.p.previous.value
  }

  function AppendEntries(l: Ledger, added: seq<Entry>): Result<Ledger> {
    if exists e, x | e in added && x in l.entries :: e.p.entryId == x.p.entryId then
      Err("append-only ledger rejects duplicate entry ids")
    else if exists e | e in added :: e.p.communityId != l.communityId then Err("ledger community mismatch")
    else if exists e | e in added :: !Linked(l, e) then
      Err("correction/supersession link must reference existing immutable history")
    else BuildLedger(l.ledgerId, l.communityId, l.entries + added)
  }

  function Matches(entries: seq<Entry>, fp: string): seq<Entry> {
    Filter(entries, (e: Entry) => e.fp == fp)
  }

  datatype Correction = Correction(
    correctionId: string, target: string, value: string, validFrom: Timestamp, knownAt: Timestamp,
    recordedAt: Timestamp, evidence: set<string>, limitations: set<string>)

  function CorrectionPayload(l: Ledger, target: Entry, c: Correction): Payload {
    Payload(c.correctionId, l.communityId, "CORRECTION", target.p.scope, target.p.scopeId, target.p.factKey,
            c.value, c.validFrom, None, c.knownAt, c.recordedAt, "CORRECTED", {target.fp}, Some(target.fp),
            c.evidence, c.limitations)
  }

  function AppendCorrection(l: Ledger, c: Correction, registry: HistoryRegistry, hash: Hash): Result<Ledger> {
    var matches := Matches(l.entries, c.target);
    if |matches| != 1 then Err("correction target must resolve exactly once")
    else match MakeEntry(CorrectionPayload(l, matches[0], c), registry, hash)
      case Err(e) => Err(e)
      case Ok(entry) => AppendEntries(l, [entry])
  }

  // ---- views ----

  /** The parsed cutoffs of a query; the modes that need one refuse to run without it. */
  datatype Query = Query(
    mode: Mode, scope: string, scopeId: string, validCutoff: Option<Timestamp>, knowledgeCutoff: Option<Timestamp>)

  predicate ValidBy(e: Entry, cutoff: Option<Timestamp>) {
    cutoff.Some? && e.p.validFrom.instant <= cutoff.value.instant
  }

  predicate KnownBy(e: Entry, cutoff: Option<Timestamp>) {
    cutoff.Some? && e.p.knownAt.instant <= cutoff.value.instant
  }

  predicate Visible(e: Entry, q: Query) {
    match q.mode
    case TrueNow => true
    case TrueThen => ValidBy(e, q.validCutoff)
    case KnownThen => ValidBy(e, q.validCutoff) && KnownBy(e, q.knowledgeCutoff)
    case KnownNow => true
  }

  predicate Selected(e: Entry, q: Query) {
    e.p.scope == q.scope && e.p.scopeId == q.scopeId && Visible(e, q)
  }

  function HistoricalView(l: Ledger, q: Query): Result<View> {
    if !ReplayValid(l) then Err("temporal ledger is nonreproducible")
    else if (q.mode == TrueThen || q.mode == KnownThen) && q.validCutoff.None? then Err("mode requires as_of_valid_time")
    else if q.mode == KnownThen && q.knowledgeCutoff.None? then Err("KNOWN_THEN requires as_of_knowledge_time")
    else Ok(View(l.communityId, q, SortBy(Filter(l.entries, (e: Entry) => Selected(e, q)), EntryKey)))
  }

  // ---- every ledger that is built ----

  /** Sorted, one entry per id, one community, replayable. */
  ghost predicate LedgerOk(l: Ledger) {
    && StrictlySorted(l.entries, EntryKey) && UniqueBy(l.entries, EntryId) && ReplayValid(l)
    && (forall e | e in l.entries :: e.p.communityId == l.communityId)
    && l.ledgerId != "" && l.communityId != ""
  }

  lemma BuildIsOk(ledgerId: string, communityId: string, entries: seq<Entry>)
    requires BuildLedger(ledgerId, communityId, entries).Ok?
    ensures var l := BuildLedger(ledgerId, communityId, entries).value;
            && LedgerOk(l) && l.ledgerId == ledgerId && l.communityId == communityId
            && SameElements(l.entries, entries) && |l.entries| == |entries|
  {
    SortByFiner(entries, EntryKey, EntryId);
    SortFacts(entries, EntryKey);
  }

  /** A ledger depends only on the set of its entries. */
  lemma SameEntriesSameLedger(l: Ledger, m: Ledger)
    requires LedgerOk(l) && LedgerOk(m) && l.ledgerId == m.ledgerId && l.communityId == m.communityId
    requires SameElements(l.entries, m.entries)
    ensures l == m
  {
    StrictlySortedUnique(l.entries, m.entries, EntryKey);
  }

  lemma AppendIsOk(l: Ledger, added: seq<Entry>)
    requires AppendEntries(l, added).Ok?
    ensures var m := AppendEntries(l, added).value;
            && LedgerOk(m) && m.ledgerId == l.ledgerId && m.communityId == l.communityId
            && SameElements(m.entries, l.entries + added)
            && (forall e | e in l.entries :: e in m.entries)
  {
    BuildIsOk(l.ledgerId, l.communityId, l.entries + added);
  }

  ghost predicate DisjointIds(a: seq<Entry>, b: seq<Entry>) {
    forall e, x | e in a && x in b :: e.p.entryId != x.p.entryId
  }

  lemma DistinctParts(a: seq<Entry>, b: seq<Entry>)
    requires DistinctKeys(a + b, EntryId)
    ensures DistinctKeys(a, EntryId) && DistinctKeys(b, EntryId) && DisjointIds(a, b)
  {
    var s := a + b;
    assert a == s[0..|a|] && b == s[|a|..|s|];
    DistinctSlice(s, EntryId, 0, |a|);
    DistinctSlice(s, EntryId, |a|, |s|);
    forall e, x | e in a && x in b ensures e.p.entryId != x.p.entryId {
      var i :| 0 <= i < |a| && a[i] == e;
      var j :| 0 <= j < |b| && b[j] == x;
      assert EntryId(s[i]) != EntryId(s[|a| + j]);
    }
  }

  lemma DistinctWhole(a: seq<Entry>, b: seq<Entry>)
    requires DistinctKeys(a, EntryId) && DistinctKeys(b, EntryId) && DisjointIds(a, b)
    ensures DistinctKeys(a + b, EntryId)
  {
    var s := a + b;
    forall i, j | 0 <= i < j < |s| ensures EntryId(s[i]) != EntryId(s[j]) {
      if j < |a| {
        assert EntryId(a[i]) != EntryId(a[j]);
      } else if i >= |a| {
        assert EntryId(b[i - |a|]) != EntryId(b[j - |a|]);
      } else {
        assert a[i] in a && b[j - |a|] in b;
        assert EntryId(s[i])[0] != EntryId(s[j])[0];
      }
    }
  }

  lemma DistinctJoin(a: seq<Entry>, b: seq<Entry>)
    ensures DistinctKeys(a + b, EntryId) <==> DistinctKeys(a, EntryId) && DistinctKeys(b, EntryId) && DisjointIds(a, b)
  {
    hide DistinctKeys, DisjointIds;
    if DistinctKeys(a + b, EntryId) { DistinctParts(a, b); }
    if DistinctKeys(a, EntryId) && DistinctKeys(b, EntryId) && DisjointIds(a, b) { DistinctWhole(a, b); }
  }

  /** When an append is accepted. */
  lemma AppendAccepted(l: Ledger, added: seq<Entry>)
    requires LedgerOk(l)
    ensures AppendEntries(l, added).Ok? <==>
            && DistinctKeys(added, EntryId) && DisjointIds(l.entries, added)
            && (forall e | e in added :: e.p.communityId == l.communityId && Linked(l, e))
  {
    hide StrictlySorted, UniqueBy, ReplayValid, Linked, SortBy;
    DistinctJoin(l.entries, added);
    assert DistinctKeys(l.entries, EntryId) by { SortedDistinct(l.entries); }
  }

  lemma SortedDistinct(s: seq<Entry>)
    requires StrictlySorted(s, EntryKey) && UniqueBy(s, EntryId)
    ensures DistinctKeys(s, EntryId)
  {
    forall i, j | 0 <= i < j < |s| ensures EntryId(s[i]) != EntryId(s[j]) {
      assert KeyLt(EntryKey(s[i]), EntryKey(s[j]));
      assert s[i] in s && s[j] in s;
    }
  }

  /** Two batches that a ledger accepts each on its own, with different ids, are accepted in
      either order and give the same ledger. */
  lemma AppendsCommute(l: Ledger, a: seq<Entry>, b: seq<Entry>)
    requires LedgerOk(l) && AppendEntries(l, a).Ok? && AppendEntries(l, b).Ok? && DisjointIds(a, b)
    ensures var la, lb := AppendEntries(l, a).value, AppendEntries(l, b).value;
            AppendEntries(la, b).Ok? && AppendEntries(la, b) == AppendEntries(lb, a)
  {
    var la, lb := AppendEntries(l, a).value, AppendEntries(l, b).value;
    AppendIsOk(l, a);
    AppendIsOk(l, b);
    SecondAccepted(l, a, b);
    SecondAccepted(l, b, a);
    AppendIsOk(la, b);
    AppendIsOk(lb, a);
    hide AppendEntries, LedgerOk;
    SameEntriesSameLedger(AppendEntries(la, b).value, AppendEntries(lb, a).value);
  }

  lemma SecondAccepted(l: Ledger, a: seq<Entry>, b: seq<Entry>)
    requires LedgerOk(l) && AppendEntries(l, a).Ok? && AppendEntries(l, b).Ok? && (DisjointIds(a, b) || DisjointIds(b, a))
    ensures AppendEntries(AppendEntries(l, a).value, b).Ok?
  {
    var la := AppendEntries(l, a).value;
    AppendIsOk(l, a);
    AppendAccepted(l, b);
    AppendAccepted(la, b);
    hide AppendEntries, LedgerOk;
    forall e | e in b ensures Linked(la, e) { assert Linked(l, e); }
  }

  /** An accepted correction adds one entry, linked to the one entry with the target
      fingerprint and about the same fact; the target itself stays. */
  lemma CorrectionLinksTarget(l: Ledger, c: Correction, registry: HistoryRegistry, hash: Hash)
    requires AppendCorrection(l, c, registry, hash).Ok?
    ensures var m := AppendCorrection(l, c, registry, hash).value;
            exists target, e | target in l.entries && target in m.entries && e in m.entries && e !in l.entries ::
              && target.fp == c.target && e.p.previous == Some(target.fp) && e.fp == hash(e.p)
              && e.p.entryId == c.correctionId && e.p.entryType == "CORRECTION" && e.p.truthState == "CORRECTED"
              && e.p.scope == target.p.scope && e.p.scopeId == target.p.scopeId && e.p.factKey == target.p.factKey
              && e.p.factValue == c.value && e.p.knownAt == c.knownAt && e.p.validFrom == c.validFrom
              && (forall x | x in m.entries :: x in l.entries || x == e)
  {
    hide AppendEntries;
    var matches := Matches(l.entries, c.target);
    var target := matches[0];
    assert target in matches;
    var e := Entry(CorrectionPayload(l, target, c), hash(CorrectionPayload(l, target, c)));
    var m := AppendCorrection(l, c, registry, hash).value;
    assert AppendEntries(l, [e]) == Ok(m);
    AppendIsOk(l, [e]);
    NewId(l, e);
    hide LedgerOk, AppendCorrection;
    assert e in l.entries + [e];
  }

  lemma NewId(l: Ledger, e: Entry)
    requires AppendEntries(l, [e]).Ok?
    ensures e !in l.entries
  {
    assert e in [e];
  }

  // ---- runs ----

  datatype Op = Append(added: seq<Entry>) | Correct(c: Correction)

  function Apply(l: Ledger, op: Op, registry: HistoryRegistry, hash: Hash): Result<Ledger> {
    match op
    case Append(added) => AppendEntries(l, added)
    case Correct(c) => AppendCorrection(l, c, registry, hash)
  }

  /** The entries an accepted operation adds. */
  function Added(l: Ledger, op: Op, registry: HistoryRegistry, hash: Hash): seq<Entry>
    requires Apply(l, op, registry, hash).Ok?
  {
    match op
    case Append(added) => added
    case Correct(c) => [Entry(CorrectionPayload(l, Matches(l.entries, c.target)[0], c),
                              hash(CorrectionPayload(l, Matches(l.entries, c.target)[0], c)))]
  }

  /** A rejected operation raises and leaves the caller with the ledger it had. */
  function Run(l: Ledger, ops: seq<Op>, registry: HistoryRegistry, hash: Hash): Ledger
    decreases |ops|
  {
    if ops == [] then l
    else match Apply(l, ops[0], registry, hash)
      case Ok(m) => Run(m, ops[1..], registry, hash)
      case Err(_) => Run(l, ops[1..], registry, hash)
  }

  /** The entries a run adds, in the order they arrive. */
  function Arrivals(l: Ledger, ops: seq<Op>, registry: HistoryRegistry, hash: Hash): seq<Entry>
    decreases |ops|
  {
    if ops == [] then []
    else match Apply(l, ops[0], registry, hash)
      case Ok(m) => Added(l, ops[0], registry, hash) + Arrivals(m, ops[1..], registry, hash)
      case Err(_) => Arrivals(l, ops[1..], registry, hash)
  }

  lemma ApplyIsAppend(l: Ledger, op: Op, registry: HistoryRegistry, hash: Hash)
    requires Apply(l, op, registry, hash).Ok?
    ensures AppendEntries(l, Added(l, op, registry, hash)) == Apply(l, op, registry, hash)
    ensures op.Correct? ==> forall e | e in Added(l, op, registry, hash) :: e.fp == hash(e.p)
    ensures op.Correct? ==> forall e | e in Added(l, op, registry, hash) :: e.p.knownAt == op.c.knownAt
  {
    hide AppendEntries;
  }

  lemma {:induction false} RunIsOk(l: Ledger, ops: seq<Op>, registry: HistoryRegistry, hash: Hash)
    requires LedgerOk(l)
    ensures var m := Run(l, ops, registry, hash);
            && LedgerOk(m) && m.ledgerId == l.ledgerId && m.communityId == l.communityId
            && SameElements(m.entries, l.entries + Arrivals(l, ops, registry, hash))
    decreases |ops|
  {
    if ops == [] {
      assert l.entries + [] == l.entries;
    } else {
      match Apply(l, ops[0], registry, hash)
      case Ok(m) =>
        ApplyIsAppend(l, ops[0], registry, hash);
        hide AppendEntries, LedgerOk, Apply, Added;
        AppendIsOk(l, Added(l, ops[0], registry, hash));
        RunIsOk(m, ops[1..], registry, hash);
      case Err(_) => RunIsOk(l, ops[1..], registry, hash);
    }
  }

  /** A run only adds: no entry ever leaves the ledger, and its order is that of the sort key. */
  lemma OnlyAdds(l: Ledger, ops: seq<Op>, registry: HistoryRegistry, hash: Hash)
    requires LedgerOk(l)
    ensures var m := Run(l, ops, registry, hash);
            (forall e | e in l.entries :: e in m.entries) && StrictlySorted(m.entries, EntryKey) && UniqueBy(m.entries, EntryId)
  {
    hide StrictlySorted, UniqueBy, Run, Arrivals;
    RunIsOk(l, ops, registry, hash);
    forall e | e in l.entries ensures e in l.entries + Arrivals(l, ops, registry, hash) {}
  }

  /** Two runs that add the same entries, in whatever order and batches, end in one ledger. */
  lemma OrderDoesNotMatter(l: Ledger, ops: seq<Op>, other: seq<Op>, registry: HistoryRegistry, hash: Hash)
    requires LedgerOk(l)
    requires SameElements(Arrivals(l, ops, registry, hash), Arrivals(l, other, registry, hash))
    ensures Run(l, ops, registry, hash) == Run(l, other, registry, hash)
  {
    hide LedgerOk, Run, Arrivals;
    RunIsOk(l, ops, registry, hash);
    RunIsOk(l, other, registry, hash);
    SameEntriesSameLedger(Run(l, ops, registry, hash), Run(l, other, registry, hash));
  }

  // ---- links ----

  /** Each link points to an earlier arrival. */
  ghost predicate LinksBack(order: seq<Entry>) {
    forall i | 0 <= i < |order| :: order[i].p.previous.Some? ==> PointsInto(order[i], order[..i])
  }

  ghost predicate PointsInto(e: Entry, s: seq<Entry>)
    requires e.p.previous.Some?
  {
    exists x | x in s :: x.fp == e.p.previous.value
  }

  lemma LinksBackExtends(order: seq<Entry>, l: Ledger, added: seq<Entry>)
    requires LinksBack(order) && SameElements(order, l.entries)
    requires forall e | e in added :: Linked(l, e)
    ensures LinksBack(order + added)
  {
    var all := order + added;
    forall i | 0 <= i < |all| && all[i].p.previous.Some? ensures PointsInto(all[i], all[..i]) {
      if i < |order| {
        assert all[..i] == order[..i];
      } else {
        assert all[i] in added;
        assert Linked(l, all[i]);
        var x :| x in l.entries && x.fp == all[i].p.previous.value;
        assert all[..i] == order + added[..i - |order|];
        assert x in order;
        assert x in all[..i];
      }
    }
  }

  lemma AppendLinks(l: Ledger, added: seq<Entry>)
    requires AppendEntries(l, added).Ok?
    ensures forall e | e in added :: Linked(l, e)
  {
  }

  lemma JoinedElements(order: seq<Entry>, entries: seq<Entry>, added: seq<Entry>, joined: seq<Entry>)
    requires SameElements(order, entries) && SameElements(joined, entries + added)
    ensures SameElements(order + added, joined)
  {
  }

  lemma StepLinksBack(l: Ledger, order: seq<Entry>, op: Op, registry: HistoryRegistry, hash: Hash)
    requires LinksBack(order) && SameElements(order, l.entries) && Apply(l, op, registry, hash).Ok?
    ensures LinksBack(order + Added(l, op, registry, hash))
    ensures SameElements(order + Added(l, op, registry, hash), Apply(l, op, registry, hash).value.entries)
  {
    hide AppendEntries, Linked, Apply, Added, LinksBack, LedgerOk, SameElements;
    var m, added := Apply(l, op, registry, hash).value, Added(l, op, registry, hash);
    ApplyIsAppend(l, op, registry, hash);
    AppendIsOk(l, added);
    JoinedElements(order, l.entries, added, m.entries);
    AppendLinks(l, added);
    LinksBackExtends(order, l, added);
  }

  lemma {:induction false} RunLinksBack(l: Ledger, order: seq<Entry>, ops: seq<Op>, registry: HistoryRegistry, hash: Hash)
    requires LinksBack(order) && SameElements(order, l.entries)
    ensures LinksBack(order + Arrivals(l, ops, registry, hash))
    decreases |ops|
  {
    hide Apply, Added, LinksBack, SameElements;
    if ops == [] {
      assert order + [] == order;
    } else {
      match Apply(l, ops[0], registry, hash)
      case Ok(m) =>
        StepLinksBack(l, order, ops[0], registry, hash);
        var added := Added(l, ops[0], registry, hash);
        RunLinksBack(m, order + added, ops[1..], registry, hash);
        Associative(order, added, Arrivals(m, ops[1..], registry, hash));
      case Err(_) => RunLinksBack(l, order, ops[1..], registry, hash);
    }
  }

  ghost predicate AllMade(es: seq<Entry>, hash: Hash) {
    forall e | e in es :: e.fp == hash(e.p)
  }

  ghost predicate OpsMade(ops: seq<Op>, hash: Hash) {
    forall op | op in ops && op.Append? :: AllMade(op.added, hash)
  }

  lemma {:induction false} RunMade(l: Ledger, ops: seq<Op>, registry: HistoryRegistry, hash: Hash)
    requires OpsMade(ops, hash)
    ensures AllMade(Arrivals(l, ops, registry, hash), hash)
    decreases |ops|
  {
    if ops != [] {
      assert OpsMade(ops[1..], hash) by {
        forall op | op in ops[1..] && op.Append? ensures AllMade(op.added, hash) { assert op in ops; }
      }
      match Apply(l, ops[0], registry, hash)
      case Ok(m) =>
        ApplyIsAppend(l, ops[0], registry, hash);
        assert ops[0] in ops;
        assert AllMade(Added(l, ops[0], registry, hash), hash);
        hide Apply, Added;
        RunMade(m, ops[1..], registry, hash);
      case Err(_) => RunMade(l, ops[1..], registry, hash);
    }
  }

  /** `path` follows back-links from entry to entry. */
  ghost predicate LinkPath(path: seq<Entry>, es: seq<Entry>) {
    && (forall k | 0 <= k < |path| :: path[k] in es)
    && (forall k | 0 <= k < |path| - 1 :: path[k].p.previous == Some(path[k + 1].fp))
  }

  /** In arrival order a link goes strictly back, so a path is no longer than where it starts. */
  lemma {:induction false} PathGoesBack(order: seq<Entry>, path: seq<Entry>, i: nat, hash: Hash)
    requires CollisionFree(hash) && AllMade(order, hash) && LinksBack(order)
    requires path != [] && LinkPath(path, order) && i < |order| && order[i] == path[0]
    ensures |path| <= i + 1
    decreases i
  {
    if |path| > 1 {
      assert path[0].p.previous == Some(path[1].fp) && path[1] in order;
      assert PointsInto(order[i], order[..i]);
      var x :| x in order[..i] && x.fp == path[1].fp;
      assert x in order;
      assert hash(x.p) == hash(path[1].p);
      var j :| 0 <= j < i && order[..i][j] == x;
      var rest := path[1..];
      assert LinkPath(rest, order) by {
        forall k | 0 <= k < |rest| - 1 ensures rest[k].p.previous == Some(rest[k + 1].fp) {
          assert path[k + 1].p.previous == Some(path[k + 2].fp);
        }
      }
      PathGoesBack(order, rest, j, hash);
    }
  }

  function EmptyLedger(ledgerId: string, communityId: string): Ledger {
    Ledger(ledgerId, communityId, [], FingerprintOf(ledgerId, communityId, []))
  }

  /** From an empty ledger every run keeps every link inside the ledger. */
  lemma LinksStayInside(ledgerId: string, communityId: string, ops: seq<Op>, registry: HistoryRegistry, hash: Hash, e: Entry)
    requires ledgerId != "" && communityId != ""
    requires e in Run(EmptyLedger(ledgerId, communityId), ops, registry, hash).entries && e.p.previous.Some?
    ensures exists x | x in Run(EmptyLedger(ledgerId, communityId), ops, registry, hash).entries :: x.fp == e.p.previous.value
  {
    hide Run, Arrivals;
    var l := EmptyLedger(ledgerId, communityId);
    RunIsOk(l, ops, registry, hash);
    RunLinksBack(l, [], ops, registry, hash);
    var order := [] + Arrivals(l, ops, registry, hash);
    assert l.entries + Arrivals(l, ops, registry, hash) == order;
    var i :| 0 <= i < |order| && order[i] == e;
    assert PointsInto(order[i], order[..i]);
    var x :| x in order[..i] && x.fp == e.p.previous.value;
    assert x in order;
  }

  /** From an empty ledger following links always ends: no path of links repeats, however the
      run went, so a path is at most as long as the arrivals. */
  lemma FollowingLinksEnds(ledgerId: string, communityId: string, ops: seq<Op>, registry: HistoryRegistry, hash: Hash, path: seq<Entry>)
    requires ledgerId != "" && communityId != "" && CollisionFree(hash) && OpsMade(ops, hash)
    requires LinkPath(path, Run(EmptyLedger(ledgerId, communityId), ops, registry, hash).entries)
    ensures |path| <= |Arrivals(EmptyLedger(ledgerId, communityId), ops, registry, hash)|
  {
    hide Run, Arrivals;
    var l := EmptyLedger(ledgerId, communityId);
    RunIsOk(l, ops, registry, hash);
    RunLinksBack(l, [], ops, registry, hash);
    RunMade(l, ops, registry, hash);
    var order := [] + Arrivals(l, ops, registry, hash);
    assert l.entries + Arrivals(l, ops, registry, hash) == order;
    assert order == Arrivals(l, ops, registry, hash);
    if path != [] {
      assert path[0] in order;
      var i :| 0 <= i < |order| && order[i] == path[0];
      PathGoesBack(order, path, i, hash);
    }
  }

  // ---- what views promise ----

  lemma RowsDistinct(l: Ledger, q: Query)
    requires LedgerOk(l)
    ensures DistinctKeys(Filter(l.entries, (e: Entry) => Selected(e, q)), EntryKey)
  {
    forall i, j | 0 <= i < j < |l.entries| ensures EntryKey(l.entries[i]) != EntryKey(l.entries[j]) {
      assert KeyLt(EntryKey(l.entries[i]), EntryKey(l.entries[j]));
    }
    FilterDistinct(l.entries, (e: Entry) => Selected(e, q), EntryKey);
  }

  /** A view lists exactly the selected entries of the ledger, in the order of the sort key. */
  lemma ViewLists(l: Ledger, q: Query)
    requires LedgerOk(l) && HistoricalView(l, q).Ok?
    ensures var v := HistoricalView(l, q).value;
            && StrictlySorted(v.entries, EntryKey)
            && forall e :: e in v.entries <==> e in l.entries && Selected(e, q)
  {
    hide Selected, LedgerOk;
    var keep := (e: Entry) => Selected(e, q);
    RowsDistinct(l, q);
    SortStrict(Filter(l.entries, keep), EntryKey);
    SortFacts(Filter(l.entries, keep), EntryKey);
  }

  /** Ledgers that agree on the selected entries give one view. */
  lemma SameSelectedSameView(l: Ledger, m: Ledger, q: Query)
    requires LedgerOk(l) && LedgerOk(m) && l.communityId == m.communityId
    requires forall e | Selected(e, q) :: e in l.entries <==> e in m.entries
    ensures HistoricalView(l, q) == HistoricalView(m, q)
  {
    hide Selected;
    var keep := (e: Entry) => Selected(e, q);
    RowsDistinct(l, q);
    RowsDistinct(m, q);
    SortSameElements(Filter(l.entries, keep), Filter(m.entries, keep), EntryKey);
  }

  ghost predicate AllKnownAfter(es: seq<Entry>, cutoff: Timestamp) {
    forall e | e in es :: e.p.knownAt.instant > cutoff.instant
  }

  ghost predicate OpKnownAfter(op: Op, cutoff: Timestamp) {
    match op
    case Append(added) => AllKnownAfter(added, cutoff)
    case Correct(c) => c.knownAt.instant > cutoff.instant
  }

  lemma {:induction false} ArrivalsKnownAfter(l: Ledger, ops: seq<Op>, registry: HistoryRegistry, hash: Hash, cutoff: Timestamp)
    requires forall op | op in ops :: OpKnownAfter(op, cutoff)
    ensures AllKnownAfter(Arrivals(l, ops, registry, hash), cutoff)
    decreases |ops|
  {
    if ops != [] {
      assert OpKnownAfter(ops[0], cutoff);
      assert forall op | op in ops[1..] :: OpKnownAfter(op, cutoff);
      match Apply(l, ops[0], registry, hash)
      case Ok(m) =>
        ApplyIsAppend(l, ops[0], registry, hash);
        assert AllKnownAfter(Added(l, ops[0], registry, hash), cutoff);
        hide Apply, Added;
        ArrivalsKnownAfter(m, ops[1..], registry, hash, cutoff);
      case Err(_) => ArrivalsKnownAfter(l, ops[1..], registry, hash, cutoff);
    }
  }

  /** Historical answers are reproducible: appends and corrections that became known after the
      knowledge cutoff leave the KNOWN_THEN view as it was. */
  lemma KnownThenReproducible(l: Ledger, ops: seq<Op>, registry: HistoryRegistry, hash: Hash, q: Query)
    requires LedgerOk(l) && q.mode == KnownThen && q.knowledgeCutoff.Some?
    requires forall op | op in ops :: OpKnownAfter(op, q.knowledgeCutoff.value)
    ensures HistoricalView(Run(l, ops, registry, hash), q) == HistoricalView(l, q)
  {
    hide Run, Arrivals, LedgerOk;
    var m := Run(l, ops, registry, hash);
    RunIsOk(l, ops, registry, hash);
    ArrivalsKnownAfter(l, ops, registry, hash, q.knowledgeCutoff.value);
    forall e | Selected(e, q) ensures e in l.entries <==> e in m.entries {
      assert e in l.entries + Arrivals(l, ops, registry, hash) <==> e in m.entries;
    }
    SameSelectedSameView(m, l, q);
  }

  ghost predicate LaterCutoff(a: Option<Timestamp>, b: Option<Timestamp>) {
    a.Some? ==> b.Some? && a.value.instant <= b.value.instant
  }

  /** Views grow with both cutoffs and with the ledger: what was shown stays shown, whatever is
      corrected or superseded later. */
  lemma ViewsGrow(l: Ledger, ops: seq<Op>, registry: HistoryRegistry, hash: Hash, q: Query, r: Query, e: Entry)
    requires LedgerOk(l)
    requires q.mode == r.mode && q.scope == r.scope && q.scopeId == r.scopeId
    requires LaterCutoff(q.validCutoff, r.validCutoff) && LaterCutoff(q.knowledgeCutoff, r.knowledgeCutoff)
    requires HistoricalView(l, q).Ok? && e in HistoricalView(l, q).value.entries
    ensures HistoricalView(Run(l, ops, registry, hash), r).Ok?
    ensures e in HistoricalView(Run(l, ops, registry, hash), r).value.entries
  {
    var m := Run(l, ops, registry, hash);
    RunIsOk(l, ops, registry, hash);
    OnlyAdds(l, ops, registry, hash);
    ViewLists(l, q);
    hide Run, Arrivals, SortBy, StrictlySorted, UniqueBy;
    ViewLists(m, r);
  }
}
