/** The order of historical views: sorted by the text of timestamps, and when that is the order of
    time which the registry documents. */
module HistoryOrder {
  import opened Basics
  import opened Order
  import opened History

  type Stamps = Timestamp -> bool

  ghost predicate ByValidTime(es: seq<Entry>) {
    forall i, j | 0 <= i < j < |es| :: es[i].p.validFrom.instant <= es[j].p.validFrom.instant
  }

  /** Earlier in the documented order: valid_from, then known_at, then entry_id. */
  predicate Precedes(x: Entry, y: Entry) {
    || x.p.validFrom.instant < y.p.validFrom.instant
    || (&& x.p.validFrom.instant == y.p.validFrom.instant
        && (|| x.p.knownAt.instant < y.p.knownAt.instant
            || (x.p.knownAt.instant == y.p.knownAt.instant && StringLe(x.p.entryId, y.p.entryId))))
  }

  ghost predicate InDocumentedOrder(es: seq<Entry>) {
    forall i, j | 0 <= i < j < |es| :: Precedes(es[i], es[j])
  }

  ghost predicate ValidFrom(allowed: Stamps, l: Ledger) {
    forall e | e in l.entries :: allowed(e.p.validFrom)
  }

  ghost predicate KnownAt(allowed: Stamps, l: Ledger) {
    forall e | e in l.entries :: allowed(e.p.knownAt)
  }

  ghost predicate ShowsByValidTime(l: Ledger, q: Query) {
    HistoricalView(l, q).Ok? ==> ByValidTime(HistoricalView(l, q).value.entries)
  }

  ghost predicate ShowsInDocumentedOrder(l: Ledger, q: Query) {
    HistoricalView(l, q).Ok? ==> InDocumentedOrder(HistoricalView(l, q).value.entries)
  }

  // ---- what the sort key says of time ----

  lemma KeyParts(x: Entry, y: Entry)
    requires KeyLe(EntryKey(x), EntryKey(y))
    ensures StringLe(x.p.validFrom.text, y.p.validFrom.text)
    ensures x.p.validFrom.text == y.p.validFrom.text ==> StringLe(x.p.knownAt.text, y.p.knownAt.text)
    ensures x.p.validFrom.text == y.p.validFrom.text && x.p.knownAt.text == y.p.knownAt.text ==> StringLe(x.p.entryId, y.p.entryId)
  {
    hide StringLe;
    StringLeTotal(x.p.validFrom.text, x.p.validFrom.text);
    StringLeTotal(x.p.knownAt.text, x.p.knownAt.text);
    StringLeTotal(x.p.entryId, x.p.entryId);
    assert EntryKey(x)[1..][0] == x.p.knownAt.text && EntryKey(y)[1..][0] == y.p.knownAt.text;
    assert EntryKey(x)[1..][1..][0] == x.p.entryId && EntryKey(y)[1..][1..][0] == y.p.entryId;
    if x.p.validFrom.text == y.p.validFrom.text {
      assert KeyLe(EntryKey(x)[1..], EntryKey(y)[1..]);
      if x.p.knownAt.text == y.p.knownAt.text { assert KeyLe(EntryKey(x)[1..][1..], EntryKey(y)[1..][1..]); }
    }
  }

  /** Among these timestamps a text that sorts first is no later. */
  ghost predicate TextNeverLater(allowed: Stamps) {
    forall s, t | allowed(s) && allowed(t) && StringLe(s.text, t.text) :: s.instant <= t.instant
  }

  /** Among these timestamps text order is the order of time. */
  ghost predicate TextIsTime(allowed: Stamps) {
    forall s, t | allowed(s) && allowed(t) :: StringLe(s.text, t.text) <==> s.instant <= t.instant
  }

  lemma SameText(allowed: Stamps, s: Timestamp, t: Timestamp)
    requires TextIsTime(allowed) && allowed(s) && allowed(t)
    ensures s.text == t.text <==> s.instant == t.instant
  {
    hide StringLe;
    StringLeTotal(s.text, t.text);
    if s.text == t.text { assert StringLe(s.text, t.text) && StringLe(t.text, s.text); }
    if s.instant == t.instant { StringLeAntisymmetric(s.text, t.text); }
  }

  lemma KeyIsDocumented(allowed: Stamps, x: Entry, y: Entry)
    requires TextIsTime(allowed) && KeyLe(EntryKey(x), EntryKey(y))
    requires allowed(x.p.validFrom) && allowed(y.p.validFrom) && allowed(x.p.knownAt) && allowed(y.p.knownAt)
    ensures Precedes(x, y)
  {
    hide StringLe, KeyLe;
    KeyParts(x, y);
    SameText(allowed, x.p.validFrom, y.p.validFrom);
    SameText(allowed, x.p.knownAt, y.p.knownAt);
  }

  // ---- a ledger of two facts ----

  function Fact(id: string, validFrom: Timestamp, knownAt: Timestamp): Entry {
    Entry(Payload(id, "c", "SNAPSHOT", "COMMUNITY", "c", "fact", "value", validFrom, None, knownAt, knownAt, "ASSERTED",
                  {"source"}, None, {}, {}), id)
  }

  const TheNow := Query(TrueNow, "COMMUNITY", "c", None, None)

  /** Two facts are shown in the order of their sort keys. */
  lemma TwoFacts(x: Entry, y: Entry) returns (l: Ledger)
    requires x.p.communityId == "c" && y.p.communityId == "c" && x.p.entryId != y.p.entryId
    requires Selected(x, TheNow) && Selected(y, TheNow) && KeyLt(EntryKey(x), EntryKey(y))
    ensures BuildLedger("l", "c", [x, y]) == Ok(l) && LedgerOk(l) && l.entries == [x, y]
    ensures HistoricalView(l, TheNow).Ok? && HistoricalView(l, TheNow).value.entries == [x, y]
  {
    hide KeyLe, StringLe, EntryKey, Selected, LedgerOk;
    assert DistinctKeys([x, y], EntryId);
    l := BuildLedger("l", "c", [x, y]).value;
    BuildIsOk("l", "c", [x, y]);
    SortedPair(x, y);
    var keep := (e: Entry) => Selected(e, TheNow);
    assert Filter([x, y], keep) == [x, y] by { KeptPair(x, y, keep); }
  }

  lemma SortedPair(x: Entry, y: Entry)
    requires KeyLe(EntryKey(x), EntryKey(y))
    ensures SortBy([x, y], EntryKey) == [x, y]
  {
    hide KeyLe, EntryKey;
    assert [x, y][1..] == [y] && [y][1..] == [];
    assert SortBy([y], EntryKey) == Insert(y, SortBy([], EntryKey), EntryKey) == [y];
  }

  lemma KeptPair(x: Entry, y: Entry, keep: Entry -> bool)
    requires keep(x) && keep(y)
    ensures Filter([x, y], keep) == [x, y]
  {
    FilterStep([x, y], keep);
    FilterStep([y], keep);
    assert [x, y][1..] == [y] && [y][1..] == [];
  }

  lemma FactKeys(s: Timestamp, t: Timestamp, known: Timestamp, i: string, j: string)
    requires StringLe(s.text, t.text) && i != j && (s.text != t.text || StringLe(i, j))
    ensures KeyLt(EntryKey(Fact(i, s, known)), EntryKey(Fact(j, t, known)))
  {
    hide StringLe;
    var a, b := EntryKey(Fact(i, s, known)), EntryKey(Fact(j, t, known));
    assert a[2] == i && b[2] == j;
    if s.text == t.text {
      assert a[1..][0] == b[1..][0] && a[1..][1..][0] == i && b[1..][1..][0] == j;
      assert KeyLe(a[1..][1..], b[1..][1..]);
      assert KeyLe(a[1..], b[1..]);
    }
  }

  lemma IdsInOrder()
    ensures StringLe("a", "b") && "a" != "b" && !StringLe("b", "a")
  {
    assert "a"[0] < "b"[0];
  }

  // ---- main results ----

  /** Every view of every ledger whose valid_from timestamps are among these is in order of valid
      time if and only if a text that sorts first is never the later one. */
  lemma ViewsByValidTimeIff(allowed: Stamps)
    ensures (forall l, q | LedgerOk(l) && ValidFrom(allowed, l) :: ShowsByValidTime(l, q)) <==> TextNeverLater(allowed)
  {
    hide LedgerOk, HistoricalView, EntryKey, KeyLe, StringLe, Selected;
    if TextNeverLater(allowed) {
      forall l, q | LedgerOk(l) && ValidFrom(allowed, l) ensures ShowsByValidTime(l, q) {
        if HistoricalView(l, q).Ok? { ShownByValidTime(allowed, l, q); }
      }
    } else {
      var s, t :| allowed(s) && allowed(t) && StringLe(s.text, t.text) && s.instant > t.instant;
      var l := OutOfTime(allowed, s, t);
      assert !ShowsByValidTime(l, TheNow);
    }
  }

  lemma ShownByValidTime(allowed: Stamps, l: Ledger, q: Query)
    requires TextNeverLater(allowed) && LedgerOk(l) && ValidFrom(allowed, l) && HistoricalView(l, q).Ok?
    ensures ByValidTime(HistoricalView(l, q).value.entries)
  {
    ViewLists(l, q);
    hide LedgerOk, HistoricalView, EntryKey, KeyLe, StringLe, Selected;
    var es := HistoricalView(l, q).value.entries;
    forall i, j | 0 <= i < j < |es| ensures es[i].p.validFrom.instant <= es[j].p.validFrom.instant {
      assert KeyLt(EntryKey(es[i]), EntryKey(es[j]));
      KeyParts(es[i], es[j]);
      assert es[i] in l.entries && es[j] in l.entries;
    }
  }

  lemma OutOfTime(allowed: Stamps, s: Timestamp, t: Timestamp) returns (l: Ledger)
    requires allowed(s) && allowed(t) && StringLe(s.text, t.text) && s.instant > t.instant
    ensures LedgerOk(l) && ValidFrom(allowed, l) && KnownAt(allowed, l)
    ensures !ShowsByValidTime(l, TheNow) && !ShowsInDocumentedOrder(l, TheNow)
  {
    hide LedgerOk, HistoricalView, KeyLe, StringLe, EntryKey;
    IdsInOrder();
    FactKeys(s, t, s, "a", "b");
    l := TwoFacts(Fact("a", s, s), Fact("b", t, s));
    var es := HistoricalView(l, TheNow).value.entries;
    assert es[0].p.validFrom == s && es[1].p.validFrom == t;
    assert !Precedes(es[0], es[1]);
  }

  lemma SameTimeOutOfOrder(allowed: Stamps, s: Timestamp, t: Timestamp) returns (l: Ledger)
    requires allowed(s) && allowed(t) && s.instant <= t.instant && !StringLe(s.text, t.text)
    ensures LedgerOk(l) && ValidFrom(allowed, l) && KnownAt(allowed, l) && !ShowsInDocumentedOrder(l, TheNow)
  {
    hide LedgerOk, HistoricalView, KeyLe, StringLe, EntryKey;
    IdsInOrder();
    StringLeTotal(s.text, t.text);
    StringLeTotal(s.text, s.text);
    FactKeys(t, s, s, "b", "a");
    l := TwoFacts(Fact("b", t, s), Fact("a", s, s));
    var es := HistoricalView(l, TheNow).value.entries;
    assert es[0].p.validFrom == t && es[1].p.validFrom == s;
    assert !Precedes(es[0], es[1]);
  }

  /** Every view is in the documented order (valid_from, known_at, entry_id) if and only if on these
      timestamps the order of texts is the order of instants. */
  lemma ViewsInDocumentedOrderIff(allowed: Stamps)
    ensures (forall l, q | LedgerOk(l) && ValidFrom(allowed, l) && KnownAt(allowed, l) :: ShowsInDocumentedOrder(l, q))
       <==> TextIsTime(allowed)
  {
    hide LedgerOk, HistoricalView, EntryKey, KeyLe, StringLe, Selected, Precedes;
    if TextIsTime(allowed) {
      forall l, q | LedgerOk(l) && ValidFrom(allowed, l) && KnownAt(allowed, l) ensures ShowsInDocumentedOrder(l, q) {
        if HistoricalView(l, q).Ok? { ShownInDocumentedOrder(allowed, l, q); }
      }
    } else {
      var s, t :| allowed(s) && allowed(t) && (StringLe(s.text, t.text) <==> s.instant > t.instant);
      var l;
      if s.instant > t.instant { l := OutOfTime(allowed, s, t); } else { l := SameTimeOutOfOrder(allowed, s, t); }
      assert !ShowsInDocumentedOrder(l, TheNow);
    }
  }

  lemma ShownInDocumentedOrder(allowed: Stamps, l: Ledger, q: Query)
    requires TextIsTime(allowed) && LedgerOk(l) && ValidFrom(allowed, l)
    requires KnownAt(allowed, l) && HistoricalView(l, q).Ok?
    ensures InDocumentedOrder(HistoricalView(l, q).value.entries)
  {
    ViewLists(l, q);
    hide LedgerOk, HistoricalView, EntryKey, KeyLe, StringLe, Selected, Precedes;
    var es := HistoricalView(l, q).value.entries;
    forall i, j | 0 <= i < j < |es| ensures Precedes(es[i], es[j]) {
      assert KeyLt(EntryKey(es[i]), EntryKey(es[j]));
      assert es[i] in l.entries && es[j] in l.entries;
      KeyIsDocumented(allowed, es[i], es[j]);
    }
  }

  const Tokyo := Timestamp("2026-01-02T00:00:00+09:00", 1767279600)
  const Evening := Timestamp("2026-01-01T20:00:00+00:00", 1767297600)

  /** Midnight in Tokyo is five hours before eight in the evening UTC, and is shown after it. */
  lemma TokyoShownLast() returns (l: Ledger)
    ensures Tokyo.instant < Evening.instant
    ensures BuildLedger("l", "c", [Fact("b", Evening, Evening), Fact("a", Tokyo, Evening)]) == Ok(l) && LedgerOk(l)
    ensures HistoricalView(l, TheNow).Ok?
    ensures HistoricalView(l, TheNow).value.entries == [Fact("b", Evening, Evening), Fact("a", Tokyo, Evening)]
    ensures !ShowsByValidTime(l, TheNow) && !ShowsInDocumentedOrder(l, TheNow)
  {
    hide LedgerOk, HistoricalView, KeyLe, EntryKey;
    EveningTextFirst();
    IdsInOrder();
    hide StringLe;
    FactKeys(Evening, Tokyo, Evening, "b", "a");
    l := TwoFacts(Fact("b", Evening, Evening), Fact("a", Tokyo, Evening));
    var es := HistoricalView(l, TheNow).value.entries;
    assert !Precedes(es[0], es[1]);
  }

  lemma CommonPrefix(p: string, a: string, b: string)
    requires StringLe(a, b)
    ensures StringLe(p + a, p + b)
  {
    if p == [] {
      assert p + a == a && p + b == b;
    } else {
      CommonPrefix(p[1..], a, b);
      assert (p + a)[1..] == p[1..] + a && (p + b)[1..] == p[1..] + b;
    }
  }

  lemma FirstDifference(p: string, a: string, b: string)
    requires a != [] && b != [] && a[0] < b[0]
    ensures StringLe(p + a, p + b) && p + a != p + b
  {
    assert StringLe(a, b);
    CommonPrefix(p, a, b);
    assert (p + a)[|p|] == a[0] && (p + b)[|p|] == b[0];
  }

  lemma Split(s: string, p: string, rest: string)
    requires |s| == |p| + |rest|
    requires forall i | 0 <= i < |p| :: s[i] == p[i]
    requires forall i | 0 <= i < |rest| :: s[|p| + i] == rest[i]
    ensures s == p + rest
  {
  }

  lemma EveningSplit()
    ensures Evening.text == "2026-01-0" + "1T20:00:00+00:00"
  {
    Split(Evening.text, "2026-01-0", "1T20:00:00+00:00");
  }

  lemma TokyoSplit()
    ensures Tokyo.text == "2026-01-0" + "2T00:00:00+09:00"
  {
    Split(Tokyo.text, "2026-01-0", "2T00:00:00+09:00");
  }

  lemma EveningTextFirst()
    ensures StringLe(Evening.text, Tokyo.text) && Evening.text != Tokyo.text
  {
    hide StringLe;
    EveningSplit();
    TokyoSplit();
    FirstDifference("2026-01-0", "1T20:00:00+00:00", "2T00:00:00+09:00");
  }
}
