/** What the receipts of one idempotency key look like on an append-only ledger: the discipline
    that executions and rollbacks share. */
module IdempotencyLedger {
  import opened Execution

  /** The part of a receipt the discipline speaks of. */
  datatype Entry<K> = Entry(key: K, outcome: Outcome, attempted: bool, suppressed: bool)

  ghost predicate Recorded<K>(es: seq<Entry<K>>, k: K) {
    exists e | e in es :: e.key == k
  }

  ghost predicate UnknownRecorded<K>(es: seq<Entry<K>>, k: K) {
    exists e | e in es :: e.key == k && e.outcome.OutcomeUnknown?
  }

  ghost predicate UnknownOrBlockedRecorded<K>(es: seq<Entry<K>>, k: K) {
    exists e | e in es :: e.key == k && IsUnknown(e.outcome)
  }

  /** The first receipt of a key records an adapter call; every later one is suppressed, and
      blocked when an unknown outcome is on record. */
  ghost predicate Fits<K>(prior: seq<Entry<K>>, e: Entry<K>) {
    if !Recorded(prior, e.key) then
      e.attempted && !e.suppressed && (e.outcome.Succeeded? || e.outcome.Failed? || e.outcome.OutcomeUnknown?)
    else
      && !e.attempted && e.suppressed
      && e.outcome == if UnknownRecorded(prior, e.key) then BlockedOutcomeUnknown else DuplicateSuppressed
  }

  ghost predicate Disciplined<K>(es: seq<Entry<K>>) {
    forall j | 0 <= j < |es| :: Fits(es[..j], es[j])
  }

  lemma ExtendDisciplined<K>(es: seq<Entry<K>>, e: Entry<K>)
    requires Disciplined(es) && Fits(es, e)
    ensures Disciplined(es + [e])
  {
    var all := es + [e];
    forall j | 0 <= j < |all| ensures Fits(all[..j], all[j]) {
      if j < |es| { assert all[..j] == es[..j]; } else { assert all[..j] == es; }
    }
  }

  /** Looking for OUTCOME_UNKNOWN alone finds a key exactly when looking for blocks as well does. */
  lemma NarrowTestIsWide<K>(es: seq<Entry<K>>, k: K)
    requires Disciplined(es)
    ensures UnknownRecorded(es, k) <==> UnknownOrBlockedRecorded(es, k)
  {
    if UnknownOrBlockedRecorded(es, k) {
      var e :| e in es && e.key == k && IsUnknown(e.outcome);
      var j :| 0 <= j < |es| && es[j] == e;
      assert Fits(es[..j], es[j]);
      if e.outcome.BlockedOutcomeUnknown? {
        assert UnknownRecorded(es[..j], k);
        var u :| u in es[..j] && u.key == k && u.outcome.OutcomeUnknown?;
        assert u in es;
      }
    }
    if UnknownRecorded(es, k) {
      var e :| e in es && e.key == k && e.outcome.OutcomeUnknown?;
      assert IsUnknown(e.outcome);
    }
  }

  /** Of two receipts of one key the later is suppressed, and blocked exactly when the first
      receipt of the key is unknown: an unknown outcome stays blocked for ever. */
  lemma LaterIsSuppressed<K>(es: seq<Entry<K>>, i: nat, j: nat)
    requires Disciplined(es) && i < j < |es| && es[i].key == es[j].key
    ensures !es[j].attempted && es[j].suppressed
    ensures es[i].attempted ==>
              es[j].outcome == if es[i].outcome.OutcomeUnknown? then BlockedOutcomeUnknown else DuplicateSuppressed
  {
    assert Fits(es[..j], es[j]);
    EarlierRecorded(es, i, j);
    assert es[i] in es[..j];
    if es[i].attempted && UnknownRecorded(es[..j], es[i].key) {
      var u :| u in es[..j] && u.key == es[i].key && u.outcome.OutcomeUnknown?;
      var k :| 0 <= k < j && es[k] == u;
      OneAttempt(es, i, k);
    }
  }

  lemma EarlierRecorded<K>(es: seq<Entry<K>>, i: nat, j: nat)
    requires i < j < |es| && es[i].key == es[j].key
    ensures es[i] in es[..j] && Recorded(es[..j], es[j].key)
  {
    assert es[..j][i] == es[i];
    assert es[i] in es[..j];
  }

  /** An unknown outcome and an attempt of the same key are the same receipt. */
  lemma OneAttempt<K>(es: seq<Entry<K>>, i: nat, k: nat)
    requires Disciplined(es) && i < |es| && k < |es| && es[i].key == es[k].key
    requires es[i].attempted && es[k].outcome.OutcomeUnknown?
    ensures i == k
  {
    assert Fits(es[..i], es[i]) && Fits(es[..k], es[k]);
    if i < k { EarlierRecorded(es, i, k); }
    if k < i { EarlierRecorded(es, k, i); }
  }

  /** What a ledger of receipts records, read through its entries. */
  lemma SeenThrough<R, K>(rs: seq<R>, es: seq<Entry<K>>, entry: R -> Entry<K>, k: K)
    requires |es| == |rs| && forall i | 0 <= i < |rs| :: es[i] == entry(rs[i])
    ensures Recorded(es, k) <==> exists x | x in rs :: entry(x).key == k
    ensures UnknownRecorded(es, k) <==> exists x | x in rs :: entry(x).key == k && entry(x).outcome.OutcomeUnknown?
    ensures UnknownOrBlockedRecorded(es, k) <==> exists x | x in rs :: entry(x).key == k && IsUnknown(entry(x).outcome)
  {
    forall x | x in rs ensures entry(x) in es {
      var i :| 0 <= i < |rs| && rs[i] == x;
      assert es[i] == entry(x);
    }
    forall e | e in es ensures exists x | x in rs :: entry(x) == e {
      var i :| 0 <= i < |es| && es[i] == e;
      assert rs[i] in rs;
    }
  }

  // ---- counting ----

  function Count<K(==)>(keys: seq<K>, k: K): nat {
    if keys == [] then 0 else Count(keys[..|keys| - 1], k) + (if keys[|keys| - 1] == k then 1 else 0)
  }

  /** One call for every recorded key and none for any other. */
  ghost predicate OneCallEach<K(!new)>(es: seq<Entry<K>>, calls: seq<K>) {
    forall k :: Count(calls, k) == if Recorded(es, k) then 1 else 0
  }

  lemma ExtendCalled<K(!new)>(es: seq<Entry<K>>, calls: seq<K>, e: Entry<K>)
    requires OneCallEach(es, calls) && !Recorded(es, e.key)
    ensures OneCallEach(es + [e], calls + [e.key])
  {
    forall k ensures Count(calls + [e.key], k) == if Recorded(es + [e], k) then 1 else 0 {
      assert (calls + [e.key])[..|calls|] == calls;
      RecordedExtends(es, e, k);
    }
  }

  lemma ExtendSuppressed<K(!new)>(es: seq<Entry<K>>, calls: seq<K>, e: Entry<K>)
    requires OneCallEach(es, calls) && Recorded(es, e.key)
    ensures OneCallEach(es + [e], calls)
  {
    forall k ensures Count(calls, k) == if Recorded(es + [e], k) then 1 else 0 {
      RecordedExtends(es, e, k);
    }
  }

  lemma RecordedExtends<K>(es: seq<Entry<K>>, e: Entry<K>, k: K)
    ensures Recorded(es + [e], k) <==> Recorded(es, k) || e.key == k
  {
    if Recorded(es, k) {
      var x :| x in es && x.key == k;
      assert x in es + [e];
    }
    if e.key == k { assert e in es + [e]; }
  }

  lemma {:induction false} CountedOnce<K>(keys: seq<K>, i: nat)
    requires i < |keys|
    ensures Count(keys, keys[i]) >= 1
  {
    var n := |keys| - 1;
    if i < n { CountedOnce(keys[..n], i); }
  }

  lemma {:induction false} CountedTwice<K>(keys: seq<K>, i: nat, j: nat)
    requires i < j < |keys| && keys[i] == keys[j]
    ensures Count(keys, keys[i]) >= 2
  {
    var n := |keys| - 1;
    if j < n { CountedTwice(keys[..n], i, j); } else { CountedOnce(keys[..n], i); }
  }

  lemma {:induction false} CountFinds<K>(keys: seq<K>, k: K)
    requires Count(keys, k) > 0
    ensures exists i :: 0 <= i < |keys| && keys[i] == k
  {
    if keys != [] {
      var n := |keys| - 1;
      if keys[n] != k {
        CountFinds(keys[..n], k);
        var i :| 0 <= i < n && keys[..n][i] == k;
        assert keys[i] == k;
      }
    }
  }

  /** A key is recorded exactly when it was called. */
  lemma CalledIffRecorded<K(!new)>(es: seq<Entry<K>>, calls: seq<K>, k: K)
    requires OneCallEach(es, calls)
    ensures Recorded(es, k) <==> k in calls
  {
    hide Recorded;
    if k in calls {
      var i :| 0 <= i < |calls| && calls[i] == k;
      CountedOnce(calls, i);
    }
    if Count(calls, k) > 0 { CountFinds(calls, k); }
  }
}
