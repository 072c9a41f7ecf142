/** Controlled publication: batches of pointer mutations, compare-and-swap apply, rollback. */
module Publication {
  import opened Basics
  import opened Order
  import opened Cohorts

  datatype Variant = Variant(
    propertyId: string, tier: string, stateKey: string, passportFp: string, reportFp: string,
    eligible: bool, quarantined: bool, stale: bool, publicationState: string)

  datatype Pointer = Pointer(propertyId: string, tier: string, stateKey: Option<string>, reportFp: Option<string>)

  datatype Mutation = Mutation(propertyId: string, tier: string, previous: Option<string>, next: string, nextFp: string)

  type Pointers = map<Key, Pointer>

  function PointerKey(p: Pointer): Key {
    [p.propertyId, p.tier]
  }

  function VariantKey(v: Variant): Key {
    [v.propertyId, v.tier]
  }

  function MutationKey(m: Mutation): Key {
    [m.propertyId, m.tier]
  }

  predicate IsTier(t: string) {
    t == "AGENT" || t == "SELLER" || t == "PUBLIC"
  }

  // ---- batches ----

  predicate Publishable(v: Variant) {
    && IsTier(v.tier) && CanonicalId(v.propertyId) && v.eligible && !v.quarantined && !v.stale
    && (v.publicationState == "MATERIALIZED_NOT_PUBLISHED" || v.publicationState == "PUBLISHED")
    && |v.stateKey| == 64 && |v.passportFp| == 64 && |v.reportFp| == 64
  }

  function StateKeyAt(m: Pointers, k: Key): Option<string> {
    if k in m then m[k].stateKey else None
  }

  /** The places of a cohort, property by property and tier by tier. */
  function Places(pids: seq<string>): seq<(string, string)> {
    if pids == [] then []
    else Places(pids[..|pids| - 1]) + PlacesOf(pids[|pids| - 1])
  }

  function PlacesOf(pid: string): seq<(string, string)> {
    [(pid, "AGENT"), (pid, "SELLER"), (pid, "PUBLIC")]
  }

  function VariantAt(variants: map<Key, Variant>, place: (string, string)): Option<Variant> {
    if [place.0, place.1] in variants then Some(variants[[place.0, place.1]]) else None
  }

  function MutationAt(v: Variant, place: (string, string), current: Pointers): Mutation {
    Mutation(place.0, place.1, StateKeyAt(current, [place.0, place.1]), v.stateKey, v.reportFp)
  }

  /** The mutations of a run of places, as far as variants are publishable. */
  function MutationsOf(places: seq<(string, string)>, variants: map<Key, Variant>, current: Pointers): Result<seq<Mutation>> {
    if places == [] then Ok([]) else
      var n := |places| - 1;
      match MutationsOf(places[..n], variants, current)
      case Err(e) => Err(e)
      case Ok(ms) =>
        match VariantAt(variants, places[n])
        case None => Err("publication variants missing for cohort")
        case Some(v) => if Publishable(v) then Ok(ms + [MutationAt(v, places[n], current)]) else Err("variant cannot publish")
  }

  function BatchOf(pids: seq<string>, variants: seq<Variant>, current: seq<Pointer>): Result<seq<Mutation>> {
    var byKey := Dict(variants, VariantKey);
    if exists place | place in Places(pids) :: VariantAt(byKey, place).None? then
      Err("publication variants missing for cohort")
    else if exists v | v in variants :: v.propertyId !in pids then
      Err("publication batch contains property outside frozen cohort")
    else MutationsOf(Places(pids), byKey, Dict(current, PointerKey))
  }

  method BuildPublicationBatch(pids: seq<string>, variants: seq<Variant>, current: seq<Pointer>)
    returns (r: Result<seq<Mutation>>)
    ensures r.Ok? == BatchOf(pids, variants, current).Ok?
    ensures r.Ok? ==> r == BatchOf(pids, variants, current)
  {
    hide Dict, Publishable, MutationAt;
    var byKey := Dict(variants, VariantKey);
    var pointers := Dict(current, PointerKey);
    if exists place | place in Places(pids) :: VariantAt(byKey, place).None? {
      return Err("publication variants missing for cohort");
    }
    if exists v | v in variants :: v.propertyId !in pids {
      return Err("publication batch contains property outside frozen cohort");
    }
    var places := Places(pids);
    var mutations: seq<Mutation> := [];
    assert places[..0] == [];
    for i := 0 to |places|
      invariant MutationsOf(places[..i], byKey, pointers) == Ok(mutations)
    {
      assert places[..i + 1][..i] == places[..i];
      assert places[i] in places;
      var variant := VariantAt(byKey, places[i]).value;
      if !Publishable(variant) {
        FailureStays(places, i + 1, byKey, pointers);
        return Err("variant cannot publish");
      }
      mutations := mutations + [MutationAt(variant, places[i], pointers)];
    }
    assert places[..|places|] == places;
    r := Ok(mutations);
  }

  lemma {:induction false} FailureStays(places: seq<(string, string)>, i: nat, variants: map<Key, Variant>, current: Pointers)
    requires i <= |places| && MutationsOf(places[..i], variants, current).Err?
    ensures MutationsOf(places, variants, current).Err?
    decreases |places|
  {
    if i < |places| {
      var n := |places| - 1;
      assert places[..n][..i] == places[..i];
      FailureStays(places[..n], i, variants, current);
    } else {
      assert places[..i] == places;
    }
  }

  // ---- compare and swap ----

  function PointerOf(m: Mutation): Pointer {
    Pointer(m.propertyId, m.tier, Some(m.next), Some(m.nextFp))
  }

  function ApplyAll(pointers: Pointers, ms: seq<Mutation>): Result<Pointers>
    decreases |ms|
  {
    if ms == [] then Ok(pointers)
    else if StateKeyAt(pointers, MutationKey(ms[0])) != ms[0].previous then Err("publication pointer changed since batch was built")
    else ApplyAll(pointers[MutationKey(ms[0]) := PointerOf(ms[0])], ms[1..])
  }

  function Restored(before: Pointers, after: Pointers, k: Key): Pointers {
    if k in before then after[k := before[k]] else after - {k}
  }

  function RollbackAll(before: Pointers, after: Pointers, ms: seq<Mutation>): Result<Pointers>
    decreases |ms|
  {
    if ms == [] then Ok(after)
    else if StateKeyAt(after, MutationKey(ms[0])) != Some(ms[0].next) then Err("rollback target no longer matches publication batch")
    else RollbackAll(before, Restored(before, after, MutationKey(ms[0])), ms[1..])
  }

  /** `sorted(pointers.values())`. */
  function Listing(pointers: Pointers): (ps: seq<Pointer>) {
    Listed(SortedKeys(pointers.Keys), pointers)
  }

  function Listed(ks: seq<Key>, pointers: Pointers): seq<Pointer> {
    if ks == [] then []
    else (if ks[0] in pointers then [pointers[ks[0]]] else []) + Listed(ks[1..], pointers)
  }

  function ListingOf(r: Result<Pointers>): Result<seq<Pointer>> {
    match r
    case Ok(pointers) => Ok(Listing(pointers))
    case Err(e) => Err(e)
  }

  method ApplyPointerBatch(ms: seq<Mutation>, current: seq<Pointer>) returns (r: Result<seq<Pointer>>)
    ensures r == ListingOf(ApplyAll(Dict(current, PointerKey), ms))
  {
    hide Dict, Listing;
    var pointers := Dict(current, PointerKey);
    assert ms[0..] == ms;
    for i := 0 to |ms|
      invariant ApplyAll(Dict(current, PointerKey), ms) == ApplyAll(pointers, ms[i..])
    {
      var key := MutationKey(ms[i]);
      var currentKey := if key in pointers then pointers[key].stateKey else None;
      if currentKey != ms[i].previous { return Err("publication pointer changed since batch was built"); }
      pointers := pointers[key := Pointer(ms[i].propertyId, ms[i].tier, Some(ms[i].next), Some(ms[i].nextFp))];
      assert ms[i..][1..] == ms[i + 1..];
    }
    r := Ok(Listing(pointers));
  }

  method RollbackPointerBatch(before: seq<Pointer>, after: seq<Pointer>, ms: seq<Mutation>) returns (r: Result<seq<Pointer>>)
    ensures r == ListingOf(RollbackAll(Dict(before, PointerKey), Dict(after, PointerKey), ms))
  {
    hide Dict, Listing;
    var beforeMap := Dict(before, PointerKey);
    var afterMap := Dict(after, PointerKey);
    assert ms[0..] == ms;
    for i := 0 to |ms|
      invariant RollbackAll(beforeMap, Dict(after, PointerKey), ms) == RollbackAll(beforeMap, afterMap, ms[i..])
    {
      var key := MutationKey(ms[i]);
      if key !in afterMap || afterMap[key].stateKey != Some(ms[i].next) {
        return Err("rollback target no longer matches publication batch");
      }
      if key in beforeMap {
        afterMap := afterMap[key := beforeMap[key]];
      } else {
        afterMap := afterMap - {key};
      }
      assert ms[i..][1..] == ms[i + 1..];
    }
    r := Ok(Listing(afterMap));
  }

  // ---- what a batch with one mutation per key does ----

  ghost predicate OncePerKey(ms: seq<Mutation>) {
    DistinctKeys(ms, MutationKey)
  }

  ghost predicate Touches(ms: seq<Mutation>, k: Key) {
    exists m | m in ms :: MutationKey(m) == k
  }

  /** Every mutation expects what is there. */
  ghost predicate Expected(pointers: Pointers, ms: seq<Mutation>) {
    forall m | m in ms :: StateKeyAt(pointers, MutationKey(m)) == m.previous
  }

  /** `after` is `pointers` with the batch's places overwritten. */
  ghost predicate Overwritten(pointers: Pointers, ms: seq<Mutation>, after: Pointers) {
    && (forall m | m in ms :: MutationKey(m) in after && after[MutationKey(m)] == PointerOf(m))
    && SameElsewhere(pointers, after, ms)
  }

  ghost predicate SameElsewhere(a: Pointers, b: Pointers, ms: seq<Mutation>) {
    forall k: Key | !Touches(ms, k) :: (k in a <==> k in b) && (k in a && k in b ==> a[k] == b[k])
  }

  lemma ExpectedStep(pointers: Pointers, ms: seq<Mutation>)
    requires ms != [] && forall x | x in ms[1..] :: MutationKey(x) != MutationKey(ms[0])
    ensures Expected(pointers, ms) <==>
            StateKeyAt(pointers, MutationKey(ms[0])) == ms[0].previous
            && Expected(pointers[MutationKey(ms[0]) := PointerOf(ms[0])], ms[1..])
  {
    hide MutationKey, PointerOf;
    var next := pointers[MutationKey(ms[0]) := PointerOf(ms[0])];
    assert forall x | x in ms[1..] :: StateKeyAt(next, MutationKey(x)) == StateKeyAt(pointers, MutationKey(x));
    assert ms == [ms[0]] + ms[1..];
  }

  lemma OverwrittenStep(pointers: Pointers, ms: seq<Mutation>, after: Pointers)
    requires ms != [] && forall x | x in ms[1..] :: MutationKey(x) != MutationKey(ms[0])
    requires Overwritten(pointers[MutationKey(ms[0]) := PointerOf(ms[0])], ms[1..], after)
    ensures Overwritten(pointers, ms, after)
  {
    hide MutationKey, PointerOf, Touches;
    var m, rest := ms[0], ms[1..];
    assert ms == [m] + rest;
    assert !Touches(rest, MutationKey(m)) by { NoneTouches(rest, MutationKey(m)); }
    forall k: Key | !Touches(ms, k) ensures !Touches(rest, k) && k != MutationKey(m) { NotTouched(ms, k); }
  }

  lemma NoneTouches(ms: seq<Mutation>, k: Key)
    requires forall x | x in ms :: MutationKey(x) != k
    ensures !Touches(ms, k)
  {
  }

  lemma {:induction false} ApplyFacts(pointers: Pointers, ms: seq<Mutation>)
    requires OncePerKey(ms)
    ensures ApplyAll(pointers, ms).Ok? <==> Expected(pointers, ms)
    ensures ApplyAll(pointers, ms).Ok? ==> Overwritten(pointers, ms, ApplyAll(pointers, ms).value)
    decreases |ms|
  {
    hide MutationKey, PointerOf, OncePerKey, Touches;
    if ms != [] {
      RestOnce(ms);
      ApplyFacts(pointers[MutationKey(ms[0]) := PointerOf(ms[0])], ms[1..]);
      hide Expected, Overwritten;
      ExpectedStep(pointers, ms);
      if Expected(pointers, ms) { OverwrittenStep(pointers, ms, ApplyAll(pointers, ms).value); }
    }
  }

  lemma RestOnce(ms: seq<Mutation>)
    requires OncePerKey(ms) && ms != []
    ensures OncePerKey(ms[1..]) && forall x | x in ms[1..] :: MutationKey(x) != MutationKey(ms[0])
  {
    DistinctSlice(ms, MutationKey, 1, |ms|);
    assert ms[1..|ms|] == ms[1..];
    forall x | x in ms[1..] ensures MutationKey(x) != MutationKey(ms[0]) {
      var i :| 0 <= i < |ms[1..]| && ms[1..][i] == x;
      assert ms[i + 1] == x;
    }
  }

  lemma NotTouched(ms: seq<Mutation>, k: Key)
    requires ms != [] && !Touches(ms, k)
    ensures !Touches(ms[1..], k) && k != MutationKey(ms[0])
  {
    assert ms[0] in ms;
    forall m | m in ms[1..] ensures MutationKey(m) != k { assert m in ms; }
  }

  /** Every place of the batch still holds what the batch wrote. */
  ghost predicate StillThere(after: Pointers, ms: seq<Mutation>) {
    forall m | m in ms :: StateKeyAt(after, MutationKey(m)) == Some(m.next)
  }

  /** `r` is `after` with the batch's places put back to `before`. */
  ghost predicate PutBack(before: Pointers, after: Pointers, ms: seq<Mutation>, r: Pointers) {
    SameElsewhere(after, r, ms) && forall m | m in ms :: SameAt(before, r, MutationKey(m))
  }

  lemma StillThereStep(before: Pointers, after: Pointers, ms: seq<Mutation>)
    requires ms != [] && forall x | x in ms[1..] :: MutationKey(x) != MutationKey(ms[0])
    ensures StillThere(after, ms) <==>
            StateKeyAt(after, MutationKey(ms[0])) == Some(ms[0].next)
            && StillThere(Restored(before, after, MutationKey(ms[0])), ms[1..])
  {
    hide MutationKey;
    var next := Restored(before, after, MutationKey(ms[0]));
    assert forall x | x in ms[1..] :: StateKeyAt(next, MutationKey(x)) == StateKeyAt(after, MutationKey(x));
    assert ms == [ms[0]] + ms[1..];
  }

  lemma PutBackStep(before: Pointers, after: Pointers, ms: seq<Mutation>, r: Pointers)
    requires ms != [] && forall x | x in ms[1..] :: MutationKey(x) != MutationKey(ms[0])
    requires PutBack(before, Restored(before, after, MutationKey(ms[0])), ms[1..], r)
    ensures PutBack(before, after, ms, r)
  {
    hide MutationKey, Touches;
    var m, rest := ms[0], ms[1..];
    assert ms == [m] + rest;
    assert !Touches(rest, MutationKey(m)) by { NoneTouches(rest, MutationKey(m)); }
    forall k: Key | !Touches(ms, k) ensures !Touches(rest, k) && k != MutationKey(m) { NotTouched(ms, k); }
  }

  lemma {:induction false} RollbackFacts(before: Pointers, after: Pointers, ms: seq<Mutation>)
    requires OncePerKey(ms)
    ensures RollbackAll(before, after, ms).Ok? <==> StillThere(after, ms)
    ensures RollbackAll(before, after, ms).Ok? ==> PutBack(before, after, ms, RollbackAll(before, after, ms).value)
    decreases |ms|
  {
    hide MutationKey, OncePerKey, Touches, Restored;
    if ms != [] {
      RestOnce(ms);
      RollbackFacts(before, Restored(before, after, MutationKey(ms[0])), ms[1..]);
      hide StillThere, PutBack;
      StillThereStep(before, after, ms);
      if StillThere(after, ms) { PutBackStep(before, after, ms, RollbackAll(before, after, ms).value); }
    }
  }

  ghost predicate SameAt(a: Pointers, b: Pointers, k: Key) {
    (k in a <==> k in b) && (k in a && k in b ==> a[k] == b[k])
  }

  lemma SameEverywhere(a: Pointers, b: Pointers)
    requires forall k: Key :: SameAt(a, b, k)
    ensures a == b
  {
    assert forall k: Key :: SameAt(a, b, k) ==> (k in a <==> k in b);
  }

  // ---- main results ----

  /** Applying a batch and rolling it back restores the pointers exactly. */
  lemma RollbackRestores(before: Pointers, ms: seq<Mutation>)
    requires OncePerKey(ms) && ApplyAll(before, ms).Ok?
    ensures RollbackAll(before, ApplyAll(before, ms).value, ms) == Ok(before)
  {
    hide ApplyAll, RollbackAll, OncePerKey;
    var after := ApplyAll(before, ms).value;
    ApplyFacts(before, ms);
    assert StillThere(after, ms);
    RollbackFacts(before, after, ms);
    var r := RollbackAll(before, after, ms).value;
    forall k: Key ensures SameAt(r, before, k) {
      if Touches(ms, k) { var m :| m in ms && MutationKey(m) == k; }
    }
    SameEverywhere(r, before);
  }

  ghost predicate Disjoint(a: seq<Mutation>, b: seq<Mutation>) {
    forall m, n | m in a && n in b :: MutationKey(m) != MutationKey(n)
  }

  lemma DisjointTouch(a: seq<Mutation>, b: seq<Mutation>)
    requires Disjoint(a, b)
    ensures forall m | m in b :: !Touches(a, MutationKey(m))
    ensures forall m | m in a :: !Touches(b, MutationKey(m))
  {
  }

  /** After a batch, a batch over other places finds there exactly what it found before. */
  lemma StillExpected(pointers: Pointers, a: seq<Mutation>, b: seq<Mutation>)
    requires OncePerKey(a) && OncePerKey(b) && Disjoint(a, b) && ApplyAll(pointers, a).Ok?
    ensures ApplyAll(ApplyAll(pointers, a).value, b).Ok? <==> ApplyAll(pointers, b).Ok?
  {
    hide ApplyAll, OncePerKey, Touches;
    var after := ApplyAll(pointers, a).value;
    ApplyFacts(pointers, a);
    ApplyFacts(pointers, b);
    ApplyFacts(after, b);
    DisjointTouch(a, b);
    forall m | m in b ensures StateKeyAt(after, MutationKey(m)) == StateKeyAt(pointers, MutationKey(m)) {}
  }

  /** Batches over different places commute, including whether they are accepted. */
  lemma BatchesCommute(pointers: Pointers, a: seq<Mutation>, b: seq<Mutation>)
    requires OncePerKey(a) && OncePerKey(b) && Disjoint(a, b)
    requires ApplyAll(pointers, a).Ok? && ApplyAll(pointers, b).Ok?
    ensures ApplyAll(ApplyAll(pointers, a).value, b).Ok?
    ensures ApplyAll(ApplyAll(pointers, a).value, b) == ApplyAll(ApplyAll(pointers, b).value, a)
  {
    hide ApplyAll, OncePerKey, Touches;
    var pa, pb := ApplyAll(pointers, a).value, ApplyAll(pointers, b).value;
    StillExpected(pointers, a, b);
    StillExpected(pointers, b, a);
    ApplyFacts(pointers, a);
    ApplyFacts(pointers, b);
    ApplyFacts(pa, b);
    ApplyFacts(pb, a);
    var ab, ba := ApplyAll(pa, b).value, ApplyAll(pb, a).value;
    DisjointTouch(a, b);
    forall k: Key ensures SameAt(ab, ba, k) { CommuteAt(pointers, a, b, pa, pb, ab, ba, k); }
    SameEverywhere(ab, ba);
  }

  lemma CommuteAt(p: Pointers, a: seq<Mutation>, b: seq<Mutation>, pa: Pointers, pb: Pointers, ab: Pointers, ba: Pointers, k: Key)
    requires Overwritten(p, a, pa) && Overwritten(p, b, pb) && Overwritten(pa, b, ab) && Overwritten(pb, a, ba) && Disjoint(a, b)
    ensures SameAt(ab, ba, k)
  {
    if Touches(a, k) {
      var m :| m in a && MutationKey(m) == k;
      assert !Touches(b, k);
    } else if Touches(b, k) {
      var m :| m in b && MutationKey(m) == k;
    }
  }

  /** Rolling a batch back after another batch over other places ran leaves exactly the state in
      which only that other batch ran. */
  lemma RollbackIsolates(before: Pointers, ms: seq<Mutation>, other: seq<Mutation>)
    requires OncePerKey(ms) && OncePerKey(other) && Disjoint(ms, other)
    requires ApplyAll(before, ms).Ok? && ApplyAll(before, other).Ok?
    ensures ApplyAll(ApplyAll(before, ms).value, other).Ok?
    ensures RollbackAll(before, ApplyAll(ApplyAll(before, ms).value, other).value, ms) == ApplyAll(before, other)
  {
    hide ApplyAll, RollbackAll, OncePerKey, Touches;
    var mid := ApplyAll(before, ms).value;
    StillExpected(before, ms, other);
    var after := ApplyAll(mid, other).value;
    ApplyFacts(before, ms);
    ApplyFacts(before, other);
    ApplyFacts(mid, other);
    DisjointTouch(ms, other);
    assert StillThere(after, ms);
    RollbackFacts(before, after, ms);
    var r, alone := RollbackAll(before, after, ms).value, ApplyAll(before, other).value;
    forall k: Key ensures SameAt(r, alone, k) { IsolatesAt(before, ms, other, mid, after, r, alone, k); }
    SameEverywhere(r, alone);
  }

  lemma IsolatesAt(before: Pointers, ms: seq<Mutation>, other: seq<Mutation>, mid: Pointers, after: Pointers, r: Pointers, alone: Pointers, k: Key)
    requires Overwritten(before, ms, mid) && Overwritten(mid, other, after) && Overwritten(before, other, alone)
    requires SameElsewhere(after, r, ms) && (forall m | m in ms :: SameAt(before, r, MutationKey(m))) && Disjoint(ms, other)
    ensures SameAt(r, alone, k)
  {
    if Touches(ms, k) {
      var m :| m in ms && MutationKey(m) == k;
      assert !Touches(other, k);
    } else if Touches(other, k) {
      var m :| m in other && MutationKey(m) == k;
    }
  }

  /** A mutation that leaves the published state key as it is. */
  predicate Idle(pointers: Pointers, m: Mutation) {
    StateKeyAt(pointers, MutationKey(m)) == Some(m.next)
  }

  /** Of two batches built on the same pointers the second is accepted after the first exactly
      when the first changed nothing where they meet: no update is ever lost. */
  lemma SecondBatchRefused(pointers: Pointers, a: seq<Mutation>, b: seq<Mutation>)
    requires OncePerKey(a) && OncePerKey(b) && ApplyAll(pointers, a).Ok? && ApplyAll(pointers, b).Ok?
    ensures ApplyAll(ApplyAll(pointers, a).value, b).Ok?
            <==> forall m, n | m in a && n in b && MutationKey(m) == MutationKey(n) :: Idle(pointers, m)
  {
    hide ApplyAll, OncePerKey;
    var after := ApplyAll(pointers, a).value;
    ApplyFacts(pointers, a);
    ApplyFacts(pointers, b);
    ApplyFacts(after, b);
    forall m, n | m in a && n in b && MutationKey(m) == MutationKey(n)
      ensures Idle(pointers, m) <==> StateKeyAt(after, MutationKey(n)) == n.previous
    {
      assert after[MutationKey(m)] == PointerOf(m);
      assert StateKeyAt(pointers, MutationKey(n)) == n.previous;
    }
    forall n | n in b && !Touches(a, MutationKey(n)) ensures StateKeyAt(after, MutationKey(n)) == n.previous {}
  }

  // ---- listings ----

  ghost predicate WellKeyed(pointers: Pointers) {
    forall k | k in pointers :: PointerKey(pointers[k]) == k
  }

  lemma {:induction false} ListedFacts(ks: seq<Key>, pointers: Pointers)
    requires WellKeyed(pointers) && (forall k | k in ks :: k in pointers) && StrictlySorted(ks, (k: Key) => k)
    ensures |Listed(ks, pointers)| == |ks|
    ensures forall i | 0 <= i < |ks| :: Listed(ks, pointers)[i] == pointers[ks[i]]
    ensures StrictlySorted(Listed(ks, pointers), PointerKey)
  {
    if ks != [] {
      assert StrictlySorted(ks[1..], (k: Key) => k);
      ListedFacts(ks[1..], pointers);
      assert ks[0] in ks;
      var all := Listed(ks, pointers);
      forall i | 0 <= i < |ks| ensures all[i] == pointers[ks[i]] {
        if i > 0 { assert ks[1..][i - 1] == ks[i]; }
      }
      forall i, j | 0 <= i < j < |all| ensures KeyLt(PointerKey(all[i]), PointerKey(all[j])) {
        assert ks[i] in ks && ks[j] in ks;
        assert PointerKey(all[i]) == ks[i] && PointerKey(all[j]) == ks[j];
      }
    }
  }

  lemma ListedMembers(ks: seq<Key>, all: seq<Pointer>, pointers: Pointers)
    requires WellKeyed(pointers) && (forall k :: k in ks <==> k in pointers)
    requires |all| == |ks| && forall i | 0 <= i < |ks| :: ks[i] in pointers && all[i] == pointers[ks[i]]
    ensures forall p | p in all :: PointerKey(p) in pointers && pointers[PointerKey(p)] == p
    ensures forall k | k in pointers :: pointers[k] in all
  {
    hide PointerKey;
    forall p | p in all ensures PointerKey(p) in pointers && pointers[PointerKey(p)] == p {
      var i :| 0 <= i < |all| && all[i] == p;
    }
    forall k | k in pointers ensures pointers[k] in all {
      var i :| 0 <= i < |ks| && ks[i] == k;
      assert all[i] == pointers[k];
    }
  }

  lemma ListingFacts(pointers: Pointers)
    requires WellKeyed(pointers)
    ensures StrictlySorted(Listing(pointers), PointerKey) && |Listing(pointers)| == |pointers|
    ensures forall p | p in Listing(pointers) :: PointerKey(p) in pointers && pointers[PointerKey(p)] == p
    ensures forall k | k in pointers :: pointers[k] in Listing(pointers)
  {
    var ks := SortedKeys(pointers.Keys);
    SortedKeysFacts(pointers.Keys);
    hide SortedKeys, PointerKey, WellKeyed;
    ListedFacts(ks, pointers);
    hide StrictlySorted, Listed;
    SizeOfKeys(pointers);
    forall i | 0 <= i < |ks| ensures ks[i] in pointers { assert ks[i] in ks; }
    ListedMembers(ks, Listed(ks, pointers), pointers);
  }

  lemma {:induction false} SizeOfKeys(m: Pointers)
    ensures |m.Keys| == |m|
  {
  }

  lemma StrictDistinct(ps: seq<Pointer>)
    requires StrictlySorted(ps, PointerKey)
    ensures DistinctKeys(ps, PointerKey)
  {
    hide PointerKey;
    forall i, j | 0 <= i < j < |ps| ensures PointerKey(ps[i]) != PointerKey(ps[j]) {
      assert KeyLt(PointerKey(ps[i]), PointerKey(ps[j]));
    }
  }

  /** Reading a listing back gives the pointers. */
  lemma DictOfListing(pointers: Pointers)
    requires WellKeyed(pointers)
    ensures Dict(Listing(pointers), PointerKey) == pointers
  {
    var ps := Listing(pointers);
    ListingFacts(pointers);
    StrictDistinct(ps);
    hide StrictlySorted, DistinctKeys, Listing;
    DistinctUnique(ps, PointerKey);
    hide PointerKey;
    var d := Dict(ps, PointerKey);
    forall k | k in pointers ensures k in d && d[k] == pointers[k] {
      assert pointers[k] in ps && PointerKey(pointers[k]) == k;
      DictLookup(ps, PointerKey, pointers[k]);
    }
    forall k | k in d ensures k in pointers { assert d[k] in ps; }
  }

  lemma DistinctExtends(ps: seq<Pointer>)
    requires ps != [] && DistinctKeys(ps[..|ps| - 1], PointerKey)
    requires forall p | p in ps[..|ps| - 1] :: PointerKey(p) != PointerKey(ps[|ps| - 1])
    ensures DistinctKeys(ps, PointerKey)
  {
    hide PointerKey;
    var n := |ps| - 1;
    forall i, j | 0 <= i < j < |ps| ensures PointerKey(ps[i]) != PointerKey(ps[j]) {
      assert ps[..n][i] in ps[..n];
      if j < n { assert PointerKey(ps[..n][i]) != PointerKey(ps[..n][j]); }
    }
  }

  lemma DictStep(ps: seq<Pointer>)
    requires ps != []
    ensures var d, k := Dict(ps[..|ps| - 1], PointerKey), PointerKey(ps[|ps| - 1]);
            |Dict(ps, PointerKey)| == |d| + if k in d then 0 else 1
  {
    hide PointerKey;
    var d, k := Dict(ps[..|ps| - 1], PointerKey), PointerKey(ps[|ps| - 1]);
    assert Dict(ps, PointerKey).Keys == d.Keys + {k};
    SizeOfKeys(d);
    SizeOfKeys(Dict(ps, PointerKey));
  }

  lemma {:induction false} DictSize(ps: seq<Pointer>)
    ensures |Dict(ps, PointerKey)| <= |ps|
    ensures |Dict(ps, PointerKey)| == |ps| ==> DistinctKeys(ps, PointerKey)
  {
    if ps != [] {
      var init := ps[..|ps| - 1];
      DictSize(init);
      DictStep(ps);
      hide Dict, PointerKey, DistinctKeys;
      if |Dict(ps, PointerKey)| == |ps| { DistinctExtends(ps); }
    }
  }

  lemma DictWellKeyed(ps: seq<Pointer>)
    ensures WellKeyed(Dict(ps, PointerKey))
  {
  }

  /** Listing the pointers read from a sequence sorts the sequence exactly when it has one
      pointer per place. */
  lemma ListingSortsDistinct(ps: seq<Pointer>)
    ensures Listing(Dict(ps, PointerKey)) == SortBy(ps, PointerKey) <==> DistinctKeys(ps, PointerKey)
  {
    var d := Dict(ps, PointerKey);
    DictWellKeyed(ps);
    ListingFacts(d);
    SortFacts(ps, PointerKey);
    DictSize(ps);
    hide Listing, SortBy, PointerKey, Dict, StrictlySorted;
    if DistinctKeys(ps, PointerKey) {
      SortStrict(ps, PointerKey);
      DistinctUnique(ps, PointerKey);
      forall p | p in ps ensures p in Listing(d) { DictLookup(ps, PointerKey, p); }
      StrictlySortedUnique(Listing(d), SortBy(ps, PointerKey), PointerKey);
    }
  }

  // ---- batches built from the current pointers ----

  lemma {:induction false} PlacesDistinct(pids: seq<string>)
    requires DistinctKeys(pids, IdKey)
    ensures forall i, j | 0 <= i < j < |Places(pids)| :: Places(pids)[i] != Places(pids)[j]
    ensures forall place | place in Places(pids) :: place.0 in pids
  {
    if pids != [] {
      var n := |pids| - 1;
      assert pids[0..n] == pids[..n];
      DistinctSlice(pids, IdKey, 0, n);
      PlacesDistinct(pids[..n]);
      assert pids == pids[..n] + [pids[n]];
      NotEarlier(pids, n, n);
    }
  }

  lemma {:induction false} MutationsFacts(places: seq<(string, string)>, variants: map<Key, Variant>, current: Pointers)
    requires MutationsOf(places, variants, current).Ok?
    ensures var ms := MutationsOf(places, variants, current).value;
            && |ms| == |places|
            && (forall i | 0 <= i < |ms| :: ms[i].propertyId == places[i].0 && ms[i].tier == places[i].1)
            && Expected(current, ms)
  {
    hide VariantAt, Publishable;
    if places != [] {
      MutationsFacts(places[..|places| - 1], variants, current);
    }
  }

  /** A batch built from a frozen cohort mutates each place once and applies to the pointers it
      was built from. */
  lemma BuiltBatchApplies(pids: seq<string>, variants: seq<Variant>, current: seq<Pointer>)
    requires DistinctKeys(pids, IdKey) && BatchOf(pids, variants, current).Ok?
    ensures var ms := BatchOf(pids, variants, current).value;
            OncePerKey(ms) && ApplyAll(Dict(current, PointerKey), ms).Ok? && |ms| == |Places(pids)|
  {
    var places, byKey, pointers := Places(pids), Dict(variants, VariantKey), Dict(current, PointerKey);
    PlacesDistinct(pids);
    MutationsFacts(places, byKey, pointers);
    var ms := BatchOf(pids, variants, current).value;
    hide MutationsOf, Places, Dict, Expected, ApplyAll;
    forall i, j | 0 <= i < j < |ms| ensures MutationKey(ms[i]) != MutationKey(ms[j]) {
      assert places[i] != places[j];
      assert MutationKey(ms[i])[0] == places[i].0 && MutationKey(ms[i])[1] == places[i].1;
      assert MutationKey(ms[j])[0] == places[j].0 && MutationKey(ms[j])[1] == places[j].1;
    }
    ApplyFacts(pointers, ms);
  }

  // ---- the rollback drill ----

  method VerifyPublicationRollback(before: seq<Pointer>, ms: seq<Mutation>) returns (r: Result<bool>)
    ensures r == DrillOf(before, ms)
  {
    var after := ApplyPointerBatch(ms, before);
    if after.Err? { return Err(after.error); }
    var restored := RollbackPointerBatch(before, after.value, ms);
    if restored.Err? { return Err(restored.error); }
    r := Ok(restored.value == SortBy(before, PointerKey));
  }

  function DrillOf(before: seq<Pointer>, ms: seq<Mutation>): Result<bool> {
    var after := ListingOf(ApplyAll(Dict(before, PointerKey), ms));
    if after.Err? then Err(after.error) else
      var restored := ListingOf(RollbackAll(Dict(before, PointerKey), Dict(after.value, PointerKey), ms));
      if restored.Err? then Err(restored.error) else Ok(restored.value == SortBy(before, PointerKey))
  }

  lemma {:induction false} ApplyWellKeyed(pointers: Pointers, ms: seq<Mutation>)
    requires WellKeyed(pointers) && ApplyAll(pointers, ms).Ok?
    ensures WellKeyed(ApplyAll(pointers, ms).value)
    decreases |ms|
  {
    if ms != [] { ApplyWellKeyed(pointers[MutationKey(ms[0]) := PointerOf(ms[0])], ms[1..]); }
  }

  /** The drill succeeds exactly when the pointers it starts from have one pointer per place. */
  lemma DrillSucceedsIff(before: seq<Pointer>, ms: seq<Mutation>)
    requires OncePerKey(ms) && ApplyAll(Dict(before, PointerKey), ms).Ok?
    ensures DrillOf(before, ms) == Ok(DistinctKeys(before, PointerKey))
  {
    hide Listing, SortBy, Dict, ApplyAll, RollbackAll, DistinctKeys, WellKeyed;
    var start := Dict(before, PointerKey);
    var after := ApplyAll(start, ms).value;
    DictWellKeyed(before);
    ApplyWellKeyed(start, ms);
    DictOfListing(after);
    RollbackRestores(start, ms);
    ListingSortsDistinct(before);
  }
}
