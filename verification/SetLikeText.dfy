/** When two values that hold set-like lists have one text: exactly when they are equal up to the
    order of dict members, rounded numbers and the order of those lists. */
module SetLikeText {
  import opened Order
  import opened Numbers
  import opened CanonicalJson
  import opened CanonicalReader

  /** No set-like path passes through an index of a set-like list. */
  ghost predicate Flat(sets: set<string>) {
    forall path: Path | PathString(path) in sets :: ElementsUntouched(path, sets)
  }

  /** The lists are permutations of each other: the first element of `xs` is the same as some
      element of `ys`, and what is left of both matches too. */
  ghost predicate Matching(xs: seq<Value>, ys: seq<Value>, eq: (Number, Number) -> bool)
    decreases |xs|
  {
    if xs == [] then ys == []
    else exists k | 0 <= k < |ys| :: Same(xs[0], ys[k], eq) && Matching(xs[1..], Without(ys, k), eq)
  }

  function Without<T>(s: seq<T>, k: nat): seq<T>
    requires k < |s|
  {
    s[..k] + s[k + 1..]
  }

  /** Equality up to the order of dict members and of set-like lists, numbers being compared by `eq`. */
  ghost predicate SameSets(v: Value, w: Value, path: Path, sets: set<string>, eq: (Number, Number) -> bool)
    decreases v
  {
    match (v, w)
    case (Num(a), Num(b)) => eq(a, b)
    case (Arr(xs), Arr(ys)) =>
      if PathString(path) in sets then Matching(xs, ys, eq)
      else |xs| == |ys| && forall i | 0 <= i < |xs| :: SameSets(xs[i], ys[i], path + [Digits(i)], sets, eq)
    case (Obj(ms), Obj(ns)) =>
      && (forall i | 0 <= i < |ms| :: SomeSameSets(ms[i], ns, path, sets, eq))
      && (forall j | 0 <= j < |ns| :: SomeKey(ns[j].key, ms))
    case _ => v == w
  }

  ghost predicate SomeSameSets(m: Member, ns: seq<Member>, path: Path, sets: set<string>, eq: (Number, Number) -> bool)
    decreases m
  {
    exists j | 0 <= j < |ns| :: ns[j].key == m.key && SameSets(m.value, ns[j].value, path + [m.key], sets, eq)
  }

  // ---- set-like lists ----

  /** Sorting clean structures by their text forgets their order and nothing else. */
  lemma SortedCleanIff(cs: seq<Canon>, ds: seq<Canon>)
    requires (forall c | c in cs :: Clean(c)) && (forall d | d in ds :: Clean(d))
    ensures SortBy(cs, TextKey) == SortBy(ds, TextKey) <==> multiset(cs) == multiset(ds)
  {
    hide Encode, Clean, SortBy, TextKey;
    var s, t := SortBy(cs, TextKey), SortBy(ds, TextKey);
    SortFacts(cs, TextKey);
    SortFacts(ds, TextKey);
    if multiset(cs) == multiset(ds) {
      MappedPermutation(cs, ds, Encodings(cs), Encodings(ds), Encode);
      SortedTextsAgree(cs, ds);
      assert |s| == |Encodings(s)| == |Encodings(t)| == |t|;
      forall i | 0 <= i < |s| ensures s[i] == t[i] {
        assert s[i] in cs && t[i] in ds;
        assert Encodings(s)[i] == Encode(s[i]) && Encodings(t)[i] == Encode(t[i]);
        EncodeInjective(s[i], t[i]);
      }
    }
  }

  /** Structures that agree exactly where their values do are permutations exactly where they are. */
  lemma {:induction false} MatchingIff(
    xs: seq<Value>, ys: seq<Value>, cs: seq<Canon>, ds: seq<Canon>, eq: (Number, Number) -> bool)
    requires |cs| == |xs| && |ds| == |ys|
    requires forall i, j | 0 <= i < |xs| && 0 <= j < |ys| :: cs[i] == ds[j] <==> Same(xs[i], ys[j], eq)
    ensures multiset(cs) == multiset(ds) <==> Matching(xs, ys, eq)
    decreases |xs|
  {
    hide Same;
    if xs == [] {
      if multiset(cs) == multiset(ds) { SameLength(cs, ds); }
      assert ys == [] ==> cs == ds;
    } else {
      forall k | 0 <= k < |ys| && cs[0] == ds[k]
        ensures multiset(cs) == multiset(ds) <==> Matching(xs[1..], Without(ys, k), eq)
      {
        MatchingRest(xs, ys, cs, ds, k, eq);
        MatchingIff(xs[1..], Without(ys, k), cs[1..], Without(ds, k), eq);
        HeadsOff(cs, ds, k);
      }
      if multiset(cs) == multiset(ds) {
        assert cs[0] in multiset(ds);
        var k :| 0 <= k < |ds| && ds[k] == cs[0];
        assert Same(xs[0], ys[k], eq) && Matching(xs[1..], Without(ys, k), eq);
      }
      if Matching(xs, ys, eq) {
        var k :| 0 <= k < |ys| && Same(xs[0], ys[k], eq) && Matching(xs[1..], Without(ys, k), eq);
        assert cs[0] == ds[k];
      }
    }
  }

  lemma MatchingRest(
    xs: seq<Value>, ys: seq<Value>, cs: seq<Canon>, ds: seq<Canon>, k: nat, eq: (Number, Number) -> bool)
    requires |cs| == |xs| && |ds| == |ys| && xs != [] && k < |ys|
    requires forall i, j | 0 <= i < |xs| && 0 <= j < |ys| :: cs[i] == ds[j] <==> Same(xs[i], ys[j], eq)
    ensures forall i, j | 0 <= i < |xs[1..]| && 0 <= j < |Without(ys, k)| ::
      cs[1..][i] == Without(ds, k)[j] <==> Same(xs[1..][i], Without(ys, k)[j], eq)
  {
    hide Same;
    forall i, j | 0 <= i < |xs[1..]| && 0 <= j < |Without(ys, k)|
      ensures cs[1..][i] == Without(ds, k)[j] <==> Same(xs[1..][i], Without(ys, k)[j], eq)
    {
      var j' := if j < k then j else j + 1;
      assert Without(ys, k)[j] == ys[j'] && Without(ds, k)[j] == ds[j'];
      assert cs[i + 1] == ds[j'] <==> Same(xs[i + 1], ys[j'], eq);
    }
  }

  lemma HeadsOff(cs: seq<Canon>, ds: seq<Canon>, k: nat)
    requires cs != [] && k < |ds| && cs[0] == ds[k]
    ensures multiset(cs) == multiset(ds) <==> multiset(cs[1..]) == multiset(Without(ds, k))
  {
    RemoveAt(cs, 0, cs[1..]);
    RemoveAt(ds, k, Without(ds, k));
    if multiset(cs) == multiset(ds) { Cancel(cs[0], cs, ds, cs[1..], Without(ds, k)); }
  }

  // ---- structures ----

  lemma SetLikeLists(xs: seq<Value>, ys: seq<Value>, path: Path, sets: set<string>)
    requires WellFormed(Arr(xs)) && WellFormed(Arr(ys)) && NoMarker(Arr(xs)) && NoMarker(Arr(ys))
    requires PathString(path) in sets && ElementsUntouched(path, sets)
    ensures Canonical(Arr(xs), path, sets) == Canonical(Arr(ys), path, sets) <==> Matching(xs, ys, SameRounded)
  {
    hide PathString, SortBy, Same, Matching, Clean, Encode, Untouched;
    var cs, ds := CanonicalItems(xs, path, sets), CanonicalItems(ys, path, sets);
    CleanItems(xs, path, sets);
    CleanItems(ys, path, sets);
    SortedCleanIff(cs, ds);
    forall i, j | 0 <= i < |xs| && 0 <= j < |ys| ensures cs[i] == ds[j] <==> Same(xs[i], ys[j], SameRounded) {
      UntouchedEverywhere(xs[i], path + [Digits(i)], sets);
      UntouchedEverywhere(ys[j], path + [Digits(j)], sets);
      SameCanonical(xs[i], ys[j]);
    }
    MatchingIff(xs, ys, cs, ds, SameRounded);
  }

  lemma CleanItems(xs: seq<Value>, path: Path, sets: set<string>)
    requires WellFormed(Arr(xs)) && NoMarker(Arr(xs))
    ensures forall c | c in CanonicalItems(xs, path, sets) :: Clean(c)
  {
    hide Clean, Canonical;
    var cs := CanonicalItems(xs, path, sets);
    forall c | c in cs ensures Clean(c) {
      var i :| 0 <= i < |cs| && cs[i] == c;
      CanonicalIsClean(xs[i], path + [Digits(i)], sets);
    }
  }

  /** Canonical structure keeps exactly what this equality sees. */
  lemma {:induction false} SameStructureIff(v: Value, w: Value, path: Path, sets: set<string>)
    requires WellFormed(v) && WellFormed(w) && NoMarker(v) && NoMarker(w) && Flat(sets)
    ensures Canonical(v, path, sets) == Canonical(w, path, sets) <==> SameSets(v, w, path, sets, SameRounded)
    decreases v
  {
    hide PathString, NormalizeNumber, Rounded, SameNumber, SortBy, ElementsUntouched;
    match (v, w)
    case (Num(a), Num(b)) => SameTextIffSameRounded(a, b);
    case (Num(a), Obj(ms)) => SortedNotMarkerOnly(ms, path, sets);
    case (Obj(ms), Num(a)) => SortedNotMarkerOnly(ms, path, sets);
    case (Arr(xs), Arr(ys)) =>
      if PathString(path) in sets { SetLikeLists(xs, ys, path, sets); } else { SameLists(xs, ys, path, sets); }
    case (Obj(ms), Obj(ns)) => SameDicts(ms, ns, path, sets);
    case _ =>
  }

  lemma {:induction false} SameLists(xs: seq<Value>, ys: seq<Value>, path: Path, sets: set<string>)
    requires WellFormed(Arr(xs)) && WellFormed(Arr(ys)) && NoMarker(Arr(xs)) && NoMarker(Arr(ys)) && Flat(sets)
    requires PathString(path) !in sets
    ensures Canonical(Arr(xs), path, sets) == Canonical(Arr(ys), path, sets) <==> SameSets(Arr(xs), Arr(ys), path, sets, SameRounded)
    decreases xs
  {
    hide PathString, SortBy, Flat;
    var cs, ds := CanonicalItems(xs, path, sets), CanonicalItems(ys, path, sets);
    if |xs| == |ys| {
      forall i | 0 <= i < |xs| ensures cs[i] == ds[i] <==> SameSets(xs[i], ys[i], path + [Digits(i)], sets, SameRounded) {
        SameStructureIff(xs[i], ys[i], path + [Digits(i)], sets);
      }
      assert cs == ds <==> forall i | 0 <= i < |xs| :: cs[i] == ds[i];
    }
  }

  lemma {:induction false} SameDicts(ms: seq<Member>, ns: seq<Member>, path: Path, sets: set<string>)
    requires WellFormed(Obj(ms)) && WellFormed(Obj(ns)) && NoMarker(Obj(ms)) && NoMarker(Obj(ns)) && Flat(sets)
    ensures Canonical(Obj(ms), path, sets) == Canonical(Obj(ns), path, sets) <==> SameSets(Obj(ms), Obj(ns), path, sets, SameRounded)
    decreases ms
  {
    hide SortBy, DistinctKeys, SomeKey, SomeSameSets, Flat;
    var cs, ds := CanonicalMembers(ms, path, sets), CanonicalMembers(ns, path, sets);
    CanonicalMembersDistinct(ms, path, sets);
    CanonicalMembersDistinct(ns, path, sets);
    forall i | 0 <= i < |ms| ensures cs[i] in ds <==> SomeSameSets(ms[i], ns, path, sets, SameRounded) {
      forall j | 0 <= j < |ns| && ns[j].key == ms[i].key
        ensures Canonical(ms[i].value, path + [ms[i].key], sets) == Canonical(ns[j].value, path + [ms[i].key], sets)
           <==> SameSets(ms[i].value, ns[j].value, path + [ms[i].key], sets, SameRounded)
      {
        SameStructureIff(ms[i].value, ns[j].value, path + [ms[i].key], sets);
      }
      MemberAmong(ms[i], ns, path, sets);
    }
    SameMembersIff(cs, ds);
    hide Canonical, SameRounded;
    forall j | 0 <= j < |ns| ensures HasKey(ds[j].key, cs) <==> SomeKey(ns[j].key, ms) {
      if HasKey(ds[j].key, cs) { KeyAmong(ms, ds[j].key, path, sets); }
      if SomeKey(ns[j].key, ms) { KeyCanonical(ms, ns[j].key, path, sets); }
    }
    hide HasKey;
    assert (forall i | 0 <= i < |cs| :: cs[i] in ds) <==> forall i | 0 <= i < |ms| :: SomeSameSets(ms[i], ns, path, sets, SameRounded);
    assert (forall j | 0 <= j < |ds| :: HasKey(ds[j].key, cs)) <==> forall j | 0 <= j < |ns| :: SomeKey(ns[j].key, ms);
  }

  /** Sorted members are equal exactly when one list lies within the other and has all its keys. */
  lemma SameMembersIff(cs: seq<CMember>, ds: seq<CMember>)
    requires DistinctKeys(cs, CMemberKey) && DistinctKeys(ds, CMemberKey)
    ensures SortBy(cs, CMemberKey) == SortBy(ds, CMemberKey) <==>
            (forall i | 0 <= i < |cs| :: cs[i] in ds) && (forall j | 0 <= j < |ds| :: HasKey(ds[j].key, cs))
  {
    hide SortBy, DistinctKeys;
    SortFacts(cs, CMemberKey);
    SortFacts(ds, CMemberKey);
    if SortBy(cs, CMemberKey) == SortBy(ds, CMemberKey) {
      forall j | 0 <= j < |ds| ensures HasKey(ds[j].key, cs) { assert ds[j] in cs; }
    }
    if (forall i | 0 <= i < |cs| :: cs[i] in ds) && (forall j | 0 <= j < |ds| :: HasKey(ds[j].key, cs)) {
      AllMembers(cs, ds);
      SortSameElements(cs, ds, CMemberKey);
    }
  }

  lemma MemberAmong(m: Member, ns: seq<Member>, path: Path, sets: set<string>)
    requires forall j | 0 <= j < |ns| && ns[j].key == m.key ::
      Canonical(m.value, path + [m.key], sets) == Canonical(ns[j].value, path + [m.key], sets)
      <==> SameSets(m.value, ns[j].value, path + [m.key], sets, SameRounded)
    ensures CMember(m.key, Canonical(m.value, path + [m.key], sets)) in CanonicalMembers(ns, path, sets)
       <==> SomeSameSets(m, ns, path, sets, SameRounded)
  {
    hide Canonical, SameSets;
    var ds, c := CanonicalMembers(ns, path, sets), CMember(m.key, Canonical(m.value, path + [m.key], sets));
    if c in ds {
      var j :| 0 <= j < |ds| && ds[j] == c;
      assert ns[j].key == m.key && SameSets(m.value, ns[j].value, path + [m.key], sets, SameRounded);
    }
    if SomeSameSets(m, ns, path, sets, SameRounded) {
      var j :| 0 <= j < |ns| && ns[j].key == m.key && SameSets(m.value, ns[j].value, path + [m.key], sets, SameRounded);
      assert ds[j] == c;
    }
  }

  lemma KeyAmong(ms: seq<Member>, key: string, path: Path, sets: set<string>)
    requires HasKey(key, CanonicalMembers(ms, path, sets))
    ensures SomeKey(key, ms)
  {
    var cs := CanonicalMembers(ms, path, sets);
    var c :| c in cs && c.key == key;
    var i :| 0 <= i < |cs| && cs[i] == c;
    assert ms[i].key == key;
  }

  // ---- main results ----

  /** Two marker-free values have one text exactly when they are equal up to the order of dict
      members, the order of set-like lists, and the value of their numbers rounded to 28 digits. */
  lemma SameTextIffSameSets(v: Value, w: Value, sets: set<string>)
    requires WellFormed(v) && WellFormed(w) && NoMarker(v) && NoMarker(w) && Flat(sets)
    ensures CanonicalText(v, sets) == CanonicalText(w, sets) <==> SameSets(v, w, [], sets, SameRounded)
  {
    hide Encode, Canonical, SameSets, Flat;
    SameStructureIff(v, w, [], sets);
    CanonicalIsClean(v, [], sets);
    CanonicalIsClean(w, [], sets);
    if CanonicalText(v, sets) == CanonicalText(w, sets) { EncodeInjective(Canonical(v, [], sets), Canonical(w, [], sets)); }
  }

  lemma {:induction false} ExactMatching(xs: seq<Value>, ys: seq<Value>)
    requires ExactNumbers(Arr(xs)) && ExactNumbers(Arr(ys))
    ensures Matching(xs, ys, SameRounded) <==> Matching(xs, ys, SameNumber)
    decreases |xs|
  {
    hide Same, SameNumber, SameRounded;
    if xs != [] {
      forall k | 0 <= k < |ys|
        ensures Same(xs[0], ys[k], SameRounded) <==> Same(xs[0], ys[k], SameNumber)
        ensures Matching(xs[1..], Without(ys, k), SameRounded) <==> Matching(xs[1..], Without(ys, k), SameNumber)
      {
        ExactSame(xs[0], ys[k]);
        ExactMatching(xs[1..], Without(ys, k));
      }
    }
  }

  lemma {:induction false} ExactSameSets(v: Value, w: Value, path: Path, sets: set<string>)
    requires ExactNumbers(v) && ExactNumbers(w)
    ensures SameSets(v, w, path, sets, SameRounded) <==> SameSets(v, w, path, sets, SameNumber)
    decreases v
  {
    hide SameNumber, Rounded, Exact, PathString, Matching;
    match (v, w)
    case (Num(a), Num(b)) => SameTextIffSameRounded(a, b); NormalForm(a, b);
    case (Arr(xs), Arr(ys)) =>
      if PathString(path) in sets {
        ExactMatching(xs, ys);
      } else if |xs| == |ys| {
        forall i | 0 <= i < |xs|
          ensures SameSets(xs[i], ys[i], path + [Digits(i)], sets, SameRounded)
             <==> SameSets(xs[i], ys[i], path + [Digits(i)], sets, SameNumber)
        {
          ExactSameSets(xs[i], ys[i], path + [Digits(i)], sets);
        }
      }
    case (Obj(ms), Obj(ns)) =>
      forall i | 0 <= i < |ms|
        ensures SomeSameSets(ms[i], ns, path, sets, SameRounded) <==> SomeSameSets(ms[i], ns, path, sets, SameNumber)
      {
        forall j | 0 <= j < |ns|
          ensures SameSets(ms[i].value, ns[j].value, path + [ms[i].key], sets, SameRounded)
             <==> SameSets(ms[i].value, ns[j].value, path + [ms[i].key], sets, SameNumber)
        {
          ExactSameSets(ms[i].value, ns[j].value, path + [ms[i].key], sets);
        }
      }
    case _ =>
  }

  /** With at most 28 significant digits everywhere, equal text means equal value up to those orders. */
  lemma DecodableUpToOrder(v: Value, w: Value, sets: set<string>)
    requires WellFormed(v) && WellFormed(w) && NoMarker(v) && NoMarker(w) && Flat(sets)
    requires ExactNumbers(v) && ExactNumbers(w)
    ensures CanonicalText(v, sets) == CanonicalText(w, sets) <==> SameSets(v, w, [], sets, SameNumber)
  {
    hide SameSets, Flat, ExactNumbers;
    SameTextIffSameSets(v, w, sets);
    ExactSameSets(v, w, [], sets);
  }
}
