/** When the text of a set-like list ignores the order of the list: exactly when no set-like
    path passes through one of its indices. */
module SetLikePaths {
  import opened Basics
  import opened Order
  import opened Numbers
  import opened CanonicalJson
  import opened CanonicalReader

  ghost predicate Permuted(xs: seq<Value>, ys: seq<Value>) {
    && WellFormed(Arr(xs)) && WellFormed(Arr(ys)) && NoMarker(Arr(xs)) && NoMarker(Arr(ys))
    && multiset(xs) == multiset(ys)
  }

  function ListTextAt(xs: seq<Value>, path: Path, sets: set<string>): Option<string> {
    Encode(Canonical(Arr(xs), path, sets))
  }

  ghost predicate IgnoresListOrder(path: Path, sets: set<string>) {
    forall xs, ys | Permuted(xs, ys) :: ListTextAt(xs, path, sets) == ListTextAt(ys, path, sets)
  }

  /** Dicts nested along `suffix` around a list whose order shows. */
  function Nest(suffix: Path): (v: Value)
    ensures WellFormed(v) && NoMarker(v)
  {
    if suffix == [] then Arr([Str("b"), Str("a")])
    else
      var ms := [Member(suffix[0], Nest(suffix[1..])), Member(suffix[0] + "+", Null)];
      assert MemberKey(ms[0]) != MemberKey(ms[1]);
      Obj(ms)
  }

  lemma InnerList(path: Path, sets: set<string>)
    ensures Canonical(Nest([]), path, sets) ==
            CArr(if PathString(path) in sets then [CStr("a"), CStr("b")] else [CStr("b"), CStr("a")])
  {
    hide PathString, Digits;
    var cs := CanonicalItems([Str("b"), Str("a")], path, sets);
    assert cs == [CStr("b"), CStr("a")];
    InnerSorted();
  }

  lemma InnerSorted()
    ensures SortBy([CStr("b"), CStr("a")], TextKey) == [CStr("a"), CStr("b")]
  {
    var b, a := CStr("b"), CStr("a");
    OneLetter('a');
    OneLetter('b');
    assert TextKey(a) == [Quoted(['a'])] && TextKey(b) == [Quoted(['b'])];
    assert Quoted(['a']) == "\"a\"" && Quoted(['b']) == "\"b\"";
    assert !StringLe("\"b\"", "\"a\"") by { assert "\"b\""[1..] == "b\"" && "\"a\""[1..] == "a\""; }
    assert [b, a][1..] == [a];
    assert [a][1..] == [];
    assert SortBy([a], TextKey) == [a];
    assert Insert(b, [a], TextKey) == [a, b];
  }

  lemma OneLetter(c: char)
    requires c == 'a' || c == 'b'
    ensures Quoted([c]) == "\"" + [c] + "\""
  {
    assert [c][1..] == [];
    assert Escaped([]) == "";
    assert Escaped([c]) == [c];
  }

  /** The nested list tells apart two places of which one is set-like and the other is not. */
  lemma {:induction false} NestSeesPath(suffix: Path, p: Path, q: Path, sets: set<string>)
    requires PathString(p + suffix) in sets && PathString(q + suffix) !in sets
    ensures Canonical(Nest(suffix), p, sets) != Canonical(Nest(suffix), q, sets)
    decreases |suffix|
  {
    hide PathString;
    if suffix == [] {
      assert p + [] == p && q + [] == q;
      InnerList(p, sets);
      InnerList(q, sets);
      assert [CStr("a"), CStr("b")][0] != [CStr("b"), CStr("a")][0];
    } else {
      var k := suffix[0];
      assert p + suffix == (p + [k]) + suffix[1..] && q + suffix == (q + [k]) + suffix[1..];
      NestSeesPath(suffix[1..], p + [k], q + [k], sets);
      NestedMembersDiffer(suffix, p, q, sets);
    }
  }

  lemma NestedMembersDiffer(suffix: Path, p: Path, q: Path, sets: set<string>)
    requires suffix != []
    requires Canonical(Nest(suffix[1..]), p + [suffix[0]], sets) != Canonical(Nest(suffix[1..]), q + [suffix[0]], sets)
    ensures Canonical(Nest(suffix), p, sets) != Canonical(Nest(suffix), q, sets)
  {
    hide SortBy;
    var ms := Nest(suffix).members;
    var cs, ds := CanonicalMembers(ms, p, sets), CanonicalMembers(ms, q, sets);
    SortFacts(cs, CMemberKey);
    SortFacts(ds, CMemberKey);
    assert cs[0] in SortBy(cs, CMemberKey);
    assert cs[0] !in ds by { assert cs[0] != ds[0] && cs[0].key != ds[1].key; }
  }

  // ---- some index is not touched ----

  function PathThrough(path: Path, suffix: Path, j: nat): string {
    PathString(path + [Digits(j)] + suffix)
  }

  lemma {:induction false} SlashJoinedConcat(p: Path, q: Path)
    ensures SlashJoined(p + q) == SlashJoined(p) + SlashJoined(q)
  {
    if p == [] {
      assert p + q == q;
    } else {
      SlashJoinedConcat(p[1..], q);
      assert (p + q)[1..] == p[1..] + q;
    }
  }

  lemma PathThroughInjective(path: Path, suffix: Path, j: nat, k: nat)
    requires PathThrough(path, suffix, j) == PathThrough(path, suffix, k)
    ensures j == k
  {
    hide ToNat;
    ThroughText(path, suffix, j);
    ThroughText(path, suffix, k);
    hide PathThrough, Digits, SlashJoined;
    var a, b, head, tail := Digits(j), Digits(k), SlashJoined(path) + "/", SlashJoined(suffix);
    assert head + a + tail == head + b + tail;
    assert |a| == |b|;
    assert a == (head + a + tail)[|head|..|head| + |a|] && b == (head + b + tail)[|head|..|head| + |b|];
    ReadDigits(j);
    ReadDigits(k);
  }

  lemma SingleStep(d: string)
    ensures SlashJoined([d]) == "/" + d
  {
    assert [d][1..] == [];
  }

  lemma ThroughText(path: Path, suffix: Path, j: nat)
    ensures PathThrough(path, suffix, j) == (SlashJoined(path) + "/") + Digits(j) + SlashJoined(suffix)
  {
    hide Digits, SlashJoined;
    var d := Digits(j);
    SlashJoinedConcat(path + [d], suffix);
    SlashJoinedConcat(path, [d]);
    SingleStep(d);
    assert SlashJoined(path) + ("/" + d) == (SlashJoined(path) + "/") + d;
  }

  ghost function Throughs(path: Path, suffix: Path, n: nat): set<string> {
    if n == 0 then {} else Throughs(path, suffix, n - 1) + {PathThrough(path, suffix, n - 1)}
  }

  lemma {:induction false} ThroughsFacts(path: Path, suffix: Path, n: nat)
    ensures |Throughs(path, suffix, n)| == n
    ensures forall s | s in Throughs(path, suffix, n) :: exists j | 0 <= j < n :: s == PathThrough(path, suffix, j)
  {
    hide PathThrough;
    if n > 0 {
      ThroughsFacts(path, suffix, n - 1);
      var s := PathThrough(path, suffix, n - 1);
      if s in Throughs(path, suffix, n - 1) {
        var j :| 0 <= j < n - 1 && s == PathThrough(path, suffix, j);
        PathThroughInjective(path, suffix, j, n - 1);
      }
    }
  }

  lemma SomeIndexUntouched(path: Path, suffix: Path, sets: set<string>) returns (j: nat)
    ensures PathThrough(path, suffix, j) !in sets
  {
    hide PathThrough;
    var n := |sets| + 1;
    if forall j: nat | j < n :: PathThrough(path, suffix, j) in sets {
      ThroughsFacts(path, suffix, n);
      Subset(Throughs(path, suffix, n), sets);
    }
    j :| j < n && PathThrough(path, suffix, j) !in sets;
  }

  lemma {:induction false} Subset(a: set<string>, b: set<string>)
    requires a <= b
    ensures |a| <= |b|
    decreases a
  {
    if a != {} {
      var x :| x in a;
      Subset(a - {x}, b - {x});
    }
  }

  // ---- the condition is needed ----

  function Alone(d: Value, i: nat, n: nat): (xs: seq<Value>)
    requires i < n
    ensures |xs| == n && xs[i] == d && forall k | 0 <= k < n && k != i :: xs[k] == Null
  {
    seq(n, _ => Null)[i := d]
  }

  lemma AlonePermuted(d: Value, i: nat, j: nat, n: nat)
    requires i < n && j < n && WellFormed(d) && NoMarker(d)
    ensures Permuted(Alone(d, i, n), Alone(d, j, n))
  {
    var nulls: seq<Value> := seq(n, _ => Null);
    assert Alone(d, i, n) == nulls[i := d] && Alone(d, j, n) == nulls[j := d];
    assert multiset(nulls[i := d]) == multiset(nulls) - multiset{Null} + multiset{d};
    assert multiset(nulls[j := d]) == multiset(nulls) - multiset{Null} + multiset{d};
  }

  lemma ElementInCanonical(xs: seq<Value>, path: Path, sets: set<string>, c: Canon)
    requires PathString(path) in sets && Canonical(Arr(xs), path, sets).CArr?
    ensures c in Canonical(Arr(xs), path, sets).items <==> c in CanonicalItems(xs, path, sets)
  {
    hide PathString, SortBy;
    SortFacts(CanonicalItems(xs, path, sets), TextKey);
  }

  lemma PlacesDiffer(suffix: Path, i: nat, j: nat, n: nat, path: Path, sets: set<string>)
    requires i < n && j < n && PathString(path) in sets
    requires PathThrough(path, suffix, i) in sets && PathThrough(path, suffix, j) !in sets
    ensures ListTextAt(Alone(Nest(suffix), i, n), path, sets) != ListTextAt(Alone(Nest(suffix), j, n), path, sets)
  {
    var d := Nest(suffix);
    var xs, ys := Alone(d, i, n), Alone(d, j, n);
    NestSeesPath(suffix, path + [Digits(i)], path + [Digits(j)], sets);
    AlonePermuted(d, i, j, n);
    CanonicalIsClean(Arr(xs), path, sets);
    CanonicalIsClean(Arr(ys), path, sets);
    var c := Canonical(d, path + [Digits(i)], sets);
    NestNotNull(suffix, path + [Digits(i)], sets);
    hide PathString, PathThrough, SortBy, Nest, Encode, Clean, Digits;
    ElementInCanonical(xs, path, sets, c);
    ElementInCanonical(ys, path, sets, c);
    assert CanonicalItems(xs, path, sets)[i] == c;
    assert c !in CanonicalItems(ys, path, sets);
    if ListTextAt(xs, path, sets) == ListTextAt(ys, path, sets) {
      EncodeInjective(Canonical(Arr(xs), path, sets), Canonical(Arr(ys), path, sets));
    }
  }

  lemma NestNotNull(suffix: Path, path: Path, sets: set<string>)
    ensures Canonical(Nest(suffix), path, sets) != CNull
  {
  }

  /** The text of the set-like list at `path` ignores the order of the list exactly when no
      set-like path passes through one of its indices. */
  lemma IgnoresListOrderIff(path: Path, sets: set<string>)
    requires PathString(path) in sets
    ensures IgnoresListOrder(path, sets) <==> ElementsUntouched(path, sets)
  {
    hide PathString, Encode, Canonical, WellFormed, NoMarker;
    if ElementsUntouched(path, sets) {
      forall xs, ys | Permuted(xs, ys) ensures ListTextAt(xs, path, sets) == ListTextAt(ys, path, sets) {
        PermutedList(xs, ys, path, sets);
        ListText(xs, ys, path, sets);
      }
    } else {
      var i: nat, suffix: Path :| PathString(path + [Digits(i)] + suffix) in sets;
      var j := SomeIndexUntouched(path, suffix, sets);
      var n := if i < j then j + 1 else i + 1;
      AlonePermuted(Nest(suffix), i, j, n);
      PlacesDiffer(suffix, i, j, n, path, sets);
    }
  }
}
