/** Code-point order on strings and on tuples of strings, stable sorting by a key, and the
    fact everything else rests on: a strictly sorted sequence is determined by its elements. */
module Order {

  /** A sort key: a tuple of strings, compared lexicographically. */
  type Key = seq<string>

  predicate StringLe(a: string, b: string) {
    a == [] || (b != [] && (a[0] < b[0] || (a[0] == b[0] && StringLe(a[1..], b[1..]))))
  }

  predicate KeyLe(a: Key, b: Key) {
    a == [] || (b != [] && (if a[0] == b[0] then KeyLe(a[1..], b[1..]) else StringLe(a[0], b[0])))
  }

  predicate KeyLt(a: Key, b: Key) {
    a != b && KeyLe(a, b)
  }

  lemma {:induction false} StringLeTotal(a: string, b: string)
    ensures StringLe(a, b) || StringLe(b, a)
  {
    if a != [] && b != [] && a[0] == b[0] { StringLeTotal(a[1..], b[1..]); }
  }

  lemma {:induction false} StringLeAntisymmetric(a: string, b: string)
    requires StringLe(a, b) && StringLe(b, a)
    ensures a == b
  {
    if a != [] && b != [] {
      StringLeAntisymmetric(a[1..], b[1..]);
      assert a == [a[0]] + a[1..] && b == [b[0]] + b[1..];
    }
  }

  lemma {:induction false} StringLeTransitive(a: string, b: string, c: string)
    requires StringLe(a, b) && StringLe(b, c)
    ensures StringLe(a, c)
  {
    if a != [] && a[0] == b[0] && b[0] == c[0] { StringLeTransitive(a[1..], b[1..], c[1..]); }
  }

  lemma {:induction false} KeyLeTotal(a: Key, b: Key)
    ensures KeyLe(a, b) || KeyLe(b, a)
  {
    if a != [] && b != [] {
      if a[0] == b[0] { KeyLeTotal(a[1..], b[1..]); } else { StringLeTotal(a[0], b[0]); }
    }
  }

  lemma {:induction false} KeyLeAntisymmetric(a: Key, b: Key)
    requires KeyLe(a, b) && KeyLe(b, a)
    ensures a == b
  {
    if a != [] && b != [] {
      if a[0] != b[0] { StringLeAntisymmetric(a[0], b[0]); }
      KeyLeAntisymmetric(a[1..], b[1..]);
      assert a == [a[0]] + a[1..] && b == [b[0]] + b[1..];
    }
  }

  lemma {:induction false} KeyLeTransitive(a: Key, b: Key, c: Key)
    requires KeyLe(a, b) && KeyLe(b, c)
    ensures KeyLe(a, c)
  {
    if a != [] {
      if a[0] == b[0] && b[0] == c[0] {
        KeyLeTransitive(a[1..], b[1..], c[1..]);
      } else if a[0] != b[0] && b[0] != c[0] {
        StringLeTransitive(a[0], b[0], c[0]);
        if a[0] == c[0] { StringLeAntisymmetric(a[0], b[0]); }
      }
    }
  }

  // ---- sorting a sequence by a key ----

  function Insert<T>(x: T, s: seq<T>, key: T -> Key): seq<T> {
    if s == [] then [x]
    else if KeyLe(key(x), key(s[0])) then [x] + s
    else [s[0]] + Insert(x, s[1..], key)
  }

  /** Python's `sorted(s, key=key)`: stable. */
  function SortBy<T>(s: seq<T>, key: T -> Key): seq<T> {
    if s == [] then [] else Insert(s[0], SortBy(s[1..], key), key)
  }

  ghost predicate Sorted<T>(s: seq<T>, key: T -> Key) {
    forall i, j | 0 <= i < j < |s| :: KeyLe(key(s[i]), key(s[j]))
  }

  predicate DistinctKeys<T>(s: seq<T>, key: T -> Key) {
    forall i, j | 0 <= i < j < |s| :: key(s[i]) != key(s[j])
  }

  ghost predicate StrictlySorted<T>(s: seq<T>, key: T -> Key) {
    forall i, j | 0 <= i < j < |s| :: KeyLt(key(s[i]), key(s[j]))
  }

  ghost predicate SameElements<T>(s: seq<T>, t: seq<T>) {
    (forall x | x in s :: x in t) && (forall x | x in t :: x in s)
  }

  lemma {:induction false} InsertFacts<T>(x: T, s: seq<T>, key: T -> Key)
    ensures multiset(Insert(x, s, key)) == multiset([x]) + multiset(s)
    ensures Sorted(s, key) ==> Sorted(Insert(x, s, key), key)
  {
    var r := Insert(x, s, key);
    if s == [] {
    } else if KeyLe(key(x), key(s[0])) {
      if Sorted(s, key) {
        forall j | 0 <= j < |s| ensures KeyLe(key(x), key(s[j])) {
          if j > 0 { KeyLeTransitive(key(x), key(s[0]), key(s[j])); }
        }
      }
    } else {
      InsertFacts(x, s[1..], key);
      assert s == [s[0]] + s[1..];
      if Sorted(s, key) {
        KeyLeTotal(key(x), key(s[0]));
        var tail := Insert(x, s[1..], key);
        forall j | 0 <= j < |tail| ensures KeyLe(key(s[0]), key(tail[j])) {
          assert tail[j] in multiset(tail);
          assert tail[j] in multiset([x]) + multiset(s[1..]);
          assert tail[j] == x || tail[j] in s[1..];
        }
      }
    }
  }

  lemma {:induction false} SortFacts<T>(s: seq<T>, key: T -> Key)
    ensures multiset(SortBy(s, key)) == multiset(s)
    ensures |SortBy(s, key)| == |s|
    ensures Sorted(SortBy(s, key), key)
    ensures SameElements(SortBy(s, key), s)
  {
    if s != [] {
      SortFacts(s[1..], key);
      InsertFacts(s[0], SortBy(s[1..], key), key);
      assert s == [s[0]] + s[1..];
    }
    var r := SortBy(s, key);
    assert |multiset(r)| == |multiset(s)|;
    forall x | x in r ensures x in s { assert x in multiset(r); }
    forall x | x in s ensures x in r { assert x in multiset(s); }
  }

  lemma {:induction false} InsertStrict<T>(x: T, s: seq<T>, key: T -> Key)
    requires StrictlySorted(s, key)
    requires forall y | y in s :: key(y) != key(x)
    ensures StrictlySorted(Insert(x, s, key), key)
  {
    InsertFacts(x, s, key);
    if s == [] {
    } else if KeyLe(key(x), key(s[0])) {
      forall j | 0 <= j < |s| ensures KeyLt(key(x), key(s[j])) {
        assert s[j] in s;
        if j > 0 { KeyLeTransitive(key(x), key(s[0]), key(s[j])); }
      }
    } else {
      KeyLeTotal(key(x), key(s[0]));
      InsertStrict(x, s[1..], key);
      InsertFacts(x, s[1..], key);
      var tail := Insert(x, s[1..], key);
      forall j | 0 <= j < |tail| ensures KeyLt(key(s[0]), key(tail[j])) {
        assert tail[j] in multiset(tail);
        assert tail[j] == x || tail[j] in s[1..];
        assert s[0] in s;
      }
    }
  }

  /** Sorting distinct keys is strict. */
  lemma {:induction false} SortStrict<T>(s: seq<T>, key: T -> Key)
    requires DistinctKeys(s, key)
    ensures StrictlySorted(SortBy(s, key), key)
  {
    if s != [] {
      SortStrict(s[1..], key);
      SortFacts(s[1..], key);
      forall y | y in SortBy(s[1..], key) ensures key(y) != key(s[0]) {
        assert y in s[1..];
      }
      InsertStrict(s[0], SortBy(s[1..], key), key);
    }
  }

  // ---- sorted sequences with repeated keys ----

  ghost function KeySeq<T>(s: seq<T>, key: T -> Key): (r: seq<Key>)
    ensures |r| == |s| && forall i | 0 <= i < |s| :: r[i] == key(s[i])
  {
    seq(|s|, i requires 0 <= i < |s| => key(s[i]))
  }

  lemma RemoveAt<T>(t: seq<T>, k: nat, rest: seq<T>)
    requires k < |t| && rest == t[..k] + t[k+1..]
    ensures multiset(t) == multiset{t[k]} + multiset(rest)
  {
    assert t == t[..k] + ([t[k]] + t[k+1..]);
  }

  lemma Cancel<T>(x: T, s: seq<T>, t: seq<T>, s': seq<T>, t': seq<T>)
    requires multiset(s) == multiset(t)
    requires multiset(s) == multiset{x} + multiset(s') && multiset(t) == multiset{x} + multiset(t')
    ensures multiset(s') == multiset(t')
  {
    assert multiset(s') == multiset(s) - multiset{x} && multiset(t') == multiset(t) - multiset{x};
  }

  lemma SameLength<T>(s: seq<T>, t: seq<T>)
    requires multiset(s) == multiset(t)
    ensures |s| == |t|
  {
    assert |multiset(s)| == |multiset(t)|;
  }

  lemma {:induction false} KeySeqPermutation<T>(s: seq<T>, t: seq<T>, key: T -> Key)
    requires multiset(s) == multiset(t)
    ensures multiset(KeySeq(s, key)) == multiset(KeySeq(t, key))
    decreases |s|
  {
    SameLength(s, t);
    if s == [] {
      assert KeySeq(s, key) == KeySeq(t, key);
    } else {
      assert s[0] in multiset(t);
      var k :| 0 <= k < |t| && t[k] == s[0];
      var s', t' := s[1..], t[..k] + t[k+1..];
      assert multiset(s') == multiset(t') by {
        RemoveAt(s, 0, s');
        RemoveAt(t, k, t');
        Cancel(s[0], s, t, s', t');
      }
      KeySeqPermutation(s', t', key);
      KeySeqRemoveAt(s, 0, s', key);
      KeySeqRemoveAt(t, k, t', key);
    }
  }

  lemma KeySeqRemoveAt<T>(t: seq<T>, k: nat, rest: seq<T>, key: T -> Key)
    requires k < |t| && rest == t[..k] + t[k+1..]
    ensures multiset(KeySeq(t, key)) == multiset{key(t[k])} + multiset(KeySeq(rest, key))
  {
    assert KeySeq(rest, key) == KeySeq(t, key)[..k] + KeySeq(t, key)[k+1..];
    RemoveAt(KeySeq(t, key), k, KeySeq(rest, key));
  }

  ghost predicate KeysSorted(a: seq<Key>) {
    forall i, j | 0 <= i < j < |a| :: KeyLe(a[i], a[j])
  }

  lemma SortedHeads(a: seq<Key>, b: seq<Key>)
    requires multiset(a) == multiset(b) && a != [] && b != []
    requires KeysSorted(a) && KeysSorted(b)
    ensures a[0] == b[0]
  {
    assert a[0] in multiset(b) && b[0] in multiset(a);
    var i :| 0 <= i < |b| && b[i] == a[0];
    var j :| 0 <= j < |a| && a[j] == b[0];
    KeyLeTotal(a[0], a[0]);
    KeyLeTotal(b[0], b[0]);
    KeyLeAntisymmetric(a[0], b[0]);
  }

  /** Two sorted key sequences with the same multiset are the same sequence. */
  lemma {:induction false} SortedKeysUnique(a: seq<Key>, b: seq<Key>)
    requires multiset(a) == multiset(b)
    requires KeysSorted(a) && KeysSorted(b)
    ensures a == b
    decreases |a|
  {
    SameLength(a, b);
    if a != [] {
      SortedHeads(a, b);
      var a', b' := a[1..], b[1..];
      assert multiset(a') == multiset(b') by {
        RemoveAt(a, 0, a');
        RemoveAt(b, 0, b');
        Cancel(a[0], a, b, a', b');
      }
      SortedKeysUnique(a', b');
      assert a == [a[0]] + a' && b == [b[0]] + b';
    }
  }

  lemma HasElement<T>(t: seq<T>)
    requires t != []
    ensures exists x :: x in t
  {
    assert t[0] in t;
  }

  /** A strictly sorted sequence is determined by its elements. */
  lemma {:induction false} StrictlySortedUnique<T>(s: seq<T>, t: seq<T>, key: T -> Key)
    requires StrictlySorted(s, key) && StrictlySorted(t, key) && SameElements(s, t)
    ensures s == t
    decreases |s|
  {
    if s == [] {
      if t != [] { HasElement(t); }
    } else {
      assert s[0] in t && t[0] in s;
      if s[0] != t[0] {
        var i :| 0 <= i < |t| && t[i] == s[0];
        var j :| 0 <= j < |s| && s[j] == t[0];
        KeyLeAntisymmetric(key(s[0]), key(t[0]));
        assert false;
      }
      forall x | x in s[1..] || x in t[1..] ensures x in s[1..] && x in t[1..] { TailElements(s, t, key, x); TailElements(t, s, key, x); }
      StrictlySortedUnique(s[1..], t[1..], key);
      assert s == [s[0]] + s[1..] && t == [t[0]] + t[1..];
    }
  }

  lemma TailElements<T>(s: seq<T>, t: seq<T>, key: T -> Key, x: T)
    requires StrictlySorted(s, key) && SameElements(s, t) && s != [] && t != [] && s[0] == t[0]
    ensures x in s[1..] ==> x in t[1..]
  {
    if x in s[1..] {
      var i :| 0 <= i < |s[1..]| && s[1..][i] == x;
      assert s[i+1] == x && KeyLt(key(s[0]), key(x));
      assert x in t;
      var j :| 0 <= j < |t| && t[j] == x;
      assert j != 0;
      assert t[1..][j-1] == x;
    }
  }

  /** Sorting two sequences with the same elements and distinct keys gives the same result. */
  lemma SortSameElements<T>(s: seq<T>, t: seq<T>, key: T -> Key)
    requires DistinctKeys(s, key) && DistinctKeys(t, key) && SameElements(s, t)
    ensures SortBy(s, key) == SortBy(t, key)
  {
    SortStrict(s, key);
    SortStrict(t, key);
    SortFacts(s, key);
    SortFacts(t, key);
    StrictlySortedUnique(SortBy(s, key), SortBy(t, key), key);
  }

  // ---- sorting a set of keys ----

  lemma {:induction false} MinExists(s: set<Key>)
    requires s != {}
    ensures exists k :: k in s && forall o | o in s :: KeyLe(k, o)
    decreases |s|
  {
    var x :| x in s;
    var rest := s - {x};
    if rest == {} {
      KeyLeTotal(x, x);
      assert s == {x};
      assert forall o | o in s :: KeyLe(x, o);
    } else {
      MinExists(rest);
      var m :| m in rest && forall o | o in rest :: KeyLe(m, o);
      KeyLeTotal(x, m);
      KeyLeTotal(x, x);
      if KeyLe(x, m) {
        forall o | o in s ensures KeyLe(x, o) { if o != x { KeyLeTransitive(x, m, o); } }
      } else {
        assert forall o | o in s :: KeyLe(m, o);
      }
    }
  }

  function Minimum(s: set<Key>): (k: Key)
    requires s != {}
    ensures k in s && forall o | o in s :: KeyLe(k, o)
  {
    MinExists(s);
    assert forall a, b | a in s && b in s && KeyLe(a, b) && KeyLe(b, a) :: a == b by {
      forall a, b | a in s && b in s && KeyLe(a, b) && KeyLe(b, a) ensures a == b { KeyLeAntisymmetric(a, b); }
    }
    var k :| k in s && forall o | o in s :: KeyLe(k, o);
    k
  }

  /** Python's `sorted(s)` of a set of tuples of strings. */
  function SortedKeys(s: set<Key>): seq<Key>
    decreases |s|
  {
    if s == {} then [] else [Minimum(s)] + SortedKeys(s - {Minimum(s)})
  }

  lemma {:induction false} SortedKeysFacts(s: set<Key>)
    ensures forall k :: k in SortedKeys(s) <==> k in s
    ensures StrictlySorted(SortedKeys(s), (k: Key) => k)
    ensures |SortedKeys(s)| == |s|
    decreases |s|
  {
    if s != {} {
      var m, rest := Minimum(s), SortedKeys(s - {Minimum(s)});
      SortedKeysFacts(s - {m});
      assert s == {m} + (s - {m});
      forall j | 0 <= j < |rest| ensures KeyLt(m, rest[j]) { assert rest[j] in rest; }
    }
  }

  // ---- sorting by an instant, ties by a name ----

  predicate Earlier<T>(x: T, y: T, at: T -> int, name: T -> string) {
    at(x) < at(y) || (at(x) == at(y) && StringLe(name(x), name(y)))
  }

  function InsertByTime<T>(x: T, s: seq<T>, at: T -> int, name: T -> string): seq<T> {
    if s == [] then [x]
    else if Earlier(x, s[0], at, name) then [x] + s
    else [s[0]] + InsertByTime(x, s[1..], at, name)
  }

  /** Python's `sorted(s, key=lambda x: (at(x), name(x)))`. */
  function SortByTime<T>(s: seq<T>, at: T -> int, name: T -> string): seq<T> {
    if s == [] then [] else InsertByTime(s[0], SortByTime(s[1..], at, name), at, name)
  }

  ghost predicate Chronological<T>(s: seq<T>, at: T -> int) {
    forall i, j | 0 <= i < j < |s| :: at(s[i]) <= at(s[j])
  }

  predicate DistinctTimes<T>(s: seq<T>, at: T -> int) {
    forall i, j | 0 <= i < j < |s| :: at(s[i]) != at(s[j])
  }

  lemma {:induction false} InsertByTimeFacts<T>(x: T, s: seq<T>, at: T -> int, name: T -> string)
    ensures multiset(InsertByTime(x, s, at, name)) == multiset([x]) + multiset(s)
    ensures Chronological(s, at) ==> Chronological(InsertByTime(x, s, at, name), at)
  {
    hide StringLe;
    if s != [] && !Earlier(x, s[0], at, name) {
      InsertByTimeFacts(x, s[1..], at, name);
      assert s == [s[0]] + s[1..];
      var tail := InsertByTime(x, s[1..], at, name);
      if Chronological(s, at) {
        forall j | 0 <= j < |tail| ensures at(s[0]) <= at(tail[j]) {
          assert tail[j] in multiset(tail);
          assert tail[j] == x || tail[j] in s[1..];
        }
      }
    }
  }

  lemma {:induction false} SortByTimeFacts<T>(s: seq<T>, at: T -> int, name: T -> string)
    ensures multiset(SortByTime(s, at, name)) == multiset(s) && |SortByTime(s, at, name)| == |s|
    ensures Chronological(SortByTime(s, at, name), at)
  {
    if s != [] {
      SortByTimeFacts(s[1..], at, name);
      InsertByTimeFacts(s[0], SortByTime(s[1..], at, name), at, name);
      assert s == [s[0]] + s[1..];
    }
    SameLength(SortByTime(s, at, name), s);
  }

  lemma ChronologicalHeads<T>(s: seq<T>, t: seq<T>, at: T -> int)
    requires multiset(s) == multiset(t) && s != [] && t != []
    requires Chronological(s, at) && Chronological(t, at) && DistinctTimes(s, at)
    ensures s[0] == t[0]
  {
    assert s[0] in multiset(t) && t[0] in multiset(s);
    var i :| 0 <= i < |t| && t[i] == s[0];
    var j :| 0 <= j < |s| && s[j] == t[0];
    assert at(s[0]) == at(t[0]);
  }

  /** A chronological order without equal instants is unique. */
  lemma {:induction false} ChronologicalUnique<T>(s: seq<T>, t: seq<T>, at: T -> int)
    requires multiset(s) == multiset(t) && Chronological(s, at) && Chronological(t, at) && DistinctTimes(s, at)
    ensures s == t
    decreases |s|
  {
    SameLength(s, t);
    if s != [] {
      ChronologicalHeads(s, t, at);
      var s', t' := s[1..], t[1..];
      assert multiset(s') == multiset(t') by {
        RemoveAt(s, 0, s');
        RemoveAt(t, 0, t');
        Cancel(s[0], s, t, s', t');
      }
      ChronologicalUnique(s', t', at);
      assert s == [s[0]] + s' && t == [t[0]] + t';
    }
  }

  /** Python's `[x for x in s if keep(x)]`. */
  function Filter<T>(s: seq<T>, keep: T -> bool): (r: seq<T>)
    ensures forall x | x in r :: x in s && keep(x)
    ensures forall x | x in s && keep(x) :: x in r
  {
    if s == [] then [] else (if keep(s[0]) then [s[0]] else []) + Filter(s[1..], keep)
  }

  lemma FilterStep<T>(s: seq<T>, keep: T -> bool)
    requires s != []
    ensures Filter(s, keep) == (if keep(s[0]) then [s[0]] else []) + Filter(s[1..], keep)
  {
  }

  lemma Associative<T>(a: seq<T>, b: seq<T>, c: seq<T>)
    ensures (a + b) + c == a + (b + c)
  {
  }

  lemma FilterNothing<T>(t: seq<T>, keep: T -> bool)
    ensures Filter([], keep) + Filter(t, keep) == Filter(t, keep)
  {
  }

  lemma {:induction false} FilterConcat<T>(s: seq<T>, t: seq<T>, keep: T -> bool)
    ensures Filter(s + t, keep) == Filter(s, keep) + Filter(t, keep)
  {
    if s == [] {
      assert s + t == t;
      FilterNothing(t, keep);
    } else {
      hide Filter;
      FilterConcat(s[1..], t, keep);
      assert (s + t)[1..] == s[1..] + t && (s + t)[0] == s[0];
      FilterStep(s, keep);
      FilterStep(s + t, keep);
      Associative(if keep(s[0]) then [s[0]] else [], Filter(s[1..], keep), Filter(t, keep));
    }
  }

  /** How many elements are kept does not depend on their order. */
  lemma {:induction false} FilterPermutation<T>(s: seq<T>, t: seq<T>, keep: T -> bool)
    requires multiset(s) == multiset(t)
    ensures |Filter(s, keep)| == |Filter(t, keep)|
    decreases |s|
  {
    SameLength(s, t);
    if s != [] {
      assert s[0] in multiset(t);
      var k :| 0 <= k < |t| && t[k] == s[0];
      var rest := t[..k] + t[k+1..];
      assert multiset(s[1..]) == multiset(rest) by {
        RemoveAt(s, 0, s[1..]);
        RemoveAt(t, k, rest);
        Cancel(s[0], s, t, s[1..], rest);
      }
      FilterPermutation(s[1..], rest, keep);
      FilterConcat(t[..k], t[k+1..], keep);
      FilterConcat(t[..k], t[k..], keep);
      assert t[k..][1..] == t[k+1..];
      assert t == t[..k] + t[k..];
    }
  }

  lemma {:induction false} FilterDistinct<T>(s: seq<T>, keep: T -> bool, key: T -> Key)
    requires DistinctKeys(s, key)
    ensures DistinctKeys(Filter(s, keep), key)
  {
    if s != [] {
      DistinctSlice(s, key, 1, |s|);
      assert s[1..|s|] == s[1..];
      FilterDistinct(s[1..], keep, key);
      var rest := Filter(s[1..], keep);
      forall j | 0 <= j < |rest| ensures key(s[0]) != key(rest[j]) {
        assert rest[j] in s[1..];
        var k :| 0 <= k < |s[1..]| && s[1..][k] == rest[j];
        assert s[k + 1] == rest[j];
      }
    }
  }

  // ---- dictionaries built from sequences ----

  /** Python's `{key(x): x for x in s}`: a later element replaces an earlier one. */
  function Dict<T>(s: seq<T>, key: T -> Key): (m: map<Key, T>)
    ensures forall k | k in m :: m[k] in s && key(m[k]) == k
    ensures forall x | x in s :: key(x) in m
  {
    if s == [] then map[] else
      var n := |s| - 1;
      assert s == s[..n] + [s[n]];
      Dict(s[..n], key)[key(s[n]) := s[n]]
  }

  ghost predicate UniqueBy<T>(s: seq<T>, key: T -> Key) {
    forall x, y | x in s && y in s && key(x) == key(y) :: x == y
  }

  lemma DictLookup<T>(s: seq<T>, key: T -> Key, x: T)
    requires UniqueBy(s, key) && x in s
    ensures key(x) in Dict(s, key) && Dict(s, key)[key(x)] == x
  {
  }

  lemma SameElementsSameDict<T>(s: seq<T>, t: seq<T>, key: T -> Key)
    requires UniqueBy(s, key) && SameElements(s, t)
    ensures Dict(s, key) == Dict(t, key)
  {
    hide Dict;
    forall k ensures k in Dict(s, key) <==> k in Dict(t, key) {
      if k in Dict(s, key) { assert Dict(s, key)[k] in t; }
      if k in Dict(t, key) { assert Dict(t, key)[k] in s; }
    }
    forall k | k in Dict(s, key) ensures Dict(s, key)[k] == Dict(t, key)[k] {
      assert key(Dict(s, key)[k]) == key(Dict(t, key)[k]) && Dict(t, key)[k] in s;
    }
  }

  lemma DistinctSlice<T>(s: seq<T>, key: T -> Key, lo: nat, hi: nat)
    requires DistinctKeys(s, key) && lo <= hi <= |s|
    ensures DistinctKeys(s[lo..hi], key)
  {
    forall i, j | 0 <= i < j < hi - lo ensures key(s[lo..hi][i]) != key(s[lo..hi][j]) {
      assert key(s[lo + i]) != key(s[lo + j]);
    }
  }

  lemma DistinctUnique<T>(s: seq<T>, key: T -> Key)
    requires DistinctKeys(s, key)
    ensures UniqueBy(s, key)
  {
    forall x, y | x in s && y in s && key(x) == key(y) ensures x == y {
      var i :| 0 <= i < |s| && s[i] == x;
      var j :| 0 <= j < |s| && s[j] == y;
      assert !(i < j) && !(j < i);
    }
  }

  /** Sorting by a key finer than a distinct identity is strict and keeps the identity unique. */
  lemma SortByFiner<T>(s: seq<T>, key: T -> Key, id: T -> Key)
    requires DistinctKeys(s, id)
    requires forall x, y | x in s && y in s && key(x) == key(y) :: id(x) == id(y)
    ensures StrictlySorted(SortBy(s, key), key) && UniqueBy(SortBy(s, key), id)
  {
    forall i, j | 0 <= i < j < |s| ensures key(s[i]) != key(s[j]) {
      assert s[i] in s && s[j] in s && id(s[i]) != id(s[j]);
    }
    SortStrict(s, key);
    SortFacts(s, key);
    DistinctUnique(s, id);
  }

  /** `sorted(set(...))` of a list of strings. */
  function SortedStrings(s: seq<string>): seq<string> {
    Firsts(SortedKeys(set c | c in s :: [c]))
  }

  function Firsts(ks: seq<Key>): seq<string> {
    if ks == [] then [] else (if ks[0] == [] then Firsts(ks[1..]) else [ks[0][0]] + Firsts(ks[1..]))
  }

  lemma {:induction false} FirstsFacts(ks: seq<Key>)
    requires forall k | k in ks :: |k| == 1
    ensures forall c :: c in Firsts(ks) <==> [c] in ks
  {
    if ks != [] {
      FirstsFacts(ks[1..]);
      assert ks == [ks[0]] + ks[1..] && ks[0] in ks && ks[0] == [ks[0][0]];
    }
  }

  lemma SortedStringsFacts(s: seq<string>)
    ensures forall c :: c in SortedStrings(s) <==> c in s
  {
    var keys := set c | c in s :: [c];
    SortedKeysFacts(keys);
    FirstsFacts(SortedKeys(keys));
    forall c ensures [c] in keys <==> c in s {
      if [c] in keys {
        var d :| d in s && [d] == [c];
        assert [d][0] == [c][0];
      }
    }
  }
}
