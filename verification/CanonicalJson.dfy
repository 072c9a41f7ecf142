/** The canonical JSON encoder: values, their canonical structure and its text. */
module CanonicalJson {
  import opened Basics
  import opened Order
  import opened Numbers

  datatype Value =
    | Null
    | Bool(b: bool)
    | Str(s: string)
    | Num(n: Number)
    | Arr(items: seq<Value>)
    | Obj(members: seq<Member>)

  datatype Member = Member(key: string, value: Value)

  /** A canonical structure has no numbers: each is a dict under the marker key. */
  datatype Canon =
    | CNull
    | CBool(b: bool)
    | CStr(s: string)
    | CArr(items: seq<Canon>)
    | CObj(members: seq<CMember>)

  datatype CMember = CMember(key: string, value: Canon)

  type Path = seq<string>

  function Marker(): string {
    "__canonical_number__"
  }

  function MemberKey(m: Member): Key {
    [m.key]
  }

  function CMemberKey(m: CMember): Key {
    [m.key]
  }

  /** A Python dict has each key once. */
  predicate WellFormed(v: Value)
    decreases v
  {
    match v
    case Arr(items) => forall i | 0 <= i < |items| :: WellFormed(items[i])
    case Obj(ms) => DistinctKeys(ms, MemberKey) && forall i | 0 <= i < |ms| :: WellFormed(ms[i].value)
    case _ => true
  }

  function SlashJoined(path: Path): string {
    if path == [] then "" else "/" + path[0] + SlashJoined(path[1..])
  }

  function PathString(path: Path): string {
    if path == [] then "/" else SlashJoined(path)
  }

  // ---- canonical structure ----

  function Canonical(v: Value, path: Path, sets: set<string>): Canon
    decreases v
  {
    match v
    case Null => CNull
    case Bool(b) => CBool(b)
    case Str(s) => CStr(s)
    case Num(n) => CObj([CMember(Marker(), CStr(NormalizeNumber(n)))])
    case Arr(items) =>
      var cs := CanonicalItems(items, path, sets);
      CArr(if PathString(path) in sets then SortBy(cs, TextKey) else cs)
    case Obj(ms) => CObj(SortBy(CanonicalMembers(ms, path, sets), CMemberKey))
  }

  /** An element's path uses its index before any sorting. */
  function CanonicalItems(items: seq<Value>, path: Path, sets: set<string>): (cs: seq<Canon>)
    ensures |cs| == |items|
    ensures forall i | 0 <= i < |items| :: cs[i] == Canonical(items[i], path + [Digits(i)], sets)
    decreases items
  {
    seq(|items|, i requires 0 <= i < |items| => Canonical(items[i], path + [Digits(i)], sets))
  }

  function CanonicalMembers(ms: seq<Member>, path: Path, sets: set<string>): (cs: seq<CMember>)
    ensures |cs| == |ms|
    ensures forall i | 0 <= i < |ms| ::
      cs[i].key == ms[i].key && cs[i].value == Canonical(ms[i].value, path + [ms[i].key], sets)
    decreases ms
  {
    seq(|ms|, i requires 0 <= i < |ms| => CMember(ms[i].key, Canonical(ms[i].value, path + [ms[i].key], sets)))
  }

  // ---- text ----

  function HexDigit(d: nat): char
    requires d < 16
  {
    if d < 10 then DigitChar(d) else (87 + d) as char
  }

  /** `json.dumps` of one character with `ensure_ascii=False`. */
  function EscapedChar(c: char): string {
    if c == '\"' then "\\\""
    else if c == '\\' then "\\\\"
    else if c == '\n' then "\\n"
    else if c == '\r' then "\\r"
    else if c == '\t' then "\\t"
    else if c as int == 8 then "\\b"
    else if c as int == 12 then "\\f"
    else if c as int < 32 then "\\u00" + [HexDigit(c as int / 16), HexDigit(c as int % 16)]
    else [c]
  }

  function Escaped(s: string): string {
    if s == [] then "" else EscapedChar(s[0]) + Escaped(s[1..])
  }

  function Quoted(s: string): string {
    "\"" + Escaped(s) + "\""
  }

  function CommaJoined(ts: seq<Option<string>>): Option<string> {
    if ts == [] then Some("")
    else if |ts| == 1 then ts[0]
    else match (ts[0], CommaJoined(ts[1..]))
      case (Some(t), Some(rest)) => Some(t + "," + rest)
      case _ => None
  }

  function Between(open: string, body: Option<string>, close: string): Option<string> {
    match body
    case Some(t) => Some(open + t + close)
    case None => None
  }

  /** The encoder takes any dict whose only key is the marker for a number and emits its value
      raw. When that value is not a string there is no text: joining it raises. */
  function Encode(c: Canon): Option<string>
    decreases c
  {
    match c
    case CNull => Some("null")
    case CBool(b) => Some(if b then "true" else "false")
    case CStr(s) => Some(Quoted(s))
    case CArr(items) => Between("[", CommaJoined(Encodings(items)), "]")
    case CObj(ms) =>
      if |ms| == 1 && ms[0].key == Marker() then
        match ms[0].value
        case CStr(t) => Some(t)
        case _ => None
      else Between("{", CommaJoined(MemberEncodings(ms)), "}")
  }

  function Encodings(cs: seq<Canon>): (ts: seq<Option<string>>)
    ensures |ts| == |cs| && forall i | 0 <= i < |cs| :: ts[i] == Encode(cs[i])
    decreases cs
  {
    seq(|cs|, i requires 0 <= i < |cs| => Encode(cs[i]))
  }

  function MemberEncodings(ms: seq<CMember>): (ts: seq<Option<string>>)
    ensures |ts| == |ms|
    ensures forall i | 0 <= i < |ms| :: ts[i] == Between(Quoted(ms[i].key) + ":", Encode(ms[i].value), "")
    decreases ms
  {
    seq(|ms|, i requires 0 <= i < |ms| => Between(Quoted(ms[i].key) + ":", Encode(ms[i].value), ""))
  }

  /** The sort key of an element of a set-like list. */
  function TextKey(c: Canon): Key {
    match Encode(c)
    case Some(t) => [t]
    case None => []
  }

  function CanonicalText(v: Value, sets: set<string>): Option<string> {
    Encode(Canonical(v, [], sets))
  }

  // ---- order does not matter ----

  /** No set-like path lies at or below `path`. */
  ghost predicate Untouched(path: Path, sets: set<string>) {
    forall suffix: Path :: PathString(path + suffix) !in sets
  }

  /** No set-like path passes through an index of the list at `path`. */
  ghost predicate ElementsUntouched(path: Path, sets: set<string>) {
    forall i: nat :: Untouched(path + [Digits(i)], sets)
  }

  /** `w` is `v` with dict members reordered and set-like lists permuted, where no set-like
      path passes through an index of a permuted list. */
  ghost predicate Rearranged(v: Value, w: Value, path: Path, sets: set<string>)
    decreases v
  {
    match (v, w)
    case (Arr(xs), Arr(ys)) =>
      || (multiset(xs) == multiset(ys) && PathString(path) in sets && ElementsUntouched(path, sets))
      || (|xs| == |ys| && forall i | 0 <= i < |xs| :: Rearranged(xs[i], ys[i], path + [Digits(i)], sets))
    case (Obj(ms), Obj(ns)) =>
      && (forall i | 0 <= i < |ms| :: SomeRearranged(ms[i], ns, path, sets))
      && (forall j | 0 <= j < |ns| :: SomeKey(ns[j].key, ms))
    case _ => v == w
  }

  ghost predicate SomeRearranged(m: Member, ns: seq<Member>, path: Path, sets: set<string>)
    decreases m
  {
    exists j | 0 <= j < |ns| :: ns[j].key == m.key && Rearranged(m.value, ns[j].value, path + [m.key], sets)
  }

  ghost predicate SomeKey(key: string, ms: seq<Member>) {
    exists i | 0 <= i < |ms| :: ms[i].key == key
  }

  lemma {:induction false} UntouchedEverywhere(v: Value, path: Path, sets: set<string>)
    requires Untouched(path, sets)
    ensures Canonical(v, path, sets) == Canonical(v, [], {})
    decreases v
  {
    assert path + [] == path;
    match v
    case Arr(items) =>
      forall i | 0 <= i < |items|
        ensures Canonical(items[i], path + [Digits(i)], sets) == Canonical(items[i], [] + [Digits(i)], {})
      {
        BelowUntouched(path, Digits(i), sets);
        UntouchedEverywhere(items[i], path + [Digits(i)], sets);
        UntouchedEverywhere(items[i], [] + [Digits(i)], {});
      }
      assert CanonicalItems(items, path, sets) == CanonicalItems(items, [], {});
    case Obj(ms) =>
      forall i | 0 <= i < |ms|
        ensures Canonical(ms[i].value, path + [ms[i].key], sets) == Canonical(ms[i].value, [] + [ms[i].key], {})
      {
        BelowUntouched(path, ms[i].key, sets);
        UntouchedEverywhere(ms[i].value, path + [ms[i].key], sets);
        UntouchedEverywhere(ms[i].value, [] + [ms[i].key], {});
      }
      assert CanonicalMembers(ms, path, sets) == CanonicalMembers(ms, [], {});
    case _ =>
  }

  lemma BelowUntouched(path: Path, step: string, sets: set<string>)
    requires Untouched(path, sets)
    ensures Untouched(path + [step], sets)
  {
    forall suffix: Path ensures PathString(path + [step] + suffix) !in sets {
      assert path + [step] + suffix == path + ([step] + suffix);
    }
  }

  lemma {:induction false} MappedPermutation<A(!new), B(!new)>(xs: seq<A>, ys: seq<A>, xs': seq<B>, ys': seq<B>, f: A -> B)
    requires multiset(xs) == multiset(ys) && |xs'| == |xs| && |ys'| == |ys|
    requires forall i | 0 <= i < |xs| :: xs'[i] == f(xs[i])
    requires forall i | 0 <= i < |ys| :: ys'[i] == f(ys[i])
    ensures multiset(xs') == multiset(ys')
    decreases |xs|
  {
    SameLength(xs, ys);
    if xs == [] {
      assert xs' == ys';
    } else {
      assert xs[0] in multiset(ys);
      var k :| 0 <= k < |ys| && ys[k] == xs[0];
      RemoveAt(xs, 0, xs[1..]);
      RemoveAt(ys, k, ys[..k] + ys[k+1..]);
      Cancel(xs[0], xs, ys, xs[1..], ys[..k] + ys[k+1..]);
      MappedPermutation(xs[1..], ys[..k] + ys[k+1..], xs'[1..], ys'[..k] + ys'[k+1..], f);
      RemoveAt(xs', 0, xs'[1..]);
      RemoveAt(ys', k, ys'[..k] + ys'[k+1..]);
    }
  }

  function KeyOfText(t: Option<string>): Key {
    match t
    case Some(t) => [t]
    case None => []
  }

  /** Sorting by text leaves the same sequence of texts whatever order came in. */
  lemma SortedTextsAgree(cs: seq<Canon>, ds: seq<Canon>)
    requires multiset(Encodings(cs)) == multiset(Encodings(ds))
    ensures Encodings(SortBy(cs, TextKey)) == Encodings(SortBy(ds, TextKey))
  {
    var s, t := SortBy(cs, TextKey), SortBy(ds, TextKey);
    SortFacts(cs, TextKey);
    SortFacts(ds, TextKey);
    KeySeqPermutation(s, cs, TextKey);
    KeySeqPermutation(t, ds, TextKey);
    MappedPermutation(Encodings(cs), Encodings(ds), KeySeq(cs, TextKey), KeySeq(ds, TextKey), KeyOfText);
    SortedKeysUnique(KeySeq(s, TextKey), KeySeq(t, TextKey));
    SameLength(KeySeq(s, TextKey), KeySeq(t, TextKey));
    forall i | 0 <= i < |s| ensures Encode(s[i]) == Encode(t[i]) {
      assert TextKey(s[i]) == KeySeq(s, TextKey)[i] == TextKey(t[i]);
    }
  }

  ghost predicate SameText(c: Canon, d: Canon) {
    Encode(c) == Encode(d) && (c.CStr? || d.CStr? ==> c == d)
  }

  ghost predicate HasMatch(c: CMember, ds: seq<CMember>) {
    exists d | d in ds :: d.key == c.key && SameText(c.value, d.value)
  }

  ghost predicate HasKey(key: string, cs: seq<CMember>) {
    exists c | c in cs :: c.key == key
  }

  ghost predicate MembersMatch(cs: seq<CMember>, ds: seq<CMember>) {
    (forall c | c in cs :: HasMatch(c, ds)) && (forall d | d in ds :: HasKey(d.key, cs))
  }

  lemma KeyListed(s: seq<CMember>, c: CMember)
    requires c in s
    ensures [c.key] in KeySeq(s, CMemberKey)
  {
    var i :| 0 <= i < |s| && s[i] == c;
    assert KeySeq(s, CMemberKey)[i] == [c.key];
  }

  lemma KeyComesFrom(s: seq<CMember>, k: Key)
    requires k in KeySeq(s, CMemberKey)
    ensures exists c | c in s :: [c.key] == k
  {
    var i :| 0 <= i < |KeySeq(s, CMemberKey)| && KeySeq(s, CMemberKey)[i] == k;
    assert s[i] in s;
  }

  ghost predicate KeysWithin(s: seq<CMember>, t: seq<CMember>) {
    forall c | c in s :: HasKey(c.key, t)
  }

  lemma KeysWithinList(s: seq<CMember>, t: seq<CMember>)
    requires KeysWithin(s, t)
    ensures forall k | k in KeySeq(s, CMemberKey) :: k in KeySeq(t, CMemberKey)
  {
    forall k | k in KeySeq(s, CMemberKey) ensures k in KeySeq(t, CMemberKey) {
      KeyComesFrom(s, k);
      var c :| c in s && [c.key] == k;
      assert HasKey(c.key, t);
      var d :| d in t && d.key == c.key;
      KeyListed(t, d);
    }
  }

  lemma SameKeyOrder(s: seq<CMember>, t: seq<CMember>)
    requires StrictlySorted(s, CMemberKey) && StrictlySorted(t, CMemberKey)
    requires KeysWithin(s, t) && KeysWithin(t, s)
    ensures |s| == |t| && forall i | 0 <= i < |s| :: s[i].key == t[i].key
  {
    hide KeyLe, KeysWithin;
    var a, b := KeySeq(s, CMemberKey), KeySeq(t, CMemberKey);
    KeysWithinList(s, t);
    KeysWithinList(t, s);
    StrictlySortedUnique(a, b, (k: Key) => k);
    forall i | 0 <= i < |s| ensures s[i].key == t[i].key {
      assert a[i] == CMemberKey(s[i]) && b[i] == CMemberKey(t[i]);
    }
  }

  lemma OnlyAt(t: seq<CMember>, d: CMember, i: nat)
    requires StrictlySorted(t, CMemberKey) && d in t && i < |t| && d.key == t[i].key
    ensures d == t[i]
  {
    var j :| 0 <= j < |t| && t[j] == d;
    assert CMemberKey(t[j]) == CMemberKey(t[i]);
    assert !KeyLt(CMemberKey(t[i]), CMemberKey(t[j])) && !KeyLt(CMemberKey(t[j]), CMemberKey(t[i]));
  }

  lemma MatchAt(s: seq<CMember>, t: seq<CMember>, i: nat)
    requires i < |s| && i < |t| && s[i].key == t[i].key
    requires StrictlySorted(t, CMemberKey) && HasMatch(s[i], t)
    ensures SameText(s[i].value, t[i].value)
  {
    hide SameText, StrictlySorted;
    var d :| d in t && d.key == s[i].key && SameText(s[i].value, d.value);
    OnlyAt(t, d, i);
  }

  lemma SameMemberTexts(s: seq<CMember>, t: seq<CMember>)
    requires |s| == |t|
    requires forall i | 0 <= i < |s| :: s[i].key == t[i].key && SameText(s[i].value, t[i].value)
    ensures Encode(CObj(s)) == Encode(CObj(t))
  {
    hide CommaJoined, Between, Quoted, Marker;
    assert MemberEncodings(s) == MemberEncodings(t);
  }

  lemma MatchKeys(cs: seq<CMember>, ds: seq<CMember>)
    requires MembersMatch(cs, ds)
    ensures KeysWithin(cs, ds) && KeysWithin(ds, cs)
  {
    hide SameText;
    forall c | c in cs ensures HasKey(c.key, ds) { assert HasMatch(c, ds); }
  }

  /** A matching seen from sequences with the same elements. */
  lemma MatchSameElements(cs: seq<CMember>, ds: seq<CMember>, s: seq<CMember>, t: seq<CMember>)
    requires MembersMatch(cs, ds) && SameElements(s, cs) && SameElements(t, ds)
    ensures MembersMatch(s, t)
  {
    hide SameText;
    forall c | c in s ensures HasMatch(c, t) { assert HasMatch(c, ds); }
    forall d | d in t ensures HasKey(d.key, s) { assert HasKey(d.key, cs); }
  }

  lemma StrictlySortedMembersAgree(s: seq<CMember>, t: seq<CMember>)
    requires StrictlySorted(s, CMemberKey) && StrictlySorted(t, CMemberKey) && MembersMatch(s, t)
    ensures Encode(CObj(s)) == Encode(CObj(t))
  {
    MatchKeys(s, t);
    hide SameText, Encode, KeysWithin, StrictlySorted;
    SameKeyOrder(s, t);
    forall i | 0 <= i < |s| ensures SameText(s[i].value, t[i].value) {
      assert s[i] in s;
      MatchAt(s, t, i);
    }
    SameMemberTexts(s, t);
  }

  /** Dicts whose members match by key and text have the same text. */
  lemma MembersAgree(cs: seq<CMember>, ds: seq<CMember>)
    requires DistinctKeys(cs, CMemberKey) && DistinctKeys(ds, CMemberKey)
    requires MembersMatch(cs, ds)
    ensures Encode(CObj(SortBy(cs, CMemberKey))) == Encode(CObj(SortBy(ds, CMemberKey)))
  {
    hide SameText, Encode, KeysWithin, SortBy, StrictlySorted, DistinctKeys, MembersMatch;
    var s, t := SortBy(cs, CMemberKey), SortBy(ds, CMemberKey);
    SortFacts(cs, CMemberKey);
    SortFacts(ds, CMemberKey);
    SortStrict(cs, CMemberKey);
    SortStrict(ds, CMemberKey);
    MatchSameElements(cs, ds, s, t);
    StrictlySortedMembersAgree(s, t);
  }

  lemma CanonicalMembersDistinct(ms: seq<Member>, path: Path, sets: set<string>)
    requires DistinctKeys(ms, MemberKey)
    ensures DistinctKeys(CanonicalMembers(ms, path, sets), CMemberKey)
  {
    var cs := CanonicalMembers(ms, path, sets);
    forall i, j | 0 <= i < j < |cs| ensures CMemberKey(cs[i]) != CMemberKey(cs[j]) {
      assert MemberKey(ms[i]) != MemberKey(ms[j]);
    }
  }

  lemma PermutedList(xs: seq<Value>, ys: seq<Value>, path: Path, sets: set<string>)
    requires multiset(xs) == multiset(ys) && ElementsUntouched(path, sets)
    ensures multiset(Encodings(CanonicalItems(xs, path, sets))) == multiset(Encodings(CanonicalItems(ys, path, sets)))
  {
    var f := (v: Value) => Encode(Canonical(v, [], {}));
    var a, b := Encodings(CanonicalItems(xs, path, sets)), Encodings(CanonicalItems(ys, path, sets));
    forall i | 0 <= i < |xs| ensures a[i] == f(xs[i]) { UntouchedEverywhere(xs[i], path + [Digits(i)], sets); }
    forall i | 0 <= i < |ys| ensures b[i] == f(ys[i]) { UntouchedEverywhere(ys[i], path + [Digits(i)], sets); }
    MappedPermutation(xs, ys, a, b, f);
  }

  lemma ListText(xs: seq<Value>, ys: seq<Value>, path: Path, sets: set<string>)
    requires Encodings(CanonicalItems(xs, path, sets)) == Encodings(CanonicalItems(ys, path, sets))
          || (PathString(path) in sets && multiset(Encodings(CanonicalItems(xs, path, sets))) == multiset(Encodings(CanonicalItems(ys, path, sets))))
    ensures Encode(Canonical(Arr(xs), path, sets)) == Encode(Canonical(Arr(ys), path, sets))
  {
    hide CommaJoined, Between, PathString, SortBy;
    var cs, ds := CanonicalItems(xs, path, sets), CanonicalItems(ys, path, sets);
    if PathString(path) in sets { SortedTextsAgree(cs, ds); }
  }

  lemma MemberMatch(m: Member, ns: seq<Member>, j: nat, c: CMember, path: Path, sets: set<string>)
    requires j < |ns| && ns[j].key == m.key && c == CMember(m.key, Canonical(m.value, path + [m.key], sets))
    requires SameText(Canonical(m.value, path + [m.key], sets), Canonical(ns[j].value, path + [m.key], sets))
    ensures HasMatch(c, CanonicalMembers(ns, path, sets))
  {
    hide SameText, Canonical;
    assert CanonicalMembers(ns, path, sets)[j] in CanonicalMembers(ns, path, sets);
  }

  lemma KeyCanonical(ms: seq<Member>, key: string, path: Path, sets: set<string>)
    requires SomeKey(key, ms)
    ensures HasKey(key, CanonicalMembers(ms, path, sets))
  {
    var i :| 0 <= i < |ms| && ms[i].key == key;
    assert CanonicalMembers(ms, path, sets)[i] in CanonicalMembers(ms, path, sets);
  }

  lemma DictText(ms: seq<Member>, ns: seq<Member>, path: Path, sets: set<string>)
    requires DistinctKeys(ms, MemberKey) && DistinctKeys(ns, MemberKey)
    requires MembersMatch(CanonicalMembers(ms, path, sets), CanonicalMembers(ns, path, sets))
    ensures Encode(Canonical(Obj(ms), path, sets)) == Encode(Canonical(Obj(ns), path, sets))
  {
    hide MembersMatch, DistinctKeys, Encode, SortBy;
    CanonicalMembersDistinct(ms, path, sets);
    CanonicalMembersDistinct(ns, path, sets);
    MembersAgree(CanonicalMembers(ms, path, sets), CanonicalMembers(ns, path, sets));
  }

  /** The text does not see the order of dict members, nor that of a set-like list no set-like
      path passes through. */
  lemma {:induction false} TextIgnoresOrder(v: Value, w: Value, path: Path, sets: set<string>)
    requires WellFormed(v) && WellFormed(w) && Rearranged(v, w, path, sets)
    ensures SameText(Canonical(v, path, sets), Canonical(w, path, sets))
    decreases v
  {
    match (v, w)
    case (Arr(xs), Arr(ys)) => ListIgnoresOrder(xs, ys, path, sets);
    case (Obj(ms), Obj(ns)) => DictIgnoresOrder(ms, ns, path, sets);
    case _ =>
  }

  lemma {:induction false} ListIgnoresOrder(xs: seq<Value>, ys: seq<Value>, path: Path, sets: set<string>)
    requires WellFormed(Arr(xs)) && WellFormed(Arr(ys)) && Rearranged(Arr(xs), Arr(ys), path, sets)
    ensures SameText(Canonical(Arr(xs), path, sets), Canonical(Arr(ys), path, sets))
    decreases xs
  {
    hide Encode, DistinctKeys, PathString, ElementsUntouched;
    if multiset(xs) == multiset(ys) && PathString(path) in sets && ElementsUntouched(path, sets) {
      PermutedList(xs, ys, path, sets);
    } else {
      forall i | 0 <= i < |xs|
        ensures SameText(Canonical(xs[i], path + [Digits(i)], sets), Canonical(ys[i], path + [Digits(i)], sets))
      {
        TextIgnoresOrder(xs[i], ys[i], path + [Digits(i)], sets);
      }
      assert Encodings(CanonicalItems(xs, path, sets)) == Encodings(CanonicalItems(ys, path, sets));
    }
    ListText(xs, ys, path, sets);
  }

  lemma {:induction false} DictIgnoresOrder(ms: seq<Member>, ns: seq<Member>, path: Path, sets: set<string>)
    requires WellFormed(Obj(ms)) && WellFormed(Obj(ns)) && Rearranged(Obj(ms), Obj(ns), path, sets)
    ensures SameText(Canonical(Obj(ms), path, sets), Canonical(Obj(ns), path, sets))
    decreases ms
  {
    hide Encode, DistinctKeys, HasMatch, HasKey, SomeKey, SameText;
    var cs, ds := CanonicalMembers(ms, path, sets), CanonicalMembers(ns, path, sets);
    forall c | c in cs ensures HasMatch(c, ds) {
      var i :| 0 <= i < |cs| && cs[i] == c;
      assert SomeRearranged(ms[i], ns, path, sets);
      var j :| 0 <= j < |ns| && ns[j].key == ms[i].key && Rearranged(ms[i].value, ns[j].value, path + [ms[i].key], sets);
      TextIgnoresOrder(ms[i].value, ns[j].value, path + [ms[i].key], sets);
      MemberMatch(ms[i], ns, j, c, path, sets);
    }
    forall d | d in ds ensures HasKey(d.key, cs) {
      var j :| 0 <= j < |ds| && ds[j] == d;
      assert SomeKey(ns[j].key, ms);
      KeyCanonical(ms, ns[j].key, path, sets);
    }
    DictText(ms, ns, path, sets);
    SameTextOfDicts(ms, ns, path, sets);
  }

  lemma SameTextOfDicts(ms: seq<Member>, ns: seq<Member>, path: Path, sets: set<string>)
    requires Encode(Canonical(Obj(ms), path, sets)) == Encode(Canonical(Obj(ns), path, sets))
    ensures SameText(Canonical(Obj(ms), path, sets), Canonical(Obj(ns), path, sets))
  {
    hide Encode, SortBy;
  }
}
