/** Reading canonical text back, and what follows: the text determines the value. */
module CanonicalReader {
  import opened Basics
  import opened Order
  import opened Numbers
  import opened CanonicalJson

  // ---- a reader for the JSON the encoder emits: no white space, no exponents ----

  function HexValue(c: char): Option<nat> {
    if '0' <= c <= '9' then Some(c as int - 48)
    else if 'a' <= c <= 'f' then Some(c as int - 87)
    else None
  }

  /** One escape sequence, from its backslash. */
  function ReadEscape(s: string): (r: Option<(char, string)>)
    ensures r.Some? ==> |r.value.1| < |s|
  {
    if |s| < 2 || s[0] != '\\' then None
    else if s[1] == '\"' || s[1] == '\\' then Some((s[1], s[2..]))
    else if s[1] == 'n' then Some(('\n', s[2..]))
    else if s[1] == 'r' then Some(('\r', s[2..]))
    else if s[1] == 't' then Some(('\t', s[2..]))
    else if s[1] == 'b' then Some((8 as char, s[2..]))
    else if s[1] == 'f' then Some((12 as char, s[2..]))
    else if s[1] == 'u' && |s| >= 6 && s[2] == '0' && s[3] == '0' then
      match (HexValue(s[4]), HexValue(s[5]))
      case (Some(h), Some(l)) => Some(((16 * h + l) as char, s[6..]))
      case _ => None
    else None
  }

  function Prepend(c: char, r: Option<(string, string)>): Option<(string, string)> {
    match r
    case Some((s, rest)) => Some(([c] + s, rest))
    case None => None
  }

  /** The characters of a string, after its opening quote. */
  function ReadChars(s: string): (r: Option<(string, string)>)
    ensures r.Some? ==> |r.value.1| < |s|
    decreases |s|
  {
    if s == [] then None
    else if s[0] == '\"' then Some(("", s[1..]))
    else if s[0] == '\\' then
      match ReadEscape(s)
      case Some((c, rest)) => Prepend(c, ReadChars(rest))
      case None => None
    else if s[0] as int < 32 then None
    else Prepend(s[0], ReadChars(s[1..]))
  }

  predicate NumberChar(c: char) {
    IsDigit(c) || c == '.' || c == '-'
  }

  function NumberSpan(s: string): (k: nat)
    ensures k <= |s|
  {
    if s == [] || !NumberChar(s[0]) then 0 else 1 + NumberSpan(s[1..])
  }

  function ReadNumberToken(s: string): (r: Option<(Value, string)>)
    ensures r.Some? ==> |r.value.1| < |s|
  {
    var k := NumberSpan(s);
    if k == 0 then None else
      match ReadNumber(s[..k])
      case Some(n) => Some((Num(n), s[k..]))
      case None => None
  }

  function ReadValue(s: string): (r: Option<(Value, string)>)
    ensures r.Some? ==> |r.value.1| < |s|
    decreases |s|, 0
  {
    if s == [] then None
    else if s[0] == '\"' then
      match ReadChars(s[1..])
      case Some((t, rest)) => Some((Str(t), rest))
      case None => None
    else if s[0] == '[' then
      if |s| > 1 && s[1] == ']' then Some((Arr([]), s[2..])) else
        match ReadItems(s[1..])
        case Some((vs, rest)) => Some((Arr(vs), rest))
        case None => None
    else if s[0] == '{' then
      if |s| > 1 && s[1] == '}' then Some((Obj([]), s[2..])) else
        match ReadMembers(s[1..])
        case Some((ms, rest)) => Some((Obj(ms), rest))
        case None => None
    else if "null" <= s then Some((Null, s[4..]))
    else if "true" <= s then Some((Bool(true), s[4..]))
    else if "false" <= s then Some((Bool(false), s[5..]))
    else ReadNumberToken(s)
  }

  /** The items of a nonempty list, after its opening bracket. */
  function ReadItems(s: string): (r: Option<(seq<Value>, string)>)
    ensures r.Some? ==> |r.value.1| < |s|
    decreases |s|, 1
  {
    match ReadValue(s)
    case None => None
    case Some((v, rest)) =>
      if rest != [] && rest[0] == ']' then Some(([v], rest[1..]))
      else if rest != [] && rest[0] == ',' then
        match ReadItems(rest[1..])
        case Some((vs, end)) => Some(([v] + vs, end))
        case None => None
      else None
  }

  function ReadMember(s: string): (r: Option<(Member, string)>)
    ensures r.Some? ==> |r.value.1| < |s|
    decreases |s|, 1
  {
    if s == [] || s[0] != '\"' then None else
      match ReadChars(s[1..])
      case None => None
      case Some((key, rest)) =>
        if rest == [] || rest[0] != ':' then None else
          match ReadValue(rest[1..])
          case Some((v, end)) => Some((Member(key, v), end))
          case None => None
  }

  /** The members of a nonempty dict, after its opening brace. */
  function ReadMembers(s: string): (r: Option<(seq<Member>, string)>)
    ensures r.Some? ==> |r.value.1| < |s|
    decreases |s|, 2
  {
    match ReadMember(s)
    case None => None
    case Some((m, rest)) =>
      if rest != [] && rest[0] == '}' then Some(([m], rest[1..]))
      else if rest != [] && rest[0] == ',' then
        match ReadMembers(rest[1..])
        case Some((ms, end)) => Some(([m] + ms, end))
        case None => None
      else None
  }

  function ReadJson(t: string): Option<Value> {
    match ReadValue(t)
    case Some((v, rest)) => if rest == [] then Some(v) else None
    case None => None
  }

  // ---- strings ----

  lemma HexRoundTrip(d: nat)
    requires d < 16
    ensures HexValue(HexDigit(d)) == Some(d)
  {
  }

  lemma EscapeReads(c: char, rest: string)
    requires EscapedChar(c)[0] == '\\'
    ensures ReadEscape(EscapedChar(c) + rest) == Some((c, rest))
  {
    var s := EscapedChar(c) + rest;
    if |EscapedChar(c)| == 6 {
      HexRoundTrip(c as int / 16);
      HexRoundTrip(c as int % 16);
      assert s[6..] == rest;
    } else {
      assert s[2..] == rest;
    }
  }

  lemma CharReads(c: char, tail: string)
    ensures ReadChars(EscapedChar(c) + tail) == Prepend(c, ReadChars(tail))
  {
    if EscapedChar(c)[0] == '\\' {
      EscapeReads(c, tail);
    } else {
      assert EscapedChar(c) == [c];
      assert ([c] + tail)[1..] == tail;
    }
  }

  lemma {:induction false} CharsRead(s: string, rest: string)
    ensures ReadChars(Escaped(s) + ("\"" + rest)) == Some((s, rest))
  {
    if s == [] {
      assert Escaped(s) + ("\"" + rest) == "\"" + rest;
      assert ("\"" + rest)[1..] == rest;
    } else {
      CharsRead(s[1..], rest);
      hide ReadChars, EscapedChar;
      var tail := Escaped(s[1..]) + ("\"" + rest);
      assert Escaped(s) + ("\"" + rest) == EscapedChar(s[0]) + tail;
      CharReads(s[0], tail);
      assert [s[0]] + s[1..] == s;
    }
  }

  lemma QuotedReads(s: string, rest: string)
    ensures Quoted(s) + rest == "\"" + (Escaped(s) + ("\"" + rest))
    ensures ReadChars((Quoted(s) + rest)[1..]) == Some((s, rest))
  {
    CharsRead(s, rest);
    assert (Quoted(s) + rest)[1..] == Escaped(s) + ("\"" + rest);
  }

  // ---- numbers ----

  predicate AllNumberChars(s: string) {
    forall i | 0 <= i < |s| :: NumberChar(s[i])
  }

  lemma DigitsAreNumberChars(s: string)
    requires AllDigits(s)
    ensures AllNumberChars(s)
  {
    forall i | 0 <= i < |s| ensures NumberChar(s[i]) { assert s[i] in s; }
  }

  lemma PositionalChars(c: nat, e: int)
    ensures AllNumberChars(Positional(c, e))
  {
    if e >= 0 {
      DigitsAreNumberChars(Digits(c));
      DigitsAreNumberChars(Zeros(e));
    } else {
      var left, right := Fraction(c, e);
      DigitsAreNumberChars(left);
      DigitsAreNumberChars(right);
    }
  }

  lemma NumberTextChars(n: Number)
    ensures NormalizeNumber(n) != [] && AllNumberChars(NormalizeNumber(n))
  {
    var m := Norm(Rounded(n));
    TextIsNormText(n);
    NormStripped(Rounded(n));
    hide NormalizeNumber, Positional, Rounded, Norm;
    if m.1 != 0 {
      PositionalChars(m.1, m.2);
      TextOfStripped(m.0, m.1, m.2);
    }
  }

  /** What follows a value: nothing a number could go on with. */
  predicate Ends(rest: string) {
    rest == [] || !NumberChar(rest[0])
  }

  lemma {:induction false} SpanOf(t: string, rest: string)
    requires AllNumberChars(t) && Ends(rest)
    ensures NumberSpan(t + rest) == |t|
  {
    if t == [] {
      assert t + rest == rest;
    } else {
      SpanOf(t[1..], rest);
      assert (t + rest)[1..] == t[1..] + rest;
    }
  }

  lemma NumberReads(n: Number, rest: string)
    requires Ends(rest)
    ensures var m := ReadNumber(NormalizeNumber(n));
            m.Some? && ReadValue(NormalizeNumber(n) + rest) == Some((Num(m.value), rest))
  {
    var t := NormalizeNumber(n);
    ReadBack(n);
    NumberTextChars(n);
    hide NormalizeNumber, ReadNumber;
    SpanOf(t, rest);
    assert (t + rest)[..|t|] == t && (t + rest)[|t|..] == rest;
    assert (t + rest)[0] == t[0] && NumberChar(t[0]);
  }

  // ---- marker-free structures ----

  ghost predicate NumberText(t: string) {
    exists n :: t == NormalizeNumber(n)
  }

  predicate MarkerOnly(keys: seq<CMember>) {
    |keys| == 1 && keys[0].key == Marker()
  }

  /** A structure in which only numbers sit under a lone marker key, and dicts are sorted. */
  ghost predicate Clean(c: Canon)
    decreases c
  {
    match c
    case CArr(items) => forall i | 0 <= i < |items| :: Clean(items[i])
    case CObj(ms) =>
      if MarkerOnly(ms) then ms[0].value.CStr? && NumberText(ms[0].value.s)
      else StrictlySorted(ms, CMemberKey) && forall i | 0 <= i < |ms| :: Clean(ms[i].value)
    case _ => true
  }

  /** What the text of a clean structure stands for. */
  ghost function Decoded(c: Canon): Value
    requires Clean(c)
    decreases c
  {
    match c
    case CNull => Null
    case CBool(b) => Bool(b)
    case CStr(s) => Str(s)
    case CArr(items) => Arr(DecodedItems(items))
    case CObj(ms) =>
      if MarkerOnly(ms) then NumberOf(ms[0].value.s) else Obj(DecodedMembers(ms))
  }

  ghost function NumberOf(t: string): Value
    requires NumberText(t)
  {
    var n :| t == NormalizeNumber(n);
    ReadBack(n);
    Num(ReadNumber(t).value)
  }

  ghost function DecodedItems(cs: seq<Canon>): (vs: seq<Value>)
    requires forall i | 0 <= i < |cs| :: Clean(cs[i])
    ensures |vs| == |cs| && forall i | 0 <= i < |cs| :: vs[i] == Decoded(cs[i])
    decreases cs
  {
    seq(|cs|, i requires 0 <= i < |cs| => Decoded(cs[i]))
  }

  ghost function DecodedMembers(ms: seq<CMember>): (vs: seq<Member>)
    requires forall i | 0 <= i < |ms| :: Clean(ms[i].value)
    ensures |vs| == |ms| && forall i | 0 <= i < |ms| :: vs[i] == Member(ms[i].key, Decoded(ms[i].value))
    decreases ms
  {
    seq(|ms|, i requires 0 <= i < |ms| => Member(ms[i].key, Decoded(ms[i].value)))
  }

  // ---- the reader inverts the encoder ----

  lemma {:induction false} EncodingReads(c: Canon, rest: string)
    requires Clean(c) && Ends(rest)
    ensures Encode(c).Some? && ReadValue(Encode(c).value + rest) == Some((Decoded(c), rest))
    decreases c
  {
    hide ReadItems, ReadMembers, ReadNumberToken, ReadChars, StrictlySorted;
    match c
    case CNull => assert ("null" + rest)[4..] == rest;
    case CBool(b) => assert b ==> ("true" + rest)[4..] == rest; assert !b ==> ("false" + rest)[5..] == rest;
    case CStr(s) => QuotedReads(s, rest);
    case CArr(items) => ListReads(items, rest);
    case CObj(ms) =>
      if MarkerOnly(ms) {
        var n :| ms[0].value.s == NormalizeNumber(n);
        NumberReads(n, rest);
      } else {
        DictReads(ms, rest);
      }
  }

  lemma CloserIsNoValue(s: string)
    requires s != [] && (s[0] == ']' || s[0] == '}')
    ensures ReadValue(s) == None
  {
  }

  lemma {:induction false} ListReads(items: seq<Canon>, rest: string)
    requires Clean(CArr(items))
    ensures Encode(CArr(items)).Some?
    ensures ReadValue(Encode(CArr(items)).value + rest) == Some((Arr(DecodedItems(items)), rest))
    decreases items, 1
  {
    hide ReadItems, Encode;
    assert Encode(CArr(items)) == Between("[", CommaJoined(Encodings(items)), "]") by { EncodeArr(items); }
    if items == [] {
      assert Encodings(items) == [];
      assert ("[" + "" + "]" + rest)[2..] == rest;
    } else {
      ItemsRead(items, rest);
      var body := CommaJoined(Encodings(items)).value;
      var s := "[" + body + "]" + rest;
      assert s[1..] == body + ("]" + rest);
      if s[1] == ']' { CloserIsNoValue(s[1..]); ItemsNeedValue(s[1..]); }
    }
  }

  lemma EncodeArr(items: seq<Canon>)
    ensures Encode(CArr(items)) == Between("[", CommaJoined(Encodings(items)), "]")
  {
  }

  lemma ItemsNeedValue(s: string)
    requires ReadItems(s).Some?
    ensures ReadValue(s).Some?
  {
  }

  lemma {:induction false} ItemsRead(items: seq<Canon>, rest: string)
    requires items != [] && forall i | 0 <= i < |items| :: Clean(items[i])
    ensures var body := CommaJoined(Encodings(items));
            body.Some? && ReadItems(body.value + ("]" + rest)) == Some((DecodedItems(items), rest))
    decreases items, 0
  {
    hide ReadValue, Encode, Clean, Decoded;
    var ts := Encodings(items);
    var tail := items[1..];
    assert Encodings(tail) == ts[1..];
    if tail == [] {
      EncodingReads(items[0], "]" + rest);
      assert DecodedItems(items) == [Decoded(items[0])];
    } else {
      ItemsRead(tail, rest);
      var body := CommaJoined(ts[1..]).value;
      var more := "," + (body + ("]" + rest));
      EncodingReads(items[0], more);
      assert ts[0].value + "," + body + ("]" + rest) == ts[0].value + more;
      assert more[1..] == body + ("]" + rest);
      assert DecodedItems(items) == [Decoded(items[0])] + DecodedItems(tail);
    }
  }

  lemma {:induction false} MemberReads(m: CMember, rest: string)
    requires Clean(m.value) && Ends(rest)
    ensures var t := Between(Quoted(m.key) + ":", Encode(m.value), "");
            t.Some? && ReadMember(t.value + rest) == Some((Member(m.key, Decoded(m.value)), rest))
    decreases m
  {
    hide ReadValue, ReadChars, Encode, Clean, Decoded;
    EncodingReads(m.value, rest);
    var t := Encode(m.value).value;
    var after := ":" + (t + rest);
    QuotedReads(m.key, after);
    assert Quoted(m.key) + ":" + t + "" + rest == Quoted(m.key) + after;
    assert after[1..] == t + rest;
  }

  lemma {:induction false} MembersRead(ms: seq<CMember>, rest: string)
    requires ms != [] && forall i | 0 <= i < |ms| :: Clean(ms[i].value)
    ensures var body := CommaJoined(MemberEncodings(ms));
            body.Some? && ReadMembers(body.value + ("}" + rest)) == Some((DecodedMembers(ms), rest))
    decreases ms, 0
  {
    hide ReadMember, Encode, Clean, Decoded, Between, Quoted;
    var ts := MemberEncodings(ms);
    var tail := ms[1..];
    assert MemberEncodings(tail) == ts[1..];
    if tail == [] {
      MemberReads(ms[0], "}" + rest);
      assert DecodedMembers(ms) == [Member(ms[0].key, Decoded(ms[0].value))];
    } else {
      MembersRead(tail, rest);
      var body := CommaJoined(ts[1..]).value;
      var more := "," + (body + ("}" + rest));
      MemberReads(ms[0], more);
      assert ts[0].value + "," + body + ("}" + rest) == ts[0].value + more;
      assert more[1..] == body + ("}" + rest);
      assert DecodedMembers(ms) == [Member(ms[0].key, Decoded(ms[0].value))] + DecodedMembers(tail);
    }
  }

  lemma EncodeObj(ms: seq<CMember>)
    requires !MarkerOnly(ms)
    ensures Encode(CObj(ms)) == Between("{", CommaJoined(MemberEncodings(ms)), "}")
  {
  }

  lemma BraceReads(s: string, ms: seq<Member>, rest: string)
    requires ReadMembers(s) == Some((ms, rest))
    ensures ReadValue("{" + s) == Some((Obj(ms), rest))
  {
    assert ("{" + s)[1..] == s;
    assert s[0] == '\"';
  }

  lemma {:induction false} DictReads(ms: seq<CMember>, rest: string)
    requires Clean(CObj(ms)) && !MarkerOnly(ms)
    ensures Encode(CObj(ms)).Some?
    ensures ReadValue(Encode(CObj(ms)).value + rest) == Some((Obj(DecodedMembers(ms)), rest))
    decreases ms, 1
  {
    hide ReadMembers, Encode, StrictlySorted, CommaJoined;
    EncodeObj(ms);
    if ms == [] {
      assert MemberEncodings(ms) == [];
      assert CommaJoined([]) == Some("") by { NothingJoined(); }
      assert "{" + "" + "}" + rest == "{}" + rest;
      assert ("{}" + rest)[2..] == rest;
    } else {
      MembersRead(ms, rest);
      hide ReadValue;
      var body := CommaJoined(MemberEncodings(ms)).value;
      BraceReads(body + ("}" + rest), DecodedMembers(ms), rest);
      assert "{" + body + "}" + rest == "{" + (body + ("}" + rest));
    }
  }

  lemma NothingJoined()
    ensures CommaJoined([]) == Some("")
  {
  }

  // ---- marker-free values ----

  /** No dict of the value has the marker as its only key. */
  predicate NoMarker(v: Value)
    decreases v
  {
    match v
    case Arr(items) => forall i | 0 <= i < |items| :: NoMarker(items[i])
    case Obj(ms) =>
      && !(|ms| == 1 && ms[0].key == Marker())
      && forall i | 0 <= i < |ms| :: NoMarker(ms[i].value)
    case _ => true
  }

  lemma {:induction false} CanonicalIsClean(v: Value, path: Path, sets: set<string>)
    requires WellFormed(v) && NoMarker(v)
    ensures Clean(Canonical(v, path, sets))
    decreases v
  {
    hide PathString, StrictlySorted, DistinctKeys;
    match v
    case Num(n) => assert NumberText(NormalizeNumber(n));
    case Arr(items) =>
      var cs := CanonicalItems(items, path, sets);
      forall c | c in cs ensures Clean(c) {
        var i :| 0 <= i < |cs| && cs[i] == c;
        CanonicalIsClean(items[i], path + [Digits(i)], sets);
      }
      SortFacts(cs, TextKey);
      forall i | 0 <= i < |cs| ensures Clean(SortBy(cs, TextKey)[i]) { assert SortBy(cs, TextKey)[i] in cs; }
    case Obj(ms) =>
      var cs := CanonicalMembers(ms, path, sets);
      forall c | c in cs ensures Clean(c.value) {
        var i :| 0 <= i < |cs| && cs[i] == c;
        CanonicalIsClean(ms[i].value, path + [ms[i].key], sets);
      }
      CanonicalMembersDistinct(ms, path, sets);
      SortStrict(cs, CMemberKey);
      SortFacts(cs, CMemberKey);
      SortedNotMarkerOnly(ms, path, sets);
      var sorted := SortBy(cs, CMemberKey);
      forall i | 0 <= i < |cs| ensures Clean(sorted[i].value) { assert sorted[i] in cs; }
    case _ =>
  }

  lemma SortedNotMarkerOnly(ms: seq<Member>, path: Path, sets: set<string>)
    requires !(|ms| == 1 && ms[0].key == Marker())
    ensures !MarkerOnly(SortBy(CanonicalMembers(ms, path, sets), CMemberKey))
  {
    var cs := CanonicalMembers(ms, path, sets);
    SortFacts(cs, CMemberKey);
    if |ms| == 1 { assert SortBy(cs, CMemberKey)[0] in cs; }
  }

  /** Strictly sorted members stay as they are. */
  lemma AlreadySorted(cs: seq<CMember>)
    requires StrictlySorted(cs, CMemberKey)
    ensures SortBy(cs, CMemberKey) == cs
  {
    SortStrict(cs, CMemberKey);
    SortFacts(cs, CMemberKey);
    StrictlySortedUnique(SortBy(cs, CMemberKey), cs, CMemberKey);
  }

  lemma NumberTextStable(n: Number)
    ensures var m := ReadNumber(NormalizeNumber(n)); m.Some? && NormalizeNumber(m.value) == NormalizeNumber(n)
  {
    ReadBack(n);
    TextIsRereadable(n);
  }

  /** Encoding what was decoded gives the structure again. */
  lemma {:induction false} DecodedCanonical(c: Canon, path: Path)
    requires Clean(c)
    ensures Canonical(Decoded(c), path, {}) == c
    decreases c
  {
    hide StrictlySorted, Encode, PathString, NormalizeNumber, ReadNumber;
    match c
    case CArr(items) =>
      forall i | 0 <= i < |items| ensures Canonical(Decoded(items[i]), path + [Digits(i)], {}) == items[i] {
        DecodedCanonical(items[i], path + [Digits(i)]);
      }
      assert CanonicalItems(DecodedItems(items), path, {}) == items;
    case CObj(ms) =>
      if MarkerOnly(ms) {
        var t := ms[0].value.s;
        var n :| t == NormalizeNumber(n);
        NumberTextStable(n);
        assert NumberOf(t) == Num(ReadNumber(t).value);
        assert ms == [CMember(Marker(), CStr(t))];
      } else {
        forall i | 0 <= i < |ms| ensures Canonical(Decoded(ms[i].value), path + [ms[i].key], {}) == ms[i].value {
          DecodedCanonical(ms[i].value, path + [ms[i].key]);
        }
        assert CanonicalMembers(DecodedMembers(ms), path, {}) == ms;
        AlreadySorted(ms);
      }
    case _ =>
  }

  /** Clean structures with one text are one structure. */
  lemma EncodeInjective(c: Canon, d: Canon)
    requires Clean(c) && Clean(d) && Encode(c) == Encode(d)
    ensures c == d
  {
    hide Encode, Canonical, ReadValue, Decoded, Clean;
    EncodingReads(c, "");
    EncodingReads(d, "");
    DecodedCanonical(c, []);
    DecodedCanonical(d, []);
  }

  // ---- main results ----

  /** `canonicalize`: the canonical text read back as a value. */
  function Canonicalize(v: Value, sets: set<string>): Option<Value> {
    match CanonicalText(v, sets)
    case Some(t) => ReadJson(t)
    case None => None
  }

  /** Encoding the canonicalized value again gives the same text. */
  lemma CanonicalizeKeepsText(v: Value, sets: set<string>)
    requires WellFormed(v) && NoMarker(v)
    ensures Canonicalize(v, sets).Some?
    ensures CanonicalText(Canonicalize(v, sets).value, {}) == CanonicalText(v, sets)
  {
    hide Encode, Canonical, ReadValue, Decoded, Clean;
    var c := Canonical(v, [], sets);
    CanonicalIsClean(v, [], sets);
    EncodingReads(c, "");
    DecodedCanonical(c, []);
    assert Encode(c).value + "" == Encode(c).value;
  }

  /** Equality up to the order of dict members, numbers being compared by `eq`. */
  ghost predicate Same(v: Value, w: Value, eq: (Number, Number) -> bool)
    decreases v
  {
    match (v, w)
    case (Num(a), Num(b)) => eq(a, b)
    case (Arr(xs), Arr(ys)) => |xs| == |ys| && forall i | 0 <= i < |xs| :: Same(xs[i], ys[i], eq)
    case (Obj(ms), Obj(ns)) =>
      (forall i | 0 <= i < |ms| :: SomeSame(ms[i], ns, eq)) && (forall j | 0 <= j < |ns| :: SomeKey(ns[j].key, ms))
    case _ => v == w
  }

  ghost predicate SomeSame(m: Member, ns: seq<Member>, eq: (Number, Number) -> bool)
    decreases m
  {
    exists j | 0 <= j < |ns| :: ns[j].key == m.key && Same(m.value, ns[j].value, eq)
  }

  predicate SameRounded(a: Number, b: Number) {
    SameNumber(Rounded(a), Rounded(b))
  }

  lemma PathDoesNotMatter(v: Value, path: Path)
    ensures Canonical(v, path, {}) == Canonical(v, [], {})
  {
    UntouchedEverywhere(v, path, {});
  }

  lemma {:induction false} SameCanonical(v: Value, w: Value)
    requires WellFormed(v) && WellFormed(w) && NoMarker(v) && NoMarker(w)
    ensures Canonical(v, [], {}) == Canonical(w, [], {}) <==> Same(v, w, SameRounded)
    decreases v
  {
    hide PathString, NormalizeNumber, Rounded, SameNumber, SortBy;
    match (v, w)
    case (Num(a), Num(b)) => SameTextIffSameRounded(a, b);
    case (Num(a), Obj(ms)) => SortedNotMarkerOnly(ms, [], {});
    case (Obj(ms), Num(a)) => SortedNotMarkerOnly(ms, [], {});
    case (Arr(xs), Arr(ys)) => SameCanonicalLists(xs, ys);
    case (Obj(ms), Obj(ns)) => SameCanonicalDicts(ms, ns);
    case _ =>
  }

  lemma {:induction false} SameCanonicalLists(xs: seq<Value>, ys: seq<Value>)
    requires WellFormed(Arr(xs)) && WellFormed(Arr(ys)) && NoMarker(Arr(xs)) && NoMarker(Arr(ys))
    ensures Canonical(Arr(xs), [], {}) == Canonical(Arr(ys), [], {}) <==> Same(Arr(xs), Arr(ys), SameRounded)
    decreases xs
  {
    hide PathString, SortBy;
    var cs, ds := CanonicalItems(xs, [], {}), CanonicalItems(ys, [], {});
    if |xs| == |ys| {
      forall i | 0 <= i < |xs| ensures cs[i] == ds[i] <==> Same(xs[i], ys[i], SameRounded) {
        SameCanonical(xs[i], ys[i]);
        PathDoesNotMatter(xs[i], [] + [Digits(i)]);
        PathDoesNotMatter(ys[i], [] + [Digits(i)]);
      }
      assert cs == ds <==> forall i | 0 <= i < |xs| :: cs[i] == ds[i];
    }
  }

  lemma {:induction false} SameCanonicalDicts(ms: seq<Member>, ns: seq<Member>)
    requires WellFormed(Obj(ms)) && WellFormed(Obj(ns)) && NoMarker(Obj(ms)) && NoMarker(Obj(ns))
    ensures Canonical(Obj(ms), [], {}) == Canonical(Obj(ns), [], {}) <==> Same(Obj(ms), Obj(ns), SameRounded)
    decreases ms
  {
    hide SortBy, DistinctKeys, SomeKey, SomeSame;
    var cs, ds := CanonicalMembers(ms, [], {}), CanonicalMembers(ns, [], {});
    CanonicalMembersDistinct(ms, [], {});
    CanonicalMembersDistinct(ns, [], {});
    SortFacts(cs, CMemberKey);
    SortFacts(ds, CMemberKey);
    forall i | 0 <= i < |ms| ensures cs[i] in ds <==> SomeSame(ms[i], ns, SameRounded) {
      forall j | 0 <= j < |ns|
        ensures Canonical(ms[i].value, [], {}) == Canonical(ns[j].value, [], {}) <==> Same(ms[i].value, ns[j].value, SameRounded)
      {
        SameCanonical(ms[i].value, ns[j].value);
      }
      MemberFound(ms[i], ns);
      PathDoesNotMatter(ms[i].value, [] + [ms[i].key]);
    }
    if SortBy(cs, CMemberKey) == SortBy(ds, CMemberKey) {
      forall i | 0 <= i < |ms| ensures SomeSame(ms[i], ns, SameRounded) { assert cs[i] in ds; }
      forall j | 0 <= j < |ns| ensures SomeKey(ns[j].key, ms) { assert ds[j] in cs; KeyFrom(ms, ds[j].key, ds[j]); }
    }
    if Same(Obj(ms), Obj(ns), SameRounded) {
      forall d | d in ds ensures HasKey(d.key, cs) {
        var j :| 0 <= j < |ds| && ds[j] == d;
        assert SomeKey(ns[j].key, ms);
        KeyCanonical(ms, d.key, [], {});
      }
      forall c | c in cs ensures c in ds { var i :| 0 <= i < |cs| && cs[i] == c; }
      AllMembers(cs, ds);
      SortSameElements(cs, ds, CMemberKey);
    }
  }

  lemma MemberFound(m: Member, ns: seq<Member>)
    requires forall j | 0 <= j < |ns| ::
      Canonical(m.value, [], {}) == Canonical(ns[j].value, [], {}) <==> Same(m.value, ns[j].value, SameRounded)
    ensures CMember(m.key, Canonical(m.value, [], {})) in CanonicalMembers(ns, [], {}) <==> SomeSame(m, ns, SameRounded)
  {
    hide Canonical, Same;
    var ds := CanonicalMembers(ns, [], {});
    forall j | 0 <= j < |ns| ensures ds[j] == CMember(ns[j].key, Canonical(ns[j].value, [], {})) {
      PathDoesNotMatter(ns[j].value, [] + [ns[j].key]);
    }
    var c := CMember(m.key, Canonical(m.value, [], {}));
    if c in ds {
      var j :| 0 <= j < |ds| && ds[j] == c;
      assert ns[j].key == m.key && Same(m.value, ns[j].value, SameRounded);
    }
    if SomeSame(m, ns, SameRounded) {
      var j :| 0 <= j < |ns| && ns[j].key == m.key && Same(m.value, ns[j].value, SameRounded);
      assert ds[j] == c;
    }
  }

  lemma KeyFrom(ms: seq<Member>, key: string, d: CMember)
    requires d in CanonicalMembers(ms, [], {}) && d.key == key
    ensures SomeKey(key, ms)
  {
    var i :| 0 <= i < |ms| && CanonicalMembers(ms, [], {})[i] == d;
    assert ms[i].key == key;
  }

  lemma OnlyMember(ds: seq<CMember>, c: CMember, d: CMember)
    requires DistinctKeys(ds, CMemberKey) && c in ds && d in ds && c.key == d.key
    ensures c == d
  {
    var i :| 0 <= i < |ds| && ds[i] == c;
    var j :| 0 <= j < |ds| && ds[j] == d;
    assert CMemberKey(ds[i]) == CMemberKey(ds[j]);
  }

  /** Members that lie within others and have all their keys are all of them. */
  lemma AllMembers(cs: seq<CMember>, ds: seq<CMember>)
    requires DistinctKeys(ds, CMemberKey)
    requires forall c | c in cs :: c in ds
    requires forall d | d in ds :: HasKey(d.key, cs)
    ensures SameElements(cs, ds)
  {
    hide DistinctKeys;
    forall d | d in ds ensures d in cs {
      assert HasKey(d.key, cs);
      var c :| c in cs && c.key == d.key;
      OnlyMember(ds, c, d);
    }
  }

  /** The text is uniquely decodable: two marker-free values have one text exactly when they are
      equal up to key order and the value of their numbers, rounded to 28 digits. */
  lemma SameTextIffSame(v: Value, w: Value)
    requires WellFormed(v) && WellFormed(w) && NoMarker(v) && NoMarker(w)
    ensures CanonicalText(v, {}) == CanonicalText(w, {}) <==> Same(v, w, SameRounded)
  {
    hide Encode, Canonical, Same;
    SameCanonical(v, w);
    CanonicalIsClean(v, [], {});
    CanonicalIsClean(w, [], {});
    if CanonicalText(v, {}) == CanonicalText(w, {}) { EncodeInjective(Canonical(v, [], {}), Canonical(w, [], {})); }
  }

  predicate ExactNumbers(v: Value)
    decreases v
  {
    match v
    case Num(n) => Exact(n)
    case Arr(items) => forall i | 0 <= i < |items| :: ExactNumbers(items[i])
    case Obj(ms) => forall i | 0 <= i < |ms| :: ExactNumbers(ms[i].value)
    case _ => true
  }

  lemma {:induction false} ExactSame(v: Value, w: Value)
    requires ExactNumbers(v) && ExactNumbers(w)
    ensures Same(v, w, SameRounded) <==> Same(v, w, SameNumber)
    decreases v
  {
    hide SameNumber, Rounded, Exact;
    match (v, w)
    case (Num(a), Num(b)) => SameTextIffSameRounded(a, b); NormalForm(a, b);
    case (Arr(xs), Arr(ys)) =>
      if |xs| == |ys| {
        forall i | 0 <= i < |xs| ensures Same(xs[i], ys[i], SameRounded) <==> Same(xs[i], ys[i], SameNumber) {
          ExactSame(xs[i], ys[i]);
        }
      }
    case (Obj(ms), Obj(ns)) =>
      forall i | 0 <= i < |ms| ensures SomeSame(ms[i], ns, SameRounded) <==> SomeSame(ms[i], ns, SameNumber) {
        forall j | 0 <= j < |ns|
          ensures Same(ms[i].value, ns[j].value, SameRounded) <==> Same(ms[i].value, ns[j].value, SameNumber)
        {
          ExactSame(ms[i].value, ns[j].value);
        }
      }
    case _ =>
  }

  /** With at most 28 significant digits everywhere, equal text means equal value. */
  lemma UniquelyDecodable(v: Value, w: Value)
    requires WellFormed(v) && WellFormed(w) && NoMarker(v) && NoMarker(w)
    requires ExactNumbers(v) && ExactNumbers(w)
    ensures CanonicalText(v, {}) == CanonicalText(w, {}) <==> Same(v, w, SameNumber)
  {
    SameTextIffSame(v, w);
    ExactSame(v, w);
  }

  /** A dict with only the marker key takes the text of any value: marker-free is needed. */
  lemma MarkerDictCollides(v: Value, sets: set<string>)
    requires WellFormed(v) && NoMarker(v) && CanonicalText(v, sets).Some?
    ensures var w := Obj([Member(Marker(), Str(CanonicalText(v, sets).value))]);
            WellFormed(w) && CanonicalText(w, sets) == CanonicalText(v, sets) && w != v
  {
    hide Marker;
    var w := Obj([Member(Marker(), Str(CanonicalText(v, sets).value))]);
    var cs := CanonicalMembers(w.members, [], sets);
    assert cs == [CMember(Marker(), CStr(CanonicalText(v, sets).value))];
    assert SortBy(cs, CMemberKey) == cs by { assert cs[1..] == []; }
  }
}
