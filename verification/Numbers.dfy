/** Canonical text of numbers: integers of any size and finite decimals. */
module Numbers {
  import opened Basics

  /** An `int`, or a finite `Decimal` given by sign, coefficient and exponent. */
  datatype Number = IntNum(i: int) | DecNum(neg: bool, coefficient: nat, exponent: int)

  function Pow10(n: nat): (p: nat)
    ensures p > 0
  {
    if n == 0 then 1 else 10 * Pow10(n - 1)
  }

  function DigitChar(d: nat): char
    requires d < 10
  {
    (48 + d) as char
  }

  predicate IsDigit(c: char) {
    '0' <= c <= '9'
  }

  predicate AllDigits(s: string) {
    forall c | c in s :: IsDigit(c)
  }

  function Digits(n: nat): (s: string)
    ensures s != [] && AllDigits(s)
  {
    if n < 10 then [DigitChar(n)] else Digits(n / 10) + [DigitChar(n % 10)]
  }

  function DigitValue(c: char): nat
    requires IsDigit(c)
  {
    c as int - 48
  }

  function ToNat(s: string): nat
    requires AllDigits(s)
  {
    if s == [] then 0 else 10 * ToNat(s[..|s| - 1]) + DigitValue(s[|s| - 1])
  }

  function Zeros(k: nat): (s: string)
    ensures |s| == k && AllDigits(s)
  {
    if k == 0 then [] else Zeros(k - 1) + ['0']
  }

  /** Remove trailing zeros from a coefficient. */
  function Strip(c: nat, e: int): (r: (nat, int))
    requires c > 0
    ensures r.0 > 0 && r.0 % 10 != 0 && r.1 >= e
    decreases c
  {
    if c % 10 == 0 then Strip(c / 10, e + 1) else (c, e)
  }

  /** Coefficients below this have at most 28 digits. */
  const Limit: nat := 10_000_000_000_000_000_000_000_000_000

  /** How many low digits the default 28-digit context drops. */
  function Excess(c: nat): nat {
    if c < Limit then 0 else 1 + Excess(c / 10)
  }

  function RoundHalfEven(c: nat, p: nat): nat
    requires p > 0
  {
    var q, r := c / p, c % p;
    if 2 * r > p || (2 * r == p && q % 2 == 1) then q + 1 else q
  }

  /** `Decimal.normalize()` of a nonzero decimal in the default context. */
  function Normalized(c: nat, e: int): (r: (nat, int))
    requires c > 0
  {
    var d := Excess(c);
    RoundPositive(c);
    Strip(RoundHalfEven(c, Pow10(d)), e + d)
  }

  function RStripZeros(s: string): string {
    if s != [] && s[|s| - 1] == '0' then RStripZeros(s[..|s| - 1]) else s
  }

  function RStripDot(s: string): string {
    if s != [] && s[|s| - 1] == '.' then s[..|s| - 1] else s
  }

  function Sign(neg: bool): string {
    if neg then "-" else ""
  }

  /** `format(..., "f")` of a coefficient and exponent. */
  function Positional(c: nat, e: int): string {
    if e >= 0 then Digits(c) + Zeros(e)
    else if |Digits(c)| > -e then Digits(c)[..|Digits(c)| + e] + "." + Digits(c)[|Digits(c)| + e..]
    else "0." + Zeros(-e - |Digits(c)|) + Digits(c)
  }

  function NormalizeNumber(n: Number): string {
    match n
    case IntNum(i) => if i < 0 then "-" + Digits(-i) else Digits(i)
    case DecNum(neg, c, e) =>
      if c == 0 then "0" else
        var (c', e') := Normalized(c, e);
        var text := Sign(neg) + Positional(c', e');
        if '.' in text then RStripDot(RStripZeros(text)) else text
  }

  // ---- numeric value ----

  function Negative(n: Number): bool {
    match n case IntNum(i) => i < 0 case DecNum(neg, _, _) => neg
  }

  function Coefficient(n: Number): nat {
    match n case IntNum(i) => if i < 0 then -i else i case DecNum(_, c, _) => c
  }

  function Exponent(n: Number): int {
    match n case IntNum(_) => 0 case DecNum(_, _, e) => e
  }

  /** c1 * 10^e1 == c2 * 10^e2. */
  predicate EqualScaled(c1: nat, e1: int, c2: nat, e2: int) {
    if e1 <= e2 then c1 == c2 * Pow10(e2 - e1) else c1 * Pow10(e1 - e2) == c2
  }

  predicate SameNumber(a: Number, b: Number) {
    if Coefficient(a) == 0 || Coefficient(b) == 0 then Coefficient(a) == Coefficient(b)
    else Negative(a) == Negative(b) && EqualScaled(Coefficient(a), Exponent(a), Coefficient(b), Exponent(b))
  }

  /** An integer, or a decimal with at most 28 significant digits. */
  predicate Exact(n: Number) {
    n.DecNum? && n.coefficient != 0 ==> Strip(n.coefficient, n.exponent).0 < Limit
  }

  /** The reader's number: digits without a point are an int, with a point a Decimal. */
  function ReadUnsigned(neg: bool, s: string): Option<Number> {
    if s != [] && AllDigits(s) then Some(IntNum(if neg then -(ToNat(s) as int) else ToNat(s) as int))
    else
      var k := PointAt(s);
      if 0 < k < |s| - 1 && AllDigits(s[..k]) && AllDigits(s[k+1..]) then
        assert AllDigits(s[..k] + s[k+1..]);
        Some(DecNum(neg, ToNat(s[..k] + s[k+1..]), -(|s| - k - 1)))
      else None
  }

  function PointAt(s: string): (k: nat)
    ensures k <= |s| && (k < |s| ==> s[k] == '.') && '.' !in s[..k]
  {
    if s == [] then 0 else if s[0] == '.' then 0 else
      var k := 1 + PointAt(s[1..]);
      assert s[..k] == [s[0]] + s[1..][..k-1];
      k
  }

  function ReadNumber(t: string): Option<Number> {
    if t != [] && t[0] == '-' then ReadUnsigned(true, t[1..]) else ReadUnsigned(false, t)
  }

  // ---- arithmetic of scaling ----

  lemma {:induction false} Pow10Add(m: nat, n: nat)
    ensures Pow10(m + n) == Pow10(m) * Pow10(n)
  {
    if m > 0 {
      Pow10Add(m - 1, n);
      assert 10 * (Pow10(m - 1) * Pow10(n)) == (10 * Pow10(m - 1)) * Pow10(n);
    }
  }

  lemma TenTimes(c: nat, p: nat)
    requires c > 0 && p > 0
    ensures c * (10 * p) == 10 * (c * p) && c * p > 0
  {
  }

  lemma StripTen(m: nat, e: int)
    requires m > 0
    ensures Strip(10 * m, e) == Strip(m, e + 1)
  {
    assert (10 * m) % 10 == 0 && (10 * m) / 10 == m;
  }

  lemma {:induction false} StripScale(c: nat, d: nat, e: int)
    requires c > 0
    ensures c * Pow10(d) > 0 && Strip(c * Pow10(d), e) == Strip(c, e + d)
  {
    if d > 0 {
      hide Strip;
      TenTimes(c, Pow10(d - 1));
      StripScale(c, d - 1, e + 1);
      StripTen(c * Pow10(d - 1), e);
    }
  }

  lemma {:induction false} StripValue(c: nat, e: int)
    requires c > 0
    ensures c == Strip(c, e).0 * Pow10(Strip(c, e).1 - e)
    decreases c
  {
    if c % 10 == 0 {
      StripValue(c / 10, e + 1);
      var (c', e') := Strip(c, e);
      assert 10 * (c' * Pow10(e' - e - 1)) == c' * (10 * Pow10(e' - e - 1));
    }
  }

  lemma ScaledTwice(c: nat, m: nat, n: nat)
    ensures c * Pow10(m + n) == (c * Pow10(m)) * Pow10(n)
  {
    Pow10Add(m, n);
    var x, y := Pow10(m), Pow10(n);
    assert c * (x * y) == (c * x) * y;
  }

  lemma EqualScaledStrips(c1: nat, e1: int, c2: nat, e2: int)
    requires c1 > 0 && c2 > 0
    ensures EqualScaled(c1, e1, c2, e2) <==> Strip(c1, e1) == Strip(c2, e2)
  {
    hide Strip, Pow10;
    if EqualScaled(c1, e1, c2, e2) {
      if e1 <= e2 { StripScale(c2, e2 - e1, e1); } else { StripScale(c1, e1 - e2, e2); }
    }
    if Strip(c1, e1) == Strip(c2, e2) {
      var (c, e) := Strip(c1, e1);
      StripValue(c1, e1);
      StripValue(c2, e2);
      if e1 <= e2 { ScaledTwice(c, e - e2, e2 - e1); } else { ScaledTwice(c, e - e1, e1 - e2); }
    }
  }

  /** Sign, stripped coefficient and exponent: equal exactly for equal numbers. */
  function Norm(n: Number): (bool, nat, int) {
    if Coefficient(n) == 0 then (false, 0, 0)
    else var (c, e) := Strip(Coefficient(n), Exponent(n)); (Negative(n), c, e)
  }

  lemma SameNumberNorm(a: Number, b: Number)
    ensures SameNumber(a, b) <==> Norm(a) == Norm(b)
  {
    if Coefficient(a) > 0 && Coefficient(b) > 0 {
      EqualScaledStrips(Coefficient(a), Exponent(a), Coefficient(b), Exponent(b));
    }
  }

  // ---- rounding ----

  lemma AtLeastOnce(p: nat, k: nat)
    requires k > 0
    ensures p * k >= p
  {
    assert p * k == p + p * (k - 1);
  }

  lemma NextMultiple(p: nat, m: nat, n: nat)
    requires m < n
    ensures p * n >= p * m + p
  {
    AtLeastOnce(p, n - m);
    assert p * n == p * m + p * (n - m);
  }

  lemma DivUnique(c: nat, p: nat, q: nat, r: nat)
    requires p > 0 && c == p * q + r && r < p
    ensures c / p == q && c % p == r
  {
    assert c == p * (c / p) + c % p;
    if q < c / p { NextMultiple(p, q, c / p); }
    if c / p < q { NextMultiple(p, c / p, q); }
  }

  lemma DivDiv(c: nat, p: nat)
    requires p > 0
    ensures (c / 10) / p == c / (10 * p)
  {
    var q, r := (c / 10) / p, (c / 10) % p;
    assert c / 10 == p * q + r;
    assert c == (10 * p) * q + (10 * r + c % 10);
    DivUnique(c, 10 * p, q, 10 * r + c % 10);
  }

  lemma {:induction false} ExcessBound(c: nat)
    ensures c / Pow10(Excess(c)) < Limit
    ensures c > 0 ==> c / Pow10(Excess(c)) > 0
    ensures c >= Limit ==> c / Pow10(Excess(c)) >= Limit / 10
  {
    if c >= Limit {
      ExcessBound(c / 10);
      DivDiv(c, Pow10(Excess(c / 10)));
    }
  }

  lemma RoundPositive(c: nat)
    requires c > 0
    ensures 0 < RoundHalfEven(c, Pow10(Excess(c))) <= Limit
  {
    ExcessBound(c);
  }

  lemma {:induction false} ExcessWithin(c: nat, k: nat)
    requires 0 < c < Limit
    ensures Excess(c * Pow10(k)) <= k
  {
    if k > 0 {
      var m := c * Pow10(k - 1);
      assert c * Pow10(k) == 10 * m;
      ExcessWithin(c, k - 1);
    }
  }

  lemma RoundMultiple(m: nat, p: nat)
    requires p > 0
    ensures RoundHalfEven(m * p, p) == m
  {
    DivUnique(m * p, p, m, 0);
  }

  /** The rounded coefficient is a nearest multiple, and the even one of two. */
  lemma RoundsHalfEven(c: nat, p: nat)
    requires p > 0
    ensures var q := RoundHalfEven(c, p);
            0 - p <= 2 * (c - q * p) <= p && (2 * (c - q * p) == p || 2 * (c - q * p) == 0 - p ==> q % 2 == 0)
  {
    var q := c / p;
    assert c == p * q + c % p;
    assert (q + 1) * p == p * q + p;
  }

  lemma StrippedBelow(q: nat, e: int)
    requires 0 < q <= Limit
    ensures Strip(q, e).0 < Limit
  {
    StripValue(q, e);
    var k := Strip(q, e).1 - e;
    if k > 0 { AtLeastOnce(Strip(q, e).0 * 10, Pow10(k - 1)); }
  }

  /** Rounding to 28 digits keeps the value exactly when 28 significant digits suffice. */
  lemma NormalizedExact(c: nat, e: int)
    requires c > 0
    ensures Normalized(c, e) == Strip(c, e) <==> Strip(c, e).0 < Limit
  {
    hide Strip, Pow10, RoundHalfEven, Excess;
    var d := Excess(c);
    RoundPositive(c);
    StrippedBelow(RoundHalfEven(c, Pow10(d)), e + d);
    if Strip(c, e).0 < Limit {
      var (c', e') := Strip(c, e);
      StripValue(c, e);
      ExcessWithin(c', e' - e);
      var m := c' * Pow10(e' - e - d);
      ScaledTwice(c', e' - e - d, d);
      RoundMultiple(m, Pow10(d));
      StripScale(m, d, e);
    }
  }

  /** The number a decimal becomes in the 28-digit context; integers are not rounded. */
  function Rounded(n: Number): Number {
    match n
    case IntNum(_) => n
    case DecNum(neg, c, e) => DecNum(neg, RoundHalfEven(c, Pow10(Excess(c))), e + Excess(c))
  }

  lemma RoundedNorm(n: Number)
    ensures Norm(Rounded(n)) ==
            if n.DecNum? && n.coefficient > 0 then
              var (c, e) := Normalized(n.coefficient, n.exponent); (n.neg, c, e)
            else Norm(n)
  {
    if n.DecNum? && n.coefficient > 0 { RoundPositive(n.coefficient); }
  }

  /** Rounding keeps the value exactly when 28 significant digits suffice. */
  lemma RoundedSameIffExact(n: Number)
    ensures SameNumber(Rounded(n), n) <==> Exact(n)
  {
    hide RoundHalfEven, Excess, Pow10, Strip;
    SameNumberNorm(Rounded(n), n);
    RoundedNorm(n);
    if n.DecNum? && n.coefficient > 0 { NormalizedExact(n.coefficient, n.exponent); }
  }

  // ---- digits ----

  lemma {:induction false} ReadDigits(n: nat)
    ensures ToNat(Digits(n)) == n
  {
    if n >= 10 {
      ReadDigits(n / 10);
      assert Digits(n)[..|Digits(n)| - 1] == Digits(n / 10);
    }
  }

  lemma {:induction false} ReadTrailingZeros(s: string, k: nat)
    requires AllDigits(s)
    ensures AllDigits(s + Zeros(k)) && ToNat(s + Zeros(k)) == ToNat(s) * Pow10(k)
  {
    if k == 0 {
      assert s + Zeros(0) == s;
    } else {
      ReadTrailingZeros(s, k - 1);
      var t := s + Zeros(k);
      assert t[..|t| - 1] == s + Zeros(k - 1);
      assert t[|t| - 1] == '0';
      assert 10 * (ToNat(s) * Pow10(k - 1)) == ToNat(s) * (10 * Pow10(k - 1));
    }
  }

  lemma {:induction false} ReadLeadingZeros(s: string, k: nat)
    requires AllDigits(s)
    ensures AllDigits(Zeros(k) + s) && ToNat(Zeros(k) + s) == ToNat(s)
    decreases k + |s|
  {
    var t := Zeros(k) + s;
    if s != [] {
      ReadLeadingZeros(s[..|s| - 1], k);
      assert t[..|t| - 1] == Zeros(k) + s[..|s| - 1];
    } else if k > 0 {
      ReadLeadingZeros(s, k - 1);
      assert t == Zeros(k);
      assert Zeros(k)[..k - 1] == Zeros(k - 1) + s;
    }
  }

  lemma DigitsTen(m: nat)
    requires m > 0
    ensures Digits(10 * m) == Digits(m) + ['0']
  {
    assert (10 * m) / 10 == m && (10 * m) % 10 == 0;
  }

  lemma {:induction false} DigitsScale(c: nat, k: nat)
    requires c > 0
    ensures Digits(c) + Zeros(k) == Digits(c * Pow10(k))
  {
    if k == 0 {
      assert Digits(c) + Zeros(0) == Digits(c);
    } else {
      hide Digits;
      DigitsScale(c, k - 1);
      TenTimes(c, Pow10(k - 1));
      DigitsTen(c * Pow10(k - 1));
      assert Digits(c) + Zeros(k) == (Digits(c) + Zeros(k - 1)) + ['0'];
    }
  }

  // ---- the text of a stripped number ----

  lemma DigitsLast(n: nat)
    ensures Digits(n)[|Digits(n)| - 1] == DigitChar(n % 10)
  {
  }

  lemma NoPoint(s: string)
    requires AllDigits(s)
    ensures '.' !in s
  {
    assert !IsDigit('.');
  }

  lemma FractionDigits(c: nat, k: nat)
    ensures AllDigits("0" + (Zeros(k) + Digits(c))) && ToNat("0" + (Zeros(k) + Digits(c))) == c
  {
    hide ToNat, Digits;
    ReadDigits(c);
    ReadLeadingZeros(Digits(c), k + 1);
    ZerosFront(k);
    assert "0" + (Zeros(k) + Digits(c)) == ("0" + Zeros(k)) + Digits(c);
  }

  /** A fraction's integer digits, its fraction digits, and what they read as together. */
  lemma Fraction(c: nat, e: int) returns (left: string, right: string)
    requires e < 0
    ensures left != [] && |right| == -e && AllDigits(left) && AllDigits(right)
    ensures Positional(c, e) == left + "." + right
    ensures AllDigits(left + right) && ToNat(left + right) == c
    ensures right[|right| - 1] == DigitChar(c % 10)
  {
    var d := Digits(c);
    DigitsLast(c);
    ReadDigits(c);
    hide ToNat, Digits, Zeros;
    if |d| > -e {
      left, right := d[..|d| + e], d[|d| + e..];
      assert left + right == d;
    } else {
      left, right := "0", Zeros(-e - |d|) + d;
      FractionDigits(c, -e - |d|);
      assert Positional(c, e) == left + "." + right;
    }
  }

  lemma {:induction false} ZerosFront(k: nat)
    ensures "0" + Zeros(k) == Zeros(k) + "0"
  {
    if k > 0 {
      ZerosFront(k - 1);
      assert "0" + Zeros(k) == ("0" + Zeros(k - 1)) + "0";
    } else {
      assert "0" + Zeros(0) == "0";
    }
  }

  lemma {:induction false} PointFound(left: string, right: string)
    requires '.' !in left
    ensures PointAt(left + "." + right) == |left|
  {
    var s := left + "." + right;
    if left != [] {
      PointFound(left[1..], right);
      assert s[0] == left[0] && left[0] in left;
      assert s[1..] == left[1..] + "." + right;
    }
  }

  lemma WholeReads(neg: bool, c: nat, e: nat)
    requires c > 0 && c % 10 != 0
    ensures var m := ReadUnsigned(neg, Positional(c, e)); m.Some? && Norm(m.value) == (neg, c, e as int)
    ensures Positional(c, e) != [] && AllDigits(Positional(c, e))
  {
    hide Pow10, ToNat, Digits, Zeros;
    ReadDigits(c);
    ReadTrailingZeros(Digits(c), e);
    StripScale(c, e, 0);
  }

  lemma AroundPoint(left: string, right: string)
    ensures var s := left + "." + right; s[|left|] == '.' && s[..|left|] == left && s[|left| + 1..] == right
    ensures !AllDigits(left + "." + right)
  {
    var s := left + "." + right;
    assert s[|left|] in s && !IsDigit('.');
  }

  lemma FractionReads(neg: bool, left: string, right: string)
    requires left != [] && right != [] && AllDigits(left) && AllDigits(right) && AllDigits(left + right)
    ensures ReadUnsigned(neg, left + "." + right) == Some(DecNum(neg, ToNat(left + right), -|right|))
  {
    NoPoint(left);
    PointFound(left, right);
    AroundPoint(left, right);
    hide ToNat, PointAt, AllDigits;
    assert |left + "." + right| == |left| + 1 + |right|;
  }

  lemma NotStripped(t: string)
    requires t != [] && IsDigit(t[|t| - 1]) && t[|t| - 1] != '0'
    ensures RStripDot(RStripZeros(t)) == t
  {
  }

  /** Nothing is stripped from the text of a coefficient without trailing zeros, and it reads back. */
  lemma TextOfStripped(neg: bool, c: nat, e: int)
    requires c > 0 && c % 10 != 0
    ensures var t := Sign(neg) + Positional(c, e);
            (if '.' in t then RStripDot(RStripZeros(t)) else t) == t
    ensures var m := ReadUnsigned(neg, Positional(c, e));
            m.Some? && Norm(m.value) == (neg, c, e)
    ensures Positional(c, e) != [] && Positional(c, e)[0] != '-'
  {
    hide Positional, ReadUnsigned, Norm, RStripDot, RStripZeros, ToNat;
    var s := Positional(c, e);
    var t := Sign(neg) + s;
    if e >= 0 {
      WholeReads(neg, c, e);
      NoPoint(s);
      assert s[0] in s;
    } else {
      var left, right := Fraction(c, e);
      FractionReads(neg, left, right);
      assert Norm(DecNum(neg, c, e)) == (neg, c, e) by { StrippedNorm(neg, c, e); }
      assert s[0] == left[0] && left[0] in left;
      assert t[|t| - 1] == right[|right| - 1] && right[|right| - 1] in right;
      NotStripped(t);
    }
  }

  lemma StrippedNorm(neg: bool, c: nat, e: int)
    requires c > 0 && c % 10 != 0
    ensures Norm(DecNum(neg, c, e)) == (neg, c, e)
  {
  }

  /** The text of a sign, stripped coefficient and exponent. */
  function NormText(n: (bool, nat, int)): string {
    if n.1 == 0 then "0" else Sign(n.0) + Positional(n.1, n.2)
  }

  /** The text depends only on the rounded value, and names it. */
  lemma TextIsNormText(n: Number)
    ensures NormalizeNumber(n) == NormText(Norm(Rounded(n)))
  {
    hide Strip, RStripDot, RStripZeros, Digits, Zeros, ReadUnsigned;
    RoundedNorm(n);
    match n
    case IntNum(i) =>
      if i == 0 {
        assert Digits(0) == "0" by { OneDigit(); }
      } else {
        var c := Coefficient(n);
        var (c', e') := Strip(c, 0);
        StripValue(c, 0);
        DigitsScale(c', e');
        assert Digits(c) == Positional(c', e');
        if i > 0 { assert Sign(false) + Digits(c) == Digits(c); }
      }
    case DecNum(neg, c, e) =>
      if c > 0 {
        var (c', e') := Normalized(c, e);
        TextOfStripped(neg, c', e');
      } else {
        assert Norm(n) == (false, 0, 0);
      }
  }

  lemma OneDigit()
    ensures Digits(0) == "0"
  {
  }

  lemma NormStripped(n: Number)
    ensures Norm(n).1 > 0 ==> Norm(n).1 % 10 != 0
    ensures Norm(n).1 == 0 ==> Norm(n) == (false, 0, 0)
  {
  }

  /** The text of a normal form reads back as a number with that normal form. */
  lemma NormTextReads(n: (bool, nat, int))
    requires n.1 > 0 ==> n.1 % 10 != 0
    requires n.1 == 0 ==> n == (false, 0, 0)
    ensures var m := ReadNumber(NormText(n)); m.Some? && Norm(m.value) == n
  {
    hide Strip, Positional;
    var t := NormText(n);
    if n.1 == 0 {
      assert ToNat("0") == 0;
    } else {
      TextOfStripped(n.0, n.1, n.2);
      assert n.0 ==> t[1..] == Positional(n.1, n.2);
      assert !n.0 ==> t == Positional(n.1, n.2);
    }
  }

  // ---- main results ----

  /** Every text reads back as the rounded value of its number. */
  lemma ReadBack(n: Number)
    ensures var m := ReadNumber(NormalizeNumber(n)); m.Some? && SameNumber(m.value, Rounded(n))
  {
    hide NormText, ReadNumber, Norm, NormalizeNumber, SameNumber, Rounded;
    TextIsNormText(n);
    NormStripped(Rounded(n));
    NormTextReads(Norm(Rounded(n)));
    SameNumberNorm(ReadNumber(NormalizeNumber(n)).value, Rounded(n));
  }

  /** Reading the text back gives the same value exactly when 28 significant digits suffice. */
  lemma ReadBackIffExact(n: Number)
    ensures var m := ReadNumber(NormalizeNumber(n)); m.Some? && (SameNumber(m.value, n) <==> Exact(n))
  {
    hide ReadNumber, NormalizeNumber, Rounded, Norm;
    ReadBack(n);
    RoundedSameIffExact(n);
    var m := ReadNumber(NormalizeNumber(n)).value;
    SameNumberNorm(m, Rounded(n));
    SameNumberNorm(Rounded(n), n);
    SameNumberNorm(m, n);
  }

  /** Two numbers have one text exactly when they round to the same value. */
  lemma SameTextIffSameRounded(a: Number, b: Number)
    ensures NormalizeNumber(a) == NormalizeNumber(b) <==> SameNumber(Rounded(a), Rounded(b))
  {
    hide NormText, ReadNumber, Norm, NormalizeNumber, SameNumber, Rounded;
    TextIsNormText(a);
    TextIsNormText(b);
    NormStripped(Rounded(a));
    NormStripped(Rounded(b));
    NormTextReads(Norm(Rounded(a)));
    NormTextReads(Norm(Rounded(b)));
    SameNumberNorm(Rounded(a), Rounded(b));
  }

  lemma ReadExact(t: string)
    requires ReadNumber(t).Some?
    ensures '.' !in t ==> ReadNumber(t).value.IntNum?
  {
  }

  /** Taking the text of what was read back gives the same text. */
  lemma TextIsRereadable(n: Number)
    ensures var m := ReadNumber(NormalizeNumber(n)); m.Some? && NormalizeNumber(m.value) == NormalizeNumber(n)
  {
    hide ReadNumber, NormalizeNumber, Rounded, Norm, Exact;
    ReadBack(n);
    var m := ReadNumber(NormalizeNumber(n)).value;
    ReadBackIsExact(n);
    RoundedSameIffExact(m);
    SameNumberNorm(m, Rounded(n));
    SameNumberNorm(Rounded(m), m);
    SameNumberNorm(Rounded(m), Rounded(n));
    SameTextIffSameRounded(m, n);
  }

  lemma ReadBackIsExact(n: Number)
    ensures var m := ReadNumber(NormalizeNumber(n)); m.Some? && Exact(m.value)
  {
    hide ReadNumber, RStripDot, RStripZeros, Strip, RoundHalfEven, Pow10, Excess;
    ReadBack(n);
    var m := ReadNumber(NormalizeNumber(n)).value;
    ReadExact(NormalizeNumber(n));
    SameNumberNorm(m, Rounded(n));
    match n
    case IntNum(i) => NoPoint(Digits(if i < 0 then -i else i));
    case DecNum(_, c, e) =>
      if c > 0 {
        RoundPositive(c);
        StrippedBelow(RoundHalfEven(c, Pow10(Excess(c))), e + Excess(c));
      }
  }

  /** On exact numbers the text is a normal form. */
  lemma NormalForm(a: Number, b: Number)
    requires Exact(a) && Exact(b)
    ensures NormalizeNumber(a) == NormalizeNumber(b) <==> SameNumber(a, b)
  {
    hide NormalizeNumber, Rounded, Norm, Exact;
    SameTextIffSameRounded(a, b);
    RoundedSameIffExact(a);
    RoundedSameIffExact(b);
    SameNumberNorm(Rounded(a), a);
    SameNumberNorm(Rounded(b), b);
    SameNumberNorm(Rounded(a), Rounded(b));
    SameNumberNorm(a, b);
  }

  /** 10^28 + 1 as a decimal has 29 significant digits and takes the text of 10^28. */
  lemma RoundingCollides()
    ensures var a, b := DecNum(false, Limit + 1, 0), DecNum(false, Limit, 0);
            !SameNumber(a, b) && !Exact(a) && NormalizeNumber(a) == NormalizeNumber(b)
  {
    var a, b := DecNum(false, Limit + 1, 0), DecNum(false, Limit, 0);
    assert Strip(Limit + 1, 0) == (Limit + 1, 0);
    assert SameNumber(Rounded(a), Rounded(b)) by { OneDigitDropped(); SameNumberNorm(Rounded(a), Rounded(b)); }
    hide NormalizeNumber, Rounded;
    SameTextIffSameRounded(a, b);
  }

  lemma OneDigitDropped()
    ensures Rounded(DecNum(false, Limit + 1, 0)) == Rounded(DecNum(false, Limit, 0))
  {
    hide Pow10;
    assert Pow10(1) == 10 by { TenToTheOne(); }
    assert (Limit + 1) / 10 == Limit / 10;
    assert Excess(Limit / 10) == 0;
    assert Excess(Limit + 1) == 1 && Excess(Limit) == 1;
  }

  lemma TenToTheOne()
    ensures Pow10(1) == 10
  {
    assert Pow10(0) == 1;
  }
}
