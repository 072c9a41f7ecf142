/** Canonical text of timezone-aware datetimes, from the UTC calendar text of their second and
    their microseconds. */
module Datetimes {
  import opened Numbers

  /** `head` is the UTC text to the second; no point occurs in it. */
  datatype Datetime = Datetime(head: string, micro: nat)

  predicate ValidDatetime(d: Datetime) {
    d.micro < 1_000_000 && '.' !in d.head && 'Z' !in d.head
  }

  /** `n` with leading zeros up to `width` digits. */
  function Padded(n: nat, width: nat): (s: string)
    ensures AllDigits(s)
  {
    if |Digits(n)| < width then Zeros(width - |Digits(n)|) + Digits(n) else Digits(n)
  }

  /** The normalized text: no fraction when it is zero, otherwise one without trailing zeros. */
  function NormalizeDatetime(d: Datetime): string {
    if d.micro == 0 then d.head + "Z"
    else
      var fraction := RStripZeros(Padded(d.micro, 6));
      d.head + (if fraction != "" then "." + fraction else "") + "Z"
  }

  lemma {:induction false} DigitsLength(n: nat, k: nat)
    requires n < Pow10(k) && k > 0
    ensures |Digits(n)| <= k
  {
    if k > 1 && n >= 10 {
      assert n / 10 < Pow10(k - 1);
      DigitsLength(n / 10, k - 1);
    }
  }

  lemma PaddedFacts(n: nat)
    requires n < 1_000_000
    ensures |Padded(n, 6)| == 6 && ToNat(Padded(n, 6)) == n
  {
    hide ToNat, Digits, Zeros;
    assert Pow10(6) == 1_000_000 by { MillionIsPower(); }
    DigitsLength(n, 6);
    ReadDigits(n);
    if |Digits(n)| < 6 { ReadLeadingZeros(Digits(n), 6 - |Digits(n)|); }
  }

  lemma MillionIsPower()
    ensures Pow10(6) == 1_000_000
  {
    assert Pow10(1) == 10 && Pow10(2) == 100 && Pow10(3) == 1_000;
    assert Pow10(4) == 10_000 && Pow10(5) == 100_000;
  }

  /** Stripping takes zeros off the end and nothing else. */
  lemma {:induction false} StripTail(s: string)
    ensures |RStripZeros(s)| <= |s| && RStripZeros(s) + Zeros(|s| - |RStripZeros(s)|) == s
  {
    if s != [] && s[|s| - 1] == '0' {
      StripTail(s[..|s| - 1]);
      var r := RStripZeros(s[..|s| - 1]);
      assert r + Zeros(|s| - 1 - |r|) == s[..|s| - 1];
      assert s == s[..|s| - 1] + ['0'];
    } else {
      assert Zeros(0) == [];
    }
  }

  /** The stripped fraction of a nonzero microsecond count is not empty and determines it. */
  lemma FractionDetermines(m: nat, n: nat)
    requires 0 < m < 1_000_000 && 0 < n < 1_000_000
    ensures RStripZeros(Padded(m, 6)) != ""
    ensures RStripZeros(Padded(m, 6)) == RStripZeros(Padded(n, 6)) ==> m == n
  {
    hide ToNat, Digits, RStripZeros, Padded;
    PaddedFacts(m);
    PaddedFacts(n);
    StripTail(Padded(m, 6));
    StripTail(Padded(n, 6));
    if RStripZeros(Padded(m, 6)) == "" { AllZeros(m); }
  }

  lemma AllZeros(m: nat)
    requires m < 1_000_000 && RStripZeros(Padded(m, 6)) == ""
    ensures m == 0
  {
    hide Digits, RStripZeros, Padded;
    PaddedFacts(m);
    StripTail(Padded(m, 6));
    assert "" + Zeros(6) == Zeros(6);
    ReadLeadingZeros("", 6);
    assert Zeros(6) + "" == Zeros(6);
  }

  /** Where the first point or final letter stands. */
  function Stop(t: string): (k: nat)
    ensures k <= |t|
  {
    if t == [] || t[0] == '.' || t[0] == 'Z' then 0 else 1 + Stop(t[1..])
  }

  lemma {:induction false} StopAfter(head: string, rest: string)
    requires '.' !in head && 'Z' !in head && rest != "" && (rest[0] == '.' || rest[0] == 'Z')
    ensures Stop(head + rest) == |head|
  {
    if head == "" {
      assert head + rest == rest;
    } else {
      assert head[0] in head;
      assert (head + rest)[1..] == head[1..] + rest;
      StopAfter(head[1..], rest);
    }
  }

  /** The head is what stands before the stop. */
  lemma HeadOf(d: Datetime)
    requires ValidDatetime(d)
    ensures d.head == NormalizeDatetime(d)[..Stop(NormalizeDatetime(d))]
  {
    hide RStripZeros, Padded, Stop;
    var t := NormalizeDatetime(d);
    var rest := t[|d.head|..];
    assert t == d.head + rest;
    StopAfter(d.head, rest);
  }

  /** The text is a normal form: two datetimes have one text exactly when they are one instant. */
  lemma DatetimeNormalForm(d: Datetime, e: Datetime)
    requires ValidDatetime(d) && ValidDatetime(e)
    ensures NormalizeDatetime(d) == NormalizeDatetime(e) <==> d == e
  {
    if NormalizeDatetime(d) == NormalizeDatetime(e) {
      HeadOf(d);
      HeadOf(e);
      if d.micro > 0 && e.micro > 0 { FractionDetermines(d.micro, e.micro); }
      else if d.micro > 0 { FractionDetermines(d.micro, d.micro); }
      else if e.micro > 0 { FractionDetermines(e.micro, e.micro); }
      hide RStripZeros, Padded, Stop;
      var t, n := NormalizeDatetime(d), |d.head|;
      assert d.micro > 0 ==> t[n..] == "." + RStripZeros(Padded(d.micro, 6)) + "Z";
      assert e.micro > 0 ==> t[n..] == "." + RStripZeros(Padded(e.micro, 6)) + "Z";
      assert d.micro == 0 ==> t[n..] == "Z";
      assert e.micro == 0 ==> t[n..] == "Z";
      if d.micro > 0 && e.micro > 0 {
        var f, g := RStripZeros(Padded(d.micro, 6)), RStripZeros(Padded(e.micro, 6));
        assert f == t[n..][1..|t[n..]| - 1] && g == t[n..][1..|t[n..]| - 1];
      }
    }
  }
}
