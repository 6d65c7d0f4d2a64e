/** Printing and reading of decimal numerals. */
module Decimal {
  import opened Text

  function DigitChar(d: nat): char
    requires d < 10
  {
    '0' + d as char
  }

  function DigitValue(c: char): (d: nat)
    requires IsDigit(c)
    ensures d < 10
  {
    (c - '0') as nat
  }

  predicate AllDigits(s: string) {
    forall i :: 0 <= i < |s| ==> IsDigit(s[i])
  }

  /** Shortest decimal numeral of `n`. */
  function Digits(n: nat): (s: string)
    ensures AllDigits(s) && |s| > 0
    ensures |s| > 1 ==> s[0] != '0'
  {
    if n < 10 then [DigitChar(n)] else Digits(n / 10) + [DigitChar(n % 10)]
  }

  function Value(s: string): nat
    requires AllDigits(s)
  {
    if s == [] then 0 else 10 * Value(s[..|s| - 1]) + DigitValue(s[|s| - 1])
  }

  lemma {:induction false} DigitsValue(n: nat)
    ensures Value(Digits(n)) == n
  {
    if n < 10 {
      assert Digits(n)[..0] == [];
      assert Value(Digits(n)[..0]) == 0;
    } else {
      DigitsValue(n / 10);
      assert Digits(n)[..|Digits(n)| - 1] == Digits(n / 10);
    }
  }

  /** A run of zeros on the left does not change the value. */
  function Zeros(k: nat): (s: string)
    ensures |s| == k && forall i :: 0 <= i < k ==> s[i] == '0'
  {
    seq(k, i => '0')
  }

  lemma {:induction false} LeadingZeros(k: nat, s: string)
    requires AllDigits(s)
    ensures AllDigits(Zeros(k) + s) && Value(Zeros(k) + s) == Value(s)
    decreases |s|, k
  {
    var t := Zeros(k) + s;
    assert AllDigits(t);
    if s != [] {
      LeadingZeros(k, s[..|s| - 1]);
      assert t[..|t| - 1] == Zeros(k) + s[..|s| - 1];
    } else if k > 0 {
      LeadingZeros(k - 1, []);
      assert t[..|t| - 1] == Zeros(k - 1) + [];
    }
  }

  /** Zero-padding to a minimum width. */
  function Pad(n: nat, width: nat): (s: string)
    ensures AllDigits(s) && |s| >= width && |s| > 0
  {
    var d := Digits(n);
    if |d| >= width then d else Zeros(width - |d|) + d
  }

  lemma PadValue(n: nat, width: nat)
    ensures Value(Pad(n, width)) == n
  {
    DigitsValue(n);
    if |Digits(n)| < width { LeadingZeros(width - |Digits(n)|, Digits(n)); }
  }

  function Pow10(k: nat): (r: nat)
    ensures r > 0
  {
    if k == 0 then 1 else 10 * Pow10(k - 1)
  }

  lemma {:induction false} DigitsLength(n: nat, k: nat)
    requires k > 0 && n < Pow10(k)
    ensures |Digits(n)| <= k
    decreases k
  {
    if n >= 10 {
      assert k > 1 by { assert Pow10(1) == 10 * Pow10(0); }
      DigitsLength(n / 10, k - 1);
    }
  }

  lemma {:induction false} LongNumeral(n: nat, k: nat)
    requires k > 0 && n >= Pow10(k - 1)
    ensures |Digits(n)| >= k
    decreases k
  {
    if k > 1 {
      assert Pow10(k - 1) == 10 * Pow10(k - 2);
      assert Pow10(k - 2) >= 1;
      LongNumeral(n / 10, k - 1);
    }
  }

  lemma TimesTen(x: nat, p: nat)
    ensures x * (10 * p) == 10 * (x * p)
  {
  }

  lemma {:induction false} ValueAppend(s: string, t: string)
    requires AllDigits(s) && AllDigits(t)
    ensures AllDigits(s + t) && Value(s + t) == Value(s) * Pow10(|t|) + Value(t)
    decreases |t|
  {
    var u := s + t;
    assert AllDigits(u);
    if t == [] {
      assert u == s;
    } else {
      var front := t[..|t| - 1];
      ValueAppend(s, front);
      assert u[..|u| - 1] == s + front;
      assert Value(u) == 10 * Value(s + front) + DigitValue(t[|t| - 1]);
      TimesTen(Value(s), Pow10(|front|));
    }
  }

  // ---- Reading a signed numeral ----

  /** A decimal number: an unsigned numeral with `decimals` digits after the point. */
  datatype Number = Number(negative: bool, mantissa: nat, decimals: nat) {
    /** The number times one hundred: an amount of rupees, in paise. */
    function InPaise(): real {
      var v := mantissa as real * 100.0 / Pow10(decimals) as real;
      if negative then -v else v
    }
  }

  function Find(s: string, c: char): (k: nat)
    ensures k <= |s|
    ensures c !in s[..k]
    ensures k < |s| ==> s[k] == c
  {
    if s == [] || s[0] == c then 0 else 1 + Find(s[1..], c)
  }

  /** Reads digits with at most one point and at least one digit. */
  function ReadUnsigned(s: string): Option<Number> {
    var k := Find(s, '.');
    var whole, fraction := s[..k], if k < |s| then s[k + 1..] else [];
    if |whole| + |fraction| > 0 && AllDigits(whole + fraction)
    then Some(Number(false, Value(whole + fraction), |fraction|))
    else None
  }

  /** Reads an optional minus sign and an unsigned numeral. */
  function ReadNumber(s: string): Option<Number> {
    if s != [] && s[0] == '-' then
      match ReadUnsigned(s[1..])
      case Some(n) => Some(n.(negative := true))
      case None => None
    else ReadUnsigned(s)
  }

  /** Rupees, point, two digits of paise. */
  function UnsignedForm(a: nat): string {
    Digits(a / 100) + "." + Pad(a % 100, 2)
  }

  /** The printed form of an amount in paise, without grouping. */
  function PlainAmount(paise: int): string {
    if paise < 0 then "-" + UnsignedForm(-paise) else UnsignedForm(paise)
  }

  lemma PadTwo(n: nat)
    requires n < 100
    ensures |Pad(n, 2)| == 2
  {
    assert Pow10(2) == 10 * Pow10(1) && Pow10(1) == 10 * Pow10(0);
    DigitsLength(n, 2);
  }

  lemma {:induction false} FindIn(s: string, t: string, c: char)
    requires c !in s && t != [] && t[0] == c
    ensures Find(s + t, c) == |s|
  {
    if s == [] {
      assert s + t == t;
    } else {
      assert s[0] in s;
      FindIn(s[1..], t, c);
      assert (s + t)[1..] == s[1..] + t;
    }
  }

  /** Two runs of digits around a point. */
  lemma AroundThePoint(w: string, f: string)
    requires AllDigits(w) && AllDigits(f) && w != []
    ensures AllDigits(w + f)
    ensures ReadUnsigned(w + "." + f) == Some(Number(false, Value(w + f), |f|))
    ensures w + "." + f != [] && IsDigit((w + "." + f)[0])
  {
    var s := w + "." + f;
    assert s == w + ("." + f);
    FindIn(w, "." + f, '.');
    assert s[..|w|] == w && s[|w| + 1..] == f;
  }

  lemma ValueOfParts(a: nat)
    ensures |Pad(a % 100, 2)| == 2
    ensures AllDigits(Digits(a / 100) + Pad(a % 100, 2)) && Value(Digits(a / 100) + Pad(a % 100, 2)) == a
  {
    PadTwo(a % 100);
    ValueAppend(Digits(a / 100), Pad(a % 100, 2));
    DigitsValue(a / 100);
    PadValue(a % 100, 2);
    assert Pow10(2) == 100 by { assert Pow10(2) == 10 * Pow10(1) && Pow10(1) == 10 * Pow10(0); }
  }

  lemma UnsignedAmount(a: nat)
    ensures ReadUnsigned(UnsignedForm(a)) == Some(Number(false, a, 2))
    ensures UnsignedForm(a) != [] && IsDigit(UnsignedForm(a)[0])
  {
    AroundThePoint(Digits(a / 100), Pad(a % 100, 2));
    ValueOfParts(a);
  }

  lemma TwoDecimals(negative: bool, a: nat)
    ensures Number(negative, a, 2).InPaise() == if negative then -(a as real) else a as real
  {
    assert Pow10(2) == 100 by { assert Pow10(2) == 10 * Pow10(1) && Pow10(1) == 10 * Pow10(0); }
    assert a as real * 100.0 / 100.0 == a as real;
  }

  lemma SignedReads(u: string, n: Number)
    requires u != [] && u[0] != '-' && ReadUnsigned(u) == Some(n) && !n.negative
    ensures ReadNumber(u) == Some(n)
    ensures ReadNumber("-" + u) == Some(n.(negative := true))
  {
    assert ("-" + u)[1..] == u;
  }

  /** Reading the plain form gives the amount back. */
  lemma PlainAmountReads(paise: int)
    ensures ReadNumber(PlainAmount(paise)).Some?
    ensures ReadNumber(PlainAmount(paise)).value.InPaise() == paise as real
  {
    var a: nat := if paise < 0 then -paise else paise;
    UnsignedAmount(a);
    SignedReads(UnsignedForm(a), Number(false, a, 2));
    TwoDecimals(paise < 0, a);
  }

  // ---- What does not read ----

  lemma UnsignedNeedsADigit(s: string)
    requires forall i :: 0 <= i < |s| ==> !IsDigit(s[i])
    ensures ReadUnsigned(s).None?
  {
    var k := Find(s, '.');
    var whole, fraction := s[..k], if k < |s| then s[k + 1..] else [];
    if whole != [] {
      assert (whole + fraction)[0] == s[0];
    } else if fraction != [] {
      assert (whole + fraction)[0] == s[k + 1];
    }
  }

  /** A text without a digit is no number: not the empty text, not a sign, not a point. */
  lemma NumberNeedsADigit(s: string)
    requires forall i :: 0 <= i < |s| ==> !IsDigit(s[i])
    ensures ReadNumber(s).None?
  {
    UnsignedNeedsADigit(s);
    if s != [] { UnsignedNeedsADigit(s[1..]); }
  }

  /** Nothing but digits, points and minus signs stands in a number. */
  lemma NumbersAreNumeric(s: string, i: nat)
    requires i < |s| && ReadNumber(s).Some?
    ensures IsDigit(s[i]) || s[i] == '.' || s[i] == '-'
  {
    if s[0] == '-' {
      if i > 0 { UnsignedIsNumeric(s[1..], i - 1); }
    } else {
      UnsignedIsNumeric(s, i);
    }
  }

  lemma UnsignedIsNumeric(s: string, i: nat)
    requires i < |s| && ReadUnsigned(s).Some?
    ensures IsDigit(s[i]) || s[i] == '.'
  {
    var k := Find(s, '.');
    var whole, fraction := s[..k], if k < |s| then s[k + 1..] else [];
    assert AllDigits(whole + fraction);
    if i < k {
      assert (whole + fraction)[i] == s[i];
    } else if i > k {
      assert (whole + fraction)[i - 1] == s[i];
    }
  }
}
