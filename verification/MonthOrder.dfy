/** The order of the dashboard's month bars: keys sorted as texts, for months of every year. */
module MonthOrder {
  import opened Text
  import opened Decimal
  import opened Dates

  /** The order of keys in a sorted map. */
  predicate TextBefore(a: string, b: string) {
    if b == [] then false
    else if a == [] then true
    else if a[0] != b[0] then a[0] < b[0]
    else TextBefore(a[1..], b[1..])
  }

  lemma {:induction false} SameLengthOrder(a: string, b: string, x: string, y: string)
    requires |a| == |b|
    ensures TextBefore(a + x, b + y) <==> TextBefore(a, b) || (a == b && TextBefore(x, y))
  {
    if a == [] {
      assert a + x == x && b + y == y;
    } else {
      assert (a + x)[1..] == a[1..] + x && (b + y)[1..] == b[1..] + y;
      SameLengthOrder(a[1..], b[1..], x, y);
      assert a[0] == b[0] ==> (a == b <==> a[1..] == b[1..]) by {
        assert a == [a[0]] + a[1..] && b == [b[0]] + b[1..];
      }
    }
  }

  lemma {:induction false} ValueBound(s: string)
    requires AllDigits(s)
    ensures Value(s) < Pow10(|s|)
  {
    if s != [] { ValueBound(s[..|s| - 1]); }
  }

  lemma {:induction false} NumeralOrder(a: string, b: string)
    requires |a| == |b| && AllDigits(a) && AllDigits(b)
    ensures TextBefore(a, b) <==> Value(a) < Value(b)
  {
    if a != [] {
      FirstDigit(a);
      FirstDigit(b);
      NumeralOrder(a[1..], b[1..]);
      FirstDigitDecides(DigitValue(a[0]), Value(a[1..]), DigitValue(b[0]), Value(b[1..]), Pow10(|a| - 1));
    }
  }

  lemma FirstDigit(a: string)
    requires a != [] && AllDigits(a)
    ensures Value(a) == DigitValue(a[0]) * Pow10(|a| - 1) + Value(a[1..])
    ensures Value(a[1..]) < Pow10(|a| - 1)
  {
    assert a == [a[0]] + a[1..];
    ValueAppend([a[0]], a[1..]);
    assert [a[0]][..0] == [];
    assert Value([a[0]]) == DigitValue(a[0]);
    ValueBound(a[1..]);
  }

  lemma FirstDigitDecides(a: nat, x: nat, b: nat, y: nat, p: nat)
    requires x < p && y < p
    ensures a * p + x < b * p + y <==> a < b || (a == b && x < y)
  {
    if a < b {
      TimesMonotone(a + 1, b, p);
    } else if b < a {
      TimesMonotone(b + 1, a, p);
    }
  }

  lemma TimesMonotone(a: nat, b: nat, p: nat)
    requires a <= b
    ensures a * p <= b * p
  {
  }

  lemma PadWidth(n: nat, w: nat)
    requires w > 0 && n < Pow10(w)
    ensures |Pad(n, w)| == w
  {
    DigitsLength(n, w);
  }

  // ---- Numerals of different lengths ----

  /** The text ends here, or goes on with a character below the digits, as the minus sign is. */
  predicate Stops(x: string) {
    x == [] || x[0] < '0'
  }

  lemma {:induction false} NeitherBefore(a: string, b: string)
    requires |a| == |b| && !TextBefore(a, b) && !TextBefore(b, a)
    ensures a == b
  {
    if a != [] {
      NeitherBefore(a[1..], b[1..]);
      assert a == [a[0]] + a[1..] && b == [b[0]] + b[1..];
    }
  }

  lemma SameWidthValue(a: string, b: string)
    requires |a| == |b| && AllDigits(a) && AllDigits(b)
    ensures a == b <==> Value(a) == Value(b)
  {
    NumeralOrder(a, b);
    NumeralOrder(b, a);
    if Value(a) == Value(b) { NeitherBefore(a, b); }
  }

  lemma QuotientOf(v: nat, p: nat, q: nat, t: nat)
    requires v == q * p + t && t < p
    ensures v / p == q
  {
    if v / p > q { TimesMonotone(q + 1, v / p, p); }
    if v / p < q { TimesMonotone(v / p + 1, q, p); }
  }

  /** The value of the first `k` digits. */
  lemma PrefixValue(b: string, k: nat)
    requires AllDigits(b) && k <= |b|
    ensures Value(b[..k]) == Value(b) / Pow10(|b| - k)
  {
    assert b == b[..k] + b[k..];
    ValueAppend(b[..k], b[k..]);
    ValueBound(b[k..]);
    QuotientOf(Value(b), Pow10(|b| - k), Value(b[..k]), Value(b[k..]));
  }

  /** A numeral against the first digits of a longer one: the shorter comes first when it is not above them. */
  lemma ShorterNumeral(a: string, b: string, x: string, y: string)
    requires AllDigits(a) && AllDigits(b) && |a| < |b| && Stops(x)
    ensures TextBefore(a + x, b + y) <==> Value(a) <= Value(b) / Pow10(|b| - |a|)
    ensures TextBefore(b + y, a + x) <==> Value(b) / Pow10(|b| - |a|) < Value(a)
  {
    var p, q := b[..|a|], b[|a|..];
    assert b + y == p + (q + y);
    SameLengthOrder(a, p, x, q + y);
    SameLengthOrder(p, a, q + y, x);
    NumeralOrder(a, p);
    NumeralOrder(p, a);
    SameWidthValue(a, p);
    PrefixValue(b, |a|);
    assert IsDigit(q[0]) && (q + y)[0] == q[0];
  }

  /** What padding makes of the order of numbers: of two lengths, the longer one is cut to the shorter first. */
  predicate PadBefore(m: nat, n: nat, w: nat) {
    var k, l := |Pad(m, w)|, |Pad(n, w)|;
    if k <= l then (if k == l then m < n else m <= n / Pow10(l - k)) else m / Pow10(k - l) < n
  }

  lemma PadOrder(m: nat, n: nat, w: nat, x: string, y: string)
    requires Stops(x) && Stops(y)
    ensures TextBefore(Pad(m, w) + x, Pad(n, w) + y) <==> if m == n then TextBefore(x, y) else PadBefore(m, n, w)
  {
    var a, b := Pad(m, w), Pad(n, w);
    PadValue(m, w);
    PadValue(n, w);
    if |a| == |b| {
      SameLengthOrder(a, b, x, y);
      NumeralOrder(a, b);
      SameWidthValue(a, b);
    } else if |a| < |b| {
      ShorterNumeral(a, b, x, y);
    } else {
      ShorterNumeral(b, a, y, x);
    }
  }

  // ---- Keys ----

  /** The order of two month keys, by number. */
  predicate KeyBefore(a: Dmy, b: Dmy) {
    if a.year == b.year then PadBefore(a.month, b.month, 2)
    else if a.year >= 0 && b.year >= 0 then PadBefore(a.year, b.year, 4)
    else if a.year < 0 && b.year < 0 then PadBefore(-a.year, -b.year, 3)
    else a.year < 0
  }

  lemma MinusInFront(s: string, t: string)
    ensures TextBefore(['-'] + s, ['-'] + t) <==> TextBefore(s, t)
  {
    assert (['-'] + s)[1..] == s && (['-'] + t)[1..] == t;
  }

  lemma MonthPart(m: nat, n: nat)
    ensures TextBefore(['-'] + Pad(m, 2), ['-'] + Pad(n, 2)) <==> PadBefore(m, n, 2)
  {
    MinusInFront(Pad(m, 2), Pad(n, 2));
    PadOrder(m, n, 2, [], []);
    assert Pad(m, 2) + [] == Pad(m, 2) && Pad(n, 2) + [] == Pad(n, 2);
  }

  lemma NonNegativeKeys(a: Dmy, b: Dmy)
    requires a.year >= 0 && b.year >= 0
    ensures TextBefore(MonthKey(a), MonthKey(b)) <==> KeyBefore(a, b)
  {
    PadOrder(a.year, b.year, 4, ['-'] + Pad(a.month, 2), ['-'] + Pad(b.month, 2));
    MonthPart(a.month, b.month);
  }

  lemma NegativeKey(d: Dmy)
    requires d.year < 0
    ensures MonthKey(d) == ['-'] + (Pad(-d.year, 3) + (['-'] + Pad(d.month, 2)))
  {
    assert "-" == ['-'];
  }

  lemma NegativeKeys(a: Dmy, b: Dmy)
    requires a.year < 0 && b.year < 0
    ensures TextBefore(MonthKey(a), MonthKey(b)) <==> KeyBefore(a, b)
  {
    NegativeKey(a);
    NegativeKey(b);
    NegativeParts(-a.year, a.month, -b.year, b.month);
  }

  lemma NegativeParts(y1: nat, m1: nat, y2: nat, m2: nat)
    ensures TextBefore(['-'] + (Pad(y1, 3) + (['-'] + Pad(m1, 2))), ['-'] + (Pad(y2, 3) + (['-'] + Pad(m2, 2)))) <==>
      if y1 == y2 then PadBefore(m1, m2, 2) else PadBefore(y1, y2, 3)
  {
    var x, y := ['-'] + Pad(m1, 2), ['-'] + Pad(m2, 2);
    MinusInFront(Pad(y1, 3) + x, Pad(y2, 3) + y);
    PadOrder(y1, y2, 3, x, y);
    MonthPart(m1, m2);
  }

  /** The texts of any two month keys are in the order of their numbers as `KeyBefore` says. */
  lemma KeyOrder(a: Dmy, b: Dmy)
    ensures TextBefore(MonthKey(a), MonthKey(b)) <==> KeyBefore(a, b)
  {
    if a.year >= 0 && b.year >= 0 {
      NonNegativeKeys(a, b);
    } else if a.year < 0 && b.year < 0 {
      NegativeKeys(a, b);
    } else {
      KeyStart(a);
      KeyStart(b);
      var d := if a.year < 0 then b else a;
      assert MonthKey(d)[0] == Pad(d.year, 4)[0];
    }
  }

  // ---- When the bars are in calendar order ----

  predicate EarlierMonth(a: Dmy, b: Dmy) {
    a.year < b.year || (a.year == b.year && a.month < b.month)
  }

  /** `n` cut to as many digits as `m` has, both padded to `w`. */
  function Cut(n: nat, m: nat, w: nat): int {
    var k, l := |Pad(m, w)|, |Pad(n, w)|;
    if k < l then n / Pow10(l - k) else n
  }

  lemma {:induction false} DigitsGrow(m: nat, n: nat)
    requires m <= n
    ensures |Digits(m)| <= |Digits(n)|
  {
    if m >= 10 { DigitsGrow(m / 10, n / 10); }
  }

  /** Of two different numbers only the larger one can need cutting. */
  lemma CutDecides(m: nat, n: nat, w: nat)
    requires m < n
    ensures PadBefore(m, n, w) <==> m <= Cut(n, m, w)
    ensures PadBefore(n, m, w) <==> Cut(n, m, w) < m
  {
    DigitsGrow(m, n);
  }

  /** The number that decides, cut, is on the right side of the other. */
  predicate InStep(a: Dmy, b: Dmy) {
    if a.year == b.year then a.month <= Cut(b.month, a.month, 2)
    else if a.year >= 0 && b.year >= 0 then a.year <= Cut(b.year, a.year, 4)
    else if a.year < 0 && b.year < 0 then Cut(-a.year, -b.year, 3) < -b.year
    else true
  }

  /**
    Exactly when the bars of an earlier and a later month are in that order, for all dates: within
    one year, and between years that are not negative, when the smaller number is not above the
    first digits of the larger one; always between a negative year and another; and between
    negative years only when the larger absolute value, cut to the length of the smaller, is below it.
   */
  lemma BarsAreChronologicalIff(a: Dmy, b: Dmy)
    requires EarlierMonth(a, b)
    ensures TextBefore(MonthKey(a), MonthKey(b)) <==> InStep(a, b)
  {
    KeyOrder(a, b);
    if a.year == b.year {
      CutDecides(a.month, b.month, 2);
    } else if a.year >= 0 {
      CutDecides(a.year, b.year, 4);
    } else if b.year < 0 {
      CutDecides(-b.year, -a.year, 3);
    }
  }

  /** The sorted bars are in calendar order, for years of up to four digits and two-digit months. */
  lemma BarsAreChronological(a: Dmy, b: Dmy)
    requires 0 <= a.year < 10000 && 0 <= b.year < 10000 && a.month < 100 && b.month < 100
    ensures TextBefore(MonthKey(a), MonthKey(b)) <==> EarlierMonth(a, b)
  {
    SmallPowers();
    KeyOrder(a, b);
    PadWidth(a.year, 4);
    PadWidth(b.year, 4);
    PadWidth(a.month, 2);
    PadWidth(b.month, 2);
  }

  lemma SmallPowers()
    ensures Pow10(1) == 10 && Pow10(2) == 100 && Pow10(4) == 10000 && Pow10(5) == 100000
  {
    assert Pow10(5) == 10 * Pow10(4) && Pow10(4) == 10 * Pow10(3) && Pow10(3) == 10 * Pow10(2);
    assert Pow10(2) == 10 * Pow10(1) && Pow10(1) == 10 * Pow10(0);
  }

  /** A five-digit year comes before the year 2000. */
  lemma LongYearSortsFirst(a: Dmy, b: Dmy)
    requires a.year == 2000 && b.year == 10000
    ensures EarlierMonth(a, b) && TextBefore(MonthKey(b), MonthKey(a)) && !TextBefore(MonthKey(a), MonthKey(b))
  {
    SmallPowers();
    PadWidth(2000, 4);
    DigitsLength(10000, 5);
    LongNumeral(10000, 5);
    KeyOrder(a, b);
    KeyOrder(b, a);
  }
}
