/**
  Rupee amounts in the Indian grouping style: the two printers of the program (the dashboard's
  and the screen's), and the two readers that take a printed amount back. Amounts are in paise.
 */
module IndianFormat {
  import opened Text
  import opened Lists
  import opened Decimal

  // ---- What grouping means ----

  /** The characters of `s` that `keep` accepts, in order. */
  function Filter(s: string, keep: char -> bool): string {
    if s == [] then [] else if keep(s[0]) then [s[0]] + Filter(s[1..], keep) else Filter(s[1..], keep)
  }

  predicate NotComma(c: char) { c != ',' }

  function DropCommas(s: string): string { Filter(s, NotComma) }

  lemma {:induction false} FilterAppend(s: string, t: string, keep: char -> bool)
    ensures Filter(s + t, keep) == Filter(s, keep) + Filter(t, keep)
  {
    if s == [] {
      assert s + t == t;
    } else {
      FilterAppend(s[1..], t, keep);
      assert (s + t)[0] == s[0] && (s + t)[1..] == s[1..] + t;
    }
  }

  lemma {:induction false} FilterAll(s: string, keep: char -> bool)
    requires forall i :: 0 <= i < |s| ==> keep(s[i])
    ensures Filter(s, keep) == s
  {
    if s != [] {
      FilterAll(s[1..], keep);
      assert s == [s[0]] + s[1..];
    }
  }

  lemma {:induction false} FilterSame(s: string, p: char -> bool, q: char -> bool)
    requires forall i :: 0 <= i < |s| ==> p(s[i]) == q(s[i])
    ensures Filter(s, p) == Filter(s, q)
  {
    if s != [] { FilterSame(s[1..], p, q); }
  }

  lemma DigitsHaveNoComma(s: string)
    requires AllDigits(s)
    ensures DropCommas(s) == s
  {
    FilterAll(s, NotComma);
  }

  /** The character at distance `i` from the right end. */
  function FromRight(s: string, i: nat): char
    requires i < |s|
  {
    s[|s| - 1 - i]
  }

  /**
    Commas stand exactly at the third, sixth, ninth... place from the right, and never first: groups
    of three, then of two.
   */
  ghost predicate CommasInPlace(s: string) {
    && (s != [] ==> s[0] != ',')
    && forall i: nat :: i < |s| ==> (FromRight(s, i) == ',' <==> i > 0 && i % 3 == 0)
  }

  /** Groups of two from the right. */
  function InTwos(s: string): string {
    if |s| <= 2 then s else JoinComma(InTwos(s[..|s| - 2]), s[|s| - 2..])
  }

  function JoinComma(a: string, b: string): string {
    a + ([','] + b)
  }

  /** The last three digits, then groups of two. */
  function Grouped(s: string): string {
    if |s| <= 3 then s else JoinComma(InTwos(s[..|s| - 3]), s[|s| - 3..])
  }

  lemma JoinDropsComma(g: string, last: string)
    requires AllDigits(last)
    ensures DropCommas(JoinComma(g, last)) == DropCommas(g) + last
  {
    var tail := [','] + last;
    FilterAppend(g, tail, NotComma);
    assert tail[0] == ',' && tail[1..] == last;
    DigitsHaveNoComma(last);
  }

  /** Places in a joined text, from the right: first the right group's, then the comma, then the left group's. */
  lemma JoinPlace(g: string, last: string, i: nat)
    requires i < |JoinComma(g, last)|
    ensures FromRight(JoinComma(g, last), i) ==
      if i < |last| then FromRight(last, i) else if i == |last| then ',' else FromRight(g, i - |last| - 1)
  {
  }

  ghost predicate CommaEveryThirdFrom2(t: string) {
    forall i: nat :: i < |t| ==> (FromRight(t, i) == ',' <==> i % 3 == 2)
  }

  lemma DigitPlace(s: string, i: nat)
    requires AllDigits(s) && i < |s|
    ensures FromRight(s, i) != ','
  {
  }

  lemma TwosPlaces(g: string, last: string)
    requires CommaEveryThirdFrom2(g) && AllDigits(last) && |last| == 2
    ensures CommaEveryThirdFrom2(JoinComma(g, last))
  {
    var t := JoinComma(g, last);
    forall i: nat | i < |t| ensures FromRight(t, i) == ',' <==> i % 3 == 2 {
      JoinPlace(g, last, i);
      if i < 2 {
        DigitPlace(last, i);
      } else if i > 2 {
        assert FromRight(t, i) == FromRight(g, i - 3);
        assert (i - 3) % 3 == i % 3;
      }
    }
  }

  lemma ThreesPlaces(g: string, last: string)
    requires CommaEveryThirdFrom2(g) && AllDigits(last) && |last| == 3 && g != [] && g[0] != ','
    ensures CommasInPlace(JoinComma(g, last))
  {
    var t := JoinComma(g, last);
    forall i: nat | i < |t| ensures FromRight(t, i) == ',' <==> i > 0 && i % 3 == 0 {
      JoinPlace(g, last, i);
      if i < 3 {
        DigitPlace(last, i);
      } else if i > 3 {
        assert FromRight(t, i) == FromRight(g, i - 4);
        assert (i - 4) % 3 == 2 <==> i % 3 == 0;
      }
    }
  }

  lemma ShortPlaces(s: string)
    requires AllDigits(s)
    ensures |s| <= 2 ==> CommaEveryThirdFrom2(s)
    ensures |s| <= 3 ==> CommasInPlace(s)
  {
    forall i: nat | i < |s| ensures FromRight(s, i) != ',' {
      DigitPlace(s, i);
    }
  }

  /** Commas of `InTwos`, counted from the right: places 2, 5, 8... */
  lemma {:induction false} InTwosShape(s: string)
    requires s != [] && AllDigits(s)
    ensures InTwos(s) != [] && InTwos(s)[0] == s[0]
    ensures DropCommas(InTwos(s)) == s
    ensures CommaEveryThirdFrom2(InTwos(s))
  {
    if |s| <= 2 {
      DigitsHaveNoComma(s);
      ShortPlaces(s);
    } else {
      var front, last := s[..|s| - 2], s[|s| - 2..];
      InTwosShape(front);
      JoinDropsComma(InTwos(front), last);
      TwosPlaces(InTwos(front), last);
      assert s == front + last;
    }
  }

  /** Grouping only inserts commas, and inserts them in the Indian places. */
  lemma GroupedShape(s: string)
    requires s != [] && AllDigits(s)
    ensures DropCommas(Grouped(s)) == s
    ensures CommasInPlace(Grouped(s)) && Grouped(s) != [] && Grouped(s)[0] == s[0]
  {
    if |s| <= 3 {
      DigitsHaveNoComma(s);
      ShortPlaces(s);
    } else {
      var front, last := s[..|s| - 3], s[|s| - 3..];
      InTwosShape(front);
      JoinDropsComma(InTwos(front), last);
      ThreesPlaces(InTwos(front), last);
      assert s == front + last;
    }
  }

  lemma DropLast(a: string)
    requires a != []
    ensures DropCommas(a) == DropCommas(a[..|a| - 1]) + (if a[|a| - 1] == ',' then [] else [a[|a| - 1]])
  {
    var c := [a[|a| - 1]];
    assert a == a[..|a| - 1] + c;
    FilterAppend(a[..|a| - 1], c, NotComma);
    assert c[1..] == [];
  }

  lemma SameLast(a: string, b: string, c: char, d: char)
    requires c == ',' <==> d == ','
    requires a + (if c == ',' then [] else [c]) == b + (if d == ',' then [] else [d])
    ensures a == b && c == d
  {
    if c != ',' {
      var u := a + [c];
      assert u == b + [d];
      assert a == u[..|u| - 1] && b == u[..|u| - 1];
      assert u[|u| - 1] == c && u[|u| - 1] == d;
    } else {
      assert a + [] == a && b + [] == b;
    }
  }

  /**
    One place further left: the texts agree on `k + 1` characters, and what is left of them still
    has the same digits.
   */
  lemma GroupingStep(x: string, y: string, k: nat)
    requires k < |x| && k < |y| && CommasInPlace(x) && CommasInPlace(y)
    requires x[|x| - k..] == y[|y| - k..]
    requires DropCommas(x[..|x| - k]) == DropCommas(y[..|y| - k])
    ensures x[|x| - (k + 1)..] == y[|y| - (k + 1)..]
    ensures DropCommas(x[..|x| - (k + 1)]) == DropCommas(y[..|y| - (k + 1)])
  {
    var a, b, c, d := x[..|x| - k], y[..|y| - k], FromRight(x, k), FromRight(y, k);
    DropLast(a);
    DropLast(b);
    assert c == ',' <==> d == ',';
    assert a[..|a| - 1] == x[..|x| - (k + 1)] && b[..|b| - 1] == y[..|y| - (k + 1)];
    SameLast(DropCommas(a[..|a| - 1]), DropCommas(b[..|b| - 1]), c, d);
    assert x[|x| - (k + 1)..] == [c] + x[|x| - k..];
    assert y[|y| - (k + 1)..] == [d] + y[|y| - k..];
  }

  lemma FirstSurvives(x: string, k: nat)
    requires k < |x| && x[0] != ','
    ensures DropCommas(x[..|x| - k]) != []
  {
    assert x[..|x| - k][0] == x[0];
  }

  /** The digits and the comma places determine the text; `k` characters on the right already agree. */
  lemma {:induction false} GroupingIsUnique(x: string, y: string, k: nat)
    requires k <= |x| && k <= |y|
    requires CommasInPlace(x) && CommasInPlace(y)
    requires x[|x| - k..] == y[|y| - k..]
    requires DropCommas(x[..|x| - k]) == DropCommas(y[..|y| - k])
    ensures x == y
    decreases |x| - k
  {
    if k < |x| && k < |y| {
      GroupingStep(x, y, k);
      GroupingIsUnique(x, y, k + 1);
    } else {
      if k < |x| { FirstSurvives(x, k); }
      if k < |y| { FirstSurvives(y, k); }
      assert x[0..] == x && y[0..] == y;
    }
  }

  lemma SameGrouping(x: string, y: string)
    requires CommasInPlace(x) && CommasInPlace(y) && DropCommas(x) == DropCommas(y)
    ensures x == y
  {
    var m, n := |x|, |y|;
    assert x[..m] == x && x[m..] == [];
    assert y[..n] == y && y[n..] == [];
    GroupingIsUnique(x, y, 0);
  }

  /** A text that has the digits `s` and its commas in the Indian places is `Grouped(s)`, and no other text is. */
  lemma OnlyOneGrouping(s: string, t: string)
    requires s != [] && AllDigits(s)
    ensures DropCommas(t) == s && CommasInPlace(t) <==> t == Grouped(s)
  {
    var g := Grouped(s);
    assert DropCommas(g) == s && CommasInPlace(g) by { GroupedShape(s); }
    if DropCommas(t) == s && CommasInPlace(t) { SameGrouping(t, g); }
  }

  // ---- The dashboard's printer ----

  function Reverse(parts: seq<string>): seq<string> {
    if parts == [] then [] else Reverse(parts[1..]) + [parts[0]]
  }

  lemma {:induction false} JoinAppend(parts: seq<string>, last: string, sep: char)
    requires parts != []
    ensures Join(parts + [last], sep) == Join(parts, sep) + [sep] + last
  {
    if |parts| == 1 {
      assert (parts + [last])[1..] == [last];
    } else {
      JoinAppend(parts[1..], last, sep);
      assert (parts + [last])[1..] == parts[1..] + [last];
    }
  }

  lemma {:induction false} ReverseAppend(parts: seq<string>, last: string)
    ensures Reverse(parts + [last]) == [last] + Reverse(parts)
  {
    if parts != [] {
      ReverseAppend(parts[1..], last);
      assert (parts + [last])[1..] == parts[1..] + [last];
    }
  }

  /** Joining a new chunk in front of groups already peeled off. */
  lemma PeelStep(parts: seq<string>, chunk: string, rest: string)
    requires parts != []
    ensures JoinComma(JoinComma(rest, chunk), Join(Reverse(parts), ',')) ==
        JoinComma(rest, Join(Reverse(parts + [chunk]), ','))
  {
    ReverseAppend(parts, chunk);
    ReverseNonEmpty(parts);
    var r := Reverse(parts);
    assert ([chunk] + r)[1..] == r;
    assert Join([chunk] + r, ',') == chunk + "," + Join(r, ',');
    assert JoinComma(JoinComma(rest, chunk), Join(r, ',')) == JoinComma(rest, chunk + "," + Join(r, ','));
  }

  /** Peels groups off the right end, then joins them in reverse. */
  method GroupFromRight(s: string) returns (formatted: string)
    requires s != []
    ensures formatted == Grouped(s)
  {
    if |s| <= 3 { return s; }
    var remaining, parts := s[..|s| - 3], [s[|s| - 3..]];
    assert Reverse(parts) == parts by { assert parts[1..] == []; }
    while |remaining| > 2
      invariant remaining != []
      invariant parts != []
      invariant JoinComma(InTwos(remaining), Join(Reverse(parts), ',')) == Grouped(s)
    {
      var chunk, rest := remaining[|remaining| - 2..], remaining[..|remaining| - 2];
      PeelStep(parts, chunk, InTwos(rest));
      parts := parts + [chunk];
      remaining := rest;
    }
    LastPeel(parts, remaining);
    parts := parts + [remaining];
    formatted := Join(Reverse(parts), ',');
  }

  lemma LastPeel(parts: seq<string>, rest: string)
    requires parts != []
    ensures JoinComma(rest, Join(Reverse(parts), ',')) == Join(Reverse(parts + [rest]), ',')
  {
    ReverseAppend(parts, rest);
    ReverseNonEmpty(parts);
    var r := Reverse(parts);
    assert ([rest] + r)[1..] == r;
    assert Join([rest] + r, ',') == rest + "," + Join(r, ',');
  }

  lemma ReverseNonEmpty(parts: seq<string>)
    requires parts != []
    ensures Reverse(parts) != []
  {
  }

  /** Sign, grouped rupees, point, two digits of paise: the text both printers produce. */
  function GroupedAmount(paise: int): string {
    var a: nat := if paise < 0 then -paise else paise;
    (if paise < 0 then "-" else "") + (Grouped(Digits(a / 100)) + ("." + Pad(a % 100, 2)))
  }

  const RUPEE_SPACE: string := "\U{20B9} "

  method DashboardFmtInr(paise: int) returns (s: string)
    ensures s == RUPEE_SPACE + GroupedAmount(paise)
  {
    var sign, a := "", paise;
    if paise < 0 { sign, a := "-", -paise; }
    var formatted := GroupFromRight(Digits(a / 100));
    s := RUPEE_SPACE + (sign + (formatted + ("." + Pad(a % 100, 2))));
  }

  // ---- The screen's printer ----

  /** Appending one more pair of digits on the right. */
  lemma NextPair(s: string, k: nat)
    requires k + 2 <= |s|
    ensures InTwos(s[..k + 2]) == if k == 0 then s[..2] else JoinComma(InTwos(s[..k]), s[k..k + 2])
  {
    var next := s[..k + 2];
    if k > 0 { assert next[..|next| - 2] == s[..k] && next[|next| - 2..] == s[k..k + 2]; }
  }

  /** Cuts the leading digits into pairs from the left after an odd first digit. */
  method GroupFromLeft(first: string) returns (out: string)
    requires first != [] && AllDigits(first)
    ensures out == InTwos(first)
  {
    var r := |first| % 2;
    out := "";
    if r != 0 { out := first[..r]; }
    var k := r;
    assert first[..k] == out && InTwos(out) == out;
    while k < |first|
      invariant r <= k <= |first| && k % 2 == |first| % 2
      invariant out == InTwos(first[..k])
      invariant out == [] <==> k == 0
    {
      NextPair(first, k);
      ghost var before, pair := out, first[k..k + 2];
      if out != "" { out := out + ","; }
      out := out + first[k..k + 2];
      assert out == if k == 0 then pair else before + ([','] + pair);
      k := k + 2;
    }
    assert first[..|first|] == first;
  }

  method ScreenFmtInr(paise: int) returns (s: string)
    ensures s == GroupedAmount(paise)
  {
    var cents: nat := if paise < 0 then -paise else paise;
    var sign := if paise < 0 then "-" else "";
    var rupees := cents / 100;
    if rupees == 0 {
      return sign + ("0" + ("." + Pad(cents % 100, 2)));
    }
    var d := Digits(rupees);
    var out := d;
    if |d| > 3 {
      var first, rest := d[..|d| - 3], d[|d| - 3..];
      out := GroupFromLeft(first);
      InTwosShape(first);
      if out != "" { out := out + ","; }
      out := out + rest;
      assert out == JoinComma(InTwos(first), rest);
    }
    s := sign + (out + ("." + Pad(cents % 100, 2)));
  }

  // ---- The readers ----

  predicate KeptByReimport(c: char) {
    IsDigit(c) || c == '.' || c == '-'
  }

  predicate KeptByTally(c: char) {
    c != '\U{20B9}' && c != ',' && c != ' '
  }

  /** The re-import's reader: digits, point and minus are kept, zero and unreadable text mean no amount. */
  function ParseAmt(s: string): Option<real> {
    if s == [] then None
    else
      match ReadNumber(Filter(s, KeptByReimport))
      case Some(n) => if n.InPaise() != 0.0 then Some(n.InPaise()) else None
      case None => None
  }

  function Upper(s: string): string {
    seq(|s|, i requires 0 <= i < |s| => if 'a' <= s[i] <= 'z' then s[i] - 'a' + 'A' else s[i])
  }

  /** Removes every non-overlapping `xy`, left to right. */
  function RemovePair(s: string, x: char, y: char): string {
    if s == [] then []
    else if |s| >= 2 && s[0] == x && s[1] == y then RemovePair(s[2..], x, y)
    else [s[0]] + RemovePair(s[1..], x, y)
  }

  /**
    The Tally reader: currency sign, commas and spaces go, CR and DR marks go, unreadable text is
    zero, the sign is dropped.
   */
  function ParseTallyAmount(s: string): real {
    var cleaned := RemovePair(RemovePair(Upper(Filter(s, KeptByTally)), 'C', 'R'), 'D', 'R');
    match ReadNumber(Trim(cleaned))
    case Some(n) => if n.InPaise() < 0.0 then -n.InPaise() else n.InPaise()
    case None => 0.0
  }

  // ---- Print, then read ----

  predicate Numeric(s: string) {
    forall i :: 0 <= i < |s| ==> KeptByReimport(s[i])
  }

  predicate NumericOrComma(s: string) {
    forall i :: 0 <= i < |s| ==> KeptByReimport(s[i]) || s[i] == ','
  }

  lemma JoinAlphabet(a: string, b: string)
    requires NumericOrComma(a) && NumericOrComma(b)
    ensures NumericOrComma(JoinComma(a, b)) && NumericOrComma(a + b)
  {
  }

  lemma {:induction false} TwosAlphabet(s: string)
    requires AllDigits(s)
    ensures NumericOrComma(InTwos(s))
  {
    if |s| > 2 {
      TwosAlphabet(s[..|s| - 2]);
      JoinAlphabet(InTwos(s[..|s| - 2]), s[|s| - 2..]);
    }
  }

  lemma GroupedAlphabet(s: string)
    requires AllDigits(s)
    ensures NumericOrComma(Grouped(s))
  {
    if |s| > 3 {
      TwosAlphabet(s[..|s| - 3]);
      JoinAlphabet(InTwos(s[..|s| - 3]), s[|s| - 3..]);
    }
  }

  function Sign(paise: int): string { if paise < 0 then "-" else "" }
  function Magnitude(paise: int): nat { if paise < 0 then -paise else paise }

  lemma AmountAlphabet(paise: int)
    ensures NumericOrComma(GroupedAmount(paise))
  {
    var a := Magnitude(paise);
    GroupedAlphabet(Digits(a / 100));
    JoinAlphabet(Grouped(Digits(a / 100)), "." + Pad(a % 100, 2));
    JoinAlphabet(Sign(paise), Grouped(Digits(a / 100)) + ("." + Pad(a % 100, 2)));
  }

  /** Dropping the commas of the printed amount leaves the plain numeral. */
  lemma CommasOut(paise: int)
    ensures DropCommas(GroupedAmount(paise)) == PlainAmount(paise)
  {
    var a := Magnitude(paise);
    var d, tail := Digits(a / 100), "." + Pad(a % 100, 2);
    GroupedShape(d);
    FilterAppend(Grouped(d), tail, NotComma);
    FilterAll(tail, NotComma);
    FilterAppend(Sign(paise), Grouped(d) + tail, NotComma);
    FilterAll(Sign(paise), NotComma);
    PlainParts(paise);
  }

  lemma PlainParts(paise: int)
    ensures PlainAmount(paise) == Sign(paise) +
        (Digits(Magnitude(paise) / 100) + ("." + Pad(Magnitude(paise) % 100, 2)))
  {
    var a := Magnitude(paise);
    assert UnsignedForm(a) == Digits(a / 100) + ("." + Pad(a % 100, 2));
  }

  /**
    Both readers' filters do to a printed amount what dropping the commas does, with or without the
    currency prefix.
   */
  lemma FiltersDropCommas(paise: int)
    ensures Filter(GroupedAmount(paise), KeptByReimport) == PlainAmount(paise)
    ensures Filter(GroupedAmount(paise), KeptByTally) == PlainAmount(paise)
    ensures Filter(RUPEE_SPACE + GroupedAmount(paise), KeptByReimport) == PlainAmount(paise)
    ensures Filter(RUPEE_SPACE + GroupedAmount(paise), KeptByTally) == PlainAmount(paise)
  {
    var s := GroupedAmount(paise);
    CommasOut(paise);
    AmountAlphabet(paise);
    FilterSame(s, KeptByReimport, NotComma);
    FilterSame(s, KeptByTally, NotComma);
    PrefixDisappears(s, KeptByReimport);
    PrefixDisappears(s, KeptByTally);
  }

  lemma PrefixDisappears(s: string, keep: char -> bool)
    requires !keep('\U{20B9}') && !keep(' ')
    ensures Filter(RUPEE_SPACE + s, keep) == Filter(s, keep)
  {
    var t := RUPEE_SPACE + s;
    assert t[0] == '\U{20B9}' && t[1..][0] == ' ' && t[1..][1..] == s;
  }

  lemma ParseAmtOf(s: string, paise: int)
    requires s != [] && Filter(s, KeptByReimport) == PlainAmount(paise)
    ensures ParseAmt(s) == if paise == 0 then None else Some(paise as real)
  {
    PlainAmountReads(paise);
  }

  /**
    The re-import reads every printed amount back, and reads zero as no amount; the dashboard's
    currency prefix does not matter.
   */
  lemma ReimportReadsPrinted(paise: int)
    ensures ParseAmt(GroupedAmount(paise)) == if paise == 0 then None else Some(paise as real)
    ensures ParseAmt(RUPEE_SPACE + GroupedAmount(paise)) == if paise == 0 then None else Some(paise as real)
  {
    FiltersDropCommas(paise);
    ParseAmtOf(GroupedAmount(paise), paise);
    ParseAmtOf(RUPEE_SPACE + GroupedAmount(paise), paise);
  }

  lemma {:induction false} RemovePairClean(s: string, x: char, y: char)
    requires Numeric(s) && !KeptByReimport(x)
    ensures RemovePair(s, x, y) == s
  {
    if s != [] {
      RemovePairClean(s[1..], x, y);
      assert s == [s[0]] + s[1..];
    }
  }

  lemma TrimClean(s: string)
    requires Numeric(s)
    ensures Trim(s) == s
  {
    assert forall c :: KeptByReimport(c) ==> !IsSpace(c);
  }

  lemma PlainIsNumeric(paise: int)
    ensures Numeric(PlainAmount(paise))
  {
  }

  lemma UpperClean(s: string)
    requires Numeric(s)
    ensures Upper(s) == s
  {
  }

  lemma ParseTallyOf(s: string, paise: int)
    requires Filter(s, KeptByTally) == PlainAmount(paise)
    ensures ParseTallyAmount(s) == Magnitude(paise) as real
  {
    var plain := PlainAmount(paise);
    PlainIsNumeric(paise);
    UpperClean(plain);
    RemovePairClean(plain, 'C', 'R');
    RemovePairClean(plain, 'D', 'R');
    TrimClean(plain);
    PlainAmountReads(paise);
  }

  /** The Tally reader takes a printed amount to its absolute value. */
  lemma TallyReadsPrinted(paise: int)
    ensures ParseTallyAmount(RUPEE_SPACE + GroupedAmount(paise)) == Magnitude(paise) as real
    ensures ParseTallyAmount(GroupedAmount(paise)) == Magnitude(paise) as real
  {
    FiltersDropCommas(paise);
    ParseTallyOf(GroupedAmount(paise), paise);
    ParseTallyOf(RUPEE_SPACE + GroupedAmount(paise), paise);
  }

  // ---- Marks ----

  /** The mark itself goes from behind a numeral. */
  lemma {:induction false} MarkGoes(s: string, x: char, y: char)
    requires Numeric(s) && !KeptByReimport(x)
    ensures RemovePair(s + [x, y], x, y) == s
  {
    var t := s + [x, y];
    if s == [] {
      assert t[2..] == [];
    } else {
      MarkGoes(s[1..], x, y);
      assert t[1..] == s[1..] + [x, y] && s == [s[0]] + s[1..];
    }
  }

  /** Another mark stays. */
  lemma {:induction false} OtherMarkStays(s: string, x: char, y: char, u: char, v: char)
    requires Numeric(s) && !KeptByReimport(x) && u != x && v != x
    ensures RemovePair(s + [u, v], x, y) == s + [u, v]
  {
    var t := s + [u, v];
    if s == [] {
      assert t == [u, v] && t[1..] == [v] && [v][1..] == [];
      assert RemovePair([v], x, y) == [v];
      assert [u] + [v] == t;
    } else {
      OtherMarkStays(s[1..], x, y, u, v);
      assert t[1..] == s[1..] + [u, v] && s == [s[0]] + s[1..];
    }
  }

  predicate IsMark(mark: string) {
    |mark| == 2 && mark[0] in {'C', 'c', 'D', 'd'} && mark[1] in {'R', 'r'}
  }

  lemma MarkIsKept(s: string, mark: string)
    requires IsMark(mark)
    ensures Filter(s + (" " + mark), KeptByTally) == Filter(s, KeptByTally) + mark
  {
    var tail := " " + mark;
    FilterAppend(s, tail, KeptByTally);
    assert tail[0] == ' ' && tail[1..] == mark;
    FilterAll(mark, KeptByTally);
  }

  lemma UpperMark(s: string, mark: string)
    requires Numeric(s) && IsMark(mark)
    ensures Upper(s + mark) == s + [if mark[0] in {'C', 'c'} then 'C' else 'D', 'R']
  {
    UpperClean(s);
    var u, t := Upper(s + mark), s + [if mark[0] in {'C', 'c'} then 'C' else 'D', 'R'];
    forall i | 0 <= i < |s| + 2 ensures u[i] == t[i] {
      if i < |s| { assert Upper(s)[i] == s[i]; }
    }
  }

  lemma MarksCleaned(s: string, mark: string)
    requires Numeric(s) && IsMark(mark)
    ensures RemovePair(RemovePair(Upper(s + mark), 'C', 'R'), 'D', 'R') == s
  {
    UpperMark(s, mark);
    if mark[0] in {'C', 'c'} {
      MarkGoes(s, 'C', 'R');
      RemovePairClean(s, 'D', 'R');
    } else {
      OtherMarkStays(s, 'C', 'R', 'D', 'R');
      MarkGoes(s, 'D', 'R');
    }
  }

  /** A credit or debit mark behind a printed amount, in either case, does not matter to the Tally reader. */
  lemma TallyIgnoresMarks(paise: int, mark: string)
    requires IsMark(mark)
    ensures ParseTallyAmount(GroupedAmount(paise) + (" " + mark)) == Magnitude(paise) as real
  {
    var plain := PlainAmount(paise);
    FiltersDropCommas(paise);
    MarkIsKept(GroupedAmount(paise), mark);
    PlainIsNumeric(paise);
    MarksCleaned(plain, mark);
    TrimClean(plain);
    PlainAmountReads(paise);
  }

  /** A text without a digit is no amount to the re-import. */
  lemma NoDigitNoAmount(s: string)
    requires forall i :: 0 <= i < |s| ==> !IsDigit(s[i])
    ensures ParseAmt(s).None?
  {
    FilteredHasNoDigit(s, KeptByReimport);
    NumberNeedsADigit(Filter(s, KeptByReimport));
  }

  lemma {:induction false} FilteredHasNoDigit(s: string, keep: char -> bool)
    requires forall i :: 0 <= i < |s| ==> !IsDigit(s[i])
    ensures forall i :: 0 <= i < |Filter(s, keep)| ==> !IsDigit(Filter(s, keep)[i])
  {
    if s != [] { FilteredHasNoDigit(s[1..], keep); }
  }
}
