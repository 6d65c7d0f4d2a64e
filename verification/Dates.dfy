/** Day/month/year texts, month keys and month ranges, as the filters and the dashboard read and print them. */
module Dates {
  import opened Text
  import opened Decimal

  datatype Dmy = Dmy(day: nat, month: nat, year: int)

  function Split(s: string, c: char): (parts: seq<string>)
    ensures parts != []
    decreases |s|
  {
    var k := Find(s, c);
    if k == |s| then [s] else [s[..k]] + Split(s[k + 1..], c)
  }

  const U32_MAX: nat := 0xFFFF_FFFF
  const I32_MAX: nat := 0x7FFF_FFFF

  /** An unsigned 32-bit numeral, with an optional plus sign. */
  function ParseU32(s: string): Option<nat> {
    var d := if s != [] && s[0] == '+' then s[1..] else s;
    if d != [] && AllDigits(d) && Value(d) <= U32_MAX then Some(Value(d)) else None
  }

  /** A signed 32-bit numeral. */
  function ParseI32(s: string): Option<int> {
    if s != [] && s[0] == '-' then
      var d := s[1..];
      if d != [] && AllDigits(d) && Value(d) <= I32_MAX + 1 then Some(-(Value(d) as int)) else None
    else
      var d := if s != [] && s[0] == '+' then s[1..] else s;
      if d != [] && AllDigits(d) && Value(d) <= I32_MAX then Some(Value(d)) else None
  }

  function ParseDmy(s: string): Option<Dmy> {
    var parts := Split(s, '/');
    if |parts| != 3 then None
    else
      match (ParseU32(parts[0]), ParseU32(parts[1]), ParseI32(parts[2]))
      case (Some(d), Some(m), Some(y)) => Some(Dmy(d, m, y))
      case _ => None
  }

  /** The order the filters use: year, then month, then day. */
  predicate Before(a: Dmy, b: Dmy) {
    a.year < b.year || (a.year == b.year && (a.month < b.month || (a.month == b.month && a.day < b.day)))
  }

  predicate IsLeap(y: int) {
    y % 4 == 0 && (y % 100 != 0 || y % 400 == 0)
  }

  /** Month lengths; 30 stands in for month numbers that do not exist. */
  function DaysInMonth(m: nat, y: int): (d: nat)
    ensures 28 <= d <= 31
  {
    if m == 1 || m == 3 || m == 5 || m == 7 || m == 8 || m == 10 || m == 12 then 31
    else if m == 4 || m == 6 || m == 9 || m == 11 then 30
    else if m == 2 then (if IsLeap(y) then 29 else 28)
    else 30
  }

  // ---- Month keys ----

  /** A year in at least four characters; a minus sign counts as one of them. */
  function YearText(y: int): string {
    if y >= 0 then Pad(y, 4) else "-" + Pad(-y, 3)
  }

  function JoinTwo(a: string, b: string, c: char): string {
    a + ([c] + b)
  }

  function MonthKey(d: Dmy): string {
    JoinTwo(YearText(d.year), Pad(d.month, 2), '-')
  }

  function DayText(d: Dmy): string {
    JoinTwo(Pad(d.day, 2), JoinTwo(Pad(d.month, 2), YearText(d.year), '/'), '/')
  }

  /** The first and last day of the month a key names, as texts. */
  function MonthKeyToRange(key: string): Option<(string, string)> {
    var parts := Split(key, '-');
    if |parts| != 2 then None
    else
      match (ParseI32(parts[0]), ParseU32(parts[1]))
      case (Some(y), Some(m)) => Some((DayText(Dmy(1, m, y)), DayText(Dmy(DaysInMonth(m, y), m, y))))
      case _ => None
  }

  // ---- Printing, then parsing ----

  lemma NoSuchChar(s: string, c: char)
    requires AllDigits(s) && !IsDigit(c)
    ensures c !in s
  {
  }

  lemma {:induction false} FindAbsent(s: string, c: char)
    requires c !in s
    ensures Find(s, c) == |s|
  {
    if s != [] {
      assert s[0] in s;
      FindAbsent(s[1..], c);
    }
  }

  lemma SplitOne(s: string, c: char)
    requires c !in s
    ensures Split(s, c) == [s]
  {
    FindAbsent(s, c);
  }

  lemma SplitFirst(s: string, rest: string, c: char)
    requires c !in s
    ensures Split(JoinTwo(s, rest, c), c) == [s] + Split(rest, c)
  {
    var t := JoinTwo(s, rest, c);
    FindIn(s, [c] + rest, c);
    assert t[..|s|] == s && t[|s| + 1..] == rest;
  }

  lemma SplitTwo(a: string, b: string, c: char)
    requires c !in a && c !in b
    ensures Split(JoinTwo(a, b, c), c) == [a, b]
  {
    SplitFirst(a, b, c);
    SplitOne(b, c);
  }

  lemma SplitThree(x: string, a: string, b: string, c: char)
    requires c !in x && c !in a && c !in b
    ensures Split(JoinTwo(x, JoinTwo(a, b, c), c), c) == [x, a, b]
  {
    SplitFirst(x, JoinTwo(a, b, c), c);
    SplitTwo(a, b, c);
  }

  lemma PadReads(n: nat, w: nat)
    ensures n <= U32_MAX ==> ParseU32(Pad(n, w)) == Some(n)
    ensures n <= I32_MAX ==> ParseI32(Pad(n, w)) == Some(n)
  {
    PadValue(n, w);
    assert Pad(n, w)[0] != '+' && Pad(n, w)[0] != '-';
  }

  /** A date that could have been parsed: its parts fit their integer types. */
  predicate Fits(d: Dmy) {
    d.day <= U32_MAX && d.month <= U32_MAX && -(I32_MAX as int) - 1 <= d.year <= I32_MAX as int
  }

  lemma ParsedFits(s: string)
    ensures ParseDmy(s).Some? ==> Fits(ParseDmy(s).value)
  {
  }

  lemma YearReads(y: int)
    requires -(I32_MAX as int) - 1 <= y <= I32_MAX as int
    ensures ParseI32(YearText(y)) == Some(y) && '/' !in YearText(y)
  {
    if y >= 0 {
      PadReads(y, 4);
      NoSuchChar(Pad(y, 4), '/');
    } else {
      PadValue(-y, 3);
      NoSuchChar(Pad(-y, 3), '/');
      assert ("-" + Pad(-y, 3))[1..] == Pad(-y, 3);
    }
  }

  /** A printed date parses back to itself, whatever the sign of its year. */
  lemma DayTextReads(d: Dmy)
    requires Fits(d)
    ensures ParseDmy(DayText(d)) == Some(d)
  {
    var a, b := Pad(d.day, 2), Pad(d.month, 2);
    NoSuchChar(a, '/');
    NoSuchChar(b, '/');
    YearReads(d.year);
    SplitThree(a, b, YearText(d.year), '/');
    PadReads(d.day, 2);
    PadReads(d.month, 2);
  }

  /** The key of a date in a non-negative year names exactly the range of its own month. */
  lemma KeyNamesItsMonth(d: Dmy)
    requires Fits(d) && d.year >= 0
    ensures MonthKeyToRange(MonthKey(d)) ==
      Some((DayText(Dmy(1, d.month, d.year)), DayText(Dmy(DaysInMonth(d.month, d.year), d.month, d.year))))
  {
    var y, m := Pad(d.year, 4), Pad(d.month, 2);
    NoSuchChar(y, '-');
    NoSuchChar(m, '-');
    SplitTwo(y, m, '-');
    PadReads(d.month, 2);
    PadReads(d.year, 4);
  }

  lemma NegativeKeyParts(year: nat, month: nat)
    ensures Split(JoinTwo("-" + Pad(year, 3), Pad(month, 2), '-'), '-') == [[], Pad(year, 3), Pad(month, 2)]
  {
    var y, m := Pad(year, 3), Pad(month, 2);
    NoSuchChar(y, '-');
    NoSuchChar(m, '-');
    MinusFirst(y, m);
    SplitThree([], y, m, '-');
  }

  lemma ThreePartsNameNoRange(key: string, a: string, b: string, c: string)
    requires Split(key, '-') == [a, b, c]
    ensures MonthKeyToRange(key).None?
  {
  }

  /** A key of a negative year names no range. */
  lemma NegativeYearHasNoRange(d: Dmy)
    requires d.year < 0
    ensures MonthKeyToRange(MonthKey(d)).None?
  {
    NegativeKeyParts(-d.year, d.month);
    ThreePartsNameNoRange(MonthKey(d), [], Pad(-d.year, 3), Pad(d.month, 2));
  }

  lemma MinusFirst(y: string, m: string)
    ensures JoinTwo("-" + y, m, '-') == JoinTwo([], JoinTwo(y, m, '-'), '-')
  {
    assert "-" == ['-'];
  }

  lemma PadIsInjective(m: nat, n: nat, w: nat)
    requires Pad(m, w) == Pad(n, w)
    ensures m == n
  {
    PadValue(m, w);
    PadValue(n, w);
  }

  lemma PositiveKeyParts(year: nat, month: nat)
    ensures Split(JoinTwo(Pad(year, 4), Pad(month, 2), '-'), '-') == [Pad(year, 4), Pad(month, 2)]
  {
    NoSuchChar(Pad(year, 4), '-');
    NoSuchChar(Pad(month, 2), '-');
    SplitTwo(Pad(year, 4), Pad(month, 2), '-');
  }

  lemma SamePair(a: string, b: string, c: string, d: string)
    requires [a, b] == [c, d]
    ensures a == c && b == d
  {
    assert [a, b][0] == [c, d][0] && [a, b][1] == [c, d][1];
  }

  lemma PositiveKeysDiffer(y1: nat, m1: nat, y2: nat, m2: nat)
    requires JoinTwo(Pad(y1, 4), Pad(m1, 2), '-') == JoinTwo(Pad(y2, 4), Pad(m2, 2), '-')
    ensures y1 == y2 && m1 == m2
  {
    PositiveKeyParts(y1, m1);
    PositiveKeyParts(y2, m2);
    SamePair(Pad(y1, 4), Pad(m1, 2), Pad(y2, 4), Pad(m2, 2));
    PadIsInjective(y1, y2, 4);
    PadIsInjective(m1, m2, 2);
  }

  lemma NegativeKeysDiffer(y1: nat, m1: nat, y2: nat, m2: nat)
    requires JoinTwo("-" + Pad(y1, 3), Pad(m1, 2), '-') == JoinTwo("-" + Pad(y2, 3), Pad(m2, 2), '-')
    ensures y1 == y2 && m1 == m2
  {
    NegativeKeyParts(y1, m1);
    NegativeKeyParts(y2, m2);
    assert [[], Pad(y1, 3), Pad(m1, 2)][1..] == [Pad(y1, 3), Pad(m1, 2)];
    assert [[], Pad(y2, 3), Pad(m2, 2)][1..] == [Pad(y2, 3), Pad(m2, 2)];
    SamePair(Pad(y1, 3), Pad(m1, 2), Pad(y2, 3), Pad(m2, 2));
    PadIsInjective(y1, y2, 3);
    PadIsInjective(m1, m2, 2);
  }

  /** Two dates share a key exactly when they share year and month, whatever the sign of the year. */
  lemma KeyIsInjective(a: Dmy, b: Dmy)
    ensures MonthKey(a) == MonthKey(b) <==> a.year == b.year && a.month == b.month
  {
    if MonthKey(a) == MonthKey(b) {
      KeyStart(a);
      KeyStart(b);
      if a.year >= 0 {
        PositiveKeysDiffer(a.year, a.month, b.year, b.month);
      } else {
        NegativeKeysDiffer(-a.year, a.month, -b.year, b.month);
      }
    }
  }

  lemma KeyStart(d: Dmy)
    ensures MonthKey(d)[0] == '-' <==> d.year < 0
  {
    if d.year >= 0 {
      assert MonthKey(d)[0] == Pad(d.year, 4)[0];
    }
  }

  // ---- Lengths of months ----

  /** February has 29 days in leap years, 31-day months are the odd ones up to July and the even ones after. */
  lemma MonthLengths(m: nat, y: int)
    ensures DaysInMonth(m, y) ==
      if m == 0 || m > 12 then 30
      else if m == 2 then (if y % 400 == 0 || (y % 4 == 0 && y % 100 != 0) then 29 else 28)
      else if (m <= 7) == (m % 2 == 1) then 31
      else 30
  {
  }

  // ---- Chosen days ----

  /** The text of a chosen day, blank when none is chosen. */
  function ChoiceText(day: Option<Dmy>): string {
    if day.Some? then DayText(day.value) else ""
  }

  /** The date is not before `first` nor after `last`, where these are chosen, or it does not read. */
  predicate WithinDays(date: string, first: Option<Dmy>, last: Option<Dmy>) {
    match ParseDmy(date)
    case None => true
    case Some(d) => (first.Some? ==> !Before(d, first.value)) && (last.Some? ==> !Before(last.value, d))
  }
}
