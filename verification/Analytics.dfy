/**
  Dashboard aggregation: totals, expense heads and months, and the drill-down from a month's
  bar to the rows behind it.
 */
module Analytics {
  import opened Text
  import opened Transactions
  import opened Dates

  // ---- Sums over rows ----

  /** A key for the rows that have one, and an amount. */
  datatype Measure = Measure(key: Transaction -> Option<string>, amount: Transaction -> int)

  predicate Real(t: Transaction) { !t.isOpeningBalance }

  function Credit(t: Transaction): int { GetOr(t.credit, 0) }
  function Debit(t: Transaction): int { GetOr(t.debit, 0) }

  /** Sum over the real rows. */
  function SumReal(s: seq<Transaction>, amount: Transaction -> int): int {
    if s == [] then 0
    else SumReal(s[..|s| - 1], amount) + (if Real(s[|s| - 1]) then amount(s[|s| - 1]) else 0)
  }

  function ForKey(m: Measure, k: string): Transaction -> int {
    t => if m.key(t) == Some(k) then m.amount(t) else 0
  }

  function ForKeys(m: Measure, ks: seq<string>): Transaction -> int {
    t => if m.key(t).Some? && m.key(t).value in ks then m.amount(t) else 0
  }

  function ForNone(m: Measure): Transaction -> int {
    t => if m.key(t).None? then m.amount(t) else 0
  }

  function SumKey(s: seq<Transaction>, m: Measure, k: string): int {
    SumReal(s, ForKey(m, k))
  }

  /** Sum over the real rows that have no key. */
  function SumUnkeyed(s: seq<Transaction>, m: Measure): int {
    SumReal(s, ForNone(m))
  }

  function SumKeys(s: seq<Transaction>, m: Measure, ks: seq<string>): int {
    if ks == [] then 0 else SumKeys(s, m, ks[..|ks| - 1]) + SumKey(s, m, ks[|ks| - 1])
  }

  ghost predicate Distinct(ks: seq<string>) {
    forall i, j :: 0 <= i < j < |ks| ==> ks[i] != ks[j]
  }

  /** Rows with one of the given keys, each counted once. */
  function SumIn(s: seq<Transaction>, m: Measure, ks: seq<string>): int {
    SumReal(s, ForKeys(m, ks))
  }

  lemma {:induction false} SumAdds(s: seq<Transaction>, a: Transaction -> int, b: Transaction -> int,
      c: Transaction -> int)
    requires forall t :: t in s && Real(t) ==> c(t) == a(t) + b(t)
    ensures SumReal(s, c) == SumReal(s, a) + SumReal(s, b)
  {
    if s != [] {
      SumAdds(s[..|s| - 1], a, b, c);
      assert s[|s| - 1] in s;
    }
  }

  lemma {:induction false} SumSame(s: seq<Transaction>, a: Transaction -> int, b: Transaction -> int)
    requires forall t :: t in s && Real(t) ==> a(t) == b(t)
    ensures SumReal(s, a) == SumReal(s, b)
  {
    if s != [] {
      SumSame(s[..|s| - 1], a, b);
      assert s[|s| - 1] in s;
    }
  }

  lemma {:induction false} SumKeysIsSumIn(s: seq<Transaction>, m: Measure, ks: seq<string>)
    requires Distinct(ks)
    ensures SumKeys(s, m, ks) == SumIn(s, m, ks)
  {
    if ks == [] {
      SumNothing(s, ForKeys(m, ks));
    } else {
      var front, last := ks[..|ks| - 1], ks[|ks| - 1];
      SumKeysIsSumIn(s, m, front);
      assert ks == front + [last];
      assert last !in front;
      SumAdds(s, ForKeys(m, front), ForKey(m, last), ForKeys(m, ks));
    }
  }

  lemma {:induction false} SumNothing(s: seq<Transaction>, a: Transaction -> int)
    requires forall t :: t in s && Real(t) ==> a(t) == 0
    ensures SumReal(s, a) == 0
  {
    if s != [] {
      SumNothing(s[..|s| - 1], a);
      assert s[|s| - 1] in s;
    }
  }

  /** A list of keys without repetition that has the key of every real row that has one. */
  ghost predicate Enumerates(ks: seq<string>, s: seq<Transaction>, m: Measure) {
    Distinct(ks) && forall t :: t in s && Real(t) && m.key(t).Some? ==> m.key(t).value in ks
  }

  /** Conservation: over any enumeration of the keys, the bucket sums plus the rows without a key make the total. */
  lemma BucketsConserve(s: seq<Transaction>, m: Measure, ks: seq<string>)
    requires Enumerates(ks, s, m)
    ensures SumKeys(s, m, ks) + SumUnkeyed(s, m) == SumReal(s, m.amount)
  {
    SumKeysIsSumIn(s, m, ks);
    SumAdds(s, ForKeys(m, ks), ForNone(m), m.amount);
  }

  // ---- Expense heads ----

  /** The keyword classifier of ledgers to groups, arbitrary here: head, narration, credit or not, amount. */
  type Grouping = (string, string, bool, int) -> string

  /** A known party without a ledger is a sundry debtor or creditor; everything else goes to the classifier. */
  function ExpenseHeadLabel(group: Grouping, t: Transaction): string {
    if Trim(t.accountHead) == [] && Trim(t.vendor) != [] then
      (if t.txnType == Receipt then "Sundry Debtors" else "Sundry Creditors")
    else group(t.accountHead, t.narration, t.credit.Some?, Credit(t) + Debit(t))
  }

  function ExpenseMeasure(group: Grouping): Measure {
    Measure((t: Transaction) => if t.debit.Some? then Some(ExpenseHeadLabel(group, t)) else None, Debit)
  }

  function MonthOf(t: Transaction): Option<string> {
    match ParseDmy(t.date)
    case Some(d) => Some(MonthKey(d))
    case None => None
  }

  function MonthCredits(): Measure { Measure(MonthOf, Credit) }
  function MonthDebits(): Measure { Measure(MonthOf, Debit) }

  // ---- The aggregation loops ----

  datatype Totals = Totals(credit: int, debit: int, closing: Option<int>)

  function LastBalance(s: seq<Transaction>): Option<int> {
    if s == [] then None
    else if Real(s[|s| - 1]) && s[|s| - 1].balance.Some? then s[|s| - 1].balance
    else LastBalance(s[..|s| - 1])
  }

  method ComputeTotals(s: seq<Transaction>) returns (r: Totals)
    ensures r == Totals(SumReal(s, Credit), SumReal(s, Debit), LastBalance(s))
  {
    var c, d := 0, 0;
    var last: Option<int> := None;
    for i := 0 to |s|
      invariant c == SumReal(s[..i], Credit) && d == SumReal(s[..i], Debit) && last == LastBalance(s[..i])
    {
      assert s[..i + 1][..i] == s[..i];
      var t := s[i];
      if Real(t) {
        c := c + GetOr(t.credit, 0);
        d := d + GetOr(t.debit, 0);
        if t.balance.Some? { last := t.balance; }
      }
    }
    assert s[..|s|] == s;
    r := Totals(c, d, last);
  }

  /** `table` holds, for exactly the keys that occur, the bucket sums of `m`. */
  ghost predicate Tabulates(table: map<string, int>, s: seq<Transaction>, m: Measure) {
    && (forall k :: k in table ==> table[k] == SumKey(s, m, k))
    && (forall k :: k in table <==> exists t :: t in s && Real(t) && m.key(t) == Some(k))
  }

  lemma {:induction false} NoRowNoSum(s: seq<Transaction>, m: Measure, k: string)
    requires !exists t :: t in s && Real(t) && m.key(t) == Some(k)
    ensures SumKey(s, m, k) == 0
  {
    if s != [] {
      assert s[|s| - 1] in s;
      NoRowNoSum(s[..|s| - 1], m, k);
    }
  }

  /** Adding one row to a table. */
  lemma TableStep(table: map<string, int>, s: seq<Transaction>, m: Measure, t: Transaction)
    requires Tabulates(table, s, m)
    ensures Real(t) && m.key(t).Some? ==>
      var k := m.key(t).value;
      Tabulates(table[k := (if k in table then table[k] else 0) + m.amount(t)], s + [t], m)
    ensures !(Real(t) && m.key(t).Some?) ==> Tabulates(table, s + [t], m)
  {
    assert (s + [t])[..|s|] == s;
    assert forall u :: u in s + [t] <==> u in s || u == t;
    if Real(t) && m.key(t).Some? {
      var k := m.key(t).value;
      if k !in table { NoRowNoSum(s, m, k); }
    }
  }

  /** The accumulating loop behind each chart. */
  method Tabulate(s: seq<Transaction>, m: Measure) returns (table: map<string, int>)
    ensures Tabulates(table, s, m)
  {
    table := map[];
    for i := 0 to |s|
      invariant Tabulates(table, s[..i], m)
    {
      var t := s[i];
      TableStep(table, s[..i], m, t);
      assert s[..i + 1] == s[..i] + [t];
      if Real(t) {
        var key := m.key(t);
        if key.Some? {
          var k := key.value;
          table := table[k := (if k in table then table[k] else 0) + m.amount(t)];
        }
      }
    }
    assert s[..|s|] == s;
  }

  datatype Dashboard = Dashboard(
    totals: Totals, expenses: map<string, int>, monthCredits: map<string, int>, monthDebits: map<string, int>)

  method Compute(s: seq<Transaction>, group: Grouping) returns (d: Dashboard)
    ensures d.totals == Totals(SumReal(s, Credit), SumReal(s, Debit), LastBalance(s))
    ensures Tabulates(d.expenses, s, ExpenseMeasure(group))
    ensures Tabulates(d.monthCredits, s, MonthCredits()) && Tabulates(d.monthDebits, s, MonthDebits())
  {
    var totals := ComputeTotals(s);
    var expenses := Tabulate(s, ExpenseMeasure(group));
    var credits := Tabulate(s, MonthCredits());
    var debits := Tabulate(s, MonthDebits());
    d := Dashboard(totals, expenses, credits, debits);
  }

  // ---- Conservation on the dashboard ----

  function SumTable(table: map<string, int>, ks: seq<string>): int
    requires forall k :: k in ks ==> k in table
  {
    if ks == [] then 0 else SumTable(table, ks[..|ks| - 1]) + table[ks[|ks| - 1]]
  }

  /** Any listing of a table's entries, in whatever order the charts sort them. */
  ghost predicate Lists(ks: seq<string>, table: map<string, int>) {
    Distinct(ks) && forall k :: k in ks <==> k in table
  }

  lemma {:induction false} TableSum(table: map<string, int>, s: seq<Transaction>, m: Measure, ks: seq<string>)
    requires Tabulates(table, s, m) && forall k :: k in ks ==> k in table
    ensures SumTable(table, ks) == SumKeys(s, m, ks)
  {
    if ks != [] { TableSum(table, s, m, ks[..|ks| - 1]); }
  }

  /** However a table is listed, its entries and the rows without a key add up to the total. */
  lemma TableConserves(table: map<string, int>, s: seq<Transaction>, m: Measure, ks: seq<string>)
    requires Tabulates(table, s, m) && Lists(ks, table)
    ensures SumTable(table, ks) + SumUnkeyed(s, m) == SumReal(s, m.amount)
  {
    TableSum(table, s, m, ks);
    forall t | t in s && Real(t) && m.key(t).Some? ensures m.key(t).value in ks {
      assert m.key(t).value in table;
    }
    BucketsConserve(s, m, ks);
  }

  /** The expense heads together hold the whole debit total: no debit row is dropped. */
  lemma ExpensesAreAllDebits(table: map<string, int>, s: seq<Transaction>, group: Grouping, ks: seq<string>)
    requires Tabulates(table, s, ExpenseMeasure(group)) && Lists(ks, table)
    ensures SumTable(table, ks) == SumReal(s, Debit)
  {
    var m := ExpenseMeasure(group);
    TableConserves(table, s, m, ks);
    assert forall t :: t in s && Real(t) ==> ForNone(m)(t) == 0;
    SumNothing(s, ForNone(m));
  }

  /**
    Month sums differ from the totals by exactly the rows whose date does not parse; with every real
    date readable they are the totals.
   */
  lemma MonthsAreTheTotals(credits: map<string, int>, debits: map<string, int>, s: seq<Transaction>, ks: seq<string>)
    requires Tabulates(credits, s, MonthCredits()) && Tabulates(debits, s, MonthDebits())
    requires Lists(ks, credits) && Lists(ks, debits)
    ensures SumTable(credits, ks) == SumReal(s, Credit) - SumUnkeyed(s, MonthCredits())
    ensures SumTable(debits, ks) == SumReal(s, Debit) - SumUnkeyed(s, MonthDebits())
    ensures (forall t :: t in s && Real(t) ==> ParseDmy(t.date).Some?) ==>
      SumTable(credits, ks) == SumReal(s, Credit) && SumTable(debits, ks) == SumReal(s, Debit)
  {
    TableConserves(credits, s, MonthCredits(), ks);
    TableConserves(debits, s, MonthDebits(), ks);
    if forall t :: t in s && Real(t) ==> ParseDmy(t.date).Some? {
      DatedRowsAreKeyed(s, MonthCredits());
      DatedRowsAreKeyed(s, MonthDebits());
    }
  }

  lemma DatedRowsAreKeyed(s: seq<Transaction>, m: Measure)
    requires forall t :: t in s && Real(t) ==> m.key(t).Some?
    ensures SumUnkeyed(s, m) == 0
  {
    SumNothing(s, ForNone(m));
  }

  // ---- Drill-down ----

  /** The dashboard's row filter with only a date range set; a row whose date does not parse is kept. */
  predicate RangePasses(t: Transaction, from: string, to: string) {
    Real(t) &&
    ((from == [] && to == []) ||
     match ParseDmy(t.date)
     case None => true
     case Some(d) =>
       && !(from != [] && ParseDmy(from).Some? && Before(d, ParseDmy(from).value))
       && !(to != [] && ParseDmy(to).Some? && Before(ParseDmy(to).value, d)))
  }

  /**
    The day fits the length the program gives its month (30 days for month numbers above 12, as
    in `DaysInMonth`), in a year that a month key can name.
   */
  predicate DayFitsMonth(d: Dmy) {
    d.year >= 0 && 1 <= d.day <= DaysInMonth(d.month, d.year)
  }

  lemma RangeOfMonth(d0: Dmy, t: Transaction)
    requires Fits(d0) && d0.year >= 0 && Real(t)
    ensures MonthKeyToRange(MonthKey(d0)).Some?
    ensures var (from, to) := MonthKeyToRange(MonthKey(d0)).value;
      RangePasses(t, from, to) <==>
        ParseDmy(t.date).None? || (MonthOf(t) == Some(MonthKey(d0)) && DayFitsMonth(ParseDmy(t.date).value))
  {
    KeyNamesItsMonth(d0);
    var first, last := Dmy(1, d0.month, d0.year), Dmy(DaysInMonth(d0.month, d0.year), d0.month, d0.year);
    DayTextReads(first);
    DayTextReads(last);
    RangeOfDays(t, DayText(first), DayText(last), first, last);
    if ParseDmy(t.date).Some? {
      KeyIsInjective(ParseDmy(t.date).value, d0);
    }
  }

  lemma RangeOfDays(t: Transaction, from: string, to: string, first: Dmy, last: Dmy)
    requires Real(t) && ParseDmy(from) == Some(first) && ParseDmy(to) == Some(last)
    ensures RangePasses(t, from, to) <==>
      ParseDmy(t.date).None? || !(Before(ParseDmy(t.date).value, first) || Before(last, ParseDmy(t.date).value))
  {
    assert ParseDmy("").None? by { assert Split("", '/') == [""]; }
  }

  ghost predicate IsBucket(s: seq<Transaction>, k: string) {
    exists t :: t in s && Real(t) && MonthOf(t) == Some(k)
  }

  /** The range behind a bar: its month, or no range at all when the key names none. */
  function BarRange(k: string): (string, string) {
    match MonthKeyToRange(k)
    case Some(range) => range
    case None => ("", "")
  }

  /** Clicking the bar `k` selects exactly the rows it adds up. */
  ghost predicate BarExact(s: seq<Transaction>, k: string) {
    forall t :: t in s && Real(t) ==> (InRange(BarRange(k).0, BarRange(k).1)(t) <==> MonthOf(t) == Some(k))
  }

  /** Every bar's drill-down is exact. */
  ghost predicate DrillExact(s: seq<Transaction>) {
    forall k :: IsBucket(s, k) ==> BarExact(s, k)
  }

  ghost predicate AllDaysFit(s: seq<Transaction>) {
    forall t :: t in s && Real(t) ==> ParseDmy(t.date).Some? && DayFitsMonth(ParseDmy(t.date).value)
  }

  /** All real rows are in one and the same month, whose key names no range. */
  ghost predicate OneUnnamedMonth(s: seq<Transaction>, k: string) {
    MonthKeyToRange(k).None? && forall t :: t in s && Real(t) ==> MonthOf(t) == Some(k)
  }

  /**
    Every drill-down is exact if and only if there is no bar, every real row has a date whose day
    fits its month, or the only bar is a month of a negative year.
   */
  lemma DrillExactIff(s: seq<Transaction>)
    ensures DrillExact(s) <==> (forall k :: !IsBucket(s, k)) || AllDaysFit(s) || exists k :: OneUnnamedMonth(s, k)
  {
    if AllDaysFit(s) {
      forall k | IsBucket(s, k) ensures BarExact(s, k) {
        DrillOne(s, k);
      }
    }
    forall j, k | OneUnnamedMonth(s, j) && IsBucket(s, k) ensures BarExact(s, k) {
      assert k == j;
    }
    if DrillExact(s) && exists k :: IsBucket(s, k) {
      var k :| IsBucket(s, k);
      if t :| t in s && Real(t) && ParseDmy(t.date).Some? && ParseDmy(t.date).value.year < 0 {
        NegativeBarIsAlone(s, t);
      } else {
        forall t | t in s && Real(t) ensures ParseDmy(t.date).Some? && DayFitsMonth(ParseDmy(t.date).value) {
          RowDayFits(s, k, t);
        }
      }
    }
  }

  lemma NegativeBarIsAlone(s: seq<Transaction>, t: Transaction)
    requires DrillExact(s) && t in s && Real(t) && ParseDmy(t.date).Some? && ParseDmy(t.date).value.year < 0
    ensures OneUnnamedMonth(s, MonthKey(ParseDmy(t.date).value))
  {
    var k := MonthKey(ParseDmy(t.date).value);
    NegativeYearHasNoRange(ParseDmy(t.date).value);
    assert IsBucket(s, k) && BarExact(s, k);
    forall u | u in s && Real(u) ensures MonthOf(u) == Some(k) {
      assert InRange("", "")(u);
    }
  }

  lemma DrillOne(s: seq<Transaction>, k: string)
    requires AllDaysFit(s) && IsBucket(s, k)
    ensures MonthKeyToRange(k).Some?
    ensures forall t :: t in s && Real(t) ==>
      (RangePasses(t, MonthKeyToRange(k).value.0, MonthKeyToRange(k).value.1) <==> MonthOf(t) == Some(k))
  {
    var u :| u in s && Real(u) && MonthOf(u) == Some(k);
    var d0 := ParseDmy(u.date).value;
    ParsedFits(u.date);
    forall t | t in s && Real(t)
      ensures MonthKeyToRange(k).Some?
      ensures RangePasses(t, MonthKeyToRange(k).value.0, MonthKeyToRange(k).value.1) <==> MonthOf(t) == Some(k)
    {
      RangeOfMonth(d0, t);
    }
  }

  lemma UndatedRowPasses(t: Transaction, from: string, to: string)
    requires Real(t) && ParseDmy(t.date).None?
    ensures RangePasses(t, from, to) && MonthOf(t).None?
  {
  }

  lemma RowDayFits(s: seq<Transaction>, k: string, t: Transaction)
    requires DrillExact(s) && IsBucket(s, k) && t in s && Real(t)
    requires ParseDmy(t.date).Some? ==> ParseDmy(t.date).value.year >= 0
    ensures ParseDmy(t.date).Some? && DayFitsMonth(ParseDmy(t.date).value)
  {
    assert BarExact(s, k);
    if ParseDmy(t.date).None? {
      UndatedRowPasses(t, BarRange(k).0, BarRange(k).1);
      assert false;
    }
    var d := ParseDmy(t.date).value;
    assert IsBucket(s, MonthKey(d)) && BarExact(s, MonthKey(d));
    ParsedFits(t.date);
    RangeOfMonth(d, t);
  }

  /** One dated and one undated row: the bar of the dated row opens both. */
  lemma UndatedRowSpoilsDrill(d: Dmy, dated: Transaction, undated: Transaction)
    requires Fits(d) && DayFitsMonth(d) && dated.date == DayText(d) && undated.date == ""
    requires Real(dated) && Real(undated)
    ensures var s, k := [dated, undated], MonthKey(d);
      && IsBucket(s, k) && MonthOf(undated).None?
      && Filtered(s, InRange(BarRange(k).0, BarRange(k).1)) == s
      && !DrillExact(s)
  {
    var s, k := [dated, undated], MonthKey(d);
    DayTextReads(d);
    assert MonthOf(dated) == Some(k);
    assert dated in s && undated in s;
    assert IsBucket(s, k);
    assert ParseDmy("").None? by { assert Split("", '/') == [""]; }
    RangeOfMonth(d, dated);
    UndatedRowPasses(undated, BarRange(k).0, BarRange(k).1);
    var pass := InRange(BarRange(k).0, BarRange(k).1);
    assert pass(dated) && pass(undated);
    FilteredPair(dated, undated, pass);
  }

  lemma FilteredPair(a: Transaction, b: Transaction, pass: Transaction -> bool)
    requires pass(a) && pass(b)
    ensures Filtered([a, b], pass) == [a, b]
  {
    assert [a, b][..1] == [a] && [a][..0] == [];
    assert Filtered([a], pass) == [a];
  }

  /** The rows that pass, in order. */
  function Filtered(s: seq<Transaction>, pass: Transaction -> bool): seq<Transaction> {
    if s == [] then []
    else Filtered(s[..|s| - 1], pass) + (if pass(s[|s| - 1]) then [s[|s| - 1]] else [])
  }

  function OnlyIf(pass: Transaction -> bool, amount: Transaction -> int): Transaction -> int {
    t => if pass(t) then amount(t) else 0
  }

  function InRange(from: string, to: string): Transaction -> bool {
    t => RangePasses(t, from, to)
  }

  lemma {:induction false} FilteredSum(s: seq<Transaction>, pass: Transaction -> bool, amount: Transaction -> int)
    ensures SumReal(Filtered(s, pass), amount) == SumReal(s, OnlyIf(pass, amount))
  {
    if s != [] {
      var front, last := s[..|s| - 1], s[|s| - 1];
      FilteredSum(front, pass, amount);
      var f := Filtered(front, pass);
      assert (f + [last])[..|f|] == f;
      assert f + [] == f;
    }
  }

  /** On rows with calendar dates, the rows behind a bar add up to the bar, for credits and debits alike. */
  lemma DrillDownMatchesBar(s: seq<Transaction>, k: string, m: Measure)
    requires AllDaysFit(s) && IsBucket(s, k) && m.key == MonthCredits().key
    ensures MonthKeyToRange(k).Some?
    ensures var (from, to) := MonthKeyToRange(k).value;
      SumReal(Filtered(s, InRange(from, to)), m.amount) == SumKey(s, m, k)
  {
    DrillOne(s, k);
    var (from, to) := MonthKeyToRange(k).value;
    FilteredSum(s, InRange(from, to), m.amount);
    assert forall t :: m.key(t) == MonthOf(t);
    SumSame(s, OnlyIf(InRange(from, to), m.amount), ForKey(m, k));
  }

  // ---- Balance and parties ----

  /** The closing balance is that of the last real row that carries one. */
  lemma {:induction false} LastBalanceMeaning(s: seq<Transaction>)
    ensures LastBalance(s).None? <==> forall i :: 0 <= i < |s| && Real(s[i]) ==> s[i].balance.None?
    ensures LastBalance(s).Some? ==>
      exists i :: 0 <= i < |s| && Real(s[i]) && s[i].balance == LastBalance(s)
        && forall j :: i < j < |s| && Real(s[j]) ==> s[j].balance.None?
  {
    if s != [] {
      var n := |s| - 1;
      LastBalanceMeaning(s[..n]);
      if !(Real(s[n]) && s[n].balance.Some?) && LastBalance(s).Some? {
        var i :| 0 <= i < n && Real(s[..n][i]) && s[..n][i].balance == LastBalance(s)
          && forall j :: i < j < n && Real(s[..n][j]) ==> s[..n][j].balance.None?;
        assert forall j :: i < j < n ==> s[..n][j] == s[j];
        assert s[i].balance == LastBalance(s);
      }
    }
  }

  /** A debit to a known party without a ledger is spent under creditors, or under debtors when it is a receipt. */
  lemma PartyHeads(table: map<string, int>, s: seq<Transaction>, group: Grouping, t: Transaction)
    requires Tabulates(table, s, ExpenseMeasure(group)) && t in s && Real(t) && t.debit.Some?
    requires Trim(t.accountHead) == "" && Trim(t.vendor) != ""
    ensures t.txnType == Receipt ==> "Sundry Debtors" in table
    ensures t.txnType != Receipt ==> "Sundry Creditors" in table
  {
    assert ExpenseMeasure(group).key(t) == Some(if t.txnType == Receipt then "Sundry Debtors" else "Sundry Creditors");
  }

  /** Every other debit is spent under the group its head, narration, side and amount are given. */
  lemma OtherHeads(table: map<string, int>, s: seq<Transaction>, group: Grouping, t: Transaction, d: int)
    requires Tabulates(table, s, ExpenseMeasure(group)) && t in s && Real(t) && t.debit == Some(d) && t.credit.None?
    requires Trim(t.accountHead) != "" || Trim(t.vendor) == ""
    ensures group(t.accountHead, t.narration, false, d) in table
  {
    assert ExpenseMeasure(group).key(t) == Some(group(t.accountHead, t.narration, false, d));
  }

  // ---- Opening balances ----

  /** Every sum counts one more row in full, and an opening balance not at all. */
  lemma SumsSkipOpenings(s: seq<Transaction>, t: Transaction, amount: Transaction -> int)
    ensures SumReal([], amount) == 0
    ensures SumReal(s + [t], amount) == SumReal(s, amount) + if t.isOpeningBalance then 0 else amount(t)
  {
    assert (s + [t])[..|s|] == s;
  }

  /** ... and the closing balance skips them too. */
  lemma BalanceSkipsOpenings(s: seq<Transaction>, t: Transaction)
    ensures LastBalance(s + [t]) == if !t.isOpeningBalance && t.balance.Some? then t.balance else LastBalance(s)
  {
    assert (s + [t])[..|s|] == s;
  }

  /** An opening balance gets no month and no expense head of its own. */
  lemma OpeningsMakeNoBar(table: map<string, int>, s: seq<Transaction>, m: Measure)
    requires Tabulates(table, s, m) && forall t :: t in s ==> t.isOpeningBalance
    ensures table == map[]
  {
    assert forall k :: k !in table;
  }

  /**
    A drill-down opens no opening balance, and of the other rows those of its days, the chosen ends
    included, and the undated ones.
   */
  lemma DrillRows(t: Transaction, first: Option<Dmy>, last: Option<Dmy>)
    requires (first.Some? ==> Fits(first.value)) && (last.Some? ==> Fits(last.value))
    ensures RangePasses(t, ChoiceText(first), ChoiceText(last)) <==>
      !t.isOpeningBalance && WithinDays(t.date, first, last)
  {
    if first.Some? { DayTextReads(first.value); }
    if last.Some? { DayTextReads(last.value); }
  }
}
