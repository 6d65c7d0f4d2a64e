/**
  The visible row list and the translation of a visible row number back to a position in the
  full list. The two are written separately in the program; this module says exactly when
  they agree.
 */
module RowIndex {
  import opened Text
  import opened Transactions
  import opened Dates

  /** The active filters; blank text means no filter. `matches` is the status predicate, arbitrary here. */
  datatype Filters = Filters(
    statuses: seq<string>, from: string, to: string, bank: string, vendor: string, head: string,
    matches: (Transaction, string) -> bool)

  predicate StatusPasses(f: Filters, t: Transaction) {
    f.statuses == [] || exists k :: 0 <= k < |f.statuses| && f.matches(t, f.statuses[k])
  }

  predicate DateActive(f: Filters) {
    f.from != [] || f.to != []
  }

  predicate InRange(f: Filters, d: Dmy) {
    && !(f.from != [] && ParseDmy(f.from).Some? && Before(d, ParseDmy(f.from).value))
    && !(f.to != [] && ParseDmy(f.to).Some? && Before(ParseDmy(f.to).value, d))
  }

  /** A row whose date does not parse is always kept by the date filter. */
  predicate DatePasses(f: Filters, t: Transaction) {
    !DateActive(f) || ParseDmy(t.date).None? || InRange(f, ParseDmy(t.date).value)
  }

  // ---- The visible list ----

  predicate Shown(f: Filters, t: Transaction) {
    && !t.isOpeningBalance
    && StatusPasses(f, t)
    && DatePasses(f, t)
    && (f.bank == [] || f.bank == "All Banks" || t.bankName == f.bank)
    && (f.vendor == [] || t.vendor == f.vendor)
    && (f.head == [] || t.accountHead == f.head)
  }

  // ---- The translation ----

  /**
    The rows the translation counts: an undatable row is counted before the bank is looked at, and
    vendor and head are not looked at.
   */
  predicate Counted(f: Filters, t: Transaction) {
    && !t.isOpeningBalance
    && StatusPasses(f, t)
    && DatePasses(f, t)
    && ((DateActive(f) && ParseDmy(t.date).None?) || f.bank == [] || t.bankName == f.bank)
  }

  /** The positions, in order, of the rows of `s` that pass. */
  function Positions(s: seq<Transaction>, passes: Transaction -> bool): seq<nat> {
    if s == [] then []
    else Positions(s[..|s| - 1], passes) + (if passes(s[|s| - 1]) then [|s| - 1] else [])
  }

  lemma {:induction false} PositionsMeaning(s: seq<Transaction>, passes: Transaction -> bool)
    ensures forall k :: 0 <= k < |Positions(s, passes)| ==> Positions(s, passes)[k] < |s|
    ensures forall i, j :: 0 <= i < j < |Positions(s, passes)| ==> Positions(s, passes)[i] < Positions(s, passes)[j]
    ensures forall x: nat :: x in Positions(s, passes) <==> x < |s| && passes(s[x])
  {
    if s != [] {
      PositionsMeaning(s[..|s| - 1], passes);
    }
  }

  function Nth(xs: seq<nat>, k: nat): Option<nat> {
    if k < |xs| then Some(xs[k]) else None
  }

  /** The position of the `k`-th visible row. */
  function ShownAt(f: Filters, s: seq<Transaction>, k: nat): Option<nat> {
    Nth(Positions(s, t => Shown(f, t)), k)
  }

  function CountedAt(f: Filters, s: seq<Transaction>, k: nat): Option<nat> {
    Nth(Positions(s, t => Counted(f, t)), k)
  }

  /** Whether one row is counted, tested in the order the loop does. */
  method CountsRow(f: Filters, t: Transaction) returns (counted: bool)
    ensures counted == Counted(f, t)
  {
    if t.isOpeningBalance || !StatusPasses(f, t) { return false; }
    if f.from != [] || f.to != [] {
      var td := ParseDmy(t.date);
      if td.None? { return true; }
      if f.from != [] {
        var fd := ParseDmy(f.from);
        if fd.Some? && Before(td.value, fd.value) { return false; }
      }
      if f.to != [] {
        var tod := ParseDmy(f.to);
        if tod.Some? && Before(tod.value, td.value) { return false; }
      }
    }
    counted := f.bank == [] || t.bankName == f.bank;
  }

  /** The counting loop. */
  method VisibleToAbs(f: Filters, s: seq<Transaction>, visIdx: nat) returns (r: Option<nat>)
    ensures r == CountedAt(f, s, visIdx)
  {
    var passes := (t: Transaction) => Counted(f, t);
    ghost var all := Positions(s, passes);
    var vis: nat := 0;
    for abs := 0 to |s|
      invariant vis == |Positions(s[..abs], passes)| <= visIdx
    {
      assert s[..abs + 1][..abs] == s[..abs];
      var counted := CountsRow(f, s[abs]);
      if counted {
        if vis == visIdx {
          PositionsPrefix(s, passes, abs + 1);
          assert Positions(s[..abs + 1], passes) == Positions(s[..abs], passes) + [abs];
          return Some(abs);
        }
        vis := vis + 1;
      }
    }
    assert s[..|s|] == s;
    r := None;
  }

  lemma {:induction false} PositionsPrefix(s: seq<Transaction>, passes: Transaction -> bool, n: nat)
    requires n <= |s|
    ensures Positions(s[..n], passes) <= Positions(s, passes)
    decreases |s|
  {
    if n < |s| {
      PositionsPrefix(s[..|s| - 1], passes, n);
      assert s[..|s| - 1][..n] == s[..n];
    } else {
      assert s[..n] == s;
    }
  }

  // ---- When they agree ----

  ghost predicate Agree(f: Filters, s: seq<Transaction>) {
    forall k: nat :: CountedAt(f, s, k) == ShownAt(f, s, k)
  }

  predicate VendorAndHeadPass(f: Filters, t: Transaction) {
    (f.vendor == [] || t.vendor == f.vendor) && (f.head == [] || t.accountHead == f.head)
  }

  predicate BankShown(f: Filters, t: Transaction) {
    f.bank == [] || f.bank == "All Banks" || t.bankName == f.bank
  }

  /**
    The three ways a row that passes status and date is treated differently: an undatable row
    under a date filter that bank, vendor or head would hide; a row of the right bank that
    vendor or head would hide; and a row shown under "All Banks" but not counted there.
   */
  predicate Divergent(f: Filters, t: Transaction) {
    && !t.isOpeningBalance && StatusPasses(f, t) && DatePasses(f, t)
    && if DateActive(f) && ParseDmy(t.date).None? then !(BankShown(f, t) && VendorAndHeadPass(f, t))
       else if f.bank == [] || t.bankName == f.bank then !VendorAndHeadPass(f, t)
       else f.bank == "All Banks" && VendorAndHeadPass(f, t)
  }

  lemma DivergentMeaning(f: Filters, t: Transaction)
    ensures Divergent(f, t) <==> Counted(f, t) != Shown(f, t)
  {
  }

  lemma {:induction false} SamePositions(s: seq<Transaction>, p: Transaction -> bool, q: Transaction -> bool)
    ensures Positions(s, p) == Positions(s, q) <==> forall i :: 0 <= i < |s| ==> p(s[i]) == q(s[i])
  {
    PositionsMeaning(s, p);
    PositionsMeaning(s, q);
    if Positions(s, p) == Positions(s, q) {
      forall i: nat | i < |s| ensures p(s[i]) == q(s[i]) {
        assert i in Positions(s, p) <==> i in Positions(s, q);
      }
    }
    if forall i :: 0 <= i < |s| ==> p(s[i]) == q(s[i]) {
      PositionsAgree(s, p, q);
    }
  }

  lemma {:induction false} PositionsAgree(s: seq<Transaction>, p: Transaction -> bool, q: Transaction -> bool)
    requires forall i :: 0 <= i < |s| ==> p(s[i]) == q(s[i])
    ensures Positions(s, p) == Positions(s, q)
  {
    if s != [] { PositionsAgree(s[..|s| - 1], p, q); }
  }

  lemma NthDetermines(xs: seq<nat>, ys: seq<nat>)
    requires forall k: nat :: Nth(xs, k) == Nth(ys, k)
    ensures xs == ys
  {
    assert Nth(xs, |xs|) == Nth(ys, |xs|) && Nth(xs, |ys|) == Nth(ys, |ys|);
    assert |xs| == |ys|;
    forall k: nat | k < |xs| ensures xs[k] == ys[k] {
      assert Nth(xs, k) == Nth(ys, k);
    }
  }

  /**
    On a given list the translation agrees with the visible rows, at every row number and past the
    end, exactly when no row is divergent.
   */
  lemma AgreeIffNoDivergentRow(f: Filters, s: seq<Transaction>)
    ensures Agree(f, s) <==> forall i :: 0 <= i < |s| ==> !Divergent(f, s[i])
  {
    var p, q := (t: Transaction) => Counted(f, t), (t: Transaction) => Shown(f, t);
    SamePositions(s, p, q);
    forall i | 0 <= i < |s| ensures Divergent(f, s[i]) <==> p(s[i]) != q(s[i]) {
      DivergentMeaning(f, s[i]);
    }
    if Agree(f, s) {
      forall k: nat ensures Nth(Positions(s, p), k) == Nth(Positions(s, q), k) {
        assert CountedAt(f, s, k) == ShownAt(f, s, k);
      }
      NthDetermines(Positions(s, p), Positions(s, q));
    }
  }

  /**
    Filters under which the two agree on every list: no vendor or head filter, the bank not "All
    Banks", and not date and bank at once.
   */
  predicate SafeFilters(f: Filters) {
    f.vendor == [] && f.head == [] && f.bank != "All Banks" && (f.bank == [] || !DateActive(f))
  }

  lemma SafeFiltersAgree(f: Filters, s: seq<Transaction>)
    requires SafeFilters(f)
        || (f.vendor == [] && f.head == [] && f.bank != "All Banks" && forall i :: 0 <= i < |s| ==>
        ParseDmy(s[i].date).Some?)
    ensures Agree(f, s)
  {
    AgreeIffNoDivergentRow(f, s);
  }

  /** A row with the given bank and no date, which every date filter keeps. */
  function Undated(bank: string): Transaction {
    NewTransaction("x").(bankName := bank)
  }

  lemma BlankDateDoesNotParse()
    ensures ParseDmy("").None?
  {
    assert Split("", '/') == [""];
  }

  /**
    With no status chip selected, and the bank filter as the bank selector stores it (never
    "All Banks"), the filters above are exactly those that agree on every list: any other
    setting goes wrong on a list of one row.
   */
  lemma AgreeOnEveryListIffSafe(f: Filters)
    requires f.statuses == [] && f.bank != "All Banks"
    ensures (forall s :: Agree(f, s)) <==> SafeFilters(f)
  {
    BlankDateDoesNotParse();
    if SafeFilters(f) {
      forall s ensures Agree(f, s) { SafeFiltersAgree(f, s); }
    } else {
      var t := if f.vendor != [] || f.head != [] then Undated(f.bank) else Undated(f.bank + "x");
      assert t.bankName == f.bank || |t.bankName| == |f.bank| + 1;
      assert Divergent(f, t);
      AgreeIffNoDivergentRow(f, [t]);
      assert [t][0] == t;
      assert !Agree(f, [t]);
    }
  }

  /** What the bank selector stores for a choice. */
  function SelectBank(choice: string): string {
    if choice == "All Banks" then "" else choice
  }

  /**
    In the user's terms: without status chips, a setting agrees on every list exactly when vendor
    and head are off and no single bank is combined with a date.
   */
  lemma SelectionsAgreeIff(f: Filters, choice: string)
    requires f.statuses == [] && f.bank == SelectBank(choice)
    ensures (forall s :: Agree(f, s)) <==>
      f.vendor == [] && f.head == [] && (choice == "All Banks" || choice == "" || !DateActive(f))
  {
    AgreeOnEveryListIffSafe(f);
  }

  // ---- What the filters show ----

  /** Each choice narrows the list on its own: exactly the rows of that bank, vendor or head remain. */
  lemma ChoicesNarrow(f: Filters, t: Transaction, choice: string)
    requires choice != ""
    ensures Shown(f.(vendor := choice), t) <==> Shown(f.(vendor := ""), t) && t.vendor == choice
    ensures Shown(f.(head := choice), t) <==> Shown(f.(head := ""), t) && t.accountHead == choice
    ensures Shown(f.(bank := SelectBank(choice)), t) <==>
      Shown(f.(bank := ""), t) && (choice == "All Banks" || t.bankName == choice)
    ensures Shown(f, t) ==> !t.isOpeningBalance
  {
  }

  /** A range keeps the rows of its days, the chosen ends included, and every row whose date does not read. */
  lemma RangeKeepsItsDays(f: Filters, t: Transaction, first: Option<Dmy>, last: Option<Dmy>)
    requires (first.Some? ==> Fits(first.value)) && (last.Some? ==> Fits(last.value))
    ensures Shown(f.(from := ChoiceText(first), to := ChoiceText(last)), t) <==>
      Shown(f.(from := "", to := ""), t) && WithinDays(t.date, first, last)
  {
    if first.Some? { DayTextReads(first.value); }
    if last.Some? { DayTextReads(last.value); }
  }

  /** Without chips every status is shown; each further chip adds exactly the rows of its status. */
  lemma ChipsAdd(f: Filters, t: Transaction, chips: seq<string>, chip: string)
    ensures Shown(f.(statuses := [chip]), t) <==> Shown(f.(statuses := []), t) && f.matches(t, chip)
    ensures chips != [] ==>
      (Shown(f.(statuses := chips + [chip]), t) <==>
        Shown(f.(statuses := chips), t) || (Shown(f.(statuses := []), t) && f.matches(t, chip)))
  {
    var one, more := f.(statuses := [chip]), f.(statuses := chips + [chip]);
    assert one.statuses[0] == chip && more.statuses[|chips|] == chip;
    assert forall k :: 0 <= k < |chips| ==> more.statuses[k] == chips[k];
    if chips != [] { ChipMatches(f, t, chips, chip); }
  }

  lemma ChipMatches(f: Filters, t: Transaction, chips: seq<string>, chip: string)
    requires chips != []
    ensures StatusPasses(f.(statuses := chips + [chip]), t) <==>
      StatusPasses(f.(statuses := chips), t) || f.matches(t, chip)
  {
    var more := chips + [chip];
    assert more[|chips|] == chip;
    if k :| 0 <= k < |chips| && f.matches(t, chips[k]) { assert more[k] == chips[k]; }
    if k :| 0 <= k < |more| && f.matches(t, more[k]) { assert k < |chips| ==> more[k] == chips[k]; }
  }
}
