/** Cross-import dedupe in the rows' own fields: which rows count as the same, and which are accepted. */
module DedupeLaws {
  import opened Text
  import opened Decimal
  import opened Transactions
  import opened Dedupe

  // ---- Amounts behind the fingerprint ----

  lemma {:induction false} PointAbsent(w: string)
    requires AllDigits(w)
    ensures Find(w, '.') == |w|
  {
    if w != [] { PointAbsent(w[1..]); }
  }

  lemma WholeReads(w: string)
    requires AllDigits(w) && w != []
    ensures ReadUnsigned(w) == Some(Number(false, Value(w), 0))
  {
    PointAbsent(w);
    assert w + [] == w;
  }

  /** The unsigned part of an amount's text. */
  function UnsignedFloat(a: nat): string {
    if a % 100 == 0 then Digits(a / 100)
    else if a % 10 == 0 then Digits(a / 100) + "." + Digits(a % 100 / 10)
    else Digits(a / 100) + "." + Pad(a % 100, 2)
  }

  lemma TensReads(a: nat)
    requires a % 100 != 0 && a % 10 == 0
    ensures ReadUnsigned(UnsignedFloat(a)) == Some(Number(false, a / 10, 1))
    ensures UnsignedFloat(a) != [] && IsDigit(UnsignedFloat(a)[0])
  {
    var w, f := Digits(a / 100), Digits(a % 100 / 10);
    AroundThePoint(w, f);
    ValueAppend(w, f);
    DigitsValue(a / 100);
    DigitsValue(a % 100 / 10);
    assert |f| == 1;
    assert Pow10(1) == 10 by { assert Pow10(1) == 10 * Pow10(0); }
    assert a / 100 * 10 + a % 100 / 10 == a / 10;
  }

  lemma UnsignedFloatReads(a: nat)
    ensures UnsignedFloat(a) != [] && IsDigit(UnsignedFloat(a)[0])
    ensures ReadUnsigned(UnsignedFloat(a)).Some?
    ensures var n := ReadUnsigned(UnsignedFloat(a)).value; !n.negative && n.mantissa * 100 == a * Pow10(n.decimals)
  {
    assert Pow10(0) == 1 && Pow10(1) == 10 * Pow10(0) && Pow10(2) == 10 * Pow10(1);
    if a % 100 == 0 {
      WholeReads(Digits(a / 100));
      DigitsValue(a / 100);
    } else if a % 10 == 0 {
      TensReads(a);
    } else {
      UnsignedAmount(a);
    }
  }

  lemma ExactQuotient(m: nat, p: nat, a: nat)
    requires m * 100 == a * p && p > 0
    ensures m as real * 100.0 / p as real == a as real
  {
    var x, y := p as real, a as real;
    assert m as real * 100.0 == y * x;
  }

  function Fraction(a: nat): string {
    if a % 100 == 0 then "" else if a % 10 == 0 then "." + Digits(a % 100 / 10) else "." + Pad(a % 100, 2)
  }

  lemma UnsignedFloatIs(a: nat)
    ensures UnsignedFloat(a) == Digits(a / 100) + Fraction(a)
  {
    var d := Digits(a / 100);
    assert d + "" == d;
    assert d + "." + Digits(a % 100 / 10) == d + ("." + Digits(a % 100 / 10));
    assert d + "." + Pad(a % 100, 2) == d + ("." + Pad(a % 100, 2));
  }

  lemma SignFirst(sign: string, d: string, f: string)
    ensures sign + d + f == sign + (d + f) && "" + (d + f) == d + f
  {
  }

  lemma FloatTextIs(paise: int)
    ensures FloatText(paise) == if paise < 0 then "-" + UnsignedFloat(-paise) else UnsignedFloat(paise)
  {
    var a: nat := if paise < 0 then -paise else paise;
    UnsignedFloatIs(a);
    SignFirst(if paise < 0 then "-" else "", Digits(a / 100), Fraction(a));
  }

  lemma InPaiseOf(n: Number, a: nat)
    requires !n.negative && n.mantissa * 100 == a * Pow10(n.decimals)
    ensures n.InPaise() == a as real && n.(negative := true).InPaise() == -(a as real)
  {
    ExactQuotient(n.mantissa, Pow10(n.decimals), a);
  }

  /** An amount's text reads back as the amount. */
  lemma FloatTextReads(paise: int)
    ensures ReadNumber(FloatText(paise)).Some? && ReadNumber(FloatText(paise)).value.InPaise() == paise as real
  {
    var a: nat := if paise < 0 then -paise else paise;
    UnsignedFloatReads(a);
    var n := ReadUnsigned(UnsignedFloat(a)).value;
    SignedReads(UnsignedFloat(a), n);
    InPaiseOf(n, a);
    FloatTextIs(paise);
  }

  lemma NullDoesNotRead()
    ensures ReadNumber("null").None?
  {
    var k := Find("null", '.');
    assert "null"[0] == 'n' && !IsDigit('n');
    assert k > 0;
    assert "null"[..k][0] == 'n';
  }

  /** Different amounts, and no amount, have different texts. */
  lemma AmountTextIsInjective(x: Option<int>, y: Option<int>)
    requires AmountText(x) == AmountText(y)
    ensures x == y
  {
    NullDoesNotRead();
    if x.Some? { FloatTextReads(x.value); }
    if y.Some? { FloatTextReads(y.value); }
  }

  lemma UnsignedFloatHasNoBar(a: nat)
    ensures '|' !in UnsignedFloat(a)
  {
  }

  lemma AmountTextHasNoBar(x: Option<int>)
    ensures '|' !in AmountText(x)
  {
    if x.Some? {
      var a: nat := if x.value < 0 then -x.value else x.value;
      FloatTextIs(x.value);
      UnsignedFloatHasNoBar(a);
    }
  }

  // ---- The text behind the fingerprint ----

  lemma BarInTail(u: string, s: string, v: string, t: string)
    requires u + ("|" + s) == v + ("|" + t) && |s| < |t|
    ensures '|' in t
  {
    var w := u + ("|" + s);
    assert w[|u|] == '|';
    assert w[|u|] == (v + ("|" + t))[|u|] == t[|u| - |v| - 1];
  }

  /** The last bar separates. */
  lemma LastBar(u: string, s: string, v: string, t: string)
    requires u + ("|" + s) == v + ("|" + t) && '|' !in s && '|' !in t
    ensures u == v && s == t
  {
    if |s| < |t| { BarInTail(u, s, v, t); }
    if |t| < |s| { BarInTail(v, t, u, s); }
    var w := u + ("|" + s);
    assert |u| == |v|;
    assert w[..|u|] == u && w[..|v|] == v && w[|u| + 1..] == s && w[|v| + 1..] == t;
  }

  /** The first bar separates. */
  lemma FirstBar(u: string, s: string, v: string, t: string)
    requires u + ("|" + s) == v + ("|" + t) && '|' !in u && '|' !in v
    ensures u == v && s == t
  {
    FindIn(u, "|" + s, '|');
    FindIn(v, "|" + t, '|');
    var w := u + ("|" + s);
    assert w[..|u|] == u && w[..|v|] == v && w[|u| + 1..] == s && w[|v| + 1..] == t;
  }

  lemma RowTextParts(date: string, narration: string, debit: Option<int>, credit: Option<int>)
    ensures RowText(date, narration, debit, credit) ==
      date + ("|" + (narration + ("|" + AmountText(debit)) + ("|" + AmountText(credit))))
  {
    Bars(date, narration, AmountText(debit), AmountText(credit));
  }

  lemma Bars(d: string, n: string, a: string, b: string)
    ensures d + "|" + (n + ("|" + a + "|" + b)) == d + ("|" + (n + ("|" + a) + ("|" + b)))
  {
    assert n + ("|" + a + "|" + b) == n + ("|" + a) + ("|" + b);
  }

  /**
    The text a fingerprint is made of tells rows apart: with dates that hold no bar, two rows have
    the same text exactly when date, narration, debit and credit are the same.
   */
  lemma RowTextIsInjective(date1: string, narration1: string, debit1: Option<int>, credit1: Option<int>,
      date2: string, narration2: string, debit2: Option<int>, credit2: Option<int>)
    requires '|' !in date1 && '|' !in date2
    ensures RowText(date1, narration1, debit1, credit1) == RowText(date2, narration2, debit2, credit2) <==>
      date1 == date2 && narration1 == narration2 && debit1 == debit2 && credit1 == credit2
  {
    if RowText(date1, narration1, debit1, credit1) == RowText(date2, narration2, debit2, credit2) {
      RowTextParts(date1, narration1, debit1, credit1);
      RowTextParts(date2, narration2, debit2, credit2);
      var u1, u2 := narration1 + ("|" + AmountText(debit1)), narration2 + ("|" + AmountText(debit2));
      FirstBar(date1, u1 + ("|" + AmountText(credit1)), date2, u2 + ("|" + AmountText(credit2)));
      AmountTextHasNoBar(debit1);
      AmountTextHasNoBar(debit2);
      AmountTextHasNoBar(credit1);
      AmountTextHasNoBar(credit2);
      LastBar(u1, AmountText(credit1), u2, AmountText(credit2));
      LastBar(narration1, AmountText(debit1), narration2, AmountText(debit2));
      AmountTextIsInjective(debit1, debit2);
      AmountTextIsInjective(credit1, credit2);
    }
  }

  lemma MoveBar(x: string, y: string, z: string, tail: string)
    ensures (x + "|" + y) + "|" + (z + tail) == x + "|" + ((y + "|" + z) + tail)
  {
    assert (x + "|" + y) + "|" == x + "|" + (y + "|");
    assert (y + "|" + z) + tail == (y + "|") + (z + tail);
  }

  /** A bar in a date can move into the narration. */
  lemma BarsCanMove(x: string, y: string, z: string, debit: Option<int>, credit: Option<int>)
    ensures RowText(x + "|" + y, z, debit, credit) == RowText(x, y + "|" + z, debit, credit)
  {
    MoveBar(x, y, z, AmountsText(debit, credit));
  }

  // ---- Which rows are accepted ----

  /** Date, narration, debit and credit are the same. */
  predicate SameRow(t: Transaction, u: Transaction) {
    t.date == u.date && t.narration == u.narration && t.debit == u.debit && t.credit == u.credit
  }

  /** No row of `file` shares its fingerprint with a different row of `held`. */
  ghost predicate TellsApart(hash: HashFn, held: seq<Transaction>, file: seq<Transaction>) {
    forall t, u :: t in file && u in held && HashOfFields(hash, t) == HashOfFields(hash, u) ==> SameRow(t, u)
  }

  function HashOfFields(hash: HashFn, t: Transaction): string {
    hash(t.date, t.narration, t.debit, t.credit)
  }

  /** The filter keeps opening balances and every row whose fields hash to something unknown. */
  lemma KeepNewByFields(hash: HashFn, known: set<string>, s: seq<Transaction>, t: Transaction)
    ensures t in KeepNew(hash, known, s) <==>
      t in s && (t.isOpeningBalance || hash(t.date, t.narration, t.debit, t.credit) !in known)
  {
    KeepNewMembers(hash, known, s, t);
  }

  /** It decides row by row, and keeps the order. */
  lemma {:induction false} KeepNewInOrder(hash: HashFn, known: set<string>, a: seq<Transaction>, b: seq<Transaction>)
    ensures KeepNew(hash, known, a + b) == KeepNew(hash, known, a) + KeepNew(hash, known, b)
    decreases |b|
  {
    if b == [] {
      assert a + b == a;
    } else {
      var front, last := b[..|b| - 1], b[|b| - 1];
      KeepNewInOrder(hash, known, a, front);
      assert (a + b)[..|a + b| - 1] == a + front && (a + b)[|a + b| - 1] == last;
    }
  }

  /** A real row of `held` is the same as `t`. */
  ghost predicate Held(held: seq<Transaction>, t: Transaction) {
    exists u :: u in held && !u.isOpeningBalance && SameRow(t, u)
  }

  lemma KnownIffHeld(hash: HashFn, held: seq<Transaction>, file: seq<Transaction>, t: Transaction)
    requires TellsApart(hash, held, file) && t in file
    ensures hash(t.date, t.narration, t.debit, t.credit) in RealHashes(hash, held) <==> Held(held, t)
  {
    if hash(t.date, t.narration, t.debit, t.credit) in RealHashes(hash, held) {
      var u :| u in held && !u.isOpeningBalance && HashRow(hash, u) == hash(t.date, t.narration, t.debit, t.credit);
      assert HashOfFields(hash, t) == HashOfFields(hash, u);
    }
    if u :| u in held && !u.isOpeningBalance && SameRow(t, u) {
      assert HashRow(hash, u) == hash(t.date, t.narration, t.debit, t.credit);
    }
  }

  /** Unless different rows share a fingerprint, a file is refused exactly when every real row of it is held already. */
  lemma RefusedIffAllHeld(hash: HashFn, held: seq<Transaction>, file: seq<Transaction>)
    requires TellsApart(hash, held, file)
    ensures LoadFile(hash, RealHashes(hash, held), file).NothingNew? <==>
      forall t :: t in file && !t.isOpeningBalance ==> Held(held, t)
  {
    LoadedOnce(hash, RealHashes(hash, held), file);
    forall t | t in file ensures HashOfFields(hash, t) in RealHashes(hash, held) <==> Held(held, t) {
      KnownIffHeld(hash, held, file, t);
    }
  }

  /** ... and when it is loaded, exactly its opening balances and the real rows not held are. */
  lemma LoadedAreTheRest(hash: HashFn, held: seq<Transaction>, file: seq<Transaction>, t: Transaction)
    requires TellsApart(hash, held, file) && LoadFile(hash, RealHashes(hash, held), file).Loaded?
    ensures t in LoadFile(hash, RealHashes(hash, held), file).rows <==>
      t in file && (t.isOpeningBalance || !Held(held, t))
  {
    KeepNewByFields(hash, RealHashes(hash, held), file, t);
    if t in file { KnownIffHeld(hash, held, file, t); }
  }

  /** A batch file adds exactly its opening balances and the rows that are neither in the session nor persisted. */
  lemma TakenAreTheRest(hash: HashFn, x: Intake, held: seq<Transaction>, file: seq<Transaction>, t: Transaction)
    requires TellsApart(hash, held + x.rows, file) && x.persisted == RealHashes(hash, held)
    ensures var y := TakeFile(hash, x, file);
      |x.rows| <= |y.rows| && y.rows[..|x.rows|] == x.rows &&
      (t in y.rows[|x.rows|..] <==>
        t in file && (t.isOpeningBalance || !(Held(held, t) || exists u :: u in x.rows && SameRow(t, u))))
  {
    TakeFileMeaning(hash, x, file);
    if t in file { KnownIffHeld(hash, held, file, t); }
    if u :| u in x.rows && SameRow(t, u) {
      assert HashRow(hash, u) == HashRow(hash, t);
    }
    if t in file && HashRow(hash, t) in Hashes(hash, x.rows) {
      var u :| u in x.rows && HashRow(hash, u) == HashRow(hash, t);
      assert HashOfFields(hash, t) == HashOfFields(hash, u);
    }
  }

  ghost function RealPlaces(s: seq<Transaction>): set<nat> {
    set i: nat | i < |s| && !s[i].isOpeningBalance
  }

  /** What is counted as the rows of a file is the number of its real rows. */
  lemma {:induction false} RealRowsCounted(s: seq<Transaction>)
    ensures NonOpening(s) == |RealPlaces(s)|
  {
    if s != [] {
      var n := |s| - 1;
      RealRowsCounted(s[..n]);
      assert RealPlaces(s) == RealPlaces(s[..n]) + (if s[n].isOpeningBalance then {} else {n});
      assert n !in RealPlaces(s[..n]);
    }
  }

  /**
    With the program's own fingerprint, a real row is dropped exactly when its text rolls to the
    same word as a held row's.
   */
  lemma DroppedIffSameWord(held: seq<Transaction>, s: seq<Transaction>, t: Transaction)
    ensures t in KeepNew(Fingerprint, RealHashes(Fingerprint, held), s) <==>
      t in s && (t.isOpeningBalance || !exists u :: u in held && !u.isOpeningBalance && SameWord(t, u))
  {
    KeepNewByFields(Fingerprint, RealHashes(Fingerprint, held), s, t);
    forall u: Transaction ensures SameWord(t, u) <==>
      Fingerprint(t.date, t.narration, t.debit, t.credit) == Fingerprint(u.date, u.narration, u.debit, u.credit)
    {
      SameFingerprintIff(t.date, t.narration, t.debit, t.credit, u.date, u.narration, u.debit, u.credit);
    }
  }

  predicate SameWord(t: Transaction, u: Transaction) {
    Roll(RowText(t.date, t.narration, t.debit, t.credit), 0) == Roll(RowText(u.date, u.narration, u.debit, u.credit), 0)
  }

  lemma RollNext(s: string, c: char, v: nat, t: string)
    requires Roll(s, 0) == v && t == s + [c]
    ensures Roll(t, 0) == (31 * v + c as nat) % WORD
  {
    assert t[..|s|] == s;
    RollLast(t, 0);
  }

  lemma RollOfNothing1()
    ensures Roll("||n", 0) == 123118
  {
    RollNext("", '|', 0, "|");
    RollNext("|", '|', 124, "||");
    RollNext("||", 'n', 3968, "||n");
  }

  lemma RollOfNothing2()
    ensures Roll("||null", 0) == 3667924231
  {
    RollOfNothing1();
    RollNext("||n", 'u', 123118, "||nu");
    RollNext("||nu", 'l', 3816775, "||nul");
    RollNext("||nul", 'l', 118320133, "||null");
  }

  lemma RollOfNothing3()
    ensures Roll("||null|nu", 0) == 2867910876
  {
    RollOfNothing2();
    RollNext("||null", '|', 3667924231, "||null|");
    RollNext("||null|", 'n', 2036501589, "||null|n");
    RollNext("||null|n", 'u', 3002007225, "||null|nu");
  }

  lemma RollOfNothing4()
    ensures Roll("||null|null", 0) == 2988318556
  {
    RollOfNothing3();
    RollNext("||null|nu", 'l', 2867910876, "||null|nul");
    RollNext("||null|nul", 'l', 3005891344, "||null|null");
  }

  const HEX_DIGITS: string := "0123456789abcdef"

  lemma HexDigits(d: nat)
    requires d < 16
    ensures HexChar(d) == HEX_DIGITS[d]
  {
  }

  function SixteenTo(k: nat): nat {
    if k == 0 then 1 else 16 * SixteenTo(k - 1)
  }

  lemma {:induction false} HexShape(n: nat, k: nat)
    requires k > 0 && n < SixteenTo(k)
    ensures 1 <= |Hex(n)| <= k && forall i :: 0 <= i < |Hex(n)| ==> Hex(n)[i] in HEX_DIGITS
  {
    HexDigits(n % 16);
    if n >= 16 { HexShape(n / 16, k - 1); }
  }

  /** A fingerprint is one to eight hexadecimal digits. */
  lemma FingerprintIsHex(date: string, narration: string, debit: Option<int>, credit: Option<int>)
    ensures var f := Fingerprint(date, narration, debit, credit);
      1 <= |f| <= 8 && forall i :: 0 <= i < |f| ==> f[i] in HEX_DIGITS
  {
    assert SixteenTo(8) == 0x1_0000_0000 by {
      assert SixteenTo(4) == 65536;
      assert SixteenTo(6) == 16777216;
    }
    RollInWord(RowText(date, narration, debit, credit), 0);
    HexShape(Roll(RowText(date, narration, debit, credit), 0), 8);
  }

  lemma HexNext(n: nat, h: string)
    requires n >= 16 && Hex(n / 16) == h
    ensures Hex(n) == h + [HexChar(n % 16)]
  {
  }

  /** A value the program's own tests name. */
  lemma KnownFingerprint()
    ensures Fingerprint("", "", None, None) == "b21e1f5c"
  {
    RollOfNothing4();
    assert RowText("", "", None, None) == "||null|null";
    assert Hex(11) == "b";
    HexNext(178, "b");
    HexNext(2849, "b2");
    HexNext(45598, "b21");
    HexNext(729569, "b21e");
    HexNext(11673119, "b21e1");
    HexNext(186769909, "b21e1f");
    HexNext(2988318556, "b21e1f5");
  }
}
