/**
  Row fingerprints and cross-import dedupe: how a batch file's rows are accepted against what
  is already persisted, already loaded, or came from an earlier file.
 */
module Dedupe {
  import opened Text
  import opened Decimal
  import opened Transactions

  // ---- The fingerprint ----

  /** An amount as the program prints a floating-point number: no trailing zeros. */
  function FloatText(paise: int): string {
    var a: nat := if paise < 0 then -paise else paise;
    (if paise < 0 then "-" else "") + Digits(a / 100)
    + (if a % 100 == 0 then "" else if a % 10 == 0 then "." + Digits(a % 100 / 10) else "." + Pad(a % 100, 2))
  }

  function AmountText(x: Option<int>): string {
    if x.None? then "null" else FloatText(x.value)
  }

  const WORD: nat := 0x1_0000_0000

  /** The 31-polynomial rolling hash in 32-bit wrapping arithmetic, started at `h`. */
  function Roll(s: string, h: nat): nat {
    if s == [] then h else Roll(s[1..], (31 * h + s[0] as nat) % WORD)
  }

  function HexChar(d: nat): char
    requires d < 16
  {
    if d < 10 then '0' + d as char else 'a' + (d - 10) as char
  }

  function Hex(n: nat): string {
    if n < 16 then [HexChar(n)] else Hex(n / 16) + [HexChar(n % 16)]
  }

  function AmountsText(debit: Option<int>, credit: Option<int>): string {
    "|" + AmountText(debit) + "|" + AmountText(credit)
  }

  function RowText(date: string, narration: string, debit: Option<int>, credit: Option<int>): string {
    date + "|" + (narration + AmountsText(debit, credit))
  }

  function Fingerprint(date: string, narration: string, debit: Option<int>, credit: Option<int>): string {
    Hex(Roll(RowText(date, narration, debit, credit), 0))
  }

  lemma {:induction false} RollAppend(s: string, t: string, h: nat)
    ensures Roll(s + t, h) == Roll(t, Roll(s, h))
    decreases |s|
  {
    if s == [] {
      assert s + t == t;
    } else {
      RollAppend(s[1..], t, (31 * h + s[0] as nat) % WORD);
      assert (s + t)[1..] == s[1..] + t;
    }
  }

  /** Two characters of the rolling hash, folded into one step. */
  lemma RollPair(a: char, b: char, h: nat)
    ensures Roll([a, b], h) == (961 * h + 31 * (a as nat) + b as nat) % WORD
  {
    var u := 31 * h + a as nat;
    assert [a, b][1..] == [b] && [b][1..] == [];
    assert Roll([a, b], h) == Roll([b], u % WORD) == (31 * (u % WORD) + b as nat) % WORD;
    DropInnerMod(u, b as nat);
  }

  lemma DropInnerMod(u: nat, b: nat)
    ensures (31 * (u % WORD) + b) % WORD == (31 * u + b) % WORD
  {
    var k := u / WORD;
    assert 31 * u + b == 31 * (u % WORD) + b + (31 * k) * WORD;
  }

  lemma Regroup(date: string, x: string, m: string, y: string, tail: string)
    ensures date + "|" + ((x + m + y) + tail) == (date + "|" + x) + (m + (y + tail))
  {
  }

  // ---- Exactly when fingerprints collide ----

  lemma HexCharIsInjective(a: nat, b: nat)
    requires a < 16 && b < 16 && HexChar(a) == HexChar(b)
    ensures a == b
  {
  }

  lemma {:induction false} HexIsInjective(a: nat, b: nat)
    ensures Hex(a) == Hex(b) <==> a == b
  {
    if Hex(a) == Hex(b) {
      HexSplit(a);
      HexSplit(b);
      HexCharIsInjective(a % 16, b % 16);
      if a >= 16 && b >= 16 { HexIsInjective(a / 16, b / 16); }
    }
  }

  lemma HexSplit(n: nat)
    ensures var s := Hex(n);
      s != [] && s[|s| - 1] == HexChar(n % 16) && s[..|s| - 1] == if n < 16 then [] else Hex(n / 16)
    ensures n >= 16 ==> Hex(n / 16) != []
  {
  }

  lemma {:induction false} RollInWord(s: string, h: nat)
    requires h < WORD
    ensures Roll(s, h) < WORD
  {
    if s != [] { RollInWord(s[1..], (31 * h + s[0] as nat) % WORD); }
  }

  /** 31 has an inverse modulo the word size, so a step of the roll forgets nothing. */
  lemma StepForgetsNothing(h: nat, g: nat, c: nat)
    requires h < WORD && g < WORD
    ensures (31 * h + c) % WORD == (31 * g + c) % WORD <==> h == g
  {
    var k := (31 * h + c) / WORD - (31 * g + c) / WORD;
    if (31 * h + c) % WORD == (31 * g + c) % WORD {
      assert 31 * (h - g) == k * WORD;
      assert 3186588639 * 31 == 23 * WORD + 1;
      assert h - g == WORD * (3186588639 * k - 23 * (h - g));
    }
  }

  /** A common tail neither makes nor hides a difference. */
  lemma {:induction false} TailForgetsNothing(t: string, h: nat, g: nat)
    requires h < WORD && g < WORD
    ensures Roll(t, h) == Roll(t, g) <==> h == g
  {
    if t != [] {
      StepForgetsNothing(h, g, t[0] as nat);
      TailForgetsNothing(t[1..], (31 * h + t[0] as nat) % WORD, (31 * g + t[0] as nat) % WORD);
    }
  }

  lemma RollOne(c: char, h: nat)
    ensures Roll([c], h) == (31 * h + c as nat) % WORD
  {
    assert [c][1..] == [];
  }

  lemma RollLast(s: string, h: nat)
    requires s != []
    ensures Roll(s, h) == (31 * Roll(s[..|s| - 1], h) + s[|s| - 1] as nat) % WORD
  {
    var front, last := s[..|s| - 1], s[|s| - 1];
    assert s == front + [last];
    RollAppend(front, [last], h);
    RollOne(last, Roll(front, h));
  }

  lemma StepOnDifference(a: int, b: int, c: int, d: int, x: int)
    requires (a - b) % WORD == (c - d) % WORD
    ensures ((31 * a + x) - (31 * b)) % WORD == ((31 * c + x) - (31 * d)) % WORD
  {
    var k := (a - b) / WORD - (c - d) / WORD;
    assert (a - b) - (c - d) == k * WORD;
    SameRemainder((31 * a + x) - 31 * b, (31 * c + x) - 31 * d, 31 * k);
  }

  lemma SameRemainder(u: int, v: int, k: int)
    requires u == v + k * WORD
    ensures u % WORD == v % WORD
  {
  }

  lemma DifferenceOfRemainders(u: int, v: int)
    ensures (u % WORD - v % WORD) % WORD == (u - v) % WORD
  {
    SameRemainder(u % WORD - v % WORD, u - v, v / WORD - u / WORD);
  }

  /** For texts of one length, the difference of the rolls does not depend on where they start. */
  lemma {:induction false} RollDifference(m: string, n: string, h: nat)
    requires |m| == |n|
    ensures (Roll(m, h) - Roll(n, h)) % WORD == (Roll(m, 0) - Roll(n, 0)) % WORD
    decreases |m|
  {
    if m != [] {
      var p, q := m[..|m| - 1], n[..|n| - 1];
      var a: int, b: int := m[|m| - 1] as nat, n[|n| - 1] as nat;
      RollLast(m, h);
      RollLast(n, h);
      RollLast(m, 0);
      RollLast(n, 0);
      RollDifference(p, q, h);
      StepOnDifference(Roll(p, h), Roll(q, h), Roll(p, 0), Roll(q, 0), a - b);
      DifferenceOfRemainders(31 * Roll(p, h) + a, 31 * Roll(q, h) + b);
      DifferenceOfRemainders(31 * Roll(p, 0) + a, 31 * Roll(q, 0) + b);
    }
  }

  lemma EqualIffNoDifference(u: nat, v: nat)
    requires u < WORD && v < WORD
    ensures u == v <==> (u - v) % WORD == 0
  {
  }

  /** Two rows share a fingerprint exactly when their texts roll to the same word: printing it loses nothing. */
  lemma SameFingerprintIff(date1: string, narration1: string, debit1: Option<int>, credit1: Option<int>,
                           date2: string, narration2: string, debit2: Option<int>, credit2: Option<int>)
    ensures Fingerprint(date1, narration1, debit1, credit1) == Fingerprint(date2, narration2, debit2, credit2) <==>
      Roll(RowText(date1, narration1, debit1, credit1), 0) == Roll(RowText(date2, narration2, debit2, credit2), 0)
  {
    HexIsInjective(Roll(RowText(date1, narration1, debit1, credit1), 0),
        Roll(RowText(date2, narration2, debit2, credit2), 0));
  }

  /**
    With date and amounts equal, only the parts where the narrations differ decide: they collide
    exactly when they roll to the same word from what precedes them, and for parts of one length
    exactly when they do from zero.
   */
  lemma NarrationsCollideIff(date: string, x: string, m: string, n: string, y: string, debit: Option<int>,
      credit: Option<int>)
    ensures var h := Roll(date + "|" + x, 0);
      Fingerprint(date, x + m + y, debit, credit) == Fingerprint(date, x + n + y, debit, credit) <==>
          Roll(m, h) == Roll(n, h)
    ensures |m| == |n| ==>
      (Fingerprint(date, x + m + y, debit, credit) == Fingerprint(date, x + n + y, debit, credit) <==>
          Roll(m, 0) == Roll(n, 0))
  {
    var tail := y + AmountsText(debit, credit);
    SameFingerprintIff(date, x + m + y, debit, credit, date, x + n + y, debit, credit);
    Regroup(date, x, m, y, AmountsText(debit, credit));
    Regroup(date, x, n, y, AmountsText(debit, credit));
    MiddleDecides(date + "|" + x, m, n, tail);
  }

  lemma MiddleDecides(front: string, m: string, n: string, tail: string)
    ensures Roll(front + (m + tail), 0) == Roll(front + (n + tail), 0) <==>
        Roll(m, Roll(front, 0)) == Roll(n, Roll(front, 0))
    ensures |m| == |n| ==> (Roll(front + (m + tail), 0) == Roll(front + (n + tail), 0) <==> Roll(m, 0) == Roll(n, 0))
  {
    var h := Roll(front, 0);
    RollMiddle(front, m, tail);
    RollMiddle(front, n, tail);
    RollInWord(front, 0);
    RollInWord(m, h);
    RollInWord(n, h);
    TailForgetsNothing(tail, Roll(m, h), Roll(n, h));
    if |m| == |n| { StartDoesNotMatter(m, n, h); }
  }

  lemma StartDoesNotMatter(m: string, n: string, h: nat)
    requires |m| == |n| && h < WORD
    ensures Roll(m, h) == Roll(n, h) <==> Roll(m, 0) == Roll(n, 0)
  {
    RollInWord(m, h);
    RollInWord(n, h);
    RollInWord(m, 0);
    RollInWord(n, 0);
    EqualIffNoDifference(Roll(m, h), Roll(n, h));
    EqualIffNoDifference(Roll(m, 0), Roll(n, 0));
    RollDifference(m, n, h);
  }

  lemma RollMiddle(front: string, m: string, tail: string)
    ensures Roll(front + (m + tail), 0) == Roll(tail, Roll(m, Roll(front, 0)))
  {
    RollAppend(front, m + tail, 0);
    RollAppend(m, tail, Roll(front, 0));
  }

  /** One changed character always shows. */
  lemma OneCharacterShows(date: string, x: string, a: char, b: char, y: string, debit: Option<int>, credit: Option<int>)
    ensures Fingerprint(date, x + [a] + y, debit, credit) == Fingerprint(date, x + [b] + y, debit, credit) <==> a == b
  {
    NarrationsCollideIff(date, x, [a], [b], y, debit, credit);
    RollOne(a, 0);
    RollOne(b, 0);
    InWord(a as nat);
    InWord(b as nat);
  }

  /** Two changed neighbours collide exactly when the second one makes up for 31 times the first: "Aa" and "BB". */
  lemma TwoCharactersCollideIff(date: string, x: string, a: char, b: char, c: char, d: char, y: string,
      debit: Option<int>, credit: Option<int>)
    ensures Fingerprint(date, x + [a, b] + y, debit, credit) == Fingerprint(date, x + [c, d] + y, debit, credit) <==>
      31 * (a as int - c as int) == d as int - b as int
  {
    PairsRollAlikeIff(a, b, c, d);
    NarrationsCollideIff(date, x, [a, b], [c, d], y, debit, credit);
  }

  lemma PairsRollAlikeIff(a: char, b: char, c: char, d: char)
    ensures Roll([a, b], 0) == Roll([c, d], 0) <==> 31 * (a as int - c as int) == d as int - b as int
  {
    RollPair(a, b, 0);
    RollPair(c, d, 0);
    InWord(31 * (a as nat) + b as nat);
    InWord(31 * (c as nat) + d as nat);
  }

  lemma InWord(u: nat)
    requires u < WORD
    ensures u % WORD == u
  {
  }

  /**
    Fingerprints are not unique: swapping "Aa" for "BB" anywhere in a narration keeps it, for every
    date and amount.
   */
  lemma FingerprintsCollide(date: string, x: string, y: string, debit: Option<int>, credit: Option<int>)
    ensures Fingerprint(date, x + "Aa" + y, debit, credit) == Fingerprint(date, x + "BB" + y, debit, credit)
    ensures x + "Aa" + y != x + "BB" + y
  {
    assert "Aa" == ['A', 'a'] && "BB" == ['B', 'B'];
    TwoCharactersCollideIff(date, x, 'A', 'a', 'B', 'B', y, debit, credit);
    assert (x + "Aa" + y)[|x|] == 'A' && (x + "BB" + y)[|x|] == 'B';
  }

  // ---- Accepting a file's rows ----

  /** Any fingerprint function; `Fingerprint` is the program's. */
  type HashFn = (string, string, Option<int>, Option<int>) -> string

  function HashRow(hash: HashFn, t: Transaction): string {
    hash(t.date, t.narration, t.debit, t.credit)
  }

  function Hashes(hash: HashFn, s: seq<Transaction>): set<string> {
    set t | t in s :: HashRow(hash, t)
  }

  function NonOpening(s: seq<Transaction>): nat {
    if s == [] then 0 else NonOpening(s[..|s| - 1]) + (if s[|s| - 1].isOpeningBalance then 0 else 1)
  }

  /** The fingerprints of the real rows: what is persisted after an import. */
  function RealHashes(hash: HashFn, s: seq<Transaction>): set<string> {
    set t | t in s && !t.isOpeningBalance :: HashRow(hash, t)
  }

  /** Keeps opening balances and every row with an unknown fingerprint. */
  function KeepNew(hash: HashFn, known: set<string>, s: seq<Transaction>): seq<Transaction> {
    if s == [] then []
    else
      var last := s[|s| - 1];
      KeepNew(hash, known, s[..|s| - 1])
      + (if last.isOpeningBalance || HashRow(hash, last) !in known then [last] else [])
  }

  lemma RealHashesSnoc(hash: HashFn, front: seq<Transaction>, last: Transaction)
    ensures RealHashes(hash, front + [last]) == RealHashes(hash, front) +
        (if last.isOpeningBalance then {} else {HashRow(hash, last)})
  {
  }

  lemma {:induction false} KeepNewMembers(hash: HashFn, known: set<string>, s: seq<Transaction>, t: Transaction)
    ensures t in KeepNew(hash, known, s) <==> t in s && (t.isOpeningBalance || HashRow(hash, t) !in known)
  {
    if s != [] {
      KeepNewMembers(hash, known, s[..|s| - 1], t);
      assert s == s[..|s| - 1] + [s[|s| - 1]];
    }
  }

  lemma {:induction false} KeepNewCounts(hash: HashFn, known: set<string>, s: seq<Transaction>)
    ensures NonOpening(KeepNew(hash, known, s)) <= NonOpening(s)
    ensures RealHashes(hash, s) <= known <==> NonOpening(KeepNew(hash, known, s)) == 0
  {
    if s != [] {
      var front, last := s[..|s| - 1], s[|s| - 1];
      KeepNewCounts(hash, known, front);
      RealHashesSnoc(hash, front, last);
      assert s == front + [last];
      var k := KeepNew(hash, known, front);
      assert (k + [last])[..|k|] == k;
      assert k + [] == k;
    }
  }

  /** What is kept is what is new; nothing real is kept exactly when every real row is known. */
  lemma KeepNewMeaning(hash: HashFn, known: set<string>, s: seq<Transaction>)
    ensures forall t :: t in KeepNew(hash, known, s) <==> t in s && (t.isOpeningBalance || HashRow(hash, t) !in known)
    ensures NonOpening(KeepNew(hash, known, s)) <= NonOpening(s)
    ensures RealHashes(hash, s) <= known <==> NonOpening(KeepNew(hash, known, s)) == 0
  {
    KeepNewCounts(hash, known, s);
    forall t ensures t in KeepNew(hash, known, s) <==> t in s && (t.isOpeningBalance || HashRow(hash, t) !in known) {
      KeepNewMembers(hash, known, s, t);
    }
  }

  lemma {:induction false} NonOpeningAppend(a: seq<Transaction>, b: seq<Transaction>)
    ensures NonOpening(a + b) == NonOpening(a) + NonOpening(b)
  {
    if b == [] {
      assert a + b == a;
    } else {
      NonOpeningAppend(a, b[..|b| - 1]);
      assert (a + b)[..|a + b| - 1] == a + b[..|b| - 1];
    }
  }

  /** The dedupe part of a batch's progress. */
  datatype Intake = Intake(rows: seq<Transaction>, skipped: nat, persisted: set<string>)

  function Known(hash: HashFn, x: Intake): set<string> {
    Hashes(hash, x.rows) + x.persisted
  }

  function SaturatingSub(a: nat, b: nat): nat { if a < b then 0 else a - b }

  function TakeFile(hash: HashFn, x: Intake, file: seq<Transaction>): Intake {
    var kept := KeepNew(hash, Known(hash, x), file);
    x.(rows := x.rows + kept, skipped := x.skipped + SaturatingSub(NonOpening(file), NonOpening(kept)))
  }

  function TakeFiles(hash: HashFn, x: Intake, files: seq<seq<Transaction>>): Intake {
    if files == [] then x
    else TakeFile(hash, TakeFiles(hash, x, files[..|files| - 1]), files[|files| - 1])
  }

  function RawRows(files: seq<seq<Transaction>>): nat {
    if files == [] then 0 else RawRows(files[..|files| - 1]) + NonOpening(files[|files| - 1])
  }

  /**
    One file: what is added is new against everything known, everything left out was known, and
    every raw row is either added or counted as skipped.
   */
  lemma TakeFileMeaning(hash: HashFn, x: Intake, file: seq<Transaction>)
    ensures var y := TakeFile(hash, x, file);
      && y.persisted == x.persisted
      && |x.rows| <= |y.rows| && y.rows[..|x.rows|] == x.rows
      && (forall t :: t in y.rows[|x.rows|..] ==>
          t in file && (t.isOpeningBalance || HashRow(hash, t) !in Known(hash, x)))
      && (forall t :: t in file && (t.isOpeningBalance || HashRow(hash, t) !in Known(hash, x)) ==>
          t in y.rows[|x.rows|..])
      && NonOpening(file) == (NonOpening(y.rows) - NonOpening(x.rows)) + (y.skipped - x.skipped)
  {
    var kept := KeepNew(hash, Known(hash, x), file);
    KeepNewMeaning(hash, Known(hash, x), file);
    NonOpeningAppend(x.rows, kept);
    assert (x.rows + kept)[|x.rows|..] == kept;
  }

  lemma SuffixSplit(a: seq<Transaction>, b: seq<Transaction>, c: seq<Transaction>)
    requires |a| <= |b| <= |c| && b[..|a|] == a && c[..|b|] == b
    ensures c[..|a|] == a && c[|a|..] == b[|a|..] + c[|b|..]
  {
    assert c == b + c[|b|..];
  }

  /**
    Over any sequence of files: no real row is accepted whose fingerprint was persisted or loaded
    before the first file; raw rows equal rows kept plus rows skipped.
   */
  lemma {:induction false} TakeFilesMeaning(hash: HashFn, x: Intake, files: seq<seq<Transaction>>)
    ensures var y := TakeFiles(hash, x, files);
      && y.persisted == x.persisted
      && |x.rows| <= |y.rows| && y.rows[..|x.rows|] == x.rows
      && (forall t :: t in y.rows[|x.rows|..] && !t.isOpeningBalance ==> HashRow(hash, t) !in Known(hash, x))
      && RawRows(files) == (NonOpening(y.rows) - NonOpening(x.rows)) + (y.skipped - x.skipped)
  {
    if files != [] {
      var front, last := files[..|files| - 1], files[|files| - 1];
      TakeFilesMeaning(hash, x, front);
      var m := TakeFiles(hash, x, front);
      TakeFileMeaning(hash, m, last);
      var y := TakeFile(hash, m, last);
      KnownGrows(hash, x, m);
      SuffixSplit(x.rows, m.rows, y.rows);
      forall t | t in y.rows[|x.rows|..] && !t.isOpeningBalance ensures HashRow(hash, t) !in Known(hash, x) {
        assert t in m.rows[|x.rows|..] || t in y.rows[|m.rows|..];
      }
    }
  }

  lemma KnownGrows(hash: HashFn, x: Intake, y: Intake)
    requires x.persisted <= y.persisted && |x.rows| <= |y.rows| && y.rows[..|x.rows|] == x.rows
    ensures Known(hash, x) <= Known(hash, y)
  {
    assert forall t :: t in x.rows ==> t in y.rows[..|x.rows|] && t in y.rows;
  }

  lemma {:induction false} TakeFilesSplit(hash: HashFn, x: Intake, files: seq<seq<Transaction>>, k: nat)
    requires k <= |files|
    ensures TakeFiles(hash, x, files) == TakeFiles(hash, TakeFiles(hash, x, files[..k]), files[k..])
    decreases |files|
  {
    if k == |files| {
      assert files[..k] == files && files[k..] == [];
    } else {
      var front := files[..|files| - 1];
      TakeFilesSplit(hash, x, front, k);
      assert front[..k] == files[..k];
      assert files[k..][..|files[k..]| - 1] == front[k..];
    }
  }

  /**
    A real row accepted from a later file (position `i`) never repeats the fingerprint of any row
    held before that file.
   */
  lemma LaterFilesAddOnlyNew(hash: HashFn, x: Intake, files: seq<seq<Transaction>>, k: nat, t: Transaction, i: nat)
    requires k <= |files| && t in TakeFiles(hash, x, files[..k]).rows
    requires |TakeFiles(hash, x, files[..k]).rows| <= i < |TakeFiles(hash, x, files).rows|
    requires !TakeFiles(hash, x, files).rows[i].isOpeningBalance
    ensures HashRow(hash, TakeFiles(hash, x, files).rows[i]) != HashRow(hash, t)
  {
    var m := TakeFiles(hash, x, files[..k]);
    TakeFilesSplit(hash, x, files, k);
    TakeFilesMeaning(hash, m, files[k..]);
    var rows := TakeFiles(hash, x, files).rows;
    assert rows[|m.rows|..][i - |m.rows|] == rows[i];
    assert HashRow(hash, t) in Known(hash, m);
  }

  /** Everything a batch has taken in is known afterwards. */
  lemma {:induction false} TakenIsKnown(hash: HashFn, x: Intake, files: seq<seq<Transaction>>, f: seq<Transaction>)
    requires f in files
    ensures RealHashes(hash, f) <= Known(hash, TakeFiles(hash, x, files))
    decreases |files|
  {
    var front, last := files[..|files| - 1], files[|files| - 1];
    var m := TakeFiles(hash, x, front);
    TakeFileMeaning(hash, m, last);
    KnownGrows(hash, m, TakeFile(hash, m, last));
    assert files == front + [last];
    if f in front {
      TakenIsKnown(hash, x, front, f);
    } else {
      forall t | t in f && !t.isOpeningBalance ensures HashRow(hash, t) in Known(hash, TakeFile(hash, m, last)) {
        if HashRow(hash, t) !in Known(hash, m) {
          assert t in TakeFile(hash, m, last).rows[|m.rows|..];
        }
      }
    }
  }

  /** Files whose real rows are all known add nothing but opening balances. */
  lemma {:induction false} KnownFilesAddNothing(hash: HashFn, x: Intake, files: seq<seq<Transaction>>)
    requires forall f :: f in files ==> RealHashes(hash, f) <= Known(hash, x)
    ensures NonOpening(TakeFiles(hash, x, files).rows) == NonOpening(x.rows)
    ensures TakeFiles(hash, x, files).skipped == x.skipped + RawRows(files)
  {
    if files != [] {
      var front, last := files[..|files| - 1], files[|files| - 1];
      KnownFilesAddNothing(hash, x, front);
      TakeFilesMeaning(hash, x, front);
      var m := TakeFiles(hash, x, front);
      KnownGrows(hash, x, m);
      assert last in files;
      KeepNewMeaning(hash, Known(hash, m), last);
      TakeFileMeaning(hash, m, last);
      NonOpeningAppend(m.rows, KeepNew(hash, Known(hash, m), last));
    }
  }

  /** Post-processing between two batches may reclassify and rename, but keeps every fingerprint. */
  ghost predicate SameFingerprints(hash: HashFn, a: seq<Transaction>, b: seq<Transaction>) {
    Hashes(hash, a) == Hashes(hash, b)
  }

  /**
    Running the same files again, in any order or number, adds no real row: the second batch
    starts from the first one's rows (post-processed) and at least the fingerprints persisted
    at the first start.
   */
  lemma RerunAddsNothing(hash: HashFn, first: Intake, files: seq<seq<Transaction>>, second: Intake,
      again: seq<seq<Transaction>>)
    requires SameFingerprints(hash, TakeFiles(hash, first, files).rows, second.rows)
    requires first.persisted <= second.persisted
    requires forall f :: f in again ==> f in files
    ensures NonOpening(TakeFiles(hash, second, again).rows) == NonOpening(second.rows)
    ensures TakeFiles(hash, second, again).skipped == second.skipped + RawRows(again)
  {
    var done := TakeFiles(hash, first, files);
    TakeFilesMeaning(hash, first, files);
    forall f | f in again ensures RealHashes(hash, f) <= Known(hash, second) {
      TakenIsKnown(hash, first, files, f);
      assert Known(hash, done) <= Known(hash, second);
    }
    KnownFilesAddNothing(hash, second, again);
  }

  // ---- The single-file path ----

  datatype LoadOutcome = NothingNew | Loaded(rows: seq<Transaction>, skipped: nat, known: set<string>)

  /** Loading one file with dedupe on and a client chosen. */
  function LoadFile(hash: HashFn, known: set<string>, file: seq<Transaction>): LoadOutcome {
    var kept := KeepNew(hash, known, file);
    if NonOpening(kept) == 0 then NothingNew
    else Loaded(kept, SaturatingSub(NonOpening(file), NonOpening(kept)), known + RealHashes(hash, kept))
  }

  /** A file is refused exactly when all its real rows are known; once loaded it is refused the next time. */
  lemma LoadedOnce(hash: HashFn, known: set<string>, file: seq<Transaction>)
    ensures LoadFile(hash, known, file).NothingNew? <==> RealHashes(hash, file) <= known
    ensures LoadFile(hash, known, file).Loaded? ==> LoadFile(hash, LoadFile(hash, known, file).known, file).NothingNew?
  {
    var kept := KeepNew(hash, known, file);
    KeepNewMeaning(hash, known, file);
    if LoadFile(hash, known, file).Loaded? {
      var next := known + RealHashes(hash, kept);
      assert RealHashes(hash, file) <= next;
      KeepNewMeaning(hash, next, file);
    }
  }
}
