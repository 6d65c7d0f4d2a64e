/** Duplicate detection in the rows' own fields: what a new flag means, and what its absence means. */
module DuplicateCauses {
  import opened Text
  import opened Transactions
  import opened Duplicates
  import opened DuplicateLaws

  // ---- The three causes ----

  /** Opening balances and rows added by hand are never compared. */
  predicate Compared(t: Transaction) {
    !t.isOpeningBalance && t.status != Manual
  }

  predicate SamePrint(env: DupEnv, a: Transaction, b: Transaction) {
    env.hash(a.date, a.narration, a.debit, a.credit) == env.hash(b.date, b.narration, b.debit, b.credit)
  }

  /** The debit, or the credit of a row without one. */
  predicate HasAmount(t: Transaction, x: int) {
    t.debit == Some(x) || (t.debit.None? && t.credit == Some(x))
  }

  ghost function DigitPlaces(r: string): set<nat> {
    set i: nat | i < |r| && '0' <= r[i] <= '9'
  }

  /** One positive amount under one reference that holds at least four digits. */
  ghost predicate SameNumberedPayment(a: Transaction, b: Transaction) {
    && Trim(a.reference) == Trim(b.reference) && |DigitPlaces(Trim(a.reference))| >= 4
    && exists x :: x > 0 && HasAmount(a, x) && HasAmount(b, x)
  }

  predicate PaidOut(t: Transaction) {
    t.debit.Some? && t.debit.value > 0
  }

  /** One positive amount, both out or both in, on one date. */
  predicate SameDayAmount(a: Transaction, b: Transaction) {
    && a.date == b.date
    && if PaidOut(a) || PaidOut(b) then PaidOut(a) && a.debit == b.debit
       else a.credit.Some? && a.credit.value > 0 && a.credit == b.credit
  }

  /** The part of the larger token set that both share is at least one half. */
  predicate HalfAlike(env: DupEnv, a: Transaction, b: Transaction) {
    var x, y := env.tokens(a.narration), env.tokens(b.narration);
    var larger := if |x| < |y| then |y| else |x|;
    x != {} && y != {} && |x * y| as real >= 0.5 * larger as real
  }

  ghost predicate Cause(env: DupEnv, a: Transaction, b: Transaction) {
    && Compared(a) && Compared(b)
    && (SamePrint(env, a, b) || SameNumberedPayment(a, b) || (SameDayAmount(a, b) && HalfAlike(env, a, b)))
  }

  // ---- They are what the passes look for ----

  lemma {:induction false} DigitCountLast(r: string, c: char)
    ensures DigitCount(r + [c]) == DigitCount(r) + (if IsDigit(c) then 1 else 0)
  {
    if r == [] {
      assert r + [c] == [c] && [c][1..] == [];
    } else {
      DigitCountLast(r[1..], c);
      assert (r + [c])[1..] == r[1..] + [c];
    }
  }

  lemma {:induction false} DigitsCounted(r: string)
    ensures DigitCount(r) == |DigitPlaces(r)|
  {
    if r == [] {
      assert DigitPlaces(r) == {};
    } else {
      var n := |r| - 1;
      DigitsCounted(r[..n]);
      DigitCountLast(r[..n], r[n]);
      assert r == r[..n] + [r[n]];
      assert DigitPlaces(r) == DigitPlaces(r[..n]) + (if '0' <= r[n] <= '9' then {n} else {});
    }
  }

  lemma NumberedIff(a: Transaction, b: Transaction)
    ensures SameReference(a, b) <==> SameNumberedPayment(a, b)
  {
    DigitsCounted(Trim(a.reference));
    assert DigitPlaces([]) == {};
    if SameReference(a, b) {
      var x := RefKeyOf(a).value.amount;
      assert x > 0 && HasAmount(a, x) && HasAmount(b, x);
    }
  }

  lemma LookalikeIff(env: DupEnv, a: Transaction, b: Transaction)
    ensures SameDayLookalike(env, a, b) <==> SameDayAmount(a, b) && HalfAlike(env, a, b)
  {
  }

  /** One row repeats another exactly when their own fields give one of the three causes. */
  lemma RepeatsIffCause(env: DupEnv, a: Transaction, b: Transaction)
    ensures Repeats(env, a, b) <==> Cause(env, a, b)
  {
    NumberedIff(a, b);
    LookalikeIff(env, a, b);
  }

  // ---- What detection means ----

  /** A row that detection flags has an earlier row that gives the cause. */
  lemma NewFlagHasACause(env: DupEnv, s: seq<Transaction>, i: nat)
    requires i < |s| && !s[i].dupFlag && Detect(env, s)[i].dupFlag
    ensures exists j: nat :: j < i && Cause(env, s[j], s[i])
  {
    var c := EveryRowHasASurvivor(env, s, i);
    LongChainRepeats(env, s, c);
    var j: nat :| j < i && Repeats(env, s[j], s[i]);
    RepeatsIffCause(env, s[j], s[i]);
  }

  /** Two rows left unflagged give no cause, in either order. */
  lemma UnflaggedRowsHaveNoCause(env: DupEnv, s: seq<Transaction>, i: nat, j: nat)
    requires i < |s| && j < |s| && i != j
    requires !Detect(env, s)[i].dupFlag && !Detect(env, s)[j].dupFlag
    ensures !Cause(env, s[i], s[j])
  {
    SurvivorsDoNotRepeat(env, s, i, j);
    RepeatsIffCause(env, s[i], s[j]);
  }

  /** Detection only ever sets a flag and adds one tag, and never on a row that is not compared. */
  lemma DetectionOnlyMarks(env: DupEnv, s: seq<Transaction>, i: nat)
    requires i < |s|
    ensures var t, d := s[i], Detect(env, s)[i];
      && (d == t || d == t.(dupFlag := true, tags := if "DUP" in t.tags then t.tags else t.tags + ["DUP"]))
      && (!Compared(t) ==> d == t)
  {
    RowThroughPasses(env, s, i);
  }
}
