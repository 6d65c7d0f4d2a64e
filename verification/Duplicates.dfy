/**
  Duplicate detection: three in-place passes (equal fingerprint, equal reference number and
  amount, similar narration within one day, amount and direction), and what they guarantee.
 */
module Duplicates {
  import opened Text
  import opened Lists
  import opened Transactions

  /**
    The fingerprint reads date, narration, debit and credit; the token set reads a narration. Both
    are arbitrary here.
   */
  datatype DupEnv = DupEnv(
    hash: (string, string, Option<int>, Option<int>) -> string,
    tokens: string -> set<string>)

  predicate Exempt(t: Transaction) {
    t.isOpeningBalance || t.status == Manual
  }

  function HashOf(env: DupEnv, t: Transaction): string {
    env.hash(t.date, t.narration, t.debit, t.credit)
  }

  function DigitCount(s: string): nat {
    if s == [] then 0 else (if IsDigit(s[0]) then 1 else 0) + DigitCount(s[1..])
  }

  predicate LooksLikeReferenceNumber(r: string) {
    DigitCount(r) >= 4
  }

  datatype RefKey = RefKey(reference: string, amount: int)

  function RefKeyOf(t: Transaction): Option<RefKey> {
    var r, amount := Trim(t.reference), GetOr(Or(t.debit, t.credit), 0);
    if r != [] && amount > 0 && LooksLikeReferenceNumber(r) then Some(RefKey(r, amount)) else None
  }

  datatype Bucket = Bucket(date: string, amount: int, isDebit: bool)

  function BucketOf(t: Transaction): Option<Bucket> {
    if t.debit.Some? && t.debit.value > 0 then Some(Bucket(t.date, t.debit.value, true))
    else if t.credit.Some? && t.credit.value > 0 then Some(Bucket(t.date, t.credit.value, false))
    else None
  }

  /** At least half of the larger token set is shared. */
  predicate SimilarTokens(a: set<string>, b: set<string>) {
    a != {} && b != {} && 2 * |a * b| >= |a| && 2 * |a * b| >= |b|
  }

  predicate Similar(env: DupEnv, a: Transaction, b: Transaction) {
    SimilarTokens(env.tokens(a.narration), env.tokens(b.narration))
  }

  function Mark(t: Transaction): Transaction {
    t.(dupFlag := true, tags := AddTag(t.tags, "DUP"))
  }

  // ---- The three passes, row by row ----

  ghost predicate Hit1(env: DupEnv, s: seq<Transaction>, i: nat)
    requires i < |s|
  {
    !Exempt(s[i]) && exists j: nat :: j < i && !Exempt(s[j]) && HashOf(env, s[j]) == HashOf(env, s[i])
  }

  predicate Keyed(t: Transaction) {
    !Exempt(t) && !t.dupFlag && RefKeyOf(t).Some?
  }

  ghost predicate Hit2(s: seq<Transaction>, i: nat)
    requires i < |s|
  {
    Keyed(s[i]) && exists j: nat :: j < i && Keyed(s[j]) && RefKeyOf(s[j]) == RefKeyOf(s[i])
  }

  predicate InBucket(t: Transaction) {
    !Exempt(t) && !t.dupFlag && BucketOf(t).Some?
  }

  predicate SameBucket(a: Transaction, b: Transaction) {
    InBucket(a) && InBucket(b) && BucketOf(a) == BucketOf(b)
  }

  /** A row falls to the first earlier row of its bucket that is similar to it and did not fall itself. */
  ghost predicate Hit3(env: DupEnv, s: seq<Transaction>, i: nat)
    requires i < |s|
    decreases i
  {
    exists j: nat :: j < i && SameBucket(s[j], s[i]) && Similar(env, s[j], s[i]) && !Hit3(env, s, j)
  }

  function MarkIf(t: Transaction, hit: bool): Transaction {
    if hit then Mark(t) else t
  }

  ghost function Pass1(env: DupEnv, s: seq<Transaction>): seq<Transaction> {
    seq(|s|, i requires 0 <= i < |s| => MarkIf(s[i], Hit1(env, s, i)))
  }

  ghost function Pass2(s: seq<Transaction>): seq<Transaction> {
    seq(|s|, i requires 0 <= i < |s| => MarkIf(s[i], Hit2(s, i)))
  }

  ghost function Pass3(env: DupEnv, s: seq<Transaction>): seq<Transaction> {
    seq(|s|, i requires 0 <= i < |s| => MarkIf(s[i], Hit3(env, s, i)))
  }

  ghost function Detect(env: DupEnv, s: seq<Transaction>): seq<Transaction> {
    Pass3(env, Pass2(Pass1(env, s)))
  }

  /** Marking changes nothing a pass reads except the flag. */
  lemma MarkKeeps(env: DupEnv, t: Transaction)
    ensures Exempt(Mark(t)) == Exempt(t)
    ensures HashOf(env, Mark(t)) == HashOf(env, t)
    ensures RefKeyOf(Mark(t)) == RefKeyOf(t)
    ensures BucketOf(Mark(t)) == BucketOf(t)
    ensures Mark(Mark(t)) == Mark(t)
    ensures ImportedOf(Mark(t)) == ImportedOf(t)
  {
  }

  // ---- Running the passes in place ----

  /** An earlier row has the same key as row `i`; rows without a key never repeat. */
  ghost predicate KeyRepeats<K>(key: Transaction -> Option<K>, s: seq<Transaction>, i: nat)
    requires i < |s|
  {
    key(s[i]).Some? && exists j: nat :: j < i && key(s[j]) == key(s[i])
  }

  /** The loop of the first two passes: a row whose key was seen before is marked, any other key is remembered. */
  method MarkRepeats<K(==, !new)>(txns: array<Transaction>, key: Transaction -> Option<K>)
    modifies txns
    ensures forall k :: 0 <= k < txns.Length ==> txns[k] == MarkIf(old(txns[k]), KeyRepeats(key, old(txns[..]), k))
  {
    ghost var s := txns[..];
    var seen: set<K> := {};
    for i := 0 to txns.Length
      invariant forall k :: 0 <= k < i ==> txns[k] == MarkIf(s[k], KeyRepeats(key, s, k))
      invariant forall k :: i <= k < txns.Length ==> txns[k] == s[k]
      invariant forall h :: h in seen <==> exists j: nat :: j < i && key(s[j]) == Some(h)
    {
      match key(txns[i]) {
        case None =>
        case Some(h) =>
          if h in seen {
            txns[i] := Mark(txns[i]);
          } else {
            seen := seen + {h};
          }
      }
    }
  }

  function FingerprintKey(env: DupEnv, t: Transaction): Option<string> {
    if Exempt(t) then None else Some(HashOf(env, t))
  }

  function ReferenceKey(t: Transaction): Option<RefKey> {
    if Keyed(t) then RefKeyOf(t) else None
  }

  lemma KeyRepeats1(env: DupEnv, s: seq<Transaction>, i: nat)
    requires i < |s|
    ensures KeyRepeats(t => FingerprintKey(env, t), s, i) <==> Hit1(env, s, i)
  {
  }

  lemma KeyRepeats2(s: seq<Transaction>, i: nat)
    requires i < |s|
    ensures KeyRepeats(ReferenceKey, s, i) <==> Hit2(s, i)
  {
  }

  method RunPass1(env: DupEnv, txns: array<Transaction>)
    modifies txns
    ensures txns[..] == Pass1(env, old(txns[..]))
  {
    ghost var s := txns[..];
    var key := t => FingerprintKey(env, t);
    MarkRepeats(txns, key);
    forall i: nat | i < |s| ensures KeyRepeats(key, s, i) <==> Hit1(env, s, i) {
      KeyRepeats1(env, s, i);
    }
  }

  method RunPass2(txns: array<Transaction>)
    modifies txns
    ensures txns[..] == Pass2(old(txns[..]))
  {
    ghost var s := txns[..];
    MarkRepeats(txns, ReferenceKey);
    forall i: nat | i < |s| ensures KeyRepeats(ReferenceKey, s, i) <==> Hit2(s, i) {
      KeyRepeats2(s, i);
    }
  }

  predicate Belongs(t: Transaction, b: Bucket) {
    InBucket(t) && BucketOf(t) == Some(b)
  }

  /** `idxs` is the complete, increasing list of the rows of one bucket among the first `n`. */
  ghost predicate IsBucketList(s: seq<Transaction>, n: nat, idxs: seq<nat>, b: Bucket)
    requires n <= |s|
  {
    IncreasingBelow(idxs, n) && forall x: nat :: x < n ==> (x in idxs <==> Belongs(s[x], b))
  }

  /** Position `p` of the bucket has fallen to one of its first `m` positions. */
  ghost predicate FallenTo(env: DupEnv, s: seq<Transaction>, idxs: seq<nat>, m: nat, p: nat)
    requires p < |idxs| && IncreasingBelow(idxs, |s|)
  {
    exists a: nat :: a < m && a < p && Similar(env, s[idxs[a]], s[idxs[p]]) && !Hit3(env, s, idxs[a])
  }

  lemma FallenStep(env: DupEnv, s: seq<Transaction>, idxs: seq<nat>, a: nat, p: nat)
    requires p < |idxs| && a < |idxs| && IncreasingBelow(idxs, |s|)
    ensures FallenTo(env, s, idxs, a + 1, p) <==>
      FallenTo(env, s, idxs, a, p) || (a < p && Similar(env, s[idxs[a]], s[idxs[p]]) && !Hit3(env, s, idxs[a]))
  {
  }

  lemma FallenIsHit(env: DupEnv, s: seq<Transaction>, idxs: seq<nat>, b: Bucket, m: nat, p: nat)
    requires IsBucketList(s, |s|, idxs, b) && p < |idxs| && p <= m
    ensures FallenTo(env, s, idxs, m, p) <==> Hit3(env, s, idxs[p])
  {
    assert idxs[p] in idxs;
    if Hit3(env, s, idxs[p]) {
      var j: nat :| j < idxs[p] && SameBucket(s[j], s[idxs[p]]) && Similar(env, s[j], s[idxs[p]]) && !Hit3(env, s, j);
      assert j in idxs;
      var a :| 0 <= a < |idxs| && idxs[a] == j;
      assert a < p;
    }
    if FallenTo(env, s, idxs, m, p) {
      var a: nat :| a < m && a < p && Similar(env, s[idxs[a]], s[idxs[p]]) && !Hit3(env, s, idxs[a]);
      assert idxs[a] in idxs;
      assert SameBucket(s[idxs[a]], s[idxs[p]]);
    }
  }

  /** The rows of the bucket as they stand when its first `m` positions have been compared with position `p`. */
  ghost function RowAfter(env: DupEnv, s: seq<Transaction>, idxs: seq<nat>, m: nat, p: nat): Transaction
    requires p < |idxs| && IncreasingBelow(idxs, |s|)
  {
    MarkIf(s[idxs[p]], FallenTo(env, s, idxs, m, p))
  }

  /** The inner loop's treatment of one later row. */
  function ScanRow(env: DupEnv, first: Transaction, t: Transaction): Transaction {
    if !t.dupFlag && Similar(env, first, t) then Mark(t) else t
  }

  /** The inner loop: the row at position `a` marks every later row similar to it. */
  method ScanFrom(env: DupEnv, txns: array<Transaction>, idxs: seq<nat>, a: nat)
    requires IncreasingBelow(idxs, txns.Length) && a < |idxs|
    modifies txns
    ensures forall p :: a < p < |idxs| ==> txns[idxs[p]] == ScanRow(env, old(txns[idxs[a]]), old(txns[idxs[p]]))
    ensures forall x: nat :: x < txns.Length && x !in idxs[a + 1..] ==> txns[x] == old(txns[x])
  {
    for c := a + 1 to |idxs|
      invariant forall p :: a < p < c ==> txns[idxs[p]] == ScanRow(env, old(txns[idxs[a]]), old(txns[idxs[p]]))
      invariant forall p :: c <= p < |idxs| ==> txns[idxs[p]] == old(txns[idxs[p]])
      invariant forall x: nat :: x < txns.Length && x !in idxs[a + 1..] ==> txns[x] == old(txns[x])
      invariant txns[idxs[a]] == old(txns[idxs[a]])
    {
      assert idxs[c] == idxs[a + 1..][c - a - 1];
      txns[idxs[c]] := ScanRow(env, txns[idxs[a]], txns[idxs[c]]);
    }
  }

  /** Comparing with one more position advances a row from `RowAfter(.., a, p)` to `RowAfter(.., a + 1, p)`. */
  lemma ScanAdvances(env: DupEnv, s: seq<Transaction>, idxs: seq<nat>, a: nat, p: nat)
    requires p < |idxs| && a < |idxs| && IncreasingBelow(idxs, |s|) && !s[idxs[p]].dupFlag
    ensures p <= a || Hit3(env, s, idxs[a]) ==> RowAfter(env, s, idxs, a + 1, p) == RowAfter(env, s, idxs, a, p)
    ensures p > a && !Hit3(env, s, idxs[a]) ==>
      RowAfter(env, s, idxs, a + 1, p) == ScanRow(env, s[idxs[a]], RowAfter(env, s, idxs, a, p))
  {
    FallenStep(env, s, idxs, a, p);
  }

  lemma EarlierRowsStay(idxs: seq<nat>, a: nat)
    requires a < |idxs| && Increasing(idxs)
    ensures forall p :: 0 <= p <= a ==> idxs[p] !in idxs[a + 1..]
    ensures forall x :: x !in idxs ==> x !in idxs[a + 1..]
  {
  }

  /** One bucket's nested scan. */
  method ScanBucket(env: DupEnv, txns: array<Transaction>, idxs: seq<nat>, ghost s: seq<Transaction>, ghost b: Bucket)
    requires |s| == txns.Length && IsBucketList(s, |s|, idxs, b)
    requires forall p :: 0 <= p < |idxs| ==> txns[idxs[p]] == s[idxs[p]]
    modifies txns
    ensures forall p :: 0 <= p < |idxs| ==> txns[idxs[p]] == MarkIf(s[idxs[p]], Hit3(env, s, idxs[p]))
    ensures forall x: nat :: x < txns.Length && x !in idxs ==> txns[x] == old(txns[x])
  {
    assert forall p :: 0 <= p < |idxs| ==> idxs[p] in idxs;
    assert forall p :: 0 <= p < |idxs| ==> !s[idxs[p]].dupFlag;
    var n := |idxs|;
    for a := 0 to n
      invariant forall p :: 0 <= p < n ==> txns[idxs[p]] == RowAfter(env, s, idxs, a, p)
      invariant forall x: nat :: x < txns.Length && x !in idxs ==> txns[x] == old(txns[x])
    {
      FallenIsHit(env, s, idxs, b, a, a);
      ghost var before := txns[..];
      if !txns[idxs[a]].dupFlag {
        ScanFrom(env, txns, idxs, a);
        EarlierRowsStay(idxs, a);
      }
      forall p | 0 <= p < n ensures txns[idxs[p]] == RowAfter(env, s, idxs, a + 1, p) {
        assert before[idxs[p]] == RowAfter(env, s, idxs, a, p);
        ScanAdvances(env, s, idxs, a, p);
      }
    }
    forall p | 0 <= p < n ensures FallenTo(env, s, idxs, n, p) == Hit3(env, s, idxs[p]) {
      FallenIsHit(env, s, idxs, b, n, p);
    }
  }

  ghost predicate BucketsComplete(s: seq<Transaction>, buckets: map<Bucket, seq<nat>>, n: nat)
    requires n <= |s|
  {
    && (forall x: nat :: x < n && InBucket(s[x]) ==> BucketOf(s[x]).value in buckets)
    && (forall b :: b in buckets ==> IsBucketList(s, n, buckets[b], b))
  }

  lemma SkipRow(s: seq<Transaction>, n: nat, idxs: seq<nat>, b: Bucket)
    requires n < |s| && IsBucketList(s, n, idxs, b) && !Belongs(s[n], b)
    ensures IsBucketList(s, n + 1, idxs, b)
  {
    assert n !in idxs;
  }

  lemma AddRow(s: seq<Transaction>, n: nat, idxs: seq<nat>, b: Bucket)
    requires n < |s| && IsBucketList(s, n, idxs, b) && Belongs(s[n], b)
    ensures IsBucketList(s, n + 1, idxs + [n], b)
  {
  }

  lemma EmptyList(s: seq<Transaction>, buckets: map<Bucket, seq<nat>>, n: nat, b: Bucket)
    requires n <= |s| && BucketsComplete(s, buckets, n) && b !in buckets
    ensures IsBucketList(s, n, [], b)
  {
  }

  method FillBuckets(txns: array<Transaction>) returns (buckets: map<Bucket, seq<nat>>)
    ensures BucketsComplete(txns[..], buckets, txns.Length)
  {
    ghost var s := txns[..];
    buckets := map[];
    for i := 0 to txns.Length
      invariant BucketsComplete(s, buckets, i)
    {
      ghost var was := buckets;
      if InBucket(txns[i]) {
        var b := BucketOf(txns[i]).value;
        if b !in buckets {
          EmptyList(s, buckets, i, b);
        }
        var before := if b in buckets then buckets[b] else [];
        AddRow(s, i, before, b);
        buckets := buckets[b := before + [i]];
      }
      forall c | c in buckets ensures IsBucketList(s, i + 1, buckets[c], c) {
        if !Belongs(s[i], c) {
          assert buckets[c] == was[c];
          SkipRow(s, i, was[c], c);
        }
      }
    }
  }

  /** Visits the buckets in an arbitrary order, as a hash map would. */
  method RunPass3(env: DupEnv, txns: array<Transaction>)
    modifies txns
    ensures txns[..] == Pass3(env, old(txns[..]))
  {
    ghost var s := txns[..];
    var buckets := FillBuckets(txns);
    var todo := buckets.Keys;
    while todo != {}
      invariant todo <= buckets.Keys
      invariant forall x: nat :: x < |s| ==> txns[x] == Visited(env, s, todo, x)
      decreases |todo|
    {
      var b :| b in todo;
      var idxs := buckets[b];
      assert IsBucketList(s, |s|, idxs, b);
      forall p | 0 <= p < |idxs| ensures txns[idxs[p]] == s[idxs[p]] {
        assert idxs[p] in idxs;
      }
      ScanBucket(env, txns, idxs, s, b);
      forall x: nat | x < |s| ensures txns[x] == Visited(env, s, todo - {b}, x) {
        if x in idxs {
          var p :| 0 <= p < |idxs| && idxs[p] == x;
        }
      }
      todo := todo - {b};
    }
    assert forall x: nat :: x < |s| && Hit3(env, s, x) ==> InBucket(s[x]);
  }

  /** Row `x` once every bucket outside `todo` has been scanned. */
  ghost function Visited(env: DupEnv, s: seq<Transaction>, todo: set<Bucket>, x: nat): Transaction
    requires x < |s|
  {
    if InBucket(s[x]) && BucketOf(s[x]).value !in todo then MarkIf(s[x], Hit3(env, s, x)) else s[x]
  }

  /**
    The whole detection. Its result is a function of the rows, so it cannot depend on the order in
    which buckets are visited.
   */
  method DetectDuplicates(env: DupEnv, txns: array<Transaction>)
    modifies txns
    ensures txns[..] == Detect(env, old(txns[..]))
  {
    RunPass1(env, txns);
    RunPass2(txns);
    RunPass3(env, txns);
  }
}
