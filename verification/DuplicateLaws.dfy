/** What duplicate detection guarantees about its result. */
module DuplicateLaws {
  import opened Transactions
  import opened Duplicates

  /** The rows after each pass. */
  ghost function After1(env: DupEnv, s: seq<Transaction>): seq<Transaction> { Pass1(env, s) }
  ghost function After2(env: DupEnv, s: seq<Transaction>): seq<Transaction> { Pass2(Pass1(env, s)) }

  /** One row through the three passes: each pass marks it or leaves it, and a marked row stays marked. */
  lemma RowThroughPasses(env: DupEnv, s: seq<Transaction>, i: nat)
    requires i < |s|
    ensures After1(env, s)[i] == MarkIf(s[i], Hit1(env, s, i))
    ensures After2(env, s)[i] == MarkIf(After1(env, s)[i], Hit2(After1(env, s), i))
    ensures Detect(env, s)[i] == MarkIf(After2(env, s)[i], Hit3(env, After2(env, s), i))
    ensures Detect(env, s)[i] == s[i] || Detect(env, s)[i] == Mark(s[i])
    ensures s[i].dupFlag ==> After1(env, s)[i].dupFlag
    ensures After1(env, s)[i].dupFlag ==> After2(env, s)[i].dupFlag
    ensures After2(env, s)[i].dupFlag ==> Detect(env, s)[i].dupFlag
    ensures Exempt(After1(env, s)[i]) == Exempt(After2(env, s)[i]) == Exempt(Detect(env, s)[i]) == Exempt(s[i])
  {
    MarkKeeps(env, s[i]);
  }

  /** A pass reads the same keys before and after any marking. */
  lemma KeysThroughPasses(env: DupEnv, s: seq<Transaction>, i: nat)
    requires i < |s|
    ensures HashOf(env, Detect(env, s)[i]) == HashOf(env, s[i])
    ensures RefKeyOf(After1(env, s)[i]) == RefKeyOf(Detect(env, s)[i]) == RefKeyOf(s[i])
    ensures BucketOf(After2(env, s)[i]) == BucketOf(Detect(env, s)[i]) == BucketOf(s[i])
    ensures After2(env, s)[i].narration == Detect(env, s)[i].narration == s[i].narration
    ensures ImportedOf(Detect(env, s)[i]) == ImportedOf(s[i])
  {
    MarkKeeps(env, s[i]);
  }

  ghost predicate SameReference(a: Transaction, b: Transaction) {
    RefKeyOf(a).Some? && RefKeyOf(a) == RefKeyOf(b)
  }

  ghost predicate SameDayLookalike(env: DupEnv, a: Transaction, b: Transaction) {
    BucketOf(a).Some? && BucketOf(a) == BucketOf(b) && Similar(env, a, b)
  }

  /** The three ways one row can repeat another. */
  ghost predicate Repeats(env: DupEnv, a: Transaction, b: Transaction) {
    !Exempt(a) && !Exempt(b) && (HashOf(env, a) == HashOf(env, b) || SameReference(a, b) || SameDayLookalike(env, a, b))
  }

  lemma SimilarIsSymmetric(env: DupEnv, a: Transaction, b: Transaction)
    ensures Similar(env, a, b) == Similar(env, b, a)
  {
    var x, y := env.tokens(a.narration), env.tokens(b.narration);
    assert x * y == y * x;
  }

  /** After detection no two unflagged rows repeat each other, whatever the flags were at the start. */
  lemma SurvivorsDoNotRepeat(env: DupEnv, s: seq<Transaction>, i: nat, j: nat)
    requires i < |s| && j < |s| && i != j
    requires !Detect(env, s)[i].dupFlag && !Detect(env, s)[j].dupFlag
    ensures !Repeats(env, s[i], s[j])
  {
    if j < i {
      SimilarIsSymmetric(env, s[i], s[j]);
      SurvivorsDoNotRepeatOrdered(env, s, j, i);
    } else {
      SurvivorsDoNotRepeatOrdered(env, s, i, j);
    }
  }

  lemma SurvivorsDoNotRepeatOrdered(env: DupEnv, s: seq<Transaction>, i: nat, j: nat)
    requires i < j < |s|
    requires !Detect(env, s)[i].dupFlag && !Detect(env, s)[j].dupFlag
    ensures !Repeats(env, s[i], s[j])
  {
    RowThroughPasses(env, s, i);
    RowThroughPasses(env, s, j);
    KeysThroughPasses(env, s, i);
    KeysThroughPasses(env, s, j);
    if !Exempt(s[i]) && !Exempt(s[j]) {
      var s1, s2 := After1(env, s), After2(env, s);
      assert !Hit1(env, s, j);
      LaterRowFalls(env, s1, i, j);
      LaterRowFalls(env, s2, i, j);
    }
  }

  lemma LaterRowFalls(env: DupEnv, s: seq<Transaction>, i: nat, j: nat)
    requires i < j < |s|
    ensures Keyed(s[i]) && Keyed(s[j]) && RefKeyOf(s[i]) == RefKeyOf(s[j]) ==> Hit2(s, j)
    ensures SameBucket(s[i], s[j]) && Similar(env, s[i], s[j]) ==> Hit3(env, s, i) || Hit3(env, s, j)
  {
  }

  // ---- No cluster is wiped out ----

  /** A path of strictly earlier rows, each repeating the one before it. */
  ghost predicate IsChain(env: DupEnv, s: seq<Transaction>, c: seq<nat>) {
    && |c| > 0
    && (forall k :: 0 <= k < |c| ==> c[k] < |s|)
    && (forall k :: 0 <= k < |c| - 1 ==> c[k + 1] < c[k] && Repeats(env, s[c[k + 1]], s[c[k]]))
  }

  /** The row stands at the end, or was flagged before detection began. */
  ghost predicate Settled(env: DupEnv, s: seq<Transaction>, i: nat)
    requires i < |s|
  {
    !Detect(env, s)[i].dupFlag || s[i].dupFlag
  }

  lemma ExtendChain(env: DupEnv, s: seq<Transaction>, i: nat, c: seq<nat>)
    requires IsChain(env, s, c) && i < |s| && c[0] < i && Repeats(env, s[c[0]], s[i])
    ensures IsChain(env, s, [i] + c)
  {
    var d := [i] + c;
    forall k | 0 <= k < |d| - 1 ensures d[k + 1] < d[k] && Repeats(env, s[d[k + 1]], s[d[k]]) {
      if k > 0 { assert d[k] == c[k - 1] && d[k + 1] == c[k]; }
    }
  }

  /** A row untouched by the first two passes reaches a standing row in at most one step. */
  lemma ChainPass3(env: DupEnv, s: seq<Transaction>, i: nat) returns (c: seq<nat>)
    requires i < |s| && !After2(env, s)[i].dupFlag
    ensures IsChain(env, s, c) && c[0] == i && |c| <= 2 && !Detect(env, s)[c[|c| - 1]].dupFlag
  {
    RowThroughPasses(env, s, i);
    c := [i];
    if Detect(env, s)[i].dupFlag {
      var s2 := After2(env, s);
      var j: nat :| j < i && SameBucket(s2[j], s2[i]) && Similar(env, s2[j], s2[i]) && !Hit3(env, s2, j);
      RowThroughPasses(env, s, j);
      KeysThroughPasses(env, s, i);
      KeysThroughPasses(env, s, j);
      assert SameDayLookalike(env, s[j], s[i]);
      ExtendChain(env, s, i, [j]);
      c := [i] + [j];
    }
  }

  /** The first keyed row with a given key is never hit by the second pass. */
  lemma FirstKeyed(s: seq<Transaction>, i: nat) returns (j: nat)
    requires i < |s| && Keyed(s[i])
    ensures j <= i && Keyed(s[j]) && RefKeyOf(s[j]) == RefKeyOf(s[i]) && !Hit2(s, j)
    decreases i
  {
    j := i;
    if Hit2(s, i) {
      var k: nat :| k < i && Keyed(s[k]) && RefKeyOf(s[k]) == RefKeyOf(s[i]);
      j := FirstKeyed(s, k);
    }
  }

  lemma ChainPass2(env: DupEnv, s: seq<Transaction>, i: nat) returns (c: seq<nat>)
    requires i < |s| && !After1(env, s)[i].dupFlag
    ensures IsChain(env, s, c) && c[0] == i && |c| <= 3 && !Detect(env, s)[c[|c| - 1]].dupFlag
  {
    RowThroughPasses(env, s, i);
    var s1 := After1(env, s);
    if !After2(env, s)[i].dupFlag {
      c := ChainPass3(env, s, i);
    } else {
      var j := FirstKeyed(s1, i);
      RowThroughPasses(env, s, j);
      KeysThroughPasses(env, s, i);
      KeysThroughPasses(env, s, j);
      assert SameReference(s[j], s[i]);
      c := ChainPass3(env, s, j);
      ExtendChain(env, s, i, c);
      c := [i] + c;
    }
  }

  lemma FirstHashed(env: DupEnv, s: seq<Transaction>, i: nat) returns (j: nat)
    requires i < |s| && !Exempt(s[i])
    ensures j <= i && !Exempt(s[j]) && HashOf(env, s[j]) == HashOf(env, s[i]) && !Hit1(env, s, j)
    decreases i
  {
    j := i;
    if Hit1(env, s, i) {
      var k: nat :| k < i && !Exempt(s[k]) && HashOf(env, s[k]) == HashOf(env, s[i]);
      j := FirstHashed(env, s, k);
    }
  }

  /**
    Every row reaches, through at most three strictly earlier repeats, a row that still
    stands or that was already flagged before detection began.
   */
  lemma EveryRowHasASurvivor(env: DupEnv, s: seq<Transaction>, i: nat) returns (c: seq<nat>)
    requires i < |s|
    ensures IsChain(env, s, c) && c[0] == i && |c| <= 4 && Settled(env, s, c[|c| - 1])
  {
    RowThroughPasses(env, s, i);
    if s[i].dupFlag {
      c := [i];
    } else if !After1(env, s)[i].dupFlag {
      c := ChainPass2(env, s, i);
    } else {
      var j := FirstHashed(env, s, i);
      RowThroughPasses(env, s, j);
      if s[j].dupFlag {
        c := [j];
      } else {
        c := ChainPass2(env, s, j);
      }
      ExtendChain(env, s, i, c);
      c := [i] + c;
    }
  }

  /** As after "Reset Dedupe", which clears every flag first. */
  ghost predicate Cleared(s: seq<Transaction>) {
    forall i :: 0 <= i < |s| ==> !s[i].dupFlag
  }

  /**
    From cleared flags no cluster of duplicates is wiped out: every flagged row leads to an earlier
    row left standing.
   */
  lemma NoClusterWipedOut(env: DupEnv, s: seq<Transaction>, i: nat) returns (c: seq<nat>)
    requires Cleared(s) && i < |s|
    ensures IsChain(env, s, c) && c[0] == i && |c| <= 4 && !Detect(env, s)[c[|c| - 1]].dupFlag
  {
    c := EveryRowHasASurvivor(env, s, i);
  }

  // ---- From any flags ----

  /** A row that is flagged beforehand although no earlier row repeats it. */
  ghost predicate StaleAt(env: DupEnv, s: seq<Transaction>, i: nat)
    requires i < |s|
  {
    !Exempt(s[i]) && s[i].dupFlag && !(exists j: nat :: j < i && Repeats(env, s[j], s[i]))
  }

  /** Row `i` leads through earlier repeats to a row left standing. */
  ghost predicate LeadsToStanding(env: DupEnv, s: seq<Transaction>, i: nat) {
    exists c :: ChainToStanding(env, s, c) && c[0] == i
  }

  ghost predicate ChainToStanding(env: DupEnv, s: seq<Transaction>, c: seq<nat>) {
    IsChain(env, s, c) && !Detect(env, s)[c[|c| - 1]].dupFlag
  }

  /** Two chains that meet are one chain. */
  lemma GlueChains(env: DupEnv, s: seq<Transaction>, c: seq<nat>, d: seq<nat>)
    requires IsChain(env, s, c) && IsChain(env, s, d)
    requires d[0] < c[|c| - 1] && Repeats(env, s[d[0]], s[c[|c| - 1]])
    ensures IsChain(env, s, c + d) && (c + d)[0] == c[0]
  {
    var e := c + d;
    forall k | 0 <= k < |e| - 1 ensures e[k + 1] < e[k] && Repeats(env, s[e[k + 1]], s[e[k]]) {
      if k >= |c| { assert e[k] == d[k - |c|] && e[k + 1] == d[k + 1 - |c|]; }
    }
  }

  lemma ChainKeepsExempt(env: DupEnv, s: seq<Transaction>, c: seq<nat>)
    requires IsChain(env, s, c) && !Exempt(s[c[0]])
    ensures !Exempt(s[c[|c| - 1]]) && c[|c| - 1] <= c[0]
  {
    var k := |c| - 1;
    if k > 0 {
      assert Repeats(env, s[c[k]], s[c[k - 1]]);
      LastIsLeast(env, s, c);
    }
  }

  lemma {:induction false} LastIsLeast(env: DupEnv, s: seq<Transaction>, c: seq<nat>)
    requires IsChain(env, s, c)
    ensures c[|c| - 1] <= c[0]
    decreases |c|
  {
    if |c| > 1 {
      var tail := c[1..];
      forall k | 0 <= k < |tail| - 1 ensures tail[k + 1] < tail[k] && Repeats(env, s[tail[k + 1]], s[tail[k]]) {
        var m := k + 1;
        assert tail[k] == c[m] && tail[k + 1] == c[m + 1];
      }
      LastIsLeast(env, s, tail);
    }
  }

  lemma {:induction false} FreshRowsLeadOn(env: DupEnv, s: seq<Transaction>, i: nat)
    requires i < |s| && !Exempt(s[i])
    requires forall k: nat :: k < |s| ==> !StaleAt(env, s, k)
    ensures LeadsToStanding(env, s, i)
    decreases i
  {
    var c := EveryRowHasASurvivor(env, s, i);
    var l := c[|c| - 1];
    if Detect(env, s)[l].dupFlag {
      ChainKeepsExempt(env, s, c);
      assert !StaleAt(env, s, l);
      var j: nat :| j < l && Repeats(env, s[j], s[l]);
      FreshRowsLeadOn(env, s, j);
      var d :| ChainToStanding(env, s, d) && d[0] == j;
      GlueChains(env, s, c, d);
      assert ChainToStanding(env, s, c + d) && (c + d)[0] == i;
    } else {
      assert ChainToStanding(env, s, c);
    }
  }

  lemma StaleRowLeadsNowhere(env: DupEnv, s: seq<Transaction>, i: nat)
    requires i < |s| && StaleAt(env, s, i)
    ensures !LeadsToStanding(env, s, i)
  {
    RowThroughPasses(env, s, i);
    forall c | IsChain(env, s, c) && c[0] == i ensures |c| == 1 {
      LongChainRepeats(env, s, c);
    }
  }

  lemma LongChainRepeats(env: DupEnv, s: seq<Transaction>, c: seq<nat>)
    requires IsChain(env, s, c)
    ensures |c| > 1 ==> exists j: nat :: j < c[0] && Repeats(env, s[j], s[c[0]])
  {
    assert |c| > 1 ==> c[1] < c[0] && Repeats(env, s[c[1]], s[c[0]]);
  }

  /**
    From any starting flags, every eligible row leads through earlier repeats to a row left
    standing if and only if no eligible row is flagged beforehand without an earlier row that it
    repeats; a row that is leads nowhere, whatever becomes of the later rows that repeat it.
   */
  lemma EveryRowLeadsToStandingIff(env: DupEnv, s: seq<Transaction>)
    ensures (forall i: nat :: i < |s| && !Exempt(s[i]) ==> LeadsToStanding(env, s, i))
      <==> forall i: nat :: i < |s| ==> !StaleAt(env, s, i)
  {
    if forall i: nat :: i < |s| ==> !StaleAt(env, s, i) {
      forall i: nat | i < |s| && !Exempt(s[i]) ensures LeadsToStanding(env, s, i) {
        FreshRowsLeadOn(env, s, i);
      }
    } else {
      var i: nat :| i < |s| && StaleAt(env, s, i);
      StaleRowLeadsNowhere(env, s, i);
    }
  }

  // ---- Clusters ----

  /** Eligible rows together with everything that repeats one of them or that one of them repeats. */
  ghost predicate IsCluster(env: DupEnv, s: seq<Transaction>, c: set<nat>) {
    && (forall i :: i in c ==> i < |s| && !Exempt(s[i]))
    && forall i, j: nat :: i in c && j < |s| && (Repeats(env, s[i], s[j]) || Repeats(env, s[j], s[i])) ==> j in c
  }

  /** The row is unflagged beforehand and the first with its fingerprint. */
  ghost predicate FirstOfItsPrint(env: DupEnv, s: seq<Transaction>, i: nat)
    requires i < |s|
  {
    !s[i].dupFlag && forall j: nat :: j < i && !Exempt(s[j]) ==> HashOf(env, s[j]) != HashOf(env, s[i])
  }

  lemma {:induction false} ChainStaysInside(env: DupEnv, s: seq<Transaction>, c: set<nat>, chain: seq<nat>, k: nat)
    requires IsCluster(env, s, c) && IsChain(env, s, chain) && chain[0] in c && k < |chain|
    ensures chain[k] in c
  {
    if k > 0 {
      ChainStaysInside(env, s, c, chain, k - 1);
      assert Repeats(env, s[chain[k]], s[chain[k - 1]]);
    }
  }

  /**
    Exactly when a cluster is not wiped out, from any starting flags: some row of it is left
    standing if and only if some row of it is unflagged beforehand and the first of its fingerprint.
   */
  lemma ClusterKeepsARowIff(env: DupEnv, s: seq<Transaction>, c: set<nat>)
    requires IsCluster(env, s, c)
    ensures (exists i :: i in c && !Detect(env, s)[i].dupFlag) <==> exists i :: i in c && FirstOfItsPrint(env, s, i)
  {
    if i :| i in c && !Detect(env, s)[i].dupFlag {
      RowThroughPasses(env, s, i);
      assert FirstOfItsPrint(env, s, i);
    }
    if i :| i in c && FirstOfItsPrint(env, s, i) {
      RowThroughPasses(env, s, i);
      var chain := ChainPass2(env, s, i);
      ChainStaysInside(env, s, c, chain, |chain| - 1);
    }
  }

  /** A row that repeats no earlier row stands exactly when it is not flagged beforehand. */
  lemma UnrepeatingRowStandsIff(env: DupEnv, s: seq<Transaction>, i: nat)
    requires i < |s| && !(exists j: nat :: j < i && Repeats(env, s[j], s[i]))
    ensures !Detect(env, s)[i].dupFlag <==> !s[i].dupFlag
  {
    RowThroughPasses(env, s, i);
    var c := EveryRowHasASurvivor(env, s, i);
    LongChainRepeats(env, s, c);
  }

  /** A cluster whose first row is not flagged beforehand keeps that row. */
  lemma ClusterKeepsItsFirst(env: DupEnv, s: seq<Transaction>, c: set<nat>, i: nat)
    requires IsCluster(env, s, c) && i in c && (forall j :: j in c ==> i <= j) && !s[i].dupFlag
    ensures !Detect(env, s)[i].dupFlag
  {
    assert forall j: nat :: j < i && Repeats(env, s[j], s[i]) ==> j in c;
    UnrepeatingRowStandsIff(env, s, i);
  }

  /** A stale flag need not cost the whole cluster: the third row repeats only the second, which falls. */
  lemma StaleFlagCanSpareCluster(env: DupEnv, x: Transaction, y: Transaction, z: Transaction)
    requires !Exempt(x) && !Exempt(y) && !Exempt(z) && x.dupFlag && !y.dupFlag && !z.dupFlag
    requires HashOf(env, x) == HashOf(env, y) != HashOf(env, z) && SameReference(y, z)
    ensures var d := Detect(env, [x, y, z]); d[0].dupFlag && d[1].dupFlag && !d[2].dupFlag
    ensures StaleAt(env, [x, y, z], 0)
  {
    var s := [x, y, z];
    RowThroughPasses(env, s, 0);
    RowThroughPasses(env, s, 1);
    assert !Exempt(s[0]) && HashOf(env, s[0]) == HashOf(env, s[1]);
    assert Hit1(env, s, 1);
    assert FirstOfItsPrint(env, s, 2);
    RowThroughPasses(env, s, 2);
    var chain := ChainPass2(env, s, 2);
    StandingEnd(env, s, chain);
  }

  lemma StandingEnd(env: DupEnv, s: seq<Transaction>, c: seq<nat>)
    requires ChainToStanding(env, s, c) && c[0] == 2 < |s|
    requires Detect(env, s)[0].dupFlag && Detect(env, s)[1].dupFlag
    ensures !Detect(env, s)[2].dupFlag
  {
    LastIsLeast(env, s, c);
  }

  /** Without clearing, a stale flag on the first of two identical rows costs both. */
  lemma StaleFlagWipesCluster(env: DupEnv, t: Transaction)
    requires !Exempt(t) && !t.dupFlag
    ensures forall i :: 0 <= i < 2 ==> Detect(env, [Mark(t), t])[i].dupFlag
  {
    var s := [Mark(t), t];
    RowThroughPasses(env, s, 0);
    RowThroughPasses(env, s, 1);
    MarkKeeps(env, t);
    assert !Exempt(s[0]) && HashOf(env, s[0]) == HashOf(env, s[1]);
    assert Hit1(env, s, 1);
  }

  // ---- Running it again ----

  lemma Pass1Again(env: DupEnv, s: seq<Transaction>)
    ensures Pass1(env, Detect(env, s)) == Detect(env, s)
  {
    var r := Detect(env, s);
    forall i | 0 <= i < |s| ensures MarkIf(r[i], Hit1(env, r, i)) == r[i] {
      if Hit1(env, r, i) {
        var j: nat :| j < i && !Exempt(r[j]) && HashOf(env, r[j]) == HashOf(env, r[i]);
        RowThroughPasses(env, s, i);
        RowThroughPasses(env, s, j);
        KeysThroughPasses(env, s, i);
        KeysThroughPasses(env, s, j);
        assert Hit1(env, s, i);
        assert After1(env, s)[i] == Mark(s[i]);
        MarkKeeps(env, s[i]);
      }
    }
  }

  /** Detection is stable: from any starting flags, a second run changes nothing. */
  lemma DetectAgain(env: DupEnv, s: seq<Transaction>)
    ensures Detect(env, Detect(env, s)) == Detect(env, s)
  {
    var r := Detect(env, s);
    Pass1Again(env, s);
    forall i | 0 <= i < |s| ensures !Hit2(r, i) {
      if Hit2(r, i) {
        var j: nat :| j < i && Keyed(r[j]) && RefKeyOf(r[j]) == RefKeyOf(r[i]);
        NotRepeated(env, s, j, i);
      }
    }
    assert Pass2(r) == r;
    forall i | 0 <= i < |s| ensures !Hit3(env, r, i) {
      if Hit3(env, r, i) {
        var j: nat :| j < i && SameBucket(r[j], r[i]) && Similar(env, r[j], r[i]) && !Hit3(env, r, j);
        NotRepeated(env, s, j, i);
      }
    }
    assert Pass3(env, r) == r;
  }

  lemma NotRepeated(env: DupEnv, s: seq<Transaction>, j: nat, i: nat)
    requires j < i < |s|
    ensures !(Keyed(Detect(env, s)[j]) && Keyed(Detect(env, s)[i])
        && RefKeyOf(Detect(env, s)[j]) == RefKeyOf(Detect(env, s)[i]))
    ensures !(SameBucket(Detect(env, s)[j], Detect(env, s)[i]) && Similar(env, Detect(env, s)[j], Detect(env, s)[i]))
  {
    RowThroughPasses(env, s, i);
    RowThroughPasses(env, s, j);
    KeysThroughPasses(env, s, i);
    KeysThroughPasses(env, s, j);
    if !Detect(env, s)[j].dupFlag && !Detect(env, s)[i].dupFlag {
      SurvivorsDoNotRepeat(env, s, j, i);
    }
  }

  // ---- Exempt rows have no influence ----

  ghost function Without(s: seq<Transaction>, k: nat): seq<Transaction>
    requires k < |s|
  {
    s[..k] + s[k + 1..]
  }

  /** Position in the full list of a position in the shortened one. */
  ghost function Shift(k: nat, i: nat): nat {
    if i < k then i else i + 1
  }

  lemma WithoutAt(s: seq<Transaction>, k: nat, i: nat)
    requires k < |s| && i < |s| - 1
    ensures Without(s, k)[i] == s[Shift(k, i)]
  {
  }

  lemma UnshiftOf(s: seq<Transaction>, k: nat, j: nat) returns (i: nat)
    requires k < |s| && j < |s| && j != k
    ensures i < |s| - 1 && Shift(k, i) == j
  {
    i := if j < k then j else j - 1;
  }

  lemma Hit1Without(env: DupEnv, s: seq<Transaction>, k: nat, i: nat)
    requires k < |s| && Exempt(s[k]) && i < |s| - 1
    ensures Hit1(env, Without(s, k), i) <==> Hit1(env, s, Shift(k, i))
  {
    var d, x := Without(s, k), Shift(k, i);
    WithoutAt(s, k, i);
    if Hit1(env, d, i) {
      var j: nat :| j < i && !Exempt(d[j]) && HashOf(env, d[j]) == HashOf(env, d[i]);
      WithoutAt(s, k, j);
      assert Shift(k, j) < x;
    }
    if Hit1(env, s, x) {
      var y: nat :| y < x && !Exempt(s[y]) && HashOf(env, s[y]) == HashOf(env, s[x]);
      var j := UnshiftOf(s, k, y);
      WithoutAt(s, k, j);
    }
  }

  lemma Hit2Without(s: seq<Transaction>, k: nat, i: nat)
    requires k < |s| && Exempt(s[k]) && i < |s| - 1
    ensures Hit2(Without(s, k), i) <==> Hit2(s, Shift(k, i))
  {
    var d, x := Without(s, k), Shift(k, i);
    WithoutAt(s, k, i);
    if Hit2(d, i) {
      var j: nat :| j < i && Keyed(d[j]) && RefKeyOf(d[j]) == RefKeyOf(d[i]);
      WithoutAt(s, k, j);
      assert Shift(k, j) < x;
    }
    if Hit2(s, x) {
      var y: nat :| y < x && Keyed(s[y]) && RefKeyOf(s[y]) == RefKeyOf(s[x]);
      var j := UnshiftOf(s, k, y);
      WithoutAt(s, k, j);
    }
  }

  lemma {:induction false} Hit3Without(env: DupEnv, s: seq<Transaction>, k: nat, i: nat)
    requires k < |s| && Exempt(s[k]) && i < |s| - 1
    ensures Hit3(env, Without(s, k), i) <==> Hit3(env, s, Shift(k, i))
    decreases i
  {
    var d, x := Without(s, k), Shift(k, i);
    WithoutAt(s, k, i);
    if Hit3(env, d, i) {
      var j: nat :| j < i && SameBucket(d[j], d[i]) && Similar(env, d[j], d[i]) && !Hit3(env, d, j);
      WithoutAt(s, k, j);
      Hit3Without(env, s, k, j);
      assert Shift(k, j) < x;
    }
    if Hit3(env, s, x) {
      var y: nat :| y < x && SameBucket(s[y], s[x]) && Similar(env, s[y], s[x]) && !Hit3(env, s, y);
      var j := UnshiftOf(s, k, y);
      WithoutAt(s, k, j);
      Hit3Without(env, s, k, j);
    }
  }

  lemma PassesWithout(env: DupEnv, s: seq<Transaction>, k: nat)
    requires k < |s| && Exempt(s[k])
    ensures Pass1(env, Without(s, k)) == Without(Pass1(env, s), k) && Pass1(env, s)[k] == s[k]
    ensures Pass2(Without(s, k)) == Without(Pass2(s), k) && Pass2(s)[k] == s[k]
    ensures Pass3(env, Without(s, k)) == Without(Pass3(env, s), k) && Pass3(env, s)[k] == s[k]
  {
    forall i: nat | i < |s| - 1
      ensures Pass1(env, Without(s, k))[i] == Without(Pass1(env, s), k)[i]
      ensures Pass2(Without(s, k))[i] == Without(Pass2(s), k)[i]
      ensures Pass3(env, Without(s, k))[i] == Without(Pass3(env, s), k)[i]
    {
      WithoutAt(s, k, i);
      WithoutAt(Pass1(env, s), k, i);
      WithoutAt(Pass2(s), k, i);
      WithoutAt(Pass3(env, s), k, i);
      Hit1Without(env, s, k, i);
      Hit2Without(s, k, i);
      Hit3Without(env, s, k, i);
    }
  }

  /** Dropping one exempt row before detection is dropping it afterwards. */
  lemma DetectWithout(env: DupEnv, s: seq<Transaction>, k: nat)
    requires k < |s| && Exempt(s[k])
    ensures Detect(env, Without(s, k)) == Without(Detect(env, s), k)
    ensures Detect(env, s)[k] == s[k]
  {
    PassesWithout(env, s, k);
    PassesWithout(env, Pass1(env, s), k);
    PassesWithout(env, Pass2(Pass1(env, s)), k);
  }

  function DropExempt(s: seq<Transaction>): seq<Transaction> {
    if s == [] then []
    else DropExempt(s[..|s| - 1]) + (if Exempt(s[|s| - 1]) then [] else [s[|s| - 1]])
  }

  lemma {:induction false} DropExemptWithout(s: seq<Transaction>, k: nat)
    requires k < |s| && Exempt(s[k])
    ensures DropExempt(Without(s, k)) == DropExempt(s)
  {
    var w := Without(s, k);
    if k == |s| - 1 {
      assert w == s[..k];
    } else {
      DropExemptWithout(s[..|s| - 1], k);
      assert w[..|w| - 1] == Without(s[..|s| - 1], k);
      assert w[|w| - 1] == s[|s| - 1];
    }
  }

  lemma {:induction false} NothingToDrop(s: seq<Transaction>)
    requires forall i :: 0 <= i < |s| ==> !Exempt(s[i])
    ensures DropExempt(s) == s
  {
    if s != [] {
      NothingToDrop(s[..|s| - 1]);
      assert s == s[..|s| - 1] + [s[|s| - 1]];
    }
  }

  /** Deleting every manual and opening-balance row changes no flag on the rows that remain. */
  lemma {:induction false} ExemptRowsHaveNoInfluence(env: DupEnv, s: seq<Transaction>)
    ensures Detect(env, DropExempt(s)) == DropExempt(Detect(env, s))
    decreases |s|
  {
    if k: nat :| k < |s| && Exempt(s[k]) {
      DetectWithout(env, s, k);
      DropExemptWithout(s, k);
      DropExemptWithout(Detect(env, s), k);
      ExemptRowsHaveNoInfluence(env, Without(s, k));
    } else {
      NothingToDrop(s);
      forall i | 0 <= i < |s| ensures !Exempt(Detect(env, s)[i]) {
        RowThroughPasses(env, s, i);
      }
      NothingToDrop(Detect(env, s));
    }
  }
}
