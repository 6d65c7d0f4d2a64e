/** What the score of a bank row and a voucher says about their amounts, days, references and narrations. */
module ScoreLaws {
  import opened Text
  import opened Reconciliation

  // ---- Amounts ----

  lemma CloserAbove(bank: int, near: int, far: int, p: real)
    requires 0 < bank <= near <= far && p >= 0.0 && (far - bank) as real <= far as real * p
    ensures (near - bank) as real <= near as real * p
  {
    var b, n, f := bank as real, near as real, far as real;
    if p <= 1.0 {
      Scaled(n, f, 1.0 - p);
      assert n * (1.0 - p) == n - n * p && f * (1.0 - p) == f - f * p;
    } else {
      Scaled(1.0, p, n);
    }
  }

  lemma Scaled(x: real, y: real, k: real)
    requires x <= y && k >= 0.0
    ensures x * k <= y * k
  {
  }

  /** A tolerance that takes the farther amount takes the nearer one. */
  lemma NearerMatches(bank: int, near: int, far: int, pct: real)
    requires pct >= 0.0 && (0 < bank <= near <= far || 0 < far <= near <= bank)
    requires AmountMatch(bank, far, pct)
    ensures AmountMatch(bank, near, pct)
  {
    if bank <= near <= far { CloserAbove(bank, near, far, pct / 100.0); }
  }

  /** An amount closer to the bank's, on the same side of it, never scores lower. */
  lemma ScoreRisesWithCloserAmount(f: Features, near: int, cfg: ReconConfig)
    requires cfg.amountFuzzyPct >= 0.0 && f.similarity >= 0.0
    requires 0 < f.bankAmount <= near <= f.voucherAmount || 0 < f.voucherAmount <= near <= f.bankAmount
    ensures ScoreFeatures(f, cfg) <= ScoreFeatures(f.(voucherAmount := near), cfg)
  {
    var g := f.(voucherAmount := near);
    if AmountMatch(f.bankAmount, f.voucherAmount, cfg.amountFuzzyPct * 2.0) {
      NearerMatches(f.bankAmount, near, f.voucherAmount, cfg.amountFuzzyPct * 2.0);
      AmountPointsRise(f, near, cfg);
    } else {
      ScoreRange(g, cfg);
    }
  }

  lemma AmountPointsRise(f: Features, near: int, cfg: ReconConfig)
    requires cfg.amountFuzzyPct >= 0.0
    requires 0 < f.bankAmount <= near <= f.voucherAmount || 0 < f.voucherAmount <= near <= f.bankAmount
    ensures AmountPoints(f, cfg) <= AmountPoints(f.(voucherAmount := near), cfg)
  {
    if AmountMatch(f.bankAmount, f.voucherAmount, 0.0) {
      NearerMatches(f.bankAmount, near, f.voucherAmount, 0.0);
    } else if AmountMatch(f.bankAmount, f.voucherAmount, cfg.amountFuzzyPct) {
      NearerMatches(f.bankAmount, near, f.voucherAmount, cfg.amountFuzzyPct);
    }
  }

  /** Only the sizes of the amounts count, not their signs, and the two sides are treated alike. */
  lemma AmountsAreSizes(f: Features, cfg: ReconConfig)
    ensures ScoreFeatures(f.(bankAmount := -f.bankAmount), cfg) == ScoreFeatures(f, cfg)
    ensures ScoreFeatures(f.(bankAmount := f.voucherAmount, voucherAmount := f.bankAmount), cfg) ==
      ScoreFeatures(f, cfg)
  {
    MatchIsOfSizes(f.bankAmount, f.voucherAmount, cfg.amountFuzzyPct * 2.0);
    MatchIsOfSizes(f.bankAmount, f.voucherAmount, cfg.amountFuzzyPct);
    MatchIsOfSizes(f.bankAmount, f.voucherAmount, 0.0);
    var g, h := f.(bankAmount := -f.bankAmount), f.(bankAmount := f.voucherAmount, voucherAmount := f.bankAmount);
    assert AmountPoints(g, cfg) == AmountPoints(f, cfg) == AmountPoints(h, cfg);
  }

  lemma MatchIsOfSizes(a: int, b: int, pct: real)
    ensures AmountMatch(-a, b, pct) == AmountMatch(a, b, pct) == AmountMatch(b, a, pct)
  {
    assert Abs(-a) == Abs(a) && Max(Abs(a), Abs(b)) == Max(Abs(b), Abs(a));
    assert Abs(Abs(a) - Abs(b)) == Abs(Abs(b) - Abs(a));
  }

  // ---- References ----

  /** Equal references are worth exactly 20 hundredths, up to the full score, on a pair that is not rejected. */
  lemma ReferenceBonus(f: Features, cfg: ReconConfig)
    requires f.similarity >= 0.0
    ensures var without, with :=
      ScoreFeatures(f.(sameReference := false), cfg), ScoreFeatures(f.(sameReference := true), cfg);
      with == if without == 0 then 0 else if without + 20 < 100 then without + 20 else 100
  {
    ScoreRange(f.(sameReference := false), cfg);
  }

  /** In the rows' own fields: the bonus goes to equal trimmed references that are not blank. */
  lemma ReferenceBonusOfRows(env: TextEnv, b: BankEntry, v: Voucher, cfg: ReconConfig)
    ensures var without, with := ScoreMatch(env, b, v.(voucherNo := ""), cfg), ScoreMatch(env, b, v, cfg);
      with ==
      if Trim(b.reference) == Trim(v.voucherNo) != [] && without != 0
      then (if without + 20 < 100 then without + 20 else 100)
      else without
  {
    SimilarityMeaning(env, b.narration, v.narration);
    assert Trim("") == [];
    ReferenceBonus(FeaturesOf(env, b, v), cfg);
  }

  // ---- Narrations ----

  /** The tokens of a narration are exactly its runs of four or more letters and digits, upper-cased. */
  lemma TokensAreRuns(env: TextEnv, x: string, w: string)
    ensures w in Tokenize(env, x) <==> |w| >= 4 && IsRun(env.upper(x), w)
  {
    WordsAreRuns(env.upper(x), [], w);
    assert [] + env.upper(x) == env.upper(x);
  }

  /** Similarity is the share of the tokens of either narration that both have. */
  lemma SimilarityIsTheSharedPart(env: TextEnv, x: string, y: string)
    ensures var a, b := Tokenize(env, x), Tokenize(env, y);
      if a == {} || b == {} then NarrSimilarity(env, x, y) == 0.0
      else NarrSimilarity(env, x, y) * |a + b| as real == |a * b| as real
  {
    JaccardTimesUnion(Tokenize(env, x), Tokenize(env, y));
  }

  lemma JaccardTimesUnion(a: set<string>, b: set<string>)
    ensures a != {} && b != {} ==> Jaccard(a, b) * |a + b| as real == |a * b| as real
  {
    UnionSize(a, b);
    if a != {} && b != {} {
      var i, u := |a * b| as real, |a + b| as real;
      assert (|a| + |b| - |a * b|) as real == u;
      QuotientTimes(i, u);
    }
  }

  lemma QuotientTimes(i: real, u: real)
    requires u > 0.0
    ensures i / u * u == i
  {
  }

  /**
    Closeness of narrations is worth 20 hundredths from 0.8 on, 15 times itself from the minimum on,
    and nothing below it.
   */
  lemma NarrationBonus(f: Features, cfg: ReconConfig)
    requires 0.0 <= f.similarity <= 1.0 && !f.sameReference && ScoreFeatures(f.(similarity := 0.0), cfg) != 0
    requires cfg.narrSimilarityMin > 0.0
    ensures var without, with := ScoreFeatures(f.(similarity := 0.0), cfg), ScoreFeatures(f, cfg);
      && (f.similarity >= 0.8 ==> with == without + 20)
      && (cfg.narrSimilarityMin <= f.similarity < 0.8 ==> with == without + (f.similarity * 15.0 + 0.5).Floor)
      && (f.similarity < cfg.narrSimilarityMin && f.similarity < 0.8 ==> with == without)
  {
  }

  /** In the rows' own fields: what the two narrations add to the score of the pair with a blank one. */
  lemma NarrationBonusOfRows(env: TextEnv, b: BankEntry, v: Voucher, cfg: ReconConfig)
    requires Trim(v.voucherNo) == [] && cfg.narrSimilarityMin > 0.0
    requires NarrSimilarity(env, b.narration, "") == 0.0
    ensures var without, with := ScoreMatch(env, b, v.(narration := ""), cfg), ScoreMatch(env, b, v, cfg);
      var alike := NarrSimilarity(env, b.narration, v.narration);
      with - without ==
        if without == 0 then 0
        else if alike >= 0.8 then 20
        else if alike >= cfg.narrSimilarityMin then (alike * 15.0 + 0.5).Floor
        else 0
  {
    SimilarityMeaning(env, b.narration, v.narration);
    var f := FeaturesOf(env, b, v);
    ScoreRange(f, cfg);
    if ScoreFeatures(f.(similarity := 0.0), cfg) != 0 { NarrationBonus(f, cfg); }
  }

  // ---- Without texts ----

  /** The amounts differ by at most `pct` per cent of the larger one. */
  predicate WithinPercent(a: int, b: int, pct: real) {
    100.0 * Abs(a - b) as real <= pct * Max(a, b) as real
  }

  lemma WithinPercentIff(a: int, b: int, pct: real)
    requires a > 0 && b > 0
    ensures AmountMatch(a, b, pct) <==> WithinPercent(a, b, pct)
  {
    var d, m := Abs(a - b) as real, Max(a, b) as real;
    var q := pct / 100.0;
    assert q * 100.0 == pct;
    assert (m * q) * 100.0 == pct * m;
  }

  /**
    The score of two dated, positive amounts without any text, by the amounts' distance in per cent
    and the days' in milliseconds.
   */
  lemma BareScore(env: TextEnv, b: BankEntry, v: Voucher, cfg: ReconConfig)
    requires b.amount > 0 && v.amount > 0 && cfg.amountFuzzyPct >= 0.0
    requires NarrSimilarity(env, b.narration, v.narration) == 0.0 && Trim(v.voucherNo) == []
    requires env.timestamp(b.date).Some? && env.timestamp(v.date).Some? && cfg.narrSimilarityMin > 0.0
    ensures var gap := Abs(env.timestamp(b.date).value - env.timestamp(v.date).value);
      var day, score := 86400000, ScoreMatch(env, b, v, cfg);
      var amount :=
        if b.amount == v.amount then 40 else if WithinPercent(b.amount, v.amount, cfg.amountFuzzyPct) then 30 else 10;
      if !WithinPercent(b.amount, v.amount, 2.0 * cfg.amountFuzzyPct) then score == 0
      else if gap == 0 then score == amount + 40
      else if gap <= day then score == amount + 30
      else if gap <= cfg.dateFuzzyDays * day then score == amount + 20
      else if gap <= 2 * cfg.dateFuzzyDays * day then score == amount + 5
      else score == 0
  {
    WithinPercentIff(b.amount, v.amount, cfg.amountFuzzyPct * 2.0);
    WithinPercentIff(b.amount, v.amount, cfg.amountFuzzyPct);
    WithinPercentIff(b.amount, v.amount, 0.0);
  }

  /** An undated side rejects the pair. */
  lemma UndatedIsRejected(env: TextEnv, b: BankEntry, v: Voucher, cfg: ReconConfig)
    requires env.timestamp(b.date).None? || env.timestamp(v.date).None?
    ensures ScoreMatch(env, b, v, cfg) == 0
  {
  }

  // ---- Tiers ----

  function Rank(s: MatchStatus): nat {
    match s
    case Matched => 3
    case Likely => 2
    case Possible => 1
    case Unmatched => 0
  }

  /** A higher score never has a lower tier, when the thresholds are in order. */
  lemma TierRisesWithScore(x: int, y: int, cfg: ReconConfig)
    requires x <= y
    ensures Rank(StatusFromScore(x, cfg)) <= Rank(StatusFromScore(y, cfg))
  {
  }

  /**
    With the program's own thresholds: Matched from 90, Likely from 40, Possible below, Unmatched
    only without a score.
   */
  lemma DefaultTiers(score: nat, days: int, pct: real)
    ensures var s := StatusFromScore(score, NewConfig(days, pct));
      && (s == Matched <==> score >= 90) && (s == Likely <==> 40 <= score < 90)
      && (s == Possible <==> 0 < score < 40) && (s == Unmatched <==> score == 0)
  {
  }

  /** So in the program Matched always rests on texts. */
  lemma DefaultNeedsTextEvidence(env: TextEnv, b: BankEntry, v: Voucher, days: int, pct: real)
    requires StatusFromScore(ScoreMatch(env, b, v, NewConfig(days, pct)), NewConfig(days, pct)) == Matched
    ensures TextEvidence(env, b, v)
  {
    MatchedNeedsTextEvidence(env, b, v, NewConfig(days, pct));
  }

  /** With the program's own minimum a similarity counts from 0.55 on. */
  lemma DefaultNarrationBonus(f: Features, days: int, pct: real)
    requires 0.0 <= f.similarity <= 1.0 && !f.sameReference
    requires ScoreFeatures(f.(similarity := 0.0), NewConfig(days, pct)) != 0
    ensures var cfg := NewConfig(days, pct);
      var without, with := ScoreFeatures(f.(similarity := 0.0), cfg), ScoreFeatures(f, cfg);
      with - without ==
        if f.similarity >= 0.8 then 20 else if f.similarity >= 0.55 then (f.similarity * 15.0 + 0.5).Floor else 0
  {
    NarrationBonus(f, NewConfig(days, pct));
  }
}
