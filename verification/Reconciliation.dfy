/**
  Bank-versus-Tally reconciliation: the tiered scorer, the status tiers, and the matcher
  that scores every pair, sorts stably and assigns greedily.
 */
module Reconciliation {
  import opened Text
  import opened Lists
  import opened GreedyMatching
  import opened Matcher

  /** Amounts are in paise. */
  datatype BankEntry = BankEntry(date: string, amount: int, narration: string, reference: string)
  datatype Voucher = Voucher(date: string, amount: int, narration: string, voucherNo: string)

  datatype MatchStatus = Matched | Likely | Possible | Unmatched

  /** Percentages and similarities are exact; the two score thresholds are in hundredths. */
  datatype ReconConfig = ReconConfig(
    dateFuzzyDays: int, amountFuzzyPct: real, narrSimilarityMin: real,
    autoAcceptAbove: real, flagBelowConfidence: real)

  function NewConfig(dateFuzzyDays: int, amountFuzzyPct: real): ReconConfig {
    ReconConfig(dateFuzzyDays, amountFuzzyPct, 0.55, 90.0, 40.0)
  }

  /**
    What the matcher borrows from elsewhere: Unicode upper-casing, and a date's timestamp in
    milliseconds when it parses.
   */
  datatype TextEnv = TextEnv(upper: string -> string, timestamp: string -> Option<int>)

  // ---- Narration similarity ----

  function Tokenize(env: TextEnv, s: string): set<string> {
    set w | w in Words(env.upper(s), []) && |w| >= 4
  }

  function Jaccard(a: set<string>, b: set<string>): real {
    if a == {} || b == {} then 0.0
    else
      UnionSize(a, b);
      |a * b| as real / (|a| + |b| - |a * b|) as real
  }

  function NarrSimilarity(env: TextEnv, a: string, b: string): real {
    Jaccard(Tokenize(env, a), Tokenize(env, b))
  }

  lemma UnionSize(a: set<string>, b: set<string>)
    ensures |a| + |b| - |a * b| == |a + b|
    ensures a != {} ==> |a + b| > 0
  {
    assert a != {} ==> a <= a + b && a + b != {};
  }

  lemma SubsetSize(a: set<string>, b: set<string>)
    requires a <= b
    ensures |a| <= |b|
    ensures |a| == |b| ==> a == b
  {
    assert b == a + (b - a);
  }

  /**
    Similarity is symmetric, between 0 and 1, positive exactly when a token is shared, and 1 exactly
    for equal non-empty token sets.
   */
  lemma SimilarityMeaning(env: TextEnv, x: string, y: string)
    ensures NarrSimilarity(env, x, y) == NarrSimilarity(env, y, x)
    ensures 0.0 <= NarrSimilarity(env, x, y) <= 1.0
    ensures NarrSimilarity(env, x, y) > 0.0 <==> Tokenize(env, x) * Tokenize(env, y) != {}
    ensures NarrSimilarity(env, x, y) == 1.0 <==> Tokenize(env, x) == Tokenize(env, y) != {}
  {
    var a, b := Tokenize(env, x), Tokenize(env, y);
    assert a * b == b * a;
    if a != {} && b != {} {
      UnionSize(a, b);
      SubsetSize(a * b, a + b);
      var i, u := |a * b|, |a + b|;
      assert 0 <= i <= u && u > 0;
      RatioRange(i, u);
      assert i == u ==> a == a * b == b;
      assert a == b ==> a * b == a + b;
      assert i > 0 <==> a * b != {};
    }
  }

  lemma RatioRange(i: nat, u: nat)
    requires i <= u && u > 0
    ensures 0.0 <= i as real / u as real <= 1.0
    ensures i as real / u as real > 0.0 <==> i > 0
    ensures i as real / u as real == 1.0 <==> i == u
  {
    QuotientRange(i as real, u as real, i as real / u as real);
  }

  lemma QuotientRange(a: real, b: real, q: real)
    requires 0.0 <= a <= b && b > 0.0 && q * b == a
    ensures 0.0 <= q <= 1.0
    ensures q > 0.0 <==> a > 0.0
    ensures q == 1.0 <==> a == b
  {
    var below := 1.0 - q;
    SignOfProduct(q, b);
    SignOfProduct(below, b);
    assert below * b == 1.0 * b - q * b;
    assert below * b == b - a;
  }

  lemma SignOfProduct(x: real, y: real)
    requires y > 0.0
    ensures x * y > 0.0 <==> x > 0.0
    ensures x * y < 0.0 <==> x < 0.0
  {
  }

  /**
    A positive similarity is witnessed in the text: one run of four or more letters or digits
    occurs, whole, in both narrations.
   */
  lemma SimilarTextsShareARun(env: TextEnv, x: string, y: string) returns (w: string)
    requires NarrSimilarity(env, x, y) > 0.0
    ensures |w| >= 4 && IsRun(env.upper(x), w) && IsRun(env.upper(y), w)
  {
    SimilarityMeaning(env, x, y);
    w :| w in Tokenize(env, x) * Tokenize(env, y);
    WordsAreRuns(env.upper(x), [], w);
    WordsAreRuns(env.upper(y), [], w);
    assert [] + env.upper(x) == env.upper(x);
    assert [] + env.upper(y) == env.upper(y);
  }

  // ---- Scoring ----

  function Abs(x: int): int { if x < 0 then -x else x }
  function Max(x: int, y: int): int { if x < y then y else x }

  predicate AmountMatch(a: int, b: int, fuzzPct: real) {
    var x, y := Abs(a), Abs(b);
    if x == 0 && y == 0 then true
    else if x == 0 || y == 0 then false
    else Abs(x - y) as real <= Max(x, y) as real * (fuzzPct / 100.0)
  }

  function DaysDiff(env: TextEnv, a: string, b: string): Option<real> {
    match (env.timestamp(a), env.timestamp(b))
    case (Some(x), Some(y)) => Some(Abs(x - y) as real / 86400000.0)
    case _ => None
  }

  /** Everything the score depends on. */
  datatype Features = Features(bankAmount: int, voucherAmount: int, days: Option<real>, similarity: real,
      sameReference: bool)

  function FeaturesOf(env: TextEnv, b: BankEntry, v: Voucher): Features {
    var bref, vref := Trim(b.reference), Trim(v.voucherNo);
    Features(b.amount, v.amount, DaysDiff(env, b.date, v.date),
             NarrSimilarity(env, b.narration, v.narration), bref != [] && vref != [] && bref == vref)
  }

  function AmountPoints(f: Features, cfg: ReconConfig): int {
    if AmountMatch(f.bankAmount, f.voucherAmount, 0.0) then 40
    else if AmountMatch(f.bankAmount, f.voucherAmount, cfg.amountFuzzyPct) then 30
    else 10
  }

  /** No points means the pair is rejected. */
  function DatePoints(days: real, cfg: ReconConfig): Option<int> {
    if days == 0.0 then Some(40)
    else if days <= 1.0 then Some(30)
    else if days <= cfg.dateFuzzyDays as real then Some(20)
    else if days <= (cfg.dateFuzzyDays * 2) as real then Some(5)
    else None
  }

  function NarrationPoints(similarity: real, cfg: ReconConfig): real {
    if similarity >= 0.80 then 20.0
    else if similarity >= cfg.narrSimilarityMin then similarity * 15.0
    else 0.0
  }

  /** Rounding half away from zero, on non-negative values. */
  function Round(x: real): int { (x + 0.5).Floor }

  function ScoreFeatures(f: Features, cfg: ReconConfig): int {
    if !AmountMatch(f.bankAmount, f.voucherAmount, cfg.amountFuzzyPct * 2.0) || f.days.None? then 0
    else
      match DatePoints(f.days.value, cfg)
      case None => 0
      case Some(d) =>
        var raw := (AmountPoints(f, cfg) + d) as real + NarrationPoints(f.similarity, cfg) +
            (if f.sameReference then 20.0 else 0.0);
        Round(if raw < 100.0 then raw else 100.0)
  }

  /** The score of a pair, in hundredths. */
  function ScoreMatch(env: TextEnv, b: BankEntry, v: Voucher, cfg: ReconConfig): int {
    ScoreFeatures(FeaturesOf(env, b, v), cfg)
  }

  function StatusFromScore(score: int, cfg: ReconConfig): MatchStatus {
    if score as real >= cfg.autoAcceptAbove then Matched
    else if score as real >= cfg.flagBelowConfidence then Likely
    else if score > 0 then Possible
    else Unmatched
  }

  /** Scores are whole hundredths from 0 to 100, and a pair that is not rejected outright scores at least 15. */
  lemma ScoreRange(f: Features, cfg: ReconConfig)
    requires f.similarity >= 0.0
    ensures ScoreFeatures(f, cfg) == 0 || 15 <= ScoreFeatures(f, cfg) <= 100
    ensures ScoreFeatures(f, cfg) > 0 <==>
      && AmountMatch(f.bankAmount, f.voucherAmount, cfg.amountFuzzyPct * 2.0)
      && f.days.Some? && DatePoints(f.days.value, cfg).Some?
  {
  }

  /** A wider day gap never raises the score. */
  lemma ScoreFallsWithDays(f: Features, later: real, cfg: ReconConfig)
    requires f.days.Some? && 0.0 <= f.days.value <= later && f.similarity >= 0.0
    ensures ScoreFeatures(f.(days := Some(later)), cfg) <= ScoreFeatures(f, cfg)
  {
    var g := f.(days := Some(later));
    assert AmountPoints(g, cfg) == AmountPoints(f, cfg);
    ScoreRange(f, cfg);
    ScoreRange(g, cfg);
  }

  /** A closer narration never lowers the score. */
  lemma ScoreRisesWithSimilarity(f: Features, closer: real, cfg: ReconConfig)
    requires 0.0 <= f.similarity <= closer <= 1.0
    ensures ScoreFeatures(f, cfg) <= ScoreFeatures(f.(similarity := closer), cfg)
  {
    var g := f.(similarity := closer);
    assert AmountPoints(g, cfg) == AmountPoints(f, cfg);
    assert NarrationPoints(f.similarity, cfg) <= NarrationPoints(closer, cfg);
  }

  /**
    Evidence beyond amount and date: equal non-blank references, or a run of four or more letters or
    digits in both narrations.
   */
  ghost predicate TextEvidence(env: TextEnv, b: BankEntry, v: Voucher) {
    || (Trim(b.reference) == Trim(v.voucherNo) != [])
    || exists w :: |w| >= 4 && IsRun(env.upper(b.narration), w) && IsRun(env.upper(v.narration), w)
  }

  /** Above a threshold of 80 hundredths a pair reaches Matched only on text evidence. */
  lemma MatchedNeedsTextEvidence(env: TextEnv, b: BankEntry, v: Voucher, cfg: ReconConfig)
    requires cfg.autoAcceptAbove > 80.0
    requires StatusFromScore(ScoreMatch(env, b, v, cfg), cfg) == Matched
    ensures TextEvidence(env, b, v)
  {
    var f := FeaturesOf(env, b, v);
    SimilarityMeaning(env, b.narration, v.narration);
    if !f.sameReference {
      assert f.similarity == 0.0 ==> NarrationPoints(f.similarity, cfg) == 0.0;
      var w := SimilarTextsShareARun(env, b.narration, v.narration);
    }
  }

  /** Any two equal amounts on one day, without any text, score exactly 80. */
  lemma BareEqualPairScores80(env: TextEnv, date: string, amount: int, cfg: ReconConfig)
    requires env.timestamp(date).Some? && env.upper("") == "" && amount > 0 && cfg.amountFuzzyPct >= 0.0
    ensures ScoreMatch(env, BankEntry(date, amount, "", ""), Voucher(date, amount, "", ""), cfg) == 80
    ensures !TextEvidence(env, BankEntry(date, amount, "", ""), Voucher(date, amount, "", ""))
  {
    var b, v := BankEntry(date, amount, "", ""), Voucher(date, amount, "", "");
    assert Tokenize(env, "") == {};
    assert NarrSimilarity(env, "", "") == 0.0;
    assert FeaturesOf(env, b, v) == Features(amount, amount, Some(0.0), 0.0, false);
    EqualAmountsMatch(amount, cfg.amountFuzzyPct * 2.0);
    EqualAmountsMatch(amount, 0.0);
  }

  lemma EqualAmountsMatch(amount: int, pct: real)
    requires amount > 0 && pct >= 0.0
    ensures AmountMatch(amount, amount, pct)
  {
    var x, y := amount as real, pct / 100.0;
    assert x * y >= 0.0;
  }

  /**
    Over rows and vouchers of positive amounts, the threshold above which Matched implies text
    evidence is exactly 80.
   */
  lemma EvidenceThresholdIsExact(env: TextEnv, date: string, cfg: ReconConfig)
    requires env.timestamp(date).Some? && env.upper("") == "" && cfg.amountFuzzyPct >= 0.0
    ensures cfg.autoAcceptAbove > 80.0 <==>
      forall b: BankEntry, v: Voucher ::
        (b.amount > 0 && v.amount > 0 && StatusFromScore(ScoreMatch(env, b, v, cfg), cfg) == Matched) ==>
        TextEvidence(env, b, v)
  {
    if cfg.autoAcceptAbove > 80.0 {
      forall b, v | StatusFromScore(ScoreMatch(env, b, v, cfg), cfg) == Matched ensures TextEvidence(env, b, v) {
        MatchedNeedsTextEvidence(env, b, v, cfg);
      }
    } else {
      BareEqualPairScores80(env, date, 100, cfg);
      var b, v := BankEntry(date, 100, "", ""), Voucher(date, 100, "", "");
      assert StatusFromScore(ScoreMatch(env, b, v, cfg), cfg) == Matched;
    }
  }

  // ---- Matching ----

  datatype MatchPair = MatchPair(bankIdx: nat, voucherIdx: nat, score: int, status: MatchStatus)

  datatype ReconReport = ReconReport(matches: seq<MatchPair>, unmatchedBank: seq<nat>, unmatchedVouchers: seq<nat>)

  /** The two ledgers and the settings of one reconciliation. */
  datatype Problem = Problem(env: TextEnv, bank: seq<BankEntry>, vouchers: seq<Voucher>, cfg: ReconConfig)

  function TableOf(q: Problem): Table {
    Table(|q.bank|, |q.vouchers|,
      (b: nat, v: nat) =>
        if b < |q.bank| && v < |q.vouchers| then ScoreMatch(q.env, q.bank[b], q.vouchers[v], q.cfg) else 0)
  }

  function Claim(p: Pair, cfg: ReconConfig): MatchPair {
    MatchPair(p.bank, p.voucher, p.score, StatusFromScore(p.score, cfg))
  }

  /** The matches of a report as plain pairs. */
  ghost function Pairs(r: ReconReport): seq<Pair> {
    seq(|r.matches|, i requires 0 <= i < |r.matches| =>
      Pair(r.matches[i].bankIdx, r.matches[i].voucherIdx, r.matches[i].score))
  }

  /** The report holds the greedy outcome of its score table, each match with the status of its score. */
  ghost predicate IsReport(q: Problem, r: ReconReport) {
    && IsOutcome(TableOf(q), Pairs(r), r.unmatchedBank, r.unmatchedVouchers)
    && forall i :: 0 <= i < |r.matches| ==> r.matches[i].status == StatusFromScore(r.matches[i].score, q.cfg)
  }

  method UnusedIndices(used: array<bool>) returns (xs: seq<nat>)
    ensures Increasing(xs)
    ensures forall k: nat :: k in xs <==> k < used.Length && !used[k]
  {
    xs := [];
    for i := 0 to used.Length
      invariant Increasing(xs)
      invariant forall k: nat :: k in xs <==> k < i && !used[k]
    {
      assert forall a :: 0 <= a < |xs| ==> xs[a] in xs;
      if !used[i] { xs := xs + [i]; }
    }
  }

  method Score(q: Problem) returns (candidates: seq<Pair>)
    ensures candidates == Candidates(TableOf(q), |q.bank|)
  {
    ghost var t := TableOf(q);
    candidates := [];
    for bi := 0 to |q.bank|
      invariant candidates == Candidates(t, bi)
    {
      ghost var before := candidates;
      assert before == before + RowCandidates(t, bi, 0);
      for vi := 0 to |q.vouchers|
        invariant candidates == before + RowCandidates(t, bi, vi)
      {
        var score := ScoreMatch(q.env, q.bank[bi], q.vouchers[vi], q.cfg);
        TableScores(q, bi, vi);
        NextCandidate(t, before, bi, vi);
        if score > 0 {
          candidates := candidates + [Pair(bi, vi, score)];
        }
      }
    }
  }

  ghost predicate ClaimsEach(matches: seq<MatchPair>, chosen: seq<Pair>, cfg: ReconConfig) {
    |matches| == |chosen| && forall i :: 0 <= i < |chosen| ==> matches[i] == Claim(chosen[i], cfg)
  }

  /** Gives each offered pair, best first, to its two sides while both are still free. */
  method Assign(offered: seq<Pair>, banks: nat, vouchers: nat, cfg: ReconConfig)
    returns (matches: seq<MatchPair>, freeBanks: seq<nat>, freeVouchers: seq<nat>)
    requires forall p :: p in offered ==> p.bank < banks && p.voucher < vouchers
    ensures ClaimsEach(matches, Greedy(offered), cfg)
    ensures ListsFreeBanks(freeBanks, Greedy(offered), banks)
        && ListsFreeVouchers(freeVouchers, Greedy(offered), vouchers)
  {
    var bankUsed := new bool[banks](_ => false);
    var voucherUsed := new bool[vouchers](_ => false);
    matches := [];
    ghost var chosen: seq<Pair> := [];
    for k := 0 to |offered|
      invariant chosen == Greedy(offered[..k])
      invariant ClaimsEach(matches, chosen, cfg)
      invariant forall b :: 0 <= b < banks ==> (bankUsed[b] <==> UsesBank(chosen, b))
      invariant forall v :: 0 <= v < vouchers ==> (voucherUsed[v] <==> UsesVoucher(chosen, v))
    {
      var c := offered[k];
      assert c in offered;
      assert offered[..k + 1][..k] == offered[..k];
      FreeMeansUnused(chosen, c);
      UsesAfterAppend(chosen, c);
      if !(bankUsed[c.bank] || voucherUsed[c.voucher]) {
        bankUsed[c.bank] := true;
        voucherUsed[c.voucher] := true;
        matches := matches + [Claim(c, cfg)];
        chosen := chosen + [c];
      }
    }
    assert offered[..|offered|] == offered;
    freeBanks := UnusedIndices(bankUsed);
    freeVouchers := UnusedIndices(voucherUsed);
  }

  /**
    Scores every pair, sorts best first, and assigns greedily. The matches are one-to-one and
    partition both sides, they are the only assignment without a missed pair, and they total at
    least half of any rival pairing.
   */
  method Reconcile(q: Problem) returns (r: ReconReport)
    ensures IsReport(q, r)
    ensures |r.matches| + |r.unmatchedBank| == |q.bank|
    ensures |r.matches| + |r.unmatchedVouchers| == |q.vouchers|
    ensures Assignment(TableOf(q), Elements(Pairs(r))) && NoMissedPair(TableOf(q), Elements(Pairs(r)))
  {
    var candidates := Score(q);
    var offered := StableSort(candidates);
    OfferedShape(TableOf(q));
    var matches, freeBanks, freeVouchers := Assign(offered, |q.bank|, |q.vouchers|, q.cfg);
    ghost var chosen := Greedy(offered);
    r := ReconReport(matches, freeBanks, freeVouchers);
    assert Pairs(r) == chosen;
    OutcomePartitions(TableOf(q), chosen, freeBanks, freeVouchers);
    UniqueOutcome(TableOf(q), Elements(chosen));
  }

  /** A report is determined by its problem: the assignment without a missed pair is unique. */
  lemma ReportIsTheOnlyStableOne(q: Problem, r: ReconReport, m: set<Pair>)
    requires IsReport(q, r)
    ensures Assignment(TableOf(q), m) && NoMissedPair(TableOf(q), m) <==> m == Elements(Pairs(r))
  {
    UniqueOutcome(TableOf(q), m);
  }

  /** No rival one-to-one pairing of rows and vouchers totals more than twice what the report totals. */
  lemma ReportHalfOptimal(q: Problem, r: ReconReport, rival: seq<Pair>)
    requires IsReport(q, r) && Rival(TableOf(q), rival)
    ensures Total(rival) <= 2 * Total(Pairs(r))
  {
    OutcomeHalfOptimal(TableOf(q), rival);
  }

  const DAY: int := 86400000

  /**
    One payment made three days running: bank rows on days 1 and 0, vouchers on days 1 and 2,
    everything else equal, no date tolerance.
   */
  function ThreeDays(env: TextEnv, days: (string, string, string), amount: int, text: string, reference: string,
      pct: real): Problem {
    Problem(env,
            [BankEntry(days.1, amount, text, reference), BankEntry(days.0, amount, text, reference)],
            [Voucher(days.1, amount, text, reference), Voucher(days.2, amount, text, reference)],
            NewConfig(0, pct))
  }

  /** Equal rows: the full score up to one day apart, none two days apart. */
  lemma EqualRowsScore(env: TextEnv, d: string, e: string, amount: int, text: string, reference: string, pct: real)
    requires amount > 0 && pct >= 0.0 && Tokenize(env, text) != {} && Trim(reference) != []
    requires env.timestamp(d).Some? && env.timestamp(e).Some?
    ensures var gap := Abs(env.timestamp(d).value - env.timestamp(e).value);
      var score := ScoreMatch(env, BankEntry(d, amount, text, reference), Voucher(e, amount, text, reference),
          NewConfig(0, pct));
      (gap == 0 || gap == DAY ==> score == 100) && (gap == 2 * DAY ==> score == 0)
  {
    SimilarityMeaning(env, text, text);
    EqualAmountsMatch(amount, pct * 2.0);
    EqualAmountsMatch(amount, 0.0);
  }

  predicate ConsecutiveDays(env: TextEnv, days: (string, string, string)) {
    && env.timestamp(days.0).Some?
    && env.timestamp(days.1) == Some(env.timestamp(days.0).value + DAY)
    && env.timestamp(days.2) == Some(env.timestamp(days.0).value + 2 * DAY)
  }

  lemma ThreeDaysIsTight(env: TextEnv, days: (string, string, string), amount: int, text: string, reference: string,
      pct: real)
    requires amount > 0 && pct >= 0.0 && Tokenize(env, text) != {} && Trim(reference) != []
        && ConsecutiveDays(env, days)
    ensures IsTight(TableOf(ThreeDays(env, days, amount, text, reference, pct)), 100)
  {
    var q := ThreeDays(env, days, amount, text, reference, pct);
    EqualRowsScore(env, days.1, days.1, amount, text, reference, pct);
    EqualRowsScore(env, days.1, days.2, amount, text, reference, pct);
    EqualRowsScore(env, days.0, days.1, amount, text, reference, pct);
    EqualRowsScore(env, days.0, days.2, amount, text, reference, pct);
    TableScores(q, 0, 0);
    TableScores(q, 0, 1);
    TableScores(q, 1, 0);
    TableScores(q, 1, 1);
  }

  /**
    The bound of two is attained by inputs of the program: for every such payment the report
    totals 100 and a rival pairing totals 200.
   */
  lemma ReportCanBeHalf(env: TextEnv, days: (string, string, string), amount: int, text: string, reference: string,
      pct: real, r: ReconReport)
    requires amount > 0 && pct >= 0.0 && Tokenize(env, text) != {} && Trim(reference) != []
        && ConsecutiveDays(env, days)
    requires IsReport(ThreeDays(env, days, amount, text, reference, pct), r)
    ensures Rival(TableOf(ThreeDays(env, days, amount, text, reference, pct)), [Pair(0, 1, 100), Pair(1, 0, 100)])
    ensures Total([Pair(0, 1, 100), Pair(1, 0, 100)]) == 200 && Total(Pairs(r)) == 100
  {
    ThreeDaysIsTight(env, days, amount, text, reference, pct);
    TightReport(ThreeDays(env, days, amount, text, reference, pct), 100, r);
  }

  lemma TightReport(q: Problem, s: nat, r: ReconReport)
    requires IsTight(TableOf(q), s) && IsReport(q, r)
    ensures Rival(TableOf(q), [Pair(0, 1, s), Pair(1, 0, s)])
    ensures Total([Pair(0, 1, s), Pair(1, 0, s)]) == 2 * s && Total(Pairs(r)) == s
  {
    FactorTwoIsTight(TableOf(q), s);
    TotalOfOne(Pair(0, 0, s));
  }

  lemma TotalOfOne(p: Pair)
    ensures Total([p]) == p.score
  {
    assert [p][1..] == [];
  }

  /**
    Every reported match carries its true score, at least 15 hundredths, never the tier Unmatched,
    and scores never rise down the list.
   */
  lemma ReportedMatch(q: Problem, r: ReconReport, i: nat)
    requires IsReport(q, r) && i < |r.matches|
    ensures r.matches[i].bankIdx < |q.bank| && r.matches[i].voucherIdx < |q.vouchers|
    ensures r.matches[i].score ==
        ScoreMatch(q.env, q.bank[r.matches[i].bankIdx], q.vouchers[r.matches[i].voucherIdx], q.cfg)
    ensures 15 <= r.matches[i].score <= 100
    ensures r.matches[i].status != Unmatched
    ensures i > 0 ==> r.matches[i - 1].score >= r.matches[i].score
  {
    var t := TableOf(q);
    var p := Pairs(r)[i];
    ChosenAreScored(t, i);
    TableScores(q, p.bank, p.voucher);
  }

  lemma TableScores(q: Problem, b: nat, v: nat)
    requires b < |q.bank| && v < |q.vouchers|
    ensures TableOf(q).score(b, v) == ScoreMatch(q.env, q.bank[b], q.vouchers[v], q.cfg)
    ensures TableOf(q).score(b, v) == 0 || 15 <= TableOf(q).score(b, v) <= 100
  {
    SimilarityMeaning(q.env, q.bank[b].narration, q.vouchers[v].narration);
    ScoreRange(FeaturesOf(q.env, q.bank[b], q.vouchers[v]), q.cfg);
  }
}
