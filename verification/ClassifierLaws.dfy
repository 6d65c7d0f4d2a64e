/** Auto-classification in the rows' own fields: whose rows it leaves alone, and what it makes of the others. */
module ClassifierLaws {
  import opened Text
  import opened Transactions
  import opened Duplicates
  import opened DuplicateCauses
  import opened Classifier

  // ---- Rows left alone ----

  /** Decided by the user or by the AI, added by hand, parked, or certain; or no transaction at all. */
  predicate Settled(t: Transaction) {
    || t.isOpeningBalance
    || t.status in {Manual, Suspense}
    || t.source in {"user", "ai"}
    || (t.status == Classified && t.confidence >= 1.0)
  }

  /** The row is `t`, except that duplicate detection may have flagged it. */
  predicate SameOrMarked(after: Transaction, t: Transaction) {
    after == t || after == t.(dupFlag := true, tags := if "DUP" in t.tags then t.tags else t.tags + ["DUP"])
  }

  lemma SettledIsUntouchable(t: Transaction)
    ensures Settled(t) <==> !Touchable(t)
  {
  }

  lemma AllRowsGoThrough(eng: Engines, dup: DupEnv, cfg: Settings, dedup: bool, s: seq<Transaction>, i: nat)
    requires i < |s|
    ensures |ClassifyAll(eng, dup, cfg, dedup, s)| == |s|
    ensures SameOrMarked(ClassifyAll(eng, dup, cfg, dedup, s)[i], Auto(eng, cfg, s[i]))
  {
    if dedup { DetectionOnlyMarks(dup, AutoRows(eng, cfg, s), i); }
  }

  /** A run leaves every settled row as it is, up to the duplicate mark. */
  lemma SettledRowsAreKept(eng: Engines, dup: DupEnv, cfg: Settings, dedup: bool, s: seq<Transaction>, i: nat)
    requires i < |s| && Settled(s[i])
    ensures |ClassifyAll(eng, dup, cfg, dedup, s)| == |s|
    ensures SameOrMarked(ClassifyAll(eng, dup, cfg, dedup, s)[i], s[i])
  {
    SettledIsUntouchable(s[i]);
    AllRowsGoThrough(eng, dup, cfg, dedup, s, i);
  }

  /** A run classifies every other row, and leaves it with the source of a rule, of a keyword, or of none. */
  lemma OtherRowsAreReclassified(eng: Engines, dup: DupEnv, cfg: Settings, dedup: bool, s: seq<Transaction>, i: nat)
    requires i < |s| && !Settled(s[i])
    ensures |ClassifyAll(eng, dup, cfg, dedup, s)| == |s|
    ensures SameOrMarked(ClassifyAll(eng, dup, cfg, dedup, s)[i], Classify(eng, cfg, s[i]))
    ensures ClassifyAll(eng, dup, cfg, dedup, s)[i].source in {"rule", "keyword", ""}
  {
    SettledIsUntouchable(s[i]);
    AllRowsGoThrough(eng, dup, cfg, dedup, s, i);
  }

  /** What the user parked stays parked. */
  lemma SuspenseStays(eng: Engines, dup: DupEnv, cfg: Settings, dedup: bool, s: seq<Transaction>, i: nat)
    requires i < |s| && s[i].status == Suspense
    ensures |ClassifyAll(eng, dup, cfg, dedup, s)| == |s|
    ensures var after := ClassifyAll(eng, dup, cfg, dedup, s)[i];
      after.status == Suspense && after.vendor == s[i].vendor && after.accountHead == s[i].accountHead
  {
    SettledRowsAreKept(eng, dup, cfg, dedup, s, i);
  }

  // ---- What classification reads ----

  ghost predicate Occurs(p: string, s: string) {
    exists i, j :: 0 <= i <= j <= |s| && s[i..j] == p
  }

  lemma OccursIsContains(p: string, s: string)
    ensures Occurs(p, s) <==> Contains(s, p)
  {
    if Contains(s, p) {
      var i :| 0 <= i <= |s| && p <= s[i..];
      assert s[i..i + |p|] == s[i..][..|p|] == p;
    }
    if Occurs(p, s) {
      var i, j :| 0 <= i <= j <= |s| && s[i..j] == p;
      assert s[i..][..j - i] == p;
    }
  }

  /** Narration and, behind a blank, the reference when there is one. */
  function TextOf(t: Transaction): string {
    t.narration + if t.reference == "" then "" else " " + t.reference
  }

  /** The rule's pattern is not blank and its upper-case form occurs in the row's text. */
  ghost predicate Fits(eng: Engines, r: Rule, t: Transaction) {
    r.pattern != "" && Occurs(eng.upper(r.pattern), eng.upper(TextOf(t)))
  }

  /** `r` is the first stored rule that fits. */
  ghost predicate FirstFit(eng: Engines, cfg: Settings, t: Transaction, k: nat) {
    k < |cfg.rules| && Fits(eng, cfg.rules[k], t) && forall j :: 0 <= j < k ==> !Fits(eng, cfg.rules[j], t)
  }

  ghost predicate NoFit(eng: Engines, cfg: Settings, t: Transaction) {
    forall k :: 0 <= k < |cfg.rules| ==> !Fits(eng, cfg.rules[k], t)
  }

  lemma TextIsCombined(t: Transaction)
    ensures TextOf(t) == Combined(t)
  {
    assert t.narration + "" == t.narration;
  }

  lemma FitsIsApplies(eng: Engines, r: Rule, t: Transaction)
    ensures Fits(eng, r, t) <==> RuleApplies(eng, eng.upper(Combined(t)), r)
  {
    TextIsCombined(t);
    OccursIsContains(eng.upper(r.pattern), eng.upper(TextOf(t)));
  }

  lemma FirstFitDecides(eng: Engines, cfg: Settings, t: Transaction, k: nat)
    requires FirstFit(eng, cfg, t, k)
    ensures Decide(eng, cfg, t) == ByRule(cfg.rules[k])
  {
    forall j | 0 <= j < |cfg.rules|
      ensures Fits(eng, cfg.rules[j], t) <==> RuleApplies(eng, eng.upper(Combined(t)), cfg.rules[j])
    {
      FitsIsApplies(eng, cfg.rules[j], t);
    }
    FirstRuleWins(eng, eng.upper(Combined(t)), cfg.rules, k);
  }

  lemma NoFitDecides(eng: Engines, cfg: Settings, t: Transaction)
    requires NoFit(eng, cfg, t)
    ensures ApplyRules(eng, eng.upper(TextOf(t)), cfg.rules).None? && TextOf(t) == Combined(t)
  {
    TextIsCombined(t);
    forall j | 0 <= j < |cfg.rules| ensures !RuleApplies(eng, eng.upper(Combined(t)), cfg.rules[j]) {
      FitsIsApplies(eng, cfg.rules[j], t);
    }
    NoRuleNoMatch(eng, eng.upper(Combined(t)), cfg.rules);
  }

  // ---- What it makes of a row ----

  /** The type a rule's text names, or the row's own. */
  predicate TypeNamed(text: string, own: VoucherType, kind: VoucherType) {
    && (text == "Payment" ==> kind == Payment) && (text == "Receipt" ==> kind == Receipt)
    && (text == "Contra" ==> kind == Contra) && (text !in {"Payment", "Receipt", "Contra"} ==> kind == own)
  }

  /** A type that nothing names follows cash words first, and then the only side that has an amount. */
  function Inferred(eng: Engines, t: Transaction): VoucherType {
    if eng.looksLikeCash(eng.upper(TextOf(t))) then Contra
    else if t.credit.Some? && t.debit.None? then Receipt
    else if t.debit.Some? && t.credit.None? then Payment
    else Unknown
  }

  predicate TypeIs(eng: Engines, t: Transaction, named: VoucherType, kind: VoucherType) {
    kind == if named == Unknown then Inferred(eng, t) else named
  }

  /** A head that nothing names is filled by the analysis of the classified row only when both switches are on. */
  predicate HeadIs(eng: Engines, cfg: Settings, after: Transaction, named: string) {
    var g := eng.gst(after.narration, after.reference, after.vendor, after.debit, after.credit);
    after.accountHead ==
      if named != "" then named
      else if cfg.gstEnabled && cfg.gstAutoLedgers && g.Some? && g.value.expenseLedger.Some?
      then g.value.expenseLedger.value
      else ""
  }

  lemma InferredIs(eng: Engines, t: Transaction)
    ensures InferVoucherType(eng, t) == Inferred(eng, t)
  {
    TextIsCombined(t);
  }

  /**
    The first rule that fits names vendor, head and type where it is not blank, with more trust in a
    client's own rule.
   */
  lemma RuleOutcome(eng: Engines, cfg: Settings, t: Transaction, k: nat, named: VoucherType)
    requires FirstFit(eng, cfg, t, k) && TypeNamed(cfg.rules[k].txnType, t.txnType, named)
    ensures var r, after := cfg.rules[k], Classify(eng, cfg, t);
      && after.vendor == (if r.vendor != "" then r.vendor else t.vendor)
      && HeadIs(eng, cfg, after, if r.accountHead != "" then r.accountHead else t.accountHead)
      && TypeIs(eng, t, named, after.txnType)
      && after.confidence == (if r.clientId == 0 then 0.6 else 0.9)
      && after.status == Classified && after.source == "rule"
  {
    FirstFitDecides(eng, cfg, t, k);
    InferredIs(eng, t);
  }

  /** Without a rule that fits, the keyword's answer is taken whole, blanks too, with less than half the trust. */
  lemma KeywordOutcome(eng: Engines, cfg: Settings, t: Transaction, kw: Keyword)
    requires NoFit(eng, cfg, t) && eng.keyword(eng.upper(TextOf(t)), ImportedOf(t), cfg.bankLedger) == Some(kw)
    ensures var after := Classify(eng, cfg, t);
      && after.vendor == kw.vendor && HeadIs(eng, cfg, after, kw.head) && TypeIs(eng, t, kw.txnType, after.txnType)
      && after.confidence == 0.45 && after.status == Classified && after.source == "keyword"
  {
    NoFitDecides(eng, cfg, t);
    InferredIs(eng, t);
  }

  /** With neither, the row stays unreviewed and untrusted, and takes the extracted party when there is one. */
  lemma PartyOutcome(eng: Engines, cfg: Settings, t: Transaction)
    requires NoFit(eng, cfg, t) && eng.keyword(eng.upper(TextOf(t)), ImportedOf(t), cfg.bankLedger).None?
    ensures var party, after := eng.party(TextOf(t)), Classify(eng, cfg, t);
      && after.vendor == (if party != "" then party else t.vendor)
      && HeadIs(eng, cfg, after, t.accountHead) && TypeIs(eng, t, t.txnType, after.txnType)
      && after.confidence == 0.0 && after.status == Unreviewed && after.source == ""
  {
    NoFitDecides(eng, cfg, t);
    InferredIs(eng, t);
  }

  /** GST details are those of the analysis when it is on and finds something, and stay as they are otherwise. */
  lemma GstOutcome(eng: Engines, cfg: Settings, t: Transaction)
    ensures var after := Classify(eng, cfg, t);
      var g := eng.gst(t.narration, t.reference, after.vendor, t.debit, t.credit);
      if cfg.gstEnabled && g.Some?
      then after.gstRate == g.value.rate && after.gstAmount == g.value.amount && after.gstType == g.value.kind
      else after.gstRate == t.gstRate && after.gstAmount == t.gstAmount && after.gstType == t.gstType
  {
  }

  /** Tags are only added: the one of the narration's tax words, and "GST" when the analysis finds something. */
  lemma TagOutcome(eng: Engines, cfg: Settings, t: Transaction, tag: string)
    ensures var after := Classify(eng, cfg, t);
      var g := eng.gst(t.narration, t.reference, after.vendor, t.debit, t.credit);
      tag in after.tags <==>
        tag in t.tags || eng.gstTag(t.narration, t.reference) == Some(tag)
        || (cfg.gstEnabled && g.Some? && tag == "GST")
  {
  }

  // ---- Duplicates afterwards ----

  /** With detection on, no two rows left unflagged repeat each other as classified; with it off, no mark changes. */
  lemma MarksAfterwards(eng: Engines, dup: DupEnv, cfg: Settings, dedup: bool, s: seq<Transaction>, i: nat, j: nat)
    requires i < |s| && j < |s| && i != j
    ensures |ClassifyAll(eng, dup, cfg, dedup, s)| == |s|
    ensures var r := ClassifyAll(eng, dup, cfg, dedup, s);
      && (dedup && !r[i].dupFlag && !r[j].dupFlag ==> !Cause(dup, r[i], r[j]))
      && (!dedup ==> r[i].dupFlag == s[i].dupFlag)
  {
    var rows, r := AutoRows(eng, cfg, s), ClassifyAll(eng, dup, cfg, dedup, s);
    AllRowsGoThrough(eng, dup, cfg, dedup, s, i);
    if dedup && !r[i].dupFlag && !r[j].dupFlag {
      UnflaggedRowsHaveNoCause(dup, rows, i, j);
      DetectionOnlyMarks(dup, rows, i);
      DetectionOnlyMarks(dup, rows, j);
    }
  }

  // ---- What is reported ----

  /** Status, vendor, head or confidence differ. */
  predicate Differs(a: Transaction, b: Transaction) {
    a.status != b.status || a.vendor != b.vendor || a.accountHead != b.accountHead || a.confidence != b.confidence
  }

  ghost function ChangedRows(a: seq<Transaction>, b: seq<Transaction>): set<nat>
    requires |a| == |b|
  {
    set i: nat | i < |a| && Differs(a[i], b[i])
  }

  lemma ChangedUpToLast(a: seq<Transaction>, b: seq<Transaction>, n: nat)
    requires |a| == |b| == n + 1
    ensures ChangedRows(a, b) == ChangedRows(a[..n], b[..n]) + (if Differs(a[n], b[n]) then {n} else {})
    ensures n !in ChangedRows(a[..n], b[..n])
  {
  }

  lemma OutcomeIsDifference(a: Transaction, b: Transaction)
    ensures SameOutcome(a, b) <==> !Differs(a, b)
  {
  }

  /** The count of a run is the number of rows whose status, vendor, head or confidence differ. */
  lemma {:induction false} CountIsOfChangedRows(a: seq<Transaction>, b: seq<Transaction>)
    requires |a| == |b|
    ensures CountChanged(a, b) == |ChangedRows(a, b)|
  {
    if a == [] {
      assert ChangedRows(a, b) == {};
    } else {
      var n := |a| - 1;
      CountIsOfChangedRows(a[..n], b[..n]);
      ChangedUpToLast(a, b, n);
      OutcomeIsDifference(a[n], b[n]);
    }
  }
}
