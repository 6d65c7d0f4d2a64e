/**
  Auto-classification: stored rules, then keyword heuristics, then party extraction, followed
  by voucher-type inference and GST tagging; run over a whole statement, it is a fixpoint that
  respects locked rows.
 */
module Classifier {
  import opened Text
  import opened Transactions
  import opened Duplicates
  import opened DuplicateLaws

  datatype Rule = Rule(pattern: string, vendor: string, accountHead: string, txnType: string, clientId: int)

  datatype Keyword = Keyword(vendor: string, head: string, txnType: VoucherType)

  datatype Gst = Gst(rate: Option<real>, amount: Option<int>, kind: Option<string>, expenseLedger: Option<string>)

  /** The text engines, as arbitrary functions of exactly the fields they read. */
  datatype Engines = Engines(
    upper: string -> string,
    keyword: (string, Imported, string) -> Option<Keyword>,
    party: string -> string,
    looksLikeCash: string -> bool,
    gstTag: (string, string) -> Option<string>,
    gst: (string, string, string, Option<int>, Option<int>) -> Option<Gst>)

  /** Rules and settings of one run. */
  datatype Settings = Settings(bankLedger: string, rules: seq<Rule>, gstEnabled: bool, gstAutoLedgers: bool)

  // ---- Rules ----

  predicate Contains(s: string, p: string) {
    exists i :: 0 <= i <= |s| && p <= s[i..]
  }

  predicate RuleApplies(eng: Engines, upper: string, r: Rule) {
    r.pattern != [] && Contains(upper, eng.upper(r.pattern))
  }

  /** The first rule that applies, in stored order. */
  function ApplyRules(eng: Engines, upper: string, rules: seq<Rule>): Option<Rule> {
    if rules == [] then None
    else if RuleApplies(eng, upper, rules[0]) then Some(rules[0])
    else ApplyRules(eng, upper, rules[1..])
  }

  /** Position `k` is the first rule that applies. */
  ghost predicate FirstRule(eng: Engines, upper: string, rules: seq<Rule>, k: nat) {
    k < |rules| && RuleApplies(eng, upper, rules[k]) && forall j :: 0 <= j < k ==> !RuleApplies(eng, upper, rules[j])
  }

  lemma {:induction false} FirstRuleWins(eng: Engines, upper: string, rules: seq<Rule>, k: nat)
    requires FirstRule(eng, upper, rules, k)
    ensures ApplyRules(eng, upper, rules) == Some(rules[k])
  {
    if k > 0 {
      assert !RuleApplies(eng, upper, rules[0]);
      assert FirstRule(eng, upper, rules[1..], k - 1);
      FirstRuleWins(eng, upper, rules[1..], k - 1);
    }
  }

  lemma {:induction false} NoRuleNoMatch(eng: Engines, upper: string, rules: seq<Rule>)
    ensures ApplyRules(eng, upper, rules).None? <==> forall k :: 0 <= k < |rules| ==> !RuleApplies(eng, upper, rules[k])
  {
    if rules != [] {
      NoRuleNoMatch(eng, upper, rules[1..]);
      assert forall k :: 1 <= k < |rules| ==> rules[k] == rules[1..][k - 1];
    }
  }

  function ParseVoucherType(s: string, current: VoucherType): VoucherType {
    if s == "Payment" then Payment
    else if s == "Receipt" then Receipt
    else if s == "Contra" then Contra
    else current
  }

  // ---- Locks ----

  /** Rows that auto-classification must never touch. */
  predicate Locked(t: Transaction) {
    t.status == Manual || t.status == Suspense || t.source == "user" || t.source == "ai"
    || (t.status == Classified && t.confidence >= 1.0)
  }

  // ---- One row, field by field ----

  function Combined(t: Transaction): string {
    if t.reference == [] then t.narration else t.narration + " " + t.reference
  }

  datatype Decision = ByRule(rule: Rule) | ByKeyword(keyword: Keyword) | ByParty(party: string)

  function Decide(eng: Engines, cfg: Settings, t: Transaction): Decision {
    var upper := eng.upper(Combined(t));
    match ApplyRules(eng, upper, cfg.rules)
    case Some(r) => ByRule(r)
    case None =>
      match eng.keyword(upper, ImportedOf(t), cfg.bankLedger)
      case Some(k) => ByKeyword(k)
      case None => ByParty(eng.party(Combined(t)))
  }

  function KeepIfBlank(value: string, current: string): string {
    if value == [] then current else value
  }

  function VendorBy(d: Decision, t: Transaction): string {
    match d
    case ByRule(r) => KeepIfBlank(r.vendor, t.vendor)
    case ByKeyword(k) => k.vendor
    case ByParty(p) => KeepIfBlank(p, t.vendor)
  }

  function HeadBy(d: Decision, t: Transaction): string {
    match d
    case ByRule(r) => KeepIfBlank(r.accountHead, t.accountHead)
    case ByKeyword(k) => k.head
    case ByParty(_) => t.accountHead
  }

  function TypeBy(d: Decision, t: Transaction): VoucherType {
    match d
    case ByRule(r) => ParseVoucherType(r.txnType, t.txnType)
    case ByKeyword(k) => k.txnType
    case ByParty(_) => t.txnType
  }

  function ConfidenceBy(d: Decision): real {
    match d
    case ByRule(r) => if r.clientId == 0 then 0.6 else 0.9
    case ByKeyword(_) => 0.45
    case ByParty(_) => 0.0
  }

  function StatusBy(d: Decision): Status { if d.ByParty? then Unreviewed else Classified }

  function SourceBy(d: Decision): string {
    match d
    case ByRule(_) => "rule"
    case ByKeyword(_) => "keyword"
    case ByParty(_) => ""
  }

  function InferVoucherType(eng: Engines, t: Transaction): VoucherType {
    if eng.looksLikeCash(eng.upper(Combined(t))) then Contra
    else if t.credit.Some? && t.debit.None? then Receipt
    else if t.debit.Some? && t.credit.None? then Payment
    else Unknown
  }

  function GstBy(eng: Engines, cfg: Settings, vendor: string, t: Transaction): Option<Gst> {
    if cfg.gstEnabled then eng.gst(t.narration, t.reference, vendor, t.debit, t.credit) else None
  }

  function FillHead(cfg: Settings, g: Option<Gst>, head: string): string {
    if g.Some? && cfg.gstAutoLedgers && head == [] && g.value.expenseLedger.Some?
    then g.value.expenseLedger.value
    else head
  }

  function TagsBy(eng: Engines, g: Option<Gst>, t: Transaction): seq<string> {
    var tag := eng.gstTag(t.narration, t.reference);
    var tags := if tag.Some? then AddTag(t.tags, tag.value) else t.tags;
    if g.Some? then AddTag(tags, "GST") else tags
  }

  /** What classification makes of a row, each field on its own. */
  function Classify(eng: Engines, cfg: Settings, t: Transaction): Transaction {
    var d := Decide(eng, cfg, t);
    var vendor, kind := VendorBy(d, t), TypeBy(d, t);
    var g := GstBy(eng, cfg, vendor, t);
    t.(vendor := vendor,
       accountHead := FillHead(cfg, g, HeadBy(d, t)),
       txnType := if kind == Unknown then InferVoucherType(eng, t) else kind,
       confidence := ConfidenceBy(d),
       status := StatusBy(d),
       source := SourceBy(d),
       tags := TagsBy(eng, g, t),
       gstRate := if g.Some? then g.value.rate else t.gstRate,
       gstAmount := if g.Some? then g.value.amount else t.gstAmount,
       gstType := if g.Some? then g.value.kind else t.gstType)
  }

  /** The fields a decision sets, before inference and tagging. */
  function Assigned(d: Decision, t: Transaction): Transaction {
    t.(vendor := VendorBy(d, t), accountHead := HeadBy(d, t), txnType := TypeBy(d, t),
       confidence := ConfidenceBy(d), status := StatusBy(d), source := SourceBy(d))
  }

  /** The three ways of classifying, tried in order, one field after another. */
  method AssignFields(eng: Engines, cfg: Settings, row: Transaction) returns (t: Transaction)
    ensures t == Assigned(Decide(eng, cfg, row), row)
  {
    t := row;
    var combined := Combined(t);
    var upper := eng.upper(combined);
    var rule := ApplyRules(eng, upper, cfg.rules);
    if rule.Some? {
      var r := rule.value;
      if r.vendor != [] { t := t.(vendor := r.vendor); }
      if r.accountHead != [] { t := t.(accountHead := r.accountHead); }
      if r.txnType != [] { t := t.(txnType := ParseVoucherType(r.txnType, t.txnType)); }
      t := t.(confidence := if r.clientId == 0 then 0.6 else 0.9);
      t := t.(status := Classified);
      t := t.(source := "rule");
    } else {
      var kw := eng.keyword(upper, ImportedOf(t), cfg.bankLedger);
      if kw.Some? {
        t := t.(vendor := kw.value.vendor);
        t := t.(accountHead := kw.value.head);
        t := t.(txnType := kw.value.txnType);
        t := t.(confidence := 0.45);
        t := t.(status := Classified);
        t := t.(source := "keyword");
      } else {
        var party := eng.party(combined);
        if party != [] { t := t.(vendor := party); }
        t := t.(status := Unreviewed);
        t := t.(confidence := 0.0);
        t := t.(source := "");
      }
    }
  }

  /** Classification of one row as the program runs it: assign, infer the voucher type, tag, analyse GST. */
  method ClassifyOne(eng: Engines, cfg: Settings, row: Transaction) returns (t: Transaction)
    ensures t == Classify(eng, cfg, row)
  {
    t := AssignFields(eng, cfg, row);
    if t.txnType == Unknown {
      t := t.(txnType := InferVoucherType(eng, t));
    }
    var tag := eng.gstTag(t.narration, t.reference);
    if tag.Some? {
      t := t.(tags := AddTag(t.tags, tag.value));
    }
    if cfg.gstEnabled {
      var gst := eng.gst(t.narration, t.reference, t.vendor, t.debit, t.credit);
      if gst.Some? {
        t := t.(tags := AddTag(t.tags, "GST"));
        if cfg.gstAutoLedgers && t.accountHead == [] && gst.value.expenseLedger.Some? {
          t := t.(accountHead := gst.value.expenseLedger.value);
        }
        t := t.(gstRate := gst.value.rate, gstAmount := gst.value.amount, gstType := gst.value.kind);
      }
    }
  }

  lemma AddTagAgain(tags: seq<string>, tag: string, more: seq<string>)
    ensures tag in AddTag(tags, tag)
    ensures forall x :: x in tags ==> x in AddTag(tags, tag)
    ensures (forall x :: x in AddTag(tags, tag) ==> x in more) ==> AddTag(more, tag) == more
  {
  }

  /** A row whose tags already hold everything classification would add. */
  lemma TagsSettle(eng: Engines, g: Option<Gst>, t: Transaction, u: Transaction)
    requires u.narration == t.narration && u.reference == t.reference
    requires forall x :: x in TagsBy(eng, g, t) ==> x in u.tags
    ensures TagsBy(eng, g, u) == u.tags
  {
    var tag := eng.gstTag(t.narration, t.reference);
    var tags := if tag.Some? then AddTag(t.tags, tag.value) else t.tags;
    AddTagAgain(tags, "GST", u.tags);
    if tag.Some? { AddTagAgain(t.tags, tag.value, u.tags); }
  }

  /** A row that agrees with a classified one on everything but the flag and further tags is left as it is. */
  lemma ClassifySettles(eng: Engines, cfg: Settings, t: Transaction, u: Transaction)
    requires u == Classify(eng, cfg, t).(dupFlag := u.dupFlag, tags := u.tags)
    requires forall x :: x in Classify(eng, cfg, t).tags ==> x in u.tags
    ensures Classify(eng, cfg, u) == u
  {
    var c := Classify(eng, cfg, t);
    var d := Decide(eng, cfg, t);
    assert ImportedOf(u) == ImportedOf(t);
    assert Combined(u) == Combined(t);
    assert Decide(eng, cfg, u) == d;
    assert VendorBy(d, u) == u.vendor == VendorBy(d, t);
    var g := GstBy(eng, cfg, u.vendor, t);
    assert GstBy(eng, cfg, u.vendor, u) == g;
    TagsSettle(eng, g, t, u);
    assert FillHead(cfg, g, HeadBy(d, u)) == u.accountHead;
    assert InferVoucherType(eng, u) == InferVoucherType(eng, t);
  }

  /**
    Classifying twice is classifying once; imported fields and the duplicate flag are never touched;
    no row becomes locked by it.
   */
  lemma ClassifyMeaning(eng: Engines, cfg: Settings, t: Transaction)
    ensures Classify(eng, cfg, Classify(eng, cfg, t)) == Classify(eng, cfg, t)
    ensures ImportedOf(Classify(eng, cfg, t)) == ImportedOf(t)
    ensures Classify(eng, cfg, t).dupFlag == t.dupFlag
    ensures !Locked(Classify(eng, cfg, t))
  {
    ClassifySettles(eng, cfg, t, Classify(eng, cfg, t));
  }

  /**
    Priority: a stored rule decides whenever one applies; party extraction only when neither a rule
    nor a keyword does.
   */
  lemma RulesComeFirst(eng: Engines, cfg: Settings, t: Transaction)
    ensures Classify(eng, cfg, t).source == "rule" <==>
      exists k :: 0 <= k < |cfg.rules| && RuleApplies(eng, eng.upper(Combined(t)), cfg.rules[k])
    ensures Classify(eng, cfg, t).status == Unreviewed ==>
      && (forall k :: 0 <= k < |cfg.rules| ==> !RuleApplies(eng, eng.upper(Combined(t)), cfg.rules[k]))
      && eng.keyword(eng.upper(Combined(t)), ImportedOf(t), cfg.bankLedger).None?
  {
    var upper := eng.upper(Combined(t));
    NoRuleNoMatch(eng, upper, cfg.rules);
    assert Decide(eng, cfg, t).ByRule? <==> ApplyRules(eng, upper, cfg.rules).Some?;
  }

  // ---- A whole statement ----

  predicate Touchable(t: Transaction) {
    !t.isOpeningBalance && !Locked(t)
  }

  function Auto(eng: Engines, cfg: Settings, t: Transaction): Transaction {
    if Touchable(t) then Classify(eng, cfg, t) else t
  }

  function AutoRows(eng: Engines, cfg: Settings, s: seq<Transaction>): seq<Transaction> {
    seq(|s|, i requires 0 <= i < |s| => Auto(eng, cfg, s[i]))
  }

  ghost function ClassifyAll(eng: Engines, dup: DupEnv, cfg: Settings, dedup: bool,
      s: seq<Transaction>): seq<Transaction> {
    if dedup then Detect(dup, AutoRows(eng, cfg, s)) else AutoRows(eng, cfg, s)
  }

  /** The four fields whose change is reported. */
  predicate SameOutcome(a: Transaction, b: Transaction) {
    a.status == b.status && a.vendor == b.vendor && a.accountHead == b.accountHead && a.confidence == b.confidence
  }

  function CountChanged(a: seq<Transaction>, b: seq<Transaction>): nat
    requires |a| == |b|
  {
    if a == [] then 0
    else CountChanged(a[..|a| - 1], b[..|b| - 1]) + (if SameOutcome(a[|a| - 1], b[|b| - 1]) then 0 else 1)
  }

  /** One row of the run: skipped when it is an opening balance or locked, classified otherwise. */
  method AutoOne(eng: Engines, cfg: Settings, before: Transaction) returns (after: Transaction, differs: bool)
    ensures after == Auto(eng, cfg, before)
    ensures differs <==> !SameOutcome(before, after)
  {
    if before.isOpeningBalance || Locked(before) {
      return before, false;
    }
    after := ClassifyOne(eng, cfg, before);
    differs := !SameOutcome(before, after);
  }

  method RunAuto(eng: Engines, cfg: Settings, txns: array<Transaction>) returns (changed: nat)
    modifies txns
    ensures txns[..] == AutoRows(eng, cfg, old(txns[..]))
    ensures changed == CountChanged(old(txns[..]), txns[..])
  {
    ghost var s := txns[..];
    ghost var r := AutoRows(eng, cfg, s);
    changed := 0;
    for i := 0 to txns.Length
      invariant txns[..i] == r[..i] && txns[i..] == s[i..]
      invariant changed == CountChanged(s[..i], r[..i])
    {
      CountStep(s, r, i);
      assert txns[i] == txns[i..][0] == s[i];
      var after, differs := AutoOne(eng, cfg, txns[i]);
      assert after == r[i];
      txns[i] := after;
      assert txns[..i + 1] == r[..i] + [r[i]] == r[..i + 1];
      assert txns[i + 1..] == s[i..][1..] == s[i + 1..];
      if differs { changed := changed + 1; }
    }
    assert s[..|s|] == s && r[..|s|] == r;
    assert txns[..] == txns[..txns.Length];
  }

  lemma CountStep(a: seq<Transaction>, b: seq<Transaction>, i: nat)
    requires |a| == |b| && i < |a|
    ensures CountChanged(a[..i + 1], b[..i + 1]) == CountChanged(a[..i], b[..i]) +
        (if SameOutcome(a[i], b[i]) then 0 else 1)
  {
    assert a[..i + 1][..i] == a[..i] && b[..i + 1][..i] == b[..i];
  }

  /**
    Classifies every touchable row, then looks for duplicates when asked; the count is exactly the
    number of rows whose reported fields changed.
   */
  method RunClassifyAll(eng: Engines, dup: DupEnv, cfg: Settings, dedup: bool, txns: array<Transaction>)
      returns (changed: nat)
    modifies txns
    ensures txns[..] == ClassifyAll(eng, dup, cfg, dedup, old(txns[..]))
    ensures changed == CountChanged(old(txns[..]), txns[..])
  {
    ghost var s := txns[..];
    changed := RunAuto(eng, cfg, txns);
    ghost var r := txns[..];
    if dedup {
      DetectDuplicates(dup, txns);
      MarkingIsNotAChange(dup, s, r);
    }
  }

  lemma {:induction false} CountSame(a: seq<Transaction>, b: seq<Transaction>, c: seq<Transaction>)
    requires |a| == |b| == |c|
    requires forall i :: 0 <= i < |b| ==> SameOutcome(b[i], c[i])
    ensures CountChanged(a, b) == CountChanged(a, c)
  {
    if a != [] { CountSame(a[..|a| - 1], b[..|b| - 1], c[..|c| - 1]); }
  }

  /** Duplicate detection never adds to the number of changed rows. */
  lemma MarkingIsNotAChange(dup: DupEnv, s: seq<Transaction>, r: seq<Transaction>)
    requires |s| == |r|
    ensures CountChanged(s, Detect(dup, r)) == CountChanged(s, r)
  {
    forall i | 0 <= i < |r| ensures SameOutcome(r[i], Detect(dup, r)[i]) {
      RowThroughPasses(dup, r, i);
    }
    CountSame(s, r, Detect(dup, r));
  }

  /** Auto-classification leaves a processed row alone, marked as a duplicate or not. */
  lemma AutoSettles(eng: Engines, cfg: Settings, t: Transaction)
    ensures Auto(eng, cfg, Auto(eng, cfg, t)) == Auto(eng, cfg, t)
    ensures Auto(eng, cfg, Mark(Auto(eng, cfg, t))) == Mark(Auto(eng, cfg, t))
    ensures Locked(Auto(eng, cfg, t)) == Locked(t)
    ensures Locked(Mark(t)) == Locked(t)
  {
    if Touchable(t) {
      ClassifyMeaning(eng, cfg, t);
      var c := Classify(eng, cfg, t);
      AddTagAgain(c.tags, "DUP", c.tags);
      ClassifySettles(eng, cfg, t, Mark(c));
    }
  }

  lemma {:induction false} NothingChanged(s: seq<Transaction>)
    ensures CountChanged(s, s) == 0
  {
    if s != [] { NothingChanged(s[..|s| - 1]); }
  }

  /** With the same rules and settings a second run changes no field of any row and reports no change. */
  lemma ClassifyAllAgain(eng: Engines, dup: DupEnv, cfg: Settings, dedup: bool, s: seq<Transaction>)
    ensures var once := ClassifyAll(eng, dup, cfg, dedup, s);
      ClassifyAll(eng, dup, cfg, dedup, once) == once
          && CountChanged(once, ClassifyAll(eng, dup, cfg, dedup, once)) == 0
  {
    var r := AutoRows(eng, cfg, s);
    var once := ClassifyAll(eng, dup, cfg, dedup, s);
    forall i | 0 <= i < |s| ensures Auto(eng, cfg, once[i]) == once[i] {
      AutoSettles(eng, cfg, s[i]);
      if dedup { RowThroughPasses(dup, r, i); }
    }
    assert AutoRows(eng, cfg, once) == once;
    if dedup { DetectAgain(dup, r); }
    NothingChanged(once);
  }

  /** The same row with the same classification; only the duplicate flag and tags may differ. */
  predicate SameExceptFlag(a: Transaction, b: Transaction) {
    a == b.(dupFlag := a.dupFlag, tags := a.tags)
  }

  /**
    Every run keeps the set of locked rows, keeps every classification field of a locked or
    opening-balance row, and keeps all imported fields.
   */
  lemma ClassifyAllFrame(eng: Engines, dup: DupEnv, cfg: Settings, dedup: bool, s: seq<Transaction>, i: nat)
    requires i < |s|
    ensures |ClassifyAll(eng, dup, cfg, dedup, s)| == |s|
    ensures var after := ClassifyAll(eng, dup, cfg, dedup, s)[i];
      && ImportedOf(after) == ImportedOf(s[i])
      && Locked(after) == Locked(s[i])
      && (!Touchable(s[i]) ==> SameExceptFlag(after, s[i]))
      && (Touchable(s[i]) ==> SameExceptFlag(after, Classify(eng, cfg, s[i])))
  {
    var r := AutoRows(eng, cfg, s);
    AutoSettles(eng, cfg, s[i]);
    AutoSettles(eng, cfg, r[i]);
    if Touchable(s[i]) { ClassifyMeaning(eng, cfg, s[i]); }
    if dedup { RowThroughPasses(dup, r, i); MarkKeeps(dup, r[i]); }
  }
}
