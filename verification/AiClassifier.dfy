/**
  The AI batch run: eligible rows are sent in chunks of fifteen, replies are mapped back by
  position, and the run can fail or be cancelled at every chunk. Provider replies are arbitrary.
 */
module AiClassifier {
  import opened Text
  import opened Lists
  import opened Transactions
  import opened Duplicates
  import opened Classifier

  const BATCH_SIZE: nat := 15

  datatype Scope = Unclassified | All

  predicate Eligible(t: Transaction, scope: Scope) {
    if t.isOpeningBalance || t.status == Manual || t.status == Suspense then false
    else if scope == All then true
    else t.status == Unreviewed || t.status == NeedsReview || t.confidence < 0.6
  }

  /** One object of a reply, its missing fields already defaulted. */
  datatype Item = Item(vendor: string, accountHead: string, txnType: string, confidence: real)

  datatype Reply = Failed | Items(items: seq<Item>)

  datatype AiResult = AiResult(idx: nat, item: Item)

  function Clamp(x: real): real {
    if x < 0.0 then 0.0 else if x > 1.0 then 1.0 else x
  }

  function Apply(item: Item, t: Transaction): Transaction {
    t.(vendor := KeepIfBlank(item.vendor, t.vendor),
       accountHead := KeepIfBlank(item.accountHead, t.accountHead),
       txnType := ParseVoucherType(item.txnType, t.txnType),
       confidence := Clamp(item.confidence),
       status := Classified,
       source := "ai",
       tags := AddTag(t.tags, "ai"))
  }

  // ---- The run, as a function of replies and cancellations ----

  /** What the outside world does: the reply to chunk `c`, and whether the cancel flag is up when chunk `c` is due. */
  datatype World = World(reply: nat -> Reply, cancelled: nat -> bool)

  ghost predicate Reached(w: World, c: nat) {
    forall k: nat :: k <= c ==> !w.cancelled(k)
  }

  /** The item answering the `p`-th eligible row, when its chunk was sent, succeeded, and was long enough. */
  ghost predicate Answered(w: World, p: nat) {
    var c, q := p / BATCH_SIZE, p % BATCH_SIZE;
    Reached(w, c) && w.reply(c).Items? && q < |w.reply(c).items|
  }

  ghost function AnswerFor(w: World, p: nat): Item
    requires Answered(w, p)
  {
    w.reply(p / BATCH_SIZE).items[p % BATCH_SIZE]
  }

  ghost function RowAfter(w: World, t: Transaction, p: nat): Transaction {
    if Answered(w, p) then Apply(AnswerFor(w, p), t) else t
  }

  ghost function CountAnswered(w: World, n: nat): nat {
    if n == 0 then 0 else CountAnswered(w, n - 1) + (if Answered(w, n - 1) then 1 else 0)
  }

  /** `idxs` lists the eligible rows in order. */
  ghost predicate ListsEligible(s: seq<Transaction>, scope: Scope, idxs: seq<nat>) {
    && IncreasingBelow(idxs, |s|)
    && forall i: nat :: i in idxs <==> i < |s| && Eligible(s[i], scope)
  }

  method EligibleIndices(txns: array<Transaction>, scope: Scope) returns (idxs: seq<nat>)
    ensures ListsEligible(txns[..], scope, idxs)
  {
    idxs := [];
    for i := 0 to txns.Length
      invariant IncreasingBelow(idxs, i)
      invariant forall k: nat :: k in idxs <==> k < i && Eligible(txns[k], scope)
    {
      if Eligible(txns[i], scope) { idxs := idxs + [i]; }
    }
  }

  /** Maps a reply back to rows by position; extra items are dropped, missing ones leave their rows unanswered. */
  method ParseAiResponse(batch: seq<nat>, items: seq<Item>) returns (results: seq<AiResult>)
    ensures ChunkResults(results, batch, items)
  {
    results := [];
    for q := 0 to |items|
      invariant |results| == if q < |batch| then q else |batch|
      invariant forall k :: 0 <= k < |results| ==> results[k] == AiResult(batch[k], items[k])
    {
      if q >= |batch| { break; }
      results := results + [AiResult(batch[q], items[q])];
    }
  }

  /** Each result is in its own row, and no other row has changed. */
  ghost predicate Applied(results: seq<AiResult>, before: seq<Transaction>, now: seq<Transaction>) {
    && |now| == |before|
    && (forall q :: 0 <= q < |results| ==>
        results[q].idx < |before| && now[results[q].idx] == Apply(results[q].item, before[results[q].idx]))
    && forall i :: 0 <= i < |before| && (forall q :: 0 <= q < |results| ==> results[q].idx != i) ==> now[i] == before[i]
  }

  /** The results of one chunk: reply items put to the rows of the chunk by position. */
  ghost predicate ChunkResults(results: seq<AiResult>, batch: seq<nat>, items: seq<Item>) {
    && |results| == (if |items| < |batch| then |items| else |batch|)
    && forall q :: 0 <= q < |results| ==> results[q] == AiResult(batch[q], items[q])
  }

  /** Applies one chunk's results in place and counts them. */
  method ApplyResults(txns: array<Transaction>, results: seq<AiResult>) returns (applied: nat)
    requires forall q :: 0 <= q < |results| ==> results[q].idx < txns.Length
    requires forall q, k :: 0 <= q < k < |results| ==> results[q].idx != results[k].idx
    modifies txns
    ensures applied == |results|
    ensures Applied(results, old(txns[..]), txns[..])
  {
    applied := 0;
    for q := 0 to |results|
      invariant applied == q
      invariant forall k :: 0 <= k < q ==> txns[results[k].idx] == Apply(results[k].item, old(txns[results[k].idx]))
      invariant forall k :: q <= k < |results| ==> txns[results[k].idx] == old(txns[results[k].idx])
      invariant forall i :: 0 <= i < txns.Length && (forall k :: 0 <= k < |results| ==> results[k].idx != i) ==>
          txns[i] == old(txns[i])
    {
      var r := results[q];
      txns[r.idx] := Apply(r.item, txns[r.idx]);
      applied := applied + 1;
    }
  }

  lemma {:induction false} CountChunk(w: World, c: nat, n: nat)
    requires n <= BATCH_SIZE
    ensures CountAnswered(w, c * BATCH_SIZE + n) == CountAnswered(w, c * BATCH_SIZE)
      + if !Reached(w, c) || w.reply(c).Failed? then 0 else if n < |w.reply(c).items| then n else |w.reply(c).items|
  {
    if n > 0 {
      CountChunk(w, c, n - 1);
      var p := c * BATCH_SIZE + (n - 1);
      assert p / BATCH_SIZE == c && p % BATCH_SIZE == n - 1;
    }
  }

  lemma {:induction false} CountUnreached(w: World, c: nat, n: nat)
    requires !Reached(w, c) && c * BATCH_SIZE <= n
    ensures CountAnswered(w, n) == CountAnswered(w, c * BATCH_SIZE)
    ensures forall p: nat :: c * BATCH_SIZE <= p < n ==> !Answered(w, p)
    decreases n
  {
    if n > c * BATCH_SIZE {
      CountUnreached(w, c, n - 1);
      var k: nat :| k <= c && w.cancelled(k);
      assert (n - 1) / BATCH_SIZE >= c;
    }
  }

  datatype Outcome = KeyMissing | Done(classified: nat)

  /** Rows of the first `n` eligible positions as the run leaves them, the rest untouched. */
  ghost predicate RunUpTo(w: World, s: seq<Transaction>, now: seq<Transaction>, idxs: seq<nat>, n: nat)
    requires IncreasingBelow(idxs, |s|)
  {
    && |now| == |s|
    && (forall p: nat :: p < |idxs| && p < n ==> now[idxs[p]] == RowAfter(w, s[idxs[p]], p))
    && (forall p: nat :: n <= p < |idxs| ==> now[idxs[p]] == s[idxs[p]])
    && (forall i: nat :: i < |s| && i !in idxs ==> now[i] == s[i])
  }

  /** One chunk of the run: send, map back by position, apply. */
  method SendChunk(w: World, txns: array<Transaction>, idxs: seq<nat>, c: nat, hi: nat, ghost s: seq<Transaction>)
      returns (applied: nat)
    requires IncreasingBelow(idxs, |s|) && |s| == txns.Length
    requires c * BATCH_SIZE < hi <= |idxs| && hi <= (c + 1) * BATCH_SIZE
    requires Reached(w, c) && RunUpTo(w, s, txns[..], idxs, c * BATCH_SIZE)
    modifies txns
    ensures RunUpTo(w, s, txns[..], idxs, hi)
    ensures CountAnswered(w, hi) == CountAnswered(w, c * BATCH_SIZE) + applied
  {
    var lo := c * BATCH_SIZE;
    CountChunk(w, c, hi - lo);
    ghost var before := txns[..];
    var batch := idxs[lo..hi];
    var reply := w.reply(c);
    applied := 0;
    if reply.Failed? {
      ChunkFailed(w, s, txns[..], idxs, c, hi);
    } else {
      var results := ParseAiResponse(batch, reply.items);
      ChunkRows(idxs, lo, hi, txns.Length, results, reply.items);
      applied := ApplyResults(txns, results);
      ChunkApplied(w, s, before, txns[..], idxs, c, hi, results);
    }
  }

  /** The rows of a chunk's results exist and are all different. */
  lemma ChunkRows(idxs: seq<nat>, lo: nat, hi: nat, n: nat, results: seq<AiResult>, items: seq<Item>)
    requires IncreasingBelow(idxs, n) && lo <= hi <= |idxs| && ChunkResults(results, idxs[lo..hi], items)
    ensures forall q :: 0 <= q < |results| ==> results[q].idx == idxs[lo + q] < n && results[q].idx in idxs
    ensures forall q, k :: 0 <= q < k < |results| ==> results[q].idx != results[k].idx
  {
    assert forall q :: 0 <= q < hi - lo ==> idxs[lo..hi][q] == idxs[lo + q];
  }

  /** A failed chunk leaves its rows as they were. */
  lemma ChunkFailed(w: World, s: seq<Transaction>, now: seq<Transaction>, idxs: seq<nat>, c: nat, hi: nat)
    requires IncreasingBelow(idxs, |s|) && c * BATCH_SIZE < hi <= |idxs| && hi <= (c + 1) * BATCH_SIZE
        && w.reply(c).Failed?
    requires RunUpTo(w, s, now, idxs, c * BATCH_SIZE)
    ensures RunUpTo(w, s, now, idxs, hi)
  {
    forall p: nat | c * BATCH_SIZE <= p < hi ensures !Answered(w, p) {
      assert p / BATCH_SIZE == c;
    }
  }

  /** Applying one chunk's results extends the run from `c * BATCH_SIZE` to `hi`. */
  lemma ChunkApplied(w: World, s: seq<Transaction>, before: seq<Transaction>, now: seq<Transaction>,
                     idxs: seq<nat>, c: nat, hi: nat, results: seq<AiResult>)
    requires IncreasingBelow(idxs, |s|) && |s| == |before| == |now|
    requires c * BATCH_SIZE < hi <= |idxs| && hi <= (c + 1) * BATCH_SIZE
    requires Reached(w, c) && w.reply(c).Items? && RunUpTo(w, s, before, idxs, c * BATCH_SIZE)
    requires ChunkResults(results, idxs[c * BATCH_SIZE..hi], w.reply(c).items) && Applied(results, before, now)
    ensures RunUpTo(w, s, now, idxs, hi)
  {
    var lo := c * BATCH_SIZE;
    var items := w.reply(c).items;
    forall p: nat | p < |idxs|
      ensures now[idxs[p]] == if lo <= p < hi then RowAfter(w, s[idxs[p]], p) else before[idxs[p]]
    {
      if lo <= p < hi {
        PlaceInChunk(c, p);
        assert before[idxs[p]] == s[idxs[p]];
      }
      ChunkTouches(idxs, lo, hi, |s|, results, items, before, now, p);
    }
    forall i: nat | i < |s| && i !in idxs ensures now[i] == s[i] {
      ChunkRows(idxs, lo, hi, |s|, results, items);
      assert forall q :: 0 <= q < |results| ==> results[q].idx in idxs;
    }
  }

  /** What a chunk does to the row at position `p`: the answer of its own place in the chunk, or nothing. */
  lemma ChunkTouches(idxs: seq<nat>, lo: nat, hi: nat, n: nat, results: seq<AiResult>, items: seq<Item>,
                     before: seq<Transaction>, now: seq<Transaction>, p: nat)
    requires IncreasingBelow(idxs, n) && lo <= hi <= |idxs| && ChunkResults(results, idxs[lo..hi], items)
    requires |before| == n && Applied(results, before, now) && p < |idxs|
    ensures now[idxs[p]] ==
      if lo <= p < hi && p - lo < |items| then Apply(items[p - lo], before[idxs[p]]) else before[idxs[p]]
  {
    ChunkRows(idxs, lo, hi, n, results, items);
    if lo <= p < hi && p - lo < |items| {
      assert results[p - lo].idx == idxs[p];
    } else {
      assert forall q :: 0 <= q < |results| ==> results[q].idx != idxs[p];
    }
  }

  lemma PlaceInChunk(c: nat, p: nat)
    requires c * BATCH_SIZE <= p < (c + 1) * BATCH_SIZE
    ensures p / BATCH_SIZE == c && p % BATCH_SIZE == p - c * BATCH_SIZE
  {
  }

  /**
    The whole run: a blank key is an error, a cancelled flag stops before the next chunk, a failed
    chunk is skipped.
   */
  method ClassifyWithAi(w: World, apiKey: string, scope: Scope, txns: array<Transaction>)
      returns (o: Outcome, ghost idxs: seq<nat>)
    modifies txns
    ensures ListsEligible(old(txns[..]), scope, idxs)
    ensures o.KeyMissing? <==> Trim(apiKey) == []
    ensures o.KeyMissing? ==> txns[..] == old(txns[..])
    ensures o.Done? ==> RunUpTo(w, old(txns[..]), txns[..], idxs, |idxs|) && o.classified == CountAnswered(w, |idxs|)
  {
    ghost var s := txns[..];
    var indices := EligibleIndices(txns, scope);
    idxs := indices;
    if Trim(apiKey) == [] { return KeyMissing, idxs; }
    var total, classified, c := |indices|, 0, 0;
    while c * BATCH_SIZE < total
      invariant RunUpTo(w, s, txns[..], indices, c * BATCH_SIZE)
      invariant classified == CountAnswered(w, if c * BATCH_SIZE < total then c * BATCH_SIZE else total)
      invariant forall k: nat :: k < c ==> !w.cancelled(k)
      decreases total - c * BATCH_SIZE
    {
      if w.cancelled(c) {
        CountUnreached(w, c, total);
        break;
      }
      var hi := if (c + 1) * BATCH_SIZE < total then (c + 1) * BATCH_SIZE else total;
      var applied := SendChunk(w, txns, indices, c, hi, s);
      classified := classified + applied;
      c := c + 1;
    }
    o := Done(classified);
  }

  // ---- What a run guarantees ----

  lemma {:induction false} CountAtMost(w: World, n: nat)
    ensures CountAnswered(w, n) <= n
  {
    if n > 0 { CountAtMost(w, n - 1); }
  }

  /** An answered row ends Classified by "ai" with a confidence between 0 and 1, its imported fields intact. */
  lemma ApplyMeaning(item: Item, t: Transaction)
    ensures var r := Apply(item, t);
      r.status == Classified && r.source == "ai" && 0.0 <= r.confidence <= 1.0 && "ai" in r.tags
      && ImportedOf(r) == ImportedOf(t) && r.dupFlag == t.dupFlag && Locked(r)
  {
  }

  /**
    The frame of a finished run, for every sequence of replies and every cancellation point:
    rows not eligible at the start are untouched, an eligible row changes at most once and only
    by its own answer, and the reported count is at most the number of eligible rows.
   */
  lemma RunFrame(w: World, scope: Scope, s: seq<Transaction>, now: seq<Transaction>, idxs: seq<nat>, i: nat)
    requires ListsEligible(s, scope, idxs) && RunUpTo(w, s, now, idxs, |idxs|) && i < |s|
    ensures !Eligible(s[i], scope) ==> now[i] == s[i]
    ensures now[i] == s[i] ||
      exists p: nat :: p < |idxs| && idxs[p] == i && Answered(w, p) && now[i] == Apply(AnswerFor(w, p), s[i])
    ensures now[i] != s[i] ==> now[i].status == Classified && now[i].source == "ai" && 0.0 <= now[i].confidence <= 1.0
    ensures ImportedOf(now[i]) == ImportedOf(s[i])
    ensures CountAnswered(w, |idxs|) <= |idxs|
  {
    CountAtMost(w, |idxs|);
    if i in idxs {
      var p :| 0 <= p < |idxs| && idxs[p] == i;
      assert now[idxs[p]] == RowAfter(w, s[idxs[p]], p);
      if Answered(w, p) { ApplyMeaning(AnswerFor(w, p), s[i]); }
    }
  }

  /** A later auto-classification of the whole statement leaves every answered row's classification as the AI set it. */
  lemma AutoClassifyKeepsAiAnswers(
      eng: Engines, dup: DupEnv, cfg: Settings, dedup: bool,
      w: World, scope: Scope, s: seq<Transaction>, now: seq<Transaction>, idxs: seq<nat>, p: nat)
    requires ListsEligible(s, scope, idxs) && RunUpTo(w, s, now, idxs, |idxs|) && p < |idxs| && Answered(w, p)
    ensures |ClassifyAll(eng, dup, cfg, dedup, now)| == |s|
    ensures SameExceptFlag(ClassifyAll(eng, dup, cfg, dedup, now)[idxs[p]], Apply(AnswerFor(w, p), s[idxs[p]]))
  {
    var i := idxs[p];
    assert now[idxs[p]] == RowAfter(w, s[idxs[p]], p);
    ApplyMeaning(AnswerFor(w, p), s[i]);
    ClassifyAllFrame(eng, dup, cfg, dedup, now, i);
  }

  // ---- Which rows no run can change ----

  ghost function PlaceOf(idxs: seq<nat>, i: nat): (p: nat)
    requires i in idxs
    ensures p < |idxs| && idxs[p] == i
  {
    var p: nat :| p < |idxs| && idxs[p] == i;
    p
  }

  /** The rows as the run leaves them. */
  ghost function AfterRun(w: World, s: seq<Transaction>, idxs: seq<nat>): seq<Transaction> {
    seq(|s|, i requires 0 <= i < |s| => if i in idxs then RowAfter(w, s[i], PlaceOf(idxs, i)) else s[i])
  }

  lemma AfterRunIsRun(w: World, s: seq<Transaction>, idxs: seq<nat>)
    requires IncreasingBelow(idxs, |s|)
    ensures RunUpTo(w, s, AfterRun(w, s, idxs), idxs, |idxs|)
  {
    forall p: nat | p < |idxs| ensures AfterRun(w, s, idxs)[idxs[p]] == RowAfter(w, s[idxs[p]], p) {
      var q := PlaceOf(idxs, idxs[p]);
      assert q == p;
    }
  }

  /** In every world the run leaves row `i` as it was. */
  ghost predicate LeftAlone(s: seq<Transaction>, idxs: seq<nat>, i: nat)
    requires i < |s| && IncreasingBelow(idxs, |s|)
  {
    forall w, now :: RunUpTo(w, s, now, idxs, |idxs|) ==> now[i] == s[i]
  }

  /** A world that answers every row, with a name the row does not have. */
  function RenamingWorld(t: Transaction): World {
    World(c => Items(seq(BATCH_SIZE, q => Item(t.vendor + "x", "", "", 1.0))), c => false)
  }

  lemma RenamingAnswers(t: Transaction, p: nat)
    ensures Answered(RenamingWorld(t), p) && AnswerFor(RenamingWorld(t), p) == Item(t.vendor + "x", "", "", 1.0)
  {
  }

  /** A row is safe from every run exactly when it is not eligible: an eligible row can always be overwritten. */
  lemma LeftAloneIff(scope: Scope, s: seq<Transaction>, idxs: seq<nat>, i: nat)
    requires ListsEligible(s, scope, idxs) && i < |s|
    ensures LeftAlone(s, idxs, i) <==> !Eligible(s[i], scope)
  {
    if Eligible(s[i], scope) {
      var w := RenamingWorld(s[i]);
      var now := AfterRun(w, s, idxs);
      AfterRunIsRun(w, s, idxs);
      RenamingAnswers(s[i], PlaceOf(idxs, i));
      assert now[i].vendor == s[i].vendor + "x";
      assert |now[i].vendor| != |s[i].vendor|;
    } else {
      forall w, now | RunUpTo(w, s, now, idxs, |idxs|) ensures now[i] == s[i] {
        RunFrame(w, scope, s, now, idxs, i);
      }
    }
  }

  /**
    The "All" scope is described as leaving manually confirmed rows out. It does not: a row the
    user saved (source "user", Classified) is safe from every run exactly when the scope is not
    All and its confidence, which a save sets to 0.75 or 1, is still at least 0.6, although
    auto-classification treats it as locked throughout.
   */
  lemma SavedRowIsLeftAloneIff(scope: Scope, s: seq<Transaction>, idxs: seq<nat>, i: nat)
    requires ListsEligible(s, scope, idxs) && i < |s|
    requires s[i].source == "user" && s[i].status == Classified && !s[i].isOpeningBalance
    ensures LeftAlone(s, idxs, i) <==> scope != All && s[i].confidence >= 0.6
    ensures Locked(s[i])
  {
    LeftAloneIff(scope, s, idxs, i);
  }

  // ---- In the rows' own fields ----

  /**
    A row can be overwritten unless it is an opening balance, added by hand, parked, or, in the
    narrower scope, reviewed with confidence.
   */
  lemma LeftAloneByFields(scope: Scope, s: seq<Transaction>, idxs: seq<nat>, i: nat)
    requires ListsEligible(s, scope, idxs) && i < |s|
    ensures LeftAlone(s, idxs, i) <==>
      || s[i].isOpeningBalance || s[i].status in {Manual, Suspense}
      || (scope == Unclassified && s[i].status == Classified && s[i].confidence >= 0.6)
  {
    LeftAloneIff(scope, s, idxs, i);
  }

  /** Item `q` of the reply to chunk `c` goes to the row in place `15 * c + q` of the eligible ones, field by field. */
  lemma AnswerGoesToItsRow(w: World, s: seq<Transaction>, now: seq<Transaction>, idxs: seq<nat>, c: nat, q: nat)
    requires IncreasingBelow(idxs, |s|) && RunUpTo(w, s, now, idxs, |idxs|)
    requires Reached(w, c) && w.reply(c).Items? && q < 15 && q < |w.reply(c).items| && 15 * c + q < |idxs|
    ensures var item, t, u := w.reply(c).items[q], s[idxs[15 * c + q]], now[idxs[15 * c + q]];
      && u.vendor == (if item.vendor != "" then item.vendor else t.vendor)
      && u.accountHead == (if item.accountHead != "" then item.accountHead else t.accountHead)
      && (item.txnType == "Payment" ==> u.txnType == Payment) && (item.txnType == "Receipt" ==> u.txnType == Receipt)
      && (item.txnType == "Contra" ==> u.txnType == Contra)
      && (item.txnType !in {"Payment", "Receipt", "Contra"} ==> u.txnType == t.txnType)
      && (0.0 <= item.confidence <= 1.0 ==> u.confidence == item.confidence)
      && (item.confidence < 0.0 ==> u.confidence == 0.0) && (item.confidence > 1.0 ==> u.confidence == 1.0)
      && u.status == Classified && u.source == "ai" && "ai" in u.tags && ImportedOf(u) == ImportedOf(t)
  {
    var p := 15 * c + q;
    assert p / BATCH_SIZE == c && p % BATCH_SIZE == q;
    assert Answered(w, p) && AnswerFor(w, p) == w.reply(c).items[q];
    assert now[idxs[p]] == RowAfter(w, s[idxs[p]], p);
  }
}
