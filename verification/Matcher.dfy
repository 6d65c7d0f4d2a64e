/**
  The matcher behind a reconciliation, for an arbitrary score table: candidate generation,
  the ranked offer, and the properties of the report, all stated without reference to how
  a score comes about.
 */
module Matcher {
  import opened Lists
  import opened GreedyMatching

  /** Scores of every bank row (below `banks`) against every voucher (below `vouchers`). */
  datatype Table = Table(banks: nat, vouchers: nat, score: (nat, nat) -> int)

  function PairAt(t: Table, b: nat, v: nat): Pair { Pair(b, v, t.score(b, v)) }

  /** Candidates of row `b` against the first `n` vouchers. */
  function RowCandidates(t: Table, b: nat, n: nat): seq<Pair> {
    if n == 0 then []
    else if t.score(b, n - 1) > 0 then RowCandidates(t, b, n - 1) + [PairAt(t, b, n - 1)]
    else RowCandidates(t, b, n - 1)
  }

  lemma NextCandidate(t: Table, before: seq<Pair>, b: nat, n: nat)
    ensures before + RowCandidates(t, b, n + 1) ==
      if t.score(b, n) > 0 then (before + RowCandidates(t, b, n)) + [Pair(b, n, t.score(b, n))]
      else before + RowCandidates(t, b, n)
  {
    assert (before + RowCandidates(t, b, n)) + [PairAt(t, b, n)] ==
      before + (RowCandidates(t, b, n) + [PairAt(t, b, n)]);
  }

  /** Candidates of the first `n` bank rows, in generation order. */
  function Candidates(t: Table, n: nat): seq<Pair> {
    if n == 0 then [] else Candidates(t, n - 1) + RowCandidates(t, n - 1, t.vouchers)
  }

  /** A pair of indices with its true, positive score. */
  ghost predicate IsScored(t: Table, p: Pair) {
    p.bank < t.banks && p.voucher < t.vouchers && p.score == t.score(p.bank, p.voucher) && p.score > 0
  }

  lemma {:induction false} RowCandidatesShape(t: Table, b: nat, n: nat)
    ensures IndexOrdered(RowCandidates(t, b, n))
    ensures forall p :: p in RowCandidates(t, b, n) ==>
        p.bank == b && p.voucher < n && p.score == t.score(b, p.voucher) && p.score > 0
    ensures forall v: nat :: v < n && t.score(b, v) > 0 ==> PairAt(t, b, v) in RowCandidates(t, b, n)
  {
    if n > 0 {
      RowCandidatesShape(t, b, n - 1);
      var r := RowCandidates(t, b, n - 1);
      assert forall i :: 0 <= i < |r| ==> r[i] in r;
    }
  }

  lemma AppendOrdered(c: seq<Pair>, r: seq<Pair>, b: nat)
    requires IndexOrdered(c) && IndexOrdered(r)
    requires forall p :: p in c ==> p.bank < b
    requires forall p :: p in r ==> p.bank == b
    ensures IndexOrdered(c + r)
  {
    assert forall i :: 0 <= i < |c| ==> c[i] in c;
    assert forall i :: 0 <= i < |r| ==> r[i] in r;
  }

  lemma {:induction false} CandidatesShape(t: Table, n: nat)
    requires n <= t.banks
    ensures IndexOrdered(Candidates(t, n))
    ensures forall p :: p in Candidates(t, n) <==> IsScored(t, p) && p.bank < n
  {
    if n > 0 {
      CandidatesShape(t, n - 1);
      RowCandidatesShape(t, n - 1, t.vouchers);
      var c, r := Candidates(t, n - 1), RowCandidates(t, n - 1, t.vouchers);
      AppendOrdered(c, r, n - 1);
      forall p ensures p in c + r <==> IsScored(t, p) && p.bank < n {
        if IsScored(t, p) && p.bank == n - 1 {
          assert PairAt(t, n - 1, p.voucher) == p;
        }
      }
    }
  }

  /** The candidates as they are offered to the greedy pass. */
  function Offered(t: Table): seq<Pair> {
    StableSort(Candidates(t, t.banks))
  }

  lemma OfferedShape(t: Table)
    ensures Ranked(Offered(t))
    ensures forall p :: p in Offered(t) <==> IsScored(t, p)
  {
    CandidatesShape(t, t.banks);
    SortRanks(Candidates(t, t.banks));
    forall p ensures p in Offered(t) <==> IsScored(t, p) {
      SortMembers(Candidates(t, t.banks), p);
    }
  }

  predicate UsesBank(chosen: seq<Pair>, b: nat) {
    exists i :: 0 <= i < |chosen| && chosen[i].bank == b
  }

  predicate UsesVoucher(chosen: seq<Pair>, v: nat) {
    exists i :: 0 <= i < |chosen| && chosen[i].voucher == v
  }

  lemma FreeMeansUnused(chosen: seq<Pair>, c: Pair)
    ensures Free(chosen, c) <==> !UsesBank(chosen, c.bank) && !UsesVoucher(chosen, c.voucher)
  {
  }

  lemma UsesAfterAppend(chosen: seq<Pair>, c: Pair)
    ensures forall b: nat :: UsesBank(chosen + [c], b) <==> UsesBank(chosen, b) || b == c.bank
    ensures forall v: nat :: UsesVoucher(chosen + [c], v) <==> UsesVoucher(chosen, v) || v == c.voucher
  {
    var next := chosen + [c];
    assert next[|chosen|] == c;
    assert forall i :: 0 <= i < |chosen| ==> next[i] == chosen[i];
    forall b: nat ensures UsesBank(next, b) <==> UsesBank(chosen, b) || b == c.bank {
      if UsesBank(chosen, b) {
        var i :| 0 <= i < |chosen| && chosen[i].bank == b;
        assert next[i].bank == b;
      }
    }
    forall v: nat ensures UsesVoucher(next, v) <==> UsesVoucher(chosen, v) || v == c.voucher {
      if UsesVoucher(chosen, v) {
        var i :| 0 <= i < |chosen| && chosen[i].voucher == v;
        assert next[i].voucher == v;
      }
    }
  }

  /** `free` lists, in order, the rows below `n` that no chosen pair uses. */
  ghost predicate ListsFreeBanks(free: seq<nat>, chosen: seq<Pair>, n: nat) {
    Increasing(free) && forall k: nat :: k in free <==> k < n && !UsesBank(chosen, k)
  }

  ghost predicate ListsFreeVouchers(free: seq<nat>, chosen: seq<Pair>, n: nat) {
    Increasing(free) && forall k: nat :: k in free <==> k < n && !UsesVoucher(chosen, k)
  }

  /** What the report holds, as plain pairs and the two lists of left-over indices. */
  ghost predicate IsOutcome(t: Table, chosen: seq<Pair>, freeBanks: seq<nat>, freeVouchers: seq<nat>) {
    && chosen == Greedy(Offered(t))
    && ListsFreeBanks(freeBanks, chosen, t.banks)
    && ListsFreeVouchers(freeVouchers, chosen, t.vouchers)
  }

  // ---- What every outcome satisfies ----

  /** A list without repetition that has exactly the numbers below `n` has `n` entries. */
  lemma DistinctCount(s: seq<nat>, n: nat)
    requires forall i, j :: 0 <= i < j < |s| ==> s[i] != s[j]
    requires forall k: nat :: k in s <==> k < n
    ensures |s| == n
  {
    SeqSetSize(s);
    assert Indices(s) == Below(n);
  }

  ghost function Below(n: nat): (r: set<nat>)
    ensures |r| == n
    ensures forall k: nat :: k in r <==> k < n
  {
    if n == 0 then {} else Below(n - 1) + {n - 1}
  }

  ghost function Indices(s: seq<nat>): set<nat> {
    set k | k in s
  }

  lemma {:induction false} SeqSetSize(s: seq<nat>)
    requires forall i, j :: 0 <= i < j < |s| ==> s[i] != s[j]
    ensures |Indices(s)| == |s|
  {
    if s != [] {
      var front, last := s[..|s| - 1], s[|s| - 1];
      SeqSetSize(front);
      assert s == front + [last];
      assert forall k :: k in s <==> k in front || k == last;
      assert Indices(s) == Indices(front) + {last};
      assert last !in front;
    }
  }

  lemma CountPartition(xs: seq<nat>, ys: seq<nat>, n: nat)
    requires forall i, j :: 0 <= i < j < |xs| ==> xs[i] != xs[j]
    requires Increasing(ys)
    requires forall k: nat :: k in xs || k in ys <==> k < n
    requires forall k: nat :: !(k in xs && k in ys)
    ensures |xs| + |ys| == n
  {
    var all := xs + ys;
    forall i, j | 0 <= i < j < |all| ensures all[i] != all[j] {
      if i < |xs| <= j {
        assert all[i] in xs && all[j] in ys;
      }
    }
    DistinctCount(all, n);
  }

  ghost function BankIndices(s: seq<Pair>): seq<nat> {
    seq(|s|, i requires 0 <= i < |s| => s[i].bank)
  }

  ghost function VoucherIndices(s: seq<Pair>): seq<nat> {
    seq(|s|, i requires 0 <= i < |s| => s[i].voucher)
  }

  lemma ChosenIsAssignment(t: Table)
    ensures OneToOne(Greedy(Offered(t)))
    ensures forall p :: p in Greedy(Offered(t)) ==> IsScored(t, p)
  {
    OfferedShape(t);
    GreedyShape(Offered(t));
  }

  /** Each side is partitioned: the matches and the left-over list account for every index once. */
  lemma OutcomePartitions(t: Table, chosen: seq<Pair>, freeBanks: seq<nat>, freeVouchers: seq<nat>)
    requires IsOutcome(t, chosen, freeBanks, freeVouchers)
    ensures OneToOne(chosen) && forall p :: p in chosen ==> IsScored(t, p)
    ensures |chosen| + |freeBanks| == t.banks
    ensures |chosen| + |freeVouchers| == t.vouchers
  {
    ChosenIsAssignment(t);
    BanksPartition(t, chosen, freeBanks);
    VouchersPartition(t, chosen, freeVouchers);
  }

  lemma BanksPartition(t: Table, chosen: seq<Pair>, free: seq<nat>)
    requires OneToOne(chosen) && forall p :: p in chosen ==> IsScored(t, p)
    requires ListsFreeBanks(free, chosen, t.banks)
    ensures |chosen| + |free| == t.banks
  {
    var bs := BankIndices(chosen);
    forall k: nat ensures k in bs <==> UsesBank(chosen, k) {
      if UsesBank(chosen, k) {
        var i :| 0 <= i < |chosen| && chosen[i].bank == k;
        assert bs[i] == k;
      }
    }
    forall k: nat | k in bs ensures k < t.banks {
      var i :| 0 <= i < |bs| && bs[i] == k;
      assert chosen[i] in chosen;
    }
    forall i, j | 0 <= i < j < |bs| ensures bs[i] != bs[j] {
      assert !Shares(chosen[i], chosen[j]);
    }
    CountPartition(bs, free, t.banks);
  }

  lemma VouchersPartition(t: Table, chosen: seq<Pair>, free: seq<nat>)
    requires OneToOne(chosen) && forall p :: p in chosen ==> IsScored(t, p)
    requires ListsFreeVouchers(free, chosen, t.vouchers)
    ensures |chosen| + |free| == t.vouchers
  {
    var vs := VoucherIndices(chosen);
    forall k: nat ensures k in vs <==> UsesVoucher(chosen, k) {
      if UsesVoucher(chosen, k) {
        var i :| 0 <= i < |chosen| && chosen[i].voucher == k;
        assert vs[i] == k;
      }
    }
    forall k: nat | k in vs ensures k < t.vouchers {
      var i :| 0 <= i < |vs| && vs[i] == k;
      assert chosen[i] in chosen;
    }
    forall i, j | 0 <= i < j < |vs| ensures vs[i] != vs[j] {
      assert !Shares(chosen[i], chosen[j]);
    }
    CountPartition(vs, free, t.vouchers);
  }

  /** A one-to-one set of truly scored pairs. */
  ghost predicate Assignment(t: Table, m: set<Pair>) {
    && (forall p :: p in m ==> IsScored(t, p))
    && (forall p, c :: p in m && c in m && p != c ==> !Shares(p, c))
  }

  /** No positive-scoring pair is left out unless one of its sides went to a pair that ranks before it. */
  ghost predicate NoMissedPair(t: Table, m: set<Pair>) {
    forall p :: IsScored(t, p) && p !in m ==> exists c :: c in m && Shares(c, p) && Precedes(c, p)
  }

  /** The chosen pairs are an assignment that misses no pair, and they are the only one. */
  lemma UniqueOutcome(t: Table, m: set<Pair>)
    ensures Assignment(t, m) && NoMissedPair(t, m) <==> m == Elements(Greedy(Offered(t)))
  {
    OfferedShape(t);
    var cands := Offered(t);
    GreedyIsStable(cands);
    if Assignment(t, m) && NoMissedPair(t, m) {
      assert Stable(m, cands);
      UniqueStableChoice(cands, m);
    }
  }

  /** A rival pairing: any one-to-one list of index pairs with the scores of the table, whatever their sign. */
  ghost predicate Rival(t: Table, s: seq<Pair>) {
    && OneToOne(s)
    && forall p :: p in s ==> p.bank < t.banks && p.voucher < t.vouchers && p.score == t.score(p.bank, p.voucher)
  }

  ghost function Positive(s: seq<Pair>): seq<Pair> {
    if s == [] then []
    else if s[0].score > 0 then [s[0]] + Positive(s[1..])
    else Positive(s[1..])
  }

  lemma {:induction false} PositivePart(s: seq<Pair>)
    requires OneToOne(s)
    ensures OneToOne(Positive(s))
    ensures forall p :: p in Positive(s) ==> p in s && p.score > 0
    ensures Total(s) <= Total(Positive(s))
  {
    if s != [] {
      PositivePart(s[1..]);
      var t := Positive(s[1..]);
      forall i | 0 <= i < |t| ensures !Shares(s[0], t[i]) {
        assert t[i] in s[1..];
        var k :| 0 < k < |s| && s[k] == t[i];
      }
      if s[0].score > 0 {
        assert Positive(s) == [s[0]] + t;
        assert Positive(s)[1..] == t;
      }
    }
  }

  /** The chosen pairs total at least half of what any other one-to-one pairing totals, for every score table. */
  lemma OutcomeHalfOptimal(t: Table, s: seq<Pair>)
    requires Rival(t, s)
    ensures Total(s) <= 2 * Total(Greedy(Offered(t)))
  {
    OfferedShape(t);
    PositivePart(s);
    GreedyHalfOptimal(Offered(t), Positive(s));
  }

  /** The chosen pairs carry true scores, and come in falling order. */
  lemma ChosenAreScored(t: Table, i: nat)
    requires i < |Greedy(Offered(t))|
    ensures IsScored(t, Greedy(Offered(t))[i])
    ensures i > 0 ==> Greedy(Offered(t))[i - 1].score >= Greedy(Offered(t))[i].score
  {
    OfferedShape(t);
    GreedyShape(Offered(t));
    var p := Greedy(Offered(t))[i];
    assert p in Greedy(Offered(t));
    assert i > 0 ==> Precedes(Greedy(Offered(t))[i - 1], p);
  }

  /**
    Two rows and two vouchers: three pairs of one score, and the fourth pair, which the tie-break
    makes necessary, of none.
   */
  ghost predicate IsTight(t: Table, s: nat) {
    && t.banks == 2 && t.vouchers == 2 && s > 0
    && t.score(0, 0) == t.score(0, 1) == t.score(1, 0) == s && t.score(1, 1) == 0
  }

  lemma TightAssignment(t: Table, s: nat)
    requires IsTight(t, s)
    ensures Assignment(t, {Pair(0, 0, s)}) && NoMissedPair(t, {Pair(0, 0, s)})
  {
    forall p | IsScored(t, p) && p != Pair(0, 0, s)
      ensures Shares(Pair(0, 0, s), p) && Precedes(Pair(0, 0, s), p)
    {
      assert p.bank == 0 || p.voucher == 0;
    }
  }

  lemma TightChoice(t: Table, s: nat)
    requires IsTight(t, s)
    ensures Greedy(Offered(t)) == [Pair(0, 0, s)]
  {
    TightAssignment(t, s);
    UniqueOutcome(t, {Pair(0, 0, s)});
    ChosenIsAssignment(t);
    OnlyOneElement(Greedy(Offered(t)), Pair(0, 0, s));
  }

  lemma OnlyOneElement(g: seq<Pair>, p: Pair)
    requires OneToOne(g) && Elements(g) == {p}
    ensures g == [p]
  {
    assert p in Elements(g);
    assert forall i :: 0 <= i < |g| ==> g[i] in Elements(g);
    assert |g| > 1 ==> !Shares(g[0], g[1]);
  }

  /**
    The factor two is attained: at every score level a table exists whose rival totals exactly twice
    the chosen total.
   */
  lemma FactorTwoIsTight(t: Table, s: nat)
    requires IsTight(t, s)
    ensures Greedy(Offered(t)) == [Pair(0, 0, s)]
    ensures Rival(t, [Pair(0, 1, s), Pair(1, 0, s)])
    ensures Total([Pair(0, 1, s), Pair(1, 0, s)]) == 2 * Total(Greedy(Offered(t)))
  {
    TightChoice(t, s);
    var g, rival := Greedy(Offered(t)), [Pair(0, 1, s), Pair(1, 0, s)];
    assert rival[1..] == [Pair(1, 0, s)];
    assert g[1..] == [] && rival[1..][1..] == [];
    assert Total(rival) == s + Total(rival[1..]);
    assert Total(rival[1..]) == s + Total(rival[1..][1..]);
  }
}
