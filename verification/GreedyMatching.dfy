/**
  Greedy one-to-one assignment of bank rows to vouchers, as a theory about scored
  candidate pairs: the assignment is stable, it is the only stable one, and its total
  is at least half of what any rival assignment reaches.
 */
module GreedyMatching {

  /** A candidate: bank row, voucher, and their score in hundredths. */
  datatype Pair = Pair(bank: nat, voucher: nat, score: int)

  /** The order in which candidates are offered: best score first, then bank index, then voucher index. */
  predicate Precedes(p: Pair, q: Pair) {
    || p.score > q.score
    || (p.score == q.score && (p.bank < q.bank || (p.bank == q.bank && p.voucher < q.voucher)))
  }

  predicate Shares(p: Pair, q: Pair) {
    p.bank == q.bank || p.voucher == q.voucher
  }

  ghost predicate OneToOne(s: seq<Pair>) {
    forall i, j :: 0 <= i < j < |s| ==> !Shares(s[i], s[j])
  }

  ghost predicate Ranked(s: seq<Pair>) {
    forall i, j :: 0 <= i < j < |s| ==> Precedes(s[i], s[j])
  }

  /** The generation order: bank index, then voucher index, each index pair once. */
  ghost predicate IndexOrdered(s: seq<Pair>) {
    forall i, j :: 0 <= i < j < |s| ==>
      s[i].bank < s[j].bank || (s[i].bank == s[j].bank && s[i].voucher < s[j].voucher)
  }

  // ---- Stable sort, best score first ----

  /** Puts `p` after every element that scores at least as much. */
  function Insert(s: seq<Pair>, p: Pair): seq<Pair> {
    if s == [] then [p]
    else if s[|s| - 1].score >= p.score then s + [p]
    else Insert(s[..|s| - 1], p) + [s[|s| - 1]]
  }

  function StableSort(s: seq<Pair>): seq<Pair> {
    if s == [] then [] else Insert(StableSort(s[..|s| - 1]), s[|s| - 1])
  }

  lemma {:induction false} InsertKeepsElements(s: seq<Pair>, p: Pair)
    ensures multiset(Insert(s, p)) == multiset(s) + multiset{p}
  {
    if s != [] && s[|s| - 1].score < p.score {
      var front := s[..|s| - 1];
      InsertKeepsElements(front, p);
      assert s == front + [s[|s| - 1]];
    }
  }

  /** The sort is a permutation: no candidate is lost, added or repeated. */
  lemma {:induction false} SortKeepsElements(s: seq<Pair>)
    ensures multiset(StableSort(s)) == multiset(s)
  {
    if s != [] {
      var front := s[..|s| - 1];
      SortKeepsElements(front);
      InsertKeepsElements(StableSort(front), s[|s| - 1]);
      assert s == front + [s[|s| - 1]];
    }
  }

  lemma SortMembers(s: seq<Pair>, p: Pair)
    ensures p in StableSort(s) <==> p in s
  {
    SortKeepsElements(s);
    assert p in s <==> p in multiset(s);
    assert p in StableSort(s) <==> p in multiset(StableSort(s));
  }

  ghost predicate IndexBelow(q: Pair, p: Pair) {
    q.bank < p.bank || (q.bank == p.bank && q.voucher < p.voucher)
  }

  lemma {:induction false} InsertRanks(s: seq<Pair>, p: Pair)
    requires Ranked(s)
    requires forall q :: q in s ==> IndexBelow(q, p)
    ensures Ranked(Insert(s, p))
  {
    if s == [] {
    } else if s[|s| - 1].score >= p.score {
      forall i | 0 <= i < |s| ensures Precedes(s[i], p) {
        assert s[i] in s;
        assert i == |s| - 1 || Precedes(s[i], s[|s| - 1]);
      }
    } else {
      var front, last := s[..|s| - 1], s[|s| - 1];
      assert s == front + [last];
      InsertRanks(front, p);
      InsertKeepsElements(front, p);
      var r := Insert(front, p);
      forall i | 0 <= i < |r| ensures Precedes(r[i], last) {
        assert r[i] in multiset(r);
        if r[i] != p {
          assert r[i] in front;
          var k :| 0 <= k < |front| && front[k] == r[i];
          assert Precedes(s[k], s[|s| - 1]);
        }
      }
    }
  }

  /**
    Stability of the sort on candidates in generation order: equal scores keep bank then
    voucher order, so the result is strictly ranked by `Precedes`.
   */
  lemma {:induction false} SortRanks(s: seq<Pair>)
    requires IndexOrdered(s)
    ensures Ranked(StableSort(s))
  {
    if s != [] {
      var front, last := s[..|s| - 1], s[|s| - 1];
      SortRanks(front);
      forall q | q in StableSort(front) ensures IndexBelow(q, last) {
        SortMembers(front, q);
        var k :| 0 <= k < |front| && front[k] == q;
        assert s[k] == q;
      }
      InsertRanks(StableSort(front), last);
    }
  }

  // ---- The greedy pass ----

  predicate Free(chosen: seq<Pair>, c: Pair) {
    forall i :: 0 <= i < |chosen| ==> !Shares(chosen[i], c)
  }

  function Greedy(cands: seq<Pair>): seq<Pair> {
    if cands == [] then []
    else
      var m := Greedy(cands[..|cands| - 1]);
      var c := cands[|cands| - 1];
      if Free(m, c) then m + [c] else m
  }

  /** What the pass promises about a candidate it leaves out. */
  ghost predicate Blocked(chosen: seq<Pair>, c: Pair) {
    exists i :: 0 <= i < |chosen| && Shares(chosen[i], c) && Precedes(chosen[i], c)
  }

  lemma {:induction false} GreedyShape(cands: seq<Pair>)
    requires Ranked(cands)
    ensures OneToOne(Greedy(cands))
    ensures Ranked(Greedy(cands))
    ensures forall p :: p in Greedy(cands) ==> p in cands
    ensures forall c :: c in cands && c !in Greedy(cands) ==> Blocked(Greedy(cands), c)
  {
    if cands != [] {
      var front, c := cands[..|cands| - 1], cands[|cands| - 1];
      GreedyShape(front);
      var m := Greedy(front);
      assert cands == front + [c];
      forall i | 0 <= i < |m| ensures Precedes(m[i], c) {
        assert m[i] in m;
        var k :| 0 <= k < |front| && front[k] == m[i];
        assert cands[k] == m[i];
      }
      forall d | d in cands && d !in Greedy(cands) ensures Blocked(Greedy(cands), d) {
        if d in front {
          var i :| 0 <= i < |m| && Shares(m[i], d) && Precedes(m[i], d);
          assert Greedy(cands)[i] == m[i];
        }
      }
    }
  }

  // ---- Stability and uniqueness ----

  /**
    One-to-one, drawn from the candidates, and no candidate left out unless a chosen pair that
    precedes it claims an endpoint.
   */
  ghost predicate Stable(m: set<Pair>, cands: seq<Pair>) {
    && (forall p :: p in m ==> p in cands)
    && (forall p, q :: p in m && q in m && p != q ==> !Shares(p, q))
    && (forall c :: c in cands && c !in m ==> exists p :: p in m && Shares(p, c) && Precedes(p, c))
  }

  ghost function Elements(s: seq<Pair>): set<Pair> {
    set p | p in s
  }

  lemma GreedyIsStable(cands: seq<Pair>)
    requires Ranked(cands)
    ensures Stable(Elements(Greedy(cands)), cands)
  {
    GreedyShape(cands);
    var g := Greedy(cands);
    forall p, q | p in g && q in g && p != q ensures !Shares(p, q) {
      var i :| 0 <= i < |g| && g[i] == p;
      var j :| 0 <= j < |g| && g[j] == q;
      if i < j { assert !Shares(g[i], g[j]); } else { assert !Shares(g[j], g[i]); }
    }
    forall c | c in cands && c !in Elements(g)
      ensures exists p :: p in Elements(g) && Shares(p, c) && Precedes(p, c)
    {
      assert Blocked(g, c);
      var i :| 0 <= i < |g| && Shares(g[i], c) && Precedes(g[i], c);
      assert g[i] in Elements(g);
    }
  }

  lemma RankOfPreceding(cands: seq<Pair>, p: Pair, k: nat) returns (i: nat)
    requires Ranked(cands) && k < |cands| && p in cands && Precedes(p, cands[k])
    ensures i < k && cands[i] == p
  {
    i :| 0 <= i < |cands| && cands[i] == p;
  }

  /** Two stable choices agree on every candidate, by the rank of the candidate. */
  lemma {:induction false} StableChoicesAgree(cands: seq<Pair>, m: set<Pair>, n: set<Pair>, k: nat)
    requires Ranked(cands) && Stable(m, cands) && Stable(n, cands) && k < |cands|
    ensures cands[k] in m <==> cands[k] in n
    decreases k
  {
    var c := cands[k];
    if c in m && c !in n {
      var p :| p in n && Shares(p, c) && Precedes(p, c);
      var i := RankOfPreceding(cands, p, k);
      StableChoicesAgree(cands, m, n, i);
      assert false;
    }
    if c in n && c !in m {
      var p :| p in m && Shares(p, c) && Precedes(p, c);
      var i := RankOfPreceding(cands, p, k);
      StableChoicesAgree(cands, m, n, i);
      assert false;
    }
  }

  /** The stable choice is unique: it is the greedy one. */
  lemma UniqueStableChoice(cands: seq<Pair>, m: set<Pair>)
    requires Ranked(cands) && Stable(m, cands)
    ensures m == Elements(Greedy(cands))
  {
    GreedyIsStable(cands);
    var g := Elements(Greedy(cands));
    forall p ensures p in m <==> p in g {
      if p in m || p in g {
        var k :| 0 <= k < |cands| && cands[k] == p;
        StableChoicesAgree(cands, m, g, k);
      }
    }
  }

  // ---- The factor-two bound ----

  ghost function Total(s: seq<Pair>): int {
    if s == [] then 0 else s[0].score + Total(s[1..])
  }

  /** The part of a rival assignment that uses row `b` or voucher `v`. */
  ghost function Touching(s: seq<Pair>, p: Pair): seq<Pair> {
    if s == [] then []
    else if Shares(p, s[0]) then [s[0]] + Touching(s[1..], p)
    else Touching(s[1..], p)
  }

  ghost function Avoiding(s: seq<Pair>, p: Pair): seq<Pair> {
    if s == [] then []
    else if Shares(p, s[0]) then Avoiding(s[1..], p)
    else [s[0]] + Avoiding(s[1..], p)
  }

  lemma {:induction false} SplitTotal(s: seq<Pair>, p: Pair)
    ensures Total(s) == Total(Touching(s, p)) + Total(Avoiding(s, p))
  {
    if s != [] {
      SplitTotal(s[1..], p);
      if Shares(p, s[0]) {
        assert Touching(s, p)[1..] == Touching(s[1..], p);
      } else {
        assert Avoiding(s, p)[1..] == Avoiding(s[1..], p);
      }
    }
  }

  /** Elements of `Avoiding` and `Touching` come from `s`, are on the right side, and stay one-to-one. */
  lemma {:induction false} SplitMembers(s: seq<Pair>, p: Pair)
    requires OneToOne(s)
    ensures forall r :: r in Avoiding(s, p) ==> r in s && !Shares(p, r)
    ensures forall r :: r in Touching(s, p) ==> r in s && Shares(p, r)
    ensures OneToOne(Avoiding(s, p)) && OneToOne(Touching(s, p))
  {
    if s != [] {
      SplitMembers(s[1..], p);
      var t := if Shares(p, s[0]) then Touching(s[1..], p) else Avoiding(s[1..], p);
      forall i | 0 <= i < |t| ensures !Shares(s[0], t[i]) {
        assert t[i] in s[1..];
        var k :| 0 < k < |s| && s[k] == t[i];
      }
    }
  }

  /** Among three pairs that each share an endpoint with `p`, two share that same endpoint. */
  lemma ThreeCannotShare(t: seq<Pair>, p: Pair)
    requires |t| > 2 && forall i :: 0 <= i < |t| ==> Shares(p, t[i])
    ensures !OneToOne(t)
  {
    assert Shares(t[0], t[1]) || Shares(t[0], t[2]) || Shares(t[1], t[2]) by {
      assert Shares(p, t[0]) && Shares(p, t[1]) && Shares(p, t[2]);
    }
  }

  /** A one-to-one assignment touches a given pair at most twice: once per endpoint. */
  lemma TouchingAtMostTwo(s: seq<Pair>, p: Pair)
    requires OneToOne(s)
    ensures |Touching(s, p)| <= 2
  {
    SplitMembers(s, p);
    var t := Touching(s, p);
    assert forall i :: 0 <= i < |t| ==> t[i] in t;
    if |t| > 2 {
      ThreeCannotShare(t, p);
    }
  }

  /** `g` has a pair that shares an endpoint with `r` and scores no lower. */
  ghost predicate Charged(g: seq<Pair>, r: Pair) {
    exists i :: 0 <= i < |g| && Shares(g[i], r) && g[i].score >= r.score
  }

  lemma TouchingTotal(s: seq<Pair>, p: Pair, bound: int)
    requires OneToOne(s) && bound >= 0
    requires forall r :: r in Touching(s, p) ==> r.score <= bound
    ensures Total(Touching(s, p)) <= 2 * bound
  {
    TouchingAtMostTwo(s, p);
    var t := Touching(s, p);
    if |t| == 1 {
      assert t[0] in t;
      assert t[1..] == [];
    } else if |t| == 2 {
      assert t[0] in t && t[1] in t;
      assert t[1..] == [t[1]];
      assert [t[1]][1..] == [];
      assert Total(t[1..]) == t[1].score;
    }
  }

  /**
    The charging argument: when `g` lists pairs with non-increasing, non-negative scores and
    every rival pair is charged to one of them, the rivals' total is at most twice `g`'s.
   */
  lemma {:induction false} ChargingBound(g: seq<Pair>, rivals: seq<Pair>)
    requires forall i, j :: 0 <= i < j < |g| ==> g[i].score >= g[j].score
    requires forall i :: 0 <= i < |g| ==> g[i].score >= 0
    requires OneToOne(rivals)
    requires forall r :: r in rivals ==> Charged(g, r)
    ensures Total(rivals) <= 2 * Total(g)
    decreases |g|
  {
    if g == [] {
      assert rivals != [] ==> rivals[0] in rivals && Charged(g, rivals[0]);
    } else {
      var p, rest := g[0], Avoiding(rivals, g[0]);
      SplitMembers(rivals, p);
      SplitTotal(rivals, p);
      forall r | r in Touching(rivals, p) ensures r.score <= p.score {
        assert Charged(g, r);
        var i :| 0 <= i < |g| && Shares(g[i], r) && g[i].score >= r.score;
      }
      TouchingTotal(rivals, p, p.score);
      forall r | r in rest ensures Charged(g[1..], r) {
        assert Charged(g, r);
        var i :| 0 <= i < |g| && Shares(g[i], r) && g[i].score >= r.score;
        assert i != 0;
        assert g[1..][i - 1] == g[i];
      }
      ChargingBound(g[1..], rest);
    }
  }

  /** A pair with its score replaced by one, to count pairs instead of weighing them. */
  ghost function Flat(s: seq<Pair>): seq<Pair> {
    seq(|s|, i requires 0 <= i < |s| => s[i].(score := 1))
  }

  lemma {:induction false} TotalFlat(s: seq<Pair>)
    ensures Total(Flat(s)) == |s|
  {
    if s != [] {
      TotalFlat(s[1..]);
      assert Flat(s)[1..] == Flat(s[1..]);
    }
  }

  /**
    Every rival drawn from the candidates totals at most twice the greedy total, and has at most
    twice as many pairs.
   */
  lemma GreedyHalfOptimal(cands: seq<Pair>, rivals: seq<Pair>)
    requires Ranked(cands)
    requires forall c :: c in cands ==> c.score > 0
    requires OneToOne(rivals) && forall r :: r in rivals ==> r in cands
    ensures Total(rivals) <= 2 * Total(Greedy(cands))
    ensures |rivals| <= 2 * |Greedy(cands)|
  {
    GreedyShape(cands);
    var g := Greedy(cands);
    forall i | 0 <= i < |g| ensures g[i].score > 0 { assert g[i] in g; }
    forall r | r in rivals ensures Charged(g, r) {
      if r in g {
        var i :| 0 <= i < |g| && g[i] == r;
        assert Shares(g[i], r);
      } else {
        assert Blocked(g, r);
        var i :| 0 <= i < |g| && Shares(g[i], r) && Precedes(g[i], r);
      }
    }
    ChargingBound(g, rivals);
    forall r | r in Flat(rivals) ensures Charged(Flat(g), r) {
      var k :| 0 <= k < |rivals| && Flat(rivals)[k] == r;
      assert rivals[k] in rivals;
      var i :| 0 <= i < |g| && Shares(g[i], rivals[k]) && g[i].score >= rivals[k].score;
      assert Shares(Flat(g)[i], r);
    }
    ChargingBound(Flat(g), Flat(rivals));
    TotalFlat(g);
    TotalFlat(rivals);
  }
}
