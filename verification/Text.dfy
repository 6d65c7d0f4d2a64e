/** Small pieces of string handling that several parts of the program share. */
module Text {

  datatype Option<+T> = None | Some(value: T)

  /** The Unicode White_Space property, which `trim` and `split_whitespace` use. */
  predicate IsSpace(c: char) {
    || '\t' <= c <= '\r'
    || c in {' ', '\U{85}', '\U{A0}', '\U{1680}', '\U{2028}', '\U{2029}', '\U{202F}', '\U{205F}', '\U{3000}'}
    || '\U{2000}' <= c <= '\U{200A}'
  }

  predicate IsDigit(c: char) { '0' <= c <= '9' }

  predicate IsAsciiAlnum(c: char) {
    IsDigit(c) || 'a' <= c <= 'z' || 'A' <= c <= 'Z'
  }

  function TrimStart(s: string): string {
    if s != [] && IsSpace(s[0]) then TrimStart(s[1..]) else s
  }

  function TrimEnd(s: string): string {
    if s != [] && IsSpace(s[|s| - 1]) then TrimEnd(s[..|s| - 1]) else s
  }

  function Trim(s: string): string {
    TrimEnd(TrimStart(s))
  }

  /** Splits `cur + s` into its runs of ASCII letters and digits; `cur` is the run being read. */
  function Words(s: string, cur: string): seq<string> {
    if s == [] then (if cur == [] then [] else [cur])
    else if IsAsciiAlnum(s[0]) then Words(s[1..], cur + [s[0]])
    else (if cur == [] then [] else [cur]) + Words(s[1..], [])
  }

  /** Position-level meaning of a word: a maximal run of ASCII letters and digits in `s`. */
  ghost predicate RunAt(s: string, i: int, j: int) {
    && 0 <= i < j <= |s|
    && (forall k :: i <= k < j ==> IsAsciiAlnum(s[k]))
    && (i == 0 || !IsAsciiAlnum(s[i - 1]))
    && (j == |s| || !IsAsciiAlnum(s[j]))
  }

  ghost predicate IsRun(s: string, w: string) {
    exists i, j :: RunAt(s, i, j) && s[i..j] == w
  }

  /** `Words` finds exactly the maximal runs. */
  lemma {:induction false} WordsAreRuns(s: string, cur: string, w: string)
    requires forall k :: 0 <= k < |cur| ==> IsAsciiAlnum(cur[k])
    ensures w in Words(s, cur) <==> IsRun(cur + s, w)
    decreases |s|
  {
    var t := cur + s;
    if s == [] {
      assert t == cur;
      if cur != [] {
        assert RunAt(t, 0, |t|) && t[0..|t|] == cur;
        forall i, j | RunAt(t, i, j) ensures i == 0 && j == |t| {
        }
      }
    } else if IsAsciiAlnum(s[0]) {
      WordsAreRuns(s[1..], cur + [s[0]], w);
      assert cur + [s[0]] + s[1..] == t;
    } else {
      RunsPastSeparator(cur, s, w);
      WordsAreRuns(s[1..], [], w);
      assert [] + s[1..] == s[1..];
    }
  }

  /** Moving a run between a text and the same text with a prefix in front. */
  lemma ShiftRun(p: string, u: string, i: int, j: int)
    requires p != [] && !IsAsciiAlnum(p[|p| - 1]) && 0 <= i < j <= |u|
    ensures RunAt(p + u, |p| + i, |p| + j) <==> RunAt(u, i, j)
    ensures (p + u)[|p| + i..|p| + j] == u[i..j]
  {
    var t, n := p + u, |p|;
    assert forall k :: 0 <= k < |u| ==> t[n + k] == u[k];
    if RunAt(u, i, j) {
      forall k | n + i <= k < n + j ensures IsAsciiAlnum(t[k]) {
        assert t[k] == u[k - n];
      }
    }
    if RunAt(t, n + i, n + j) {
      forall k | i <= k < j ensures IsAsciiAlnum(u[k]) {
        assert t[n + k] == u[k];
      }
    }
  }

  lemma Separated(cur: string, s: string)
    requires s != []
    ensures cur + s == (cur + [s[0]]) + s[1..]
    ensures (cur + s)[0..|cur|] == cur
  {
  }

  lemma RunBeforeOrAfter(cur: string, s: string, i: int, j: int)
    requires s != [] && !IsAsciiAlnum(s[0])
    requires forall k :: 0 <= k < |cur| ==> IsAsciiAlnum(cur[k])
    requires RunAt(cur + s, i, j)
    ensures (cur != [] && (cur + s)[i..j] == cur) || IsRun(s[1..], (cur + s)[i..j])
  {
    Separated(cur, s);
    RunSideOfSeparator(cur, s, i, j);
    if i > |cur| {
      var p, u, a, b := cur + [s[0]], s[1..], i - |cur| - 1, j - |cur| - 1;
      ShiftRun(p, u, a, b);
      assert RunAt(u, a, b) && u[a..b] == (cur + s)[i..j];
    }
  }

  lemma RunAfter(cur: string, s: string, i: int, j: int)
    requires s != [] && !IsAsciiAlnum(s[0]) && RunAt(s[1..], i, j)
    ensures IsRun(cur + s, s[1..][i..j])
  {
    assert cur + s == (cur + [s[0]]) + s[1..];
    ShiftRun(cur + [s[0]], s[1..], i, j);
  }

  /** A separator cuts the text: the runs are those before it and those after it. */
  lemma RunsPastSeparator(cur: string, s: string, w: string)
    requires s != [] && !IsAsciiAlnum(s[0])
    requires forall k :: 0 <= k < |cur| ==> IsAsciiAlnum(cur[k])
    ensures IsRun(cur + s, w) <==> (cur != [] && w == cur) || IsRun(s[1..], w)
  {
    if IsRun(cur + s, w) {
      var i, j :| RunAt(cur + s, i, j) && (cur + s)[i..j] == w;
      RunBeforeOrAfter(cur, s, i, j);
    } else if IsRun(s[1..], w) {
      var i, j :| RunAt(s[1..], i, j) && s[1..][i..j] == w;
      RunAfter(cur, s, i, j);
    } else if cur != [] && w == cur {
      WholePrefixIsRun(cur, s);
    }
  }

  lemma WholePrefixIsRun(cur: string, s: string)
    requires s != [] && !IsAsciiAlnum(s[0]) && cur != []
    requires forall k :: 0 <= k < |cur| ==> IsAsciiAlnum(cur[k])
    ensures IsRun(cur + s, cur)
  {
    assert RunAt(cur + s, 0, |cur|) && (cur + s)[0..|cur|] == cur;
  }

  lemma RunSideOfSeparator(cur: string, s: string, i: int, j: int)
    requires s != [] && !IsAsciiAlnum(s[0])
    requires forall k :: 0 <= k < |cur| ==> IsAsciiAlnum(cur[k])
    requires RunAt(cur + s, i, j)
    ensures (i == 0 && j == |cur|) || i > |cur|
  {
    var t, n := cur + s, |cur|;
    assert !IsAsciiAlnum(t[n]);
    if i <= n {
      assert j <= n;
    }
  }

  /** Trimming takes away blanks at both ends, all of them, and nothing else. */
  lemma TrimMeaning(s: string) returns (i: nat, j: nat)
    ensures i <= j <= |s| && Trim(s) == s[i..j]
    ensures forall k :: 0 <= k < |s| && !(i <= k < j) ==> IsSpace(s[k])
    ensures Trim(s) != [] ==> !IsSpace(Trim(s)[0]) && !IsSpace(Trim(s)[|Trim(s)| - 1])
  {
    i := TrimStartMeaning(s);
    var k := TrimEndMeaning(s[i..]);
    j := i + k;
    assert s[i..][..k] == s[i..j];
    forall m | j <= m < |s| ensures IsSpace(s[m]) {
      assert s[i..][m - i] == s[m];
    }
  }

  lemma {:induction false} TrimStartMeaning(s: string) returns (i: nat)
    ensures i <= |s| && TrimStart(s) == s[i..]
    ensures forall k :: 0 <= k < i ==> IsSpace(s[k])
    ensures i < |s| ==> !IsSpace(s[i])
    decreases |s|
  {
    i := 0;
    if s != [] && IsSpace(s[0]) {
      i := TrimStartMeaning(s[1..]);
      i := i + 1;
      assert forall k :: 1 <= k < i ==> s[k] == s[1..][k - 1];
    }
  }

  lemma {:induction false} TrimEndMeaning(s: string) returns (j: nat)
    ensures j <= |s| && TrimEnd(s) == s[..j]
    ensures forall k :: j <= k < |s| ==> IsSpace(s[k])
    ensures j > 0 ==> !IsSpace(s[j - 1])
    decreases |s|
  {
    j := |s|;
    if s != [] && IsSpace(s[|s| - 1]) {
      j := TrimEndMeaning(s[..|s| - 1]);
    }
  }

  /** The white-space characters by their code points. */
  lemma SpaceCodes(c: char)
    ensures IsSpace(c) <==>
      || 9 <= c as int <= 13 || c as int == 32 || c as int == 133 || c as int == 160 || c as int == 5760
      || 8192 <= c as int <= 8202 || c as int == 8232 || c as int == 8233 || c as int == 8239
      || c as int == 8287 || c as int == 12288
  {
  }

  /** The characters a token may have by their code points. */
  lemma AlnumCodes(c: char)
    ensures IsDigit(c) <==> 48 <= c as int <= 57
    ensures IsAsciiAlnum(c) <==> 48 <= c as int <= 57 || 65 <= c as int <= 90 || 97 <= c as int <= 122
  {
  }
}
