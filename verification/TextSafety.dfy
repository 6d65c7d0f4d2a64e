/** The boundary-safe slicing helpers, on UTF-8 bytes, and what they mean for the characters. */
module TextSafety {
  import opened Text
  import opened Utf8

  // ---- Rounding down to a boundary ----

  method FloorCharBoundary(s: seq<Byte>, idx: nat) returns (r: nat)
    ensures r <= idx && r <= |s| && IsBoundary(s, r)
    ensures forall j :: r < j <= idx && j <= |s| ==> !IsBoundary(s, j)
  {
    r := if idx < |s| then idx else |s|;
    while r > 0 && !IsBoundary(s, r)
      invariant r <= idx && r <= |s|
      invariant forall j :: r < j <= idx && j <= |s| ==> !IsBoundary(s, j)
    {
      r := r - 1;
    }
  }

  /** The position the loop finds: the greatest boundary at or below the index. */
  ghost predicate IsFloor(s: seq<Byte>, idx: nat, r: nat) {
    r <= idx && r <= |s| && IsBoundary(s, r) && forall j :: r < j <= idx && j <= |s| ==> !IsBoundary(s, j)
  }

  /** On valid text the rounding is the start of a character, and loses at most three bytes. */
  lemma FloorOnText(cs: seq<Scalar>, idx: nat, r: nat) returns (k: nat)
    requires IsFloor(Encode(cs), idx, r)
    ensures k <= |cs| && r == Offset(cs, k)
    ensures k < |cs| ==> Offset(cs, k + 1) > idx
    ensures (if idx < |Encode(cs)| then idx else |Encode(cs)|) - r <= 3
  {
    var s := Encode(cs);
    var top := if idx < |s| then idx else |s|;
    BoundariesAreOffsets(cs, r);
    k :| k <= |cs| && r == Offset(cs, k);
    if k < |cs| {
      OffsetsGrow(cs, k, k + 1);
      OffsetSplit(cs, k + 1);
      BoundariesAreOffsets(cs, Offset(cs, k + 1));
    }
    var m := BoundaryNearby(cs, top);
    BoundariesAreOffsets(cs, Offset(cs, m));
  }

  /** The prefix cut at the floor is the longest run of whole characters that fits, and decodes to them. */
  method SafePrefix(s: seq<Byte>, maxBytes: nat) returns (p: seq<Byte>)
    ensures p <= s && |p| <= maxBytes && IsFloor(s, maxBytes, |p|)
  {
    var r := FloorCharBoundary(s, maxBytes);
    p := s[..r];
  }

  lemma SafePrefixDecodes(cs: seq<Scalar>, maxBytes: nat, p: seq<Byte>) returns (k: nat)
    requires p <= Encode(cs) && IsFloor(Encode(cs), maxBytes, |p|)
    ensures k <= |cs| && Decode(p) == Some(cs[..k])
    ensures forall j: nat :: k < j <= |cs| ==> Offset(cs, j) > maxBytes
  {
    k := FloorOnText(cs, maxBytes, |p|);
    OffsetSplit(cs, k);
    assert p == Encode(cs)[..|p|] == Encode(cs[..k]);
    DecodeEncode(cs[..k]);
    forall j: nat | k < j <= |cs| ensures Offset(cs, j) > maxBytes {
      OffsetsGrow(cs, k + 1, j);
    }
  }

  // ---- ASCII-case-insensitive search ----

  function Lower(b: int): int { if 0x41 <= b <= 0x5A then b + 32 else b }

  predicate MatchAt(s: seq<Byte>, p: seq<Byte>, i: nat) {
    i + |p| <= |s| && forall j :: 0 <= j < |p| ==> Lower(s[i + j]) == Lower(p[j])
  }

  /** The first position from `i` on that is a boundary and matches. */
  function FindFrom(s: seq<Byte>, p: seq<Byte>, i: nat): (r: Option<nat>)
    ensures r.Some? ==> i <= r.value && IsBoundary(s, r.value) && MatchAt(s, p, r.value)
    ensures forall j: nat :: i <= j && (r.Some? ==> j < r.value) ==> !(IsBoundary(s, j) && MatchAt(s, p, j))
    decreases |s| - i
  {
    if i + |p| > |s| then None
    else if IsBoundary(s, i) && MatchAt(s, p, i) then Some(i)
    else if i == |s| then None
    else FindFrom(s, p, i + 1)
  }

  function FindAsciiCi(s: seq<Byte>, p: seq<Byte>): Option<nat> {
    if p == [] || |s| < |p| then None else FindFrom(s, p, 0)
  }

  /** Folding ASCII case, on characters and on bytes. */
  function FoldChars(cs: seq<Scalar>): seq<Scalar> {
    seq(|cs|, i requires 0 <= i < |cs| => Lower(cs[i]))
  }

  function FoldBytes(s: seq<Byte>): seq<Byte> {
    seq(|s|, i requires 0 <= i < |s| => Lower(s[i]))
  }

  lemma {:induction false} FoldEncodes(cs: seq<Scalar>)
    ensures FoldBytes(Encode(cs)) == Encode(FoldChars(cs))
  {
    if cs != [] {
      FoldEncodes(cs[1..]);
      var e, rest := Encode1(cs[0]), Encode(cs[1..]);
      assert FoldChars(cs)[1..] == FoldChars(cs[1..]);
      FoldOne(cs[0]);
      assert FoldBytes(e + rest) == FoldBytes(e) + FoldBytes(rest);
    }
  }

  lemma FoldOne(c: Scalar)
    ensures FoldBytes(Encode1(c)) == Encode1(Lower(c))
  {
  }

  lemma FoldKeepsOffsets(cs: seq<Scalar>, k: nat)
    requires k <= |cs|
    ensures Offset(FoldChars(cs), k) == Offset(cs, k)
  {
    FoldEncodes(cs[..k]);
    assert FoldChars(cs)[..k] == FoldChars(cs[..k]);
    assert |FoldBytes(Encode(cs[..k]))| == |Encode(cs[..k])|;
  }

  /** A match, said with folded bytes. */
  lemma MatchIsFoldedSlice(s: seq<Byte>, p: seq<Byte>, i: nat)
    requires i + |p| <= |s|
    ensures MatchAt(s, p, i) <==> FoldBytes(p) <= FoldBytes(s)[i..]
  {
    var fs, fp := FoldBytes(s), FoldBytes(p);
    if MatchAt(s, p, i) {
      assert forall j :: 0 <= j < |p| ==> fp[j] == fs[i..][j];
    }
    if fp <= fs[i..] {
      forall j | 0 <= j < |p| ensures Lower(s[i + j]) == Lower(p[j]) {
        assert fp[j] == fs[i..][j] == fs[i + j];
      }
    }
  }

  /** Character `k` starts a match of the characters `ps`, ASCII case aside. */
  ghost predicate CharsMatchAt(cs: seq<Scalar>, ps: seq<Scalar>, k: nat) {
    k <= |cs| && FoldChars(ps) <= FoldChars(cs)[k..]
  }

  /** An encoding found inside another one starts and ends where characters do. */
  lemma SliceIsAligned(cs: seq<Scalar>, ps: seq<Scalar>, i: nat) returns (k: nat)
    requires ps != [] && i <= |Encode(cs)| && Encode(ps) <= Encode(cs)[i..]
    ensures k + |ps| <= |cs| && ps <= cs[k..]
    ensures i == Offset(cs, k) && i + |Encode(ps)| == Offset(cs, k + |ps|)
  {
    FirstByte(ps);
    assert Encode(cs)[i..][0] == Encode(ps)[0];
    BoundariesAreOffsets(cs, i);
    k :| k <= |cs| && i == Offset(cs, k);
    OffsetSplit(cs, k);
    PrefixOfEncoding(cs[k..], ps);
    OffsetAfter(cs, ps, k);
  }

  lemma OffsetAfter(cs: seq<Scalar>, ps: seq<Scalar>, k: nat)
    requires k <= |cs| && ps <= cs[k..]
    ensures k + |ps| <= |cs| && Offset(cs, k + |ps|) == Offset(cs, k) + |Encode(ps)|
  {
    EncodeAppend(cs[..k], ps);
    assert cs[..k + |ps|] == cs[..k] + ps;
  }

  /** A byte match of valid, non-empty text is a match of whole characters: it starts and ends on boundaries. */
  lemma ByteMatchIsCharMatch(cs: seq<Scalar>, ps: seq<Scalar>, i: nat) returns (k: nat)
    requires ps != [] && MatchAt(Encode(cs), Encode(ps), i)
    ensures k + |ps| <= |cs| && i == Offset(cs, k) && CharsMatchAt(cs, ps, k)
    ensures i + |Encode(ps)| == Offset(cs, k + |ps|)
    ensures IsBoundary(Encode(cs), i) && IsBoundary(Encode(cs), i + |Encode(ps)|)
  {
    FoldEncodes(cs);
    FoldEncodes(ps);
    MatchIsFoldedSlice(Encode(cs), Encode(ps), i);
    k := SliceIsAligned(FoldChars(cs), FoldChars(ps), i);
    FoldKeepsOffsets(cs, k);
    FoldKeepsOffsets(cs, k + |ps|);
    BoundariesAreOffsets(cs, i);
    BoundariesAreOffsets(cs, Offset(cs, k + |ps|));
  }

  lemma CharMatchIsByteMatch(cs: seq<Scalar>, ps: seq<Scalar>, k: nat)
    requires CharsMatchAt(cs, ps, k)
    ensures MatchAt(Encode(cs), Encode(ps), Offset(cs, k))
  {
    var fc, fp := FoldChars(cs), FoldChars(ps);
    FoldEncodes(cs);
    FoldEncodes(ps);
    FoldKeepsOffsets(cs, k);
    OffsetSplit(fc, k);
    assert fc[k..] == fp + fc[k..][|fp|..];
    EncodeAppend(fp, fc[k..][|fp|..]);
    assert Encode(fp) <= Encode(fc)[Offset(cs, k)..];
    assert |Encode(ps)| == |FoldBytes(Encode(ps))| && |Encode(cs)| == |FoldBytes(Encode(cs))|;
    MatchIsFoldedSlice(Encode(cs), Encode(ps), Offset(cs, k));
  }

  /**
    The byte search is the character search: it returns the start of the first character at
    which the pattern's characters match, ASCII case aside, and None exactly when there is no
    such character or the pattern is empty.
   */
  lemma FindIsCharSearch(cs: seq<Scalar>, ps: seq<Scalar>)
    ensures FindAsciiCi(Encode(cs), Encode(ps)).None? <==> ps == [] || forall k: nat :: !CharsMatchAt(cs, ps, k)
    ensures FindAsciiCi(Encode(cs), Encode(ps)).Some? ==>
      exists k: nat :: k <= |cs| && FindAsciiCi(Encode(cs), Encode(ps)).value == Offset(cs, k)
          && CharsMatchAt(cs, ps, k)
                       && forall j: nat :: j < k ==> !CharsMatchAt(cs, ps, j)
  {
    var s, p := Encode(cs), Encode(ps);
    var r := FindAsciiCi(s, p);
    FirstByte(ps);
    if r.Some? {
      var k := ByteMatchIsCharMatch(cs, ps, r.value);
      forall j: nat | j < k ensures !CharsMatchAt(cs, ps, j) {
        if CharsMatchAt(cs, ps, j) {
          CharMatchIsByteMatch(cs, ps, j);
          BoundariesAreOffsets(cs, Offset(cs, j));
          OffsetsGrow(cs, j, k);
        }
      }
    } else if ps != [] {
      forall k: nat ensures !CharsMatchAt(cs, ps, k) {
        if CharsMatchAt(cs, ps, k) {
          CharMatchIsByteMatch(cs, ps, k);
          BoundariesAreOffsets(cs, Offset(cs, k));
        }
      }
    }
  }

  /**
    Nothing is missed by looking at boundaries only: without a result, the pattern occurs at no byte
    position at all.
   */
  lemma NoneMeansNowhere(cs: seq<Scalar>, ps: seq<Scalar>, i: nat)
    requires ps != [] && FindAsciiCi(Encode(cs), Encode(ps)).None?
    ensures !MatchAt(Encode(cs), Encode(ps), i)
  {
    FirstByte(ps);
    if MatchAt(Encode(cs), Encode(ps), i) {
      var k := ByteMatchIsCharMatch(cs, ps, i);
    }
  }

  // ---- The tax-number scan ----

  predicate Digit(b: int) { 0x30 <= b <= 0x39 }
  predicate Letter(b: int) { 0x41 <= b <= 0x5A || 0x61 <= b <= 0x7A }

  /** Two digits, five letters, four digits, four letters or digits. */
  predicate LooksLikeGstin(g: seq<Byte>) {
    && |g| == 15
    && (forall i :: 0 <= i < 2 ==> Digit(g[i]))
    && (forall i :: 2 <= i < 7 ==> Letter(g[i]))
    && (forall i :: 7 <= i < 11 ==> Digit(g[i]))
    && (forall i :: 11 <= i < 15 ==> Digit(g[i]) || Letter(g[i]))
  }

  /** The scan tries position `i`, its cuts fall on boundaries, and a tax number is there. */
  predicate ScannedAt(n: seq<Byte>, i: nat) {
    i + 15 < |n| && IsBoundary(n, i) && IsBoundary(n, i + 15) && LooksLikeGstin(n[i..i + 15])
  }

  /** The scan tries every start but the last, and only where all its cuts fall on boundaries. */
  method FindsGstin(n: seq<Byte>) returns (found: bool)
    ensures found <==> exists i: nat :: ScannedAt(n, i)
  {
    var last := if |n| < 15 then 0 else |n| - 15;
    for i := 0 to last
      invariant forall k: nat :: k < i ==> !ScannedAt(n, k)
    {
      if IsBoundary(n, i) && IsBoundary(n, i + 15) {
        var chunk := n[i..i + 15];
        if IsBoundary(chunk, 2) && IsBoundary(chunk, 7) && IsBoundary(chunk, 11) && LooksLikeGstin(chunk) {
          assert ScannedAt(n, i);
          return true;
        }
      }
    }
    found := false;
  }

  /** On valid text the boundary tests exclude no tax number. */
  lemma GstinOnBoundaries(cs: seq<Scalar>, i: nat)
    requires i + 15 <= |Encode(cs)| && LooksLikeGstin(Encode(cs)[i..i + 15])
    ensures IsBoundary(Encode(cs), i) && IsBoundary(Encode(cs), i + 15)
  {
    var n := Encode(cs);
    var g := n[i..i + 15];
    assert g[0] == n[i] && g[14] == n[i + 14];
    BoundariesAreOffsets(cs, i + 14);
    var k: nat :| k <= |cs| && i + 14 == Offset(cs, k);
    OffsetSplit(cs, k);
    assert cs[k..] != [];
    assert n[i + 14..][0] == Encode1(cs[k])[0] by { assert Encode(cs[k..])[0] == Encode1(cs[k..][0])[0]; }
    OffsetNext(cs, k);
    BoundariesAreOffsets(cs, i + 15);
  }

  ghost predicate GstinAt(n: seq<Byte>, i: nat) {
    i + 15 <= |n| && LooksLikeGstin(n[i..i + 15])
  }

  /**
    On valid text the scan finds a tax number exactly when one starts before the last possible
    start: the one that ends the text is the only one missed.
   */
  lemma ScanFindsAllButTheLast(cs: seq<Scalar>)
    ensures var n := Encode(cs);
      (exists i: nat :: ScannedAt(n, i))
      <==> exists i: nat :: i + 15 != |n| && GstinAt(n, i)
  {
    var n := Encode(cs);
    if i: nat :| i + 15 != |n| && GstinAt(n, i) {
      GstinOnBoundaries(cs, i);
      assert ScannedAt(n, i);
    }
    if i: nat :| ScannedAt(n, i) {
      assert GstinAt(n, i);
    }
  }

  /** 27AAPFU0939F1ZV */
  const SAMPLE_GSTIN: seq<Scalar> :=
    [0x32, 0x37, 0x41, 0x41, 0x50, 0x46, 0x55, 0x30, 0x39, 0x33, 0x39, 0x46, 0x31, 0x5A, 0x56]

  lemma {:induction false} AsciiIsItself(cs: seq<Scalar>)
    requires forall i :: 0 <= i < |cs| ==> cs[i] < 0x80
    ensures Encode(cs) == cs
  {
    if cs != [] {
      AsciiIsItself(cs[1..]);
      assert cs == [cs[0]] + cs[1..];
    }
  }

  /** The miss is real: behind any ASCII narration without digits, a tax number that ends the text is not found. */
  lemma FinalGstinIsMissed(narration: seq<Scalar>)
    requires forall i :: 0 <= i < |narration| ==> narration[i] < 0x80 && !Digit(narration[i])
    ensures var n := Encode(narration + SAMPLE_GSTIN);
      && GstinAt(n, |narration|)
      && !exists i: nat :: ScannedAt(n, i)
  {
    var cs := narration + SAMPLE_GSTIN;
    AsciiIsItself(cs);
    assert cs[|narration|..|narration| + 15] == SAMPLE_GSTIN;
    SampleLooksRight();
    forall i: nat ensures !ScannedAt(cs, i) {
      if i < |narration| { NoDigitNoGstin(cs, i); }
    }
  }

  lemma SampleLooksRight()
    ensures LooksLikeGstin(SAMPLE_GSTIN)
  {
  }

  lemma NoDigitNoGstin(n: seq<Byte>, i: nat)
    requires i < |n| && !Digit(n[i])
    ensures !ScannedAt(n, i)
  {
    if i + 15 < |n| { assert n[i..i + 15][0] == n[i]; }
  }

  // ---- Case ----

  function UpperByte(b: Byte): Byte {
    if 0x61 <= b <= 0x7A then b - 0x20 else b
  }

  /** ASCII letters match in either case, in the text and in the pattern; nothing else is confused. */
  lemma CaseOfOneByte(a: Byte, b: Byte)
    ensures Lower(a) == Lower(b) <==> UpperByte(a) == UpperByte(b)
  {
  }

  function UpperBytes(s: seq<Byte>): seq<Byte> {
    seq(|s|, i requires 0 <= i < |s| => UpperByte(s[i]))
  }

  /** A match is equality up to the case of ASCII letters. */
  lemma MatchIsCaseless(s: seq<Byte>, p: seq<Byte>, i: nat)
    ensures MatchAt(s, p, i) <==> i + |p| <= |s| && UpperBytes(s[i..i + |p|]) == UpperBytes(p)
  {
    if i + |p| <= |s| {
      var u := s[i..i + |p|];
      forall j | 0 <= j < |p| ensures Lower(s[i + j]) == Lower(p[j]) <==> UpperBytes(u)[j] == UpperBytes(p)[j] {
        CaseOfOneByte(s[i + j], p[j]);
      }
      assert |UpperBytes(u)| == |UpperBytes(p)|;
    }
  }

  // ---- The form of a tax number ----

  /** D stands for a digit, L for a letter, X for either. */
  const GSTIN_FORM: string := "DDLLLLLDDDDXXXX"

  predicate HasForm(form: char, b: Byte) {
    var digit, letter := 48 <= b <= 57, 65 <= b <= 90 || 97 <= b <= 122;
    if form == 'D' then digit else if form == 'L' then letter else digit || letter
  }

  /** A tax number is fifteen bytes of the form, place by place. */
  lemma GstinForm(g: seq<Byte>)
    ensures LooksLikeGstin(g) <==> |g| == 15 && forall i :: 0 <= i < 15 ==> HasForm(GSTIN_FORM[i], g[i])
  {
  }
}
