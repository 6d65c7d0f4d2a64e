/** UTF-8 as sections 3 and 4 of RFC 3629 define it: encoding, decoding, and character boundaries. */
module Utf8 {
  import opened Text

  type Byte = b: int | 0 <= b < 256
  type Scalar = c: int | 0 <= c <= 0x10FFFF && !(0xD800 <= c <= 0xDFFF)

  predicate IsCont(b: int) { 0x80 <= b < 0xC0 }

  // ---- Encoding ----

  function Encode1(c: Scalar): (e: seq<Byte>)
    ensures 1 <= |e| <= 4 && !IsCont(e[0])
    ensures forall i :: 0 < i < |e| ==> IsCont(e[i])
  {
    if c < 0x80 then [c]
    else if c < 0x800 then [0xC0 + c / 64, 0x80 + c % 64]
    else if c < 0x10000 then [0xE0 + c / 4096, 0x80 + c / 64 % 64, 0x80 + c % 64]
    else [0xF0 + c / 262144, 0x80 + c / 4096 % 64, 0x80 + c / 64 % 64, 0x80 + c % 64]
  }

  /** Characters written one after another, whatever the code of a single one. */
  function EncodeWith(one: Scalar -> seq<Byte>, cs: seq<Scalar>): seq<Byte> {
    if cs == [] then [] else one(cs[0]) + EncodeWith(one, cs[1..])
  }

  function Encode(cs: seq<Scalar>): seq<Byte> {
    EncodeWith(Encode1, cs)
  }

  lemma {:induction false} AppendWith(one: Scalar -> seq<Byte>, a: seq<Scalar>, b: seq<Scalar>)
    ensures EncodeWith(one, a + b) == EncodeWith(one, a) + EncodeWith(one, b)
  {
    if a == [] {
      assert a + b == b;
    } else {
      AppendWith(one, a[1..], b);
      assert (a + b)[1..] == a[1..] + b;
      assert one(a[0]) + (EncodeWith(one, a[1..]) + EncodeWith(one, b)) == EncodeWith(one, a) + EncodeWith(one, b);
    }
  }

  lemma EncodeAppend(a: seq<Scalar>, b: seq<Scalar>)
    ensures Encode(a + b) == Encode(a) + Encode(b)
  {
    AppendWith(Encode1, a, b);
  }

  /** Byte position where character `k` begins. */
  function Offset(cs: seq<Scalar>, k: nat): nat
    requires k <= |cs|
  {
    |Encode(cs[..k])|
  }

  lemma CutAppend(a: seq<Byte>, b: seq<Byte>)
    ensures (a + b)[..|a|] == a && (a + b)[|a|..] == b
  {
  }

  lemma OffsetSplit(cs: seq<Scalar>, k: nat)
    requires k <= |cs|
    ensures Encode(cs) == Encode(cs[..k]) + Encode(cs[k..])
    ensures Offset(cs, k) <= |Encode(cs)|
    ensures Encode(cs)[..Offset(cs, k)] == Encode(cs[..k]) && Encode(cs)[Offset(cs, k)..] == Encode(cs[k..])
  {
    assert cs[..k] + cs[k..] == cs;
    EncodeAppend(cs[..k], cs[k..]);
    CutAppend(Encode(cs[..k]), Encode(cs[k..]));
  }

  lemma OffsetNext(cs: seq<Scalar>, k: nat)
    requires k < |cs|
    ensures Offset(cs, k + 1) == Offset(cs, k) + |Encode1(cs[k])|
  {
    EncodeAppend(cs[..k], [cs[k]]);
    assert cs[..k] + [cs[k]] == cs[..k + 1];
    var one := [cs[k]];
    assert one[1..] == [];
    assert Encode(one) == Encode1(one[0]) + EncodeWith(Encode1, one[1..]);
  }

  /** Offsets of the tail are offsets of the whole, moved by the first character. */
  lemma OffsetTail(cs: seq<Scalar>, k: nat)
    requires 0 < k <= |cs|
    ensures Offset(cs, k) == |Encode1(cs[0])| + Offset(cs[1..], k - 1)
  {
    assert cs[..k][1..] == cs[1..][..k - 1];
  }

  lemma {:induction false} OffsetsGrow(cs: seq<Scalar>, j: nat, k: nat)
    requires j <= k <= |cs|
    ensures Offset(cs, j) <= Offset(cs, k)
    ensures j < k ==> Offset(cs, j) < Offset(cs, k)
    decreases k
  {
    if j < k {
      OffsetsGrow(cs, j, k - 1);
      OffsetNext(cs, k - 1);
    }
  }

  // ---- Boundaries ----

  predicate IsBoundary(s: seq<Byte>, i: nat) {
    i == 0 || i == |s| || (i < |s| && !IsCont(s[i]))
  }

  lemma FirstByte(cs: seq<Scalar>)
    ensures cs != [] ==> Encode(cs) != [] && !IsCont(Encode(cs)[0])
    ensures cs == [] ==> Encode(cs) == []
  {
  }

  /**
    Self-synchronisation: the boundaries of a valid text are exactly the positions where its
    characters begin, and its end.
   */
  lemma {:induction false} BoundariesAreOffsets(cs: seq<Scalar>, i: nat)
    ensures IsBoundary(Encode(cs), i) <==> exists k: nat :: k <= |cs| && i == Offset(cs, k)
    decreases |cs|
  {
    if cs == [] {
      assert Offset(cs, 0) == 0;
    } else {
      var s, e, rest := Encode(cs), Encode1(cs[0]), Encode(cs[1..]);
      assert cs[..0] == [] && cs[..|cs|] == cs;
      assert Offset(cs, 0) == 0 && Offset(cs, |cs|) == |s|;
      if i >= |e| {
        BoundariesAreOffsets(cs[1..], i - |e|);
        FirstByte(cs[1..]);
        if IsBoundary(rest, i - |e|) {
          var k: nat :| k <= |cs[1..]| && i - |e| == Offset(cs[1..], k);
          OffsetTail(cs, k + 1);
        }
        if k: nat :| k <= |cs| && i == Offset(cs, k) {
          assert k != 0;
          OffsetTail(cs, k);
          assert i - |e| == Offset(cs[1..], k - 1);
        }
      } else if i > 0 {
        if k: nat :| k <= |cs| && i == Offset(cs, k) {
          assert k != 0;
          OffsetTail(cs, k);
          assert false;
        }
      }
    }
  }

  /** A character begins at most three bytes before any position. */
  lemma {:induction false} BoundaryNearby(cs: seq<Scalar>, i: nat) returns (k: nat)
    requires i <= |Encode(cs)|
    ensures k <= |cs| && Offset(cs, k) <= i <= Offset(cs, k) + 3
    decreases |cs|
  {
    if cs == [] || i < |Encode1(cs[0])| {
      k := 0;
      assert cs[..0] == [];
    } else {
      k := BoundaryNearby(cs[1..], i - |Encode1(cs[0])|);
      k := k + 1;
      OffsetTail(cs, k);
    }
  }

  // ---- Decoding ----

  datatype Decoded = Decoded(c: Scalar, length: nat)

  function At(s: seq<Byte>, i: nat): int { if i < |s| then s[i] else -1 }

  /** One character at the start of `s`, by the syntax of well-formed byte sequences. */
  function DecodeOne(s: seq<Byte>): (d: Option<Decoded>)
    ensures d.Some? ==> 1 <= d.value.length <= |s|
  {
    var a, b, c, d := At(s, 0), At(s, 1), At(s, 2), At(s, 3);
    if 0 <= a < 0x80 then Some(Decoded(a, 1))
    else if 0xC2 <= a < 0xE0 && IsCont(b) then Some(Decoded((a - 0xC0) * 64 + (b - 0x80), 2))
    else if 0xE0 <= a < 0xF0 && IsCont(b) && IsCont(c) && (a != 0xE0 || b >= 0xA0) && (a != 0xED || b < 0xA0)
    then Some(Decoded((a - 0xE0) * 4096 + (b - 0x80) * 64 + (c - 0x80), 3))
    else if 0xF0 <= a < 0xF5 && IsCont(b) && IsCont(c) && IsCont(d) && (a != 0xF0 || b >= 0x90)
        && (a != 0xF4 || b < 0x90)
    then Some(Decoded((a - 0xF0) * 262144 + (b - 0x80) * 4096 + (c - 0x80) * 64 + (d - 0x80), 4))
    else None
  }

  function Decode(s: seq<Byte>): Option<seq<Scalar>>
    decreases |s|
  {
    if s == [] then Some([])
    else
      match DecodeOne(s)
      case None => None
      case Some(d) =>
        match Decode(s[d.length..])
        case None => None
        case Some(rest) => Some([d.c] + rest)
  }

  lemma DecodesFirst(c: Scalar, t: seq<Byte>)
    ensures DecodeOne(Encode1(c) + t) == Some(Decoded(c, |Encode1(c)|))
  {
    var e := Encode1(c);
    var s := e + t;
    assert forall i :: 0 <= i < |e| ==> s[i] == e[i];
    if 0x800 <= c < 0x10000 {
      var h, l := c / 64, c % 64;
      assert c / 4096 == h / 64 && h == 64 * (h / 64) + h % 64;
    } else if c >= 0x10000 {
      var h := c / 64;
      assert c / 4096 == h / 64 && c / 262144 == h / 64 / 64;
    }
  }

  lemma SixBits(h: nat, l: nat)
    requires l < 64
    ensures (64 * h + l) / 64 == h && (64 * h + l) % 64 == l
  {
  }

  lemma Nest(x: nat)
    ensures x / 4096 == x / 64 / 64 && x / 262144 == x / 64 / 64 / 64
  {
  }

  lemma ThreeBytes(x: Scalar, a: nat, b: nat, c: nat)
    requires x == 64 * (64 * a + b) + c && 0x800 <= x < 0x10000 && b < 64 && c < 64
    ensures Encode1(x) == [0xE0 + a, 0x80 + b, 0x80 + c]
  {
    Nest(x);
    SixBits(64 * a + b, c);
    SixBits(a, b);
  }

  lemma FourBytes(x: Scalar, a: nat, b: nat, c: nat, e: nat)
    requires x == 64 * (64 * (64 * a + b) + c) + e && x >= 0x10000 && b < 64 && c < 64 && e < 64
    ensures Encode1(x) == [0xF0 + a, 0x80 + b, 0x80 + c, 0x80 + e]
  {
    Nest(x);
    SixBits(64 * (64 * a + b) + c, e);
    SixBits(64 * a + b, c);
    SixBits(a, b);
  }

  lemma DecodedIsEncoding(s: seq<Byte>)
    requires DecodeOne(s).Some?
    ensures s[..DecodeOne(s).value.length] == Encode1(DecodeOne(s).value.c)
  {
    var x, n := DecodeOne(s).value.c, DecodeOne(s).value.length;
    if n == 2 {
      SixBits((s[0] as int) - 0xC0, (s[1] as int) - 0x80);
    } else if n == 3 {
      var a: int, b: int, c: int := s[0] - 0xE0, s[1] - 0x80, s[2] - 0x80;
      ThreeBytes(x, a, b, c);
    } else if n == 4 {
      var a: int, b: int, c: int, e: int := s[0] - 0xF0, s[1] - 0x80, s[2] - 0x80, s[3] - 0x80;
      FourBytes(x, a, b, c, e);
    }
  }

  /** Decoding undoes encoding. */
  lemma {:induction false} DecodeEncode(cs: seq<Scalar>)
    ensures Decode(Encode(cs)) == Some(cs)
  {
    if cs != [] {
      DecodeEncode(cs[1..]);
      DecodesFirst(cs[0], Encode(cs[1..]));
      assert Encode(cs)[|Encode1(cs[0])|..] == Encode(cs[1..]);
      assert [cs[0]] + cs[1..] == cs;
    }
  }

  /** A byte string decodes exactly when it is an encoding, and then to the characters it encodes. */
  lemma {:induction false} ValidIffEncoding(s: seq<Byte>, cs: seq<Scalar>)
    ensures Decode(s) == Some(cs) <==> s == Encode(cs)
    decreases |s|
  {
    DecodeEncode(cs);
    if Decode(s) == Some(cs) && s != [] {
      var d := DecodeOne(s).value;
      DecodedIsEncoding(s);
      assert cs[0] == d.c && Decode(s[d.length..]) == Some(cs[1..]);
      ValidIffEncoding(s[d.length..], cs[1..]);
      assert s == s[..d.length] + s[d.length..];
    }
  }

  /** An encoding that starts with another encoding starts with its characters. */
  lemma {:induction false} PrefixOfEncoding(cs: seq<Scalar>, ps: seq<Scalar>)
    requires Encode(ps) <= Encode(cs)
    ensures ps <= cs
    decreases |ps|
  {
    if ps != [] {
      var p, s := Encode(ps), Encode(cs);
      FirstByte(ps);
      assert cs != [];
      DecodesFirst(ps[0], Encode(ps[1..]));
      DecodesFirst(cs[0], Encode(cs[1..]));
      DecodesFirst(ps[0], s[|Encode1(ps[0])|..]);
      assert s[..|p|] == p && p[..|Encode1(ps[0])|] == Encode1(ps[0]);
      assert s[..|Encode1(ps[0])|] == Encode1(ps[0]);
      assert s == Encode1(ps[0]) + s[|Encode1(ps[0])|..];
      assert ps[0] == cs[0];
      var n := |Encode1(ps[0])|;
      assert p[n..] == Encode(ps[1..]) && s[n..] == Encode(cs[1..]);
      assert p[n..] <= s[n..];
      PrefixOfEncoding(cs[1..], ps[1..]);
    }
  }
}
