/** Bytes, big-endian integers and ASCII text, as Python's struct, bytes and str treat them. */
module Bytes {
  import opened Sequences

  type Byte = b: int | 0 <= b < 256

  function Pow256(k: nat): (p: nat)
    ensures p >= 1
  {
    if k == 0 then 1 else 256 * Pow256(k - 1)
  }

  /** struct.unpack of one unsigned big-endian field. */
  function FromBE(b: seq<Byte>): nat {
    if b == [] then 0 else FromBE(b[..|b| - 1]) * 256 + b[|b| - 1]
  }

  function ToBE(n: nat, width: nat): (b: seq<Byte>)
    ensures |b| == width
  {
    if width == 0 then [] else ToBE(n / 256, width - 1) + [n % 256]
  }

  lemma {:induction false} FromToBE(n: nat, width: nat)
    requires n < Pow256(width)
    ensures FromBE(ToBE(n, width)) == n
  {
    if width > 0 {
      FromToBE(n / 256, width - 1);
      assert ToBE(n, width)[..width - 1] == ToBE(n / 256, width - 1);
    }
  }

  /** A big-endian field determines its bytes. */
  lemma {:induction false} ToFromBE(b: seq<Byte>)
    ensures FromBE(b) < Pow256(|b|)
    ensures ToBE(FromBE(b), |b|) == b
  {
    if b != [] {
      ToFromBE(b[..|b| - 1]);
    }
  }

  /** The first byte is the most significant. */
  lemma {:induction false} BigEndian(c: Byte, b: seq<Byte>)
    ensures FromBE([c] + b) == c * Pow256(|b|) + FromBE(b)
  {
    var t := [c] + b;
    if b == [] {
      assert t[..0] == [];
      assert FromBE(t[..0]) == 0;
    } else {
      var n := |b| - 1;
      assert t[..|b|] == [c] + b[..n] && t[|b|] == b[n];
      BigEndian(c, b[..n]);
      Distribute(c, Pow256(n), FromBE(b[..n]));
    }
  }

  lemma Distribute(c: nat, p: nat, v: nat)
    ensures (c * p + v) * 256 == c * (256 * p) + v * 256
  {
  }

  lemma FromBEInjective(a: seq<Byte>, b: seq<Byte>)
    requires |a| == |b| && FromBE(a) == FromBE(b)
    ensures a == b
  {
    ToFromBE(a);
    ToFromBE(b);
  }

  // ----- ASCII text -----

  predicate IsAscii(b: seq<Byte>) {
    forall i :: 0 <= i < |b| ==> b[i] < 128
  }

  /** What str.strip() removes from ASCII text: blank, tab to carriage return, and the four
      separators 0x1C to 0x1F. */
  predicate IsBlank(c: Byte) {
    c == 32 || 9 <= c <= 13 || 28 <= c <= 31
  }

  function StripLeft(b: seq<Byte>): seq<Byte> {
    if b != [] && IsBlank(b[0]) then StripLeft(b[1..]) else b
  }

  function StripRight(b: seq<Byte>): seq<Byte> {
    if b != [] && IsBlank(b[|b| - 1]) then StripRight(b[..|b| - 1]) else b
  }

  function Strip(b: seq<Byte>): seq<Byte> {
    StripRight(StripLeft(b))
  }

  function Blanks(n: nat): (b: seq<Byte>)
    ensures |b| == n && forall i :: 0 <= i < n ==> b[i] == 32
  {
    seq(n, _ => 32)
  }

  /** Stripped text: no blank at either end. */
  predicate IsStripped(b: seq<Byte>) {
    b == [] || (!IsBlank(b[0]) && !IsBlank(b[|b| - 1]))
  }

  lemma {:induction false} StripRightPadding(text: seq<Byte>, n: nat)
    requires IsStripped(text)
    ensures StripRight(text + Blanks(n)) == text
  {
    var b := text + Blanks(n);
    if n > 0 {
      assert b[..|b| - 1] == text + Blanks(n - 1);
      StripRightPadding(text, n - 1);
    } else {
      assert b == text;
    }
  }

  lemma {:induction false} StripOfBlanks(n: nat)
    ensures StripLeft(Blanks(n)) == []
  {
    if n > 0 {
      assert Blanks(n)[1..] == Blanks(n - 1);
      StripOfBlanks(n - 1);
    }
  }

  /** Right padding is stripped off again. */
  lemma StripPadded(text: seq<Byte>, n: nat)
    requires IsStripped(text)
    ensures Strip(text + Blanks(n)) == text
  {
    if text == [] {
      StripOfBlanks(n);
      assert text + Blanks(n) == Blanks(n);
    } else {
      StripRightPadding(text, n);
    }
  }

  /** The bytes strip() removes: blank, tab, line feed, vertical tab, form feed, carriage return and
      the separators 28 to 31. */
  ghost predicate AllBlank(b: seq<Byte>) {
    forall i :: 0 <= i < |b| ==> b[i] in {32, 9, 10, 11, 12, 13, 28, 29, 30, 31}
  }

  lemma {:induction false} StripLeftSplits(b: seq<Byte>) returns (a: seq<Byte>)
    ensures b == a + StripLeft(b) && AllBlank(a)
    ensures StripLeft(b) != [] ==> !AllBlank([StripLeft(b)[0]])
  {
    if b != [] && IsBlank(b[0]) {
      var rest := StripLeftSplits(b[1..]);
      a := [b[0]] + rest;
      assert b == [b[0]] + b[1..] == [b[0]] + (rest + StripLeft(b[1..])) == a + StripLeft(b[1..]);
      assert AllBlank(a);
    } else {
      a := [];
      assert b != [] ==> [b[0]][0] == b[0];
    }
  }

  lemma {:induction false} StripRightSplits(b: seq<Byte>) returns (c: seq<Byte>)
    ensures b == StripRight(b) + c && AllBlank(c)
    ensures StripRight(b) != [] ==> !AllBlank([StripRight(b)[|StripRight(b)| - 1]])
  {
    if b != [] && IsBlank(b[|b| - 1]) {
      var rest := StripRightSplits(b[..|b| - 1]);
      c := rest + [b[|b| - 1]];
      assert b == b[..|b| - 1] + [b[|b| - 1]];
    } else {
      c := [];
      assert b != [] ==> [b[|b| - 1]][0] == b[|b| - 1];
    }
  }

  /** Stripping takes off blanks on both sides, and all of them. */
  lemma StripMeaning(b: seq<Byte>) returns (a: seq<Byte>, c: seq<Byte>)
    ensures b == a + Strip(b) + c && AllBlank(a) && AllBlank(c)
    ensures Strip(b) != [] ==> !AllBlank([Strip(b)[0]]) && !AllBlank([Strip(b)[|Strip(b)| - 1]])
  {
    a := StripLeftSplits(b);
    c := StripRightSplits(StripLeft(b));
    assert Strip(b) != [] ==> Strip(b)[0] == StripLeft(b)[0];
  }

  // ----- upper-casing -----

  function UpperByte(c: Byte): Byte {
    if 97 <= c <= 122 then c - 32 else c
  }

  function Upper(b: seq<Byte>): (r: seq<Byte>)
    ensures |r| == |b| && forall i :: 0 <= i < |b| ==> r[i] == UpperByte(b[i])
  {
    seq(|b|, i requires 0 <= i < |b| => UpperByte(b[i]))
  }

  lemma {:induction false} UpperStripLeft(b: seq<Byte>)
    ensures StripLeft(Upper(b)) == Upper(StripLeft(b))
  {
    if b != [] && IsBlank(b[0]) {
      assert Upper(b)[1..] == Upper(b[1..]);
      UpperStripLeft(b[1..]);
    }
  }

  lemma {:induction false} UpperStripRight(b: seq<Byte>)
    ensures StripRight(Upper(b)) == Upper(StripRight(b))
  {
    if b != [] && IsBlank(b[|b| - 1]) {
      assert Upper(b)[..|b| - 1] == Upper(b[..|b| - 1]);
      UpperStripRight(b[..|b| - 1]);
    }
  }

  /** Letters and blanks are different bytes, so upper-casing commutes with stripping. */
  lemma UpperStrip(b: seq<Byte>)
    ensures Strip(Upper(b)) == Upper(Strip(b))
  {
    UpperStripLeft(b);
    UpperStripRight(StripLeft(b));
  }
}
