/** The payload rewrite of the live feed: upper-casing bytes 24 to 31 in place before sending. */
module ItchRewrite {
  import opened Bytes
  import opened ItchCodec
  import opened ItchRoundTrip
  import opened Sequences

  predicate IsRewritten(t: Byte) {
    t == TYPE_A || t == TYPE_E || t == TYPE_X || t == TYPE_D || t == TYPE_U || t == TYPE_P || t == TYPE_Q
  }

  function Rewrite(p: seq<Byte>): seq<Byte> {
    seq(|p|, i requires 0 <= i < |p| => if IsRewritten(p[0]) && 24 <= i < 32 then UpperByte(p[i]) else p[i])
  }

  /** The loop of _send_message. `ok` is false for the exception an empty payload raises. */
  method RewriteInPlace(payload: array<Byte>) returns (ok: bool)
    modifies payload
    ensures ok <==> payload.Length > 0
    ensures payload[..] == Rewrite(old(payload[..]))
    ensures forall i :: 0 <= i < payload.Length && !(24 <= i < 32) ==> payload[i] == old(payload[i])
    ensures payload.Length > 0 ==>
              var t := old(payload[0]);
              forall i :: 24 <= i < 32 && i < payload.Length ==>
                payload[i] == if t as char in "AEXDUPQ" && 'a' <= old(payload[i]) as char <= 'z'
                              then old(payload[i]) - 32 else old(payload[i])
  {
    if payload.Length == 0 {
      return false;
    }
    var end := if payload.Length < 32 then payload.Length else 32;
    if IsRewritten(payload[0]) && 24 < payload.Length {
      var i := 24;
      while i < end
        invariant 24 <= i <= end
        invariant forall j :: 0 <= j < payload.Length ==>
                    payload[j] == if 24 <= j < i then UpperByte(old(payload[j])) else old(payload[j])
      {
        if 97 <= payload[i] <= 122 {
          payload[i] := payload[i] - 32;
        }
        i := i + 1;
      }
    }
    ok := true;
  }

  // ----- shape -----

  predicate NoLower(p: seq<Byte>, lo: nat, hi: nat) {
    forall i :: lo <= i < hi && i < |p| ==> !(97 <= p[i] <= 122)
  }

  /** A second rewrite changes nothing, and the first changes nothing exactly when the type is not
      rewritten or no byte from 24 to 31 is a small letter. */
  lemma RewriteIsIdempotent(p: seq<Byte>)
    ensures Rewrite(Rewrite(p)) == Rewrite(p)
    ensures p != [] ==> (Rewrite(p) == p <==> !IsRewritten(p[0]) || NoLower(p, 24, 32))
  {
    if Rewrite(p) == p && p != [] && IsRewritten(p[0]) {
      forall i | 24 <= i < 32 && i < |p| ensures !(97 <= p[i] <= 122) {
        assert Rewrite(p)[i] == UpperByte(p[i]);
      }
    }
  }

  // ----- meaning -----

  function UpperSymbol(f: Fields): Fields {
    match f
    case AddOrder(l, t, symbol, o, side, shares, price) => AddOrder(l, t, Upper(symbol), o, side, shares, price)
    case Trade(l, t, symbol, o, side, shares, price, m) => Trade(l, t, Upper(symbol), o, side, shares, price, m)
    case _ => f
  }

  function MapUpper(f: Option<Fields>): Option<Fields> {
    match f
    case None => None
    case Some(g) => Some(UpperSymbol(g))
  }

  lemma IntUntouched(p: seq<Byte>, lo: nat, hi: nat)
    requires lo <= hi && (hi <= 24 || 32 <= lo)
    ensures ReadInt(Rewrite(p), lo, hi) == ReadInt(p, lo, hi)
  {
    if hi <= |p| {
      assert Rewrite(p)[lo..hi] == p[lo..hi];
    }
  }

  lemma SymbolUppercased(p: seq<Byte>)
    requires |p| >= 32 && IsRewritten(p[0])
    ensures var before, after := ReadSymbol(p, 24, 32), ReadSymbol(Rewrite(p), 24, 32);
            after == if before.None? then None else Some(Upper(before.value))
  {
    var b := p[24..32];
    assert Rewrite(p)[24..32] == Upper(b);
    UpperStrip(b);
    if IsAscii(Upper(b)) {
      forall i | 0 <= i < |b| ensures b[i] < 128 {
        assert Upper(b)[i] < 128;
      }
    }
  }

  /** For add orders and trades the rewrite means exactly: the symbol in capitals. This holds for
      payloads of every length, decodable or not. */
  lemma RewriteUppercasesTheSymbol(p: seq<Byte>)
    requires p != [] && (p[0] == TYPE_A || p[0] == TYPE_P)
    ensures DecodeFields(Rewrite(p)) == MapUpper(DecodeFields(p))
  {
    hide ReadInt, ReadSymbol;
    IntUntouched(p, 1, 3);
    IntUntouched(p, 3, 5);
    IntUntouched(p, 5, 11);
    IntUntouched(p, 11, 19);
    IntUntouched(p, 20, 24);
    IntUntouched(p, 32, 36);
    IntUntouched(p, 36, 44);
    if |p| >= 32 {
      SymbolUppercased(p);
    } else {
      ShortInt(p, 32, 36);
      ShortInt(Rewrite(p), 32, 36);
    }
  }

  lemma ShortInt(p: seq<Byte>, lo: nat, hi: nat)
    requires lo <= hi && |p| < hi
    ensures ReadInt(p, lo, hi) == None
  {
  }

  /** Full-length cancels, deletes, system events and directory entries are sent unchanged. */
  lemma RewriteLeavesAlone(p: seq<Byte>)
    requires p != [] && |p| == FullLength(p[0])
    requires p[0] == TYPE_X || p[0] == TYPE_D || p[0] == TYPE_S || p[0] == TYPE_R
    ensures Rewrite(p) == p
  {
  }

  /** For executions and replacements bytes 24 to 31 are no symbol but digits of numbers: a full-length
      message keeps its meaning if and only if none of these bytes is a small letter. */
  lemma RewritePreservesNumbersIff(p: seq<Byte>)
    requires p != [] && (p[0] == TYPE_E || p[0] == TYPE_U) && |p| == FullLength(p[0])
    ensures DecodeFields(p).Some?
    ensures DecodeFields(Rewrite(p)) == DecodeFields(p) <==> NoLower(p, 24, 32)
  {
    RewriteIsIdempotent(p);
    DecodesIff(p);
    if DecodeFields(Rewrite(p)) == DecodeFields(p) {
      FieldsDeterminePayload(p, Rewrite(p));
      assert Rewrite(p) == p;
    }
  }

  /** The failing family is not empty: an execution whose match number ends in the byte of a small
      letter reaches the FPGA with another match number. */
  lemma RewriteCorruptsMatchNumber(f: Fields, tracking: nat)
    requires f.OrderExecuted? && WellFormed(f) && Fits(tracking, 2)
    requires 97 <= f.matchNumber % 256 <= 122
    ensures var p := Encode(f, tracking, Blanks(13));
            p != [] && DecodeFields(p) == Some(f) && DecodeFields(Rewrite(p)) != Some(f)
  {
    var p := Encode(f, tracking, Blanks(13));
    EncodedType(f, tracking, Blanks(13));
    DecodeInvertsEncode(f, tracking, Blanks(13));
    assert p[30] == ToBE(f.matchNumber, 8)[7] == f.matchNumber % 256;
    RewritePreservesNumbersIff(p);
  }

  /** Equal but for the symbol. */
  predicate SameButSymbol(f: Option<Fields>, g: Option<Fields>) {
    match (f, g)
    case (Some(CrossTrade(l, t, _, s, p, m, c)), Some(CrossTrade(l', t', _, s', p', m', c'))) =>
      l == l' && t == t' && s == s' && p == p' && m == m' && c == c'
    case _ => f == g
  }

  /** A cross trade keeps everything but its symbol if and only if bytes 27 to 31, its price and the
      top byte of its match number, hold no small letter. */
  lemma RewritePreservesCrossIff(p: seq<Byte>)
    requires p != [] && p[0] == TYPE_Q && |p| == FullLength(TYPE_Q) && DecodeFields(p).Some?
    ensures SameButSymbol(DecodeFields(Rewrite(p)), DecodeFields(p)) <==> NoLower(p, 27, 32)
  {
    var r := Rewrite(p);
    CrossSymbolStaysAscii(p);
    IntUntouched(p, 1, 3);
    IntUntouched(p, 3, 5);
    IntUntouched(p, 5, 11);
    IntUntouched(p, 11, 19);
    CrossNumbers(p);
  }

  lemma CrossSymbolStaysAscii(p: seq<Byte>)
    requires |p| == 40 && IsAscii(p[19..27])
    ensures IsAscii(Rewrite(p)[19..27])
  {
    forall i | 0 <= i < 8 ensures Rewrite(p)[19..27][i] < 128 {
      assert p[19..27][i] == p[19 + i];
      assert Rewrite(p)[19..27][i] == Rewrite(p)[19 + i];
    }
  }

  lemma CrossNumbers(p: seq<Byte>)
    requires |p| == 40 && p[0] == TYPE_Q
    ensures ReadInt(Rewrite(p), 27, 31) == ReadInt(p, 27, 31) && ReadInt(Rewrite(p), 31, 39) == ReadInt(p, 31, 39)
       <==> NoLower(p, 27, 32)
  {
    var r := Rewrite(p);
    if NoLower(p, 27, 32) {
      assert r[27..31] == p[27..31] && r[31..39] == p[31..39];
    } else {
      var i :| 27 <= i < 32 && 97 <= p[i] <= 122;
      assert r[i] != p[i];
      if ReadInt(r, 27, 31) == ReadInt(p, 27, 31) && ReadInt(r, 31, 39) == ReadInt(p, 31, 39) {
        IntAgrees(r, p, 27, 31);
        IntAgrees(r, p, 31, 39);
        assert false;
      }
    }
  }
}
