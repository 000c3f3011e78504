/** The decoders invert the encoder, and the decoded fields determine the payload. */
module ItchRoundTrip {
  import opened Bytes
  import opened ItchCodec
  import opened Sequences

  // ----- decoding a freshly encoded message, type by type -----

  /** Splits an encoding behind its header. */
  lemma EncodedHeader(f: Fields, tracking: nat, filler: seq<Byte>)
    requires WellFormed(f) && |filler| == 13 && Fits(tracking, 2)
    ensures var p := Encode(f, tracking, filler);
            && p[0] == MessageType(f)
            && ReadInt(p, 1, 3) == Some(f.locate)
            && ReadInt(p, 3, 5) == Some(tracking)
            && ReadInt(p, 5, 11) == Some(f.timestamp)
            && p == Header(MessageType(f), f.locate, tracking, f.timestamp) + Body(f, filler)
  {
    hide Header, Body, ReadInt;
    HeaderAt(Encode(f, tracking, filler), MessageType(f), f.locate, tracking, f.timestamp, Body(f, filler));
  }

  ghost predicate DecodesBack(f: Fields, tracking: nat, filler: seq<Byte>)
    requires WellFormed(f) && |filler| == 13
  {
    var p := Encode(f, tracking, filler);
    p != [] && DecodeFields(p) == Some(f)
  }

  lemma RoundTripS(f: Fields, tracking: nat, filler: seq<Byte>)
    requires f.SystemEvent? && WellFormed(f) && |filler| == 13 && Fits(tracking, 2)
    ensures DecodesBack(f, tracking, filler)
  {
    hide ReadInt, Header;
    EncodedHeader(f, tracking, filler);
  }

  lemma RoundTripR(f: Fields, tracking: nat, filler: seq<Byte>)
    requires f.StockDirectory? && WellFormed(f) && |filler| == 13 && Fits(tracking, 2)
    ensures DecodesBack(f, tracking, filler)
  {
    hide ReadInt, ReadSymbol, Header, SymbolBytes, ToBE;
    EncodedHeader(f, tracking, filler);
    var p, h := Encode(f, tracking, filler), Header(TYPE_R, f.locate, tracking, f.timestamp);
    var s, l, t := SymbolBytes(f.symbol), ToBE(f.roundLot, 4), [filler[0], f.issueClass] + filler[1..];
    var flags := [f.marketCategory, f.financialStatus];
    SymbolAt(p, h, f.symbol, flags + (l + t));
    assert p == (h + s + flags) + (l + t);
    IntAt(p, h + s + flags, f.roundLot, 4, t);
    assert p[19] == flags[0] && p[20] == flags[1] && p[26] == t[1];
  }

  lemma RoundTripA(f: Fields, tracking: nat, filler: seq<Byte>)
    requires f.AddOrder? && WellFormed(f) && |filler| == 13 && Fits(tracking, 2)
    ensures DecodesBack(f, tracking, filler)
  {
    hide ReadInt, ReadSymbol, Header, SymbolBytes, ToBE;
    EncodedHeader(f, tracking, filler);
    var p, h := Encode(f, tracking, filler), Header(TYPE_A, f.locate, tracking, f.timestamp);
    var o, n, s, c := ToBE(f.orderRef, 8), ToBE(f.shares, 4), SymbolBytes(f.symbol), ToBE(f.price, 4);
    IntAt(p, h, f.orderRef, 8, [f.side] + (n + (s + c)));
    assert p == (h + o + [f.side]) + (n + (s + c));
    IntAt(p, h + o + [f.side], f.shares, 4, s + c);
    assert p == (h + o + [f.side] + n) + (s + c);
    SymbolAt(p, h + o + [f.side] + n, f.symbol, c);
    assert p == (h + o + [f.side] + n + s) + (c + []);
    IntAt(p, h + o + [f.side] + n + s, f.price, 4, []);
    assert p[19] == f.side;
  }

  lemma RoundTripE(f: Fields, tracking: nat, filler: seq<Byte>)
    requires f.OrderExecuted? && WellFormed(f) && |filler| == 13 && Fits(tracking, 2)
    ensures DecodesBack(f, tracking, filler)
  {
    hide ReadInt, Header, ToBE;
    EncodedHeader(f, tracking, filler);
    var p, h := Encode(f, tracking, filler), Header(TYPE_E, f.locate, tracking, f.timestamp);
    var o, n, m := ToBE(f.orderRef, 8), ToBE(f.executedShares, 4), ToBE(f.matchNumber, 8);
    IntAt(p, h, f.orderRef, 8, n + m);
    assert p == (h + o) + (n + m);
    IntAt(p, h + o, f.executedShares, 4, m);
    assert p == (h + o + n) + (m + []);
    IntAt(p, h + o + n, f.matchNumber, 8, []);
  }

  lemma RoundTripX(f: Fields, tracking: nat, filler: seq<Byte>)
    requires f.OrderCancel? && WellFormed(f) && |filler| == 13 && Fits(tracking, 2)
    ensures DecodesBack(f, tracking, filler)
  {
    hide ReadInt, Header, ToBE;
    EncodedHeader(f, tracking, filler);
    var p, h := Encode(f, tracking, filler), Header(TYPE_X, f.locate, tracking, f.timestamp);
    var o, n := ToBE(f.orderRef, 8), ToBE(f.cancelledShares, 4);
    IntAt(p, h, f.orderRef, 8, n);
    assert p == (h + o) + (n + []);
    IntAt(p, h + o, f.cancelledShares, 4, []);
  }

  lemma RoundTripD(f: Fields, tracking: nat, filler: seq<Byte>)
    requires f.OrderDelete? && WellFormed(f) && |filler| == 13 && Fits(tracking, 2)
    ensures DecodesBack(f, tracking, filler)
  {
    hide ReadInt, Header, ToBE;
    EncodedHeader(f, tracking, filler);
    var p, h := Encode(f, tracking, filler), Header(TYPE_D, f.locate, tracking, f.timestamp);
    assert p == h + (ToBE(f.orderRef, 8) + []);
    IntAt(p, h, f.orderRef, 8, []);
  }

  lemma RoundTripU(f: Fields, tracking: nat, filler: seq<Byte>)
    requires f.OrderReplace? && WellFormed(f) && |filler| == 13 && Fits(tracking, 2)
    ensures DecodesBack(f, tracking, filler)
  {
    hide ReadInt, Header, ToBE;
    EncodedHeader(f, tracking, filler);
    var p, h := Encode(f, tracking, filler), Header(TYPE_U, f.locate, tracking, f.timestamp);
    var o, n, s, c := ToBE(f.originalRef, 8), ToBE(f.newRef, 8), ToBE(f.shares, 4), ToBE(f.price, 4);
    IntAt(p, h, f.originalRef, 8, n + (s + c));
    assert p == (h + o) + (n + (s + c));
    IntAt(p, h + o, f.newRef, 8, s + c);
    assert p == (h + o + n) + (s + c);
    IntAt(p, h + o + n, f.shares, 4, c);
    assert p == (h + o + n + s) + (c + []);
    IntAt(p, h + o + n + s, f.price, 4, []);
  }

  lemma RoundTripP(f: Fields, tracking: nat, filler: seq<Byte>)
    requires f.Trade? && WellFormed(f) && |filler| == 13 && Fits(tracking, 2)
    ensures DecodesBack(f, tracking, filler)
  {
    hide ReadInt, ReadSymbol, Header, SymbolBytes, ToBE;
    EncodedHeader(f, tracking, filler);
    var p, h := Encode(f, tracking, filler), Header(TYPE_P, f.locate, tracking, f.timestamp);
    var o, n, s, c := ToBE(f.orderRef, 8), ToBE(f.shares, 4), SymbolBytes(f.symbol), ToBE(f.price, 4);
    var m := ToBE(f.matchNumber, 8);
    IntAt(p, h, f.orderRef, 8, [f.side] + (n + (s + (c + m))));
    assert p == (h + o + [f.side]) + (n + (s + (c + m)));
    IntAt(p, h + o + [f.side], f.shares, 4, s + (c + m));
    assert p == (h + o + [f.side] + n) + (s + (c + m));
    SymbolAt(p, h + o + [f.side] + n, f.symbol, c + m);
    assert p == (h + o + [f.side] + n + s) + (c + m);
    IntAt(p, h + o + [f.side] + n + s, f.price, 4, m);
    assert p == (h + o + [f.side] + n + s + c) + (m + []);
    IntAt(p, h + o + [f.side] + n + s + c, f.matchNumber, 8, []);
    assert p[19] == f.side;
  }

  lemma RoundTripQ(f: Fields, tracking: nat, filler: seq<Byte>)
    requires f.CrossTrade? && WellFormed(f) && |filler| == 13 && Fits(tracking, 2)
    ensures DecodesBack(f, tracking, filler)
  {
    hide ReadInt, ReadSymbol, Header, SymbolBytes, ToBE;
    EncodedHeader(f, tracking, filler);
    var p, h := Encode(f, tracking, filler), Header(TYPE_Q, f.locate, tracking, f.timestamp);
    var n, s, c, m := ToBE(f.crossShares, 8), SymbolBytes(f.symbol), ToBE(f.crossPrice, 4), ToBE(f.matchNumber, 8);
    IntAt(p, h, f.crossShares, 8, s + (c + (m + [f.crossType])));
    assert p == (h + n) + (s + (c + (m + [f.crossType])));
    SymbolAt(p, h + n, f.symbol, c + (m + [f.crossType]));
    assert p == (h + n + s) + (c + (m + [f.crossType]));
    IntAt(p, h + n + s, f.crossPrice, 4, m + [f.crossType]);
    assert p == (h + n + s + c) + (m + [f.crossType]);
    IntAt(p, h + n + s + c, f.matchNumber, 8, [f.crossType]);
    assert p[39] == f.crossType;
  }

  lemma EncodingDecodesBack(f: Fields, tracking: nat, filler: seq<Byte>)
    requires WellFormed(f) && |filler| == 13 && Fits(tracking, 2)
    ensures DecodesBack(f, tracking, filler)
  {
    hide DecodesBack;
    if f.SystemEvent? { RoundTripS(f, tracking, filler); }
    else if f.StockDirectory? { RoundTripR(f, tracking, filler); }
    else if f.AddOrder? { RoundTripA(f, tracking, filler); }
    else if f.OrderExecuted? { RoundTripE(f, tracking, filler); }
    else if f.OrderCancel? { RoundTripX(f, tracking, filler); }
    else if f.OrderDelete? { RoundTripD(f, tracking, filler); }
    else if f.OrderReplace? { RoundTripU(f, tracking, filler); }
    else if f.Trade? { RoundTripP(f, tracking, filler); }
    else { RoundTripQ(f, tracking, filler); }
  }

  /** Every well-formed message of the nine types decodes to exactly its fields, and the encoding has
      the length the specification gives. */
  lemma DecodeInvertsEncode(f: Fields, tracking: nat, filler: seq<Byte>)
    requires WellFormed(f) && |filler| == 13 && Fits(tracking, 2)
    ensures var p := Encode(f, tracking, filler);
            && |p| == FullLength(MessageType(f))
            && Decode(p) == Some(Record(f, p))
  {
    hide DecodeFields, Encode;
    EncodedType(f, tracking, filler);
    EncodingDecodesBack(f, tracking, filler);
  }

  lemma EncodedType(f: Fields, tracking: nat, filler: seq<Byte>)
    requires WellFormed(f) && |filler| == 13
    ensures var p := Encode(f, tracking, filler); |p| == FullLength(MessageType(f)) && p[0] == MessageType(f)
  {
    hide ToBE, SymbolBytes;
  }

  /** The exception is real: bytes of an R message that no field decodes are lost. */
  lemma DirectoryFillerIsLost(f: Fields, tracking: nat, filler: seq<Byte>, other: seq<Byte>)
    requires f.StockDirectory? && WellFormed(f) && Fits(tracking, 2)
    requires |filler| == |other| == 13 && filler[0] != other[0]
    ensures var p, q := Encode(f, tracking, filler), Encode(f, tracking, other);
            p != q && DecodeFields(p) == DecodeFields(q) == Some(f)
  {
    hide DecodeFields;
    DecodeInvertsEncode(f, tracking, filler);
    DecodeInvertsEncode(f, tracking, other);
    assert Encode(f, tracking, filler)[25] == filler[0] && Encode(f, tracking, other)[25] == other[0];
  }

  // ----- when decoding succeeds -----

  predicate IsKnown(t: Byte) {
    t == TYPE_S || t == TYPE_R || t == TYPE_A || t == TYPE_E || t == TYPE_X || t == TYPE_D || t == TYPE_U
    || t == TYPE_P || t == TYPE_Q
  }

  /** How many bytes the decoder of a type touches: the whole message, except that the decoder of R
      stops after byte 26. */
  function NeededLength(t: Byte): nat {
    if t == TYPE_R then 27 else FullLength(t)
  }

  /** Where the symbol lies; an empty range for a type without one. */
  function SymbolStart(t: Byte): nat {
    if t == TYPE_R then 11 else if t == TYPE_A || t == TYPE_P then 24 else if t == TYPE_Q then 19 else 0
  }

  function SymbolEnd(t: Byte): nat {
    if SymbolStart(t) == 0 then 0 else SymbolStart(t) + 8
  }

  /** A payload of a known type is decoded if and only if it is long enough and its symbol is ASCII;
      no decoder fails otherwise. */
  lemma DecodesIff(p: seq<Byte>)
    requires p != [] && IsKnown(p[0])
    ensures Decode(p).Some? <==>
              NeededLength(p[0]) <= |p| && IsAscii(p[SymbolStart(p[0])..SymbolEnd(p[0])])
  {
    hide FromBE, Strip;
  }

  /** A payload that is recorded: of an unknown type, or of a known one, long enough and with an ASCII
      symbol. */
  predicate IsRecorded(p: seq<Byte>) {
    && p != []
    && (p[0] as char in "SRAEXDUPQ" ==>
          && NeededLength(p[0]) <= |p|
          && IsAscii(p[SymbolStart(p[0])..SymbolEnd(p[0])]))
  }

  lemma KnownTypes(t: Byte)
    ensures IsKnown(t) <==> t as char in "SRAEXDUPQ"
  {
  }

  /** Exactly these payloads of any type give a record, with the payload kept in it; and one of an
      unknown type keeps its type besides. */
  lemma RecordedIff(p: seq<Byte>)
    requires p != []
    ensures Decode(p).Some? <==> IsRecorded(p)
    ensures Decode(p).Some? ==> Decode(p).value.raw == p
    ensures p[0] as char !in "SRAEXDUPQ" ==> Decode(p) == Some(Record(Other(p[0]), p))
  {
    KnownTypes(p[0]);
    if IsKnown(p[0]) {
      DecodesIff(p);
    }
  }

  // ----- the decoded fields determine the payload -----

  lemma IntAgrees(p: seq<Byte>, q: seq<Byte>, lo: nat, hi: nat)
    requires lo <= hi <= |p| == |q| && ReadInt(p, lo, hi) == ReadInt(q, lo, hi)
    ensures forall i :: lo <= i < hi ==> p[i] == q[i]
  {
    FromBEInjective(p[lo..hi], q[lo..hi]);
    assert forall i :: lo <= i < hi ==> p[i] == p[lo..hi][i - lo] && q[i] == q[lo..hi][i - lo];
  }

  /** Same type, same length, and equal outside the tracking number and the symbol, whose stripped
      texts are equal. */
  ghost predicate SameUpToPadding(p: seq<Byte>, q: seq<Byte>) {
    && |p| == |q| && p != [] && p[0] == q[0] && SymbolEnd(p[0]) <= |p|
    && (forall i :: 0 <= i < |p| && !(3 <= i < 5) && !(SymbolStart(p[0]) <= i < SymbolEnd(p[0])) ==> p[i] == q[i])
    && Strip(p[SymbolStart(p[0])..SymbolEnd(p[0])]) == Strip(q[SymbolStart(p[0])..SymbolEnd(p[0])])
  }

  ghost predicate Comparable(p: seq<Byte>, q: seq<Byte>, t: Byte) {
    && |p| == |q| == FullLength(t) && p != []
    && p[0] == q[0] == t
    && DecodeFields(p) == DecodeFields(q) && DecodeFields(p).Some?
  }

  /** Integer fields between the given boundaries agree. */
  lemma HeaderAgrees(p: seq<Byte>, q: seq<Byte>, t: Byte)
    requires Comparable(p, q, t) && IsKnown(t)
    ensures forall i :: 0 <= i < 11 && !(3 <= i < 5) ==> p[i] == q[i]
  {
    hide FromBE, Strip, IsAscii;
    assert ReadInt(p, 1, 3) == ReadInt(q, 1, 3);
    assert ReadInt(p, 5, 11) == ReadInt(q, 5, 11);
    IntAgrees(p, q, 1, 3);
    IntAgrees(p, q, 5, 11);
  }

  lemma DeterminesS(p: seq<Byte>, q: seq<Byte>)
    requires Comparable(p, q, TYPE_S)
    ensures SameUpToPadding(p, q)
  {
    hide FromBE;
    HeaderAgrees(p, q, TYPE_S);
  }

  lemma DeterminesA(p: seq<Byte>, q: seq<Byte>)
    requires Comparable(p, q, TYPE_A)
    ensures SameUpToPadding(p, q)
  {
    hide FromBE, Strip, IsAscii;
    HeaderAgrees(p, q, TYPE_A);
    IntAgrees(p, q, 11, 19);
    IntAgrees(p, q, 20, 24);
    IntAgrees(p, q, 32, 36);
  }

  lemma DeterminesE(p: seq<Byte>, q: seq<Byte>)
    requires Comparable(p, q, TYPE_E)
    ensures SameUpToPadding(p, q)
  {
    hide FromBE;
    HeaderAgrees(p, q, TYPE_E);
    IntAgrees(p, q, 11, 19);
    IntAgrees(p, q, 19, 23);
    IntAgrees(p, q, 23, 31);
  }

  lemma DeterminesX(p: seq<Byte>, q: seq<Byte>)
    requires Comparable(p, q, TYPE_X)
    ensures SameUpToPadding(p, q)
  {
    hide FromBE;
    HeaderAgrees(p, q, TYPE_X);
    IntAgrees(p, q, 11, 19);
    IntAgrees(p, q, 19, 23);
  }

  lemma DeterminesD(p: seq<Byte>, q: seq<Byte>)
    requires Comparable(p, q, TYPE_D)
    ensures SameUpToPadding(p, q)
  {
    hide FromBE;
    HeaderAgrees(p, q, TYPE_D);
    IntAgrees(p, q, 11, 19);
  }

  lemma DeterminesU(p: seq<Byte>, q: seq<Byte>)
    requires Comparable(p, q, TYPE_U)
    ensures SameUpToPadding(p, q)
  {
    hide FromBE;
    HeaderAgrees(p, q, TYPE_U);
    IntAgrees(p, q, 11, 19);
    IntAgrees(p, q, 19, 27);
    IntAgrees(p, q, 27, 31);
    IntAgrees(p, q, 31, 35);
  }

  lemma DeterminesP(p: seq<Byte>, q: seq<Byte>)
    requires Comparable(p, q, TYPE_P)
    ensures SameUpToPadding(p, q)
  {
    hide FromBE, Strip, IsAscii;
    HeaderAgrees(p, q, TYPE_P);
    IntAgrees(p, q, 11, 19);
    IntAgrees(p, q, 20, 24);
    IntAgrees(p, q, 32, 36);
    IntAgrees(p, q, 36, 44);
  }

  lemma DeterminesQ(p: seq<Byte>, q: seq<Byte>)
    requires Comparable(p, q, TYPE_Q)
    ensures SameUpToPadding(p, q)
  {
    hide FromBE, Strip, IsAscii;
    HeaderAgrees(p, q, TYPE_Q);
    IntAgrees(p, q, 11, 19);
    IntAgrees(p, q, 27, 31);
    IntAgrees(p, q, 31, 39);
  }

  /** For every type but R, two full-length payloads with the same decoded fields differ at most in
      the tracking number and in the padding of the symbol. */
  lemma FieldsDeterminePayload(p: seq<Byte>, q: seq<Byte>)
    requires p != [] && q != [] && IsKnown(p[0]) && p[0] != TYPE_R && p[0] == q[0]
    requires |p| == |q| == FullLength(p[0])
    requires DecodeFields(p).Some? && DecodeFields(p) == DecodeFields(q)
    ensures SameUpToPadding(p, q)
  {
    hide SameUpToPadding, DecodeFields;
    var t := p[0];
    if t == TYPE_S { DeterminesS(p, q); }
    else if t == TYPE_A { DeterminesA(p, q); }
    else if t == TYPE_E { DeterminesE(p, q); }
    else if t == TYPE_X { DeterminesX(p, q); }
    else if t == TYPE_D { DeterminesD(p, q); }
    else if t == TYPE_U { DeterminesU(p, q); }
    else if t == TYPE_P { DeterminesP(p, q); }
    else { DeterminesQ(p, q); }
  }
}
