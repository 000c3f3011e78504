/** The nine decoders of ITCH 5.0 messages, and the encoder they invert. */
module ItchCodec {
  import opened Bytes
  import opened Sequences

  /** What a record stores besides the raw payload. Symbols are stripped text. */
  datatype Fields =
    | SystemEvent(locate: nat, timestamp: nat, eventCode: Byte)
    | StockDirectory(locate: nat, timestamp: nat, symbol: seq<Byte>, marketCategory: Byte,
                     financialStatus: Byte, roundLot: nat, issueClass: Byte)
    | AddOrder(locate: nat, timestamp: nat, symbol: seq<Byte>, orderRef: nat, side: Byte, shares: nat, price: nat)
    | OrderExecuted(locate: nat, timestamp: nat, orderRef: nat, executedShares: nat, matchNumber: nat)
    | OrderCancel(locate: nat, timestamp: nat, orderRef: nat, cancelledShares: nat)
    | OrderDelete(locate: nat, timestamp: nat, orderRef: nat)
    | OrderReplace(locate: nat, timestamp: nat, originalRef: nat, newRef: nat, shares: nat, price: nat)
    | Trade(locate: nat, timestamp: nat, symbol: seq<Byte>, orderRef: nat, side: Byte, shares: nat, price: nat,
            matchNumber: nat)
    | CrossTrade(locate: nat, timestamp: nat, symbol: seq<Byte>, crossShares: nat, crossPrice: nat,
                 matchNumber: nat, crossType: Byte)
    | Other(messageType: Byte)

  datatype Record = Record(fields: Fields, raw: seq<Byte>)

  // message type bytes
  const TYPE_S: Byte := 83
  const TYPE_R: Byte := 82
  const TYPE_A: Byte := 65
  const TYPE_E: Byte := 69
  const TYPE_X: Byte := 88
  const TYPE_D: Byte := 68
  const TYPE_U: Byte := 85
  const TYPE_P: Byte := 80
  const TYPE_Q: Byte := 81

  // ----- field access; None is the exception Python raises -----

  /** struct.unpack of `p[lo:hi]`, which fails unless the slice is complete. */
  function ReadInt(p: seq<Byte>, lo: nat, hi: nat): Option<nat>
    requires lo <= hi
  {
    if hi <= |p| then Some(FromBE(p[lo..hi])) else None
  }

  /** chr(p[i]). */
  function ReadChar(p: seq<Byte>, i: nat): Option<Byte> {
    if i < |p| then Some(p[i]) else None
  }

  function Slice(p: seq<Byte>, lo: nat, hi: nat): seq<Byte>
    requires lo <= hi
  {
    if hi <= |p| then p[lo..hi] else if lo <= |p| then p[lo..] else []
  }

  /** p[lo:hi].decode('ascii').strip(). */
  function ReadSymbol(p: seq<Byte>, lo: nat, hi: nat): Option<seq<Byte>>
    requires lo <= hi
  {
    if IsAscii(Slice(p, lo, hi)) then Some(Strip(Slice(p, lo, hi))) else None
  }

  // ----- the decoders -----

  function DecodeS(p: seq<Byte>): Option<Fields> {
    var locate :- ReadInt(p, 1, 3);
    var tracking :- ReadInt(p, 3, 5);
    var timestamp :- ReadInt(p, 5, 11);
    var eventCode :- ReadChar(p, 11);
    Some(SystemEvent(locate, timestamp, eventCode))
  }

  function DecodeR(p: seq<Byte>): Option<Fields> {
    var locate :- ReadInt(p, 1, 3);
    var tracking :- ReadInt(p, 3, 5);
    var timestamp :- ReadInt(p, 5, 11);
    var symbol :- ReadSymbol(p, 11, 19);
    var marketCategory :- ReadChar(p, 19);
    var financialStatus :- ReadChar(p, 20);
    var roundLot :- ReadInt(p, 21, 25);
    var issueClass :- ReadChar(p, 26);
    Some(StockDirectory(locate, timestamp, symbol, marketCategory, financialStatus, roundLot, issueClass))
  }

  function DecodeA(p: seq<Byte>): Option<Fields> {
    var locate :- ReadInt(p, 1, 3);
    var tracking :- ReadInt(p, 3, 5);
    var timestamp :- ReadInt(p, 5, 11);
    var orderRef :- ReadInt(p, 11, 19);
    var side :- ReadChar(p, 19);
    var shares :- ReadInt(p, 20, 24);
    var symbol :- ReadSymbol(p, 24, 32);
    var price :- ReadInt(p, 32, 36);
    Some(AddOrder(locate, timestamp, symbol, orderRef, side, shares, price))
  }

  function DecodeE(p: seq<Byte>): Option<Fields> {
    var locate :- ReadInt(p, 1, 3);
    var tracking :- ReadInt(p, 3, 5);
    var timestamp :- ReadInt(p, 5, 11);
    var orderRef :- ReadInt(p, 11, 19);
    var executedShares :- ReadInt(p, 19, 23);
    var matchNumber :- ReadInt(p, 23, 31);
    Some(OrderExecuted(locate, timestamp, orderRef, executedShares, matchNumber))
  }

  function DecodeX(p: seq<Byte>): Option<Fields> {
    var locate :- ReadInt(p, 1, 3);
    var tracking :- ReadInt(p, 3, 5);
    var timestamp :- ReadInt(p, 5, 11);
    var orderRef :- ReadInt(p, 11, 19);
    var cancelledShares :- ReadInt(p, 19, 23);
    Some(OrderCancel(locate, timestamp, orderRef, cancelledShares))
  }

  function DecodeD(p: seq<Byte>): Option<Fields> {
    var locate :- ReadInt(p, 1, 3);
    var tracking :- ReadInt(p, 3, 5);
    var timestamp :- ReadInt(p, 5, 11);
    var orderRef :- ReadInt(p, 11, 19);
    Some(OrderDelete(locate, timestamp, orderRef))
  }

  function DecodeU(p: seq<Byte>): Option<Fields> {
    var locate :- ReadInt(p, 1, 3);
    var tracking :- ReadInt(p, 3, 5);
    var timestamp :- ReadInt(p, 5, 11);
    var originalRef :- ReadInt(p, 11, 19);
    var newRef :- ReadInt(p, 19, 27);
    var shares :- ReadInt(p, 27, 31);
    var price :- ReadInt(p, 31, 35);
    Some(OrderReplace(locate, timestamp, originalRef, newRef, shares, price))
  }

  function DecodeP(p: seq<Byte>): Option<Fields> {
    var locate :- ReadInt(p, 1, 3);
    var tracking :- ReadInt(p, 3, 5);
    var timestamp :- ReadInt(p, 5, 11);
    var orderRef :- ReadInt(p, 11, 19);
    var side :- ReadChar(p, 19);
    var shares :- ReadInt(p, 20, 24);
    var symbol :- ReadSymbol(p, 24, 32);
    var price :- ReadInt(p, 32, 36);
    var matchNumber :- ReadInt(p, 36, 44);
    Some(Trade(locate, timestamp, symbol, orderRef, side, shares, price, matchNumber))
  }

  function DecodeQ(p: seq<Byte>): Option<Fields> {
    var locate :- ReadInt(p, 1, 3);
    var tracking :- ReadInt(p, 3, 5);
    var timestamp :- ReadInt(p, 5, 11);
    var crossShares :- ReadInt(p, 11, 19);
    var symbol :- ReadSymbol(p, 19, 27);
    var crossPrice :- ReadInt(p, 27, 31);
    var matchNumber :- ReadInt(p, 31, 39);
    var crossType :- ReadChar(p, 39);
    Some(CrossTrade(locate, timestamp, symbol, crossShares, crossPrice, matchNumber, crossType))
  }

  /** parse_message on a non-empty payload; None is the caught exception, an unknown type is kept. */
  function DecodeFields(p: seq<Byte>): Option<Fields>
    requires p != []
  {
    if p[0] == TYPE_S then DecodeS(p)
    else if p[0] == TYPE_R then DecodeR(p)
    else if p[0] == TYPE_A then DecodeA(p)
    else if p[0] == TYPE_E then DecodeE(p)
    else if p[0] == TYPE_X then DecodeX(p)
    else if p[0] == TYPE_D then DecodeD(p)
    else if p[0] == TYPE_U then DecodeU(p)
    else if p[0] == TYPE_P then DecodeP(p)
    else if p[0] == TYPE_Q then DecodeQ(p)
    else Some(Other(p[0]))
  }

  function Decode(p: seq<Byte>): Option<Record>
    requires p != []
  {
    var fields :- DecodeFields(p);
    Some(Record(fields, p))
  }

  // ----- the encoder: the layouts of section 4 of the ITCH 5.0 specification -----

  predicate Fits(n: nat, width: nat) {
    n < Pow256(width)
  }

  predicate WellFormedSymbol(s: seq<Byte>) {
    |s| <= 8 && IsAscii(s) && IsStripped(s)
  }

  predicate WellFormed(f: Fields) {
    && !f.Other?
    && Fits(f.locate, 2) && Fits(f.timestamp, 6)
    && match f
       case SystemEvent(_, _, _) => true
       case StockDirectory(_, _, symbol, _, _, roundLot, _) => WellFormedSymbol(symbol) && Fits(roundLot, 4)
       case AddOrder(_, _, symbol, orderRef, _, shares, price) =>
         WellFormedSymbol(symbol) && Fits(orderRef, 8) && Fits(shares, 4) && Fits(price, 4)
       case OrderExecuted(_, _, orderRef, executed, matchNumber) =>
         Fits(orderRef, 8) && Fits(executed, 4) && Fits(matchNumber, 8)
       case OrderCancel(_, _, orderRef, cancelled) => Fits(orderRef, 8) && Fits(cancelled, 4)
       case OrderDelete(_, _, orderRef) => Fits(orderRef, 8)
       case OrderReplace(_, _, originalRef, newRef, shares, price) =>
         Fits(originalRef, 8) && Fits(newRef, 8) && Fits(shares, 4) && Fits(price, 4)
       case Trade(_, _, symbol, orderRef, _, shares, price, matchNumber) =>
         WellFormedSymbol(symbol) && Fits(orderRef, 8) && Fits(shares, 4) && Fits(price, 4) && Fits(matchNumber, 8)
       case CrossTrade(_, _, symbol, crossShares, crossPrice, matchNumber, _) =>
         WellFormedSymbol(symbol) && Fits(crossShares, 8) && Fits(crossPrice, 4) && Fits(matchNumber, 8)
  }

  function SymbolBytes(s: seq<Byte>): (b: seq<Byte>)
    requires |s| <= 8
    ensures |b| == 8
  {
    s + Blanks(8 - |s|)
  }

  /** Type, stock locate, tracking number and timestamp: the first eleven bytes of every message. */
  function Header(t: Byte, locate: nat, tracking: nat, timestamp: nat): (b: seq<Byte>)
    ensures |b| == 11
  {
    [t] + (ToBE(locate, 2) + (ToBE(tracking, 2) + ToBE(timestamp, 6)))
  }

  function MessageType(f: Fields): Byte {
    match f
    case SystemEvent(_, _, _) => TYPE_S
    case StockDirectory(_, _, _, _, _, _, _) => TYPE_R
    case AddOrder(_, _, _, _, _, _, _) => TYPE_A
    case OrderExecuted(_, _, _, _, _) => TYPE_E
    case OrderCancel(_, _, _, _) => TYPE_X
    case OrderDelete(_, _, _) => TYPE_D
    case OrderReplace(_, _, _, _, _, _) => TYPE_U
    case Trade(_, _, _, _, _, _, _, _) => TYPE_P
    case CrossTrade(_, _, _, _, _, _, _) => TYPE_Q
    case Other(t) => t
  }

  /** The length the specification gives each message. */
  function FullLength(t: Byte): nat {
    if t == TYPE_S then 12 else if t == TYPE_R then 39 else if t == TYPE_A then 36
    else if t == TYPE_E then 31 else if t == TYPE_X then 23 else if t == TYPE_D then 19
    else if t == TYPE_U then 35 else if t == TYPE_P then 44 else if t == TYPE_Q then 40 else 0
  }

  /** The bytes behind the header. `filler` supplies the 13 bytes of an R message that no field
      decodes. */
  function Body(f: Fields, filler: seq<Byte>): seq<Byte>
    requires WellFormed(f) && |filler| == 13
  {
    match f
    case SystemEvent(_, _, eventCode) => [eventCode]
    case StockDirectory(_, _, symbol, marketCategory, financialStatus, roundLot, issueClass) =>
      SymbolBytes(symbol) + ([marketCategory, financialStatus] +
                             (ToBE(roundLot, 4) + ([filler[0], issueClass] + filler[1..])))
    case AddOrder(_, _, symbol, orderRef, side, shares, price) =>
      ToBE(orderRef, 8) + ([side] + (ToBE(shares, 4) + (SymbolBytes(symbol) + ToBE(price, 4))))
    case OrderExecuted(_, _, orderRef, executed, matchNumber) =>
      ToBE(orderRef, 8) + (ToBE(executed, 4) + ToBE(matchNumber, 8))
    case OrderCancel(_, _, orderRef, cancelled) => ToBE(orderRef, 8) + ToBE(cancelled, 4)
    case OrderDelete(_, _, orderRef) => ToBE(orderRef, 8)
    case OrderReplace(_, _, originalRef, newRef, shares, price) =>
      ToBE(originalRef, 8) + (ToBE(newRef, 8) + (ToBE(shares, 4) + ToBE(price, 4)))
    case Trade(_, _, symbol, orderRef, side, shares, price, matchNumber) =>
      ToBE(orderRef, 8) + ([side] + (ToBE(shares, 4) + (SymbolBytes(symbol) + (ToBE(price, 4) + ToBE(matchNumber, 8)))))
    case CrossTrade(_, _, symbol, crossShares, crossPrice, matchNumber, crossType) =>
      ToBE(crossShares, 8) + (SymbolBytes(symbol) + (ToBE(crossPrice, 4) + (ToBE(matchNumber, 8) + [crossType])))
  }

  function Encode(f: Fields, tracking: nat, filler: seq<Byte>): seq<Byte>
    requires WellFormed(f) && |filler| == 13
  {
    Header(MessageType(f), f.locate, tracking, f.timestamp) + Body(f, filler)
  }

  // ----- decoding inverts encoding -----

  /** The integer field `part` placed behind `a`. */
  lemma IntAt(p: seq<Byte>, a: seq<Byte>, n: nat, width: nat, rest: seq<Byte>)
    requires p == a + (ToBE(n, width) + rest) && Fits(n, width)
    ensures ReadInt(p, |a|, |a| + width) == Some(n)
  {
    assert p[|a|..|a| + width] == ToBE(n, width);
    FromToBE(n, width);
  }

  lemma AsciiAppend(a: seq<Byte>, b: seq<Byte>)
    requires IsAscii(a) && IsAscii(b)
    ensures IsAscii(a + b)
  {
  }

  lemma SymbolAt(p: seq<Byte>, a: seq<Byte>, s: seq<Byte>, rest: seq<Byte>)
    requires WellFormedSymbol(s) && p == a + (SymbolBytes(s) + rest)
    ensures ReadSymbol(p, |a|, |a| + 8) == Some(s)
  {
    assert Slice(p, |a|, |a| + 8) == SymbolBytes(s);
    AsciiAppend(s, Blanks(8 - |s|));
    StripPadded(s, 8 - |s|);
  }

  lemma HeaderAt(p: seq<Byte>, t: Byte, locate: nat, tracking: nat, timestamp: nat, rest: seq<Byte>)
    requires p == Header(t, locate, tracking, timestamp) + rest
    requires Fits(locate, 2) && Fits(tracking, 2) && Fits(timestamp, 6)
    ensures p[0] == t
    ensures ReadInt(p, 1, 3) == Some(locate)
    ensures ReadInt(p, 3, 5) == Some(tracking)
    ensures ReadInt(p, 5, 11) == Some(timestamp)
  {
    var l, k, m := ToBE(locate, 2), ToBE(tracking, 2), ToBE(timestamp, 6);
    assert p == [t] + (l + (k + (m + rest)));
    IntAt(p, [t], locate, 2, k + (m + rest));
    assert p == ([t] + l) + (k + (m + rest));
    IntAt(p, [t] + l, tracking, 2, m + rest);
    assert p == ([t] + l + k) + (m + rest);
    IntAt(p, [t] + l + k, timestamp, 6, rest);
  }
}
