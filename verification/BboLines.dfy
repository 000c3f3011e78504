/** The FPGA's line format, and the round trip from records over an arbitrary byte stream. */
module BboLines {
  import opened BboTypes
  import opened BboParser
  import opened CppText
  import opened Sequences
  import opened UartFraming

  // ----- printing -----

  function HexDigit(v: nat): (c: char)
    requires v < 16
    ensures IsHexDigit(c) && HexDigitValue(c) == v
    ensures '0' <= c <= '9' || 'A' <= c <= 'F'
  {
    "0123456789ABCDEF"[v]
  }

  predicate HexChars(s: string) {
    forall c :: c in s ==> '0' <= c <= '9' || 'A' <= c <= 'F'
  }

  function HexText(n: nat, width: nat): (s: string)
    ensures |s| == width && IsHex(s) && HexChars(s)
  {
    if width == 0 then "" else HexText(n / 16, width - 1) + [HexDigit(n % 16)]
  }

  function Blanks(n: nat): (s: string)
    ensures |s| == n && forall c :: c in s ==> c == ' '
  {
    if n == 0 then "" else " " + Blanks(n - 1)
  }

  predicate UpperOrDigit(c: char) {
    'A' <= c <= 'Z' || '0' <= c <= '9'
  }

  /** A visible character that is no small letter and does not close the bracket. */
  predicate SymbolChar(c: char) {
    '!' <= c <= '`' && c != ']'
  }

  /** 1 to 8 such characters, not containing the NODATA marker. */
  predicate CleanSymbol(s: string) {
    && 1 <= |s| <= 8
    && (forall c :: c in s ==> SymbolChar(c))
    && Find(s, "NODATA", At(0)).Npos?
  }

  /** What can be printed so that it parses. */
  predicate CleanRecord(b: Bbo) {
    && CleanSymbol(b.symbol)
    && b.bidPrice < 0x1_0000_0000 && b.bidShares < 0x1_0000_0000
    && b.askPrice < 0x1_0000_0000 && b.askShares < 0x1_0000_0000
    && b.spread < 0x1_0000_0000
  }

  /** The symbol is made of upper-case letters and digits. */
  predicate WellFormedRecord(b: Bbo) {
    CleanRecord(b) && forall c :: c in b.symbol ==> UpperOrDigit(c)
  }

  function SymbolField(s: string): string
    requires |s| <= 8
  {
    s + Blanks(8 - |s|)
  }

  /** Both documented forms: with and without a blank after the bracket. */
  function Gap(spaced: bool): string {
    if spaced then " " else ""
  }

  function LineText(b: Bbo, spaced: bool): string
    requires CleanRecord(b)
  {
    "[" + ("BBO:" + (SymbolField(b.symbol) + ("]" + (Gap(spaced) + PricesText(b)))))
  }

  function PricesText(b: Bbo): string {
    QuoteText("Bid:0x", b.bidPrice, b.bidShares) +
    (" | " + (QuoteText("Ask:0x", b.askPrice, b.askShares) + (" | " + ("Spr:0x" + HexText(b.spread, 8)))))
  }

  function QuoteText(marker: string, price: nat, shares: nat): string {
    marker + (HexText(price, 8) + (" " + ("(0x" + (HexText(shares, 8) + ")"))))
  }

  const NoDataText: string := "[BBO:NODATA  ]"

  // ----- the printed hex fields read back -----

  lemma {:induction false} HexTextValue(n: nat, width: nat)
    requires n < Pow16(width)
    ensures HexValue(HexText(n, width)) == n
  {
    if width > 0 {
      HexTextValue(n / 16, width - 1);
      var s := HexText(n, width);
      assert s[..width - 1] == HexText(n / 16, width - 1);
    }
  }

  lemma PrintedHexReadsBack(n: nat)
    requires n < 0x1_0000_0000
    ensures HexToPrice(HexText(n, 8)) == n && HexToUint(HexText(n, 8)) == n
  {
    assert Pow16(8) == 0x1_0000_0000 by {
      assert Pow16(4) == 0x1_0000;
      assert Pow16(8) == 16 * 16 * 16 * 16 * Pow16(4);
    }
    HexTextValue(n, 8);
    HexFieldExact(HexText(n, 8));
  }

  // ----- searching in a concatenation -----

  /** `pattern` is first found behind `a` when one of its characters occurs neither in `a` nor
      earlier in the pattern. */
  lemma FindBehind(s: string, p: string, a: string, pattern: string, rest: string, k: nat)
    requires s == p + (a + (pattern + rest))
    requires k < |pattern| && pattern[k] !in a && pattern[k] !in pattern[..k]
    ensures Find(s, pattern, At(|p|)) == At(|p| + |a|)
  {
    var i := |p| + |a|;
    assert s[i..i + |pattern|] == pattern;
    forall j: nat | |p| <= j < i ensures !MatchAt(s, pattern, j) {
      assert j + k < i ==> s[j + k] == a[j + k - |p|];
      assert i <= j + k < i + k ==> s[j + k] == pattern[..k][j + k - i];
      if MatchAt(s, pattern, j) {
        MatchedChars(s, pattern, j);
        assert false;
      }
    }
    FindUnique(s, pattern, |p|, i);
  }

  /** A field between two delimiters, behind text that hosts neither. */
  lemma DelimitedBehind(s: string, p: string, a: string, open: string, k: nat, text: string, close: string, rest: string)
    requires s == p + (a + (open + (text + (close + rest))))
    requires k < |open| && open[k] !in a && open[k] !in open[..k]
    requires close != [] && close[0] !in open && close[0] !in text
    ensures Delimited(s, open, At(|p|), close) == Found(text, |p| + |a|, |p| + |a| + |open| + |text|)
  {
    hide Find, MatchAt;
    var i := |p| + |a|;
    FindBehind(s, p, a, open, text + (close + rest), k);
    assert s == (p + a) + ((open + text) + (close + rest));
    FindBehind(s, p + a, open + text, close, rest, 0);
    assert s[i + |open|..i + |open| + |text|] == text;
  }

  // ----- the five searches on a printed line -----

  /** Characters that a printed line contains before its prices: no small letter. */
  predicate HasNoSmall(s: string) {
    forall c :: c in s ==> !('a' <= c <= 'z')
  }

  lemma HeadHasNoSmall(b: Bbo, spaced: bool)
    requires CleanRecord(b)
    ensures HasNoSmall(Head(b, spaced))
  {
  }

  lemma SymbolExtracted(b: Bbo, spaced: bool, tail: string)
    requires CleanRecord(b)
    ensures var s := LineText(b, spaced) + tail;
            Delimited(s, "BBO:", At(0), "]") == Found(SymbolField(b.symbol), 1, 13)
  {
    var s := LineText(b, spaced) + tail;
    var rest := Gap(spaced) + PricesText(b) + tail;
    assert s == "" + ("[" + ("BBO:" + (SymbolField(b.symbol) + ("]" + rest))));
    DelimitedBehind(s, "", "[", "BBO:", 0, SymbolField(b.symbol), "]", rest);
  }

  lemma PriceExtracted(s: string, a: string, marker: string, p: string, rest: string)
    requires marker == "Bid:0x" || marker == "Ask:0x"
    requires marker[1] !in a && HexChars(p)
    requires s == a + (marker + (p + (" (" + rest)))
    ensures Delimited(s, marker, At(0), " (") == Found(p, |a|, |a| + 6 + |p|)
  {
    assert s == "" + s;
    DelimitedBehind(s, "", a, marker, 1, p, " (", rest);
  }

  lemma SharesExtracted(s: string, front: string, q: string, rest: string)
    requires HexChars(q)
    requires s == front + (" " + ("(0x" + (q + (")" + rest))))
    ensures Delimited(s, "(0x", At(|front|), ")") == Found(q, |front| + 1, |front| + 4 + |q|)
  {
    DelimitedBehind(s, front, " ", "(0x", 0, q, ")", rest);
  }

  /** Both fields of a quote `marker` price ` (0x` shares `)`. */
  lemma QuoteExtracted(s: string, a: string, marker: string, price: nat, shares: nat, rest: string)
    requires marker == "Bid:0x" || marker == "Ask:0x"
    requires marker[1] !in a
    requires s == a + (QuoteText(marker, price, shares) + rest)
    ensures Delimited(s, marker, At(0), " (") == Found(HexText(price, 8), |a|, |a| + 14)
    ensures Delimited(s, "(0x", At(|a| + 14), ")") == Found(HexText(shares, 8), |a| + 15, |a| + 26)
  {
    hide Delimited, HexText;
    var p, q := HexText(price, 8), HexText(shares, 8);
    QuoteSplits(a, marker, p, q, rest);
    PriceExtracted(s, a, marker, p, "0x" + (q + (")" + rest)));
    SharesExtracted(s, a + (marker + p), q, rest);
  }

  lemma QuoteSplits(a: string, marker: string, p: string, q: string, rest: string)
    ensures var s := a + ((marker + (p + (" " + ("(0x" + (q + ")"))))) + rest);
            && s == a + (marker + (p + (" (" + ("0x" + (q + (")" + rest))))))
            && s == (a + (marker + p)) + (" " + ("(0x" + (q + (")" + rest))))
  {
    assert " " + "(0x" == " (" + "0x";
  }

  lemma HexCharIsNoDelimiter(h: string, j: nat)
    requires HexChars(h) && j < |h|
    ensures h[j] !in SPREAD_ENDS
  {
    assert h[j] in h;
  }

  lemma FirstDelimiter(s: string, from: nat, to: nat)
    requires from <= to < |s| && s[to] == '\n'
    requires forall j :: from <= j < to ==> s[j] !in SPREAD_ENDS
    ensures FindFirstOf(s, SPREAD_ENDS, from) == At(to)
  {
    assert '\n' in SPREAD_ENDS;
    var r := FindFirstOf(s, SPREAD_ENDS, from);
    assert r.At?;
  }

  lemma SpreadMarkerDistinct()
    ensures |SPREAD_MARKER| == 6 && SPREAD_MARKER[1] == 'p' && 'p' !in SPREAD_MARKER[..1]
  {
  }

  lemma SpreadExtracted(s: string, a: string, h: string)
    requires 'p' !in a && HexChars(h)
    requires s == a + (SPREAD_MARKER + (h + "\n"))
    ensures SpreadField(s) == Found(h, |a|, |a| + 6 + |h|)
  {
    hide Find, FindFirstOf, SpreadField, HexChars;
    assert s == "" + s;
    SpreadMarkerDistinct();
    FindBehind(s, "", a, SPREAD_MARKER, h + "\n", 1);
    var i := |a| + 6;
    forall j | i <= j < i + |h| ensures s[j] !in SPREAD_ENDS {
      HexCharIsNoDelimiter(h, j - i);
      assert s[j] == h[j - i];
    }
    FirstDelimiter(s, i, i + |h|);
    SpreadBetween(s, |a|, i + |h|);
    assert s[i..i + |h|] == h;
  }

  // ----- which characters a printed line contains -----

  /** No line end, and no letter N. */
  predicate Plain(s: string) {
    forall c :: c in s ==> c != '\n' && c != '\r' && c != 'N'
  }

  lemma PlainAppend(a: string, b: string)
    requires Plain(a) && Plain(b)
    ensures Plain(a + b)
  {
  }

  lemma QuoteIsPlain(marker: string, price: nat, shares: nat)
    requires Plain(marker)
    ensures Plain(QuoteText(marker, price, shares))
  {
    var p, q := HexText(price, 8), HexText(shares, 8);
    PlainAppend(q, ")");
    PlainAppend("(0x", q + ")");
    PlainAppend(" ", "(0x" + (q + ")"));
    PlainAppend(p, " " + ("(0x" + (q + ")")));
    PlainAppend(marker, p + (" " + ("(0x" + (q + ")"))));
  }

  lemma PricesArePlain(b: Bbo)
    ensures Plain(PricesText(b))
  {
    hide QuoteText;
    QuoteIsPlain("Bid:0x", b.bidPrice, b.bidShares);
    QuoteIsPlain("Ask:0x", b.askPrice, b.askShares);
    var spr := "Spr:0x" + HexText(b.spread, 8);
    var ask := QuoteText("Ask:0x", b.askPrice, b.askShares);
    PlainAppend("Spr:0x", HexText(b.spread, 8));
    PlainAppend(" | ", spr);
    PlainAppend(ask, " | " + spr);
    PlainAppend(" | ", ask + (" | " + spr));
    PlainAppend(QuoteText("Bid:0x", b.bidPrice, b.bidShares), " | " + (ask + (" | " + spr)));
  }

  /** The text behind the symbol. */
  function BehindSymbol(b: Bbo, spaced: bool): string
    requires CleanRecord(b)
  {
    Blanks(8 - |b.symbol|) + ("]" + (Gap(spaced) + PricesText(b)))
  }

  lemma BehindSymbolIsPlain(b: Bbo, spaced: bool)
    requires CleanRecord(b)
    ensures Plain(BehindSymbol(b, spaced))
    ensures BehindSymbol(b, spaced) != [] && BehindSymbol(b, spaced)[0] in " ]"
  {
    hide PricesText;
    PricesArePlain(b);
    PlainAppend(Gap(spaced), PricesText(b));
    PlainAppend("]", Gap(spaced) + PricesText(b));
    PlainAppend(Blanks(8 - |b.symbol|), "]" + (Gap(spaced) + PricesText(b)));
  }

  lemma LineTextSplit(b: Bbo, spaced: bool)
    requires CleanRecord(b)
    ensures LineText(b, spaced) == "[BBO:" + (b.symbol + BehindSymbol(b, spaced))
  {
    hide PricesText;
    assert "[BBO:" == "[" + "BBO:";
  }

  /** A pattern that starts with a character found only in `mid`, does not occur in `mid`, and does
      not contain the character behind `mid`, occurs nowhere. */
  lemma AbsentAround(s: string, a: string, mid: string, rest: string, pattern: string)
    requires s == a + (mid + rest)
    requires pattern != [] && pattern[0] !in a && pattern[0] !in rest
    requires rest != [] && rest[0] !in pattern
    requires forall j: nat :: !MatchAt(mid, pattern, j)
    ensures forall j: nat :: !MatchAt(s, pattern, j)
  {
    forall j: nat ensures !MatchAt(s, pattern, j) {
      assert j < |a| ==> s[j] == a[j];
      assert |a| + |mid| <= j < |s| ==> s[j] == rest[j - |a| - |mid|];
      if |a| <= j < |a| + |mid| {
        var i := j - |a|;
        assert !MatchAt(mid, pattern, i);
        if i + |pattern| <= |mid| {
          assert s[j..j + |pattern|] == mid[i..i + |pattern|];
        } else {
          assert s[j + (|mid| - i)] == rest[0];
        }
      }
      if MatchAt(s, pattern, j) {
        MatchedChars(s, pattern, j);
        assert false;
      }
    }
  }

  /** NODATA cannot appear in a printed line: it is not in the symbol, and outside the symbol there
      is no letter N. */
  lemma NoDataAbsent(b: Bbo, spaced: bool)
    requires CleanRecord(b)
    ensures Find(LineText(b, spaced) + "\n", "NODATA", At(0)).Npos?
  {
    hide LineText, BehindSymbol;
    var s, rest := LineText(b, spaced) + "\n", BehindSymbol(b, spaced) + "\n";
    LineTextSplit(b, spaced);
    BehindSymbolIsPlain(b, spaced);
    assert s == "[BBO:" + (b.symbol + rest);
    FindIsFirst(b.symbol, "NODATA", 0);
    AbsentAround(s, "[BBO:", b.symbol, rest, "NODATA");
    FindNone(s, "NODATA");
  }

  // ----- parsing a printed line -----

  function Head(b: Bbo, spaced: bool): string
    requires CleanRecord(b)
  {
    "[" + ("BBO:" + (SymbolField(b.symbol) + ("]" + Gap(spaced))))
  }

  lemma BidExtracted(b: Bbo, spaced: bool)
    requires CleanRecord(b)
    ensures var s, n := LineText(b, spaced) + "\n", |Head(b, spaced)|;
            && Delimited(s, "Bid:0x", At(0), " (") == Found(HexText(b.bidPrice, 8), n, n + 14)
            && Delimited(s, "(0x", At(n + 14), ")") == Found(HexText(b.bidShares, 8), n + 15, n + 26)
  {
    hide Delimited, QuoteText;
    var bid := QuoteText("Bid:0x", b.bidPrice, b.bidShares);
    var ask := QuoteText("Ask:0x", b.askPrice, b.askShares);
    var rest := " | " + (ask + (" | " + ("Spr:0x" + HexText(b.spread, 8)))) + "\n";
    HeadHasNoSmall(b, spaced);
    assert LineText(b, spaced) + "\n" == Head(b, spaced) + (bid + rest);
    QuoteExtracted(LineText(b, spaced) + "\n", Head(b, spaced), "Bid:0x", b.bidPrice, b.bidShares, rest);
  }

  lemma QuoteLacks(marker: string, price: nat, shares: nat, c: char)
    requires c !in marker && c in "skp"
    ensures c !in QuoteText(marker, price, shares)
    ensures |QuoteText(marker, price, shares)| == |marker| + 21
  {
    var p, q := HexText(price, 8), HexText(shares, 8);
    assert c !in p && c !in q;
  }

  lemma AskExtracted(b: Bbo, spaced: bool)
    requires CleanRecord(b)
    ensures var s, n := LineText(b, spaced) + "\n", |Head(b, spaced)| + 30;
            && Delimited(s, "Ask:0x", At(0), " (") == Found(HexText(b.askPrice, 8), n, n + 14)
            && Delimited(s, "(0x", At(n + 14), ")") == Found(HexText(b.askShares, 8), n + 15, n + 26)
  {
    hide Delimited, QuoteText;
    var bid := QuoteText("Bid:0x", b.bidPrice, b.bidShares);
    var ask := QuoteText("Ask:0x", b.askPrice, b.askShares);
    var front := Head(b, spaced) + (bid + " | ");
    var rest := " | " + ("Spr:0x" + HexText(b.spread, 8)) + "\n";
    HeadHasNoSmall(b, spaced);
    QuoteLacks("Bid:0x", b.bidPrice, b.bidShares, 's');
    assert LineText(b, spaced) + "\n" == front + (ask + rest);
    QuoteExtracted(LineText(b, spaced) + "\n", front, "Ask:0x", b.askPrice, b.askShares, rest);
  }

  function BeforeSpread(b: Bbo, spaced: bool): string
    requires CleanRecord(b)
  {
    Head(b, spaced) + (QuoteText("Bid:0x", b.bidPrice, b.bidShares) +
                       (" | " + (QuoteText("Ask:0x", b.askPrice, b.askShares) + " | ")))
  }

  lemma BeforeSpreadLacksP(b: Bbo, spaced: bool)
    requires CleanRecord(b)
    ensures 'p' !in BeforeSpread(b, spaced)
  {
    hide QuoteText, Head;
    HeadHasNoSmall(b, spaced);
    QuoteLacks("Bid:0x", b.bidPrice, b.bidShares, 'p');
    QuoteLacks("Ask:0x", b.askPrice, b.askShares, 'p');
  }

  lemma LineEndsInSpread(b: Bbo, spaced: bool)
    requires CleanRecord(b)
    ensures LineText(b, spaced) + "\n" == BeforeSpread(b, spaced) + (SPREAD_MARKER + (HexText(b.spread, 8) + "\n"))
  {
    hide QuoteText, SymbolField;
  }

  lemma SpreadOfLine(b: Bbo, spaced: bool)
    requires CleanRecord(b)
    ensures var f := SpreadField(LineText(b, spaced) + "\n"); f.Found? && f.text == HexText(b.spread, 8)
  {
    hide SpreadField, LineText, BeforeSpread;
    BeforeSpreadLacksP(b, spaced);
    LineEndsInSpread(b, spaced);
    SpreadExtracted(LineText(b, spaced) + "\n", BeforeSpread(b, spaced), HexText(b.spread, 8));
  }

  lemma LineExtracts(b: Bbo, spaced: bool)
    requires CleanRecord(b)
    ensures Extract(LineText(b, spaced) + "\n")
         == Some(Texts(SymbolField(b.symbol), HexText(b.bidPrice, 8), HexText(b.bidShares, 8),
                       HexText(b.askPrice, 8), HexText(b.askShares, 8), HexText(b.spread, 8)))
  {
    hide Delimited, SpreadField, LineText, HexText, SymbolField, Head;
    NoDataAbsent(b, spaced);
    SymbolExtracted(b, spaced, "\n");
    BidExtracted(b, spaced);
    AskExtracted(b, spaced);
    SpreadOfLine(b, spaced);
  }

  lemma SymbolTrims(symbol: string)
    requires CleanSymbol(symbol)
    ensures Trim(SymbolField(symbol)) == symbol
  {
    hide Trim, Find;
    var pad := Blanks(8 - |symbol|);
    assert symbol[0] in symbol && symbol[|symbol| - 1] in symbol;
    assert forall i :: 0 <= i < |pad| ==> pad[i] in pad;
    assert SymbolField(symbol) == "" + symbol + pad;
    TrimPadded("", symbol, pad);
  }

  /** Parsing a printed line gives back the record. */
  lemma PrintedLineParses(b: Bbo, spaced: bool, now: int)
    requires CleanRecord(b)
    ensures Parse(LineText(b, spaced) + "\n", now) == Valid(b.(timestampNs := now))
  {
    hide Extract, LineText, HexText, SymbolField, Trim, HexToPrice, HexToUint;
    LineExtracts(b, spaced);
    SymbolTrims(b.symbol);
    PrintedHexReadsBack(b.bidPrice);
    PrintedHexReadsBack(b.bidShares);
    PrintedHexReadsBack(b.askPrice);
    PrintedHexReadsBack(b.askShares);
    PrintedHexReadsBack(b.spread);
  }

  // ----- streams -----

  /** What the FPGA sends: a record or the no-data marker, ended by CR LF or LF. */
  datatype Item = Record(bbo: Bbo, spaced: bool, crlf: bool) | NoData(crlf: bool)

  predicate WellFormedItem(item: Item) {
    item.Record? ==> WellFormedRecord(item.bbo)
  }

  predicate WellFormedItems(items: seq<Item>) {
    forall i :: 0 <= i < |items| ==> WellFormedItem(items[i])
  }

  function ItemText(item: Item): string
    requires WellFormedItem(item)
  {
    if item.Record? then LineText(item.bbo, item.spaced) else NoDataText
  }

  function ItemBytes(item: Item): string
    requires WellFormedItem(item)
  {
    ItemText(item) + (if item.crlf then "\r\n" else "\n")
  }

  function Stream(items: seq<Item>): string
    requires WellFormedItems(items)
  {
    if items == [] then "" else ItemBytes(items[0]) + Stream(items[1..])
  }

  function RecordOf(item: Item): seq<Bbo> {
    if item.Record? then [item.bbo] else []
  }

  function Records(items: seq<Item>): seq<Bbo> {
    if items == [] then []
    else RecordOf(items[0]) + Records(items[1..])
  }

  /** What the UART loop keeps of the lines it reads; `clock[i]` is the time line `i` is parsed. */
  function ValidParses(lines: seq<string>, clock: seq<int>): seq<Bbo>
    requires |lines| == |clock|
  {
    ValidRecords(Parses(lines, clock))
  }

  function Parses(lines: seq<string>, clock: seq<int>): seq<ParseResult>
    requires |lines| == |clock|
  {
    seq(|lines|, i requires 0 <= i < |lines| => Parse(lines[i], clock[i]))
  }

  function Kept(r: ParseResult): seq<Bbo> {
    if r.Valid? then [r.bbo] else []
  }

  function ValidRecords(results: seq<ParseResult>): seq<Bbo> {
    if results == [] then []
    else Kept(results[0]) + ValidRecords(results[1..])
  }

  function Untimed(bs: seq<Bbo>): seq<Bbo> {
    seq(|bs|, i requires 0 <= i < |bs| => bs[i].(timestampNs := 0))
  }

  lemma UntimedAppend(a: seq<Bbo>, b: seq<Bbo>)
    ensures Untimed(a + b) == Untimed(a) + Untimed(b)
  {
  }

  lemma {:induction false} StripCrIdentity(s: string)
    requires '\r' !in s
    ensures StripCr(s) == s
  {
    if s != [] {
      assert s[0] in s;
      assert forall c :: c in s[1..] ==> c in s;
      StripCrIdentity(s[1..]);
    }
  }

  lemma ItemTextIsPlain(item: Item)
    requires WellFormedItem(item)
    ensures '\r' !in ItemText(item) && '\n' !in ItemText(item) && ItemText(item) != []
  {
    if item.Record? {
      var b := item.bbo;
      hide LineText, BehindSymbol;
      LineTextSplit(b, item.spaced);
      BehindSymbolIsPlain(b, item.spaced);
    }
  }

  /** An item on the wire is read as one line: its text and a newline. */
  lemma ItemIsOneLine(item: Item, rest: string)
    requires WellFormedItem(item)
    ensures Lines(ItemBytes(item) + rest) == [ItemText(item) + "\n"] + Lines(rest)
  {
    var t, l := ItemText(item), ItemBytes(item);
    var end := if item.crlf then "\r\n" else "\n";
    ItemTextIsPlain(item);
    assert l[..|l| - 1] == t + end[..|end| - 1];
    hide ItemText, Lines, FirstNewline;
    LinesCons(l, rest);
    StripCrAppend(t, end);
    StripCrIdentity(t);
    LineEndsStrip();
  }

  lemma LineEndsStrip()
    ensures StripCr("\r\n") == "\n" && StripCr("\n") == "\n"
  {
    assert "\r\n"[1..] == "\n";
  }

  lemma NoDataInvalid(now: int)
    ensures Parse(NoDataText + "\n", now) == Invalid
  {
    var s := NoDataText + "\n";
    assert s == "" + ("[BBO:" + ("NODATA" + "  ]\n"));
    FindBehind(s, "", "[BBO:", "NODATA", "  ]\n", 0);
  }

  lemma StreamIsEmpty()
    ensures Lines("") == []
  {
  }

  lemma StreamNext(items: seq<Item>)
    requires WellFormedItems(items) && items != []
    ensures Lines(Stream(items)) == [ItemText(items[0]) + "\n"] + Lines(Stream(items[1..]))
  {
    hide Lines, ItemBytes, ItemText;
    ItemIsOneLine(items[0], Stream(items[1..]));
  }

  lemma ItemParses(item: Item, now: int)
    requires WellFormedItem(item)
    ensures Untimed(Kept(Parse(ItemText(item) + "\n", now))) == Untimed(RecordOf(item))
  {
    hide Parse, LineText;
    if item.Record? {
      PrintedLineParses(item.bbo, item.spaced, now);
    } else {
      NoDataInvalid(now);
    }
  }

  /** Stream round trip: printing any list of records, in either form, with no-data lines anywhere
      and either line end, and then reading and parsing line by line gives back exactly those
      records in order, up to the timestamp. */
  lemma {:induction false} StreamRoundTrip(items: seq<Item>, clock: seq<int>)
    requires WellFormedItems(items) && |clock| == |items|
    ensures |Lines(Stream(items))| == |items|
    ensures Untimed(ValidParses(Lines(Stream(items)), clock)) == Untimed(Records(items))
  {
    hide Parse, Lines, ItemText, Untimed;
    if items == [] {
      StreamIsEmpty();
    } else {
      var item, rest := items[0], items[1..];
      hide Stream, WellFormedItem;
      StreamRoundTrip(rest, clock[1..]);
      StreamNext(items);
      ItemParses(item, clock[0]);
      var lines := Lines(Stream(items));
      assert lines[1..] == Lines(Stream(rest));
      assert Parses(lines, clock)[1..] == Parses(lines[1..], clock[1..]);
      UntimedAppend(Kept(Parse(lines[0], clock[0])), ValidParses(lines[1..], clock[1..]));
      UntimedAppend(RecordOf(item), Records(rest));
    }
  }
}
