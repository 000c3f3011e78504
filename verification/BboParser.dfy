/** The std::string operations the parser uses, with their size_t arithmetic and exceptions. */
module CppText {
  import opened Sequences

  /** size_t is 64 bits wide. */
  const SIZE_MODULUS: nat := 0x1_0000_0000_0000_0000

  datatype Position = Npos | At(index: nat)

  predicate MatchAt(s: string, pattern: string, i: nat) {
    i + |pattern| <= |s| && s[i..i + |pattern|] == pattern
  }

  lemma MatchedChars(s: string, pattern: string, i: nat)
    requires MatchAt(s, pattern, i)
    ensures forall k :: 0 <= k < |pattern| ==> s[i + k] == pattern[k]
  {
    forall k | 0 <= k < |pattern| ensures s[i + k] == pattern[k] {
      assert s[i..i + |pattern|][k] == s[i + k];
    }
  }

  /** `s.find(pattern, from)`. */
  function Find(s: string, pattern: string, from: Position): (r: Position)
    ensures r.At? ==> from.At? && from.index <= r.index
    decreases if from.Npos? then 0 else |s| + 1 - from.index
  {
    if from.Npos? || from.index > |s| then Npos
    else if MatchAt(s, pattern, from.index) then from
    else Find(s, pattern, At(from.index + 1))
  }

  /** `Find` returns the first match at or after `from`, and npos exactly when there is none. */
  lemma {:induction false} FindIsFirst(s: string, pattern: string, from: nat)
    ensures var r := Find(s, pattern, At(from));
            && (r.Npos? ==> forall j: nat :: from <= j ==> !MatchAt(s, pattern, j))
            && (r.At? ==>
                  && MatchAt(s, pattern, r.index)
                  && forall j: nat :: from <= j < r.index ==> !MatchAt(s, pattern, j))
    decreases |s| + 1 - from
  {
    if from <= |s| && !MatchAt(s, pattern, from) {
      FindIsFirst(s, pattern, from + 1);
    }
  }

  /** `s.find_first_of(set, from)`. */
  function FindFirstOf(s: string, chars: string, from: nat): (r: Position)
    ensures r.Npos? ==> forall j: nat :: from <= j < |s| ==> s[j] !in chars
    ensures r.At? ==>
              && from <= r.index < |s|
              && s[r.index] in chars
              && forall j: nat :: from <= j < r.index ==> s[j] !in chars
    decreases |s| - from
  {
    if from >= |s| then Npos
    else if s[from] in chars then At(from)
    else FindFirstOf(s, chars, from + 1)
  }

  lemma FindUnique(s: string, pattern: string, from: nat, i: nat)
    requires from <= i && MatchAt(s, pattern, i)
    requires forall j: nat :: from <= j < i ==> !MatchAt(s, pattern, j)
    ensures Find(s, pattern, At(from)) == At(i)
  {
    FindIsFirst(s, pattern, from);
  }

  lemma FindNone(s: string, pattern: string)
    requires forall j: nat :: !MatchAt(s, pattern, j)
    ensures Find(s, pattern, At(0)).Npos?
  {
    FindIsFirst(s, pattern, 0);
  }

  /** Unsigned subtraction of two size_t values: a negative difference wraps. */
  function SizeSub(a: nat, b: nat): nat {
    if a >= b then a - b else (a - b) % SIZE_MODULUS
  }

  datatype Sliced = OutOfRange | Slice(text: string)

  /** `s.substr(pos, len)`: throws past the end, and clips the length. */
  function Substr(s: string, pos: nat, len: nat): Sliced {
    if pos > |s| then OutOfRange
    else if pos + len > |s| then Slice(s[pos..])
    else Slice(s[pos..pos + len])
  }

  /** isspace in the C locale. */
  predicate IsSpace(c: char) {
    c == ' ' || '\t' <= c <= '\r'
  }

  function TrimLeft(s: string): string {
    if s == [] || !IsSpace(s[0]) then s else TrimLeft(s[1..])
  }

  function TrimRight(s: string): string {
    if s == [] || !IsSpace(s[|s| - 1]) then s else TrimRight(s[..|s| - 1])
  }

  function Trim(s: string): string {
    TrimRight(TrimLeft(s))
  }

  lemma {:induction false} TrimLeftBlanks(a: string, text: string)
    requires forall i :: 0 <= i < |a| ==> IsSpace(a[i])
    requires text == [] || !IsSpace(text[0])
    ensures TrimLeft(a + text) == text
  {
    if a == [] {
      assert a + text == text;
    } else {
      assert (a + text)[1..] == a[1..] + text;
      TrimLeftBlanks(a[1..], text);
    }
  }

  lemma {:induction false} TrimRightBlanks(text: string, b: string)
    requires forall i :: 0 <= i < |b| ==> IsSpace(b[i])
    requires text == [] || !IsSpace(text[|text| - 1])
    ensures TrimRight(text + b) == text
  {
    if b == [] {
      assert text + b == text;
    } else {
      var n := |b| - 1;
      assert (text + b)[..|text| + n] == text + b[..n];
      TrimRightBlanks(text, b[..n]);
    }
  }

  /** Trimming removes exactly a padding of blanks on either side. */
  lemma TrimPadded(a: string, text: string, b: string)
    requires forall i :: 0 <= i < |a| ==> IsSpace(a[i])
    requires forall i :: 0 <= i < |b| ==> IsSpace(b[i])
    requires text != [] && !IsSpace(text[0]) && !IsSpace(text[|text| - 1])
    ensures Trim(a + text + b) == text
  {
    assert a + text + b == a + (text + b);
    TrimLeftBlanks(a, text + b);
    TrimRightBlanks(text, b);
  }

  // ----- std::stoul(text, nullptr, 16) -----

  predicate IsHexDigit(c: char) {
    '0' <= c <= '9' || 'A' <= c <= 'F' || 'a' <= c <= 'f'
  }

  function HexDigitValue(c: char): (v: nat)
    requires IsHexDigit(c)
    ensures v < 16
  {
    if c <= '9' then c as int - '0' as int
    else if c <= 'F' then c as int - 'A' as int + 10
    else c as int - 'a' as int + 10
  }

  predicate IsHex(s: string) {
    forall i :: 0 <= i < |s| ==> IsHexDigit(s[i])
  }

  function HexValue(s: string): nat
    requires IsHex(s)
  {
    if s == [] then 0 else HexValue(s[..|s| - 1]) * 16 + HexDigitValue(s[|s| - 1])
  }

  /** The longest prefix of hex digits. */
  function HexPrefix(s: string): (r: string)
    ensures IsHex(r) && r <= s
    ensures |r| < |s| ==> !IsHexDigit(s[|r|])
  {
    if s == [] || !IsHexDigit(s[0]) then []
    else [s[0]] + HexPrefix(s[1..])
  }

  /** A base-16 literal may start with 0x, if a digit follows. */
  function SkipHexMarker(s: string): string {
    if |s| >= 3 && s[0] == '0' && (s[1] == 'x' || s[1] == 'X') && IsHexDigit(s[2]) then s[2..] else s
  }

  function SkipSign(s: string): string {
    if s != [] && (s[0] == '-' || s[0] == '+') then s[1..] else s
  }

  /** The digits the conversion reads. */
  function StoulDigits(s: string): (r: string)
    ensures IsHex(r)
  {
    HexPrefix(SkipHexMarker(SkipSign(TrimLeft(s))))
  }

  predicate StoulNegative(s: string) {
    var t := TrimLeft(s);
    t != [] && t[0] == '-'
  }

  /** None is an exception: no digits, or a value that unsigned long (64 bits) cannot hold. */
  function Stoul16(s: string): Option<nat> {
    var digits := StoulDigits(s);
    var value := HexValue(digits);
    if digits == [] || value >= SIZE_MODULUS then None
    else if StoulNegative(s) then Some((SIZE_MODULUS - value) % SIZE_MODULUS)
    else Some(value)
  }

  function Pow16(k: nat): nat {
    if k == 0 then 1 else 16 * Pow16(k - 1)
  }

  lemma {:induction false} HexValueBound(s: string)
    requires IsHex(s)
    ensures HexValue(s) < Pow16(|s|)
  {
    if s != [] {
      HexValueBound(s[..|s| - 1]);
    }
  }

  lemma {:induction false} Pow16Monotone(j: nat, k: nat)
    requires j <= k
    ensures 1 <= Pow16(j) <= Pow16(k)
  {
    if j < k {
      Pow16Monotone(j, k - 1);
    } else if j > 0 {
      Pow16Monotone(j - 1, k - 1);
    }
  }

  lemma HexPrefixWhole(s: string)
    requires IsHex(s)
    ensures HexPrefix(s) == s
  {
  }

  lemma EightDigitsFit(s: string)
    requires IsHex(s) && |s| <= 8
    ensures HexValue(s) < 0x1_0000_0000
  {
    HexValueBound(s);
    Pow16Monotone(|s|, 8);
    assert Pow16(8) == 0x1_0000_0000 by {
      assert Pow16(4) == 0x1_0000;
      assert Pow16(8) == 16 * 16 * 16 * 16 * Pow16(4);
    }
  }

  lemma StoulDigitsOfHex(s: string)
    requires IsHex(s) && s != []
    ensures StoulDigits(s) == s && !StoulNegative(s)
  {
    assert IsHexDigit(s[0]);
    assert !IsSpace(s[0]);
    assert TrimLeft(s) == s;
    assert SkipSign(s) == s;
    assert |s| >= 2 ==> IsHexDigit(s[1]);
    assert SkipHexMarker(s) == s;
    HexPrefixWhole(s);
  }

  /** On 1 to 8 plain hex digits the conversion is the positional value. */
  lemma Stoul16OfHex(s: string)
    requires IsHex(s) && 1 <= |s| <= 8
    ensures Stoul16(s) == Some(HexValue(s)) && HexValue(s) < 0x1_0000_0000
  {
    EightDigitsFit(s);
    StoulDigitsOfHex(s);
  }
}

/** BBOParser::parse and its conversions. */
module BboParser {
  import opened BboTypes
  import opened CppText
  import opened Sequences

  /** One delimited field: absent, an exception in substr, or its text. `from` and `to` are where
      the opening and the closing delimiter were found. */
  datatype Field = Missing | Thrown | Found(text: string, from: nat, to: nat)

  /** `start = find(open, from); end = find(close, start)`, the check of both, and the substring
      between them, with the length computed in size_t. */
  function Delimited(line: string, open: string, from: Position, close: string): Field {
    var start := Find(line, open, from);
    var end := Find(line, close, start);
    if start.Npos? || end.Npos? then Missing
    else
      match Substr(line, start.index + |open|, SizeSub(SizeSub(end.index, start.index), |open|))
      case OutOfRange => Thrown
      case Slice(text) => Found(text, start.index, end.index)
  }

  const SPREAD_MARKER := "Spr:0x"
  const SPREAD_ENDS := " |\n\r"

  /** The spread runs to the first delimiter or the end of the line. */
  function SpreadField(line: string): Field {
    var start := Find(line, SPREAD_MARKER, At(0));
    if start.Npos? then Missing
    else
      var first := FindFirstOf(line, SPREAD_ENDS, start.index + 6);
      var end := if first.Npos? then |line| else first.index;
      match Substr(line, start.index + 6, SizeSub(SizeSub(end, start.index), 6))
      case OutOfRange => Thrown
      case Slice(text) => Found(text, start.index, end)
  }

  /** The six texts `parse` cuts out of a line, or None where it returns an invalid structure. */
  datatype Texts = Texts(
    symbol: string, bidPrice: string, bidShares: string, askPrice: string, askShares: string, spread: string)

  function Extract(line: string): Option<Texts> {
    if Find(line, "NODATA", At(0)).At? then None
    else
      var symbol := Delimited(line, "BBO:", At(0), "]");
      if !symbol.Found? then None else
      var bid := Delimited(line, "Bid:0x", At(0), " (");
      if !bid.Found? then None else
      var bidShares := Delimited(line, "(0x", At(bid.to), ")");
      if !bidShares.Found? then None else
      var ask := Delimited(line, "Ask:0x", At(0), " (");
      if !ask.Found? then None else
      var askShares := Delimited(line, "(0x", At(ask.to), ")");
      if !askShares.Found? then None else
      var spread := SpreadField(line);
      if !spread.Found? then None else
      Some(Texts(symbol.text, bid.text, bidShares.text, ask.text, askShares.text, spread.text))
  }

  /** A failed conversion yields 0. */
  function OrZero(r: Option<nat>): nat {
    if r.Some? then r.value else 0
  }

  /** The low 32 bits. */
  function ToUint32(n: nat): nat {
    n % 0x1_0000_0000
  }

  /** The price in ten-thousandths, so that the division by 10000 is exact. */
  function HexToPrice(hex: string): nat {
    OrZero(Stoul16(hex))
  }

  function HexToUint(hex: string): nat {
    ToUint32(OrZero(Stoul16(hex)))
  }

  function Parse(line: string, now: int): ParseResult {
    match Extract(line)
    case None => Invalid
    case Some(t) =>
      Valid(Bbo(Trim(t.symbol), HexToPrice(t.bidPrice), HexToUint(t.bidShares),
                HexToPrice(t.askPrice), HexToUint(t.askShares), HexToPrice(t.spread), now))
  }

  // ----- index safety -----

  /** The field is cut in range and by a length that did not wrap: it is exactly the text between
      its two delimiters. */
  ghost predicate ExactlyBetween(line: string, open: string, close: string, f: Field) {
    f.Found? ==>
      && MatchAt(line, open, f.from)
      && MatchAt(line, close, f.to)
      && f.from + |open| <= f.to
      && f.text == line[f.from + |open|..f.to]
      && forall j: nat :: f.from + |open| <= j < f.to ==> !MatchAt(line, close, j)
  }

  /** A closing delimiter whose first character does not occur in the opening one cannot match
      inside it, so the length never wraps and substr never throws. */
  lemma DelimitedIsSafe(line: string, open: string, from: Position, close: string)
    requires close != [] && close[0] !in open
    ensures !Delimited(line, open, from, close).Thrown?
    ensures ExactlyBetween(line, open, close, Delimited(line, open, from, close))
  {
    var start := Find(line, open, from);
    var end := Find(line, close, start);
    if start.At? && end.At? {
      FindIsFirst(line, open, from.index);
      FindIsFirst(line, close, start.index);
      MatchedChars(line, open, start.index);
      MatchedChars(line, close, end.index);
      assert forall i :: 0 <= i < |open| ==> open[i] != close[0];
    }
  }

  /** The spread field, once both of its ends are located. */
  lemma SpreadBetween(line: string, start: nat, end: nat)
    requires Find(line, SPREAD_MARKER, At(0)) == At(start)
    requires FindFirstOf(line, SPREAD_ENDS, start + 6) == At(end)
    ensures start + 6 <= end < |line| && SpreadField(line) == Found(line[start + 6..end], start, end)
  {
  }

  lemma SpreadIsSafe(line: string)
    ensures var f := SpreadField(line);
            && !f.Thrown?
            && (f.Found? ==>
                  && MatchAt(line, SPREAD_MARKER, f.from)
                  && f.from + 6 <= f.to <= |line|
                  && f.text == line[f.from + 6..f.to]
                  && (f.to == |line| || line[f.to] in SPREAD_ENDS)
                  && forall j :: f.from + 6 <= j < f.to ==> line[j] !in SPREAD_ENDS)
  {
    var start := Find(line, SPREAD_MARKER, At(0));
    if start.At? {
      FindIsFirst(line, SPREAD_MARKER, 0);
      assert |SPREAD_MARKER| == 6;
      var first := FindFirstOf(line, SPREAD_ENDS, start.index + 6);
      var end := if first.Npos? then |line| else first.index;
      assert start.index + 6 <= end <= |line|;
      assert SpreadField(line) == Found(line[start.index + 6..end], start.index, end);
    }
  }

  /** Neither field of a quote, its price nor the shares behind it, is ever cut out of range. */
  lemma QuoteIsSafe(line: string, marker: string)
    requires ' ' !in marker
    ensures var price := Delimited(line, marker, At(0), " (");
            && !price.Thrown?
            && ExactlyBetween(line, marker, " (", price)
            && (price.Found? ==>
                  var shares := Delimited(line, "(0x", At(price.to), ")");
                  !shares.Thrown? && ExactlyBetween(line, "(0x", ")", shares))
  {
    DelimitedIsSafe(line, marker, At(0), " (");
    var price := Delimited(line, marker, At(0), " (");
    if price.Found? {
      DelimitedIsSafe(line, "(0x", At(price.to), ")");
    }
  }

  /** Index safety of `parse` on every line whatsoever: every substr starts inside the line and no
      length wraps, so each field is exactly the text between its delimiters. */
  lemma ParseIsIndexSafe(line: string)
    ensures var symbol := Delimited(line, "BBO:", At(0), "]");
            !symbol.Thrown? && ExactlyBetween(line, "BBO:", "]", symbol)
    ensures var bid := Delimited(line, "Bid:0x", At(0), " (");
            && !bid.Thrown? && ExactlyBetween(line, "Bid:0x", " (", bid)
            && (bid.Found? ==>
                  var shares := Delimited(line, "(0x", At(bid.to), ")");
                  !shares.Thrown? && ExactlyBetween(line, "(0x", ")", shares))
    ensures var ask := Delimited(line, "Ask:0x", At(0), " (");
            && !ask.Thrown? && ExactlyBetween(line, "Ask:0x", " (", ask)
            && (ask.Found? ==>
                  var shares := Delimited(line, "(0x", At(ask.to), ")");
                  !shares.Thrown? && ExactlyBetween(line, "(0x", ")", shares))
    ensures !SpreadField(line).Thrown?
  {
    hide Delimited, SpreadField, ExactlyBetween;
    DelimitedIsSafe(line, "BBO:", At(0), "]");
    QuoteIsSafe(line, "Bid:0x");
    QuoteIsSafe(line, "Ask:0x");
    SpreadIsSafe(line);
  }

  lemma SmallIsUint32(n: nat)
    requires n < 0x1_0000_0000
    ensures ToUint32(n) == n
  {
  }

  lemma EmptyHexIsZero()
    ensures OrZero(Stoul16("")) == 0 == HexValue("")
  {
  }

  /** Plain hex fields of at most eight digits are read exactly. */
  lemma HexFieldExact(hex: string)
    requires IsHex(hex) && |hex| <= 8
    ensures HexToPrice(hex) == HexToUint(hex) == HexValue(hex)
    ensures HexValue(hex) < 0x1_0000_0000
  {
    hide Stoul16;
    if hex == "" {
      EmptyHexIsZero();
    } else {
      Stoul16OfHex(hex);
    }
    assert OrZero(Stoul16(hex)) == HexValue(hex);
    SmallIsUint32(HexValue(hex));
  }
}
