/** Which lines the parser accepts and where it cuts them, said with positions alone. */
module BboMeaning {
  import opened BboParser
  import opened BboTypes
  import opened CppText
  import opened Sequences

  /** The first match of `pattern` at or after `from` is at `i`. */
  ghost predicate FirstMatch(line: string, pattern: string, from: nat, i: nat) {
    from <= i && MatchAt(line, pattern, i) && forall j: nat :: from <= j < i ==> !MatchAt(line, pattern, j)
  }

  /** Where the markers and the ends of the fields stand. */
  datatype Cuts = Cuts(
    symbol: nat, symbolEnd: nat,
    bid: nat, bidEnd: nat, bidShares: nat, bidSharesEnd: nat,
    ask: nat, askEnd: nat, askShares: nat, askSharesEnd: nat,
    spread: nat, spreadEnd: nat)

  ghost predicate QuoteAt(line: string, marker: string, price: nat, priceEnd: nat, shares: nat, sharesEnd: nat) {
    && FirstMatch(line, marker, 0, price) && FirstMatch(line, " (", price, priceEnd)
    && FirstMatch(line, "(0x", priceEnd, shares) && FirstMatch(line, ")", shares, sharesEnd)
  }

  ghost predicate SpreadAt(line: string, i: nat, end: nat) {
    && FirstMatch(line, "Spr:0x", 0, i)
    && i + 6 <= end <= |line|
    && (end == |line| || line[end] in " |\n\r")
    && forall j :: i + 6 <= j < end ==> line[j] !in " |\n\r"
  }

  ghost predicate CutsOf(line: string, c: Cuts) {
    && FirstMatch(line, "BBO:", 0, c.symbol) && FirstMatch(line, "]", c.symbol, c.symbolEnd)
    && QuoteAt(line, "Bid:0x", c.bid, c.bidEnd, c.bidShares, c.bidSharesEnd)
    && QuoteAt(line, "Ask:0x", c.ask, c.askEnd, c.askShares, c.askSharesEnd)
    && SpreadAt(line, c.spread, c.spreadEnd)
  }

  /** The markers stand where the parser looks for them: only their presence, with no field between. */
  ghost predicate HasMarkers(line: string) {
    && (exists i, j :: FirstMatch(line, "BBO:", 0, i) && i <= j && MatchAt(line, "]", j))
    && HasQuote(line, "Bid:0x")
    && HasQuote(line, "Ask:0x")
    && (exists i: nat :: MatchAt(line, "Spr:0x", i))
  }

  ghost predicate HasQuote(line: string, marker: string) {
    exists i, j, k, l ::
      && FirstMatch(line, marker, 0, i) && FirstMatch(line, " (", i, j) && FirstMatch(line, "(0x", j, k)
      && k <= l && MatchAt(line, ")", l)
  }

  ghost predicate HasNoData(line: string) {
    exists i: nat :: MatchAt(line, "NODATA", i)
  }

  /** The text between two positions that are in order. */
  function Between(line: string, from: nat, to: nat): string {
    if from <= to <= |line| then line[from..to] else ""
  }

  ghost predicate InOrder(line: string, c: Cuts) {
    && c.symbol + 4 <= c.symbolEnd < |line|
    && c.bid + 6 <= c.bidEnd < c.bidShares + 3 <= c.bidSharesEnd < |line|
    && c.ask + 6 <= c.askEnd < c.askShares + 3 <= c.askSharesEnd < |line|
    && c.spread + 6 <= c.spreadEnd <= |line|
  }

  function TextsAt(line: string, c: Cuts): Texts {
    Texts(Between(line, c.symbol + 4, c.symbolEnd),
          Between(line, c.bid + 6, c.bidEnd), Between(line, c.bidShares + 3, c.bidSharesEnd),
          Between(line, c.ask + 6, c.askEnd), Between(line, c.askShares + 3, c.askSharesEnd),
          Between(line, c.spread + 6, c.spreadEnd))
  }

  lemma FirstMatchIsFound(line: string, pattern: string, from: nat, i: nat)
    ensures FirstMatch(line, pattern, from, i) <==> Find(line, pattern, At(from)) == At(i)
  {
    hide MatchAt;
    FindIsFirst(line, pattern, from);
    if FirstMatch(line, pattern, from, i) {
      FindUnique(line, pattern, from, i);
    }
  }

  /** Wherever there is a match, there is a first one. */
  lemma SomeMatchIsFound(line: string, pattern: string, from: nat, i: nat)
    requires from <= i && MatchAt(line, pattern, i)
    ensures Find(line, pattern, At(from)).At?
    ensures FirstMatch(line, pattern, from, Find(line, pattern, At(from)).index)
  {
    hide MatchAt;
    FindIsFirst(line, pattern, from);
  }

  lemma DelimitedAt(line: string, open: string, from: nat, close: string, i: nat, j: nat)
    requires close != [] && close[0] !in open
    ensures FirstMatch(line, open, from, i) && FirstMatch(line, close, i, j) ==>
              && i + |open| <= j < |line|
              && Delimited(line, open, At(from), close) == Found(Between(line, i + |open|, j), i, j)
    ensures Delimited(line, open, At(from), close).Found? &&
            Delimited(line, open, At(from), close).from == i && Delimited(line, open, At(from), close).to == j ==>
              FirstMatch(line, open, from, i) && FirstMatch(line, close, i, j)
  {
    hide Find;
    FirstMatchIsFound(line, open, from, i);
    FirstMatchIsFound(line, close, i, j);
    DelimitedIsSafe(line, open, At(from), close);
  }

  lemma SpreadFieldAt(line: string, i: nat, end: nat)
    ensures SpreadAt(line, i, end) ==> SpreadField(line) == Found(Between(line, i + 6, end), i, end)
    ensures SpreadField(line).Found? && SpreadField(line).from == i && SpreadField(line).to == end ==> SpreadAt(line, i, end)
  {
    hide Find;
    FirstMatchIsFound(line, "Spr:0x", 0, i);
    SpreadIsSafe(line);
    var start := Find(line, "Spr:0x", At(0));
    if start == At(i) && i + 6 <= |line| {
      var first := FindFirstOf(line, " |\n\r", i + 6);
    }
  }

  lemma QuoteCut(line: string, marker: string, i: nat, j: nat, k: nat, l: nat)
    requires ' ' !in marker
    requires QuoteAt(line, marker, i, j, k, l)
    ensures i + |marker| <= j < k + 3 <= l < |line|
    ensures Delimited(line, marker, At(0), " (") == Found(Between(line, i + |marker|, j), i, j)
    ensures Delimited(line, "(0x", At(j), ")") == Found(Between(line, k + 3, l), k, l)
  {
    hide Delimited, Between, FirstMatch;
    DelimitedAt(line, marker, 0, " (", i, j);
    DelimitedAt(line, "(0x", j, ")", k, l);
    assert j <= k by {
      FirstMatchAfter(line, "(0x", j, k);
    }
  }

  lemma FirstMatchAfter(line: string, pattern: string, from: nat, i: nat)
    requires FirstMatch(line, pattern, from, i)
    ensures from <= i
  {
  }

  lemma QuoteFound(line: string, marker: string)
    requires ' ' !in marker
    requires Delimited(line, marker, At(0), " (").Found?
    requires Delimited(line, "(0x", At(Delimited(line, marker, At(0), " (").to), ")").Found?
    ensures var price := Delimited(line, marker, At(0), " (");
            var shares := Delimited(line, "(0x", At(price.to), ")");
            QuoteAt(line, marker, price.from, price.to, shares.from, shares.to)
  {
    hide Delimited, Between, FirstMatch;
    var price := Delimited(line, marker, At(0), " (");
    var shares := Delimited(line, "(0x", At(price.to), ")");
    DelimitedAt(line, marker, 0, " (", price.from, price.to);
    DelimitedAt(line, "(0x", price.to, ")", shares.from, shares.to);
  }

  lemma NoDataFound(line: string)
    ensures Find(line, "NODATA", At(0)).At? <==> HasNoData(line)
  {
    hide MatchAt;
    FindIsFirst(line, "NODATA", 0);
  }

  /** The texts are cut at the first matches. */
  lemma CutsGiveTexts(line: string, c: Cuts)
    requires !HasNoData(line) && CutsOf(line, c)
    ensures Extract(line) == Some(TextsAt(line, c)) && InOrder(line, c)
  {
    hide Find, Delimited, SpreadField, Between, FirstMatch, QuoteAt;
    NoDataFound(line);
    DelimitedAt(line, "BBO:", 0, "]", c.symbol, c.symbolEnd);
    QuoteCut(line, "Bid:0x", c.bid, c.bidEnd, c.bidShares, c.bidSharesEnd);
    QuoteCut(line, "Ask:0x", c.ask, c.askEnd, c.askShares, c.askSharesEnd);
    SpreadFieldAt(line, c.spread, c.spreadEnd);
  }

  lemma TextsGiveCuts(line: string) returns (c: Cuts)
    requires Extract(line).Some?
    ensures !HasNoData(line) && CutsOf(line, c)
  {
    hide Find, Delimited, SpreadField, Between, FirstMatch, QuoteAt, SpreadAt;
    NoDataFound(line);
    var symbol := Delimited(line, "BBO:", At(0), "]");
    var bid := Delimited(line, "Bid:0x", At(0), " (");
    var bidShares := Delimited(line, "(0x", At(bid.to), ")");
    var ask := Delimited(line, "Ask:0x", At(0), " (");
    var askShares := Delimited(line, "(0x", At(ask.to), ")");
    var spread := SpreadField(line);
    DelimitedAt(line, "BBO:", 0, "]", symbol.from, symbol.to);
    QuoteFound(line, "Bid:0x");
    QuoteFound(line, "Ask:0x");
    SpreadFieldAt(line, spread.from, spread.to);
    c := Cuts(symbol.from, symbol.to, bid.from, bid.to, bidShares.from, bidShares.to,
              ask.from, ask.to, askShares.from, askShares.to, spread.from, spread.to);
  }

  // ----- the markers alone decide -----

  lemma QuoteMarkers(line: string, marker: string) returns (i: nat, j: nat, k: nat, l: nat)
    requires HasQuote(line, marker)
    ensures QuoteAt(line, marker, i, j, k, l)
  {
    hide MatchAt;
    var p, q, r, e :|
      && FirstMatch(line, marker, 0, p) && FirstMatch(line, " (", p, q) && FirstMatch(line, "(0x", q, r)
      && r <= e && MatchAt(line, ")", e);
    SomeMatchIsFound(line, ")", r, e);
    i, j, k, l := p, q, r, Find(line, ")", At(r)).index;
  }

  lemma SpreadMarker(line: string, i: nat) returns (start: nat, end: nat)
    requires MatchAt(line, "Spr:0x", i)
    ensures SpreadAt(line, start, end)
  {
    SomeMatchIsFound(line, "Spr:0x", 0, i);
    start := Find(line, "Spr:0x", At(0)).index;
    var first := FindFirstOf(line, " |\n\r", start + 6);
    end := if first.Npos? then |line| else first.index;
  }

  lemma MarkersGiveCuts(line: string) returns (c: Cuts)
    requires HasMarkers(line)
    ensures CutsOf(line, c)
  {
    hide MatchAt, QuoteAt, SpreadAt, HasQuote;
    var i: nat, e: nat :| FirstMatch(line, "BBO:", 0, i) && i <= e && MatchAt(line, "]", e);
    SomeMatchIsFound(line, "]", i, e);
    var b, be, bs, bse := QuoteMarkers(line, "Bid:0x");
    var a, ae, as', ase := QuoteMarkers(line, "Ask:0x");
    var s: nat :| MatchAt(line, "Spr:0x", s);
    var sp, se := SpreadMarker(line, s);
    c := Cuts(i, Find(line, "]", At(i)).index, b, be, bs, bse, a, ae, as', ase, sp, se);
  }

  lemma CutsGiveMarkers(line: string, c: Cuts)
    requires CutsOf(line, c)
    ensures HasMarkers(line)
  {
    hide MatchAt;
    assert FirstMatch(line, "BBO:", 0, c.symbol) && c.symbol <= c.symbolEnd && MatchAt(line, "]", c.symbolEnd);
    assert HasQuote(line, "Bid:0x");
    assert HasQuote(line, "Ask:0x");
  }

  /** Acceptance, for every line whatsoever: a line is valid if and only if NODATA stands nowhere in it
      and the five markers and their closing delimiters stand where the parser looks for them. */
  lemma ValidIffMarkers(line: string, now: int)
    ensures Parse(line, now).Valid? <==> !HasNoData(line) && HasMarkers(line)
  {
    hide Extract, CutsOf, HasMarkers, HasNoData;
    if Parse(line, now).Valid? {
      var c := TextsGiveCuts(line);
      CutsGiveMarkers(line, c);
    }
    if !HasNoData(line) && HasMarkers(line) {
      var c := MarkersGiveCuts(line);
      CutsGiveTexts(line, c);
    }
  }

  /** Meaning: a valid line has its cuts, and its record is read from the six texts between them. */
  lemma ParseMeaning(line: string, now: int, c: Cuts)
    requires !HasNoData(line) && CutsOf(line, c)
    ensures InOrder(line, c)
    ensures Parse(line, now)
         == Valid(Bbo(Trim(line[c.symbol + 4..c.symbolEnd]),
                      HexToPrice(line[c.bid + 6..c.bidEnd]), HexToUint(line[c.bidShares + 3..c.bidSharesEnd]),
                      HexToPrice(line[c.ask + 6..c.askEnd]), HexToUint(line[c.askShares + 3..c.askSharesEnd]),
                      HexToPrice(line[c.spread + 6..c.spreadEnd]), now))
  {
    hide Extract, CutsOf, HexToPrice, HexToUint, Trim;
    CutsGiveTexts(line, c);
  }

  // ----- what trimming means -----

  /** Blank, tab, line feed, vertical tab, form feed and carriage return. */
  predicate IsBlankChar(c: char) {
    c as int in {32, 9, 10, 11, 12, 13}
  }

  ghost predicate AllBlank(s: string) {
    forall c :: c in s ==> IsBlankChar(c)
  }

  lemma BlankAround(c: char, s: string)
    requires IsSpace(c) && AllBlank(s)
    ensures AllBlank([c] + s) && AllBlank(s + [c])
  {
  }

  lemma SpaceIsBlank(c: char)
    ensures IsSpace(c) <==> IsBlankChar(c)
  {
  }

  lemma {:induction false} TrimLeftSplits(s: string) returns (a: string)
    ensures s == a + TrimLeft(s) && AllBlank(a)
    ensures TrimLeft(s) != [] ==> !IsBlankChar(TrimLeft(s)[0])
  {
    if s == [] || !IsSpace(s[0]) {
      a := [];
      if s != [] {
        SpaceIsBlank(s[0]);
      }
    } else {
      TrimLeftStep(s);
      hide AllBlank, IsSpace, IsBlankChar, TrimLeft;
      var rest := TrimLeftSplits(s[1..]);
      a := [s[0]] + rest;
      BlankAround(s[0], rest);
      Regroup(s, rest, TrimLeft(s[1..]));
    }
  }

  lemma TrimLeftStep(s: string)
    requires s != [] && IsSpace(s[0])
    ensures TrimLeft(s) == TrimLeft(s[1..])
  {
  }

  lemma Regroup(s: string, a: string, b: string)
    requires s != [] && s[1..] == a + b
    ensures s == ([s[0]] + a) + b
  {
    assert s == [s[0]] + s[1..];
  }

  lemma {:induction false} TrimRightSplits(s: string) returns (b: string)
    ensures s == TrimRight(s) + b && AllBlank(b)
    ensures TrimRight(s) != [] ==> !IsBlankChar(TrimRight(s)[|TrimRight(s)| - 1])
  {
    if s == [] || !IsSpace(s[|s| - 1]) {
      b := [];
      if s != [] {
        SpaceIsBlank(s[|s| - 1]);
      }
    } else {
      hide AllBlank, IsSpace, IsBlankChar;
      var rest := TrimRightSplits(s[..|s| - 1]);
      b := rest + [s[|s| - 1]];
      BlankAround(s[|s| - 1], rest);
      assert s == s[..|s| - 1] + [s[|s| - 1]];
    }
  }

  /** Trimming takes off blanks on both sides, and all of them. */
  lemma TrimMeaning(s: string) returns (a: string, b: string)
    ensures s == a + Trim(s) + b && AllBlank(a) && AllBlank(b)
    ensures Trim(s) != [] ==> !IsBlankChar(Trim(s)[0]) && !IsBlankChar(Trim(s)[|Trim(s)| - 1])
  {
    a := TrimLeftSplits(s);
    b := TrimRightSplits(TrimLeft(s));
    var t := TrimLeft(s);
    assert Trim(s) != [] ==> Trim(s)[0] == t[0];
  }

  // ----- what the conversions mean -----

  /** Digits of either case, the most significant first. */
  lemma HexDigitsMeaning(v: nat)
    requires v < 16
    ensures IsHexDigit("0123456789ABCDEF"[v]) && HexDigitValue("0123456789ABCDEF"[v]) == v
    ensures IsHexDigit("0123456789abcdef"[v]) && HexDigitValue("0123456789abcdef"[v]) == v
  {
  }

  lemma NoOtherHexDigits(c: char)
    ensures IsHexDigit(c) <==> c in "0123456789ABCDEFabcdef"
  {
  }

  function Power(k: nat): nat {
    if k == 0 then 1 else 16 * Power(k - 1)
  }

  lemma {:induction false} HexValueMeaning(c: char, s: string)
    requires IsHexDigit(c) && IsHex(s)
    ensures HexValue([c] + s) == HexDigitValue(c) * Power(|s|) + HexValue(s)
  {
    var t := [c] + s;
    if s == [] {
      assert t[..0] == [];
      assert HexValue(t[..0]) == 0;
    } else {
      var n := |s| - 1;
      assert t[..|s|] == [c] + s[..n] && t[|s|] == s[n];
      HexValueMeaning(c, s[..n]);
      Distribute(HexDigitValue(c), Power(n), HexValue(s[..n]));
    }
  }

  lemma Distribute(d: nat, p: nat, v: nat)
    ensures (d * p + v) * 16 == d * (16 * p) + v * 16
  {
  }

  datatype Sign = Plus | Minus | Unsigned

  function SignText(sign: Sign): string {
    match sign
    case Plus => "+"
    case Minus => "-"
    case Unsigned => ""
  }

  /** What may follow the digits: not a digit, and after a lone 0 no x that would begin a marker. */
  ghost predicate Stops(digits: string, rest: string) {
    && (rest == [] || !IsHexDigit(rest[0]))
    && !(digits == "0" && |rest| >= 2 && rest[0] in "xX" && IsHexDigit(rest[1]))
  }

  lemma {:induction false} SkipBlanks(blanks: string, text: string)
    requires AllBlank(blanks) && (text == [] || !IsSpace(text[0]))
    ensures TrimLeft(blanks + text) == text
  {
    assert forall i :: 0 <= i < |blanks| ==> blanks[i] in blanks;
    TrimLeftBlanks(blanks, text);
  }

  lemma {:induction false} DigitsBefore(digits: string, rest: string)
    requires IsHex(digits) && (rest == [] || !IsHexDigit(rest[0]))
    ensures HexPrefix(digits + rest) == digits
  {
    if digits == [] {
      assert digits + rest == rest;
    } else {
      assert (digits + rest)[1..] == digits[1..] + rest;
      DigitsBefore(digits[1..], rest);
    }
  }

  lemma SignedDigits(blanks: string, sign: Sign, text: string)
    requires AllBlank(blanks) && (text == [] || (!IsSpace(text[0]) && text[0] !in "+-"))
    ensures var s := blanks + (SignText(sign) + text);
            StoulDigits(s) == HexPrefix(SkipHexMarker(text)) && (StoulNegative(s) <==> sign.Minus?)
  {
    hide TrimLeft, HexPrefix, SkipHexMarker;
    var t := SignText(sign) + text;
    SignSkipped(sign, text);
    SkipBlanks(blanks, t);
  }

  lemma SignSkipped(sign: Sign, text: string)
    requires text == [] || (!IsSpace(text[0]) && text[0] !in "+-")
    ensures var t := SignText(sign) + text;
            && SkipSign(t) == text
            && (t != [] && t[0] == '-' <==> sign.Minus?)
            && (t == [] || !IsSpace(t[0]))
  {
    var t := SignText(sign) + text;
    assert sign.Unsigned? ==> t == text;
    assert !sign.Unsigned? ==> t[1..] == text;
  }

  /** The conversion reads optional blanks, a sign, an optional 0x and the longest run of hex digits,
      and ignores the rest. It wraps a negative value in 64 bits, and fails without a digit or on a
      value of 64 bits or more. */
  lemma StoulMeaning(blanks: string, sign: Sign, marker: string, digits: string, rest: string)
    requires AllBlank(blanks) && marker in {"", "0x", "0X"}
    requires IsHex(digits) && digits != [] && (rest == [] || !IsHexDigit(rest[0]))
    requires marker == "" ==> Stops(digits, rest)
    ensures var n := HexValue(digits);
            Stoul16(blanks + (SignText(sign) + (marker + (digits + rest))))
            == if n >= 0x1_0000_0000_0000_0000 then None
               else if sign.Minus? && n > 0 then Some(0x1_0000_0000_0000_0000 - n)
               else Some(n)
  {
    hide HexValue, HexPrefix, SkipHexMarker, StoulDigits, StoulNegative, Stops;
    var text := marker + (digits + rest);
    StartsPlain(marker, digits, rest);
    SignedDigits(blanks, sign, text);
    MarkerSkipped(marker, digits, rest);
    DigitsBefore(digits, rest);
  }

  lemma StartsPlain(marker: string, digits: string, rest: string)
    requires marker in {"", "0x", "0X"} && IsHex(digits) && digits != []
    ensures var text := marker + (digits + rest); text != [] && !IsSpace(text[0]) && text[0] !in "+-"
  {
    assert IsHexDigit(digits[0]);
    var text := marker + (digits + rest);
    assert text[0] == if marker == "" then digits[0] else '0';
  }

  lemma MarkerSkipped(marker: string, digits: string, rest: string)
    requires marker in {"", "0x", "0X"}
    requires IsHex(digits) && digits != []
    requires marker == "" ==> Stops(digits, rest)
    ensures SkipHexMarker(marker + (digits + rest)) == digits + rest
  {
    var text := marker + (digits + rest);
    if marker == "" {
      assert text == digits + rest;
      NotAMarker(digits, rest);
    } else {
      assert text[2] == digits[0] && IsHexDigit(digits[0]);
      assert text[2..] == digits + rest;
    }
  }

  lemma NotAMarker(digits: string, rest: string)
    requires IsHex(digits) && digits != [] && Stops(digits, rest)
    ensures var text := digits + rest;
            !(|text| >= 3 && text[0] == '0' && (text[1] == 'x' || text[1] == 'X') && IsHexDigit(text[2]))
  {
    var text := digits + rest;
    if |digits| >= 2 {
      assert text[1] == digits[1] && IsHexDigit(digits[1]);
    } else if |text| >= 3 && text[0] == '0' {
      assert digits == "0" && text[1] == rest[0] && text[2] == rest[1];
    }
  }

  /** Without a digit the price and the share count are 0. */
  lemma NoDigitsIsZero(blanks: string, sign: Sign, rest: string)
    requires AllBlank(blanks) && (rest == [] || (!IsHexDigit(rest[0]) && rest[0] !in "+-" && !IsSpace(rest[0])))
    ensures var s := blanks + (SignText(sign) + rest);
            Stoul16(s) == None && HexToPrice(s) == 0 && HexToUint(s) == 0
  {
    SignedDigits(blanks, sign, rest);
  }

  /** Hex digits in any number: a price of more than 64 bits reads as 0, and a share count keeps the
      low 32 of up to 64 bits. */
  lemma LongHex(hex: string)
    requires IsHex(hex) && hex != []
    ensures var n := HexValue(hex);
            && HexToPrice(hex) == (if n < 0x1_0000_0000_0000_0000 then n else 0)
            && HexToUint(hex) == (if n < 0x1_0000_0000_0000_0000 then n % 0x1_0000_0000 else 0)
  {
    hide HexValue;
    var s := "" + (SignText(Unsigned) + ("" + (hex + "")));
    assert s == hex;
    StoulMeaning("", Unsigned, "", hex, "");
  }
}
