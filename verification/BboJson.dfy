/** The JSON text of a BBO, and an independent reader of that text. */
module BboJson {
  import opened BboTypes
  import opened BboParser
  import opened CppText
  import opened Sequences

  // ----- decimal text -----

  predicate IsDigit(c: char) {
    '0' <= c <= '9'
  }

  function Digit(v: nat): (c: char)
    requires v < 10
    ensures IsDigit(c) && c as int - '0' as int == v
  {
    "0123456789"[v]
  }

  function Pow10(k: nat): (p: nat)
    ensures p >= 1
  {
    if k == 0 then 1 else 10 * Pow10(k - 1)
  }

  /** An unsigned integer as the stream prints it: no leading zeros. */
  function Decimal(n: nat): (s: string)
    ensures s != [] && IsDigits(s)
  {
    if n < 10 then [Digit(n)] else Decimal(n / 10) + [Digit(n % 10)]
  }

  function SignedDecimal(n: int): string {
    if n < 0 then "-" + Decimal(-n) else Decimal(n)
  }

  /** Exactly `width` digits. */
  function Padded(n: nat, width: nat): (s: string)
    ensures |s| == width && IsDigits(s)
  {
    if width == 0 then "" else Padded(n / 10, width - 1) + [Digit(n % 10)]
  }

  /** std::fixed with setprecision(places), of n / 10^places. */
  function Fixed(n: nat, places: nat): string {
    var parts := Split(n, Pow10(places));
    Decimal(parts.0) + ("." + Padded(parts.1, places))
  }

  /** Whole part and remainder. */
  function Split(n: nat, unit: nat): (parts: (nat, nat))
    requires unit >= 1
    ensures parts.0 * unit + parts.1 == n && parts.1 < unit
  {
    (n / unit, n % unit)
  }

  // ----- writing -----

  /** Spread over mid price in thousandths of a percent, rounded half up; 0 for a zero mid price. */
  function SpreadPercent(b: Bbo): nat {
    var twiceMid := b.bidPrice + b.askPrice;
    if twiceMid == 0 then 0 else (400000 * b.spread + twiceMid) / (2 * twiceMid)
  }

  /** Among the thousandths of a percent none is nearer to 200000 * spread / (bid + ask). */
  lemma PercentIsNearest(b: Bbo, other: int)
    requires b.bidPrice + b.askPrice > 0
    ensures var twiceMid, exact := b.bidPrice + b.askPrice, 200000 * b.spread;
            Distance(SpreadPercent(b) * twiceMid, exact) <= Distance(other * twiceMid, exact)
  {
    var twiceMid, percent := b.bidPrice + b.askPrice, SpreadPercent(b);
    var parts := Split(400000 * b.spread + twiceMid, 2 * twiceMid);
    assert parts.0 == percent;
    var x := percent * twiceMid;
    assert parts.0 * (2 * twiceMid) == 2 * x;
    if other < percent {
      OneApart(other, percent, twiceMid);
    } else if percent < other {
      OneApart(percent, other, twiceMid);
    }
  }

  function Distance(a: int, b: int): nat {
    if a < b then b - a else a - b
  }

  lemma OneApart(a: int, b: int, unit: nat)
    requires a < b
    ensures a * unit + unit <= b * unit
  {
    assert b * unit == a * unit + unit + (b - a - 1) * unit;
  }

  function LevelJson(price: nat, shares: nat, rest: string): string {
    "{\"price\":" + (Fixed(price, 4) + (",\"shares\":" + (Decimal(shares) + ("}" + rest))))
  }

  function SpreadJson(spread: nat, percent: nat): string {
    "{\"price\":" + (Fixed(spread, 4) + (",\"percent\":" + (Fixed(percent, 3) + "}}")))
  }

  const HEAD := "{\"type\":\"bbo\",\"symbol\":\""
  const TIMESTAMP := ",\"timestamp\":"
  const BID := ",\"bid\":"
  const ASK := ",\"ask\":"
  const SPREAD := ",\"spread\":"

  /** The symbol is written as it is, without escaping. */
  function ToJson(b: Bbo): string {
    HEAD + (b.symbol + ("\"" + AfterSymbol(b)))
  }

  function AfterSymbol(b: Bbo): string {
    TIMESTAMP + (SignedDecimal(b.timestampNs) + AfterTimestamp(b))
  }

  function AfterTimestamp(b: Bbo): string {
    BID + LevelJson(b.bidPrice, b.bidShares,
    ASK + LevelJson(b.askPrice, b.askShares,
    SPREAD + SpreadJson(b.spread, SpreadPercent(b))))
  }

  // ----- reading -----

  predicate IsDigits(s: string) {
    forall i :: 0 <= i < |s| ==> IsDigit(s[i])
  }

  function DigitsPrefix(s: string): (r: string)
    ensures r <= s && IsDigits(r)
  {
    if s == [] || !IsDigit(s[0]) then [] else [s[0]] + DigitsPrefix(s[1..])
  }

  function DigitsValue(s: string): nat
    requires IsDigits(s)
  {
    if s == [] then 0 else DigitsValue(s[..|s| - 1]) * 10 + (s[|s| - 1] as int - '0' as int)
  }

  function ReadNat(s: string): Option<(nat, string)> {
    var d := DigitsPrefix(s);
    if d == [] then None else Some((DigitsValue(d), s[|d|..]))
  }

  function ReadInt(s: string): Option<(int, string)> {
    if s != [] && s[0] == '-' then
      var r :- ReadNat(s[1..]);
      Some((-(r.0 as int), r.1))
    else
      var r :- ReadNat(s);
      Some((r.0, r.1))
  }

  /** A decimal with exactly `places` fraction digits, as an integer multiple of 10^-places. */
  function ReadFixed(s: string, places: nat): Option<(nat, string)> {
    var whole :- ReadNat(s);
    if whole.1 == [] || whole.1[0] != '.' then None
    else
      var t := whole.1[1..];
      var frac := DigitsPrefix(t);
      if |frac| != places then None
      else Some((whole.0 * Pow10(places) + DigitsValue(frac), t[places..]))
  }

  /** A JSON string may not hold a control character, and a backslash starts an escape, which this
      format never uses. */
  predicate Plain(c: char) {
    c >= ' ' && c != '"' && c != '\\'
  }

  predicate SafeString(s: string) {
    forall i :: 0 <= i < |s| ==> Plain(s[i])
  }

  /** The part of JSON this format needs. A number is kept as its text. */
  datatype Json = Text(text: string) | Number(digits: string) | Object(members: seq<Member>)
  datatype Member = Member(key: string, value: Json)

  ghost predicate SafeValue(v: Json) {
    match v
    case Text(text) => SafeString(text)
    case Number(_) => true
    case Object(members) => forall i :: 0 <= i < |members| ==> SafeValue(members[i].value)
  }

  /** The text up to the closing quote, and what follows the quote. */
  function ReadString(s: string): (r: Option<(string, string)>)
    ensures r.Some? ==> |r.value.1| < |s| && SafeString(r.value.0)
  {
    if s == [] then None
    else if s[0] == '"' then Some(("", s[1..]))
    else if !Plain(s[0]) then None
    else
      var r :- ReadString(s[1..]);
      Some(([s[0]] + r.0, r.1))
  }

  predicate NumberChar(c: char) {
    IsDigit(c) || c == '-' || c == '.'
  }

  function NumberPrefix(s: string): (r: string)
    ensures r <= s
  {
    if s == [] || !NumberChar(s[0]) then [] else [s[0]] + NumberPrefix(s[1..])
  }

  /** One value at the front of `s`, and what follows it. */
  function ReadValue(s: string): (r: Option<(Json, string)>)
    ensures r.Some? ==> |r.value.1| < |s| && SafeValue(r.value.0)
    decreases |s|
  {
    if s == [] then None
    else if s[0] == '"' then
      var t :- ReadString(s[1..]);
      Some((Text(t.0), t.1))
    else if s[0] == '{' then
      var m :- ReadMembers(s[1..]);
      Some((Object(m.0), m.1))
    else
      var n := NumberPrefix(s);
      if n == [] then None else Some((Number(n), s[|n|..]))
  }

  /** The members up to the closing brace, and what follows the brace. */
  function ReadMembers(s: string): (r: Option<(seq<Member>, string)>)
    ensures r.Some? ==> |r.value.1| < |s| && forall i :: 0 <= i < |r.value.0| ==> SafeValue(r.value.0[i].value)
    decreases |s|
  {
    if s == [] || s[0] != '"' then None
    else
      var key :- ReadString(s[1..]);
      if key.1 == [] || key.1[0] != ':' then None
      else
        var value :- ReadValue(key.1[1..]);
        var first := Member(key.0, value.0);
        if value.1 == [] then None
        else if value.1[0] == '}' then Some(([first], value.1[1..]))
        else if value.1[0] != ',' then None
        else
          var more :- ReadMembers(value.1[1..]);
          Some(([first] + more.0, more.1))
  }

  function ParseJson(s: string): (r: Option<Json>)
    ensures r.Some? ==> SafeValue(r.value)
  {
    var v :- ReadValue(s);
    if v.1 == [] then Some(v.0) else None
  }

  // ----- what a client looks up -----

  function MemberOf(members: seq<Member>, key: string): Option<Json> {
    if members == [] then None
    else if members[0].key == key then Some(members[0].value)
    else MemberOf(members[1..], key)
  }

  function Lookup(v: Json, key: string): Option<Json> {
    match v
    case Object(members) => MemberOf(members, key)
    case _ => None
  }

  function TextAt(v: Json, key: string): Option<string> {
    var t :- Lookup(v, key);
    if t.Text? then Some(t.text) else None
  }

  function IntAt(v: Json, key: string): Option<int> {
    var n :- Lookup(v, key);
    if !n.Number? then None
    else
      var r :- ReadInt(n.digits);
      if r.1 == [] then Some(r.0) else None
  }

  function NatAt(v: Json, key: string): Option<nat> {
    var n :- Lookup(v, key);
    if !n.Number? then None
    else
      var r :- ReadNat(n.digits);
      if r.1 == [] then Some(r.0) else None
  }

  /** A number with exactly `places` fraction digits, as an integer multiple of 10^-places. */
  function FixedAt(v: Json, key: string, places: nat): Option<nat> {
    var n :- Lookup(v, key);
    if !n.Number? then None
    else
      var r :- ReadFixed(n.digits, places);
      if r.1 == [] then Some(r.0) else None
  }

  /** All that the text says: the record, and the percentage computed from it. */
  datatype Document = Document(bbo: Bbo, spreadPercent: nat)

  function ReadDocument(s: string): Option<Document> {
    var v :- ParseJson(s);
    DocumentOf(v)
  }

  function DocumentOf(v: Json): Option<Document> {
    var kind :- TextAt(v, "type");
    var symbol :- TextAt(v, "symbol");
    var time :- IntAt(v, "timestamp");
    var bid :- Lookup(v, "bid");
    var bidPrice :- FixedAt(bid, "price", 4);
    var bidShares :- NatAt(bid, "shares");
    var ask :- Lookup(v, "ask");
    var askPrice :- FixedAt(ask, "price", 4);
    var askShares :- NatAt(ask, "shares");
    var spread :- Lookup(v, "spread");
    var spreadPrice :- FixedAt(spread, "price", 4);
    var percent :- FixedAt(spread, "percent", 3);
    if kind != "bbo" then None
    else Some(Document(Bbo(symbol, bidPrice, bidShares, askPrice, askShares, spreadPrice, time), percent))
  }

  function ReadJson(s: string): Option<Bbo> {
    var d :- ReadDocument(s);
    Some(d.bbo)
  }

  // ----- reading inverts writing, piece by piece -----

  lemma {:induction false} DigitsPrefixOf(d: string, rest: string)
    requires IsDigits(d)
    requires rest == [] || !IsDigit(rest[0])
    ensures DigitsPrefix(d + rest) == d
  {
    if d == [] {
      assert d + rest == rest;
    } else {
      assert (d + rest)[1..] == d[1..] + rest;
      DigitsPrefixOf(d[1..], rest);
    }
  }

  lemma {:induction false} DecimalValue(n: nat)
    ensures DigitsValue(Decimal(n)) == n
  {
    if n < 10 {
      assert DigitsValue([Digit(n)][..0]) == 0;
    } else {
      DecimalValue(n / 10);
      assert Decimal(n)[..|Decimal(n)| - 1] == Decimal(n / 10);
    }
  }

  lemma {:induction false} PaddedValue(n: nat, width: nat)
    requires n < Pow10(width)
    ensures DigitsValue(Padded(n, width)) == n
  {
    if width > 0 {
      PaddedValue(n / 10, width - 1);
      assert Padded(n, width)[..width - 1] == Padded(n / 10, width - 1);
    }
  }

  lemma NatReadsBack(n: nat, rest: string)
    requires rest == [] || !IsDigit(rest[0])
    ensures ReadNat(Decimal(n) + rest) == Some((n, rest))
  {
    DigitsPrefixOf(Decimal(n), rest);
    DecimalValue(n);
  }

  lemma IntReadsBack(n: int, rest: string)
    requires rest == [] || !IsDigit(rest[0])
    ensures ReadInt(SignedDecimal(n) + rest) == Some((n, rest))
  {
    hide Decimal, ReadNat;
    if n < 0 {
      assert (SignedDecimal(n) + rest)[1..] == Decimal(-n) + rest;
      NatReadsBack(-n, rest);
    } else {
      assert IsDigit(Decimal(n)[0]) && (Decimal(n) + rest)[0] == Decimal(n)[0];
      NatReadsBack(n, rest);
    }
  }

  lemma FixedReadsBack(n: nat, places: nat, rest: string)
    requires rest == [] || !IsDigit(rest[0])
    ensures ReadFixed(Fixed(n, places) + rest, places) == Some((n, rest))
  {
    hide Decimal, ReadNat, DigitsPrefix, DigitsValue, Padded, Pow10, Split;
    var parts := Split(n, Pow10(places));
    var frac := Padded(parts.1, places);
    assert Fixed(n, places) + rest == Decimal(parts.0) + ("." + (frac + rest));
    NatReadsBack(parts.0, "." + (frac + rest));
    assert ("." + (frac + rest))[1..] == frac + rest;
    DigitsPrefixOf(frac, rest);
    PaddedValue(parts.1, places);
    assert (frac + rest)[places..] == rest;
  }

  lemma {:induction false} SafeStringReadsBack(text: string, rest: string)
    requires SafeString(text)
    ensures ReadString(text + ("\"" + rest)) == Some((text, rest))
  {
    var s := text + ("\"" + rest);
    if text == [] {
      assert s == "\"" + rest;
    } else {
      assert Plain(text[0]);
      assert s[1..] == text[1..] + ("\"" + rest);
      SafeStringReadsBack(text[1..], rest);
      assert [text[0]] + text[1..] == text;
    }
  }

  // ----- values and members -----

  predicate IsNumberText(s: string) {
    s != [] && forall i :: 0 <= i < |s| ==> NumberChar(s[i])
  }

  lemma {:induction false} NumberPrefixOf(text: string, rest: string)
    requires forall i :: 0 <= i < |text| ==> NumberChar(text[i])
    requires rest == [] || !NumberChar(rest[0])
    ensures NumberPrefix(text + rest) == text
  {
    if text == [] {
      assert text + rest == rest;
    } else {
      assert (text + rest)[1..] == text[1..] + rest;
      NumberPrefixOf(text[1..], rest);
    }
  }

  lemma NumberReads(text: string, rest: string)
    requires IsNumberText(text) && (rest == [] || !NumberChar(rest[0]))
    ensures ReadValue(text + rest) == Some((Number(text), rest))
  {
    assert NumberChar(text[0]);
    NumberPrefixOf(text, rest);
  }

  lemma TextReads(text: string, rest: string)
    requires SafeString(text)
    ensures ReadValue("\"" + (text + ("\"" + rest))) == Some((Text(text), rest))
  {
    var s := "\"" + (text + ("\"" + rest));
    assert s[1..] == text + ("\"" + rest);
    SafeStringReadsBack(text, rest);
  }

  lemma ObjectReads(body: string, members: seq<Member>, rest: string)
    requires ReadMembers(body) == Some((members, rest))
    ensures ReadValue("{" + body) == Some((Object(members), rest))
  {
    assert ("{" + body)[1..] == body;
  }

  /** A member up to its value. */
  function MemberText(key: string, text: string): string {
    "\"" + (key + ("\":" + text))
  }

  lemma KeyReads(key: string, text: string)
    requires SafeString(key)
    ensures var s := MemberText(key, text);
            && s != [] && s[0] == '"'
            && ReadString(s[1..]) == Some((key, ":" + text))
            && (":" + text)[1..] == text
  {
    var s := MemberText(key, text);
    assert "\":" == "\"" + ":";
    assert s[1..] == key + ("\"" + (":" + text));
    SafeStringReadsBack(key, ":" + text);
  }

  lemma LastMember(key: string, text: string, value: Json, rest: string)
    requires SafeString(key) && ReadValue(text) == Some((value, "}" + rest))
    ensures ReadMembers(MemberText(key, text)) == Some(([Member(key, value)], rest))
  {
    hide MemberText, ReadString, ReadValue;
    KeyReads(key, text);
    assert ("}" + rest)[1..] == rest;
  }

  /** `all` are the members from `key` on. */
  lemma MoreMembers(key: string, text: string, tail: string, all: seq<Member>, rest: string)
    requires all != [] && all[0].key == key && SafeString(key)
    requires ReadValue(text) == Some((all[0].value, "," + tail)) && ReadMembers(tail) == Some((all[1..], rest))
    ensures ReadMembers(MemberText(key, text)) == Some((all, rest))
  {
    hide MemberText, ReadString, ReadValue;
    KeyReads(key, text);
    assert ("," + tail)[1..] == tail;
    assert [Member(key, all[0].value)] + all[1..] == all;
  }

  lemma DecimalIsNumber(n: nat)
    ensures IsNumberText(Decimal(n))
  {
    hide Decimal;
  }

  lemma SignedIsNumber(n: int)
    ensures IsNumberText(SignedDecimal(n))
  {
    hide Decimal;
  }

  lemma FixedIsNumber(n: nat, places: nat)
    ensures IsNumberText(Fixed(n, places))
  {
    hide Decimal, Padded, Split, Pow10;
  }

  // ----- the text as a tree -----

  function LevelTree(price: nat, shares: nat): Json {
    Object([Member("price", Number(Fixed(price, 4))), Member("shares", Number(Decimal(shares)))])
  }

  function SpreadTree(spread: nat, percent: nat): Json {
    Object([Member("price", Number(Fixed(spread, 4))), Member("percent", Number(Fixed(percent, 3)))])
  }

  lemma LevelReads(price: nat, shares: nat, rest: string)
    ensures ReadValue(LevelJson(price, shares, rest)) == Some((LevelTree(price, shares), rest))
  {
    hide ReadValue, ReadMembers, Fixed, Decimal, NumberPrefix;
    var sharesText := Decimal(shares) + ("}" + rest);
    DecimalIsNumber(shares);
    NumberReads(Decimal(shares), "}" + rest);
    LastMember("shares", sharesText, Number(Decimal(shares)), rest);
    var tail := MemberText("shares", sharesText);
    FixedIsNumber(price, 4);
    NumberReads(Fixed(price, 4), "," + tail);
    var members := LevelTree(price, shares).members;
    assert members[1..] == [Member("shares", Number(Decimal(shares)))];
    MoreMembers("price", Fixed(price, 4) + ("," + tail), tail, members, rest);
    ObjectReads(MemberText("price", Fixed(price, 4) + ("," + tail)), members, rest);
    LevelText(Fixed(price, 4), sharesText);
  }

  lemma LevelText(price: string, shares: string)
    ensures "{\"price\":" + (price + (",\"shares\":" + shares))
         == "{" + MemberText("price", price + ("," + MemberText("shares", shares)))
  {
    assert "{\"price\":" == "{" + ("\"" + ("price" + "\":"));
    assert ",\"shares\":" == "," + ("\"" + ("shares" + "\":"));
  }

  lemma SpreadReads(spread: nat, percent: nat)
    ensures ReadValue(SpreadJson(spread, percent)) == Some((SpreadTree(spread, percent), "}"))
  {
    hide ReadValue, ReadMembers, Fixed, NumberPrefix;
    assert "}}" == "}" + "}";
    var percentText := Fixed(percent, 3) + "}}";
    FixedIsNumber(percent, 3);
    NumberReads(Fixed(percent, 3), "}}");
    LastMember("percent", percentText, Number(Fixed(percent, 3)), "}");
    var tail := MemberText("percent", percentText);
    FixedIsNumber(spread, 4);
    NumberReads(Fixed(spread, 4), "," + tail);
    var members := SpreadTree(spread, percent).members;
    assert members[1..] == [Member("percent", Number(Fixed(percent, 3)))];
    MoreMembers("price", Fixed(spread, 4) + ("," + tail), tail, members, "}");
    ObjectReads(MemberText("price", Fixed(spread, 4) + ("," + tail)), members, "}");
    SpreadText(Fixed(spread, 4), percentText);
  }

  lemma SpreadText(price: string, percent: string)
    ensures "{\"price\":" + (price + (",\"percent\":" + percent))
         == "{" + MemberText("price", price + ("," + MemberText("percent", percent)))
  {
    assert "{\"price\":" == "{" + ("\"" + ("price" + "\":"));
    assert ",\"percent\":" == "," + ("\"" + ("percent" + "\":"));
  }

  /** The members from the bid on. */
  function QuoteMembers(b: Bbo): seq<Member> {
    [Member("bid", LevelTree(b.bidPrice, b.bidShares)),
     Member("ask", LevelTree(b.askPrice, b.askShares)),
     Member("spread", SpreadTree(b.spread, SpreadPercent(b)))]
  }

  lemma QuotesRead(b: Bbo) returns (members: string)
    ensures AfterTimestamp(b) == "," + members
    ensures ReadMembers(members) == Some((QuoteMembers(b), ""))
  {
    hide ReadValue, ReadMembers, LevelJson, SpreadJson, SpreadPercent, LevelTree, SpreadTree, MemberText;
    var percent := SpreadPercent(b);
    var spreadText := SpreadJson(b.spread, percent);
    SpreadReads(b.spread, percent);
    assert "}" + "" == "}";
    LastMember("spread", spreadText, SpreadTree(b.spread, percent), "");
    var spreadMember := MemberText("spread", spreadText);
    var askText := LevelJson(b.askPrice, b.askShares, "," + spreadMember);
    LevelReads(b.askPrice, b.askShares, "," + spreadMember);
    var all := QuoteMembers(b);
    assert all[1..][1..] == [Member("spread", SpreadTree(b.spread, percent))];
    MoreMembers("ask", askText, spreadMember, all[1..], "");
    var askMember := MemberText("ask", askText);
    var bidText := LevelJson(b.bidPrice, b.bidShares, "," + askMember);
    LevelReads(b.bidPrice, b.bidShares, "," + askMember);
    MoreMembers("bid", bidText, askMember, all, "");
    members := MemberText("bid", bidText);
    QuoteText(bidText, askText, spreadText);
  }

  lemma QuoteText(bid: string, ask: string, spread: string)
    ensures BID + bid == "," + MemberText("bid", bid)
    ensures ASK + ask == "," + MemberText("ask", ask)
    ensures SPREAD + spread == "," + MemberText("spread", spread)
  {
    assert BID == "," + ("\"" + ("bid" + "\":"));
    assert ASK == "," + ("\"" + ("ask" + "\":"));
    assert SPREAD == "," + ("\"" + ("spread" + "\":"));
  }

  function Tree(b: Bbo): Json {
    Object([Member("type", Text("bbo")), Member("symbol", Text(b.symbol)),
            Member("timestamp", Number(SignedDecimal(b.timestampNs))),
            Member("bid", LevelTree(b.bidPrice, b.bidShares)),
            Member("ask", LevelTree(b.askPrice, b.askShares)),
            Member("spread", SpreadTree(b.spread, SpreadPercent(b)))])
  }

  lemma TreeReads(b: Bbo)
    requires SafeString(b.symbol)
    ensures ParseJson(ToJson(b)) == Some(Tree(b))
  {
    hide ReadValue, ReadMembers, Fixed, Decimal, SignedDecimal, MemberText, AfterTimestamp, LevelTree, SpreadTree, SpreadPercent;
    var all := Tree(b).members;
    var quotes := QuotesRead(b);
    var timeText := SignedDecimal(b.timestampNs) + ("," + quotes);
    SignedIsNumber(b.timestampNs);
    NumberReads(SignedDecimal(b.timestampNs), "," + quotes);
    assert all[2..][1..] == QuoteMembers(b);
    MoreMembers("timestamp", timeText, quotes, all[2..], "");
    var timeMember := MemberText("timestamp", timeText);
    var symbolText := "\"" + (b.symbol + ("\"" + ("," + timeMember)));
    TextReads(b.symbol, "," + timeMember);
    assert all[1..][1..] == all[2..];
    MoreMembers("symbol", symbolText, timeMember, all[1..], "");
    var symbolMember := MemberText("symbol", symbolText);
    var typeText := "\"" + ("bbo" + ("\"" + ("," + symbolMember)));
    TextReads("bbo", "," + symbolMember);
    MoreMembers("type", typeText, symbolMember, all, "");
    ObjectReads(MemberText("type", typeText), all, "");
    HeadText(b.symbol, timeText);
  }

  /** The JSON text, member by member, for every symbol that needs no escaping. */
  lemma JsonTree(b: Bbo)
    requires SafeString(b.symbol)
    ensures ParseJson(ToJson(b))
         == Some(Object([
              Member("type", Text("bbo")),
              Member("symbol", Text(b.symbol)),
              Member("timestamp", Number(SignedDecimal(b.timestampNs))),
              Member("bid", Object([Member("price", Number(Fixed(b.bidPrice, 4))),
                                    Member("shares", Number(Decimal(b.bidShares)))])),
              Member("ask", Object([Member("price", Number(Fixed(b.askPrice, 4))),
                                    Member("shares", Number(Decimal(b.askShares)))])),
              Member("spread", Object([Member("price", Number(Fixed(b.spread, 4))),
                                       Member("percent", Number(Fixed(SpreadPercent(b), 3)))]))]))
  {
    hide ParseJson, ToJson, Fixed, Decimal, SignedDecimal, SpreadPercent;
    TreeReads(b);
  }

  lemma HeadText(symbol: string, time: string)
    ensures var symbolText := "\"" + (symbol + ("\"" + ("," + MemberText("timestamp", time))));
            var typeText := "\"" + ("bbo" + ("\"" + ("," + MemberText("symbol", symbolText))));
            HEAD + (symbol + ("\"" + (TIMESTAMP + time))) == "{" + MemberText("type", typeText)
  {
    assert TIMESTAMP + time == "," + MemberText("timestamp", time) by {
      assert TIMESTAMP == "," + ("\"" + ("timestamp" + "\":"));
    }
    assert HEAD == "{" + ("\"" + ("type" + ("\":" + ("\"" + ("bbo" + ("\"" + ("," + ("\"" + ("symbol" + ("\":" + "\""))))))))));
  }

  // ----- round trip -----

  lemma DecimalReadsBack(n: nat)
    ensures ReadNat(Decimal(n)) == Some((n, ""))
  {
    NatReadsBack(n, "");
    assert Decimal(n) + "" == Decimal(n);
  }

  lemma SignedReadsBack(n: int)
    ensures ReadInt(SignedDecimal(n)) == Some((n, ""))
  {
    IntReadsBack(n, "");
    assert SignedDecimal(n) + "" == SignedDecimal(n);
  }

  lemma FixedTextReadsBack(n: nat, places: nat)
    ensures ReadFixed(Fixed(n, places), places) == Some((n, ""))
  {
    FixedReadsBack(n, places, "");
    assert Fixed(n, places) + "" == Fixed(n, places);
  }

  lemma {:induction false} MemberAt(members: seq<Member>, i: nat, key: string)
    requires i < |members| && members[i].key == key && forall j :: 0 <= j < i ==> members[j].key != key
    ensures MemberOf(members, key) == Some(members[i].value)
  {
    if i > 0 {
      MemberAt(members[1..], i - 1, key);
    }
  }

  lemma LevelLooksUp(price: nat, shares: nat)
    ensures FixedAt(LevelTree(price, shares), "price", 4) == Some(price)
    ensures NatAt(LevelTree(price, shares), "shares") == Some(shares)
  {
    hide ReadFixed, ReadNat, Fixed, Decimal, MemberOf;
    var members := LevelTree(price, shares).members;
    MemberAt(members, 0, "price");
    MemberAt(members, 1, "shares");
    FixedTextReadsBack(price, 4);
    DecimalReadsBack(shares);
  }

  lemma SpreadLooksUp(spread: nat, percent: nat)
    ensures FixedAt(SpreadTree(spread, percent), "price", 4) == Some(spread)
    ensures FixedAt(SpreadTree(spread, percent), "percent", 3) == Some(percent)
  {
    hide ReadFixed, Fixed, MemberOf;
    var members := SpreadTree(spread, percent).members;
    MemberAt(members, 0, "price");
    MemberAt(members, 1, "percent");
    FixedTextReadsBack(spread, 4);
    FixedTextReadsBack(percent, 3);
  }

  lemma TopLooksUp(b: Bbo)
    ensures var v := Tree(b);
            && Lookup(v, "type") == Some(Text("bbo")) && Lookup(v, "symbol") == Some(Text(b.symbol))
            && Lookup(v, "timestamp") == Some(Number(SignedDecimal(b.timestampNs)))
            && Lookup(v, "bid") == Some(LevelTree(b.bidPrice, b.bidShares))
            && Lookup(v, "ask") == Some(LevelTree(b.askPrice, b.askShares))
            && Lookup(v, "spread") == Some(SpreadTree(b.spread, SpreadPercent(b)))
  {
    hide SignedDecimal, LevelTree, SpreadTree, SpreadPercent, MemberOf;
    var members := Tree(b).members;
    MemberAt(members, 0, "type");
    MemberAt(members, 1, "symbol");
    MemberAt(members, 2, "timestamp");
    MemberAt(members, 3, "bid");
    MemberAt(members, 4, "ask");
    MemberAt(members, 5, "spread");
  }

  /** A client that looks the members up by name finds the record: the values under these names are
      the kind, the symbol, the time and the numbers. */
  lemma MembersAreTheRecord(b: Bbo)
    requires SafeString(b.symbol)
    ensures ParseJson(ToJson(b)).Some?
    ensures var v := ParseJson(ToJson(b)).value;
            && TextAt(v, "type") == Some("bbo") && TextAt(v, "symbol") == Some(b.symbol)
            && IntAt(v, "timestamp") == Some(b.timestampNs)
            && Lookup(v, "bid").Some? && Lookup(v, "ask").Some? && Lookup(v, "spread").Some?
            && FixedAt(Lookup(v, "bid").value, "price", 4) == Some(b.bidPrice)
            && NatAt(Lookup(v, "bid").value, "shares") == Some(b.bidShares)
            && FixedAt(Lookup(v, "ask").value, "price", 4) == Some(b.askPrice)
            && NatAt(Lookup(v, "ask").value, "shares") == Some(b.askShares)
            && FixedAt(Lookup(v, "spread").value, "price", 4) == Some(b.spread)
            && FixedAt(Lookup(v, "spread").value, "percent", 3) == Some(SpreadPercent(b))
  {
    hide ParseJson, ToJson, ReadInt, SignedDecimal, SpreadPercent, FixedAt, NatAt, Lookup, Tree;
    hide LevelTree, SpreadTree;
    TreeReads(b);
    TopLooksUp(b);
    LevelLooksUp(b.bidPrice, b.bidShares);
    LevelLooksUp(b.askPrice, b.askShares);
    SpreadLooksUp(b.spread, SpreadPercent(b));
    SignedReadsBack(b.timestampNs);
  }

  lemma {:induction false} MemberIsSafe(members: seq<Member>, key: string)
    requires forall i :: 0 <= i < |members| ==> SafeValue(members[i].value)
    ensures MemberOf(members, key).Some? ==> SafeValue(MemberOf(members, key).value)
  {
    if members != [] {
      MemberIsSafe(members[1..], key);
    }
  }

  lemma SymbolIsSafe(s: string)
    ensures ReadDocument(s).Some? ==> SafeString(ReadDocument(s).value.bbo.symbol)
  {
    hide ReadValue, IntAt, NatAt, FixedAt;
    var v := ParseJson(s);
    if v.Some? && v.value.Object? {
      MemberIsSafe(v.value.members, "symbol");
    }
  }

  /** The JSON text reads back as the very record it was written from, with its percentage, if and
      only if the symbol needs no escaping; otherwise not even the record reads back. */
  lemma JsonRoundTrip(b: Bbo)
    ensures ReadDocument(ToJson(b)) == Some(Document(b, SpreadPercent(b))) <==> SafeString(b.symbol)
    ensures ReadJson(ToJson(b)) == Some(b) <==> SafeString(b.symbol)
  {
    hide ParseJson, ToJson, SpreadPercent, TextAt, IntAt, NatAt, FixedAt, Lookup;
    SymbolIsSafe(ToJson(b));
    if SafeString(b.symbol) {
      MembersAreTheRecord(b);
    }
  }

  /** The five number fields are hex text of at most eight digits, and the symbol is safe. */
  predicate PlainTexts(t: Texts) {
    && SafeString(Trim(t.symbol))
    && IsHex(t.bidPrice) && IsHex(t.bidShares) && IsHex(t.askPrice) && IsHex(t.askShares) && IsHex(t.spread)
    && |t.bidPrice| <= 8 && |t.bidShares| <= 8 && |t.askPrice| <= 8 && |t.askShares| <= 8 && |t.spread| <= 8
  }

  /** Numbers stay exact from the hex fields of any line to the JSON text. */
  lemma JsonKeepsNumbers(line: string, now: int)
    ensures var extract := Extract(line);
            extract.Some? && PlainTexts(extract.value) ==>
              var t, parsed := extract.value, Parse(line, now);
              && parsed.Valid?
              && ReadJson(ToJson(parsed.bbo))
              == Some(Bbo(Trim(t.symbol), HexValue(t.bidPrice), HexValue(t.bidShares),
                          HexValue(t.askPrice), HexValue(t.askShares), HexValue(t.spread), now))
  {
    hide Extract, HexToPrice, HexToUint, HexValue, Trim, ReadJson, ToJson, SafeString;
    var extract := Extract(line);
    if extract.Some? && PlainTexts(extract.value) {
      var t := extract.value;
      HexFieldExact(t.bidPrice);
      HexFieldExact(t.bidShares);
      HexFieldExact(t.askPrice);
      HexFieldExact(t.askShares);
      HexFieldExact(t.spread);
      JsonRoundTrip(Parse(line, now).bbo);
    }
  }
}
