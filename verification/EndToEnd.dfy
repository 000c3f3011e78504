/** The whole path of a record: printed by the FPGA, framed and parsed on the UART thread, queued,
    published as JSON, fanned out over TCP, and read back by a client. */
module EndToEnd {
  import opened BboTypes
  import opened BboLines
  import opened BboParser
  import opened Sequences
  import opened UartFraming
  import Gateway = GatewayProtocol
  import Runs = GatewayRuns
  import Json = BboJson
  import Tcp = TcpFanout
  import Fanout = TcpRuns

  // ----- from the stream into the queue -----

  function LinesRead(es: seq<Gateway.Event>): nat {
    if es == [] then 0
    else LinesRead(es[..|es| - 1]) + (if es[|es| - 1].UartRead? then 1 else 0)
  }

  /** The reads of a run deliver `lines` one after another, each parsed at the time of its clock. */
  ghost predicate Reads(es: seq<Gateway.Event>, lines: seq<string>, clock: seq<int>) {
    && |lines| == |clock|
    && forall j :: 0 <= j < |es| && es[j].UartRead? ==>
         LinesRead(es[..j]) < |lines| && es[j].parsed == Parse(lines[LinesRead(es[..j])], clock[LinesRead(es[..j])])
  }

  /** One more step of a run that reads `lines`. */
  lemma ReadsNext(es: seq<Gateway.Event>, lines: seq<string>, clock: seq<int>, e: Gateway.Event)
    requires Reads(es, lines, clock)
    requires e.UartRead? ==>
               LinesRead(es) < |lines| && e.parsed == Parse(lines[LinesRead(es)], clock[LinesRead(es)])
    ensures Reads(es + [e], lines, clock)
    ensures LinesRead(es + [e]) == LinesRead(es) + (if e.UartRead? then 1 else 0)
  {
    hide Parse;
    var es' := es + [e];
    assert es'[..|es|] == es;
    forall j | 0 <= j < |es'| && es'[j].UartRead?
      ensures LinesRead(es'[..j]) < |lines|
      ensures es'[j].parsed == Parse(lines[LinesRead(es'[..j])], clock[LinesRead(es'[..j])])
    {
      if j < |es| {
        assert es'[..j] == es[..j];
      }
    }
  }

  /** The record the UART thread has parsed and not yet pushed. */
  function Held(s: Gateway.State): seq<Bbo> {
    if s.uart.ReadyToPush? then [s.uart.line] else []
  }

  lemma {:induction false} ValidRecordsSnoc(results: seq<ParseResult>, r: ParseResult)
    ensures ValidRecords(results + [r]) == ValidRecords(results) + Kept(r)
  {
    if results == [] {
      assert results + [r] == [r];
    } else {
      assert (results + [r])[1..] == results[1..] + [r];
      ValidRecordsSnoc(results[1..], r);
    }
  }

  lemma ValidParsesNext(lines: seq<string>, clock: seq<int>, n: nat)
    requires n < |lines| == |clock|
    ensures ValidParses(lines[..n + 1], clock[..n + 1])
         == ValidParses(lines[..n], clock[..n]) + Kept(Parse(lines[n], clock[n]))
  {
    hide Parse, ValidRecords;
    assert Parses(lines[..n + 1], clock[..n + 1]) == Parses(lines[..n], clock[..n]) + [Parse(lines[n], clock[n])];
    ValidRecordsSnoc(Parses(lines[..n], clock[..n]), Parse(lines[n], clock[n]));
  }

  lemma StepAccepts(s: Gateway.State, e: Gateway.Event)
    requires Gateway.Inv(s) && Gateway.Enabled(s, e)
    ensures var s' := Gateway.Apply(s, e);
            s'.accepted + Held(s') == s.accepted + Held(s) + (if e.UartRead? then Kept(e.parsed) else [])
  {
    hide Gateway.QueueInv;
  }

  lemma NothingReadYet(s: Gateway.State, es: seq<Gateway.Event>, lines: seq<string>, clock: seq<int>)
    requires s == Gateway.Initial && |lines| == |clock|
    ensures LinesRead(es[..0]) == 0
    ensures s.accepted + Held(s) == ValidParses(lines[..0], clock[..0])
  {
    hide Parse;
  }

  /** In every reachable state, the accepted messages and the one about to be pushed are exactly the
      valid records of the lines read so far. */
  lemma {:induction false} AcceptedAreTheValidLines(ss: seq<Gateway.State>, es: seq<Gateway.Event>, lines: seq<string>, clock: seq<int>, i: nat)
    requires Runs.IsRun(ss, es) && Reads(es, lines, clock) && i < |ss|
    ensures LinesRead(es[..i]) <= |lines|
    ensures var n := LinesRead(es[..i]);
            ss[i].accepted + Held(ss[i]) == ValidParses(lines[..n], clock[..n])
  {
    hide Parse, ValidParses, Gateway.Apply, Gateway.Enabled, Gateway.Inv;
    if i == 0 {
      NothingReadYet(ss[0], es, lines, clock);
    } else {
      AcceptedAreTheValidLines(ss, es, lines, clock, i - 1);
      Runs.RunInv(ss, es, i - 1);
      StepAccepts(ss[i - 1], es[i - 1]);
      var n := LinesRead(es[..i - 1]);
      assert es[..i][..i - 1] == es[..i - 1];
      if es[i - 1].UartRead? {
        ValidParsesNext(lines, clock, n);
      }
    }
  }

  lemma {:induction false} LinesOfPrefix(items: seq<Item>, n: nat)
    requires WellFormedItems(items) && n <= |items|
    ensures |Lines(Stream(items))| == |items|
    ensures Lines(Stream(items))[..n] == Lines(Stream(items[..n]))
  {
    hide Lines, ItemBytes;
    StreamIsEmpty();
    if items != [] {
      StreamNext(items);
      if n == 0 {
        LinesOfPrefix(items[1..], 0);
        assert Lines(Stream(items))[..0] == [];
      } else {
        LinesOfPrefix(items[1..], n - 1);
        StreamNext(items[..n]);
        assert items[..n][1..] == items[1..][..n - 1];
      }
    }
  }

  /** Whatever the interleaving, the queue is fed exactly the printed records of the lines read. */
  lemma AcceptedAreTheRecords(ss: seq<Gateway.State>, es: seq<Gateway.Event>, items: seq<Item>, clock: seq<int>, i: nat)
    requires WellFormedItems(items) && i < |ss|
    requires Runs.IsRun(ss, es) && Reads(es, Lines(Stream(items)), clock)
    ensures LinesRead(es[..i]) <= |items|
    ensures Untimed(ss[i].accepted + Held(ss[i])) == Untimed(Records(items[..LinesRead(es[..i])]))
  {
    hide Parse, Lines, Stream, ValidParses, Records, Untimed, LinesRead, Gateway.Apply, Gateway.Enabled;
    LinesOfPrefix(items, 0);
    assert |clock| == |items|;
    hide Reads;
    var n := LinesRead(es[..i]);
    AcceptedAreTheValidLines(ss, es, Lines(Stream(items)), clock, i);
    LinesOfPrefix(items, n);
    StreamRoundTrip(items[..n], clock[..n]);
  }

  // ----- through the queue -----

  lemma {:induction false} RecordsAppend(a: seq<Item>, b: seq<Item>)
    ensures Records(a + b) == Records(a) + Records(b)
  {
    if a == [] {
      assert a + b == b;
    } else {
      assert (a + b)[1..] == a[1..] + b;
      RecordsAppend(a[1..], b);
    }
  }

  lemma SubsequenceOfMore(xs: seq<Bbo>, ys: seq<Bbo>, zs: seq<Bbo>)
    requires IsSubsequence(xs, ys) && Untimed(ys) <= Untimed(zs)
    ensures IsSubsequence(Untimed(xs), Untimed(zs))
  {
    var idx :| SelectedBy(xs, ys, idx);
    assert forall k :: 0 <= k < |ys| ==> Untimed(zs)[k] == Untimed(ys)[k];
    assert SelectedBy(Untimed(xs), Untimed(zs), idx);
  }

  lemma {:induction false} SelectAll(xs: seq<Bbo>, fates: seq<Gateway.Fate>)
    requires |xs| == |fates| && forall k :: 0 <= k < |fates| ==> fates[k] == Gateway.Taken
    ensures Gateway.Select(xs, fates, Gateway.Taken) == xs && Gateway.Select(xs, fates, Gateway.Dropped) == []
  {
    if xs != [] {
      var n := |xs| - 1;
      SelectAll(xs[..n], fates[..n]);
      assert xs == xs[..n] + [xs[n]];
    }
  }

  lemma AcceptedFitRecords(ss: seq<Gateway.State>, es: seq<Gateway.Event>, items: seq<Item>, clock: seq<int>, i: nat)
    requires WellFormedItems(items) && i < |ss|
    requires Runs.IsRun(ss, es) && Reads(es, Lines(Stream(items)), clock)
    ensures Untimed(ss[i].accepted) <= Untimed(ss[i].accepted + Held(ss[i])) <= Untimed(Records(items))
    ensures |ss[i].accepted| + |Held(ss[i])| <= |Records(items)|
  {
    hide Reads, Records, WellFormedItems, Stream, Lines, LinesRead, Gateway.Apply, Gateway.Enabled;
    var n := LinesRead(es[..i]);
    AcceptedAreTheRecords(ss, es, items, clock, i);
    assert items == items[..n] + items[n..];
    RecordsAppend(items[..n], items[n..]);
    UntimedPrefix(ss[i].accepted, Held(ss[i]), Records(items[..n]), Records(items[n..]));
  }

  lemma UntimedPrefix(a: seq<Bbo>, held: seq<Bbo>, p: seq<Bbo>, q: seq<Bbo>)
    requires Untimed(a + held) == Untimed(p)
    ensures Untimed(a) <= Untimed(a + held) <= Untimed(p + q) && |a| + |held| <= |p + q|
  {
    UntimedAppend(a, held);
    UntimedAppend(p, q);
    assert |Untimed(a + held)| == |a + held|;
    assert |Untimed(p)| == |p|;
  }

  /** Every published sequence is an in-order subsequence of the printed records. */
  lemma PublishedComeFromTheStream(ss: seq<Gateway.State>, es: seq<Gateway.Event>, items: seq<Item>, clock: seq<int>, i: nat)
    requires WellFormedItems(items) && i < |ss|
    requires Runs.IsRun(ss, es) && Reads(es, Lines(Stream(items)), clock)
    ensures IsSubsequence(Untimed(ss[i].published), Untimed(Records(items)))
  {
    hide Runs.IsRun, Reads;
    AcceptedFitRecords(ss, es, items, clock, i);
    Runs.OrderPreserved(ss, es, i);
    SubsequenceOfMore(ss[i].published, ss[i].accepted, Records(items));
  }

  /** A stream of at most 10,000 records can never overrun the queue, so nothing is dropped:
      published, in flight and queued together are the accepted messages, in order. */
  lemma ShortStreamsLoseNothing(ss: seq<Gateway.State>, es: seq<Gateway.Event>, items: seq<Item>, clock: seq<int>, i: nat)
    requires WellFormedItems(items) && i < |ss|
    requires Runs.IsRun(ss, es) && Reads(es, Lines(Stream(items)), clock)
    ensures |Records(items)| <= 10000 ==>
              ss[i].dropped == [] && ss[i].published + Gateway.InFlight(ss[i]) + ss[i].queue == ss[i].accepted
  {
    hide Reads, Records, WellFormedItems, Stream, Lines, Runs.Overrun, Gateway.Apply, Gateway.Enabled;
    var s := ss[i];
    if |Records(items)| <= 10000 {
      forall m | 0 <= m < |s.fates| ensures s.fates[m] == Gateway.Taken {
        forall k: nat | k < i ensures !Runs.Overrun(ss, es, k, m) {
          OverrunNeedsLongStream(ss, es, items, clock, k, m);
        }
        Runs.DroppedIffOverrun(ss, es, i, m);
      }
      Runs.RunInv(ss, es, i);
      AllTaken(s);
    }
  }

  lemma AllTaken(s: Gateway.State)
    requires Gateway.QueueInv(s) && forall m :: 0 <= m < |s.fates| ==> s.fates[m] == Gateway.Taken
    ensures s.dropped == [] && s.published + Gateway.InFlight(s) + s.queue == s.accepted
  {
    SelectAll(s.accepted[..|s.fates|], s.fates);
  }

  lemma OverrunNeedsLongStream(ss: seq<Gateway.State>, es: seq<Gateway.Event>, items: seq<Item>, clock: seq<int>, k: nat, m: nat)
    requires WellFormedItems(items) && k < |es|
    requires Runs.IsRun(ss, es) && Reads(es, Lines(Stream(items)), clock)
    ensures Runs.Overrun(ss, es, k, m) ==> |Records(items)| > 10000
  {
    hide Reads, Records, WellFormedItems, Stream, Lines, Gateway.Apply, Gateway.Enabled;
    AcceptedFitRecords(ss, es, items, clock, k);
    if es[k].UartPush? {
      PushHolds(ss[k]);
    }
  }

  lemma PushHolds(s: Gateway.State)
    requires Gateway.Enabled(s, Gateway.UartPush)
    ensures |Held(s)| == 1
  {
  }

  /** End of a run: after `stop()` has joined both threads, the records of the lines read were all
      published, in order, but for at most one last one. */
  lemma StoppedGatewayPublishedTheStream(ss: seq<Gateway.State>, es: seq<Gateway.Event>, items: seq<Item>, clock: seq<int>, i: nat)
    requires WellFormedItems(items) && i < |ss|
    requires Runs.IsRun(ss, es) && Reads(es, Lines(Stream(items)), clock)
    ensures LinesRead(es[..i]) <= |items|
    ensures ss[i].main.Stopped? && |Records(items)| <= 10000 ==>
              && |ss[i].queue| <= 1
              && Untimed(ss[i].published) + Untimed(ss[i].queue) == Untimed(Records(items[..LinesRead(es[..i])]))
  {
    hide Reads, Records, WellFormedItems, Stream, Lines, LinesRead, Untimed, Gateway.Apply, Gateway.Enabled;
    ShortStreamsLoseNothing(ss, es, items, clock, i);
    AcceptedAreTheRecords(ss, es, items, clock, i);
    if ss[i].main.Stopped? && |Records(items)| <= 10000 {
      Runs.StopJoinsBoth(ss, es, i);
      assert ss[i].accepted + Held(ss[i]) == ss[i].published + ss[i].queue;
      UntimedAppend(ss[i].published, ss[i].queue);
    }
  }

  // ----- JSON over TCP -----

  predicate Printable(s: string) {
    forall k :: 0 <= k < |s| ==> s[k] >= ' '
  }

  lemma DigitsArePrintable(s: string)
    requires Json.IsDigits(s)
    ensures Printable(s)
  {
  }

  lemma FixedIsPrintable(n: nat, places: nat)
    ensures Printable(Json.Fixed(n, places))
  {
    hide Json.Decimal, Json.Padded, Json.Pow10;
    var parts := Json.Split(n, Json.Pow10(places));
    var whole, frac := Json.Decimal(parts.0), Json.Padded(parts.1, places);
    DigitsArePrintable(whole);
    DigitsArePrintable(frac);
    PrintableAppend(".", frac);
    PrintableAppend(whole, "." + frac);
  }

  lemma PrintableAppend(a: string, b: string)
    requires Printable(a) && Printable(b)
    ensures Printable(a + b)
  {
  }

  lemma LevelIsPrintable(price: nat, shares: nat, rest: string)
    requires Printable(rest)
    ensures Printable(Json.LevelJson(price, shares, rest))
  {
    hide Json.Fixed;
    FixedIsPrintable(price, 4);
    DigitsArePrintable(Json.Decimal(shares));
  }

  lemma SpreadIsPrintable(spread: nat, percent: nat)
    ensures Printable(Json.SpreadJson(spread, percent))
  {
    hide Json.Fixed;
    FixedIsPrintable(spread, 4);
    FixedIsPrintable(percent, 3);
  }

  lemma JsonIsPrintable(b: Bbo)
    requires Json.SafeString(b.symbol)
    ensures Printable(Json.ToJson(b)) && Json.ToJson(b) != []
  {
    hide Json.LevelJson, Json.SpreadJson, Json.SpreadPercent, Json.Decimal, Json.IsDigits;
    var quotes := Json.SpreadJson(b.spread, Json.SpreadPercent(b));
    SpreadIsPrintable(b.spread, Json.SpreadPercent(b));
    LevelIsPrintable(b.askPrice, b.askShares, Json.SPREAD + quotes);
    var asks := Json.LevelJson(b.askPrice, b.askShares, Json.SPREAD + quotes);
    LevelIsPrintable(b.bidPrice, b.bidShares, Json.ASK + asks);
    assert Printable(Json.AfterTimestamp(b));
    DigitsArePrintable(Json.Decimal(if b.timestampNs < 0 then -b.timestampNs else b.timestampNs));
    assert Printable(Json.SignedDecimal(b.timestampNs));
    PrintableAppend(Json.SignedDecimal(b.timestampNs), Json.AfterTimestamp(b));
    hide Json.AfterTimestamp, Json.SignedDecimal;
    assert Printable(Json.AfterSymbol(b));
    assert forall k :: 0 <= k < |b.symbol| ==> Json.Plain(b.symbol[k]);
    assert Printable(b.symbol);
  }

  /** The texts broadcast for a list of records. */
  function Texts(bs: seq<Bbo>): (texts: seq<string>)
    ensures |texts| == |bs|
  {
    seq(|bs|, k requires 0 <= k < |bs| => Tcp.WithNewline(Json.ToJson(bs[k])))
  }

  predicate SafeSymbols(bs: seq<Bbo>) {
    forall k :: 0 <= k < |bs| ==> Json.SafeString(bs[k].symbol)
  }

  /** What a client makes of a byte stream: split at newlines, each line one JSON text. */
  function ClientReads(bytes: string): seq<Option<Bbo>> {
    var lines := Lines(bytes);
    seq(|lines|, k requires 0 <= k < |lines| =>
          if lines[k] == [] then None else Json.ReadJson(lines[k][..|lines[k]| - 1]))
  }

  function Somes(bs: seq<Bbo>): seq<Option<Bbo>> {
    seq(|bs|, k requires 0 <= k < |bs| => Some(bs[k]))
  }

  lemma LineIsRead(t: string, rest: string)
    requires '\n' !in t && '\r' !in t
    ensures ClientReads(t + "\n" + rest) == [Json.ReadJson(t)] + ClientReads(rest)
  {
    hide Json.ReadJson, Lines, StripCr;
    var l := t + "\n";
    assert l[..|t|] == t;
    LinesCons(l, rest);
    StripCrIdentity(l);
  }

  lemma TextIsOneLine(b: Bbo, rest: string)
    requires Json.SafeString(b.symbol)
    ensures ClientReads(Tcp.WithNewline(Json.ToJson(b)) + rest) == [Some(b)] + ClientReads(rest)
  {
    hide Json.ToJson, Json.ReadJson, ClientReads;
    var t := Json.ToJson(b);
    JsonIsPrintable(b);
    assert t[|t| - 1] >= ' ';
    assert Tcp.WithNewline(t) == t + "\n";
    LineIsRead(t, rest);
    Json.JsonRoundTrip(b);
  }

  lemma NoNewlineNoLine(tail: string)
    requires '\n' !in tail
    ensures ClientReads(tail) == []
  {
  }

  /** The texts read back, also in front of a part of a further line. */
  lemma {:induction false} TextsReadBack(bs: seq<Bbo>, tail: string)
    requires SafeSymbols(bs) && '\n' !in tail
    ensures ClientReads(Flatten(Texts(bs)) + tail) == Somes(bs)
  {
    hide Json.ToJson, Json.ReadJson, Lines, Tcp.WithNewline, ClientReads;
    if bs == [] {
      assert Flatten(Texts(bs)) == "" && "" + tail == tail;
      NoNewlineNoLine(tail);
    } else {
      assert Texts(bs)[1..] == Texts(bs[1..]);
      var rest := Flatten(Texts(bs[1..])) + tail;
      assert Flatten(Texts(bs)) + tail == Tcp.WithNewline(Json.ToJson(bs[0])) + rest;
      TextIsOneLine(bs[0], rest);
      TextsReadBack(bs[1..], tail);
      assert Somes(bs) == [Some(bs[0])] + Somes(bs[1..]);
    }
  }

  lemma PartOfText(b: Bbo, part: string)
    requires Json.SafeString(b.symbol) && part < Tcp.WithNewline(Json.ToJson(b))
    ensures '\n' !in part
  {
    hide Json.ToJson;
    JsonIsPrintable(b);
    assert forall k :: 0 <= k < |part| ==> part[k] == Json.ToJson(b)[k];
  }

  /** A text cut short anywhere adds nothing to what the client has read. */
  lemma CutTextAddsNothing(bs: seq<Bbo>, b: Bbo, k: nat)
    requires SafeSymbols(bs) && Json.SafeString(b.symbol) && k < |Tcp.WithNewline(Json.ToJson(b))|
    ensures ClientReads(Flatten(Texts(bs)) + Tcp.WithNewline(Json.ToJson(b))[..k]) == Somes(bs)
  {
    hide Json.ToJson, Tcp.WithNewline, ClientReads, Texts, Flatten;
    PartOfText(b, Tcp.WithNewline(Json.ToJson(b))[..k]);
    TextsReadBack(bs, Tcp.WithNewline(Json.ToJson(b))[..k]);
  }

  /** A client that reads at any cut of its bytes reads a prefix. */
  lemma CutKeepsReads(bytes: string, m: nat)
    requires m <= |bytes|
    ensures ClientReads(bytes[..m]) <= ClientReads(bytes)
  {
    hide Lines, Json.ReadJson;
    CutKeepsLines(bytes, m);
  }

  /** The bytes that can have got to a client: the texts written to it, and a proper part of the
      next one if its write has failed or is still running. */
  ghost predicate OnTheWire(s: Tcp.State, c: Tcp.Socket, bytes: string)
    requires c in s.history
  {
    var got, next := Flatten(Fanout.Received(s, c)), s.history[c].joined + |s.history[c].delivered|;
    && got <= bytes
    && (bytes == got || (next < |s.broadcasts| && bytes[|got|..] < s.broadcasts[next]))
  }

  /** From its bytes the client reads exactly `run`, and at any cut of them a prefix of it. */
  ghost predicate ClientDecodes(s: Tcp.State, c: Tcp.Socket, run: seq<Bbo>)
    requires c in s.history
  {
    && OnTheWire(s, c, Flatten(Fanout.Received(s, c)))
    && (forall bytes :: OnTheWire(s, c, bytes) ==> ClientReads(bytes) == Somes(run))
    && (forall bytes, m: nat :: OnTheWire(s, c, bytes) && m <= |bytes| ==> ClientReads(bytes[..m]) <= Somes(run))
  }

  lemma WireDecodes(s: Tcp.State, c: Tcp.Socket, bs: seq<Bbo>, from: nat, n: nat)
    requires c in s.history && s.broadcasts == Texts(bs) && SafeSymbols(bs)
    requires from + n <= |bs| && from == s.history[c].joined && n == |s.history[c].delivered|
    requires Fanout.Received(s, c) == s.broadcasts[from..from + n]
    ensures ClientDecodes(s, c, bs[from..from + n])
  {
    hide Json.ToJson, Tcp.WithNewline, ClientReads, Flatten, Fanout.Received;
    var run := bs[from..from + n];
    assert Fanout.Received(s, c) == Texts(run);
    var got := Flatten(Texts(run));
    forall bytes | OnTheWire(s, c, bytes) ensures ClientReads(bytes) == Somes(run) {
      var part := bytes[|got|..];
      assert bytes == got + part;
      if part != [] {
        PartOfText(bs[from + n], part);
      }
      TextsReadBack(run, part);
    }
    forall bytes, m: nat | OnTheWire(s, c, bytes) && m <= |bytes| ensures ClientReads(bytes[..m]) <= Somes(run) {
      CutKeepsReads(bytes, m);
    }
  }

  /** A client decodes from its own byte stream, even where a write has broken off, one gap-free run of
      the records broadcast, starting with the first one broadcast after it was accepted; and that is
      all of them when it is open and nothing is outstanding. */
  lemma ClientDecodesARun(ss: seq<Tcp.State>, es: seq<Tcp.Event>, i: nat, j: nat, c: Tcp.Socket, bs: seq<Bbo>)
    requires Fanout.IsRun(ss, es) && i < j < |ss| && es[i] == Tcp.Accept(c)
    requires ss[j].broadcasts == Texts(bs) && SafeSymbols(bs)
    ensures c in ss[j].history
    ensures var from, n := |ss[i].broadcasts|, |ss[j].history[c].delivered|;
            && from + n <= |bs|
            && ClientDecodes(ss[j], c, bs[from..from + n])
            && (Tcp.IsOpen(ss[j], c) && Tcp.Pending(ss[j], c) == [] ==> from + n == |bs|)
  {
    hide Tcp.Pending, Tcp.WithNewline, Json.ToJson, Fanout.Received, ClientDecodes, Tcp.Apply, Tcp.Enabled;
    Fanout.DeliveryIsContiguous(ss, es, i, j, c);
    Fanout.Joins(ss[i], c);
    Fanout.ClientKeeps(ss, es, i + 1, j, c);
    WireDecodes(ss[j], c, bs, |ss[i].broadcasts|, |ss[j].history[c].delivered|);
  }

  // ----- a symbol that JSON would have to escape -----

  /** A symbol with a quote passes the parser, and the JSON text of its record does not read back. */
  lemma QuotedSymbolIsCorrupted(b: Bbo, spaced: bool, now: int)
    requires CleanRecord(b) && '"' in b.symbol
    ensures var parsed := Parse(LineText(b, spaced) + "\n", now);
            parsed.Valid? && parsed.bbo.symbol == b.symbol
            && Json.ReadJson(Json.ToJson(parsed.bbo)) != Some(parsed.bbo)
  {
    hide Parse, LineText, Json.ReadJson, Json.ToJson;
    PrintedLineParses(b, spaced, now);
    var k :| 0 <= k < |b.symbol| && b.symbol[k] == '"';
    assert !Json.Plain(b.symbol[k]);
    Json.JsonRoundTrip(b.(timestampNs := now));
  }

  /** Such a line exists. */
  lemma CorruptedLine(now: int) returns (line: string)
    ensures var parsed := Parse(line, now);
            parsed.Valid? && parsed.bbo.symbol == "A\"B"
            && Json.ReadJson(Json.ToJson(parsed.bbo)) != Some(parsed.bbo)
  {
    hide Parse, LineText, Json.ReadJson, Json.ToJson;
    var b := Bbo("A\"B", 0, 0, 0, 0, 0, 0);
    assert b.symbol[1] == '"';
    QuotedSymbolIsCorrupted(b, false, now);
    line := LineText(b, false) + "\n";
  }

  // ----- safe symbols and runs of subsequences -----

  lemma UntimedSafe(xs: seq<Bbo>, ys: seq<Bbo>)
    requires IsSubsequence(Untimed(xs), Untimed(ys)) && SafeSymbols(ys)
    ensures SafeSymbols(xs)
  {
    var idx :| SelectedBy(Untimed(xs), Untimed(ys), idx);
    forall k | 0 <= k < |xs| ensures Json.SafeString(xs[k].symbol) {
      assert Untimed(xs)[k] == Untimed(ys)[idx[k]];
    }
  }

  lemma {:induction false} RecordsAreSafe(items: seq<Item>)
    requires WellFormedItems(items)
    ensures SafeSymbols(Records(items))
  {
    hide WellFormedRecord;
    if items != [] {
      RecordsAreSafe(items[1..]);
      if items[0].Record? {
        WellFormedIsSafe(items[0].bbo);
      }
    }
  }

  lemma WellFormedIsSafe(b: Bbo)
    requires WellFormedRecord(b)
    ensures Json.SafeString(b.symbol)
  {
    forall k | 0 <= k < |b.symbol| ensures Json.Plain(b.symbol[k]) {
      assert b.symbol[k] in b.symbol;
    }
  }

  /** Taken messages, the one in flight included, are an in-order subsequence of the stream. */
  lemma TakenComeFromTheStream(ss: seq<Gateway.State>, es: seq<Gateway.Event>, items: seq<Item>, clock: seq<int>, i: nat)
    requires WellFormedItems(items) && i < |ss|
    requires Runs.IsRun(ss, es) && Reads(es, Lines(Stream(items)), clock)
    ensures IsSubsequence(Untimed(ss[i].published + Gateway.InFlight(ss[i])), Untimed(Records(items)))
  {
    hide Runs.IsRun, Reads, Records, WellFormedItems;
    var s := ss[i];
    AcceptedFitRecords(ss, es, items, clock, i);
    Runs.RunInv(ss, es, i);
    Runs.SelectIsSubsequence(s.accepted[..|s.fates|], s.fates, Gateway.Taken);
    assert SelectedBy(s.published + Gateway.InFlight(s), s.accepted, Runs.Positions(s.fates, Gateway.Taken));
    SubsequenceOfMore(s.published + Gateway.InFlight(s), s.accepted, Records(items));
  }

  lemma RunOfSubsequence(xs: seq<Bbo>, ys: seq<Bbo>, from: nat, n: nat)
    requires IsSubsequence(Untimed(xs), Untimed(ys)) && from + n <= |xs|
    ensures IsSubsequence(Untimed(xs[from..from + n]), Untimed(ys))
  {
    var idx :| SelectedBy(Untimed(xs), Untimed(ys), idx);
    assert SelectedBy(Untimed(xs[from..from + n]), Untimed(ys), idx[from..from + n]);
  }
}
