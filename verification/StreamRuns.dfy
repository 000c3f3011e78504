/** A run of gateway and server for every stream, in which a client reads it to the end: the theorems
    about runs that read a stream speak about every stream. */
module StreamRuns {
  import opened BboLines
  import opened BboParser
  import opened BboTypes
  import opened EndToEnd
  import opened GatewayServer
  import opened Sequences
  import opened UartFraming
  import Gateway = GatewayProtocol
  import Runs = GatewayRuns
  import Json = BboJson
  import Tcp = TcpFanout

  /** A run, as far as it goes, that reads `lines`. */
  datatype Trace = Trace(states: seq<State>, events: seq<Event>, last: State)

  ghost predicate IsTrace(t: Trace, lines: seq<string>, clock: seq<int>) {
    IsRun(t.states, t.events) && t.last == t.states[|t.events|] && Reads(GatewayEvents(t.events), lines, clock)
  }

  function Count(t: Trace): nat {
    LinesRead(GatewayEvents(t.events))
  }

  /** One more step of a run. */
  lemma Extend(t: Trace, lines: seq<string>, clock: seq<int>, e: Event) returns (t': Trace)
    requires IsTrace(t, lines, clock) && Enabled(t.last, e)
    requires e.OfGateway? && e.ge.UartRead? ==>
               Count(t) < |lines| == |clock| && e.ge.parsed == Parse(lines[Count(t)], clock[Count(t)])
    ensures IsTrace(t', lines, clock) && t'.last == Apply(t.last, e)
    ensures Count(t') == Count(t) + (if e.OfGateway? && e.ge.UartRead? then 1 else 0)
    ensures t'.events == t.events + [e]
  {
    hide Apply, Enabled, Parse, Reads, LinesRead;
    t' := Trace(t.states + [Apply(t.last, e)], t.events + [e], Apply(t.last, e));
    assert t'.events[..|t.events|] == t.events;
    if e.OfGateway? {
      ReadsNext(GatewayEvents(t.events), lines, clock, e.ge);
    } else {
      assert GatewayEvents(t'.events) == GatewayEvents(t.events) + [] == GatewayEvents(t.events);
    }
  }

  /** All threads are at the top of their loops, nothing is queued, and client 0, the only one, has
      been written everything published. */
  predicate AtRest(s: State, published: seq<Bbo>) {
    && s.gateway.main.Started? && s.gateway.running && s.gateway.uart.LoopTest? && s.gateway.publisher.RunningTest?
    && s.gateway.queue == [] && s.gateway.published == published && !s.sent
    && ServerAtRest(s.server, |published|)
  }

  predicate ServerAtRest(t: Tcp.State, n: nat) {
    && t.clients == [0] && t.toPost == [] && t.posted == []
    && |t.broadcasts| == n && t.history == map[0 := Tcp.Client(0, Range(0, n), None)]
  }

  /** A client connects before anything else happens. */
  lemma ConnectFirst(lines: seq<string>, clock: seq<int>) returns (t: Trace)
    requires |lines| == |clock|
    ensures IsTrace(t, lines, clock) && Count(t) == 0 && t.events == [OfServer(Tcp.Accept(0))]
    ensures t.last.gateway == Gateway.Initial && !t.last.sent && ServerAtRest(t.last.server, 0)
  {
    hide Parse;
    t := Trace([Initial], [], Initial);
    assert IsTrace(t, lines, clock) && Count(t) == 0;
    hide IsTrace, Count;
    t := Extend(t, lines, clock, OfServer(Tcp.Accept(0)));
  }

  lemma StartBoth(lines: seq<string>, clock: seq<int>) returns (t: Trace)
    requires |lines| == |clock|
    ensures IsTrace(t, lines, clock) && Count(t) == 0 && AtRest(t.last, [])
    ensures t.events != [] && t.events[0] == OfServer(Tcp.Accept(0))
  {
    hide Parse, IsTrace, Count, ServerAtRest, Tcp.Apply, Tcp.Enabled, Json.ToJson;
    t := ConnectFirst(lines, clock);
    t := Extend(t, lines, clock, OfGateway(Gateway.SetRunning));
    t := Extend(t, lines, clock, OfGateway(Gateway.SpawnUart));
    t := Extend(t, lines, clock, OfGateway(Gateway.SpawnPublisher));
  }

  lemma OneOpen(t: Tcp.State)
    requires t.clients == [0] && Tcp.IsOpen(t, 0)
    ensures Tcp.OnlyOpen(t, t.clients) == [0]
  {
    assert Tcp.OnlyOpen(t, [0][..0]) == [];
  }

  /** The message in flight is broadcast and written to the client. */
  lemma Deliver(t: Trace, lines: seq<string>, clock: seq<int>, published: seq<Bbo>, bbo: Bbo) returns (t': Trace)
    requires IsTrace(t, lines, clock) && t.events != []
    requires AtRest(t.last.(gateway := t.last.gateway.(publisher := Gateway.RunningTest)), published)
    requires t.last.gateway.publisher == Gateway.InPublish(bbo)
    ensures IsTrace(t', lines, clock) && Count(t') == Count(t) && AtRest(t'.last, published + [bbo])
    ensures t.events <= t'.events
  {
    hide IsTrace, Count, Json.ToJson, Tcp.WithNewline, Tcp.OnlyOpen;
    var n := |published|;
    OneOpen(t.last.server);
    RangeSnoc(0, n);
    t' := Extend(t, lines, clock, OfServer(Tcp.BeginBroadcast(Json.ToJson(bbo))));
    t' := Extend(t', lines, clock, OfServer(Tcp.PostOne));
    t' := Extend(t', lines, clock, OfServer(Tcp.RunWrite(true)));
    t' := Extend(t', lines, clock, OfGateway(Gateway.PublisherPublishes));
  }

  /** A pushed record is taken. */
  lemma Take(t: Trace, lines: seq<string>, clock: seq<int>, published: seq<Bbo>, bbo: Bbo) returns (t': Trace)
    requires IsTrace(t, lines, clock)
    requires AtRest(t.last.(gateway := t.last.gateway.(uart := Gateway.LoopTest)), published)
    requires t.last.gateway.uart == Gateway.ReadyToPush(bbo)
    ensures IsTrace(t', lines, clock) && Count(t') == Count(t)
    ensures AtRest(t'.last.(gateway := t'.last.gateway.(publisher := Gateway.RunningTest)), published)
    ensures t'.last.gateway.publisher == Gateway.InPublish(bbo)
    ensures t'.events != [] && t.events <= t'.events
  {
    hide IsTrace, Count, ServerAtRest, Tcp.Apply, Tcp.Enabled, Json.ToJson;
    t' := Extend(t, lines, clock, OfGateway(Gateway.UartPush));
    t' := Extend(t', lines, clock, OfGateway(Gateway.PublisherReadsRunning));
    t' := Extend(t', lines, clock, OfGateway(Gateway.PublisherWakes(false)));
  }

  /** One line is read and, if valid, pushed, taken, published and delivered. */
  lemma PublishNext(t: Trace, lines: seq<string>, clock: seq<int>, published: seq<Bbo>) returns (t': Trace)
    requires IsTrace(t, lines, clock) && Count(t) < |lines| == |clock| && AtRest(t.last, published)
    ensures IsTrace(t', lines, clock) && Count(t') == Count(t) + 1 && t.events <= t'.events
    ensures AtRest(t'.last, published + Kept(Parse(lines[Count(t)], clock[Count(t)])))
  {
    hide Parse, IsTrace, Count, ServerAtRest, Tcp.Apply, Tcp.Enabled, Json.ToJson;
    var parsed := Parse(lines[Count(t)], clock[Count(t)]);
    t' := Extend(t, lines, clock, OfGateway(Gateway.UartTest));
    t' := Extend(t', lines, clock, OfGateway(Gateway.UartRead(parsed)));
    if parsed.Valid? {
      t' := Take(t', lines, clock, published, parsed.bbo);
      t' := Deliver(t', lines, clock, published, parsed.bbo);
    }
  }

  lemma {:induction false} PublishLines(lines: seq<string>, clock: seq<int>, n: nat) returns (t: Trace)
    requires n <= |lines| == |clock|
    ensures IsTrace(t, lines, clock) && Count(t) == n
    ensures AtRest(t.last, ValidParses(lines[..n], clock[..n]))
    ensures t.events != [] && t.events[0] == OfServer(Tcp.Accept(0))
  {
    hide Parse, IsTrace, Count, ValidParses, AtRest, Apply, Enabled;
    if n == 0 {
      t := StartBoth(lines, clock);
      NothingParsed(lines[..0], clock[..0]);
    } else {
      t := PublishLines(lines, clock, n - 1);
      t := PublishNext(t, lines, clock, ValidParses(lines[..n - 1], clock[..n - 1]));
      ValidParsesNext(lines, clock, n - 1);
    }
  }

  lemma NothingParsed(lines: seq<string>, clock: seq<int>)
    requires lines == [] && clock == []
    ensures ValidParses(lines, clock) == []
  {
  }

  /** `stop()` up to its first join. */
  lemma StopUart(t: Trace, lines: seq<string>, clock: seq<int>, published: seq<Bbo>) returns (t': Trace)
    requires IsTrace(t, lines, clock) && AtRest(t.last, published)
    ensures IsTrace(t', lines, clock) && Count(t') == Count(t) && t.events <= t'.events
    ensures var g := t'.last.gateway;
            && g.main.JoiningPublisher? && !g.running && g.publisher.RunningTest?
            && g.queue == [] && g.published == published && !t'.last.sent && t'.last.server == t.last.server
  {
    hide IsTrace, Count, ServerAtRest, Tcp.Apply, Tcp.Enabled, Json.ToJson;
    t' := Extend(t, lines, clock, OfGateway(Gateway.StopReadsFlag));
    t' := Extend(t', lines, clock, OfGateway(Gateway.StopClearsFlag));
    t' := Extend(t', lines, clock, OfGateway(Gateway.UartTest));
    t' := Extend(t', lines, clock, OfGateway(Gateway.JoinUart));
  }

  lemma StopBoth(t: Trace, lines: seq<string>, clock: seq<int>, published: seq<Bbo>) returns (t': Trace)
    requires IsTrace(t, lines, clock) && AtRest(t.last, published)
    ensures IsTrace(t', lines, clock) && Count(t') == Count(t) && t.events <= t'.events
    ensures var g := t'.last.gateway;
            && g.main.Stopped? && g.queue == [] && g.published == published
            && ServerAtRest(t'.last.server, |published|)
  {
    hide IsTrace, Count, ServerAtRest, Tcp.Apply, Tcp.Enabled, Json.ToJson;
    t' := StopUart(t, lines, clock, published);
    t' := Extend(t', lines, clock, OfGateway(Gateway.PublisherReadsRunning));
    t' := Extend(t', lines, clock, OfGateway(Gateway.PublisherReadsEmpty));
    t' := Extend(t', lines, clock, OfGateway(Gateway.JoinPublisher));
  }

  /** For every stream there is a run of both systems that accepts a client, reads the stream to its
      end and stops, after which the client has decoded exactly the records of the stream. */
  lemma EveryStreamCanBeRead(items: seq<Item>, clock: seq<int>) returns (ss: seq<State>, es: seq<Event>)
    requires WellFormedItems(items) && |clock| == |items|
    ensures IsRun(ss, es) && Reads(GatewayEvents(es), Lines(Stream(items)), clock)
    ensures LinesRead(GatewayEvents(es)) == |items|
    ensures es != [] && es[0] == OfServer(Tcp.Accept(0)) && ss[0].gateway.main.Fresh?
    ensures var end := ss[|es|];
            && end.gateway.main.Stopped? && end.gateway.queue == []
            && Untimed(end.gateway.published) == Untimed(Records(items))
            && Tcp.IsOpen(end.server, 0) && Tcp.Pending(end.server, 0) == []
            && ClientDecodes(end.server, 0, end.gateway.published)
  {
    hide Parse, ValidParses, Lines, Stream, Records, WellFormedItems, Untimed, Reads, LinesRead, AtRest;
    hide Apply, Enabled, ClientDecodes, GatewayEvents;
    var lines := Lines(Stream(items));
    StreamRoundTrip(items, clock);
    var t := PublishLines(lines, clock, |lines|);
    assert lines[..|lines|] == lines && clock[..|lines|] == clock;
    t := StopBoth(t, lines, clock, ValidParses(lines, clock));
    ss, es := t.states, t.events;
    EarlyClientReadsEverything(ss, es, items, clock, 0, 0);
  }

  /** In particular the gateway by itself can publish every stream. */
  lemma EveryStreamCanBePublished(items: seq<Item>, clock: seq<int>)
    returns (gs: seq<Gateway.State>, ges: seq<Gateway.Event>)
    requires WellFormedItems(items) && |clock| == |items|
    ensures Runs.IsRun(gs, ges) && Reads(ges, Lines(Stream(items)), clock) && LinesRead(ges) == |items|
    ensures gs[|ges|].main.Stopped? && gs[|ges|].queue == []
    ensures Untimed(gs[|ges|].published) == Untimed(Records(items))
  {
    hide Parse, Lines, Stream, Records, WellFormedItems, Untimed, Reads, LinesRead, GatewayEvents, ClientDecodes;
    hide Apply, Enabled, Gateway.Apply, Gateway.Enabled;
    var ss, es := EveryStreamCanBeRead(items, clock);
    gs := GatewayPart(ss, es);
    ges := GatewayEvents(es);
  }
}
