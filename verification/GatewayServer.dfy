/** The gateway's three threads and the TCP server as one transition system. */
module GatewayServer {
  import opened BboLines
  import opened BboTypes
  import opened EndToEnd
  import opened Sequences
  import opened UartFraming
  import Gateway = GatewayProtocol
  import Runs = GatewayRuns
  import Json = BboJson
  import Tcp = TcpFanout
  import Fanout = TcpRuns

  /** `sent` says that the message in flight has been handed to `broadcast`. */
  datatype State = State(gateway: Gateway.State, server: Tcp.State, sent: bool)

  const Initial: State := State(Gateway.Initial, Tcp.Initial, false)

  datatype Event = OfGateway(ge: Gateway.Event) | OfServer(te: Tcp.Event)

  /** The publish thread calls `broadcast` once for the message it has taken, with its JSON text, and
      goes on when the call has posted to every client. All else interleaves freely. */
  predicate Enabled(s: State, e: Event) {
    match e
    case OfGateway(ge) =>
      Gateway.Enabled(s.gateway, ge) && (ge.PublisherPublishes? ==> s.sent && s.server.toPost == [])
    case OfServer(te) =>
      && Tcp.Enabled(s.server, te)
      && (te.BeginBroadcast? ==>
            && s.gateway.publisher.InPublish? && !s.sent
            && te.message == Json.ToJson(s.gateway.publisher.taken))
  }

  function Apply(s: State, e: Event): State
    requires Enabled(s, e)
  {
    match e
    case OfGateway(ge) =>
      s.(gateway := Gateway.Apply(s.gateway, ge), sent := s.sent && !ge.PublisherPublishes?)
    case OfServer(te) =>
      s.(server := Tcp.Apply(s.server, te), sent := s.sent || te.BeginBroadcast?)
  }

  ghost predicate IsRun(ss: seq<State>, es: seq<Event>) {
    && |ss| == |es| + 1
    && ss[0] == Initial
    && forall i :: 0 <= i < |es| ==> Enabled(ss[i], es[i]) && ss[i + 1] == Apply(ss[i], es[i])
  }

  // ----- what has been broadcast -----

  /** The messages handed to `broadcast`. */
  function Handed(s: State): seq<Bbo> {
    s.gateway.published + (if s.sent then Gateway.InFlight(s.gateway) else [])
  }

  ghost predicate Inv(s: State) {
    && Gateway.Inv(s.gateway)
    && (s.sent ==> s.gateway.publisher.InPublish?)
    && (!s.sent ==> s.server.toPost == [])
    && s.server.broadcasts == Texts(Handed(s))
  }

  lemma TextsSnoc(bs: seq<Bbo>, b: Bbo)
    ensures Texts(bs + [b]) == Texts(bs) + [Tcp.WithNewline(Json.ToJson(b))]
  {
    hide Json.ToJson, Tcp.WithNewline;
  }

  lemma StepKeepsInv(s: State, e: Event)
    requires Inv(s) && Enabled(s, e)
    ensures Inv(Apply(s, e))
  {
    hide Json.ToJson, Tcp.WithNewline, Texts, Gateway.QueueInv, Gateway.ShutdownInv;
    if e.OfGateway? {
      Gateway.StepKeepsInv(s.gateway, e.ge);
      assert Handed(Apply(s, e)) == Handed(s);
    } else if e.te.BeginBroadcast? {
      TextsSnoc(s.gateway.published, s.gateway.publisher.taken);
      assert Handed(s) == s.gateway.published;
    }
  }

  lemma InitialInv()
    ensures Inv(Initial)
  {
  }

  /** In every reachable state the texts broadcast are those of the published messages, and of the
      one in flight once it has been handed over: each exactly once, in order. No broadcast outlives
      the publishing of its message. */
  lemma {:induction false} BroadcastsArePublished(ss: seq<State>, es: seq<Event>, i: nat)
    requires IsRun(ss, es) && i < |ss|
    ensures ss[i].server.broadcasts == Texts(Handed(ss[i]))
    ensures !ss[i].gateway.publisher.InPublish? ==> ss[i].server.toPost == []
    ensures Inv(ss[i])
  {
    hide Apply, Enabled, Texts;
    if i == 0 {
      InitialInv();
    } else {
      BroadcastsArePublished(ss, es, i - 1);
      StepKeepsInv(ss[i - 1], es[i - 1]);
    }
  }

  /** Neither system holds the other up but where the publish thread calls `broadcast`: it can begin
      the call, post the next handler, or go on. */
  lemma SystemsAreFree(s: State, ge: Gateway.Event, te: Tcp.Event)
    requires Inv(s)
    ensures Gateway.Enabled(s.gateway, ge) && !ge.PublisherPublishes? ==> Enabled(s, OfGateway(ge))
    ensures Tcp.Enabled(s.server, te) && !te.BeginBroadcast? ==> Enabled(s, OfServer(te))
    ensures s.gateway.publisher.InPublish? ==>
              || Enabled(s, OfServer(Tcp.BeginBroadcast(Json.ToJson(s.gateway.publisher.taken))))
              || Enabled(s, OfServer(Tcp.PostOne))
              || Enabled(s, OfGateway(Gateway.PublisherPublishes))
  {
    hide Json.ToJson, Texts;
  }

  // ----- each system runs by itself -----

  function GatewayEvents(es: seq<Event>): seq<Gateway.Event> {
    if es == [] then []
    else
      var n := |es| - 1;
      GatewayEvents(es[..n]) + (if es[n].OfGateway? then [es[n].ge] else [])
  }

  function ServerEvents(es: seq<Event>): seq<Tcp.Event> {
    if es == [] then []
    else
      var n := |es| - 1;
      ServerEvents(es[..n]) + (if es[n].OfServer? then [es[n].te] else [])
  }

  /** A step is a step of one system, and the other keeps its state. */
  lemma StepOfOne(s: State, e: Event)
    requires Enabled(s, e)
    ensures var s' := Apply(s, e);
            match e
            case OfGateway(ge) =>
              && Gateway.Enabled(s.gateway, ge)
              && s'.gateway == Gateway.Apply(s.gateway, ge) && s'.server == s.server
            case OfServer(te) =>
              && Tcp.Enabled(s.server, te)
              && s'.server == Tcp.Apply(s.server, te) && s'.gateway == s.gateway
  {
  }

  /** The gateway's part of a run is a run of the gateway. */
  lemma {:induction false} GatewayPart(ss: seq<State>, es: seq<Event>) returns (gs: seq<Gateway.State>)
    requires IsRun(ss, es)
    ensures Runs.IsRun(gs, GatewayEvents(es)) && gs[|gs| - 1] == ss[|es|].gateway
    decreases |es|
  {
    hide Gateway.Apply, Gateway.Enabled, Tcp.Apply, Tcp.Enabled, Apply, Enabled;
    if es == [] {
      gs := [Gateway.Initial];
    } else {
      var n := |es| - 1;
      assert IsRun(ss[..n + 1], es[..n]);
      gs := GatewayPart(ss[..n + 1], es[..n]);
      StepOfOne(ss[n], es[n]);
      if es[n].OfGateway? {
        gs := gs + [ss[n + 1].gateway];
      }
    }
  }

  /** The server's part of a run is a run of the server. */
  lemma {:induction false} ServerPart(ss: seq<State>, es: seq<Event>) returns (ts: seq<Tcp.State>)
    requires IsRun(ss, es)
    ensures Fanout.IsRun(ts, ServerEvents(es)) && ts[|ts| - 1] == ss[|es|].server
    decreases |es|
  {
    hide Gateway.Apply, Gateway.Enabled, Tcp.Apply, Tcp.Enabled, Apply, Enabled;
    if es == [] {
      ts := [Tcp.Initial];
    } else {
      var n := |es| - 1;
      ts := ServerPart(ss[..n + 1], es[..n]);
      StepOfOne(ss[n], es[n]);
      if es[n].OfServer? {
        ts := ts + [ss[n + 1].server];
      }
    }
  }

  /** Step `i` of the whole has its place among the server's steps. */
  lemma {:induction false} ServerEventsAt(es: seq<Event>, i: nat)
    requires i <= |es|
    ensures ServerEvents(es[..i]) <= ServerEvents(es)
    ensures i < |es| && es[i].OfServer? ==> ServerEvents(es[..i]) + [es[i].te] <= ServerEvents(es)
    decreases |es|
  {
    if i == |es| {
      assert es[..i] == es;
    } else {
      var n := |es| - 1;
      ServerEventsAt(es[..n], i);
      assert es[..n][..i] == es[..i];
    }
  }

  /** The server's steps determine its states. */
  lemma {:induction false} SameServer(ts: seq<Tcp.State>, tes: seq<Tcp.Event>, us: seq<Tcp.State>, ues: seq<Tcp.Event>, k: nat)
    requires Fanout.IsRun(ts, tes) && Fanout.IsRun(us, ues) && ues <= tes && k < |us|
    ensures ts[k] == us[k]
  {
    hide Tcp.Apply, Tcp.Enabled;
    if k > 0 {
      SameServer(ts, tes, us, ues, k - 1);
      assert ts[k] == Tcp.Apply(ts[k - 1], tes[k - 1]) && us[k] == Tcp.Apply(us[k - 1], ues[k - 1]);
    }
  }

  /** An accept of the whole run, in the server's own run. */
  lemma ServerAccept(ss: seq<State>, es: seq<Event>, i: nat, c: Tcp.Socket)
    returns (ts: seq<Tcp.State>, k: nat)
    requires IsRun(ss, es) && i < |es| && es[i] == OfServer(Tcp.Accept(c))
    ensures Fanout.IsRun(ts, ServerEvents(es)) && ts[|ts| - 1] == ss[|es|].server
    ensures k < |ServerEvents(es)| && ServerEvents(es)[k] == Tcp.Accept(c) && ts[k] == ss[i].server
  {
    hide Gateway.Apply, Gateway.Enabled, Tcp.Apply, Tcp.Enabled, Enabled, Apply, ServerEvents;
    ts := ServerPart(ss, es);
    var us := ServerPart(ss[..i + 1], es[..i]);
    k := |us| - 1;
    ServerEventsAt(es, i);
    SameServer(ts, ServerEvents(es), us, ServerEvents(es[..i]), k);
  }

  // ----- from the wire to a client -----

  /** For every stream of well-formed records and every interleaving of UART thread, publish thread,
      main thread and TCP server: what a client decodes from its bytes, wherever a write broke off,
      is one gap-free run of the messages broadcast, from the first one after it was accepted, and an
      in-order subsequence of the records printed. It is all of them when the client is open and
      nothing is outstanding. */
  lemma ClientReadsTheStream(
      ss: seq<State>, es: seq<Event>, items: seq<Item>, clock: seq<int>, i: nat, c: Tcp.Socket)
    returns (decoded: seq<Bbo>)
    requires IsRun(ss, es) && i < |es| && es[i] == OfServer(Tcp.Accept(c))
    requires WellFormedItems(items) && Reads(GatewayEvents(es), Lines(Stream(items)), clock)
    ensures var end, from := ss[|es|], |Handed(ss[i])|;
            && c in end.server.history
            && var n := |end.server.history[c].delivered|;
               && from + n <= |Handed(end)| && decoded == Handed(end)[from..from + n]
               && (Tcp.IsOpen(end.server, c) && Tcp.Pending(end.server, c) == [] ==> from + n == |Handed(end)|)
    ensures ClientDecodes(ss[|es|].server, c, decoded)
    ensures IsSubsequence(Untimed(decoded), Untimed(Records(items)))
  {
    hide Enabled, Apply, Runs.IsRun, Reads, Records, WellFormedItems, Stream, Lines, Tcp.Pending;
    hide Tcp.Apply, Tcp.Enabled, ClientDecodes, Untimed, IsSubsequence, Texts, SafeSymbols, Handed, Inv;
    var end := ss[|es|];
    var bs := Handed(end);
    BroadcastsArePublished(ss, es, i);
    BroadcastsArePublished(ss, es, |es|);
    var gs := GatewayPart(ss, es);
    HandedComeFromTheStream(gs, GatewayEvents(es), items, clock, end);
    var ts, k := ServerAccept(ss, es, i, c);
    ClientDecodesARun(ts, ServerEvents(es), k, |ts| - 1, c, bs);
    var from, n := |Handed(ss[i])|, |end.server.history[c].delivered|;
    decoded := bs[from..from + n];
    RunOfSubsequence(bs, Records(items), from, n);
  }

  lemma HandedComeFromTheStream(
      gs: seq<Gateway.State>, ges: seq<Gateway.Event>, items: seq<Item>, clock: seq<int>, s: State)
    requires Runs.IsRun(gs, ges) && gs[|gs| - 1] == s.gateway
    requires WellFormedItems(items) && Reads(ges, Lines(Stream(items)), clock)
    ensures IsSubsequence(Untimed(Handed(s)), Untimed(Records(items))) && SafeSymbols(Handed(s))
  {
    hide Reads, Records, WellFormedItems, Stream, Lines, Untimed, IsSubsequence, SafeSymbols;
    hide Gateway.Apply, Gateway.Enabled, Gateway.InFlight;
    var taken := s.gateway.published + Gateway.InFlight(s.gateway);
    TakenComeFromTheStream(gs, ges, items, clock, |gs| - 1);
    RunOfSubsequence(taken, Records(items), 0, |Handed(s)|);
    assert taken[0..0 + |Handed(s)|] == Handed(s);
    RecordsAreSafe(items);
    UntimedSafe(Handed(s), Records(items));
  }

  lemma FreshHandedNothing(s: State)
    requires Inv(s) && s.gateway.main.Fresh?
    ensures Handed(s) == []
  {
  }

  lemma StoppedHandedAll(s: State)
    requires Inv(s) && s.gateway.main.Stopped?
    ensures Handed(s) == s.gateway.published
  {
    hide Gateway.QueueInv, Texts;
  }

  /** Nothing is lost on the whole way: a client accepted before `start()`, open and with nothing
      outstanding after `stop()` has joined both threads, has decoded the records of all lines read,
      in order, but for at most one last one, of every stream that cannot overrun the queue. */
  lemma EarlyClientReadsEverything(
      ss: seq<State>, es: seq<Event>, items: seq<Item>, clock: seq<int>, i: nat, c: Tcp.Socket)
    requires IsRun(ss, es) && i < |es| && es[i] == OfServer(Tcp.Accept(c)) && ss[i].gateway.main.Fresh?
    requires WellFormedItems(items) && Reads(GatewayEvents(es), Lines(Stream(items)), clock)
    ensures var end, n := ss[|es|], LinesRead(GatewayEvents(es));
            && c in end.server.history && n <= |items|
            && (end.gateway.main.Stopped? && Tcp.IsOpen(end.server, c) && Tcp.Pending(end.server, c) == [] ==>
                  && ClientDecodes(end.server, c, end.gateway.published)
                  && (|Records(items)| <= 10000 ==>
                        && |end.gateway.queue| <= 1
                        && Untimed(end.gateway.published) + Untimed(end.gateway.queue) == Untimed(Records(items[..n]))))
  {
    hide Enabled, Apply, Runs.IsRun, Reads, Records, WellFormedItems, Stream, Lines, Tcp.Pending, LinesRead;
    hide Tcp.Apply, Tcp.Enabled, ClientDecodes, Untimed, IsSubsequence, Texts, SafeSymbols, Handed, Inv;
    BroadcastsArePublished(ss, es, i);
    BroadcastsArePublished(ss, es, |es|);
    FreshHandedNothing(ss[i]);
    var end := ss[|es|];
    var decoded := ClientReadsTheStream(ss, es, items, clock, i, c);
    if end.gateway.main.Stopped? {
      StoppedHandedAll(end);
      assert Handed(end)[0..|Handed(end)|] == Handed(end);
    }
    var gs := GatewayPart(ss, es);
    StreamOfPart(gs, GatewayEvents(es), items, clock);
  }

  lemma StreamOfPart(gs: seq<Gateway.State>, ges: seq<Gateway.Event>, items: seq<Item>, clock: seq<int>)
    requires Runs.IsRun(gs, ges) && WellFormedItems(items) && Reads(ges, Lines(Stream(items)), clock)
    ensures var g, n := gs[|gs| - 1], LinesRead(ges);
            && n <= |items|
            && (g.main.Stopped? && |Records(items)| <= 10000 ==>
                  && |g.queue| <= 1
                  && Untimed(g.published) + Untimed(g.queue) == Untimed(Records(items[..n])))
  {
    hide Reads, Records, WellFormedItems, Stream, Lines, LinesRead, Untimed, Gateway.Apply, Gateway.Enabled;
    StoppedGatewayPublishedTheStream(gs, ges, items, clock, |ges|);
    assert ges[..|ges|] == ges;
  }
}
