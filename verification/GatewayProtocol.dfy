/** The best bid and offer that travels through the gateway. Prices and the spread are exact
    integers in ten-thousandths of a dollar, the unit the FPGA sends. */
module BboTypes {
  datatype Bbo = Bbo(
    symbol: string,
    bidPrice: nat,
    bidShares: nat,
    askPrice: nat,
    askShares: nat,
    spread: nat,
    timestampNs: int)

  /** Outcome of parsing one line: `Valid` is a structure whose `valid` flag is set. The fields of
      a structure whose flag is clear are never looked at. */
  datatype ParseResult = Valid(bbo: Bbo) | Invalid
}

/** The order gateway as a transition system. Every locked section and every single read of a
    shared variable is one atomic step; the steps of the main thread, the UART thread and the
    publish thread interleave freely. One start/stop cycle is modelled. */
module GatewayProtocol {
  import opened BboTypes
  import opened Sequences

  const MAX_QUEUE_SIZE: nat := 10000

  // ----- where each thread is -----

  /** `Clearing` is `stop()` between its test of the flag and its store to it; `ReturnedEarly` is
      `stop()` leaving a started gateway because it found the flag already clear. A `stop()` before
      `start()`, or after an earlier `stop()`, leaves everything as it is. */
  datatype MainPc =
    | Fresh | Flagged | UartSpawned | Started
    | Clearing | JoiningUart | JoiningPublisher | Stopped | ReturnedEarly

  datatype UartPc = UartIdle | LoopTest | InRead | ReadyToPush(line: Bbo) | UartDone

  /** The loop condition `running_ || !bbo_queue_.empty()` is two separate reads. */
  datatype PublisherPc =
    | PublisherIdle | RunningTest | EmptyTest | Waiting | InPublish(taken: Bbo) | PublisherDone

  /** How an accepted message left the queue. */
  datatype Fate = Taken | Dropped

  /** `accepted` lists everything ever pushed; `fates[i]` says how message `i` left the queue, and
      messages from `|fates|` on are still in it. */
  datatype State = State(
    running: bool,
    stopped: bool,
    queue: seq<Bbo>,
    main: MainPc,
    uart: UartPc,
    publisher: PublisherPc,
    accepted: seq<Bbo>,
    fates: seq<Fate>,
    published: seq<Bbo>,
    dropped: seq<Bbo>)

  const Initial: State :=
    State(false, true, [], Fresh, UartIdle, PublisherIdle, [], [], [], [])

  // ----- steps -----

  datatype Event =
    | SetRunning
    | SpawnUart
    | SpawnPublisher
    | StopReadsFlag
    | StopClearsFlag
    | JoinUart
    | JoinPublisher
    | UartTest
    | UartRead(parsed: ParseResult)   // read_line returned a line, and parse its result
    | UartRetry                       // a read error with the port still open
    | UartClosed                      // a read error with the port closed
    | UartPush
    | PublisherReadsRunning
    | PublisherReadsEmpty
    | PublisherWakes(timedOut: bool)
    | PublisherPublishes

  predicate Enabled(s: State, e: Event) {
    match e
    case SetRunning => s.main == Fresh
    case SpawnUart => s.main == Flagged
    case SpawnPublisher => s.main == UartSpawned
    case StopReadsFlag => s.main == Fresh || s.main == Started || s.main == Stopped || s.main == ReturnedEarly
    case StopClearsFlag => s.main == Clearing
    case JoinUart => s.main == JoiningUart && s.uart == UartDone
    case JoinPublisher => s.main == JoiningPublisher && s.publisher == PublisherDone
    case UartTest => s.uart == LoopTest
    case UartRead(_) => s.uart == InRead
    case UartRetry => s.uart == InRead
    case UartClosed => s.uart == InRead
    case UartPush => s.uart.ReadyToPush?
    case PublisherReadsRunning => s.publisher == RunningTest
    case PublisherReadsEmpty => s.publisher == EmptyTest
    case PublisherWakes(timedOut) => s.publisher == Waiting && (s.queue != [] || !s.running || timedOut)
    case PublisherPublishes => s.publisher.InPublish?
  }

  /** The locked section of the UART thread: drop the oldest when full, then append. */
  function PushLocked(s: State, bbo: Bbo): State {
    if |s.queue| >= MAX_QUEUE_SIZE then
      s.(queue := s.queue[1..] + [bbo], accepted := s.accepted + [bbo],
         fates := s.fates + [Dropped], dropped := s.dropped + [s.queue[0]])
    else
      s.(queue := s.queue + [bbo], accepted := s.accepted + [bbo])
  }

  function Apply(s: State, e: Event): State
    requires Enabled(s, e)
  {
    match e
    case SetRunning => s.(running := true, stopped := false, main := Flagged)
    case SpawnUart => s.(uart := LoopTest, main := UartSpawned)
    case SpawnPublisher => s.(publisher := RunningTest, main := Started)
    case StopReadsFlag =>
      s.(main := if s.running then Clearing else if s.main == Started then ReturnedEarly else s.main)
    case StopClearsFlag => s.(running := false, main := JoiningUart)
    case JoinUart => s.(main := JoiningPublisher)
    case JoinPublisher => s.(stopped := true, main := Stopped)
    case UartTest => s.(uart := if s.running then InRead else UartDone)
    case UartRead(parsed) => s.(uart := if parsed.Valid? then ReadyToPush(parsed.bbo) else LoopTest)
    case UartRetry => s.(uart := LoopTest)
    case UartClosed => s.(running := false, uart := UartDone)
    case UartPush => PushLocked(s, s.uart.line).(uart := LoopTest)
    case PublisherReadsRunning => s.(publisher := if s.running then Waiting else EmptyTest)
    case PublisherReadsEmpty => s.(publisher := if s.queue == [] then PublisherDone else Waiting)
    case PublisherWakes(_) =>
      if s.queue == [] then s.(publisher := RunningTest)
      else s.(publisher := InPublish(s.queue[0]), queue := s.queue[1..], fates := s.fates + [Taken])
    case PublisherPublishes =>
      s.(published := s.published + [s.publisher.taken], publisher := RunningTest)
  }

  predicate IsPublisherEvent(e: Event) {
    e.PublisherReadsRunning? || e.PublisherReadsEmpty? || e.PublisherWakes? || e.PublisherPublishes?
  }

  // ----- the invariant -----

  /** The messages of `xs` whose fate is `f`, in order. */
  function Select(xs: seq<Bbo>, fates: seq<Fate>, f: Fate): seq<Bbo>
    requires |xs| == |fates|
  {
    if xs == [] then []
    else
      var n := |xs| - 1;
      Select(xs[..n], fates[..n], f) + (if fates[n] == f then [xs[n]] else [])
  }

  function InFlight(s: State): seq<Bbo> {
    if s.publisher.InPublish? then [s.publisher.taken] else []
  }

  /** 1 while the UART thread is past its loop test and may still push. */
  function PushesPending(s: State): nat {
    if s.uart.InRead? || s.uart.ReadyToPush? then 1 else 0
  }

  ghost predicate ThreadsInv(s: State) {
    && (s.main.Fresh? || s.main.Flagged? <==> s.uart.UartIdle?)
    && (s.main.Fresh? || s.main.Flagged? || s.main.UartSpawned? <==> s.publisher.PublisherIdle?)
    && (s.main.Fresh? ==> !s.running && s.accepted == [])
    && (s.main.Flagged? ==> s.running)
    && (s.uart.UartDone? ==> !s.running)
    && (s.publisher.EmptyTest? || s.publisher.PublisherDone? ==> !s.running)
    && (s.main.JoiningUart? || s.main.JoiningPublisher? || s.main.Stopped? || s.main.ReturnedEarly?
        ==> !s.running)
    && (s.main.JoiningPublisher? || s.main.Stopped? ==> s.uart.UartDone?)
    && (s.main.Stopped? ==> s.publisher.PublisherDone?)
    && (s.main.ReturnedEarly? ==> s.uart.UartDone?)
    // until stop() clears the flag, only a UART thread that is ending can have cleared it
    && ((s.main.UartSpawned? || s.main.Started? || s.main.Clearing?) && !s.running ==> s.uart.UartDone?)
    && (s.stopped <==> s.main.Fresh? || s.main.Stopped?)
  }

  ghost predicate QueueInv(s: State) {
    && |s.fates| + |s.queue| == |s.accepted|
    && s.queue == s.accepted[|s.fates|..]
    && |s.queue| <= 10000
    && s.published + InFlight(s) == Select(s.accepted[..|s.fates|], s.fates, Taken)
    && s.dropped == Select(s.accepted[..|s.fates|], s.fates, Dropped)
  }

  ghost predicate ShutdownInv(s: State) {
    s.publisher.PublisherDone? ==> |s.queue| + PushesPending(s) <= 1
  }

  ghost predicate Inv(s: State) {
    && ThreadsInv(s)
    && QueueInv(s)
    && ShutdownInv(s)
  }

  lemma SelectSnoc(xs: seq<Bbo>, fates: seq<Fate>, x: Bbo, d: Fate, f: Fate)
    requires |xs| == |fates|
    ensures Select(xs + [x], fates + [d], f) == Select(xs, fates, f) + (if d == f then [x] else [])
  {
    assert (xs + [x])[..|xs|] == xs;
    assert (fates + [d])[..|fates|] == fates;
  }

  /** Removing the head of the queue decides the fate of exactly the next accepted message. */
  lemma HeadDecided(s: State, d: Fate)
    requires QueueInv(s) && s.queue != []
    ensures s.queue[0] == s.accepted[|s.fates|]
    ensures s.queue[1..] == s.accepted[|s.fates| + 1..]
    ensures var k := |s.fates|;
            && Select(s.accepted[..k + 1], s.fates + [d], Taken)
            == Select(s.accepted[..k], s.fates, Taken) + (if d == Taken then [s.queue[0]] else [])
            && Select(s.accepted[..k + 1], s.fates + [d], Dropped)
            == Select(s.accepted[..k], s.fates, Dropped) + (if d == Dropped then [s.queue[0]] else [])
  {
    var k := |s.fates|;
    assert s.accepted[..k + 1] == s.accepted[..k] + [s.queue[0]];
    SelectSnoc(s.accepted[..k], s.fates, s.queue[0], d, Taken);
    SelectSnoc(s.accepted[..k], s.fates, s.queue[0], d, Dropped);
  }

  lemma PushWithRoom(s: State, bbo: Bbo)
    requires QueueInv(s) && |s.queue| < MAX_QUEUE_SIZE
    ensures QueueInv(PushLocked(s, bbo))
  {
    var k, accepted := |s.fates|, s.accepted + [bbo];
    assert accepted[..k] == s.accepted[..k];
    assert accepted[k..] == s.accepted[k..] + [bbo];
  }

  lemma PushWhenFull(s: State, bbo: Bbo)
    requires QueueInv(s) && |s.queue| >= MAX_QUEUE_SIZE
    ensures QueueInv(PushLocked(s, bbo))
  {
    var k, accepted := |s.fates|, s.accepted + [bbo];
    HeadDecided(s, Dropped);
    assert accepted[..k + 1] == s.accepted[..k + 1];
    assert accepted[k + 1..] == s.accepted[k + 1..] + [bbo];
  }

  lemma PushKeepsQueueInv(s: State)
    requires QueueInv(s) && s.uart.ReadyToPush?
    ensures QueueInv(Apply(s, UartPush))
  {
    if |s.queue| < MAX_QUEUE_SIZE {
      PushWithRoom(s, s.uart.line);
    } else {
      PushWhenFull(s, s.uart.line);
    }
  }

  lemma WakeKeepsQueueInv(s: State, e: Event)
    requires QueueInv(s) && e.PublisherWakes? && Enabled(s, e)
    ensures QueueInv(Apply(s, e))
  {
    if s.queue != [] {
      HeadDecided(s, Taken);
    }
  }

  lemma InitialInv()
    ensures Inv(Initial)
  {
  }

  lemma StepKeepsThreadsInv(s: State, e: Event)
    requires Inv(s) && Enabled(s, e)
    ensures ThreadsInv(Apply(s, e))
  {
    hide QueueInv;
  }

  lemma StepKeepsQueueInv(s: State, e: Event)
    requires Inv(s) && Enabled(s, e)
    ensures QueueInv(Apply(s, e))
  {
    hide ShutdownInv;
    if e.UartPush? {
      PushKeepsQueueInv(s);
    } else if e.PublisherWakes? {
      WakeKeepsQueueInv(s, e);
    }
  }

  lemma StepKeepsShutdownInv(s: State, e: Event)
    requires Inv(s) && Enabled(s, e)
    ensures ShutdownInv(Apply(s, e))
  {
    hide QueueInv;
  }

  /** Every step of every thread keeps the invariant. */
  lemma StepKeepsInv(s: State, e: Event)
    requires Inv(s) && Enabled(s, e)
    ensures Inv(Apply(s, e))
  {
    hide ThreadsInv, QueueInv, ShutdownInv, Apply, Enabled;
    StepKeepsThreadsInv(s, e);
    StepKeepsQueueInv(s, e);
    StepKeepsShutdownInv(s, e);
  }
}
