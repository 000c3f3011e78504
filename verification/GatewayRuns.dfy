/** Whole-run theorems about the gateway: conservation, order, overload and shutdown. */
module GatewayRuns {
  import opened BboTypes
  import opened GatewayProtocol
  import opened Sequences

  /** `ss` are the states of a run from the initial state by the steps `es`, however interleaved. */
  ghost predicate IsRun(ss: seq<State>, es: seq<Event>) {
    && |ss| == |es| + 1
    && ss[0] == Initial
    && forall i :: 0 <= i < |es| ==> Enabled(ss[i], es[i]) && ss[i + 1] == Apply(ss[i], es[i])
  }

  lemma {:induction false} RunInv(ss: seq<State>, es: seq<Event>, i: nat)
    requires IsRun(ss, es) && i < |ss|
    ensures Inv(ss[i])
  {
    hide Apply, Inv;
    if i == 0 {
      InitialInv();
    } else {
      RunInv(ss, es, i - 1);
      StepKeepsInv(ss[i - 1], es[i - 1]);
    }
  }

  // ----- conservation and order -----

  /** The positions whose fate is `f`. */
  ghost function Positions(fates: seq<Fate>, f: Fate): seq<nat> {
    if fates == [] then []
    else
      var n := |fates| - 1;
      Positions(fates[..n], f) + (if fates[n] == f then [n] else [])
  }

  lemma {:induction false} PositionsIncrease(fates: seq<Fate>, f: Fate)
    ensures StrictlyIncreasing(Positions(fates, f))
    ensures forall i :: 0 <= i < |Positions(fates, f)| ==> Positions(fates, f)[i] < |fates|
  {
    if fates != [] {
      PositionsIncrease(fates[..|fates| - 1], f);
    }
  }

  lemma {:induction false} SelectIsSubsequence(xs: seq<Bbo>, fates: seq<Fate>, f: Fate)
    requires |xs| == |fates|
    ensures SelectedBy(Select(xs, fates, f), xs, Positions(fates, f))
  {
    PositionsIncrease(fates, f);
    if xs != [] {
      var n := |xs| - 1;
      SelectIsSubsequence(xs[..n], fates[..n], f);
    }
  }

  lemma MultisetSnoc(a: seq<Bbo>, x: Bbo)
    ensures multiset(a + [x]) == multiset(a) + multiset{x}
  {
  }

  /** How many entries of `fates` are `f` and belong to a message equal to `x`. */
  lemma SelectCount(xs: seq<Bbo>, fates: seq<Fate>, f: Fate, x: Bbo)
    requires |xs| == |fates| && xs != []
    ensures var n := |xs| - 1;
            multiset(Select(xs, fates, f))[x]
            == multiset(Select(xs[..n], fates[..n], f))[x] + (if fates[n] == f && xs[n] == x then 1 else 0)
  {
    var n := |xs| - 1;
    MultisetSnoc(Select(xs[..n], fates[..n], f), xs[n]);
    assert Select(xs[..n], fates[..n], f) + [] == Select(xs[..n], fates[..n], f);
  }

  lemma CountLast(xs: seq<Bbo>, x: Bbo)
    requires xs != []
    ensures var n := |xs| - 1;
            multiset(xs)[x] == multiset(xs[..n])[x] + (if xs[n] == x then 1 else 0)
  {
    var n := |xs| - 1;
    assert xs == xs[..n] + [xs[n]];
    MultisetSnoc(xs[..n], xs[n]);
  }

  lemma {:induction false} PartitionCount(xs: seq<Bbo>, fates: seq<Fate>, x: Bbo)
    requires |xs| == |fates|
    ensures multiset(xs)[x] == multiset(Select(xs, fates, Taken))[x] + multiset(Select(xs, fates, Dropped))[x]
    decreases |xs|
  {
    if xs != [] {
      var n := |xs| - 1;
      PartitionCount(xs[..n], fates[..n], x);
      CountLast(xs, x);
      SelectCount(xs, fates, Taken, x);
      SelectCount(xs, fates, Dropped, x);
    }
  }

  lemma SelectPartition(xs: seq<Bbo>, fates: seq<Fate>)
    requires |xs| == |fates|
    ensures multiset(xs) == multiset(Select(xs, fates, Taken)) + multiset(Select(xs, fates, Dropped))
  {
    forall x: Bbo
      ensures multiset(xs)[x] == multiset(Select(xs, fates, Taken))[x] + multiset(Select(xs, fates, Dropped))[x]
    {
      PartitionCount(xs, fates, x);
    }
  }

  /** In every reachable state each accepted message is in exactly one place: published, dropped,
      in flight to the publishers, or queued. */
  lemma Conservation(ss: seq<State>, es: seq<Event>, i: nat)
    requires IsRun(ss, es) && i < |ss|
    ensures multiset(ss[i].accepted)
         == multiset(ss[i].published) + multiset(ss[i].dropped) + multiset(InFlight(ss[i])) + multiset(ss[i].queue)
  {
    var s := ss[i];
    RunInv(ss, es, i);
    var k := |s.fates|;
    SelectPartition(s.accepted[..k], s.fates);
    assert s.accepted == s.accepted[..k] + s.queue;
    assert multiset(s.published + InFlight(s)) == multiset(s.published) + multiset(InFlight(s));
  }

  /** The queue is the newest suffix of what was accepted, never longer than its bound, and the
      published messages are an in-order subsequence of the accepted ones. */
  lemma OrderPreserved(ss: seq<State>, es: seq<Event>, i: nat)
    requires IsRun(ss, es) && i < |ss|
    ensures var s := ss[i];
            && |s.queue| <= 10000
            && |s.queue| <= |s.accepted|
            && s.queue == s.accepted[|s.accepted| - |s.queue|..]
            && IsSubsequence(s.published, s.accepted)
            && IsSubsequence(s.dropped, s.accepted)
  {
    var s := ss[i];
    RunInv(ss, es, i);
    var prefix := s.accepted[..|s.fates|];
    SelectIsSubsequence(prefix, s.fates, Taken);
    SelectIsSubsequence(prefix, s.fates, Dropped);
    var idx := Positions(s.fates, Taken);
    assert SelectedBy(s.published, s.accepted, idx[..|s.published|]);
    assert SelectedBy(s.dropped, s.accepted, Positions(s.fates, Dropped));
  }

  // ----- overload -----

  lemma StepGrows(s: State, e: Event)
    requires Enabled(s, e)
    ensures var s' := Apply(s, e);
            s.accepted <= s'.accepted && s.fates <= s'.fates && s.published <= s'.published
  {
  }

  /** Histories only grow. */
  lemma {:induction false} HistoriesGrow(ss: seq<State>, es: seq<Event>, i: nat, j: nat)
    requires IsRun(ss, es) && i <= j < |ss|
    ensures ss[i].accepted <= ss[j].accepted && ss[i].fates <= ss[j].fates && ss[i].published <= ss[j].published
    decreases j - i
  {
    hide Apply, Enabled;
    if i < j {
      HistoriesGrow(ss, es, i, j - 1);
      StepGrows(ss[j - 1], es[j - 1]);
    }
  }

  /** Step `k` pushes a message while message `i` is the oldest one queued and exactly
      10,000 messages have been accepted after it. */
  ghost predicate Overrun(ss: seq<State>, es: seq<Event>, k: nat, i: nat)
    requires |ss| == |es| + 1
  {
    k < |es| && es[k].UartPush? && |ss[k].fates| == i && |ss[k].accepted| == i + 10000
  }

  /** Only a push into a full queue drops. */
  lemma DropNeedsFullQueue(s: State, e: Event)
    requires Inv(s) && Enabled(s, e) && Apply(s, e).fates == s.fates + [Dropped]
    ensures e.UartPush? && |s.accepted| == |s.fates| + 10000
  {
    assert Apply(s, e).fates[|s.fates|] == Dropped;
  }

  /** Message `i` was lost if and only if the producer got a full queue ahead of it: it was still
      queued at the very step that accepted message i + 10,000. */
  lemma DroppedIffOverrun(ss: seq<State>, es: seq<Event>, end: nat, i: nat)
    requires IsRun(ss, es) && end < |ss| && i < |ss[end].fates|
    ensures ss[end].fates[i] == Dropped <==> exists k: nat :: k < end && Overrun(ss, es, k, i)
  {
    if ss[end].fates[i] == Dropped {
      var k := DecidingStep(ss, es, end, i);
      RunInv(ss, es, k);
      DropNeedsFullQueue(ss[k], es[k]);
      assert Overrun(ss, es, k, i);
    }
    if k: nat :| k < end && Overrun(ss, es, k, i) {
      RunInv(ss, es, k);
      HistoriesGrow(ss, es, k + 1, end);
      assert ss[k + 1].fates[i] == Dropped;
    }
  }

  lemma StepDecidesOne(s: State, e: Event)
    requires Enabled(s, e)
    ensures s.fates <= Apply(s, e).fates && |Apply(s, e).fates| <= |s.fates| + 1
  {
  }

  /** The one step of the run at which the fate of message `i` was decided. */
  lemma {:induction false} DecidingStep(ss: seq<State>, es: seq<Event>, end: nat, i: nat) returns (k: nat)
    requires IsRun(ss, es) && end < |ss| && i < |ss[end].fates|
    ensures k < end && |ss[k].fates| == i && ss[k + 1].fates == ss[k].fates + [ss[end].fates[i]]
    decreases end
  {
    hide Apply, Enabled;
    assert ss[end] == Apply(ss[end - 1], es[end - 1]);
    StepDecidesOne(ss[end - 1], es[end - 1]);
    if i < |ss[end - 1].fates| {
      k := DecidingStep(ss, es, end - 1, i);
    } else {
      k := end - 1;
    }
  }

  // ----- shutdown -----

  /** The flag has been set and then cleared. */
  predicate StopRequested(s: State) {
    !s.running && s.main != Fresh
  }

  lemma StepAfterStop(s: State, e: Event)
    requires Inv(s) && Enabled(s, e) && StopRequested(s)
    ensures var s' := Apply(s, e);
            StopRequested(s') && |s'.accepted| + PushesPending(s') <= |s.accepted| + PushesPending(s)
  {
  }

  /** Once cleared, the flag stays clear and at most the one message the UART thread was already
      handling is still pushed. */
  lemma {:induction false} AtMostOnePushAfterStop(ss: seq<State>, es: seq<Event>, i: nat, j: nat)
    requires IsRun(ss, es) && i <= j < |ss| && StopRequested(ss[i])
    ensures StopRequested(ss[j])
    ensures |ss[j].accepted| + PushesPending(ss[j]) <= |ss[i].accepted| + PushesPending(ss[i])
    ensures |ss[j].accepted| <= |ss[i].accepted| + 1
    decreases j - i
  {
    hide Apply, Enabled, Inv, StopRequested;
    if i < j {
      AtMostOnePushAfterStop(ss, es, i, j - 1);
      RunInv(ss, es, j - 1);
      StepAfterStop(ss[j - 1], es[j - 1]);
    }
  }

  /** Step `e` of the run is the publish thread leaving its loop. */
  ghost predicate PublisherExits(ss: seq<State>, es: seq<Event>, e: nat)
    requires |ss| == |es| + 1
  {
    e < |es| && es[e].PublisherReadsEmpty? && ss[e + 1].publisher.PublisherDone?
  }

  /** When the publish thread leaves its loop, every message accepted so far has been published or
      dropped as the oldest; nothing is queued or in flight. */
  lemma NothingLeftAtPublisherExit(ss: seq<State>, es: seq<Event>, e: nat)
    requires IsRun(ss, es) && PublisherExits(ss, es, e)
    ensures var s := ss[e + 1];
            && s.queue == []
            && |s.fates| == |s.accepted|
            && multiset(s.accepted) == multiset(s.published) + multiset(s.dropped)
  {
    RunInv(ss, es, e + 1);
    Conservation(ss, es, e + 1);
  }

  /** After its exit the publish thread decides no further fate: the queue can only grow. */
  lemma StepAfterPublisherExit(s: State, e: Event)
    requires Inv(s) && Enabled(s, e) && s.publisher.PublisherDone?
    ensures var s' := Apply(s, e);
            s'.publisher.PublisherDone? && s'.published == s.published && s'.fates == s.fates
  {
  }

  lemma {:induction false} PublisherStaysDone(ss: seq<State>, es: seq<Event>, i: nat, j: nat)
    requires IsRun(ss, es) && i <= j < |ss| && ss[i].publisher.PublisherDone?
    ensures ss[j].publisher.PublisherDone? && ss[j].published == ss[i].published && ss[j].fates == ss[i].fates
    decreases j - i
  {
    hide Apply, Enabled, Inv;
    if i < j {
      PublisherStaysDone(ss, es, i, j - 1);
      RunInv(ss, es, j - 1);
      StepAfterPublisherExit(ss[j - 1], es[j - 1]);
    }
  }

  /** Shutdown safety. After the publish thread has left, what stays queued is exactly what was
      accepted after its last look at the queue, and that is at most one message. It is nothing at
      all if the UART thread had ended before that look. */
  lemma StrandedExactlyTheLatePush(ss: seq<State>, es: seq<Event>, e: nat, j: nat)
    requires IsRun(ss, es) && PublisherExits(ss, es, e) && e < j < |ss|
    ensures |ss[e + 1].accepted| <= |ss[j].accepted|
    ensures ss[j].queue == ss[j].accepted[|ss[e + 1].accepted|..]
    ensures |ss[j].queue| <= 1
    ensures ss[e].uart.UartDone? ==> ss[j].queue == []
  {
    NothingLeftAtPublisherExit(ss, es, e);
    PublisherStaysDone(ss, es, e + 1, j);
    HistoriesGrow(ss, es, e + 1, j);
    RunInv(ss, es, e);
    RunInv(ss, es, j);
    if ss[e].uart.UartDone? {
      AtMostOnePushAfterStop(ss, es, e + 1, j);
    }
  }

  /** When `stop()` has joined both threads, both have ended, the flag is clear, and all accepted
      messages but at most one newest one were published or dropped. */
  lemma StopJoinsBoth(ss: seq<State>, es: seq<Event>, i: nat)
    requires IsRun(ss, es) && i < |ss| && ss[i].main.Stopped?
    ensures var s := ss[i];
            && s.uart.UartDone? && s.publisher.PublisherDone? && !s.running && s.stopped
            && |s.queue| <= 1
            && multiset(s.accepted) == multiset(s.published) + multiset(s.dropped) + multiset(s.queue)
  {
    RunInv(ss, es, i);
    Conservation(ss, es, i);
  }

  /** `stop()`, also when the destructor calls it, returns at its first test exactly when the gateway
      was never started or its UART thread has ended. On a started gateway that no `stop()` has
      stopped, the thread then ended by itself, and nothing is joined. */
  lemma EarlyReturnIffNoUartThread(ss: seq<State>, es: seq<Event>, k: nat)
    requires IsRun(ss, es) && k < |es| && es[k].StopReadsFlag?
    ensures !ss[k + 1].main.Clearing? <==> ss[k].main.Fresh? || ss[k].uart.UartDone?
    ensures ss[k].main.Started? ==> (ss[k + 1].main.ReturnedEarly? <==> ss[k].uart.UartDone?)
    ensures !ss[k].main.Started? ==> ss[k + 1] == ss[k]
  {
    RunInv(ss, es, k);
  }

  /** Such an early return is reachable, and leaves the publish thread running, not joined. `stop()`
      may be called before the start and again after it. */
  lemma StopCanReturnEarly() returns (s: State)
    ensures Reachable(s)
    ensures s.main.ReturnedEarly? && s.uart.UartDone? && s.publisher.RunningTest? && !s.stopped
  {
    s := Initial;
    assert IsRunTo([s], [], s);
    s := ReachableStep(s, StopReadsFlag);
    s := ReachableStep(s, SetRunning);
    s := ReachableStep(s, SpawnUart);
    s := ReachableStep(s, SpawnPublisher);
    s := ReachableStep(s, UartTest);
    s := ReachableStep(s, UartClosed);
    s := ReachableStep(s, StopReadsFlag);
    s := ReachableStep(s, StopReadsFlag);
  }

  // ----- the bound of one stranded message is reached -----

  ghost predicate IsRunTo(ss: seq<State>, es: seq<Event>, s: State) {
    IsRun(ss, es) && ss[|es|] == s
  }

  ghost predicate Reachable(s: State) {
    exists ss, es :: IsRunTo(ss, es, s)
  }

  lemma ReachableStep(s: State, e: Event) returns (s': State)
    requires Reachable(s) && Enabled(s, e)
    ensures Reachable(s') && s' == Apply(s, e)
  {
    var ss, es :| IsRunTo(ss, es, s);
    s' := Apply(s, e);
    assert IsRunTo(ss + [s'], es + [e], s');
  }

  /** The publish thread can leave while the UART thread is still inside a read. */
  lemma PublisherCanLeaveDuringRead() returns (s: State)
    ensures Reachable(s)
    ensures s == Initial.(main := JoiningUart, stopped := false, uart := InRead, publisher := PublisherDone)
  {
    s := Initial;
    assert IsRunTo([s], [], s);
    s := ReachableStep(s, SetRunning);
    s := ReachableStep(s, SpawnUart);
    s := ReachableStep(s, SpawnPublisher);
    s := ReachableStep(s, UartTest);
    s := ReachableStep(s, StopReadsFlag);
    s := ReachableStep(s, StopClearsFlag);
    s := ReachableStep(s, PublisherReadsRunning);
    s := ReachableStep(s, PublisherReadsEmpty);
  }

  /** The bound of one is reached: some run strands whatever that read delivers. */
  lemma OneMessageCanBeStranded(bbo: Bbo) returns (s: State)
    ensures Reachable(s)
    ensures s.main.Stopped? && s.queue == [bbo] && s.published == [] && s.dropped == []
  {
    s := PublisherCanLeaveDuringRead();
    s := ReachableStep(s, UartRead(Valid(bbo)));
    s := ReachableStep(s, UartPush);
    s := ReachableStep(s, UartTest);
    s := ReachableStep(s, JoinUart);
    s := ReachableStep(s, JoinPublisher);
    s := ReachableStep(s, StopReadsFlag);
  }

  // ----- the drain terminates -----

  /** The UART thread has ended, the flag is clear and the publish thread still runs. */
  predicate Draining(s: State) {
    s.uart.UartDone? && !s.running && !s.publisher.PublisherIdle? && !s.publisher.PublisherDone?
  }

  /** Publisher steps still to come while draining: four a message, plus the way out. */
  function DrainSteps(s: State): nat {
    4 * |s.queue| +
    match s.publisher
    case InPublish(_) => 3
    case RunningTest => 2
    case EmptyTest => 1
    case Waiting => if s.queue == [] then 3 else 0
    case PublisherIdle => 0
    case PublisherDone => 0
  }

  /** While draining the publish thread can always take a step without waiting for its timeout. */
  lemma DrainNeverBlocks(s: State)
    requires Draining(s)
    ensures exists e :: IsPublisherEvent(e) && Enabled(s, e) && e != PublisherWakes(true)
  {
    var e := match s.publisher
      case RunningTest => PublisherReadsRunning
      case EmptyTest => PublisherReadsEmpty
      case Waiting => PublisherWakes(false)
      case _ => PublisherPublishes;
    assert IsPublisherEvent(e) && Enabled(s, e);
  }

  function PublisherStepCount(es: seq<Event>): nat {
    if es == [] then 0
    else PublisherStepCount(es[..|es| - 1]) + (if IsPublisherEvent(es[|es| - 1]) then 1 else 0)
  }

  lemma DrainStep(s: State, e: Event)
    requires Inv(s) && Draining(s) && Enabled(s, e)
    ensures var s' := Apply(s, e);
            && (Draining(s') || s'.publisher.PublisherDone?)
            && DrainSteps(s') + (if IsPublisherEvent(e) then 1 else 0) <= DrainSteps(s)
            && s'.published + InFlight(s') + s'.queue == s.published + InFlight(s) + s.queue
            && (s'.publisher.PublisherDone? ==> s'.uart.UartDone? && s'.queue == [])
  {
    if e.PublisherWakes? && s.queue != [] {
      assert s.queue == [s.queue[0]] + s.queue[1..];
    }
  }

  lemma DoneStep(s: State, e: Event)
    requires Inv(s) && s.publisher.PublisherDone? && s.uart.UartDone? && Enabled(s, e)
    ensures var s' := Apply(s, e);
            && s'.publisher.PublisherDone? && s'.uart.UartDone? && s'.queue == s.queue && s'.published == s.published
            && !IsPublisherEvent(e)
  {
  }

  lemma DrainBound(s: State)
    requires Draining(s)
    ensures DrainSteps(s) <= 4 * |s.queue| + 3 && !s.publisher.PublisherDone?
  {
  }

  /** From a draining state, every run spends at most four publisher steps a queued message plus
      three, and when the publish thread has ended everything it had left was published in order. */
  lemma {:induction false} DrainTerminates(ss: seq<State>, es: seq<Event>, i: nat, j: nat)
    requires IsRun(ss, es) && i <= j < |ss| && Draining(ss[i])
    ensures Draining(ss[j]) || (ss[j].publisher.PublisherDone? && ss[j].uart.UartDone? && ss[j].queue == [])
    ensures PublisherStepCount(es[i..j]) + DrainSteps(ss[j]) <= DrainSteps(ss[i])
    ensures PublisherStepCount(es[i..j]) <= 4 * |ss[i].queue| + 3
    ensures ss[j].published + InFlight(ss[j]) + ss[j].queue == ss[i].published + InFlight(ss[i]) + ss[i].queue
    ensures ss[j].publisher.PublisherDone? ==>
              ss[j].published == ss[i].published + InFlight(ss[i]) + ss[i].queue
    decreases j - i
  {
    hide Apply, Enabled, Inv, Draining;
    DrainBound(ss[i]);
    if i < j {
      DrainTerminates(ss, es, i, j - 1);
      RunInv(ss, es, j - 1);
      assert es[i..j][..j - i - 1] == es[i..j - 1];
      if Draining(ss[j - 1]) {
        DrainStep(ss[j - 1], es[j - 1]);
      } else {
        DoneStep(ss[j - 1], es[j - 1]);
      }
      if ss[j].publisher.PublisherDone? {
        assert InFlight(ss[j]) == [] && ss[j].queue == [];
        assert ss[j].published + [] + [] == ss[j].published;
      }
    } else {
      assert es[i..j] == [];
    }
  }
}
