/** The gateway object: its shared fields, and one method for each atomic section of its threads.
    Each method is one step of GatewayProtocol. */
module OrderGatewayObject {
  import opened BboTypes
  import opened GatewayProtocol
  import opened GatewayRuns
  import opened Sequences

  class OrderGateway {
    var running: bool
    var stopped: bool
    var bboQueue: seq<Bbo>
    ghost var view: State  // the shared fields, the program counters and the histories

    ghost predicate Valid()
      reads this
    {
      Inv(view) && running == view.running && stopped == view.stopped && bboQueue == view.queue
    }

    constructor ()
      ensures Valid() && view == Initial
    {
      running, stopped, bboQueue := false, true, [];
      view := Initial;
    }

    // ----- main thread -----

    method MarkRunning()
      requires Valid() && Enabled(view, SetRunning)
      modifies this
      ensures Valid() && view == Apply(old(view), SetRunning)
    {
      StepKeepsInv(view, SetRunning);
      running := true;
      stopped := false;
      view := Apply(view, SetRunning);
    }

    method StopFindsFlagClear() returns (clear: bool)
      requires Valid() && Enabled(view, StopReadsFlag)
      modifies this
      ensures Valid() && view == Apply(old(view), StopReadsFlag)
      ensures clear <==> !view.main.Clearing?
      ensures clear <==> old(view.main.Fresh? || view.uart.UartDone?)
    {
      StepKeepsInv(view, StopReadsFlag);
      clear := !running;
      view := Apply(view, StopReadsFlag);
    }

    method StopClearFlag()
      requires Valid() && Enabled(view, StopClearsFlag)
      modifies this
      ensures Valid() && view == Apply(old(view), StopClearsFlag)
    {
      StepKeepsInv(view, StopClearsFlag);
      running := false;
      view := Apply(view, StopClearsFlag);
    }

    method MarkStopped()
      requires Valid() && Enabled(view, JoinPublisher)
      modifies this
      ensures Valid() && view == Apply(old(view), JoinPublisher)
    {
      StepKeepsInv(view, JoinPublisher);
      stopped := true;
      view := Apply(view, JoinPublisher);
    }

    /** Steps that touch no shared field: starting a thread, the first join, a read that returns or is
        retried. */
    ghost method LocalStep(e: Event)
      requires Valid() && Enabled(view, e)
      requires e.SpawnUart? || e.SpawnPublisher? || e.JoinUart? || e.UartRead? || e.UartRetry?
      modifies this`view
      ensures Valid() && view == Apply(old(view), e)
    {
      StepKeepsInv(view, e);
      view := Apply(view, e);
    }

    // ----- UART thread -----

    method UartLoopTest() returns (go: bool)
      requires Valid() && Enabled(view, UartTest)
      modifies this
      ensures Valid() && view == Apply(old(view), UartTest)
      ensures go <==> view.uart.InRead?
    {
      StepKeepsInv(view, UartTest);
      go := running;
      view := Apply(view, UartTest);
    }

    method UartPortClosed()
      requires Valid() && Enabled(view, UartClosed)
      modifies this
      ensures Valid() && view == Apply(old(view), UartClosed)
    {
      StepKeepsInv(view, UartClosed);
      running := false;
      view := Apply(view, UartClosed);
    }

    /** The locked section that enqueues one message. */
    method Push(bbo: Bbo)
      requires Valid() && view.uart == ReadyToPush(bbo)
      modifies this
      ensures Valid() && view == Apply(old(view), UartPush)
      ensures |old(bboQueue)| < 10000 ==> bboQueue == old(bboQueue) + [bbo]
      ensures |old(bboQueue)| == 10000 ==> bboQueue == old(bboQueue)[1..] + [bbo]
    {
      StepKeepsInv(view, UartPush);
      if |bboQueue| >= MAX_QUEUE_SIZE {
        bboQueue := bboQueue[1..];
      }
      bboQueue := bboQueue + [bbo];
      view := Apply(view, UartPush);
    }

    // ----- publish thread -----

    method ReadRunning() returns (r: bool)
      requires Valid() && Enabled(view, PublisherReadsRunning)
      modifies this
      ensures Valid() && view == Apply(old(view), PublisherReadsRunning)
      ensures r == running
    {
      StepKeepsInv(view, PublisherReadsRunning);
      r := running;
      view := Apply(view, PublisherReadsRunning);
    }

    method ReadEmpty() returns (empty: bool)
      requires Valid() && Enabled(view, PublisherReadsEmpty)
      modifies this
      ensures Valid() && view == Apply(old(view), PublisherReadsEmpty)
      ensures empty <==> bboQueue == []
    {
      StepKeepsInv(view, PublisherReadsEmpty);
      empty := bboQueue == [];
      view := Apply(view, PublisherReadsEmpty);
    }

    /** The locked section that waits for data, shutdown or the timeout and then takes the head. */
    method WaitAndTake(timedOut: bool) returns (bbo: Option<Bbo>)
      requires Valid() && Enabled(view, PublisherWakes(timedOut))
      modifies this
      ensures Valid() && view == Apply(old(view), PublisherWakes(timedOut))
      ensures bbo == if old(bboQueue) == [] then None else Some(old(bboQueue)[0])
      ensures bbo.Some? ==> view.publisher == InPublish(bbo.value)
    {
      StepKeepsInv(view, PublisherWakes(timedOut));
      bbo := None;
      if bboQueue != [] {
        bbo := Some(bboQueue[0]);
        bboQueue := bboQueue[1..];
      }
      view := Apply(view, PublisherWakes(timedOut));
    }

    method Publish(bbo: Bbo)
      requires Valid() && view.publisher == InPublish(bbo)
      modifies this
      ensures Valid() && view == Apply(old(view), PublisherPublishes)
    {
      StepKeepsInv(view, PublisherPublishes);
      view := Apply(view, PublisherPublishes);
    }

    /** The loop condition, evaluated after the UART thread has ended. */
    method DrainContinues() returns (go: bool)
      requires Valid() && Draining(view) && view.publisher.RunningTest?
      modifies this
      ensures Valid()
      ensures go <==> old(bboQueue) != []
      ensures view == old(view).(publisher := if go then Waiting else PublisherDone)
    {
      go := ReadRunning();
      if !go {
        var empty := ReadEmpty();
        go := !empty;
      }
    }

    /** The loop body, with a message to take. */
    method DrainOne()
      requires Valid() && Draining(view) && view.publisher.Waiting? && bboQueue != []
      modifies this
      ensures Valid() && Draining(view) && view.publisher.RunningTest?
      ensures bboQueue == old(bboQueue)[1..]
      ensures view.published == old(view.published) + [old(bboQueue)[0]]
      ensures view.accepted == old(view.accepted) && view.dropped == old(view.dropped)
    {
      var next := WaitAndTake(false);
      Publish(next.value);
    }

    /** The publish thread's whole loop, run after the UART thread has ended: it ends by itself,
        leaves the queue empty, and publishes the backlog in order. */
    method DrainLoop()
      requires Valid() && Draining(view) && view.publisher.RunningTest?
      modifies this
      ensures Valid() && view.publisher.PublisherDone? && bboQueue == []
      ensures view.published == old(view.published) + old(bboQueue)
      ensures view.accepted == old(view.accepted) && view.dropped == old(view.dropped)
    {
      var go := DrainContinues();
      while go
        invariant Valid() && (go <==> bboQueue != [])
        invariant go ==> Draining(view) && view.publisher.Waiting?
        invariant !go ==> view.publisher.PublisherDone?
        invariant view.published + bboQueue == old(view.published) + old(bboQueue)
        invariant view.accepted == old(view.accepted) && view.dropped == old(view.dropped)
        decreases |bboQueue|
      {
        DrainOne();
        go := DrainContinues();
      }
    }
  }
}
