/** After the flag is cleared: both threads end, without any timeout, and `stop()` returns. */
module GatewayStop {
  import opened BboTypes
  import opened GatewayProtocol
  import opened GatewayRuns
  import opened Sequences

  predicate IsUartEvent(e: Event) {
    e.UartTest? || e.UartRead? || e.UartRetry? || e.UartClosed? || e.UartPush?
  }

  // ----- the UART thread ends -----

  /** Its own steps still to come once the flag is clear, a blocked read counting as one step. */
  function UartSteps(s: State): nat {
    match s.uart
    case InRead => 3
    case ReadyToPush(_) => 2
    case LoopTest => 1
    case UartIdle => 0
    case UartDone => 0
  }

  function UartStepCount(es: seq<Event>): nat {
    if es == [] then 0
    else UartStepCount(es[..|es| - 1]) + (if IsUartEvent(es[|es| - 1]) then 1 else 0)
  }

  /** Each step of the thread uses up one of them, whatever a read delivers or however it fails; and
      unless it is done, the thread can step. */
  lemma UartStep(s: State, e: Event)
    requires Inv(s) && Enabled(s, e) && StopRequested(s) && !s.uart.UartIdle?
    ensures var s' := Apply(s, e);
            UartSteps(s') + (if IsUartEvent(e) then 1 else 0) <= UartSteps(s) && !s'.uart.UartIdle?
    ensures s.uart.UartDone? <==> UartSteps(s) == 0
  {
    hide QueueInv, ShutdownInv;
  }

  lemma UartNeverBlocks(s: State)
    requires Inv(s) && !s.uart.UartIdle? && !s.uart.UartDone?
    ensures exists e :: IsUartEvent(e) && Enabled(s, e)
  {
    var e := match s.uart
      case LoopTest => UartTest
      case InRead => UartRetry
      case _ => UartPush;
    assert IsUartEvent(e) && Enabled(s, e);
  }

  /** Once the flag has been cleared, the UART thread takes at most three more steps in any run, and
      has ended exactly when it has none left. */
  lemma {:induction false} UartTerminates(ss: seq<State>, es: seq<Event>, i: nat, j: nat)
    requires IsRun(ss, es) && i <= j < |ss| && StopRequested(ss[i]) && !ss[i].uart.UartIdle?
    ensures StopRequested(ss[j]) && !ss[j].uart.UartIdle?
    ensures UartStepCount(es[i..j]) + UartSteps(ss[j]) <= UartSteps(ss[i]) <= 3
    ensures UartStepCount(es[i..j]) >= UartSteps(ss[i]) ==> ss[j].uart.UartDone?
    decreases j - i
  {
    hide Apply, Enabled, Inv, StopRequested;
    if i < j {
      UartTerminates(ss, es, i, j - 1);
      RunInv(ss, es, j - 1);
      UartStep(ss[j - 1], es[j - 1]);
      StepAfterStop(ss[j - 1], es[j - 1]);
      assert es[i..j][..j - i - 1] == es[i..j - 1];
    } else {
      assert es[i..j] == [];
    }
  }

  /** The publish thread can always step, if need be by its timeout. */
  lemma PublisherNeverBlocks(s: State)
    requires !s.publisher.PublisherIdle? && !s.publisher.PublisherDone?
    ensures exists e :: IsPublisherEvent(e) && Enabled(s, e)
  {
    var e := match s.publisher
      case RunningTest => PublisherReadsRunning
      case EmptyTest => PublisherReadsEmpty
      case Waiting => PublisherWakes(true)
      case _ => PublisherPublishes;
    assert IsPublisherEvent(e) && Enabled(s, e);
  }

  // ----- stop() returns -----

  /** `stop()` has cleared the flag and not returned. */
  predicate Joining(s: State) {
    s.main.JoiningUart? || s.main.JoiningPublisher?
  }

  /** Steps still to come of all three threads until `stop()` returns. A push may give the publish
      thread one more round of four steps. */
  function StopSteps(s: State): nat {
    DrainSteps(s)
    + (match s.uart
       case InRead => 7
       case ReadyToPush(_) => 6
       case LoopTest => 1
       case UartIdle => 0
       case UartDone => 0)
    + (match s.main
       case JoiningUart => 2
       case JoiningPublisher => 1
       case _ => 0)
  }

  /** Every step of every thread uses up at least one. */
  lemma StopStep(s: State, e: Event)
    requires Inv(s) && Enabled(s, e) && Joining(s)
    ensures var s' := Apply(s, e); (Joining(s') || s'.main.Stopped?) && StopSteps(s') < StopSteps(s)
  {
  }

  /** While `stop()` waits, some thread can step without its timeout. */
  lemma StopNeverBlocks(s: State)
    requires Inv(s) && Joining(s)
    ensures exists e :: Enabled(s, e) && e != PublisherWakes(true)
  {
    hide QueueInv, ShutdownInv;
    if !s.uart.UartDone? {
      UartNeverBlocks(s);
    } else if s.main.JoiningUart? {
      assert Enabled(s, JoinUart);
    } else if s.publisher.PublisherDone? {
      assert Enabled(s, JoinPublisher);
    } else {
      DrainNeverBlocks(s);
    }
  }

  lemma StopBound(s: State)
    requires Inv(s) && Joining(s)
    ensures 1 <= StopSteps(s) <= 4 * |s.queue| + 12
  {
  }

  /** `stop()` returns. From the moment it has cleared the flag, every run of all threads together has
      at most four steps a queued message plus twelve before both joins are done; and until then some
      thread can step without waiting for a timeout. */
  lemma {:induction false} StopReturns(ss: seq<State>, es: seq<Event>, i: nat, j: nat)
    requires IsRun(ss, es) && i <= j < |ss| && ss[i].main.JoiningUart?
    ensures (exists k :: i <= k <= j && ss[k].main.Stopped?) || (Joining(ss[j]) && j - i + StopSteps(ss[j]) <= StopSteps(ss[i]))
    ensures j - i >= 4 * |ss[i].queue| + 12 ==> exists k :: i <= k <= j && ss[k].main.Stopped?
    ensures Joining(ss[j]) ==> exists e :: Enabled(ss[j], e) && e != PublisherWakes(true)
    decreases j - i
  {
    hide Apply, Enabled, Inv, StopSteps;
    RunInv(ss, es, i);
    StopBound(ss[i]);
    RunInv(ss, es, j);
    if Joining(ss[j]) {
      StopNeverBlocks(ss[j]);
      StopBound(ss[j]);
    }
    if i < j {
      StopReturns(ss, es, i, j - 1);
      if k :| i <= k <= j - 1 && ss[k].main.Stopped? {
        assert i <= k <= j && ss[k].main.Stopped?;
      } else {
        RunInv(ss, es, j - 1);
        StopStep(ss[j - 1], es[j - 1]);
      }
    }
  }
}
