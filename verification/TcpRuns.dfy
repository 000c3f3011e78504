/** Whole-run theorems about the TCP fan-out, and the server object itself. */
module TcpRuns {
  import opened Sequences
  import opened TcpFanout

  ghost predicate IsRun(ss: seq<State>, es: seq<Event>) {
    && |ss| == |es| + 1
    && ss[0] == Initial
    && forall i :: 0 <= i < |es| ==> Enabled(ss[i], es[i]) && ss[i + 1] == Apply(ss[i], es[i])
  }

  lemma InitialInv()
    ensures Inv(Initial)
  {
  }

  lemma {:induction false} RunInv(ss: seq<State>, es: seq<Event>, i: nat)
    requires IsRun(ss, es) && i < |ss|
    ensures Inv(ss[i])
  {
    hide Inv, Apply, Enabled;
    if i == 0 {
      InitialInv();
    } else {
      RunInv(ss, es, i - 1);
      StepKeepsInv(ss[i - 1], es[i - 1]);
    }
  }

  /** The client list never holds a closed socket, so the pruning pass of a broadcast removes
      nothing; and a posted handler always finds its client, so it is never stuck. */
  lemma PruningRemovesNothing(ss: seq<State>, es: seq<Event>, i: nat)
    requires IsRun(ss, es) && i < |ss|
    ensures OnlyOpen(ss[i], ss[i].clients) == ss[i].clients
    ensures forall c :: c in ss[i].clients <==> IsOpen(ss[i], c)
    ensures ss[i].posted != [] ==> Enabled(ss[i], RunWrite(false))
    ensures ss[i].toPost != [] ==> Enabled(ss[i], PostOne)
  {
    RunInv(ss, es, i);
    OnlyOpenKeepsAll(ss[i], ss[i].clients);
  }

  /** Nothing but the broadcasts waits: whatever is under way, a new client can be accepted or fail to
      be, and the oldest handler can run, also with success while its client is open. */
  lemma HandlersNeverWait(ss: seq<State>, es: seq<Event>, i: nat, socket: Socket)
    requires IsRun(ss, es) && i < |ss|
    ensures socket in ss[i].history || Enabled(ss[i], Accept(socket))
    ensures Enabled(ss[i], AcceptFailed)
    ensures ss[i].posted != [] && IsOpen(ss[i], ss[i].posted[0].socket) ==> Enabled(ss[i], RunWrite(true))
    ensures forall message :: ss[i].toPost == [] ==> Enabled(ss[i], BeginBroadcast(message))
  {
    RunInv(ss, es, i);
  }

  // ----- what one step does to a client that has joined -----

  lemma StepKeepsClient(s: State, e: Event, c: Socket)
    requires Enabled(s, e) && c in s.history
    ensures var s' := Apply(s, e);
            && c in s'.history
            && s'.history[c].joined == s.history[c].joined
            && s.history[c].delivered <= s'.history[c].delivered
            && (s.history[c].closed.Some? ==> s'.history[c] == s.history[c])
            && s.broadcasts <= s'.broadcasts
  {
  }

  lemma {:induction false} ClientKeeps(ss: seq<State>, es: seq<Event>, i: nat, j: nat, c: Socket)
    requires IsRun(ss, es) && i <= j < |ss| && c in ss[i].history
    ensures c in ss[j].history
    ensures ss[j].history[c].joined == ss[i].history[c].joined
    ensures ss[i].history[c].delivered <= ss[j].history[c].delivered
    ensures ss[i].history[c].closed.Some? ==> ss[j].history[c] == ss[i].history[c]
    ensures ss[i].broadcasts <= ss[j].broadcasts
    decreases j - i
  {
    hide Apply, Enabled;
    if i < j {
      ClientKeeps(ss, es, i, j - 1, c);
      StepKeepsClient(ss[j - 1], es[j - 1], c);
    }
  }

  // ----- per-client delivery -----

  /** The texts successfully written to `c`, in the order of the writes. */
  function Received(s: State, c: Socket): seq<string>
    requires c in s.history
  {
    var d := s.history[c].delivered;
    seq(|d|, i requires 0 <= i < |d| => if d[i] < |s.broadcasts| then s.broadcasts[d[i]] else "")
  }

  lemma ReceivedRun(s: State, c: Socket)
    requires c in s.history && ClientInv(s.history[c], Pending(s, c), |s.broadcasts|)
    ensures var cl := s.history[c];
            && cl.joined + |cl.delivered| <= |s.broadcasts|
            && cl.delivered == Range(cl.joined, cl.joined + |cl.delivered|)
            && Received(s, c) == s.broadcasts[cl.joined..cl.joined + |cl.delivered|]
            && (cl.closed.None? && Pending(s, c) == [] ==> cl.joined + |cl.delivered| == |s.broadcasts|)
  {
    hide Pending;
  }

  lemma Joins(s: State, c: Socket)
    requires Enabled(s, Accept(c))
    ensures var s' := Apply(s, Accept(c)); c in s'.history && s'.history[c].joined == |s.broadcasts|
  {
  }

  /** Per-client delivery: what a client received is one gap-free, duplicate-free, in-order run of
      the broadcast texts, starting at the first broadcast begun after the client was added; and it
      is all of them when the client is open and nothing is outstanding. */
  lemma DeliveryIsContiguous(ss: seq<State>, es: seq<Event>, i: nat, j: nat, c: Socket)
    requires IsRun(ss, es) && i < j < |ss| && es[i] == Accept(c)
    ensures c in ss[j].history
    ensures var from, n := |ss[i].broadcasts|, |ss[j].history[c].delivered|;
            && from + n <= |ss[j].broadcasts|
            && ss[j].history[c].delivered == Range(from, from + n)
            && Received(ss[j], c) == ss[j].broadcasts[from..from + n]
            && (IsOpen(ss[j], c) && Pending(ss[j], c) == [] ==> from + n == |ss[j].broadcasts|)
  {
    hide Apply, Enabled, Pending, Received, ClientInv;
    assert ss[i + 1] == Apply(ss[i], es[i]) && Enabled(ss[i], es[i]);
    Joins(ss[i], c);
    ClientKeeps(ss, es, i + 1, j, c);
    RunInv(ss, es, j);
    ReceivedRun(ss[j], c);
  }

  /** Step `k` is the first write to `c` that fails. */
  ghost predicate FirstFailure(ss: seq<State>, es: seq<Event>, k: nat, c: Socket)
    requires |ss| == |es| + 1
  {
    k < |es| && es[k] == RunWrite(false) && ss[k].posted != [] && ss[k].posted[0].socket == c && IsOpen(ss[k], c)
  }

  /** The first failed write ends a client's run for good: the run stops right before the message
      whose write failed, and no broadcast begun after the close is addressed to the client. */
  lemma FirstFailureEndsDelivery(ss: seq<State>, es: seq<Event>, k: nat, j: nat, c: Socket)
    requires IsRun(ss, es) && k < j < |ss| && FirstFailure(ss, es, k, c)
    ensures c in ss[j].history
    ensures var cl, failed := ss[j].history[c], ss[k].posted[0].index;
            && cl.delivered == ss[k].history[c].delivered == Range(cl.joined, failed)
            && c !in ss[j].clients
            && (forall q :: q in ss[j].posted && q.socket == c ==> failed < q.index < |ss[k].broadcasts|)
            && (c in ss[j].toPost ==> |ss[j].broadcasts| == |ss[k].broadcasts|)
  {
    hide Apply, Enabled, Pending, ClientInv;
    RunInv(ss, es, k);
    RunInv(ss, es, j);
    assert ss[k + 1] == Apply(ss[k], es[k]) && Enabled(ss[k], es[k]);
    FailureRecorded(ss[k], es[k]);
    ClientKeeps(ss, es, k + 1, j, c);
    forall q | q in ss[j].posted && q.socket == c
      ensures ss[k].posted[0].index < q.index < |ss[k].broadcasts|
    {
      PostToClosed(ss[j], q);
    }
    ClosedInTheRunningBroadcast(ss[j], c);
  }

  lemma FailureRecorded(s: State, e: Event)
    requires Inv(s) && e == RunWrite(false) && Enabled(s, e) && IsOpen(s, s.posted[0].socket)
    ensures var p, s' := s.posted[0], Apply(s, e);
            && p.socket in s'.history
            && s'.history[p.socket].closed == Some(Closing(p.index, |s.broadcasts|))
            && s'.history[p.socket].delivered == s.history[p.socket].delivered
            && s'.history[p.socket].delivered == Range(s'.history[p.socket].joined, p.index)
  {
    hide ListsInv;
    var p := s.posted[0];
    assert ClientInv(s.history[p.socket], Pending(s, p.socket), |s.broadcasts|);
    assert Pending(s, p.socket)[0] == p.index;
  }

  /** A message still posted to a closed client is a later one, broadcast before the close. */
  lemma PostToClosed(s: State, q: Post)
    requires Inv(s) && q in s.posted && q.socket in s.history && s.history[q.socket].closed.Some?
    ensures var closing := s.history[q.socket].closed.value;
            closing.failed < q.index < closing.closedAt
  {
    hide ListsInv;
    PostIsPending(s.posted, q);
    var pending := Pending(s, q.socket);
    assert q.index in pending;
    assert ClientInv(s.history[q.socket], pending, |s.broadcasts|);
  }

  lemma ClosedInTheRunningBroadcast(s: State, c: Socket)
    requires Inv(s) && c in s.history && s.history[c].closed.Some?
    ensures c in s.toPost ==> |s.broadcasts| == s.history[c].closed.value.closedAt
    ensures c !in s.clients
  {
    assert !IsOpen(s, c);
    var pending := Pending(s, c);
    assert ClientInv(s.history[c], pending, |s.broadcasts|);
    if c in s.toPost {
      assert pending[|pending| - 1] == |s.broadcasts| - 1;
    }
  }

  lemma {:induction false} PostIsPending(posted: seq<Post>, q: Post)
    requires q in posted
    ensures q.index in IndicesFor(posted, q.socket)
  {
    if posted[0] != q {
      assert posted == [posted[0]] + posted[1..];
      PostIsPending(posted[1..], q);
    }
  }

  // ----- the server object -----

  class TcpServer {
    var clientSockets: seq<Socket>
    var closedSockets: set<Socket>
    var clientsCopy: seq<Socket>   // what the running broadcast still has to post to
    var handlers: seq<Post>        // the io_context's queue
    var messages: nat              // names the running broadcast's shared message: number messages - 1
    ghost var view: State

    ghost predicate Valid()
      reads this
    {
      && Inv(view)
      && clientSockets == view.clients && clientsCopy == view.toPost && handlers == view.posted
      && messages == |view.broadcasts|
      && forall c :: c in view.history ==> (c in closedSockets <==> view.history[c].closed.Some?)
    }

    constructor ()
      ensures Valid() && view == Initial
    {
      clientSockets, clientsCopy, handlers, messages := [], [], [], 0;
      closedSockets := {};
      view := Initial;
    }

    method OnAccept(socket: Socket)
      requires Valid() && Enabled(view, Accept(socket)) && socket !in closedSockets
      modifies this
      ensures Valid() && view == Apply(old(view), Accept(socket))
      ensures closedSockets == old(closedSockets)
    {
      hide Inv, Without;
      StepKeepsInv(view, Accept(socket));
      clientSockets := clientSockets + [socket];
      view := Apply(view, Accept(socket));
    }

    /** The locked section of `broadcast`: drop closed sockets and copy the open ones. */
    method PruneAndCopy(message: string)
      requires Valid() && Enabled(view, BeginBroadcast(message))
      modifies this
      ensures Valid() && view == Apply(old(view), BeginBroadcast(message))
      ensures closedSockets == old(closedSockets)
    {
      hide Inv, OnlyOpen;
      StepKeepsInv(view, BeginBroadcast(message));
      ClientsAreKnown(view);
      clientSockets, clientsCopy := Prune(clientSockets, closedSockets, view);
      messages := messages + 1;
      view := Apply(view, BeginBroadcast(message));
    }

    /** One iteration of the posting loop. */
    method PostNext()
      requires Valid() && Enabled(view, PostOne)
      modifies this
      ensures Valid() && view == Apply(old(view), PostOne)
      ensures closedSockets == old(closedSockets)
    {
      hide Inv, Without;
      StepKeepsInv(view, PostOne);
      handlers := handlers + [Post(clientsCopy[0], messages - 1)];
      clientsCopy := clientsCopy[1..];
      view := Apply(view, PostOne);
    }

    /** The posted handler: a write, and on an error the removal of its client. */
    method RunHandler(ok: bool)
      requires Valid() && Enabled(view, RunWrite(ok))
      modifies this
      ensures Valid() && view == Apply(old(view), RunWrite(ok))
      ensures closedSockets == old(closedSockets) + (if ok then {} else {old(handlers)[0].socket})
    {
      hide Inv, Without;
      StepKeepsInv(view, RunWrite(ok));
      var socket := handlers[0].socket;
      handlers := handlers[1..];
      if !ok {
        closedSockets := closedSockets + {socket};
        clientSockets := Remove(clientSockets, socket);
      }
      view := Apply(view, RunWrite(ok));
    }
  }

  lemma ClientsAreKnown(s: State)
    requires Inv(s)
    ensures forall c :: c in s.clients ==> c in s.history
  {
    assert forall c :: c in s.clients ==> IsOpen(s, c);
  }

  lemma OnlyOpenOfNone(s: State)
    ensures OnlyOpen(s, []) == []
  {
  }

  lemma OnlyOpenNext(s: State, clients: seq<Socket>, i: nat)
    requires i < |clients|
    ensures OnlyOpen(s, clients[..i + 1])
         == OnlyOpen(s, clients[..i]) + (if IsOpen(s, clients[i]) then [clients[i]] else [])
  {
    assert clients[..i + 1][..i] == clients[..i];
  }

  lemma Examined(copy: seq<Socket>, clients: seq<Socket>, seen: nat)
    requires seen < |clients|
    ensures var kept := copy + clients[seen..];
            && kept[|copy|] == clients[seen] && clients[seen] in clients
            && kept[..|copy|] == copy && kept[|copy| + 1..] == clients[seen + 1..]
            && kept == (copy + [kept[|copy|]]) + clients[seen + 1..]
  {
  }

  /** The pass over the client list: erase a closed socket, copy an open one. */
  method Prune(clients: seq<Socket>, closed: set<Socket>, ghost s: State) returns (kept: seq<Socket>, copy: seq<Socket>)
    requires forall c :: c in clients ==> (IsOpen(s, c) <==> c !in closed)
    ensures kept == copy == OnlyOpen(s, clients)
  {
    hide IsOpen, OnlyOpen;
    kept, copy := clients, [];
    OnlyOpenOfNone(s);
    var it := 0;
    ghost var seen := 0;
    while it < |kept|
      invariant 0 <= seen <= |clients| && it == |copy|
      invariant kept == copy + clients[seen..]
      invariant clients[..0] == []
      invariant copy == OnlyOpen(s, clients[..seen])
      decreases |kept| - it
    {
      OnlyOpenNext(s, clients, seen);
      Examined(copy, clients, seen);
      if kept[it] !in closed {
        copy := copy + [kept[it]];
        it := it + 1;
      } else {
        kept := kept[..it] + kept[it + 1..];
      }
      seen := seen + 1;
    }
    assert clients[..seen] == clients;
  }

  /** `std::find` and `erase`. */
  method Remove(clients: seq<Socket>, c: Socket) returns (r: seq<Socket>)
    ensures r == Without(clients, c)
  {
    var i := 0;
    while i < |clients| && clients[i] != c
      invariant 0 <= i <= |clients|
      invariant c !in clients[..i]
    {
      assert clients[..i + 1] == clients[..i] + [clients[i]];
      i := i + 1;
    }
    WithoutAt(clients, c, i);
    r := if i < |clients| then clients[..i] + clients[i + 1..] else clients;
  }

  lemma {:induction false} WithoutBehind(a: seq<Socket>, tail: seq<Socket>, c: Socket)
    requires c !in a
    ensures Without(a + tail, c) == a + Without(tail, c)
  {
    if a == [] {
      assert a + tail == tail;
    } else {
      var x, rest := a[0], a[1..];
      WithoutBehind(rest, tail, c);
      assert a + tail == [x] + (rest + tail);
      WithoutNext(x, rest + tail, c);
      assert [x] + (rest + Without(tail, c)) == a + Without(tail, c);
    }
  }

  lemma WithoutNext(x: Socket, rest: seq<Socket>, c: Socket)
    requires x != c
    ensures Without([x] + rest, c) == [x] + Without(rest, c)
  {
    assert ([x] + rest)[1..] == rest;
  }

  lemma WithoutAt(clients: seq<Socket>, c: Socket, i: nat)
    requires i <= |clients| && c !in clients[..i]
    requires i < |clients| ==> clients[i] == c
    ensures Without(clients, c) == if i < |clients| then clients[..i] + clients[i + 1..] else clients
  {
    assert clients == clients[..i] + clients[i..];
    WithoutBehind(clients[..i], clients[i..], c);
  }
}
