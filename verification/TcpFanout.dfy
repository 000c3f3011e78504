/** The TCP server's fan-out. Accepts, broadcasts and posted writes interleave: broadcasting runs on
    the publish thread, everything else on the one thread of the io_context, which runs posted
    handlers first in, first out. A socket is a number; a closed socket fails every later write. */
module TcpFanout {
  import opened Sequences

  type Socket = nat

  /** A posted handler: write message `index` to `socket`. */
  datatype Post = Post(socket: Socket, index: nat)

  /** Fate of a client that has been accepted: `joined` messages had been broadcast before it, the
      writes `delivered` have succeeded, and once closed, `failed` is its first failed write and
      `closedAt` the number of broadcasts begun before it was closed. */
  datatype Client = Client(joined: nat, delivered: seq<nat>, closed: Option<Closing>)
  datatype Closing = Closing(failed: nat, closedAt: nat)

  /** `toPost` is the rest of the list the running broadcast still posts to. */
  datatype State = State(
    clients: seq<Socket>,
    toPost: seq<Socket>,
    posted: seq<Post>,
    broadcasts: seq<string>,
    history: map<Socket, Client>)

  const Initial: State := State([], [], [], [], map[])

  predicate IsOpen(s: State, c: Socket) {
    c in s.history && s.history[c].closed.None?
  }

  datatype Event =
    | Accept(socket: Socket)
    | AcceptFailed
    | BeginBroadcast(message: string)
    | PostOne
    | RunWrite(ok: bool)

  /** The last conjunct of the last two cases holds in every reachable state (NoStuckHandler). */
  predicate Enabled(s: State, e: Event) {
    match e
    case Accept(socket) => socket !in s.history
    case AcceptFailed => true
    case BeginBroadcast(_) => s.toPost == []
    case PostOne => s.toPost != [] && s.broadcasts != []
    case RunWrite(ok) =>
      s.posted != [] && (ok ==> IsOpen(s, s.posted[0].socket)) && s.posted[0].socket in s.history
  }

  /** The message a client receives: terminated by a newline unless empty. */
  function WithNewline(message: string): string {
    if message != "" && message[|message| - 1] != '\n' then message + "\n" else message
  }

  /** What is sent starts with the message and is, unless empty, ended by a newline, which is added
      only where there is none. */
  lemma WithNewlineMeaning(message: string)
    ensures var sent := WithNewline(message);
            && message <= sent && |sent| <= |message| + 1
            && (message == "" <==> sent == "")
            && (sent != "" ==> sent[|sent| - 1] == '\n')
            && WithNewline(sent) == sent
  {
  }

  /** The client list without closed sockets, in order. */
  function OnlyOpen(s: State, clients: seq<Socket>): seq<Socket> {
    if clients == [] then []
    else
      var n := |clients| - 1;
      OnlyOpen(s, clients[..n]) + (if IsOpen(s, clients[n]) then [clients[n]] else [])
  }

  function Without(clients: seq<Socket>, c: Socket): (r: seq<Socket>)
    ensures c !in clients ==> r == clients
  {
    if clients == [] then []
    else if clients[0] == c then clients[1..]
    else
      assert clients == [clients[0]] + clients[1..];
      [clients[0]] + Without(clients[1..], c)
  }

  function CloseClient(c: Client, failed: nat, closedAt: nat): Client {
    if c.closed.Some? then c else c.(closed := Some(Closing(failed, closedAt)))
  }

  function Apply(s: State, e: Event): State
    requires Enabled(s, e)
  {
    match e
    case Accept(socket) =>
      s.(clients := s.clients + [socket], history := s.history[socket := Client(|s.broadcasts|, [], None)])
    case AcceptFailed => s
    case BeginBroadcast(message) =>
      var open := OnlyOpen(s, s.clients);
      s.(clients := open, toPost := open, broadcasts := s.broadcasts + [WithNewline(message)])
    case PostOne =>
      s.(toPost := s.toPost[1..], posted := s.posted + [Post(s.toPost[0], |s.broadcasts| - 1)])
    case RunWrite(ok) =>
      var p := s.posted[0];
      var c := s.history[p.socket];
      if ok then
        s.(posted := s.posted[1..], history := s.history[p.socket := c.(delivered := c.delivered + [p.index])])
      else
        s.(posted := s.posted[1..],
           clients := Without(s.clients, p.socket),
           history := s.history[p.socket := CloseClient(c, p.index, |s.broadcasts|)])
  }

  // ----- the invariant -----

  /** The messages posted to `c` and not yet written. */
  function IndicesFor(posted: seq<Post>, c: Socket): seq<nat> {
    if posted == [] then []
    else (if posted[0].socket == c then [posted[0].index] else []) + IndicesFor(posted[1..], c)
  }

  /** What is still to be written to `c`: posted, or about to be by the running broadcast. */
  function Pending(s: State, c: Socket): seq<nat> {
    IndicesFor(s.posted, c) + (if c in s.toPost && s.broadcasts != [] then [|s.broadcasts| - 1] else [])
  }

  ghost predicate NoDuplicates(xs: seq<Socket>) {
    forall i, j :: 0 <= i < j < |xs| ==> xs[i] != xs[j]
  }

  ghost predicate ListsInv(s: State) {
    && NoDuplicates(s.clients)
    && NoDuplicates(s.toPost)
    && (forall c :: c in s.clients <==> IsOpen(s, c))
    && (forall c :: c in s.toPost ==> c in s.history)
    && (forall i :: 0 <= i < |s.posted| ==> s.posted[i].socket in s.history)
    && (s.toPost != [] ==> s.broadcasts != [])
  }

  /** After `b` broadcasts: an open client has been written everything from its joining up to what is
      pending, and all of the rest is pending; a closed one has been written everything up to its
      first failure, and only broadcasts begun before the close are still addressed to it. */
  ghost predicate ClientInv(cl: Client, pending: seq<nat>, b: nat) {
    match cl.closed
    case None =>
      && cl.joined + |cl.delivered| <= b
      && cl.delivered == Range(cl.joined, cl.joined + |cl.delivered|)
      && pending == Range(cl.joined + |cl.delivered|, b)
    case Some(closing) =>
      && cl.joined <= closing.failed < closing.closedAt <= b
      && cl.delivered == Range(cl.joined, closing.failed)
      && |pending| < closing.closedAt - closing.failed
      && pending == Range(closing.closedAt - |pending|, closing.closedAt)
  }

  ghost predicate ClientsInv(s: State) {
    forall c :: c in s.history ==> ClientInv(s.history[c], Pending(s, c), |s.broadcasts|)
  }

  ghost predicate Inv(s: State) {
    ListsInv(s) && ClientsInv(s)
  }

  lemma NewClient(b: nat)
    ensures ClientInv(Client(b, [], None), [], b)
  {
  }

  lemma ClientBegins(cl: Client, pending: seq<nat>, b: nat)
    requires ClientInv(cl, pending, b)
    ensures ClientInv(cl, if cl.closed.None? then pending + [b] else pending, b + 1)
  {
    if cl.closed.None? {
      RangeSnoc(cl.joined + |cl.delivered|, b);
    }
  }

  lemma ClientWritten(cl: Client, pending: seq<nat>, b: nat)
    requires ClientInv(cl, pending, b) && pending != [] && cl.closed.None?
    ensures ClientInv(cl.(delivered := cl.delivered + [pending[0]]), pending[1..], b)
  {
    RangeSnoc(cl.joined, cl.joined + |cl.delivered|);
  }

  lemma ClientFailed(cl: Client, pending: seq<nat>, b: nat)
    requires ClientInv(cl, pending, b) && pending != []
    ensures ClientInv(CloseClient(cl, pending[0], b), pending[1..], b)
  {
  }

  lemma {:induction false} IndicesForAppend(posted: seq<Post>, p: Post, c: Socket)
    ensures IndicesFor(posted + [p], c) == IndicesFor(posted, c) + (if p.socket == c then [p.index] else [])
  {
    if posted == [] {
      assert posted + [p] == [p];
      assert [p][1..] == [];
    } else {
      assert (posted + [p])[0] == posted[0] && (posted + [p])[1..] == posted[1..] + [p];
      IndicesForAppend(posted[1..], p, c);
      assert IndicesFor(posted + [p], c)
          == (if posted[0].socket == c then [posted[0].index] else []) + IndicesFor(posted[1..] + [p], c);
    }
  }

  lemma {:induction false} NoIndicesFor(posted: seq<Post>, c: Socket)
    requires forall i :: 0 <= i < |posted| ==> posted[i].socket != c
    ensures IndicesFor(posted, c) == []
  {
    if posted != [] {
      NoIndicesFor(posted[1..], c);
    }
  }

  lemma {:induction false} OnlyOpenKeepsAll(s: State, clients: seq<Socket>)
    requires forall c :: c in clients ==> IsOpen(s, c)
    ensures OnlyOpen(s, clients) == clients
  {
    if clients != [] {
      var n := |clients| - 1;
      assert clients == clients[..n] + [clients[n]];
      OnlyOpenKeepsAll(s, clients[..n]);
    }
  }

  lemma {:induction false} WithoutRemoves(clients: seq<Socket>, c: Socket)
    requires NoDuplicates(clients)
    ensures NoDuplicates(Without(clients, c))
    ensures forall x :: x in Without(clients, c) <==> x in clients && x != c
  {
    if clients != [] {
      var rest := clients[1..];
      assert clients == [clients[0]] + rest;
      WithoutRemoves(rest, c);
      if clients[0] != c {
        assert clients[0] !in rest;
        assert clients[0] !in Without(rest, c);
      }
    }
  }

  lemma AcceptKeepsLists(s: State, e: Event)
    requires ListsInv(s) && e.Accept? && Enabled(s, e)
    ensures ListsInv(Apply(s, e))
  {
    assert !IsOpen(s, e.socket);
    assert e.socket !in s.clients;
  }

  lemma AcceptKeepsClients(s: State, e: Event)
    requires Inv(s) && e.Accept? && Enabled(s, e)
    ensures ClientsInv(Apply(s, e))
  {
    hide ClientInv, IndicesFor;
    var s' := Apply(s, e);
    NoIndicesFor(s.posted, e.socket);
    NewClient(|s.broadcasts|);
    assert e.socket !in s.toPost;
    assert Pending(s', e.socket) == [];
    forall c | c in s.history ensures Pending(s', c) == Pending(s, c) {
    }
  }

  lemma BeginKeepsLists(s: State, e: Event)
    requires ListsInv(s) && e.BeginBroadcast? && Enabled(s, e)
    ensures Apply(s, e).clients == Apply(s, e).toPost == s.clients
    ensures ListsInv(Apply(s, e))
  {
    OnlyOpenKeepsAll(s, s.clients);
    assert forall c :: c in s.clients ==> IsOpen(s, c);
  }

  lemma BeginKeepsClients(s: State, e: Event)
    requires Inv(s) && e.BeginBroadcast? && Enabled(s, e)
    ensures ClientsInv(Apply(s, e))
  {
    hide ClientInv, IndicesFor, OnlyOpen;
    var s', b := Apply(s, e), |s.broadcasts|;
    BeginKeepsLists(s, e);
    forall c | c in s'.history ensures ClientInv(s'.history[c], Pending(s', c), b + 1) {
      ClientBegins(s.history[c], Pending(s, c), b);
      assert c in s.clients <==> IsOpen(s, c);
      assert Pending(s, c) == IndicesFor(s.posted, c);
      assert Pending(s', c) == IndicesFor(s.posted, c) + (if c in s.clients then [b] else []);
    }
  }

  lemma PostKeepsLists(s: State, e: Event)
    requires ListsInv(s) && e.PostOne? && Enabled(s, e)
    ensures ListsInv(Apply(s, e))
  {
    assert s.toPost == [s.toPost[0]] + s.toPost[1..];
  }

  /** Posting moves a message of its socket from the broadcast's list to the handler queue. */
  lemma PostKeepsClients(s: State, e: Event)
    requires Inv(s) && e.PostOne? && Enabled(s, e)
    ensures ClientsInv(Apply(s, e))
  {
    hide ClientInv, IndicesFor;
    var s' := Apply(s, e);
    var p := Post(s.toPost[0], |s.broadcasts| - 1);
    assert s.toPost == [p.socket] + s.toPost[1..];
    assert p.socket !in s.toPost[1..];
    forall c | c in s.history ensures Pending(s', c) == Pending(s, c) {
      IndicesForAppend(s.posted, p, c);
    }
  }

  lemma WriteKeepsLists(s: State, e: Event)
    requires ListsInv(s) && e.RunWrite? && Enabled(s, e)
    ensures ListsInv(Apply(s, e))
  {
    WithoutRemoves(s.clients, s.posted[0].socket);
  }

  /** Taking a post off the front changes the pending messages of its own socket only. */
  lemma PendingAfterWrite(s: State, e: Event, c: Socket)
    requires ListsInv(s) && e.RunWrite? && Enabled(s, e)
    ensures var p, s' := s.posted[0], Apply(s, e);
            if c == p.socket then Pending(s, c) == [p.index] + Pending(s', c) else Pending(s, c) == Pending(s', c)
  {
  }

  lemma WriteKeepsClients(s: State, e: Event)
    requires Inv(s) && e.RunWrite? && Enabled(s, e)
    ensures ClientsInv(Apply(s, e))
  {
    hide ClientInv, Pending, ListsInv, CloseClient;
    var s', p, b := Apply(s, e), s.posted[0], |s.broadcasts|;
    forall c | c in s'.history ensures ClientInv(s'.history[c], Pending(s', c), b) {
      PendingAfterWrite(s, e, c);
      if c == p.socket {
        var cl, pending := s.history[c], Pending(s, c);
        assert pending[0] == p.index && pending[1..] == Pending(s', c);
        if e.ok {
          ClientWritten(cl, pending, b);
        } else {
          ClientFailed(cl, pending, b);
        }
      }
    }
  }

  lemma StepKeepsInv(s: State, e: Event)
    requires Inv(s) && Enabled(s, e)
    ensures Inv(Apply(s, e))
  {
    hide ListsInv, ClientsInv, Apply, Enabled;
    match e
    case Accept(_) => AcceptKeepsLists(s, e); AcceptKeepsClients(s, e);
    case AcceptFailed => AcceptFailedKeepsInv(s, e);
    case BeginBroadcast(_) => BeginKeepsLists(s, e); BeginKeepsClients(s, e);
    case PostOne => PostKeepsLists(s, e); PostKeepsClients(s, e);
    case RunWrite(_) => WriteKeepsLists(s, e); WriteKeepsClients(s, e);
  }

  lemma AcceptFailedKeepsInv(s: State, e: Event)
    requires Inv(s) && e.AcceptFailed?
    ensures Inv(Apply(s, e))
  {
  }
}
