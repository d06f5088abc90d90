/** The server's event loop: raw endpoint addresses as tokens, an fd-indexed map of owners, and
    batches of events that may close and accept connections while later events are pending. */
module EventLoop {
  import opened Wire

  type Fd = int
  type Address = nat

  const CLOSED: Fd := -1

  /** heap holds the live endpoint objects with the fd each has, CLOSED once its socket is closed;
      endpoints owns them by fd; registered is the kernel's fd -> token table of open fds. */
  datatype Server = Server(endpoints: map<Fd, Address>, heap: map<Address, Fd>, registered: map<Fd, Address>)

  datatype Event = Event(token: Address, readable: bool, writable: bool, closed: bool)

  /** What accept and the allocator hand out to a new connection. */
  datatype Connection = Connection(fd: Fd, address: Address)

  /** The objects the map keeps alive. */
  function Owned(s: Server): set<Address> {
    set f | f in s.endpoints :: s.endpoints[f]
  }

  predicate Inv(s: Server, listener: nat) {
    && s.heap.Keys == Owned(s)
    && CLOSED !in s.endpoints && listener !in s.heap
    && (forall f, g | f in s.endpoints && g in s.endpoints && s.endpoints[f] == s.endpoints[g] :: f == g)
    && (forall f | f in s.endpoints ::
          s.endpoints[f] in s.heap && (s.heap[s.endpoints[f]] == f || s.heap[s.endpoints[f]] == CLOSED))
    && (forall f | f in s.registered ::
          f in s.endpoints && s.endpoints[f] == s.registered[f] && s.heap[s.registered[f]] == f)
    && (forall a | a in s.heap && s.heap[a] != CLOSED :: s.heap[a] in s.registered && s.registered[s.heap[a]] == a)
  }

  /** The kernel never hands out an open fd, nor the allocator a live address or a small integer. */
  predicate Fresh(s: Server, listener: nat, n: Connection) {
    n.fd >= 0 && n.fd != listener && n.fd !in s.registered && n.address !in s.heap && n.address != listener
  }

  /** A token is safe: it names a live, open endpoint stored in the map under its own fd. */
  predicate Safe(s: Server, token: Address) {
    && token in s.heap && s.heap[token] != CLOSED
    && s.heap[token] in s.endpoints && s.endpoints[s.heap[token]] == token
    && s.heap[token] in s.registered && s.registered[s.heap[token]] == token
  }

  /** Destroys an endpoint object; its destructor closes a socket that is still open. */
  function Destroy(s: Server, a: Address): Server
    requires a in s.heap
  {
    s.(heap := s.heap - {a}, registered := if s.heap[a] == CLOSED then s.registered else s.registered - {s.heap[a]})
  }

  /** HandleNewConnection: register, then store; storing releases what the slot held before. */
  function Accept(s: Server, n: Connection): Server {
    var r := s.(heap := s.heap[n.address := n.fd], registered := s.registered[n.fd := n.address]);
    var t := if n.fd in r.endpoints && r.endpoints[n.fd] in r.heap then Destroy(r, r.endpoints[n.fd]) else r;
    t.(endpoints := t.endpoints[n.fd := n.address])
  }

  /** OnError deregisters and closes, which sets the endpoint's fd to CLOSED before it is used to
      erase the map entry. */
  function Fail(s: Server, token: Address): Server
    requires token in s.heap
  {
    var t := s.(registered := s.registered - {s.heap[token]}, heap := s.heap[token := CLOSED]);
    t.(endpoints := t.endpoints - {t.heap[token]})
  }

  /** The erase finds nothing: a closed endpoint keeps its slot and stays alive. */
  lemma EraseIsNoOp(s: Server, listener: nat, token: Address)
    requires Inv(s, listener) && Safe(s, token)
    ensures Fail(s, token).endpoints == s.endpoints
    ensures token in Fail(s, token).heap && Fail(s, token).heap[token] == CLOSED
  {
    assert s.endpoints - {CLOSED} == s.endpoints;
  }

  lemma FailKeeps(s: Server, listener: nat, token: Address)
    requires Inv(s, listener) && Safe(s, token)
    ensures Inv(Fail(s, token), listener)
  {
    EraseIsNoOp(s, listener, token);
  }

  /** Failing one endpoint leaves every other token safe. */
  lemma FailSpares(s: Server, listener: nat, token: Address, other: Address)
    requires Inv(s, listener) && Safe(s, token) && Safe(s, other) && other != token
    ensures Safe(Fail(s, token), other)
  {
    EraseIsNoOp(s, listener, token);
  }

  /** What the slot of a fresh fd holds, if anything, is an endpoint that was closed before. */
  lemma SlotIsClosed(s: Server, listener: nat, n: Connection)
    requires Inv(s, listener) && Fresh(s, listener, n) && n.fd in s.endpoints
    ensures s.endpoints[n.fd] in s.heap && s.heap[s.endpoints[n.fd]] == CLOSED && s.endpoints[n.fd] != n.address
  {}

  /** The map and the registrations after an accept; releasing the old endpoint closes nothing. */
  lemma AcceptEffect(s: Server, listener: nat, n: Connection)
    requires Inv(s, listener) && Fresh(s, listener, n)
    ensures Accept(s, n).endpoints == s.endpoints[n.fd := n.address]
    ensures Accept(s, n).registered == s.registered[n.fd := n.address]
    ensures Accept(s, n).heap == s.heap[n.address := n.fd] - (if n.fd in s.endpoints then {s.endpoints[n.fd]} else {})
  {
    if n.fd in s.endpoints { SlotIsClosed(s, listener, n); }
  }

  lemma AcceptOwners(s: Server, listener: nat, n: Connection)
    requires Inv(s, listener) && Fresh(s, listener, n)
    ensures Accept(s, n).heap.Keys == Owned(Accept(s, n))
  {
    AcceptEffect(s, listener, n);
    var t := Accept(s, n);
    forall a | a in t.heap ensures a in Owned(t) {
      if a == n.address {
        assert t.endpoints[n.fd] == a;
      } else {
        assert a in Owned(s);
        var f :| f in s.endpoints && s.endpoints[f] == a;
        assert f in t.endpoints && t.endpoints[f] == a;
      }
    }
  }

  lemma AcceptKeeps(s: Server, listener: nat, n: Connection)
    requires Inv(s, listener) && Fresh(s, listener, n)
    ensures Inv(Accept(s, n), listener)
    ensures Safe(Accept(s, n), n.address)
  {
    AcceptEffect(s, listener, n);
    AcceptOwners(s, listener, n);
    if n.fd in s.endpoints { SlotIsClosed(s, listener, n); }
  }

  /** Accepting, even when it overwrites and frees a closed endpoint, leaves every safe token safe. */
  lemma AcceptSpares(s: Server, listener: nat, n: Connection, other: Address)
    requires Inv(s, listener) && Fresh(s, listener, n) && Safe(s, other)
    ensures Safe(Accept(s, n), other)
  {
    AcceptEffect(s, listener, n);
    if n.fd in s.endpoints { SlotIsClosed(s, listener, n); }
  }

  // ---- batches ----

  /** What the loop does with one event; the connection is used only by the listener's events. */
  function Handle(s: Server, listener: nat, ev: Event, n: Connection): Server {
    if ev.token == listener then Accept(s, n)
    else if ev.closed && ev.token in s.heap then Fail(s, ev.token)
    else s
  }

  /** A batch as epoll_wait returns it: tokens of registered fds, at most one event each. */
  predicate Reported(s: Server, listener: nat, events: seq<Event>) {
    && (forall k | 0 <= k < |events| :: events[k].token == listener || Safe(s, events[k].token))
    && (forall j, k | 0 <= j < k < |events| :: events[j].token != events[k].token)
  }

  lemma RegisteredIsSafe(s: Server, listener: nat, f: Fd)
    requires Inv(s, listener) && f in s.registered
    ensures Safe(s, s.registered[f]) && s.heap[s.registered[f]] == f
  {
    assert f in s.endpoints && s.endpoints[f] == s.registered[f];
  }

  /** One event per fd is all it takes: distinct ready fds, each reported with the token it was
      registered with, make such a batch. */
  lemma KernelBatchesAreReported(s: Server, listener: nat, events: seq<Event>, fds: seq<Fd>)
    requires Inv(s, listener) && |fds| == |events|
    requires forall k | 0 <= k < |fds| ::
      || (fds[k] == listener && events[k].token == listener)
      || (fds[k] in s.registered && events[k].token == s.registered[fds[k]])
    requires forall j, k | 0 <= j < k < |fds| :: fds[j] != fds[k]
    ensures Reported(s, listener, events)
  {
    forall k | 0 <= k < |events| ensures events[k].token == listener || Safe(s, events[k].token) {
      if events[k].token != listener {
        RegisteredIsSafe(s, listener, fds[k]);
      }
    }
    forall j, k | 0 <= j < k < |events| ensures events[j].token != events[k].token {
      assert fds[j] != fds[k];
      if events[j].token != listener { RegisteredIsSafe(s, listener, fds[j]); }
      if events[k].token != listener { RegisteredIsSafe(s, listener, fds[k]); }
    }
  }

  /** The state after a batch; what accept hands out is given for each event. */
  function Batch(s: Server, listener: nat, events: seq<Event>, news: seq<Connection>): Server
    requires |news| == |events|
    decreases |events|
  {
    if events == [] then s
    else
      var k := |events| - 1;
      Handle(Batch(s, listener, events[..k], news[..k]), listener, events[k], news[k])
  }

  predicate AllFresh(s: Server, listener: nat, events: seq<Event>, news: seq<Connection>)
    requires |news| == |events|
  {
    forall k | 0 <= k < |events| && events[k].token == listener ::
      Fresh(Batch(s, listener, events[..k], news[..k]), listener, news[k])
  }

  /** Handling an event keeps the invariant and every safe token but the one that failed. */
  lemma HandleKeeps(s: Server, listener: nat, ev: Event, n: Connection)
    requires Inv(s, listener) && (ev.token == listener || Safe(s, ev.token))
    requires ev.token == listener ==> Fresh(s, listener, n)
    ensures Inv(Handle(s, listener, ev, n), listener)
    ensures forall t | Safe(s, t) && t != ev.token :: Safe(Handle(s, listener, ev, n), t)
  {
    if ev.token == listener {
      AcceptKeeps(s, listener, n);
      forall t | Safe(s, t) ensures Safe(Accept(s, n), t) { AcceptSpares(s, listener, n, t); }
    } else if ev.closed {
      FailKeeps(s, listener, ev.token);
      forall t | Safe(s, t) && t != ev.token ensures Safe(Fail(s, ev.token), t) {
        FailSpares(s, listener, ev.token, t);
      }
    }
  }

  /** Token safety: throughout a batch, whatever the events before closed, accepted or overwrote,
      every event still pending names a live endpoint stored under its own fd. */
  lemma {:induction false} PendingTokensAreSafe(s: Server, listener: nat, events: seq<Event>, news: seq<Connection>,
      k: nat)
    requires Inv(s, listener) && |news| == |events| && Reported(s, listener, events)
    requires AllFresh(s, listener, events, news)
    requires k <= |events|
    ensures Inv(Batch(s, listener, events[..k], news[..k]), listener)
    ensures forall j | k <= j < |events| ::
      events[j].token == listener || Safe(Batch(s, listener, events[..k], news[..k]), events[j].token)
    decreases k
  {
    if k == 0 {
    } else {
      PendingTokensAreSafe(s, listener, events, news, k - 1);
      var t := Batch(s, listener, events[..k - 1], news[..k - 1]);
      assert events[..k][..k - 1] == events[..k - 1] && news[..k][..k - 1] == news[..k - 1];
      HandleKeeps(t, listener, events[k - 1], news[k - 1]);
    }
  }

  /** Entries never leave the map: what an fd's slot holds changes only when the fd is reused. */
  lemma {:induction false} SlotsAreKept(s: Server, listener: nat, events: seq<Event>, news: seq<Connection>, f: Fd)
    requires Inv(s, listener) && |news| == |events| && Reported(s, listener, events)
    requires AllFresh(s, listener, events, news)
    requires f in s.endpoints
    ensures f in Batch(s, listener, events, news).endpoints
    ensures (forall k | 0 <= k < |events| && events[k].token == listener :: news[k].fd != f) ==>
      Batch(s, listener, events, news).endpoints[f] == s.endpoints[f]
    decreases |events|
  {
    if events == [] {
    } else {
      var k := |events| - 1;
      PrefixOfBatch(s, listener, events, news);
      SlotsAreKept(s, listener, events[..k], news[..k], f);
      PendingTokensAreSafe(s, listener, events, news, k);
      var t := Batch(s, listener, events[..k], news[..k]);
      if events[k].token == listener { AcceptEffect(t, listener, news[k]); }
      else if events[k].closed { EraseIsNoOp(t, listener, events[k].token); }
    }
  }

  lemma PrefixOfBatch(s: Server, listener: nat, events: seq<Event>, news: seq<Connection>)
    requires |news| == |events| > 0 && Reported(s, listener, events) && AllFresh(s, listener, events, news)
    ensures var k := |events| - 1; Reported(s, listener, events[..k]) && AllFresh(s, listener, events[..k], news[..k])
  {
    var k := |events| - 1;
    forall j | 0 <= j < k && events[..k][j].token == listener
      ensures Fresh(Batch(s, listener, events[..k][..j], news[..k][..j]), listener, news[..k][j])
    {
      assert events[..k][..j] == events[..j] && news[..k][..j] == news[..j];
    }
  }

  // ---- the handlers a batch calls ----

  datatype Handler = OnRecvReady(token: Address) | OnSendReady(token: Address) | OnError(token: Address)

  /** Readable before writable before closed, each on the event's own token. */
  function Calls(listener: nat, ev: Event): seq<Handler> {
    if ev.token == listener then []
    else
      (if ev.readable then [OnRecvReady(ev.token)] else [])
      + (if ev.writable then [OnSendReady(ev.token)] else [])
      + (if ev.closed then [OnError(ev.token)] else [])
  }

  function BatchCalls(listener: nat, events: seq<Event>): seq<Handler> {
    if events == [] then []
    else BatchCalls(listener, events[..|events| - 1]) + Calls(listener, events[|events| - 1])
  }

  lemma NextEvent(s: Server, listener: nat, events: seq<Event>, news: seq<Connection>, i: nat)
    requires i < |events| == |news|
    ensures Batch(s, listener, events[..i + 1], news[..i + 1])
         == Handle(Batch(s, listener, events[..i], news[..i]), listener, events[i], news[i])
    ensures BatchCalls(listener, events[..i + 1]) == BatchCalls(listener, events[..i]) + Calls(listener, events[i])
  {
    assert events[..i + 1][..i] == events[..i] && news[..i + 1][..i] == news[..i];
  }

  /** Which handlers a batch calls on a token: those its event names, each once, reading before writing before
      closing. */
  predicate Served(calls: seq<Handler>, t: Address, readable: bool, writable: bool, closed: bool) {
    && (OnRecvReady(t) in calls <==> readable) && (OnSendReady(t) in calls <==> writable)
    && (OnError(t) in calls <==> closed)
    && (forall i, j | 0 <= i < j < |calls| && calls[i].token == t && calls[j].token == t :: Before(calls[i], calls[j]))
  }

  predicate Before(a: Handler, b: Handler) {
    (a.OnRecvReady? && !b.OnRecvReady?) || (a.OnSendReady? && b.OnError?)
  }

  lemma CallsServe(listener: nat, ev: Event)
    requires ev.token != listener
    ensures Served(Calls(listener, ev), ev.token, ev.readable, ev.writable, ev.closed)
    ensures forall c | c in Calls(listener, ev) :: c.token == ev.token
  {}

  lemma NoOtherToken(listener: nat, ev: Event, t: Address)
    requires ev.token != t
    ensures forall c | c in Calls(listener, ev) :: c.token != t
  {}

  lemma {:induction false} NotCalledYet(listener: nat, events: seq<Event>, t: Address)
    requires forall k | 0 <= k < |events| :: events[k].token != t
    ensures forall c | c in BatchCalls(listener, events) :: c.token != t
    decreases |events|
  {
    if events == [] {
    } else {
      NotCalledYet(listener, events[..|events| - 1], t);
      NoOtherToken(listener, events[|events| - 1], t);
    }
  }

  lemma ServedApart(p: seq<Handler>, q: seq<Handler>, t: Address, readable: bool, writable: bool, closed: bool)
    requires forall c | c in p :: c.token != t
    requires Served(q, t, readable, writable, closed)
    ensures Served(p + q, t, readable, writable, closed) && Served(q + p, t, readable, writable, closed)
  {
    assert forall i | 0 <= i < |p| :: p[i] in p;
    ServedIn(p + q, p, q, t, readable, writable, closed);
    ServedIn(q + p, p, q, t, readable, writable, closed);
  }

  lemma ServedIn(all: seq<Handler>, p: seq<Handler>, q: seq<Handler>, t: Address, readable: bool, writable: bool,
                 closed: bool)
    requires all == p + q || all == q + p
    requires forall i | 0 <= i < |p| :: p[i].token != t
    requires Served(q, t, readable, writable, closed)
    ensures Served(all, t, readable, writable, closed)
  {
    var off := if all == p + q then |p| else 0;
    assert forall c :: c in all <==> c in p || c in q;
    forall i, j | 0 <= i < j < |all| && all[i].token == t && all[j].token == t ensures Before(all[i], all[j]) {
      assert all[i] == q[i - off] && all[j] == q[j - off];
    }
  }

  /** Every endpoint with an event gets exactly the handler calls that the event names. */
  lemma {:induction false} BatchServes(listener: nat, events: seq<Event>, k: nat)
    requires forall i, j | 0 <= i < j < |events| :: events[i].token != events[j].token
    requires k < |events| && events[k].token != listener
    ensures var ev := events[k];
      Served(BatchCalls(listener, events), ev.token, ev.readable, ev.writable, ev.closed)
    decreases |events|
  {
    var ev, n := events[k], |events| - 1;
    if k == n {
      NotCalledYet(listener, events[..n], ev.token);
      CallsServe(listener, ev);
      ServedApart(BatchCalls(listener, events[..n]), Calls(listener, ev), ev.token,
        ev.readable, ev.writable, ev.closed);
    } else {
      BatchServes(listener, events[..n], k);
      NoOtherToken(listener, events[n], ev.token);
      ServedApart(Calls(listener, events[n]), BatchCalls(listener, events[..n]), ev.token,
        ev.readable, ev.writable, ev.closed);
    }
  }

  // ---- what a batch closes ----

  /** No fd delivers events for t any more, and if the object still exists its fd is closed. */
  predicate Gone(s: Server, t: Address) {
    (forall f | f in s.registered :: s.registered[f] != t) && (t in s.heap ==> s.heap[t] == CLOSED)
  }

  lemma FailGone(s: Server, listener: nat, t: Address)
    requires Inv(s, listener) && Safe(s, t)
    ensures Gone(Fail(s, t), t)
  {
    forall f | f in s.registered && s.registered[f] == t ensures f == s.heap[t] {
      RegisteredIsSafe(s, listener, f);
    }
  }

  /** Nothing brings a closed endpoint back: failing another one does not, and accepting does not, as long as the object
      still exists, since its address is taken. */
  lemma GoneStays(s: Server, listener: nat, ev: Event, n: Connection, t: Address)
    requires Inv(s, listener) && Gone(s, t) && (ev.token == listener || Safe(s, ev.token))
    requires ev.token == listener ==> Fresh(s, listener, n) && t in s.heap
    ensures Gone(Handle(s, listener, ev, n), t)
    ensures ev.token != listener && t in s.heap ==> t in Handle(s, listener, ev, n).heap
  {
    if ev.token == listener { AcceptEffect(s, listener, n); }
  }

  /** A closed endpoint is gone after the batch, and its object has only been released if the listener had its event. */
  lemma {:induction false} ClosedIsGone(s: Server, listener: nat, events: seq<Event>, news: seq<Connection>, k: nat)
    requires Inv(s, listener) && |news| == |events| && Reported(s, listener, events)
    requires AllFresh(s, listener, events, news) && k < |events| && events[k].token != listener && events[k].closed
    ensures Gone(Batch(s, listener, events, news), events[k].token)
    ensures events[k].token in Batch(s, listener, events, news).heap
      || exists i :: 0 <= i < |events| && events[i].token == listener
    decreases |events|
  {
    var n, t := |events| - 1, events[k].token;
    var b := Batch(s, listener, events[..n], news[..n]);
    PrefixOfBatch(s, listener, events, news);
    PendingTokensAreSafe(s, listener, events, news, n);
    if k == n {
      FailGone(b, listener, t);
    } else {
      ClosedIsGone(s, listener, events[..n], news[..n], k);
      assert events[n].token == listener ==> forall i | 0 <= i < n :: events[i].token != listener;
      GoneStays(b, listener, events[n], news[n], t);
    }
  }

  /** An endpoint whose event is not a closing one is safe after the batch. */
  lemma {:induction false} OpenStaysSafe(s: Server, listener: nat, events: seq<Event>, news: seq<Connection>, k: nat)
    requires Inv(s, listener) && |news| == |events| && Reported(s, listener, events)
    requires AllFresh(s, listener, events, news) && k < |events| && events[k].token != listener && !events[k].closed
    ensures Safe(Batch(s, listener, events, news), events[k].token)
    decreases |events|
  {
    var n := |events| - 1;
    PrefixOfBatch(s, listener, events, news);
    PendingTokensAreSafe(s, listener, events, news, n);
    if k < n {
      OpenStaysSafe(s, listener, events[..n], news[..n], k);
      HandleKeeps(Batch(s, listener, events[..n], news[..n]), listener, events[n], news[n]);
    }
  }

  /** After a batch an endpoint that had an event is closed and unregistered if the event said so, and otherwise as safe
      as before. */
  lemma BatchCloses(s: Server, listener: nat, events: seq<Event>, news: seq<Connection>, k: nat)
    requires Inv(s, listener) && |news| == |events| && Reported(s, listener, events)
    requires AllFresh(s, listener, events, news) && k < |events| && events[k].token != listener
    ensures Gone(Batch(s, listener, events, news), events[k].token) <==> events[k].closed
    ensures Safe(Batch(s, listener, events, news), events[k].token) <==> !events[k].closed
  {
    if events[k].closed {
      ClosedIsGone(s, listener, events, news, k);
    } else {
      OpenStaysSafe(s, listener, events, news, k);
    }
  }

  /** A connection that the listener's event accepted is registered and stored after the batch. */
  lemma {:induction false} AcceptedIsSafe(s: Server, listener: nat, events: seq<Event>, news: seq<Connection>, k: nat)
    requires Inv(s, listener) && |news| == |events| && Reported(s, listener, events)
    requires AllFresh(s, listener, events, news) && k < |events| && events[k].token == listener
    ensures Safe(Batch(s, listener, events, news), news[k].address)
    ensures Batch(s, listener, events, news).heap[news[k].address] == news[k].fd
    decreases |events|
  {
    var n := |events| - 1;
    var b := Batch(s, listener, events[..n], news[..n]);
    PrefixOfBatch(s, listener, events, news);
    PendingTokensAreSafe(s, listener, events, news, n);
    if k == n {
      AcceptKeeps(b, listener, news[n]);
      AcceptEffect(b, listener, news[n]);
    } else {
      AcceptedIsSafe(s, listener, events[..n], news[..n], k);
      PendingTokensAreSafe(s, listener, events, news, k);
      assert events[n].token != news[k].address;
      HandleKeeps(b, listener, events[n], news[n]);
    }
  }

  lemma {:induction false} OnlyEvents(listener: nat, events: seq<Event>, c: Handler)
    requires c in BatchCalls(listener, events)
    ensures exists k :: 0 <= k < |events| && events[k].token == c.token != listener
    decreases |events|
  {
    var n := |events| - 1;
    if c in BatchCalls(listener, events[..n]) {
      OnlyEvents(listener, events[..n], c);
      var k :| 0 <= k < n && events[..n][k].token == c.token != listener;
      assert events[k].token == c.token;
    }
  }

  // ---- the listener's edges ----

  /** Connections waiting to be accepted, and whether an edge for them is pending. */
  datatype Backlog = Backlog(waiting: nat, armed: bool)

  /** n connections arrive, each raising the edge; an edge that is pending already stays one edge. */
  function Connect(l: Backlog, n: nat): Backlog
    decreases n
  {
    if n == 0 then l else Connect(Backlog(l.waiting + 1, true), n - 1)
  }

  /** One poll: a pending edge is reported once, and the event accepts one connection. */
  function Poll(l: Backlog): Backlog {
    if l.armed && l.waiting > 0 then Backlog(l.waiting - 1, false) else l.(armed := false)
  }

  /** arrivals[k] connections come before poll k. */
  function Listen(arrivals: seq<nat>): Backlog {
    if arrivals == [] then Backlog(0, false)
    else Poll(Connect(Listen(arrivals[..|arrivals| - 1]), arrivals[|arrivals| - 1]))
  }

  /** All but one of the connections of every interval. */
  function Excess(arrivals: seq<nat>): nat {
    if arrivals == [] then 0
    else
      var n := arrivals[|arrivals| - 1];
      Excess(arrivals[..|arrivals| - 1]) + (if n == 0 then 0 else n - 1)
  }

  lemma {:induction false} ConnectAdds(l: Backlog, n: nat)
    ensures Connect(l, n) == Backlog(l.waiting + n, l.armed || n > 0)
    decreases n
  {
    if n == 0 {
    } else {
      ConnectAdds(Backlog(l.waiting + 1, true), n - 1);
    }
  }

  lemma {:induction false} BacklogIsExcess(arrivals: seq<nat>)
    ensures Listen(arrivals) == Backlog(Excess(arrivals), false)
    decreases |arrivals|
  {
    if arrivals == [] {
    } else {
      BacklogIsExcess(arrivals[..|arrivals| - 1]);
      ConnectAdds(Listen(arrivals[..|arrivals| - 1]), arrivals[|arrivals| - 1]);
    }
  }

  lemma {:induction false} NoExcessIff(arrivals: seq<nat>)
    ensures Excess(arrivals) == 0 <==> forall k | 0 <= k < |arrivals| :: arrivals[k] <= 1
    decreases |arrivals|
  {
    if arrivals == [] {
    } else {
      var init := arrivals[..|arrivals| - 1];
      NoExcessIff(init);
      assert forall k | 0 <= k < |init| :: init[k] == arrivals[k];
    }
  }

  lemma {:induction false} ExcessOnlyGrows(arrivals: seq<nat>, more: seq<nat>)
    ensures Excess(arrivals) <= Excess(arrivals + more)
    decreases |more|
  {
    if more == [] {
      assert arrivals + more == arrivals;
    } else {
      var init := more[..|more| - 1];
      ExcessOnlyGrows(arrivals, init);
      assert (arrivals + more)[..|arrivals + more| - 1] == arrivals + init;
    }
  }

  /** The listener is edge-triggered and one event accepts one connection: nobody is left waiting after a schedule of
      arrivals if and only if at most one connection came between any two polls, and whoever is left stays, whatever
      comes later. */
  lemma SharedEdgesLoseConnections(arrivals: seq<nat>, more: seq<nat>)
    ensures Listen(arrivals).waiting == 0 <==> forall k | 0 <= k < |arrivals| :: arrivals[k] <= 1
    ensures Listen(arrivals).waiting <= Listen(arrivals + more).waiting
  {
    BacklogIsExcess(arrivals);
    BacklogIsExcess(arrivals + more);
    NoExcessIff(arrivals);
    ExcessOnlyGrows(arrivals, more);
  }

  // ---- the loop itself ----

  class SocketBwServerApp {
    const listener: nat
    var endpoints: map<Fd, Address>
    var heap: map<Address, Fd>
    var registered: map<Fd, Address>
    /** The handlers called so far, in order; what they do is in Endpoint. */
    var calls: seq<Handler>

    function State(): Server
      reads this
    {
      Server(endpoints, heap, registered)
    }

    constructor (listener: nat)
      ensures this.listener == listener && State() == Server(map[], map[], map[]) && Inv(State(), listener)
      ensures calls == []
    {
      this.listener := listener;
      endpoints, heap, registered, calls := map[], map[], map[], [];
    }

    /** The last owner is gone; the destructor closes a socket that is still open. */
    method Release(a: Address)
      requires a in heap
      modifies this`heap, this`registered
      ensures State() == Destroy(old(State()), a)
    {
      if heap[a] != CLOSED { registered := registered - {heap[a]}; }
      heap := heap - {a};
    }

    method HandleNewConnection(n: Connection)
      requires Inv(State(), listener) && Fresh(State(), listener, n)
      modifies this`endpoints, this`heap, this`registered
      ensures State() == Accept(old(State()), n) && Inv(State(), listener)
    {
      AcceptKeeps(State(), listener, n);
      heap := heap[n.address := n.fd];
      registered := registered[n.fd := n.address];
      if n.fd in endpoints { Release(endpoints[n.fd]); }
      endpoints := endpoints[n.fd := n.address];
    }

    /** Deregister aborts on an unregistered fd and Close on a closed one; neither can happen here. */
    method OnError(token: Address)
      requires token in heap && heap[token] in registered && heap[token] != CLOSED
      modifies this`heap, this`registered
      ensures heap == old(heap)[token := CLOSED] && registered == old(registered) - {old(heap)[token]}
    {
      registered := registered - {heap[token]};
      heap := heap[token := CLOSED];
    }

    /** One event; its token, unless it is the listener's, is dereferenced. */
    method HandleEvent(ev: Event, n: Connection)
      requires Inv(State(), listener) && (ev.token == listener || Safe(State(), ev.token))
      requires ev.token == listener ==> Fresh(State(), listener, n)
      modifies this
      ensures State() == Handle(old(State()), listener, ev, n) && Inv(State(), listener)
      ensures calls == old(calls) + Calls(listener, ev)
    {
      HandleKeeps(State(), listener, ev, n);
      if ev.token == listener {
        HandleNewConnection(n);
      } else {
        var fd := heap[ev.token];
        assert endpoints[fd] == ev.token;
        if ev.readable { calls := calls + [Handler.OnRecvReady(ev.token)]; }
        if ev.writable { calls := calls + [Handler.OnSendReady(ev.token)]; }
        if ev.closed {
          calls := calls + [Handler.OnError(ev.token)];
          OnError(ev.token);
          endpoints := endpoints - {heap[ev.token]};
        }
      }
    }

    /** One batch of the loop: every dereference of a token is of a live endpoint. */
    method RunBatch(events: seq<Event>, news: seq<Connection>)
      requires Inv(State(), listener) && |news| == |events|
      requires Reported(State(), listener, events) && AllFresh(State(), listener, events, news)
      modifies this
      ensures State() == Batch(old(State()), listener, events, news) && Inv(State(), listener)
      ensures calls == old(calls) + BatchCalls(listener, events)
      ensures forall c | c in calls[|old(calls)|..] ::
                exists k :: 0 <= k < |events| && events[k].token == c.token != listener
      ensures forall k | 0 <= k < |events| && events[k].token == listener ::
                Safe(State(), news[k].address) && heap[news[k].address] == news[k].fd
      ensures forall k | 0 <= k < |events| && events[k].token != listener ::
                var ev := events[k];
                && Served(calls[|old(calls)|..], ev.token, ev.readable, ev.writable, ev.closed)
                && (Gone(State(), ev.token) <==> ev.closed) && (Safe(State(), ev.token) <==> !ev.closed)
    {
      ghost var s, calls0 := State(), calls;
      for i := 0 to |events|
        invariant State() == Batch(s, listener, events[..i], news[..i])
        invariant calls == old(calls) + BatchCalls(listener, events[..i])
      {
        PendingTokensAreSafe(s, listener, events, news, i);
        HandleEvent(events[i], news[i]);
        NextEvent(s, listener, events, news, i);
        Associates(old(calls), BatchCalls(listener, events[..i]), Calls(listener, events[i]));
      }
      assert events[..|events|] == events && news[..|events|] == news;
      PendingTokensAreSafe(s, listener, events, news, |events|);
      assert calls[|calls0|..] == BatchCalls(listener, events);
      forall c | c in calls[|calls0|..]
        ensures exists k :: 0 <= k < |events| && events[k].token == c.token != listener
      {
        OnlyEvents(listener, events, c);
      }
      forall k | 0 <= k < |events| && events[k].token == listener
        ensures Safe(State(), news[k].address) && heap[news[k].address] == news[k].fd
      {
        AcceptedIsSafe(s, listener, events, news, k);
      }
      forall k | 0 <= k < |events| && events[k].token != listener
        ensures Served(calls[|calls0|..], events[k].token, events[k].readable, events[k].writable, events[k].closed)
        ensures Gone(State(), events[k].token) <==> events[k].closed
        ensures Safe(State(), events[k].token) <==> !events[k].closed
      {
        BatchServes(listener, events, k);
        BatchCloses(s, listener, events, news, k);
      }
    }
  }
}
