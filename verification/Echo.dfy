/** The client, two byte channels and one endpoint, interleaved one system call at a time. */
module EchoSystem {
  import opened Wire
  import opened EndpointSpec

  datatype Config = Config(reqs: seq<Request>, inCap: nat, outCap: nat)

  /** i is the request PushData is working on, off the bytes of its frame already sent, got the
      bytes of its ack; armed is the edge-triggered ready-list entry of the endpoint's fd, and
      todoRecv and todoSend are the handler calls left for the fetched event. */
  datatype Sys = Sys(
    i: nat, off: nat, got: seq<Byte>, acks: seq<seq<Byte>>,
    c2s: seq<Byte>, s2c: seq<Byte>,
    ep: Ep, armed: bool, todoRecv: bool, todoSend: bool)

  datatype Action =
    | ClientSend(k: nat) | ClientRecv(k: nat) | ClientReturn
    | Fetch(rd: bool, wr: bool) | CallRecv | CallSend
    | ServerRecv(k: nat) | ServerSend(k: nat) | ServerBlock

  const START := Sys(0, 0, [], [], [], [], INIT, true, false, false)

  predicate Done(c: Config, s: Sys) {
    s.i == |c.reqs|
  }

  /** Any amount a short read or write may move, would-block at any time, any reported readiness. */
  predicate Enabled(c: Config, s: Sys, a: Action) {
    match a
    case ClientSend(k) =>
      s.i < |c.reqs| && 1 <= k <= FrameSize(c.reqs[s.i]) - s.off && |s.c2s| + k <= c.inCap
    case ClientRecv(k) =>
      s.i < |c.reqs| && s.off == FrameSize(c.reqs[s.i]) && 1 <= k <= |c.reqs[s.i].header| - |s.got| && k <= |s.s2c|
    case ClientReturn =>
      s.i < |c.reqs| && s.off == FrameSize(c.reqs[s.i]) && |s.got| == |c.reqs[s.i].header|
    case Fetch(rd, wr) => s.ep.pc.Idle? && !s.todoRecv && !s.todoSend
    case CallRecv => s.ep.pc.Idle? && s.todoRecv
    case CallSend => s.ep.pc.Idle? && !s.todoRecv && s.todoSend
    case ServerRecv(k) =>
      !s.ep.pc.Idle? && !s.ep.pc.InSend? && k <= RecvLen(s.ep) && k <= |s.c2s| && (RecvLen(s.ep) > 0 ==> k >= 1)
    case ServerSend(k) =>
      s.ep.pc.InSend? && k <= |Offered(s.ep)| && |s.s2c| + k <= c.outCap && (Offered(s.ep) != [] ==> k >= 1)
    case ServerBlock => !s.ep.pc.Idle?
  }

  /** The endpoint takes a result; a Reregister raises an edge if the fd is ready. */
  function ServerStep(c: Config, s: Sys, io: Io): Sys
    requires LocalInv(s.ep) && OkIo(s.ep, io)
  {
    var c2s := if io.Got? && |io.bytes| <= |s.c2s| then s.c2s[|io.bytes|..] else s.c2s;
    var s2c := if io.Sent? then s.s2c + io.bytes else s.s2c;
    var ep := OnIo(s.ep, io);
    s.(c2s := c2s, s2c := s2c, ep := ep,
       armed := s.armed || (Rearms(s.ep, io) && (c2s != [] || (ep.writable && |s2c| < c.outCap))))
  }

  function IoOf(s: Sys, a: Action): Io {
    match a
    case ServerRecv(k) => if k <= |s.c2s| then Got(s.c2s[..k]) else Blocked
    case ServerSend(k) => if k <= |Offered(s.ep)| then Sent(Offered(s.ep)[..k]) else Blocked
    case _ => Blocked
  }

  function Apply(c: Config, s: Sys, a: Action): Sys
    requires LocalInv(s.ep) && Enabled(c, s, a)
  {
    match a
    case ClientSend(k) =>
      s.(off := s.off + k, c2s := s.c2s + Frame(c.reqs[s.i])[s.off..s.off + k], armed := true)
    case ClientRecv(k) =>
      s.(got := s.got + s.s2c[..k], s2c := s.s2c[k..], armed := s.armed || s.ep.writable)
    case ClientReturn =>
      s.(i := s.i + 1, off := 0, got := [], acks := s.acks + [s.got])
    case Fetch(rd, wr) => s.(armed := false, todoRecv := rd, todoSend := wr)
    case CallRecv => s.(todoRecv := false, ep := EnterRecv(s.ep))
    case CallSend => s.(todoSend := false, ep := EnterSend(s.ep))
    case ServerRecv(_) => ServerStep(c, s, IoOf(s, a))
    case ServerSend(_) => ServerStep(c, s, IoOf(s, a))
    case ServerBlock => ServerStep(c, s, Blocked)
  }

  /** The state after a run, if each action is enabled where it is taken. */
  function Exec(c: Config, s: Sys, run: seq<Action>): Option<Sys>
    decreases |run|
  {
    if run == [] then Some(s)
    else if !LocalInv(s.ep) || !Enabled(c, s, run[0]) then None
    else Exec(c, Apply(c, s, run[0]), run[1..])
  }

  // ---- the two whole streams ----

  function Up(c: Config): seq<Byte> {
    Whole(Frames(c.reqs))
  }

  function Down(c: Config): seq<Byte> {
    Whole(Headers(c.reqs))
  }

  /** Where request n starts in the client's stream, and its ack in the endpoint's. */
  function UpPos(c: Config, n: nat): nat
    requires n <= |c.reqs|
  {
    Pos(Frames(c.reqs), n)
  }

  function DownPos(c: Config, n: nat): nat
    requires n <= |c.reqs|
  {
    Pos(Headers(c.reqs), n)
  }

  function FrameSize(r: Request): nat {
    META_SIZE + |r.header| + |r.data|
  }

  /** How much of the queued reply has been sent. */
  function Replied(ep: Ep): nat {
    if ep.tx != [] then ep.tx[0].handled else 0
  }

  // ---- the sizes: running maxima and the first drop ----

  function HeaderOwner(rs: seq<Request>, n: nat): Option<nat>
    requires n <= |rs|
  {
    if n == 0 then None else Grow(HeaderOwner(rs, n - 1), |rs[n - 1].header|)
  }

  function DataOwner(rs: seq<Request>, n: nat): Option<nat>
    requires n <= |rs|
  {
    if n == 0 then None else Grow(DataOwner(rs, n - 1), |rs[n - 1].data|)
  }

  /** Request k is not smaller than its predecessor in either component. */
  predicate Grows(rs: seq<Request>, k: nat)
    requires k < |rs|
  {
    k > 0 ==> |rs[k - 1].header| <= |rs[k].header| && |rs[k - 1].data| <= |rs[k].data|
  }

  predicate NonDecreasing(rs: seq<Request>) {
    forall k: nat | k < |rs| :: Grows(rs, k)
  }

  /** The first request smaller than its predecessor in some component, or the number of requests. */
  function FirstDrop(rs: seq<Request>, from: nat): (d: nat)
    requires from <= |rs|
    ensures from <= d <= |rs|
    ensures forall k: nat | from <= k < d :: Grows(rs, k)
    ensures d < |rs| ==> !Grows(rs, d)
    decreases |rs| - from
  {
    if from == |rs| || !Grows(rs, from) then from else FirstDrop(rs, from + 1)
  }

  function Limit(rs: seq<Request>): (d: nat)
    ensures d <= |rs|
  {
    FirstDrop(rs, 0)
  }

  /** The first request from k on with a nonempty header, or the number of requests: that far PushData gets
      without the endpoint. */
  function Waits(rs: seq<Request>, k: nat): (w: nat)
    requires k <= |rs|
    ensures k <= w <= |rs|
    ensures w < |rs| ==> rs[w].header != []
    ensures forall n: nat | k <= n < w :: rs[n].header == []
    decreases |rs| - k
  {
    if k == |rs| || rs[k].header != [] then k else Waits(rs, k + 1)
  }

  /** How far the client can get while the endpoint has answered only the requests before the first drop. */
  function Reach(rs: seq<Request>): (w: nat)
    ensures Limit(rs) <= w <= |rs|
  {
    Waits(rs, Limit(rs))
  }

  /** The end of the last frame the client can start then. */
  function UpLimit(c: Config): nat {
    var w := Reach(c.reqs);
    UpPos(c, w) + (if w < |c.reqs| then FrameSize(c.reqs[w]) else 0)
  }

  /** Where the endpoint's reading of request d ends, by the owners' lengths. */
  function Wanted(c: Config, d: nat): nat
    requires d < |c.reqs|
  {
    UpPos(c, d) + META_SIZE + HeaderOwner(c.reqs, d + 1).value + DataOwner(c.reqs, d + 1).value
  }

  /** At the first drop the endpoint wants more than the client can send without an answer. */
  predicate Starved(c: Config) {
    var d := Limit(c.reqs);
    d < |c.reqs| ==> Wanted(c, d) > UpLimit(c)
  }

  predicate AllFit(c: Config) {
    forall k: nat | k < |c.reqs| :: Fits(c.reqs[k])
  }

  /** The domain of the echo: sizes that fit their u32 fields, and no frame eaten by a smaller one before it. */
  predicate Admissible(c: Config) {
    AllFit(c) && Starved(c)
  }

  lemma {:induction false} OwnersAreLast(rs: seq<Request>, n: nat)
    requires 0 < n <= Limit(rs)
    ensures HeaderOwner(rs, n) == Some(|rs[n - 1].header|) && DataOwner(rs, n) == Some(|rs[n - 1].data|)
  {
    assert Grows(rs, n - 1);
    if n > 1 { OwnersAreLast(rs, n - 1); }
  }

  /** At the first drop the endpoint waits for more bytes than the frame has. */
  lemma WaitsForMore(rs: seq<Request>)
    requires Limit(rs) < |rs|
    ensures var d := Limit(rs);
      HeaderOwner(rs, d + 1).value + DataOwner(rs, d + 1).value > |rs[d].header| + |rs[d].data|
  {
    var d := Limit(rs);
    assert !Grows(rs, d);
    OwnersAreLast(rs, d);
  }

  /** The owner lengths are the running maxima of the sizes announced so far. */
  lemma {:induction false} OwnersAreMaxima(rs: seq<Request>, n: nat)
    requires 0 < n <= |rs|
    ensures HeaderOwner(rs, n).Some? && DataOwner(rs, n).Some?
    ensures forall k | 0 <= k < n ::
              |rs[k].header| <= HeaderOwner(rs, n).value && |rs[k].data| <= DataOwner(rs, n).value
    ensures exists k :: 0 <= k < n && |rs[k].header| == HeaderOwner(rs, n).value
    ensures exists k :: 0 <= k < n && |rs[k].data| == DataOwner(rs, n).value
  {
    if n == 1 {
      assert HeaderOwner(rs, 0).None? && DataOwner(rs, 0).None?;
      assert |rs[0].header| == HeaderOwner(rs, 1).value && |rs[0].data| == DataOwner(rs, 1).value;
    } else {
      OwnersAreMaxima(rs, n - 1);
      var h :| 0 <= h < n - 1 && |rs[h].header| == HeaderOwner(rs, n - 1).value;
      var d :| 0 <= d < n - 1 && |rs[d].data| == DataOwner(rs, n - 1).value;
      var h' := if HeaderOwner(rs, n - 1).value < |rs[n - 1].header| then n - 1 else h;
      assert |rs[h'].header| == HeaderOwner(rs, n).value;
      assert |rs[if DataOwner(rs, n - 1).value < |rs[n - 1].data| then n - 1 else d].data| == DataOwner(rs, n).value;
    }
  }

  // ---- the invariant: everything in flight is a slice of the two whole streams ----

  /** Of stream t, the bytes from lo to mid are taken and those from mid to hi are in flight. */
  predicate Link(t: seq<Byte>, lo: nat, mid: nat, hi: nat, taken: seq<Byte>, flight: seq<Byte>) {
    lo <= mid <= hi <= |t| && taken == t[lo..mid] && flight == t[mid..hi]
  }

  predicate ClientInv(c: Config, i: nat, off: nat, got: seq<Byte>, acks: seq<seq<Byte>>) {
    && i <= Reach(c.reqs)
    && acks == Headers(c.reqs)[..i]
    && (i == |c.reqs| ==> off == 0 && got == [])
    && (i < |c.reqs| ==>
          && off <= FrameSize(c.reqs[i]) && |got| <= |c.reqs[i].header|
          && (got != [] ==> off == FrameSize(c.reqs[i])))
  }

  /** How many frames' sizes the endpoint has read. */
  function Announced(ep: Ep): nat {
    |ep.served| + (if ep.state.NewRpc? then 0 else 1)
  }

  predicate ServerInv(c: Config, ep: Ep) {
    && LocalInv(ep)
    && |ep.served| <= Limit(c.reqs) && ep.served == c.reqs[..|ep.served|]
    && Announced(ep) <= |c.reqs|
    && ep.headerOwner == HeaderOwner(c.reqs, Announced(ep))
    && ep.dataOwner == DataOwner(c.reqs, Announced(ep))
    && (ep.state.Replying? ==> |ep.served| < Limit(c.reqs))
  }

  predicate Links(c: Config, i: nat, off: nat, got: seq<Byte>, c2s: seq<Byte>, s2c: seq<Byte>, j: nat,
      received: seq<Byte>, replied: nat)
    requires i <= |c.reqs| && j <= |c.reqs|
  {
    && Link(Up(c), UpPos(c, j), UpPos(c, j) + |received|, UpPos(c, i) + off, received, c2s)
    && Link(Down(c), DownPos(c, i), DownPos(c, i) + |got|, DownPos(c, j) + replied, got, s2c)
  }

  predicate Inv(c: Config, s: Sys) {
    && ClientInv(c, s.i, s.off, s.got, s.acks)
    && ServerInv(c, s.ep)
    && |s.c2s| <= c.inCap && |s.s2c| <= c.outCap
    && Links(c, s.i, s.off, s.got, s.c2s, s.s2c, |s.ep.served|, Received(s.ep), Replied(s.ep))
  }
}
