/** Whole-run safety: every interleaving of short reads and writes keeps the stream invariant. */
module EchoCorrect {
  import opened Wire
  import opened EndpointSpec
  import opened EchoSystem

  // ---- moving bytes along a link ----

  lemma Fill(t: seq<Byte>, lo: nat, mid: nat, hi: nat, taken: seq<Byte>, flight: seq<Byte>, more: seq<Byte>)
    requires Link(t, lo, mid, hi, taken, flight) && hi + |more| <= |t| && more == t[hi..hi + |more|]
    ensures Link(t, lo, mid, hi + |more|, taken, flight + more)
  {}

  lemma Take(t: seq<Byte>, lo: nat, mid: nat, hi: nat, taken: seq<Byte>, flight: seq<Byte>, k: nat)
    requires Link(t, lo, mid, hi, taken, flight) && k <= |flight|
    ensures Link(t, lo, mid + k, hi, taken + flight[..k], flight[k..])
  {}

  lemma SubSlice(t: seq<Byte>, a: nat, b: nat, i: nat, j: nat)
    requires i <= j <= b - a && b <= |t|
    ensures t[a..b][i..j] == t[a + i..a + j]
  {
    assert forall k | 0 <= k < j - i :: t[a..b][i..j][k] == t[a + i + k];
  }

  lemma FrameAt(c: Config, n: nat)
    requires n < |c.reqs|
    ensures UpPos(c, n + 1) == UpPos(c, n) + FrameSize(c.reqs[n]) <= |Up(c)|
    ensures Up(c)[UpPos(c, n)..UpPos(c, n + 1)] == Frame(c.reqs[n])
  {
    MessageAt(Frames(c.reqs), n);
  }

  lemma HeaderAt(c: Config, n: nat)
    requires n < |c.reqs|
    ensures DownPos(c, n + 1) == DownPos(c, n) + |c.reqs[n].header| <= |Down(c)|
    ensures Down(c)[DownPos(c, n)..DownPos(c, n + 1)] == c.reqs[n].header
  {
    MessageAt(Headers(c.reqs), n);
  }

  lemma UpMonotone(c: Config, n: nat, m: nat)
    requires n <= m <= |c.reqs|
    ensures UpPos(c, n) <= UpPos(c, m) <= |Up(c)| && UpPos(c, |c.reqs|) == |Up(c)|
  {
    PosMonotone(Frames(c.reqs), n, m);
    PosMonotone(Frames(c.reqs), m, |c.reqs|);
  }

  lemma DownMonotone(c: Config, n: nat, m: nat)
    requires n <= m <= |c.reqs|
    ensures DownPos(c, n) <= DownPos(c, m)
  {
    PosMonotone(Headers(c.reqs), n, m);
  }

  lemma InitHolds(c: Config)
    ensures Inv(c, START)
  {
    InitInv();
  }

  // ---- client steps ----

  lemma ClientSendLinks(c: Config, i: nat, off: nat, got: seq<Byte>, c2s: seq<Byte>, s2c: seq<Byte>, j: nat,
      received: seq<Byte>, replied: nat, k: nat)
    requires i < |c.reqs| && j <= |c.reqs| && off + k <= FrameSize(c.reqs[i])
    requires Links(c, i, off, got, c2s, s2c, j, received, replied)
    ensures Links(c, i, off + k, got, c2s + Frame(c.reqs[i])[off..off + k], s2c, j, received, replied)
  {
    var f, u, t := Frame(c.reqs[i]), UpPos(c, i), Up(c);
    FrameAt(c, i);
    SubSlice(t, u, u + |f|, off, off + k);
    Fill(t, UpPos(c, j), UpPos(c, j) + |received|, u + off, received, c2s, f[off..off + k]);
  }

  lemma ClientRecvLinks(c: Config, i: nat, off: nat, got: seq<Byte>, c2s: seq<Byte>, s2c: seq<Byte>, j: nat,
      received: seq<Byte>, replied: nat, k: nat)
    requires i <= |c.reqs| && j <= |c.reqs| && k <= |s2c|
    requires Links(c, i, off, got, c2s, s2c, j, received, replied)
    ensures Links(c, i, off, got + s2c[..k], c2s, s2c[k..], j, received, replied)
  {
    Take(Down(c), DownPos(c, i), DownPos(c, i) + |got|, DownPos(c, j) + replied, got, s2c, k);
  }

  predicate LinksAt(c: Config, s: Sys)
    requires s.i <= |c.reqs| && |s.ep.served| <= |c.reqs|
  {
    Links(c, s.i, s.off, s.got, s.c2s, s.s2c, |s.ep.served|, Received(s.ep), Replied(s.ep))
  }

  /** The client's step is safe if its own part of the invariant and the links are. */
  lemma AssembleClient(c: Config, s: Sys, s': Sys)
    requires s'.ep == s.ep && |s'.c2s| <= c.inCap && |s'.s2c| <= c.outCap && s'.i <= |c.reqs|
    requires |s.ep.served| <= |c.reqs|
    ensures Inv(c, s) && ClientInv(c, s'.i, s'.off, s'.got, s'.acks) && LinksAt(c, s') ==> Inv(c, s')
  {}

  lemma SendingClient(c: Config, i: nat, off: nat, got: seq<Byte>, acks: seq<seq<Byte>>, k: nat)
    requires ClientInv(c, i, off, got, acks) && i < |c.reqs| && 1 <= k <= FrameSize(c.reqs[i]) - off
    ensures ClientInv(c, i, off + k, got, acks)
  {}

  lemma ReceivingClient(c: Config, i: nat, off: nat, got: seq<Byte>, acks: seq<seq<Byte>>, more: seq<Byte>)
    requires ClientInv(c, i, off, got, acks) && i < |c.reqs| && off == FrameSize(c.reqs[i])
    requires |got + more| <= |c.reqs[i].header|
    ensures ClientInv(c, i, off, got + more, acks)
  {}

  lemma ClientSendLinked(c: Config, s: Sys, s': Sys, k: nat)
    requires Inv(c, s) && s.i < |c.reqs| && s.off + k <= FrameSize(c.reqs[s.i])
    requires s'.i == s.i && s'.off == s.off + k && s'.got == s.got && s'.s2c == s.s2c && s'.ep == s.ep
    requires s'.c2s == s.c2s + Frame(c.reqs[s.i])[s.off..s.off + k]
    ensures LinksAt(c, s')
  {
    ClientSendLinks(c, s.i, s.off, s.got, s.c2s, s.s2c, |s.ep.served|, Received(s.ep), Replied(s.ep), k);
  }

  lemma ClientSendKeeps(c: Config, s: Sys, k: nat)
    requires Inv(c, s) && Enabled(c, s, ClientSend(k))
    ensures Inv(c, Apply(c, s, ClientSend(k)))
  {
    var s' := Apply(c, s, ClientSend(k));
    ClientSendLinked(c, s, s', k);
    SendingClient(c, s.i, s.off, s.got, s.acks, k);
    AssembleClient(c, s, s');
  }

  lemma ClientRecvKeeps(c: Config, s: Sys, k: nat)
    requires Inv(c, s) && Enabled(c, s, ClientRecv(k))
    ensures Inv(c, Apply(c, s, ClientRecv(k)))
  {
    var s' := Apply(c, s, ClientRecv(k));
    ClientRecvLinks(c, s.i, s.off, s.got, s.c2s, s.s2c, |s.ep.served|, Received(s.ep), Replied(s.ep), k);
    assert LinksAt(c, s');
    ReceivingClient(c, s.i, s.off, s.got, s.acks, s.s2c[..k]);
    AssembleClient(c, s, s');
  }

  /** The endpoint has sent nothing beyond the headers before the first drop. */
  lemma ServerBound(c: Config, ep: Ep)
    requires ServerInv(c, ep)
    ensures DownPos(c, |ep.served|) + Replied(ep) <= DownPos(c, Limit(c.reqs))
  {
    var j := |ep.served|;
    DownMonotone(c, j, Limit(c.reqs));
    if ep.state.Replying? {
      OwnersAreLast(c.reqs, j + 1);
      HeaderAt(c, j);
      DownMonotone(c, j + 1, Limit(c.reqs));
    }
  }

  /** Between the first drop and the next nonempty header there is nothing to acknowledge. */
  lemma {:induction false} NoHeadersToReach(c: Config, n: nat)
    requires Limit(c.reqs) <= n <= Reach(c.reqs)
    ensures DownPos(c, n) == DownPos(c, Limit(c.reqs))
    decreases n
  {
    if n == Limit(c.reqs) {
    } else {
      NoHeadersToReach(c, n - 1);
      HeaderAt(c, n - 1);
    }
  }

  /** An ack is complete only as far as the client can get, and it is then the header of its request. */
  lemma AckIsHeader(c: Config, s: Sys)
    requires Inv(c, s) && s.i < |c.reqs| && |s.got| == |c.reqs[s.i].header|
    ensures s.i < Reach(c.reqs) && s.got == c.reqs[s.i].header
  {
    HeaderAt(c, s.i);
    ServerBound(c, s.ep);
    if s.i == Reach(c.reqs) { NoHeadersToReach(c, s.i); }
  }

  lemma NextClient(c: Config, i: nat, acks: seq<seq<Byte>>, ack: seq<Byte>)
    requires i < Reach(c.reqs) && acks == Headers(c.reqs)[..i] && ack == c.reqs[i].header
    ensures ClientInv(c, i + 1, 0, [], acks + [ack])
  {
    assert Headers(c.reqs)[i] == ack;
  }

  lemma ClientReturnKeeps(c: Config, s: Sys)
    requires Inv(c, s) && Enabled(c, s, ClientReturn)
    ensures Inv(c, Apply(c, s, ClientReturn))
  {
    var s' := Apply(c, s, ClientReturn);
    AckIsHeader(c, s);
    NextClient(c, s.i, s.acks, s.got);
    ReturnLinks(c, s, s');
    AssembleClient(c, s, s');
  }

  lemma ReturnLinks(c: Config, s: Sys, s': Sys)
    requires Inv(c, s) && s.i < |c.reqs| && s.off == FrameSize(c.reqs[s.i]) && |s.got| == |c.reqs[s.i].header|
    requires s'.i == s.i + 1 && s'.off == 0 && s'.got == [] && s'.c2s == s.c2s && s'.s2c == s.s2c && s'.ep == s.ep
    ensures LinksAt(c, s')
  {
    HeaderAt(c, s.i);
    FrameAt(c, s.i);
    Reread(Down(c), DownPos(c, s.i), DownPos(c, s.i) + |s.got|,
      DownPos(c, |s.ep.served|) + Replied(s.ep), s.got, s.s2c);
  }

  /** Bytes that have been taken can be forgotten. */
  lemma Reread(t: seq<Byte>, lo: nat, mid: nat, hi: nat, taken: seq<Byte>, flight: seq<Byte>)
    requires Link(t, lo, mid, hi, taken, flight)
    ensures Link(t, mid, mid, hi, [], flight)
  {}

  // ---- endpoint steps ----

  lemma ServerPc(c: Config, ep: Ep, e: Ep)
    requires ServerInv(c, ep) && LocalInv(e) && e.(pc := Idle) == ep
    ensures ServerInv(c, e) && e.served == ep.served && Received(e) == Received(ep) && Replied(e) == Replied(ep)
  {
    assert e.served == ep.served && e.state == ep.state && e.tx == ep.tx;
  }

  lemma CallKeeps(c: Config, s: Sys, a: Action)
    requires Inv(c, s) && Enabled(c, s, a) && (a.CallRecv? || a.CallSend?)
    ensures Inv(c, Apply(c, s, a))
  {
    EnterKeepsInv(s.ep);
    EnterMovesNothing(s.ep);
    ServerPc(c, s.ep, Apply(c, s, a).ep);
  }

  /** The eight bytes the endpoint parses are the sizes of the frame it is in. */
  lemma ReadsTheSizes(c: Config, meta: seq<Byte>, rest: seq<Byte>, j: nat)
    requires AllFit(c) && j < |c.reqs| && |meta| == META_SIZE
    requires UpPos(c, j) + |meta + rest| <= |Up(c)| && meta + rest == Up(c)[UpPos(c, j)..UpPos(c, j) + |meta + rest|]
    ensures HeaderSize(meta) == |c.reqs[j].header| && DataSize(meta) == |c.reqs[j].data|
  {
    var u := UpPos(c, j);
    FrameAt(c, j);
    assert meta == (meta + rest)[..META_SIZE];
    SubSlice(Up(c), u, u + |meta + rest|, 0, META_SIZE);
    assert Meta(c.reqs[j]) == Frame(c.reqs[j])[..META_SIZE];
    SubSlice(Up(c), u, u + FrameSize(c.reqs[j]), 0, META_SIZE);
    MetaRoundTrip(c.reqs[j]);
  }

  /** The client never runs past the frame it is in, and that is at most the last it can start. */
  lemma ClientBound(c: Config, i: nat, off: nat, got: seq<Byte>, acks: seq<seq<Byte>>)
    requires ClientInv(c, i, off, got, acks)
    ensures UpPos(c, i) + off <= UpLimit(c)
  {
    var w := Reach(c.reqs);
    if i < w {
      FrameAt(c, i);
      UpMonotone(c, i + 1, w);
    }
  }

  /** e holds what the stream has from the current frame on, as far as up. */
  predicate ReadsOn(c: Config, ep: Ep, e: Ep, up: nat) {
    && |ep.served| <= |c.reqs| && up <= |Up(c)| && up <= UpLimit(c)
    && UpPos(c, |ep.served|) + |Received(e)| <= up
    && Received(e) == Up(c)[UpPos(c, |ep.served|)..UpPos(c, |ep.served|) + |Received(e)|]
  }

  function Bulk(r: Request): nat {
    |r.header| + |r.data|
  }

  /** The endpoint answers, or has answered, the first drop with more bytes than that request has. */
  predicate Swallowed(c: Config, ep: Ep) {
    var d := Limit(c.reqs);
    && d < |c.reqs|
    && ((|ep.served| == d && ep.state.Replying? && Bulk(Request(ep.header, ep.data)) > Bulk(c.reqs[d]))
        || (|ep.served| > d && Bulk(ep.served[d]) > Bulk(c.reqs[d])))
  }

  /** A reply to the first drop has bytes of the frames behind it, and these were sent without an answer. */
  lemma ReplyAtDropSwallows(c: Config, e: Ep, up: nat)
    requires LocalInv(e) && e.state.Replying? && |e.served| == Limit(c.reqs) < |c.reqs|
    requires e.headerOwner == HeaderOwner(c.reqs, |e.served| + 1) && e.dataOwner == DataOwner(c.reqs, |e.served| + 1)
    requires UpPos(c, |e.served|) + |Received(e)| <= up <= UpLimit(c)
    ensures Swallowed(c, e) && !Starved(c)
  {
    assert |Received(e)| == META_SIZE + HeaderLen(e) + DataLen(e);
    WaitsForMore(c.reqs);
  }

  /** The owners after the sizes of the frame have been read. */
  lemma SizesRead(c: Config, ep: Ep, io: Io, e: Ep, up: nat)
    requires ReadsOn(c, ep, e, up) && |ep.served| < |c.reqs| && |Received(e)| >= META_SIZE
    ensures AllFit(c) && ServerInv(c, ep) && Advances(ep, e, io) && |e.meta| == META_SIZE && !e.state.NewRpc? ==>
              e.headerOwner == HeaderOwner(c.reqs, |ep.served| + 1) && e.dataOwner == DataOwner(c.reqs, |ep.served| + 1)
  {
    if AllFit(c) && |e.meta| == META_SIZE && ep.state.NewRpc? {
      Associates(e.meta, e.header, e.data);
      ReadsTheSizes(c, e.meta, e.header + e.data, |ep.served|);
    }
  }

  lemma OwnersDecide(c: Config, ep: Ep, io: Io, e: Ep)
    requires ServerInv(c, ep) && Advances(ep, e, io) && LocalInv(e)
    requires !e.state.NewRpc? ==> |ep.served| < |c.reqs|
    requires !e.state.NewRpc? ==> e.headerOwner == HeaderOwner(c.reqs, |ep.served| + 1)
    requires !e.state.NewRpc? ==> e.dataOwner == DataOwner(c.reqs, |ep.served| + 1)
    ensures (e.state.Replying? && |e.served| == Limit(c.reqs)) || ServerInv(c, e)
  {}

  /** The endpoint's part of the invariant after a step that received bytes of frame j. */
  lemma ReceiveServer(c: Config, ep: Ep, io: Io, e: Ep, up: nat)
    requires ReadsOn(c, ep, e, up)
    ensures AllFit(c) && ServerInv(c, ep) && Advances(ep, e, io) && LocalInv(e) ==>
              ServerInv(c, e) || (Swallowed(c, e) && !Starved(c))
  {
    if AllFit(c) && ServerInv(c, ep) && Advances(ep, e, io) && LocalInv(e) {
      if !e.state.NewRpc? {
        assert |Received(e)| >= META_SIZE;
        assert |ep.served| < |c.reqs|;
        SizesRead(c, ep, io, e, up);
      }
      OwnersDecide(c, ep, io, e);
      if e.state.Replying? && |e.served| == Limit(c.reqs) { ReplyAtDropSwallows(c, e, up); }
    }
  }

  lemma ReceiveLinks(c: Config, i: nat, off: nat, got: seq<Byte>, c2s: seq<Byte>, s2c: seq<Byte>, j: nat,
      received: seq<Byte>, replied: nat, k: nat)
    requires i <= |c.reqs| && j <= |c.reqs| && k <= |c2s|
    requires Links(c, i, off, got, c2s, s2c, j, received, replied)
    ensures Links(c, i, off, got, c2s[k..], s2c, j, received + c2s[..k], replied)
  {
    Take(Up(c), UpPos(c, j), UpPos(c, j) + |received|, UpPos(c, i) + off, received, c2s, k);
  }

  lemma AfterReceive(ep: Ep, io: Io)
    requires LocalInv(ep) && Receiving(ep) && OkIo(ep, io) && !EndOfStream(ep, io)
    ensures var e := OnIo(ep, io);
      LocalInv(e) && Advances(ep, e, io) && Replied(e) == 0 == Replied(ep) && e.served == ep.served
      && Received(e) == Received(ep) + Bytes(io)
  {
    StepKeepsInv(ep, io);
    ReceiveAdvances(ep, io);
  }

  lemma ReceivedSlice(c: Config, s: Sys, k: nat)
    requires Inv(c, s) && k <= |s.c2s|
    ensures UpPos(c, |s.ep.served|) + |Received(s.ep)| + k <= UpPos(c, s.i) + s.off <= |Up(c)|
    ensures var u := UpPos(c, |s.ep.served|);
      Received(s.ep) + s.c2s[..k] == Up(c)[u..u + |Received(s.ep)| + k]
  {
    var j, r := |s.ep.served|, Received(s.ep);
    Take(Up(c), UpPos(c, j), UpPos(c, j) + |r|, UpPos(c, s.i) + s.off, r, s.c2s, k);
  }

  lemma ReadsFurther(c: Config, s: Sys, io: Io, e: Ep)
    requires Inv(c, s) && Received(e) == Received(s.ep) + Bytes(io) && Bytes(io) <= s.c2s
    ensures ReadsOn(c, s.ep, e, UpPos(c, s.i) + s.off)
  {
    var k := |Bytes(io)|;
    assert Bytes(io) == s.c2s[..k];
    ReceivedSlice(c, s, k);
    ClientBound(c, s.i, s.off, s.got, s.acks);
  }

  lemma ReceivedServer(c: Config, s: Sys, io: Io, e: Ep)
    requires AllFit(c) && Inv(c, s) && LocalInv(e) && Advances(s.ep, e, io) && Bytes(io) <= s.c2s
    ensures ServerInv(c, e) || (Swallowed(c, e) && !Starved(c))
  {
    ReadsFurther(c, s, io, e);
    ReceiveServer(c, s.ep, io, e, UpPos(c, s.i) + s.off);
  }

  lemma ReceivedLinks(c: Config, s: Sys, s': Sys)
    requires Inv(c, s) && s'.ep.served == s.ep.served && Replied(s'.ep) == Replied(s.ep) && s'.i == s.i
    requires s'.off == s.off && s'.got == s.got
    requires var k := |s.c2s| - |s'.c2s|;
      && k >= 0 && s'.c2s == s.c2s[k..] && Received(s'.ep) == Received(s.ep) + s.c2s[..k]
    requires s'.s2c == s.s2c
    ensures LinksAt(c, s')
  {
    ReceiveLinks(c, s.i, s.off, s.got, s.c2s, s.s2c, |s.ep.served|, Received(s.ep), Replied(s.ep), |s.c2s| - |s'.c2s|);
  }

  /** A receive step, or a would-block on a receive. */
  lemma ReceiveKeeps(c: Config, s: Sys, io: Io)
    requires AllFit(c) && Inv(c, s) && Receiving(s.ep)
    requires OkIo(s.ep, io) && !EndOfStream(s.ep, io)
    requires Bytes(io) <= s.c2s
    ensures Inv(c, ServerStep(c, s, io)) || (Swallowed(c, ServerStep(c, s, io).ep) && !Starved(c))
  {
    var s' := ServerStep(c, s, io);
    AfterReceive(s.ep, io);
    ReceivedServer(c, s, io, s'.ep);
    if ServerInv(c, s'.ep) {
      ReceivedLinks(c, s, s');
      Assemble(c, s, s');
    }
  }

  lemma Assemble(c: Config, s: Sys, s': Sys)
    requires s'.i == s.i && s'.off == s.off && s'.got == s.got && s'.acks == s.acks
    requires |s'.c2s| <= c.inCap && |s'.s2c| <= c.outCap && s'.i <= |c.reqs| && |s'.ep.served| <= |c.reqs|
    ensures ClientInv(c, s.i, s.off, s.got, s.acks) && ServerInv(c, s'.ep) && LinksAt(c, s') ==> Inv(c, s')
  {}

  // ---- replying ----

  /** While a reply is queued the endpoint holds exactly the frame of its request. */
  lemma HoldsTheFrame(c: Config, s: Sys)
    requires Inv(c, s) && s.ep.state.Replying?
    ensures |s.ep.served| < Limit(c.reqs)
    ensures Request(s.ep.header, s.ep.data) == c.reqs[|s.ep.served|]
    ensures |Received(s.ep)| == FrameSize(c.reqs[|s.ep.served|])
  {
    var j, e := |s.ep.served|, s.ep;
    var r, u := c.reqs[j], UpPos(c, j);
    OwnersAreLast(c.reqs, j + 1);
    FrameAt(c, j);
    var f := Frame(r);
    assert Received(e) == f;
    assert e.header == (e.meta + e.header + e.data)[META_SIZE..META_SIZE + |r.header|];
    assert r.header == f[META_SIZE..META_SIZE + |r.header|];
    assert e.data == (e.meta + e.header + e.data)[META_SIZE + |r.header|..];
    assert r.data == f[META_SIZE + |r.header|..];
  }

  lemma SendBlockedKeeps(c: Config, s: Sys)
    requires Inv(c, s) && s.ep.pc.InSend?
    ensures Inv(c, ServerStep(c, s, Blocked))
  {
    StepKeepsInv(s.ep, Blocked);
    var e := OnSend(s.ep, Blocked);
    assert e == s.ep.(writable := true, pc := Idle);
    assert Received(e) == Received(s.ep) && Replied(e) == Replied(s.ep);
  }

  /** The state after more reply bytes: the view moves on, or the RPC is over. */
  predicate Progresses(ep: Ep, e: Ep, bytes: seq<Byte>) {
    var m := Replied(ep) + |bytes|;
    && m <= |ep.header| && bytes == ep.header[Replied(ep)..m]
    && (if m == |ep.header| then
          && Received(e) == [] && Replied(e) == 0 && e.state.NewRpc?
          && e.served == ep.served + [Request(ep.header, ep.data)]
          && e.headerOwner == ep.headerOwner && e.dataOwner == ep.dataOwner
        else
          e == ep.(tx := [Tx(ep.header, m)]))
  }

  lemma AfterSend(ep: Ep, bytes: seq<Byte>)
    requires LocalInv(ep) && ep.pc.InSend? && OkIo(ep, Sent(bytes))
    ensures LocalInv(OnIo(ep, Sent(bytes))) && Progresses(ep, OnIo(ep, Sent(bytes)), bytes)
  {
    StepKeepsInv(ep, Sent(bytes));
    assert |bytes| <= |Offered(ep)|;
  }

  lemma SendLinks(c: Config, i: nat, off: nat, got: seq<Byte>, c2s: seq<Byte>, s2c: seq<Byte>, j: nat,
      received: seq<Byte>, n: nat, m: nat)
    requires i <= |c.reqs| && j < |c.reqs| && n <= m <= |c.reqs[j].header|
    requires Links(c, i, off, got, c2s, s2c, j, received, n)
    ensures Links(c, i, off, got, c2s, s2c + c.reqs[j].header[n..m], j, received, m)
  {
    HeaderAt(c, j);
    var d, h := DownPos(c, j), c.reqs[j].header;
    SubSlice(Down(c), d, d + |h|, n, m);
    Fill(Down(c), DownPos(c, i), DownPos(c, i) + |got|, d + n, got, s2c, h[n..m]);
  }

  /** With the reply out and the frame consumed, both links stand at the next request. */
  lemma NextLinks(c: Config, i: nat, off: nat, got: seq<Byte>, c2s: seq<Byte>, s2c: seq<Byte>, j: nat,
      received: seq<Byte>)
    requires i <= |c.reqs| && j < |c.reqs| && |received| == FrameSize(c.reqs[j])
    requires Links(c, i, off, got, c2s, s2c, j, received, |c.reqs[j].header|)
    ensures Links(c, i, off, got, c2s, s2c, j + 1, [], 0)
  {
    FrameAt(c, j);
    HeaderAt(c, j);
  }

  lemma ServedInv(c: Config, ep: Ep, e: Ep)
    requires ServerInv(c, ep) && ep.state.Replying? && LocalInv(e) && e.state.NewRpc?
    requires e.served == ep.served + [c.reqs[|ep.served|]]
    requires e.headerOwner == ep.headerOwner && e.dataOwner == ep.dataOwner
    ensures ServerInv(c, e)
  {
    assert e.served == c.reqs[..|ep.served| + 1];
  }

  lemma SentServer(c: Config, s: Sys, bytes: seq<Byte>, e: Ep)
    requires Inv(c, s) && s.ep.state.Replying? && LocalInv(e) && Progresses(s.ep, e, bytes)
    ensures ServerInv(c, e)
  {
    var ep, m := s.ep, Replied(s.ep) + |bytes|;
    HoldsTheFrame(c, s);
    if m == |ep.header| { ServedInv(c, ep, e); } else { ReplyAdvanced(c, ep, e, m); }
  }

  lemma SentLinks(c: Config, s: Sys, bytes: seq<Byte>, s': Sys)
    requires Inv(c, s) && s.ep.state.Replying? && LocalInv(s'.ep) && Progresses(s.ep, s'.ep, bytes)
    requires |s'.ep.served| <= |c.reqs|
    requires s'.i == s.i && s'.off == s.off && s'.got == s.got && s'.c2s == s.c2s && s'.s2c == s.s2c + bytes
    ensures LinksAt(c, s')
  {
    var j, n, m, e := |s.ep.served|, Replied(s.ep), Replied(s.ep) + |bytes|, s'.ep;
    HoldsTheFrame(c, s);
    assert bytes == c.reqs[j].header[n..m];
    SendLinks(c, s.i, s.off, s.got, s.c2s, s.s2c, j, Received(s.ep), n, m);
    if m == |s.ep.header| {
      NextLinks(c, s.i, s.off, s.got, s.c2s, s.s2c + bytes, j, Received(s.ep));
    } else {
      assert e.served == s.ep.served && Received(e) == Received(s.ep) && Replied(e) == m;
    }
  }

  lemma SendKeeps(c: Config, s: Sys, bytes: seq<Byte>)
    requires Inv(c, s) && s.ep.pc.InSend? && OkIo(s.ep, Sent(bytes)) && |s.s2c| + |bytes| <= c.outCap
    ensures Inv(c, ServerStep(c, s, Sent(bytes)))
  {
    var s' := ServerStep(c, s, Sent(bytes));
    AfterSend(s.ep, bytes);
    SentServer(c, s, bytes, s'.ep);
    SentLinks(c, s, bytes, s');
    Assemble(c, s, s');
  }

  lemma ReplyAdvanced(c: Config, ep: Ep, e: Ep, n: nat)
    requires ServerInv(c, ep) && LocalInv(e) && e == ep.(tx := [Tx(ep.header, n)])
    ensures ServerInv(c, e) && e.served == ep.served && Received(e) == Received(ep) && Replied(e) == n
  {}

  /** Whatever the sizes, a step keeps the invariant or swallows a frame, and it can do that only outside the domain
      of the echo. */
  lemma StepKeepsOrSwallows(c: Config, s: Sys, a: Action)
    requires AllFit(c) && Inv(c, s) && Enabled(c, s, a)
    ensures Inv(c, Apply(c, s, a)) || (Swallowed(c, Apply(c, s, a).ep) && !Starved(c))
  {
    match a
    case ClientSend(k) => ClientSendKeeps(c, s, k);
    case ClientRecv(k) => ClientRecvKeeps(c, s, k);
    case ClientReturn => ClientReturnKeeps(c, s);
    case Fetch(_, _) =>
    case CallRecv => CallKeeps(c, s, a);
    case CallSend => CallKeeps(c, s, a);
    case ServerRecv(_) => ReceiveKeeps(c, s, IoOf(s, a));
    case ServerSend(k) => SendKeeps(c, s, Offered(s.ep)[..k]);
    case ServerBlock =>
      if s.ep.pc.InSend? { SendBlockedKeeps(c, s); } else { ReceiveKeeps(c, s, Blocked); }
  }

  /** Every step of every interleaving keeps the invariant. */
  lemma StepKeeps(c: Config, s: Sys, a: Action)
    requires Admissible(c) && Inv(c, s) && Enabled(c, s, a)
    ensures Inv(c, Apply(c, s, a))
  {
    StepKeepsOrSwallows(c, s, a);
  }

  /** What the endpoint is answering stays until it is out, and what it has answered is never forgotten. */
  lemma AnswersStay(ep: Ep, io: Io)
    requires LocalInv(ep) && OkIo(ep, io)
    ensures ep.served <= OnIo(ep, io).served
    ensures ep.state.Replying? ==>
              if OnIo(ep, io).state.Replying? then
                OnIo(ep, io).header == ep.header && OnIo(ep, io).data == ep.data && OnIo(ep, io).served == ep.served
              else
                OnIo(ep, io).served == ep.served + [Request(ep.header, ep.data)]
  {}

  lemma SwallowedAfter(c: Config, ep: Ep, io: Io)
    requires LocalInv(ep) && OkIo(ep, io) && Swallowed(c, ep)
    ensures Swallowed(c, OnIo(ep, io))
  {
    AnswersStay(ep, io);
  }

  lemma SwallowedStays(c: Config, s: Sys, a: Action)
    requires LocalInv(s.ep) && Enabled(c, s, a) && Swallowed(c, s.ep)
    ensures Swallowed(c, Apply(c, s, a).ep)
  {
    match a
    case ServerRecv(_) => SwallowedAfter(c, s.ep, IoOf(s, a));
    case ServerSend(_) => SwallowedAfter(c, s.ep, IoOf(s, a));
    case ServerBlock => SwallowedAfter(c, s.ep, Blocked);
    case CallRecv => EnterMovesNothing(s.ep);
    case CallSend => EnterMovesNothing(s.ep);
    case _ =>
  }
}
