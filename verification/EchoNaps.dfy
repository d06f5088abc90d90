/** How an endpoint can fall asleep on unread frames: the room this takes, and so when it cannot happen. */
module EchoNaps {
  import opened Wire
  import opened EndpointSpec
  import opened EchoSystem
  import opened EchoCorrect
  import opened EchoRuns
  import opened EchoProgress

  /** The least that the handler call which finishes a request with an empty header reads of it: the sizes, if there is
      nothing else, or the last byte of its data. */
  function Last(r: Request): nat {
    if r.data == [] then META_SIZE else 1
  }

  /** What the running handler call has read for certain, of a request that may leave no edge behind. */
  function Spent(ep: Ep): nat {
    match ep.pc
    case Idle => 0
    case InMeta => |ep.meta|
    case InHeader => if HeaderLen(ep) == 0 && DataLen(ep) == 0 then META_SIZE else 0
    case InData => 0
    case InSend => if ep.header == [] then Last(Request(ep.header, ep.data)) else 0
  }

  /** Without an edge nothing has arrived since the event was fetched, so what is unread was in the channel together
      with what the handler call has read. */
  predicate Drowsy(c: Config, s: Sys) {
    && Alert(c, s)
    && (!s.armed && !s.ep.pc.Idle? ==> |s.c2s| + Spent(s.ep) <= c.inCap)
    && (!s.armed && s.ep.pc.Idle? && !s.todoRecv && s.c2s != [] ==> Asleep(c, s))
  }

  /** Between two requests, after one with an empty header whose end shared the channel with what is unread now. */
  predicate Asleep(c: Config, s: Sys) {
    && s.ep.state.NewRpc? && s.ep.served != []
    && s.ep.served[|s.ep.served| - 1].header == []
    && |s.c2s| + Last(s.ep.served[|s.ep.served| - 1]) <= c.inCap
  }

  // ---- every step keeps it ----

  lemma MetaSpends(ep: Ep, io: Io)
    requires LocalInv(ep) && ep.pc.InMeta? && OkIo(ep, io) && !EndOfStream(ep, io)
    ensures !OnMeta(ep, io).pc.Idle? && Spent(OnMeta(ep, io)) <= Spent(ep) + |Bytes(io)|
  {}

  lemma HeaderSpends(ep: Ep, io: Io)
    requires LocalInv(ep) && ep.pc.InHeader? && OkIo(ep, io) && !EndOfStream(ep, io)
    ensures !OnHeader(ep, io).pc.Idle? ==> Spent(OnHeader(ep, io)) <= Spent(ep) + |Bytes(io)|
  {
    assert ep.header + [] == ep.header;
  }

  lemma DataSpends(ep: Ep, io: Io)
    requires LocalInv(ep) && ep.pc.InData? && OkIo(ep, io) && !EndOfStream(ep, io)
    ensures !OnData(ep, io).pc.Idle? ==> Spent(OnData(ep, io)) <= Spent(ep) + |Bytes(io)|
  {
    assert ep.data + [] == ep.data;
  }

  /** A receive step spends at most what it takes from the channel. */
  lemma ReceiveSpends(ep: Ep, io: Io)
    requires LocalInv(ep) && Receiving(ep) && OkIo(ep, io) && !EndOfStream(ep, io)
    ensures !OnIo(ep, io).pc.Idle? ==> Spent(OnIo(ep, io)) <= Spent(ep) + |Bytes(io)|
    ensures OnIo(ep, io).pc.Idle? ==> io.Blocked? || |Bytes(io)| < RecvLen(ep)
    ensures OnIo(ep, io).state.Replying? ==> OnIo(ep, io).pc.InSend?
    ensures OnIo(ep, io).pc.InMeta? ==> OnIo(ep, io).meta == ep.meta + Bytes(io)
  {
    ReceivePcs(ep, io);
    match ep.pc
    case InMeta => MetaSpends(ep, io);
    case InHeader => HeaderSpends(ep, io);
    case InData => DataSpends(ep, io);
  }

  lemma DrowsyReceive(c: Config, s: Sys, a: Action)
    requires LocalInv(s.ep) && |s.c2s| <= c.inCap && Drowsy(c, s) && EagerEnabled(c, s, a) && Receiving(s.ep)
    requires a.ServerRecv? || a.ServerBlock?
    ensures Drowsy(c, Apply(c, s, a))
  {
    Stages(s.ep);
    ReceiveIsLegal(c, s, a);
    ReceiveSpends(s.ep, IoOf(s, a));
  }

  /** Behind a nonempty header that is being answered nothing arrives. */
  lemma SilentReply(c: Config, s: Sys)
    requires Inv(c, s) && s.ep.state.Replying? && s.ep.header != []
    ensures s.c2s == []
  {
    UnansweredIsWaiting(c, s);
    BehindTheReply(c, s);
  }

  lemma DrowsySent(c: Config, s: Sys, io: Io)
    requires LocalInv(s.ep) && Drowsy(c, s) && s.ep.pc.InSend? && s.ep.state.Replying?
    requires OkIo(s.ep, io) && io.Sent? && (s.ep.header != [] ==> s.c2s == [])
    ensures Drowsy(c, ServerStep(c, s, io))
  {
    SendPcs(s.ep, io);
    AnswersStay(s.ep, io);
  }

  lemma DrowsyUnsent(c: Config, s: Sys)
    requires LocalInv(s.ep) && Drowsy(c, s) && s.ep.pc.InSend? && s.ep.state.Replying?
    requires |s.s2c| == c.outCap && s.ep.header != [] && s.c2s == []
    ensures Drowsy(c, ServerStep(c, s, Blocked))
  {
    SendPcs(s.ep, Blocked);
  }

  lemma DrowsySend(c: Config, s: Sys, a: Action)
    requires Roomy(c) && Inv(c, s) && Drowsy(c, s) && EagerEnabled(c, s, a) && s.ep.pc.InSend?
    requires a.ServerSend? || a.ServerBlock?
    ensures Drowsy(c, Apply(c, s, a))
  {
    Stages(s.ep);
    if s.ep.header != [] { SilentReply(c, s); } else { EmptyReplyHasRoom(c, s); }
    if a.ServerSend? { DrowsySent(c, s, IoOf(s, a)); } else { DrowsyUnsent(c, s); }
  }

  lemma EnterSpends(ep: Ep)
    requires LocalInv(ep) && ep.pc.Idle?
    ensures !ep.state.Replying? ==> Spent(EnterRecv(ep)) == 0
    ensures ep.state.Replying? && ep.header != [] ==> Spent(EnterSend(ep)) == 0
  {}

  lemma DrowsyCall(c: Config, s: Sys, a: Action)
    requires Inv(c, s) && Drowsy(c, s) && EagerEnabled(c, s, a) && (a.CallRecv? || a.CallSend?)
    ensures Drowsy(c, Apply(c, s, a))
  {
    EnterPcs(s.ep);
    EnterSpends(s.ep);
    if s.ep.state.Replying? { SilentReply(c, s); }
  }

  lemma DrowsyClient(c: Config, s: Sys, a: Action)
    requires LocalInv(s.ep) && Drowsy(c, s) && EagerEnabled(c, s, a)
    requires a.ClientSend? || a.ClientRecv? || a.ClientReturn? || a.Fetch?
    ensures Drowsy(c, Apply(c, s, a))
  {}

  lemma DrowsyKeeps(c: Config, s: Sys, a: Action)
    requires Roomy(c) && Inv(c, s) && Drowsy(c, s) && EagerEnabled(c, s, a)
    ensures Drowsy(c, Apply(c, s, a))
  {
    match a
    case CallRecv => DrowsyCall(c, s, a);
    case CallSend => DrowsyCall(c, s, a);
    case ServerRecv(_) => DrowsyReceive(c, s, a);
    case ServerSend(_) => DrowsySend(c, s, a);
    case ServerBlock =>
      Stages(s.ep);
      if s.ep.pc.InSend? { DrowsySend(c, s, a); } else { DrowsyReceive(c, s, a); }
    case _ => DrowsyClient(c, s, a);
  }

  lemma {:induction false} RunIsDrowsy(c: Config, s: Sys, run: seq<Action>)
    requires Setting(c) && Inv(c, s) && Drowsy(c, s) && EagerExec(c, s, run).Some?
    ensures Inv(c, EagerExec(c, s, run).value) && Drowsy(c, EagerExec(c, s, run).value)
    decreases |run|
  {
    if run == [] {
    } else {
      StepKeeps(c, s, run[0]);
      DrowsyKeeps(c, s, run[0]);
      RunIsDrowsy(c, Apply(c, s, run[0]), run[1..]);
    }
  }

  // ---- what a stuck endpoint has slept through ----

  /** The last frame that the client sends, from the second on, before it has to wait or is through. */
  function Final(rs: seq<Request>): nat
    requires |rs| >= 2
  {
    if Waits(rs, 1) < |rs| then Waits(rs, 1) else |rs| - 1
  }

  /** The room it takes to sleep on that frame. */
  function NapRoom(rs: seq<Request>): nat
    requires |rs| >= 2
  {
    FrameSize(rs[Final(rs)]) + Last(rs[Final(rs) - 1])
  }

  lemma {:induction false} EmptyUpTo(rs: seq<Request>, a: nat, b: nat)
    requires NonDecreasing(rs) && a <= b < |rs| && rs[b].header == []
    ensures rs[a].header == []
    decreases b - a
  {
    if a == b {
    } else {
      EmptyUpTo(rs, a + 1, b);
      assert Grows(rs, a + 1);
    }
  }

  /** Asleep with everything unread that the client can send: the client is through, or waits for the ack of frame w. */
  lemma AsleepRoom(c: Config, s: Sys, w: nat)
    requires Inv(c, s) && s.ep.pc.Idle? && Asleep(c, s) && |s.ep.served| <= w < |c.reqs|
    requires UpPos(c, s.i) + s.off == UpPos(c, w + 1)
    ensures FrameSize(c.reqs[w]) + Last(c.reqs[w - 1]) <= c.inCap
  {
    var j := |s.ep.served|;
    UnreadFrames(c, s);
    if j < w {
      TwoFrames(c, j, w);
    } else {
      FrameAt(c, w);
      assert c.reqs[j - 1] == s.ep.served[j - 1];
    }
  }

  lemma TwoFrames(c: Config, j: nat, w: nat)
    requires j < w < |c.reqs|
    ensures UpPos(c, j) + FrameSize(c.reqs[w - 1]) + FrameSize(c.reqs[w]) <= UpPos(c, w + 1)
  {
    FrameAt(c, w);
    FrameAt(c, w - 1);
    UpMonotone(c, j, w - 1);
  }

  lemma UnreadFrames(c: Config, s: Sys)
    requires Inv(c, s) && s.ep.pc.Idle? && s.ep.state.NewRpc?
    ensures UpPos(c, |s.ep.served|) + |s.c2s| == UpPos(c, s.i) + s.off
  {
    assert Received(s.ep) == [];
  }

  /** Where the client stands when it can do nothing although frames are unread. */
  lemma SleptThrough(c: Config, s: Sys)
    requires Inv(c, s) && NonDecreasing(c.reqs) && s.ep.pc.Idle? && Asleep(c, s) && s.c2s != [] && s.s2c == []
    requires s.i < |c.reqs| ==> s.off == FrameSize(c.reqs[s.i]) && s.got == [] && c.reqs[s.i].header != []
    ensures |c.reqs| >= 2 && |s.ep.served| <= Final(c.reqs)
    ensures UpPos(c, s.i) + s.off == UpPos(c, Final(c.reqs) + 1)
  {
    var j := |s.ep.served|;
    assert c.reqs[j - 1] == s.ep.served[j - 1];
    assert Received(s.ep) == [] && UpPos(c, j) < UpPos(c, s.i) + s.off;
    if s.i < |c.reqs| {
      FrameAt(c, s.i);
      WaitsHere(c, s);
    } else {
      ThroughHere(c, s);
    }
  }

  lemma SameDownPos(c: Config, s: Sys)
    requires Inv(c, s) && s.ep.pc.Idle? && s.ep.state.NewRpc? && s.s2c == [] && s.got == []
    ensures DownPos(c, s.i) == DownPos(c, |s.ep.served|)
  {}

  /** No ack between the positions of the two parties: the headers there are empty. */
  lemma EmptyBetween(c: Config, j: nat, i: nat, k: nat)
    requires j <= k < i <= |c.reqs| && DownPos(c, i) == DownPos(c, j)
    ensures c.reqs[k].header == []
  {
    HeaderAt(c, k);
    DownMonotone(c, j, k);
    DownMonotone(c, k + 1, i);
  }

  lemma WaitsHere(c: Config, s: Sys)
    requires Inv(c, s) && NonDecreasing(c.reqs) && s.ep.pc.Idle? && Asleep(c, s) && s.s2c == [] && s.got == []
    requires s.i < |c.reqs| && c.reqs[s.i].header != [] && UpPos(c, |s.ep.served|) < UpPos(c, s.i + 1)
    ensures |c.reqs| >= 2 && |s.ep.served| <= s.i == Final(c.reqs)
  {
    var j := |s.ep.served|;
    assert c.reqs[j - 1] == s.ep.served[j - 1];
    SameDownPos(c, s);
    if j > s.i { UpMonotone(c, s.i + 1, j); }
    if j < s.i { EmptyBetween(c, j, s.i, s.i - 1); }
    assert c.reqs[s.i - 1].header == [];
    FirstNonempty(c.reqs, 1, s.i);
  }

  lemma FirstNonempty(rs: seq<Request>, k: nat, i: nat)
    requires NonDecreasing(rs) && k <= i < |rs| && rs[i].header != [] && (k < i ==> rs[i - 1].header == [])
    ensures Waits(rs, k) == i
  {
    var w := Waits(rs, k);
    if w < i { EmptyUpTo(rs, w, i - 1); }
  }

  lemma AllEmpty(rs: seq<Request>, k: nat)
    requires NonDecreasing(rs) && k < |rs| && rs[|rs| - 1].header == []
    ensures Waits(rs, k) == |rs|
  {
    if Waits(rs, k) < |rs| { EmptyUpTo(rs, Waits(rs, k), |rs| - 1); }
  }

  lemma ThroughHere(c: Config, s: Sys)
    requires Inv(c, s) && NonDecreasing(c.reqs) && s.ep.pc.Idle? && Asleep(c, s) && s.s2c == []
    requires s.i == |c.reqs| && UpPos(c, |s.ep.served|) < UpPos(c, s.i)
    ensures |c.reqs| >= 2 && |s.ep.served| <= |c.reqs| - 1 == Final(c.reqs)
  {
    var j, n := |s.ep.served|, |c.reqs|;
    SameDownPos(c, s);
    assert j < n;
    EmptyBetween(c, j, n, n - 1);
    AllEmpty(c.reqs, 1);
  }

  /** An unarmed endpoint that has something unread and a client that cannot act: the channel had room for the nap. */
  lemma StuckNap(c: Config, s: Sys)
    requires Roomy(c) && Inv(c, s) && Drowsy(c, s) && NonDecreasing(c.reqs) && Stuck(c, s) && Quiet(s) && s.c2s != []
    ensures |c.reqs| >= 2 && NapRoom(c.reqs) <= c.inCap
  {
    ClientIsThrough(c, s);
    SleptThrough(c, s);
    AsleepRoom(c, s, Final(c.reqs));
  }

  /** A client that has returned from every request has left nothing in the channel. */
  lemma NothingComesBack(c: Config, s: Sys)
    requires Inv(c, s) && s.ep.pc.Idle? && s.ep.state.NewRpc? && Done(c, s)
    ensures s.s2c == []
  {
    DownMonotone(c, |s.ep.served|, s.i);
  }

  lemma ClientMoves(c: Config, s: Sys) returns (a: Action)
    requires Roomy(c) && LocalInv(s.ep) && |s.c2s| < c.inCap && s.i < |c.reqs|
    requires s.off <= FrameSize(c.reqs[s.i]) && |s.got| <= |c.reqs[s.i].header|
    requires s.off < FrameSize(c.reqs[s.i]) || |s.got| == |c.reqs[s.i].header| || s.s2c != []
    ensures EagerEnabled(c, s, a) && Apply(c, s, a) != s
  {
    a := if s.off < FrameSize(c.reqs[s.i]) then ClientSend(1)
         else if |s.got| == |c.reqs[s.i].header| then ClientReturn
         else ClientRecv(1);
  }

  lemma StuckClient(c: Config, s: Sys)
    requires Roomy(c) && LocalInv(s.ep) && |s.c2s| < c.inCap && Stuck(c, s) && s.i < |c.reqs|
    requires s.off <= FrameSize(c.reqs[s.i]) && |s.got| <= |c.reqs[s.i].header|
    ensures s.off == FrameSize(c.reqs[s.i]) && |s.got| < |c.reqs[s.i].header| && s.s2c == []
  {
    if s.off < FrameSize(c.reqs[s.i]) || |s.got| == |c.reqs[s.i].header| || s.s2c != [] {
      var a := ClientMoves(c, s);
    }
  }

  lemma ClientIsThrough(c: Config, s: Sys)
    requires Roomy(c) && Inv(c, s) && NonDecreasing(c.reqs) && Asleep(c, s) && Stuck(c, s) && s.ep.pc.Idle?
    ensures s.s2c == []
    ensures s.i < |c.reqs| ==> s.off == FrameSize(c.reqs[s.i]) && s.got == [] && c.reqs[s.i].header != []
  {
    if Done(c, s) {
      NothingComesBack(c, s);
    } else {
      StuckClient(c, s);
      if s.got != [] { PartlyAcked(c, s); }
    }
  }

  /** An ack that has begun to arrive is out in full, since no reply is under way. */
  lemma PartlyAcked(c: Config, s: Sys)
    requires Inv(c, s) && s.ep.pc.Idle? && s.ep.state.NewRpc? && s.i < |c.reqs|
    requires s.got != [] && |s.got| < |c.reqs[s.i].header|
    ensures s.s2c != []
  {
    HeaderAt(c, s.i);
    var j := |s.ep.served|;
    if j <= s.i { DownMonotone(c, j, s.i); } else { DownMonotone(c, s.i + 1, j); }
  }

  /** Without that room a run that cannot go on is complete. */
  lemma NoRoomForNaps(c: Config, run: seq<Action>, s: Sys)
    requires Setting(c) && NonDecreasing(c.reqs) && EagerRun(c, run, s) && Stuck(c, s)
    requires |c.reqs| >= 2 ==> c.inCap < NapRoom(c.reqs)
    ensures Complete(c, s)
  {
    InitHolds(c);
    RunIsDrowsy(c, START, run);
    StuckIsQuiet(c, s);
    if s.c2s != [] {
      StuckNap(c, s);
    } else if !Complete(c, s) {
      var a := ClientCanAct(c, s);
    }
  }

  lemma StuckIsQuiet(c: Config, s: Sys)
    requires Roomy(c) && Inv(c, s) && Alert(c, s) && Stuck(c, s)
    ensures Quiet(s)
  {
    if !s.ep.pc.Idle? {
      var a := BusyServerCanAct(c, s);
      BusyStepMoves(c, s, a);
    } else if s.todoRecv {
      assert EagerEnabled(c, s, CallRecv);
    } else if s.todoSend {
      assert EagerEnabled(c, s, CallSend);
    } else if s.armed {
      assert EagerEnabled(c, s, Fetch(s.c2s != [], s.ep.writable && |s.s2c| < c.outCap));
    }
  }

  // ---- what a quiet endpoint has slept through ----

  /** The requests whose end can hide a part of the next frame come before the final one. */
  lemma BeforeFinal(rs: seq<Request>, k: nat)
    requires NonDecreasing(rs) && k + 1 < |rs| && rs[k].header == []
    ensures k < Final(rs)
  {
    if Waits(rs, 1) < |rs| && Waits(rs, 1) <= k { EmptyUpTo(rs, Waits(rs, 1), k); }
  }

  lemma {:induction false} LastFalls(rs: seq<Request>, a: nat, b: nat)
    requires NonDecreasing(rs) && a <= b < |rs|
    ensures |rs[a].data| <= |rs[b].data| && Last(rs[b]) <= Last(rs[a])
    decreases b
  {
    if a == b {
    } else {
      LastFalls(rs, a, b - 1);
      assert Grows(rs, b);
    }
  }

  /** Whatever a quiet endpoint has left unread shared the channel with the end of a frame. */
  lemma UnreadRoom(c: Config, s: Sys)
    requires Inv(c, s) && Drowsy(c, s) && NonDecreasing(c.reqs) && Quiet(s) && s.c2s != []
    ensures |c.reqs| >= 2 && Last(c.reqs[Final(c.reqs) - 1]) < c.inCap
  {
    var j := |s.ep.served|;
    assert c.reqs[j - 1] == s.ep.served[j - 1];
    UnreadFrames(c, s);
    if s.i < |c.reqs| {
      FrameAt(c, s.i);
      UpMonotone(c, s.i + 1, |c.reqs|);
    }
    assert j < |c.reqs|;
    BeforeFinal(c.reqs, j - 1);
    LastFalls(c.reqs, j - 1, Final(c.reqs) - 1);
  }

  /** Without that room nothing is ever left unread. */
  lemma NoRoomUnread(c: Config, run: seq<Action>, s: Sys)
    requires Setting(c) && NonDecreasing(c.reqs) && EagerRun(c, run, s) && Quiet(s)
    requires |c.reqs| >= 2 ==> c.inCap <= Last(c.reqs[Final(c.reqs) - 1])
    ensures s.c2s == []
  {
    InitHolds(c);
    RunIsDrowsy(c, START, run);
    if s.c2s != [] { UnreadRoom(c, s); }
  }
}
