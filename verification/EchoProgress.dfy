/** Edge-triggered wake-ups, deadlock freedom and bounded completion. */
module EchoProgress {
  import opened Wire
  import opened EndpointSpec
  import opened EchoSystem
  import opened EchoCorrect
  import opened EchoRuns

  /** Both channels can hold at least one byte. */
  predicate Roomy(c: Config) {
    c.inCap >= 1 && c.outCap >= 1
  }

  predicate Setting(c: Config) {
    Roomy(c) && Admissible(c)
  }

  /** The kernel of the progress claims: a receive returns all there is up to what is asked, calls
      block only on an empty or full channel, and an event is reported only for an armed fd and only
      with the readiness it has. */
  predicate EagerEnabled(c: Config, s: Sys, a: Action) {
    && Enabled(c, s, a)
    && match a
       case Fetch(rd, wr) => s.armed && rd == (s.c2s != []) && wr == (s.ep.writable && |s.s2c| < c.outCap)
       case ServerRecv(k) => k == RecvLen(s.ep) || k == |s.c2s|
       case ServerBlock => if s.ep.pc.InSend? then |s.s2c| == c.outCap else s.c2s == []
       case _ => true
  }

  /** The state after a run of eager steps, if each is enabled where it is taken. */
  function EagerExec(c: Config, s: Sys, run: seq<Action>): Option<Sys>
    decreases |run|
  {
    if run == [] then Some(s)
    else if !LocalInv(s.ep) || !EagerEnabled(c, s, run[0]) then None
    else EagerExec(c, Apply(c, s, run[0]), run[1..])
  }

  lemma {:induction false} EagerIsExec(c: Config, s: Sys, run: seq<Action>)
    requires EagerExec(c, s, run).Some?
    ensures Exec(c, s, run) == EagerExec(c, s, run)
    decreases |run|
  {
    if run == [] {
    } else {
      EagerIsExec(c, Apply(c, s, run[0]), run[1..]);
    }
  }

  // ---- what keeps the endpoint awake ----

  /** What holds around the handlers: a handler call for input finds some, a read of the sizes has bytes to go on, and
      an unfinished reply is nonempty and waits for room with WRITABLE registered. */
  predicate Alert(c: Config, s: Sys) {
    && (s.todoRecv ==> s.c2s != [] && s.ep.pc.Idle?)
    && (s.ep.pc.InMeta? ==> s.ep.meta != [] || s.c2s != [])
    && (s.ep.pc.Idle? && s.ep.state.Replying? ==> s.ep.writable && (|s.s2c| < c.outCap ==> s.armed || s.todoSend))
    && (s.ep.pc.Idle? && s.ep.state.Replying? ==> s.ep.header != [])
  }

  /** The wake-up invariant. Outside handlers, unread input is always covered by an edge or by a handler call that is
      still to come. WRITABLE is registered until the first RPC is served. */
  predicate Wake(c: Config, s: Sys) {
    && Alert(c, s)
    && (s.ep.pc.Idle? && s.c2s != [] ==> s.armed || s.todoRecv)
    && (s.ep.served == [] ==> s.ep.writable)
    && (s.ep.served != [] && !s.ep.state.Replying? ==> !s.ep.writable)
  }

  /** Nothing has arrived behind the request being answered, except perhaps behind the first one with an empty
      header, whose reply cannot block and ends in a re-registration. */
  predicate Modest(s: Sys) {
    s.ep.state.Replying? ==> s.c2s == [] || (s.ep.served == [] && s.ep.header == [])
  }

  /** From the second request on the client waits for every ack, or there is no third request. */
  predicate Patient(c: Config) {
    |c.reqs| <= 2 || forall k: nat | 1 <= k < |c.reqs| :: c.reqs[k].header != []
  }

  /** The client is at most between two requests ahead of the endpoint. */
  predicate Polite(s: Sys) {
    s.i <= |s.ep.served| + 1 && (s.i == |s.ep.served| + 1 ==> s.off == 0)
  }

  /** A step with which a polite client stays polite. */
  predicate Courteous(s: Sys, a: Action) {
    a.ClientSend? ==> s.i <= |s.ep.served|
  }

  /** The client has not returned from a request whose header is still going out. */
  lemma UnansweredIsWaiting(c: Config, s: Sys)
    requires Inv(c, s) && s.ep.state.Replying? && s.ep.header != []
    ensures s.i <= |s.ep.served|
  {
    var j := |s.ep.served|;
    HoldsTheFrame(c, s);
    HeaderAt(c, j);
    if s.i > j { DownMonotone(c, j + 1, s.i); }
  }

  /** Behind the frame being answered there is only what the client has sent of later ones. */
  lemma BehindTheReply(c: Config, s: Sys)
    requires Inv(c, s) && s.ep.state.Replying?
    ensures |s.ep.served| < |c.reqs|
    ensures UpPos(c, |s.ep.served| + 1) + |s.c2s| == UpPos(c, s.i) + s.off <= |Up(c)|
    ensures s.i <= |s.ep.served| ==> s.c2s == []
  {
    var j := |s.ep.served|;
    HoldsTheFrame(c, s);
    FrameAt(c, j);
    if s.i <= j {
      FrameAt(c, s.i);
      UpMonotone(c, s.i + 1, j + 1);
    }
  }

  lemma PatientIsModest(c: Config, s: Sys)
    requires Patient(c) && Inv(c, s)
    ensures Modest(s)
  {
    if s.ep.state.Replying? {
      var j := |s.ep.served|;
      HoldsTheFrame(c, s);
      BehindTheReply(c, s);
      if s.ep.header != [] {
        UnansweredIsWaiting(c, s);
      } else if j > 0 {
        UpMonotone(c, j + 1, j + 1);
      }
    }
  }

  lemma PoliteIsModest(c: Config, s: Sys)
    requires Polite(s) && Inv(c, s)
    ensures Modest(s)
  {
    if s.ep.state.Replying? { BehindTheReply(c, s); }
  }

  /** Every server step leaves the history alone or extends it by one. */
  lemma HistoryGrows(ep: Ep, io: Io)
    requires LocalInv(ep) && OkIo(ep, io)
    ensures |OnIo(ep, io).served| >= |ep.served|
  {}

  lemma PoliteKeeps(c: Config, s: Sys, a: Action)
    requires LocalInv(s.ep) && Polite(s) && Enabled(c, s, a) && Courteous(s, a)
    ensures Polite(Apply(c, s, a))
  {
    match a
    case ServerRecv(_) => HistoryGrows(s.ep, IoOf(s, a));
    case ServerSend(_) => HistoryGrows(s.ep, IoOf(s, a));
    case ServerBlock => HistoryGrows(s.ep, Blocked);
    case _ =>
  }

  /** The endpoint's queue and stage, as far as the wake-up argument needs them. */
  lemma Stages(ep: Ep)
    requires LocalInv(ep)
    ensures ep.pc.InSend? <==> ep.state.Replying? && !ep.pc.Idle?
    ensures ep.pc.InMeta? ==> ep.state.NewRpc? && |ep.meta| < META_SIZE
    ensures ep.pc.InData? ==> |ep.data| < DataLen(ep)
    ensures ep.state.Replying? ==> ep.tx == [Tx(ep.header, Replied(ep))] && Offered(ep) == ep.header[Replied(ep)..]
    ensures ep.state.Replying? && Offered(ep) == [] ==> ep.header == []
  {}

  lemma EnterPcs(ep: Ep)
    requires LocalInv(ep) && ep.pc.Idle?
    ensures ep.state.Replying? <==> EnterRecv(ep).pc.Idle?
    ensures !ep.state.Replying? ==> Receiving(EnterRecv(ep))
    ensures ep.state.Replying? <==> EnterSend(ep).pc.InSend?
    ensures !ep.state.Replying? ==> EnterSend(ep) == ep
  {}

  /** What a receive step leaves behind for the wake-up argument: it returns to the event loop only
      after draining the channel or after asking for and not getting everything. */
  lemma ReceivePcs(ep: Ep, io: Io)
    requires LocalInv(ep) && Receiving(ep) && OkIo(ep, io) && !EndOfStream(ep, io)
    ensures OnIo(ep, io).pc.Idle? ==> io.Blocked? || |Bytes(io)| < RecvLen(ep)
    ensures OnIo(ep, io).state.Replying? ==> OnIo(ep, io).pc.InSend?
    ensures OnIo(ep, io).pc.InMeta? ==> OnIo(ep, io).meta == ep.meta + Bytes(io)
    ensures OnIo(ep, io).writable == ep.writable && OnIo(ep, io).served == ep.served
  {}

  /** While headers are empty nothing travels back, so the reply of an empty header never finds a full channel. */
  lemma {:induction false} EmptyBefore(c: Config, n: nat)
    requires n < Limit(c.reqs) && c.reqs[n].header == []
    ensures DownPos(c, n) == 0
    decreases n
  {
    if n == 0 {
    } else {
      assert Grows(c.reqs, n);
      EmptyBefore(c, n - 1);
      HeaderAt(c, n - 1);
    }
  }

  lemma EmptyReplyHasRoom(c: Config, s: Sys)
    requires Inv(c, s) && s.ep.state.Replying? && s.ep.header == []
    ensures s.s2c == []
  {
    HoldsTheFrame(c, s);
    EmptyBefore(c, |s.ep.served|);
  }

  lemma WakeServerReceive(c: Config, s: Sys, a: Action)
    requires LocalInv(s.ep) && Wake(c, s) && EagerEnabled(c, s, a) && Receiving(s.ep)
    requires a.ServerRecv? || a.ServerBlock?
    ensures Wake(c, Apply(c, s, a))
  {
    Stages(s.ep);
    ReceivePcs(s.ep, IoOf(s, a));
  }

  /** What a send leaves behind: a blocked one waits with WRITABLE registered; one that ends the reply re-registers
      if WRITABLE still was. */
  lemma SendPcs(ep: Ep, io: Io)
    requires LocalInv(ep) && ep.pc.InSend? && OkIo(ep, io)
    ensures io.Blocked? ==> OnIo(ep, io) == ep.(writable := true, pc := Idle)
    ensures io.Sent? && OnIo(ep, io).state.Replying? ==>
              OnIo(ep, io).pc.InSend? && OnIo(ep, io).writable == ep.writable && OnIo(ep, io).served == ep.served
    ensures io.Sent? && !OnIo(ep, io).state.Replying? ==>
              && OnIo(ep, io).pc.Idle? && OnIo(ep, io).served != [] && !OnIo(ep, io).writable
              && Rearms(ep, io) == ep.writable
  {}

  lemma WakeSent(c: Config, s: Sys, io: Io)
    requires LocalInv(s.ep) && Wake(c, s) && Modest(s) && s.ep.pc.InSend? && s.ep.state.Replying?
    requires OkIo(s.ep, io) && io.Sent?
    ensures Wake(c, ServerStep(c, s, io))
  {
    SendPcs(s.ep, io);
  }

  lemma WakeUnsent(c: Config, s: Sys)
    requires LocalInv(s.ep) && Wake(c, s) && Modest(s) && s.ep.pc.InSend? && s.ep.state.Replying?
    requires |s.s2c| == c.outCap && s.ep.header != []
    ensures Wake(c, ServerStep(c, s, Blocked))
  {
    SendPcs(s.ep, Blocked);
  }

  lemma WakeServerSend(c: Config, s: Sys, a: Action)
    requires Roomy(c) && Inv(c, s) && Wake(c, s) && Modest(s) && EagerEnabled(c, s, a) && s.ep.pc.InSend?
    requires a.ServerSend? || a.ServerBlock?
    ensures Wake(c, Apply(c, s, a))
  {
    Stages(s.ep);
    if a.ServerSend? {
      WakeSent(c, s, IoOf(s, a));
    } else {
      if s.ep.header == [] { EmptyReplyHasRoom(c, s); }
      WakeUnsent(c, s);
    }
  }

  lemma WakeCall(c: Config, s: Sys, a: Action)
    requires LocalInv(s.ep) && Wake(c, s) && Modest(s) && EagerEnabled(c, s, a) && (a.CallRecv? || a.CallSend?)
    ensures Wake(c, Apply(c, s, a))
  {
    EnterPcs(s.ep);
  }

  lemma WakeKeeps(c: Config, s: Sys, a: Action)
    requires Roomy(c) && Inv(c, s) && Wake(c, s) && Modest(s) && EagerEnabled(c, s, a)
    ensures Wake(c, Apply(c, s, a))
  {
    match a
    case ClientSend(_) =>
    case ClientRecv(_) =>
    case ClientReturn =>
    case Fetch(_, _) =>
    case CallRecv => WakeCall(c, s, a);
    case CallSend => WakeCall(c, s, a);
    case ServerRecv(_) => WakeServerReceive(c, s, a);
    case ServerSend(_) => WakeServerSend(c, s, a);
    case ServerBlock =>
      Stages(s.ep);
      if s.ep.pc.InSend? { WakeServerSend(c, s, a); } else { WakeServerReceive(c, s, a); }
  }

  lemma {:induction false} EagerKeeps(c: Config, s: Sys, run: seq<Action>)
    requires Setting(c) && Patient(c) && Inv(c, s) && Wake(c, s) && EagerExec(c, s, run).Some?
    ensures Inv(c, EagerExec(c, s, run).value) && Wake(c, EagerExec(c, s, run).value)
    decreases |run|
  {
    if run == [] {
    } else {
      StepKeeps(c, s, run[0]);
      PatientIsModest(c, s);
      WakeKeeps(c, s, run[0]);
      EagerKeeps(c, Apply(c, s, run[0]), run[1..]);
    }
  }

  predicate EagerRun(c: Config, run: seq<Action>, s: Sys) {
    EagerExec(c, START, run) == Some(s)
  }

  lemma EagerReachable(c: Config, run: seq<Action>, s: Sys)
    requires Setting(c) && Patient(c) && EagerRun(c, run, s)
    ensures Inv(c, s) && Wake(c, s) && Modest(s)
  {
    InitHolds(c);
    EagerKeeps(c, START, run);
    PatientIsModest(c, s);
  }

  /** Back in the event loop with no handler call to come and no edge pending. */
  predicate Quiet(s: Sys) {
    s.ep.pc.Idle? && !s.todoRecv && !s.todoSend && !s.armed
  }

  lemma QuietMissesNothing(c: Config, s: Sys)
    requires LocalInv(s.ep) && |s.s2c| <= c.outCap && Wake(c, s) && Quiet(s)
    ensures s.c2s == []
    ensures s.ep.state.Replying? ==> s.ep.writable && |s.s2c| == c.outCap && Offered(s.ep) != []
  {
    QuietReply(c, s);
  }

  lemma QuietReply(c: Config, s: Sys)
    requires LocalInv(s.ep) && |s.s2c| <= c.outCap && Alert(c, s) && Quiet(s)
    ensures s.ep.state.Replying? ==> s.ep.writable && |s.s2c| == c.outCap && Offered(s.ep) != [] && s.ep.header != []
  {
    Stages(s.ep);
  }

  /** No lost wake-up: after every eager run of a patient client, if the endpoint is back in the event loop with
      nothing to come, then nothing is unread, and an unfinished reply is waiting for room with WRITABLE
      registered. */
  lemma NoLostWakeup(c: Config, run: seq<Action>, s: Sys)
    requires Setting(c) && Patient(c) && EagerRun(c, run, s) && Quiet(s)
    ensures s.c2s == []
    ensures s.ep.state.Replying? ==> s.ep.writable && |s.s2c| == c.outCap && Offered(s.ep) != []
  {
    EagerReachable(c, run, s);
    QuietMissesNothing(c, s);
  }

  /** So whichever client call the quiet endpoint is waiting for raises the edge that wakes it. */
  lemma NextCallWakes(c: Config, s: Sys, a: Action)
    requires Roomy(c) && Inv(c, s) && Wake(c, s) && Quiet(s) && EagerEnabled(c, s, a)
    requires a.ClientSend? || (a.ClientRecv? && s.ep.state.Replying?)
    ensures Apply(c, s, a).armed
    ensures a.ClientSend? ==> EagerEnabled(c, Apply(c, s, a), Fetch(true, s.ep.writable && |s.s2c| < c.outCap))
    ensures a.ClientRecv? ==> EagerEnabled(c, Apply(c, s, a), Fetch(false, true))
  {
    QuietMissesNothing(c, s);
  }

  // ---- the measure ----

  /** What the measure needs of a state, whatever the sizes. */
  predicate Shape(c: Config, s: Sys) {
    && LocalInv(s.ep) && s.i <= |c.reqs|
    && (if s.i < |c.reqs| then s.off <= FrameSize(c.reqs[s.i]) else s.off == 0)
  }

  /** What the endpoint holds: bytes received, or a reply to go out. */
  function Held(ep: Ep): int {
    if ep.state.Replying? then 2 * (|ep.header| - Replied(ep)) + 1 else 4 * |Received(ep)|
  }

  /** Every byte weighs less at each place it moves to: unsent, in the channel, in the endpoint, in the reply, on its
      way back. */
  function Work(c: Config, s: Sys): int
    requires Shape(c, s)
  {
    6 * (|Up(c)| - UpPos(c, s.i) - s.off) + 5 * |s.c2s| + Held(s.ep) + |s.s2c| + |c.reqs| - s.i
  }

  function PcRank(pc: Pc): nat {
    if pc.Idle? then 0 else if pc.InHeader? then 2 else 1
  }

  /** What is left to do without moving a byte. */
  function Rank(s: Sys): nat {
    (if s.armed then 7 else 0) + (if s.todoRecv then 3 else 0) + (if s.todoSend then 3 else 0)
    + (if s.ep.writable then 0 else 8) + PcRank(s.ep.pc)
  }

  function Measure(c: Config, s: Sys): int
    requires Shape(c, s)
  {
    32 * Work(c, s) + Rank(s)
  }

  lemma HeldIsNat(ep: Ep)
    requires LocalInv(ep)
    ensures Held(ep) >= 0
  {}

  lemma MeasureIsNat(c: Config, s: Sys)
    requires Shape(c, s)
    ensures Measure(c, s) >= 0
  {
    HeldIsNat(s.ep);
    UpMonotone(c, s.i, |c.reqs|);
    if s.i < |c.reqs| { FrameAt(c, s.i); }
  }

  lemma InvIsShape(c: Config, s: Sys)
    requires Inv(c, s)
    ensures Shape(c, s)
  {}

  lemma LocalStays(c: Config, s: Sys, a: Action)
    requires LocalInv(s.ep) && Enabled(c, s, a)
    ensures LocalInv(Apply(c, s, a).ep)
  {
    match a
    case CallRecv => EnterKeepsInv(s.ep);
    case CallSend => EnterKeepsInv(s.ep);
    case ServerRecv(_) => StepKeepsInv(s.ep, IoOf(s, a));
    case ServerSend(_) => StepKeepsInv(s.ep, IoOf(s, a));
    case ServerBlock => StepKeepsInv(s.ep, Blocked);
    case _ =>
  }

  lemma ShapeStays(c: Config, s: Sys, a: Action)
    requires Shape(c, s) && Enabled(c, s, a)
    ensures Shape(c, Apply(c, s, a))
  {
    LocalStays(c, s, a);
  }

  lemma ClientMeasure(c: Config, s: Sys, a: Action)
    requires Shape(c, s) && EagerEnabled(c, s, a) && Shape(c, Apply(c, s, a))
    requires a.ClientSend? || a.ClientRecv? || a.ClientReturn?
    ensures Measure(c, Apply(c, s, a)) < Measure(c, s)
  {
    if a.ClientReturn? { FrameAt(c, s.i); }
  }

  /** A receive that moves nothing is the empty receive of an empty header, or a would-block; it moves the
      handler on. */
  lemma EmptyReceive(ep: Ep, io: Io)
    requires LocalInv(ep) && Receiving(ep) && OkIo(ep, io) && !EndOfStream(ep, io) && Bytes(io) == []
    ensures ep.pc.InMeta? ==> OnIo(ep, io) == ep
    ensures !ep.pc.InMeta? ==> PcRank(OnIo(ep, io).pc) < PcRank(ep.pc)
  {
    assert ep.header + [] == ep.header && ep.data + [] == ep.data;
  }

  lemma ReceiveIsLegal(c: Config, s: Sys, a: Action)
    requires LocalInv(s.ep) && EagerEnabled(c, s, a) && (a.ServerRecv? || (a.ServerBlock? && !s.ep.pc.InSend?))
    ensures Receiving(s.ep) && OkIo(s.ep, IoOf(s, a)) && !EndOfStream(s.ep, IoOf(s, a))
    ensures Bytes(IoOf(s, a)) <= s.c2s && Apply(c, s, a) == ServerStep(c, s, IoOf(s, a))
  {
    Stages(s.ep);
  }

  /** A receive never raises what the endpoint holds by more than the bytes it takes. */
  lemma ReceiveHolds(ep: Ep, e: Ep, n: nat)
    requires LocalInv(ep) && !ep.state.Replying? && LocalInv(e) && |Received(e)| == |Received(ep)| + n
    requires !e.state.NewRpc? ==> |e.meta| == META_SIZE
    ensures Held(e) <= Held(ep) + 4 * n
  {}

  lemma ReceiveEp(ep: Ep, io: Io)
    requires LocalInv(ep) && Receiving(ep) && OkIo(ep, io) && !EndOfStream(ep, io)
    ensures OnIo(ep, io).writable == ep.writable && Held(OnIo(ep, io)) <= Held(ep) + 4 * |Bytes(io)|
    ensures Bytes(io) == [] ==> OnIo(ep, io) == ep || PcRank(OnIo(ep, io).pc) < PcRank(ep.pc)
  {
    Stages(ep);
    AfterReceive(ep, io);
    ReceivePcs(ep, io);
    ReceiveHolds(ep, OnIo(ep, io), |Bytes(io)|);
    if Bytes(io) == [] { EmptyReceive(ep, io); }
  }

  lemma TakesBytes(c: Config, s: Sys, io: Io)
    requires Shape(c, s) && Receiving(s.ep) && OkIo(s.ep, io) && !EndOfStream(s.ep, io) && Bytes(io) <= s.c2s
    requires Shape(c, ServerStep(c, s, io))
    ensures ServerStep(c, s, io) == s || Measure(c, ServerStep(c, s, io)) < Measure(c, s)
  {
    ReceiveEp(s.ep, io);
    assert !Rearms(s.ep, io);
  }

  lemma ReceiveMeasure(c: Config, s: Sys, a: Action)
    requires Shape(c, s) && EagerEnabled(c, s, a) && (a.ServerRecv? || (a.ServerBlock? && !s.ep.pc.InSend?))
    requires Shape(c, Apply(c, s, a)) && Apply(c, s, a) != s
    ensures Measure(c, Apply(c, s, a)) < Measure(c, s)
  {
    ReceiveIsLegal(c, s, a);
    TakesBytes(c, s, IoOf(s, a));
  }

  /** A send turns reply bytes into bytes on their way, and the end of a reply weighs more than what it re-arms. */
  lemma SendHolds(ep: Ep, bytes: seq<Byte>)
    requires LocalInv(ep) && ep.pc.InSend? && OkIo(ep, Sent(bytes))
    ensures Held(OnIo(ep, Sent(bytes))) + |bytes| < Held(ep)
  {
    Stages(ep);
    AfterSend(ep, bytes);
  }

  lemma SendsBytes(c: Config, s: Sys, bytes: seq<Byte>)
    requires Shape(c, s) && s.ep.pc.InSend? && OkIo(s.ep, Sent(bytes)) && Shape(c, ServerStep(c, s, Sent(bytes)))
    ensures Measure(c, ServerStep(c, s, Sent(bytes))) < Measure(c, s)
  {
    SendHolds(s.ep, bytes);
    var t := ServerStep(c, s, Sent(bytes));
    assert t.c2s == s.c2s && |t.s2c| == |s.s2c| + |bytes|;
    assert Work(c, t) < Work(c, s);
    assert Rank(t) <= Rank(s) + 16;
  }

  lemma SendMeasure(c: Config, s: Sys, a: Action)
    requires Shape(c, s) && EagerEnabled(c, s, a) && Shape(c, Apply(c, s, a)) && a.ServerSend?
    ensures Measure(c, Apply(c, s, a)) < Measure(c, s)
  {
    SendsBytes(c, s, IoOf(s, a).bytes);
  }

  /** A blocked send registers WRITABLE, once per reply. */
  lemma BlockMeasure(c: Config, s: Sys)
    requires Shape(c, s) && EagerEnabled(c, s, ServerBlock) && s.ep.pc.InSend?
    requires Shape(c, Apply(c, s, ServerBlock))
    ensures Measure(c, Apply(c, s, ServerBlock)) < Measure(c, s)
  {
    Stages(s.ep);
    assert Apply(c, s, ServerBlock).ep == s.ep.(writable := true, pc := Idle);
  }

  lemma CallMeasure(c: Config, s: Sys, a: Action)
    requires Shape(c, s) && EagerEnabled(c, s, a) && (a.CallRecv? || a.CallSend?) && Shape(c, Apply(c, s, a))
    ensures Measure(c, Apply(c, s, a)) < Measure(c, s)
  {
    EnterMovesNothing(s.ep);
    EnterPcs(s.ep);
    var e := Apply(c, s, a).ep;
    assert e.(pc := Idle) == s.ep;
    assert e.writable == s.ep.writable && Held(e) == Held(s.ep);
  }

  /** Whatever the sizes and the capacities, every eager step that changes the state lowers the measure. */
  lemma MeasureFalls(c: Config, s: Sys, a: Action)
    requires Shape(c, s) && EagerEnabled(c, s, a) && Apply(c, s, a) != s
    ensures Shape(c, Apply(c, s, a)) && Measure(c, Apply(c, s, a)) < Measure(c, s)
  {
    ShapeStays(c, s, a);
    match a
    case Fetch(_, _) =>
    case CallRecv => CallMeasure(c, s, a);
    case CallSend => CallMeasure(c, s, a);
    case ServerRecv(_) => ReceiveMeasure(c, s, a);
    case ServerSend(_) => SendMeasure(c, s, a);
    case ServerBlock => if s.ep.pc.InSend? { BlockMeasure(c, s); } else { ReceiveMeasure(c, s, a); }
    case _ => ClientMeasure(c, s, a);
  }

  // ---- deadlock freedom ----

  predicate Complete(c: Config, s: Sys) {
    Done(c, s) && s.ep.served == c.reqs
  }

  /** Between events, a request whose bytes have all arrived is being answered, and no request has more bytes
      than its frame. */
  lemma CompleteIsReplying(c: Config, s: Sys)
    requires Inv(c, s) && NonDecreasing(c.reqs) && |s.ep.served| < |c.reqs| && s.ep.pc.Idle?
    ensures |Received(s.ep)| <= FrameSize(c.reqs[|s.ep.served|])
    ensures |Received(s.ep)| == FrameSize(c.reqs[|s.ep.served|]) ==> s.ep.state.Replying?
  {
    assert Limit(c.reqs) == |c.reqs|;
    if !s.ep.state.NewRpc? { OwnersAreLast(c.reqs, |s.ep.served| + 1); }
  }

  lemma QuietPositions(c: Config, s: Sys)
    requires Inv(c, s) && s.c2s == []
    ensures UpPos(c, |s.ep.served|) + |Received(s.ep)| == UpPos(c, s.i) + s.off
  {}

  /** A quiet endpoint with nothing unread has dealt with everything the client has begun and left behind. */
  lemma QuietIsCaughtUp(c: Config, s: Sys)
    requires Inv(c, s) && Alert(c, s) && NonDecreasing(c.reqs) && Quiet(s) && s.c2s == []
    ensures s.i <= |s.ep.served|
  {
    QuietPositions(c, s);
    var j := |s.ep.served|;
    if s.i > j {
      FrameAt(c, j);
      UpMonotone(c, j + 1, s.i);
      CompleteIsReplying(c, s);
      UnansweredIsWaiting(c, s);
    }
  }

  /** The client has sent its frame and everything has been read, but the ack is not out: it is being written. */
  lemma UnackedIsReplying(c: Config, s: Sys)
    requires Inv(c, s) && NonDecreasing(c.reqs) && s.ep.pc.Idle? && s.c2s == [] && s.i == |s.ep.served| < |c.reqs|
    requires s.off == FrameSize(c.reqs[s.i])
    ensures s.ep.state.Replying?
  {
    QuietPositions(c, s);
    CompleteIsReplying(c, s);
  }

  /** A client behind the endpoint finds the rest of its ack in the channel. */
  lemma AckIsInFlight(c: Config, s: Sys)
    requires Inv(c, s) && s.i < |s.ep.served| && s.i < |c.reqs| && |s.got| < |c.reqs[s.i].header|
    ensures s.s2c != []
  {
    HeaderAt(c, s.i);
    DownMonotone(c, s.i + 1, |s.ep.served|);
  }

  /** A client that has sent its frame and still misses a part of its ack finds it in the channel, if the endpoint is
      quiet. */
  lemma AckIsComing(c: Config, s: Sys)
    requires Roomy(c) && Inv(c, s) && Alert(c, s) && NonDecreasing(c.reqs) && Quiet(s) && s.c2s == []
    requires s.i < |c.reqs| && s.off == FrameSize(c.reqs[s.i]) && |s.got| < |c.reqs[s.i].header|
    ensures s.s2c != []
  {
    QuietIsCaughtUp(c, s);
    if s.i < |s.ep.served| {
      AckIsInFlight(c, s);
    } else {
      UnackedIsReplying(c, s);
      QuietReply(c, s);
    }
  }

  /** With the endpoint quiet and nothing unread, the client can act. */
  lemma ClientCanAct(c: Config, s: Sys) returns (a: Action)
    requires Roomy(c) && Inv(c, s) && Alert(c, s) && NonDecreasing(c.reqs) && Quiet(s) && s.c2s == []
    requires !Complete(c, s)
    ensures EagerEnabled(c, s, a) && Apply(c, s, a) != s && Courteous(s, a)
  {
    QuietIsCaughtUp(c, s);
    assert s.i < |c.reqs|;
    var r := c.reqs[s.i];
    if s.off < FrameSize(r) {
      a := ClientSend(1);
    } else if |s.got| == |r.header| {
      a := ClientReturn;
    } else {
      AckIsComing(c, s);
      a := ClientRecv(1);
    }
  }

  /** A half-read size pair means the client is still in the middle of that frame. */
  lemma MidMetaIsMidFrame(c: Config, s: Sys)
    requires Inv(c, s) && s.c2s == [] && s.ep.pc.InMeta? && s.ep.meta != []
    ensures s.i == |s.ep.served| < |c.reqs| && s.off < META_SIZE
  {
    var j := |s.ep.served|;
    Stages(s.ep);
    QuietPositions(c, s);
    assert 0 < |Received(s.ep)| < META_SIZE;
    if s.i > j {
      FrameAt(c, j);
      UpMonotone(c, j + 1, s.i);
    } else if s.i < j {
      FrameAt(c, s.i);
      UpMonotone(c, s.i + 1, j);
    }
  }

  lemma BusyServerCanAct(c: Config, s: Sys) returns (a: Action)
    requires Roomy(c) && Inv(c, s) && Alert(c, s) && !s.ep.pc.Idle?
    ensures EagerEnabled(c, s, a) && Courteous(s, a)
    ensures a.ClientSend? || a.ServerRecv? || a.ServerSend? || a.ServerBlock?
    ensures s.ep.pc.InMeta? ==> a.ClientSend? || (a.ServerRecv? && a.k > 0)
    ensures a.ClientSend? ==> a.k == 1 && s.off < META_SIZE
  {
    Stages(s.ep);
    if s.ep.pc.InSend? {
      a := if Offered(s.ep) == [] then ServerSend(0) else if |s.s2c| < c.outCap then ServerSend(1) else ServerBlock;
    } else if s.c2s != [] {
      a := ServerRecv(Least(RecvLen(s.ep), |s.c2s|));
    } else if !s.ep.pc.InMeta? {
      a := ServerBlock;
    } else {
      MidMetaIsMidFrame(c, s);
      a := ClientSend(1);
    }
  }

  function Least(a: int, b: nat): nat {
    if 0 <= a < b then a else b
  }

  /** Such a step changes the state. */
  lemma BusyStepMoves(c: Config, s: Sys, a: Action)
    requires Inv(c, s) && !s.ep.pc.Idle? && EagerEnabled(c, s, a)
    requires a.ClientSend? || a.ServerRecv? || a.ServerSend? || a.ServerBlock?
    requires s.ep.pc.InMeta? ==> a.ClientSend? || (a.ServerRecv? && a.k > 0)
    ensures Apply(c, s, a) != s
  {
    Stages(s.ep);
    if a.ServerRecv? || (a.ServerBlock? && !s.ep.pc.InSend?) {
      var io := IoOf(s, a);
      ReceiveIsLegal(c, s, a);
      AfterReceive(s.ep, io);
      if Bytes(io) == [] { EmptyReceive(s.ep, io); }
    } else if a.ServerSend? {
      AfterSend(s.ep, IoOf(s, a).bytes);
    }
  }

  /** Deadlock freedom: until every RPC has been served and has returned, and the endpoint is quiet again, some step
      that changes the state is enabled, and it is one a polite client may take. */
  lemma Progress(c: Config, s: Sys) returns (a: Action)
    requires Setting(c) && Inv(c, s) && Wake(c, s) && NonDecreasing(c.reqs) && !(Complete(c, s) && Quiet(s))
    ensures EagerEnabled(c, s, a) && Apply(c, s, a) != s && Courteous(s, a)
  {
    if Quiet(s) {
      QuietMissesNothing(c, s);
      a := ClientCanAct(c, s);
    } else if !s.ep.pc.Idle? {
      a := BusyServerCanAct(c, s);
      BusyStepMoves(c, s, a);
    } else {
      a := if s.todoRecv then CallRecv else if s.todoSend then CallSend
           else Fetch(s.c2s != [], s.ep.writable && |s.s2c| < c.outCap);
    }
  }

  /** Every step of the run changes the state. */
  predicate Productive(c: Config, s: Sys, run: seq<Action>)
    decreases |run|
  {
    run == [] || (
      && LocalInv(s.ep) && EagerEnabled(c, s, run[0]) && Apply(c, s, run[0]) != s
      && Productive(c, Apply(c, s, run[0]), run[1..]))
  }

  lemma {:induction false} RunsAreBounded(c: Config, s: Sys, run: seq<Action>)
    requires Shape(c, s) && Productive(c, s, run)
    ensures |run| <= Measure(c, s)
    decreases |run|
  {
    if run == [] {
      MeasureIsNat(c, s);
    } else {
      MeasureFalls(c, s, run[0]);
      RunsAreBounded(c, Apply(c, s, run[0]), run[1..]);
    }
  }

  /** A polite client completes, whatever the headers. */
  lemma {:induction false} Completes(c: Config, s: Sys) returns (run: seq<Action>, t: Sys)
    requires Setting(c) && Inv(c, s) && Wake(c, s) && Polite(s) && NonDecreasing(c.reqs)
    ensures EagerExec(c, s, run) == Some(t) && Inv(c, t) && Wake(c, t) && Complete(c, t) && Quiet(t)
    decreases (InvIsShape(c, s); Measure(c, s))
  {
    if Complete(c, s) && Quiet(s) {
      run, t := [], s;
    } else {
      var a := Progress(c, s);
      PoliteIsModest(c, s);
      InvIsShape(c, s);
      StepKeeps(c, s, a);
      MeasureFalls(c, s, a);
      MeasureIsNat(c, Apply(c, s, a));
      WakeKeeps(c, s, a);
      PoliteKeeps(c, s, a);
      var rest;
      rest, t := Completes(c, Apply(c, s, a));
      run := [a] + rest;
      assert run[1..] == rest;
    }
  }

  lemma StartMeasure(c: Config)
    ensures Shape(c, START) && Measure(c, START) == 32 * (6 * |Up(c)| + |c.reqs|) + 7
  {
    InitInv();
    assert Received(INIT) == [];
  }

  ghost predicate Stuck(c: Config, s: Sys) {
    LocalInv(s.ep) && forall a | EagerEnabled(c, s, a) :: Apply(c, s, a) == s
  }

  /** Every run stops, whatever the sizes, the headers and the capacities: one whose steps all change the state is no
      longer than the bound. */
  lemma EveryRunIsBounded(c: Config, run: seq<Action>)
    requires Productive(c, START, run)
    ensures |run| <= 32 * (6 * |Up(c)| + |c.reqs|) + 7
  {
    StartMeasure(c);
    RunsAreBounded(c, START, run);
  }

  /** With non-decreasing sizes, a patient client and channels of at least one byte, a run that cannot go on is
      complete. */
  lemma EveryRunCompletes(c: Config, run: seq<Action>, s: Sys)
    requires Setting(c) && Patient(c) && NonDecreasing(c.reqs) && EagerRun(c, run, s) && Stuck(c, s)
    ensures Complete(c, s)
  {
    EagerReachable(c, run, s);
    if !Complete(c, s) { var a := Progress(c, s); }
  }

  /** Exact domain of the framing, for any sizes: some run serves and returns every RPC if and only if both size
      sequences are non-decreasing. */
  lemma CompletesIffNonDecreasing(c: Config)
    requires AllFit(c) && Roomy(c)
    ensures (exists run, s :: EagerRun(c, run, s) && Complete(c, s)) <==> NonDecreasing(c.reqs)
  {
    if NonDecreasing(c.reqs) {
      assert Limit(c.reqs) == |c.reqs|;
      InitHolds(c);
      var run, s := Completes(c, START);
      assert EagerRun(c, run, s) && Complete(c, s);
    }
    forall run, s | EagerRun(c, run, s) && Complete(c, s) ensures NonDecreasing(c.reqs) {
      EagerIsExec(c, START, run);
      RunKeepsOrSwallows(c, run, s);
      assert !Swallowed(c, s.ep);
      assert Limit(c.reqs) == |c.reqs|;
    }
  }
}
