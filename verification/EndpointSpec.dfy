/** The server endpoint as a state machine over single Recv and Send results.
    One step is one system call and the code that runs up to the next one. */
module EndpointSpec {
  import opened Wire

  datatype State = NewRpc | MetaRecved | HeaderRecved | DataRecved | Replying

  /** Which system call the running handler is about to make; Idle is outside every handler. */
  datatype Pc = Idle | InMeta | InHeader | InData | InSend

  /** A queued reply view: its message and how much of it has been sent. */
  datatype Tx = Tx(msg: seq<Byte>, handled: nat)

  /** The result of one system call. Got([]) on a nonempty request is end of stream. */
  datatype Io = Got(bytes: seq<Byte>) | Sent(bytes: seq<Byte>) | Blocked | Failed

  /** meta, header and data hold what has arrived of the current RPC; served is the history. */
  datatype Ep = Ep(
    state: State, pc: Pc,
    meta: seq<Byte>, header: seq<Byte>, data: seq<Byte>,
    headerOwner: Option<nat>, dataOwner: Option<nat>,
    tx: seq<Tx>, writable: bool,
    served: seq<Request>)

  const INIT := Ep(NewRpc, Idle, [], [], [], None, None, [], true, [])

  /** An owner buffer is replaced only when there is none yet or the announced size is larger. */
  function Grow(owner: Option<nat>, size: nat): (o: Option<nat>)
    ensures o.Some? && o.value >= size
  {
    if owner.None? || owner.value < size then Some(size) else owner
  }

  /** Views take the length of their owner, not the announced size. */
  function HeaderLen(ep: Ep): nat {
    if ep.headerOwner.Some? then ep.headerOwner.value else 0
  }

  function DataLen(ep: Ep): nat {
    if ep.dataOwner.Some? then ep.dataOwner.value else 0
  }

  function Received(ep: Ep): seq<Byte> {
    ep.meta + ep.header + ep.data
  }

  // ---- transitions ----

  function AtReply(ep: Ep): Ep {
    ep.(tx := ep.tx + [Tx(ep.header, 0)], state := Replying, pc := InSend)
  }

  function AtData(ep: Ep): Ep {
    if DataLen(ep) == 0 then AtReply(ep) else ep.(pc := InData)
  }

  function ParseMeta(ep: Ep): Ep
    requires |ep.meta| == META_SIZE
  {
    ep.(headerOwner := Grow(ep.headerOwner, HeaderSize(ep.meta)),
        dataOwner := Grow(ep.dataOwner, DataSize(ep.meta)),
        header := [], data := [], state := MetaRecved, pc := InHeader)
  }

  /** OnRecvReady up to its first system call. */
  function EnterRecv(ep: Ep): Ep {
    match ep.state
    case NewRpc => ep.(meta := [], pc := InMeta)
    case MetaRecved => ep.(pc := InHeader)
    case HeaderRecved => AtData(ep)
    case DataRecved => AtReply(ep)
    case Replying => ep
  }

  /** OnSendReady up to its first system call. */
  function EnterSend(ep: Ep): Ep {
    if ep.tx == [] then ep else ep.(pc := InSend)
  }

  function Bytes(io: Io): seq<Byte> {
    if io.Got? then io.bytes else []
  }

  function OnMeta(ep: Ep, io: Io): Ep
    requires |ep.meta| < META_SIZE && |Bytes(io)| <= META_SIZE - |ep.meta|
  {
    if io.Blocked? then ep
    else if Bytes(io) == [] then ep.(meta := [], pc := Idle)
    else
      var e := ep.(meta := ep.meta + Bytes(io));
      if |e.meta| == META_SIZE then ParseMeta(e) else e
  }

  /** After the Recv of ReceiveHeader, before the data is looked at. */
  function AfterHeader(ep: Ep, io: Io): Ep {
    var e := ep.(header := ep.header + Bytes(io));
    if |e.header| != HeaderLen(ep) then e.(pc := Idle) else if io.Got? then e.(state := HeaderRecved) else e
  }

  function OnHeader(ep: Ep, io: Io): Ep {
    var e := AfterHeader(ep, io);
    if |e.header| == HeaderLen(ep) then AtData(e) else e
  }

  /** After the Recv of ReceiveData, before the reply is queued. */
  function AfterData(ep: Ep, io: Io): Ep {
    var e := ep.(data := ep.data + Bytes(io));
    if |e.data| != DataLen(ep) || io.Blocked? then e.(pc := Idle) else e.(state := DataRecved)
  }

  function OnData(ep: Ep, io: Io): Ep {
    var e := AfterData(ep, io);
    if e.state.DataRecved? then AtReply(e) else e
  }

  /** The RPC whose reply is out. */
  function Served(ep: Ep): Ep
    requires ep.tx != []
  {
    ep.(state := NewRpc, tx := ep.tx[1..], served := ep.served + [Request(ep.header, ep.data)],
        meta := [], header := [], data := [], pc := if |ep.tx| == 1 then Idle else InSend)
  }

  function OnSend(ep: Ep, io: Io): Ep
    requires ep.tx != []
  {
    if !io.Sent? then ep.(writable := true, pc := Idle)
    else
      var t := ep.tx[0].(handled := ep.tx[0].handled + |io.bytes|);
      if t.handled != |t.msg| then ep.(tx := ep.tx[0 := t]) else Served(ep).(writable := false)
  }

  /** How many bytes the pending Recv asks for. */
  function RecvLen(ep: Ep): int {
    match ep.pc
    case InMeta => META_SIZE - |ep.meta|
    case InHeader => HeaderLen(ep) - |ep.header|
    case InData => DataLen(ep) - |ep.data|
    case _ => 0
  }

  /** The bytes the pending Send offers. */
  function Offered(ep: Ep): seq<Byte> {
    if ep.tx != [] && ep.tx[0].handled <= |ep.tx[0].msg| then ep.tx[0].msg[ep.tx[0].handled..] else []
  }

  /** The results the kernel may give at this point; an error is survived only while reading the
      sizes, anywhere else it aborts the process. */
  predicate OkIo(ep: Ep, io: Io) {
    match ep.pc
    case Idle => false
    case InMeta => io.Blocked? || io.Failed? || (io.Got? && |io.bytes| <= RecvLen(ep))
    case InSend => io.Blocked? || (io.Sent? && io.bytes <= Offered(ep) && (Offered(ep) != [] ==> io.bytes != []))
    case _ => io.Blocked? || (io.Got? && |io.bytes| <= RecvLen(ep))
  }

  function OnIo(ep: Ep, io: Io): Ep
    requires LocalInv(ep) && OkIo(ep, io)
  {
    match ep.pc
    case InMeta => OnMeta(ep, io)
    case InHeader => OnHeader(ep, io)
    case InData => OnData(ep, io)
    case InSend => OnSend(ep, io)
  }

  /** Whether the step calls Reregister. */
  predicate Rearms(ep: Ep, io: Io) {
    ep.pc.InSend? && ep.tx != [] &&
    if io.Sent? then ep.tx[0].handled + |io.bytes| == |ep.tx[0].msg| && ep.writable
    else !ep.writable
  }

  // ---- the invariant of the endpoint at every system call and handler boundary ----

  predicate QueueInv(ep: Ep) {
    && |ep.tx| <= 1
    && (ep.state.Replying? <==> |ep.tx| == 1)
    && (|ep.tx| == 1 ==>
          && ep.tx[0].msg == ep.header
          && ep.tx[0].handled <= |ep.header|
          && (ep.pc.Idle? ==> ep.writable)
          && (ep.tx[0].handled == |ep.header| ==> |ep.header| == 0))
  }

  predicate StageInv(ep: Ep) {
    match ep.state
    case NewRpc =>
      && |ep.meta| < META_SIZE && ep.header == [] && ep.data == []
      && (ep.pc.InMeta? || (ep.pc.Idle? && ep.meta == []))
    case MetaRecved =>
      && |ep.header| <= HeaderLen(ep)
      && (|ep.header| < HeaderLen(ep) ==> ep.data == [] && !ep.pc.InData?)
      && (|ep.header| == HeaderLen(ep) ==> ep.header == [] && (ep.pc.InHeader? || DataLen(ep) > 0))
      && (|ep.data| < DataLen(ep) || (DataLen(ep) == 0 && ep.data == []))
      && (ep.pc.Idle? || ep.pc.InHeader? || ep.pc.InData?)
    case HeaderRecved =>
      && |ep.header| == HeaderLen(ep) && |ep.data| < DataLen(ep)
      && (ep.pc.Idle? || ep.pc.InData?)
    case DataRecved => false
    case Replying =>
      && |ep.header| == HeaderLen(ep) && |ep.data| == DataLen(ep)
      && (ep.pc.Idle? || ep.pc.InSend?)
  }

  predicate LocalInv(ep: Ep) {
    && QueueInv(ep)
    && StageInv(ep)
    && (!ep.state.NewRpc? ==>
          && |ep.meta| == META_SIZE && ep.headerOwner.Some? && ep.dataOwner.Some?
          && HeaderSize(ep.meta) <= HeaderLen(ep) && DataSize(ep.meta) <= DataLen(ep))
  }

  lemma InitInv()
    ensures LocalInv(INIT)
  {}

  lemma EnterKeepsInv(ep: Ep)
    requires LocalInv(ep) && ep.pc.Idle?
    ensures LocalInv(EnterRecv(ep)) && LocalInv(EnterSend(ep))
  {}

  lemma MetaStepInv(ep: Ep, io: Io)
    requires LocalInv(ep) && ep.pc.InMeta? && OkIo(ep, io)
    ensures LocalInv(OnMeta(ep, io))
  {
    if |ep.meta + Bytes(io)| == META_SIZE { var e := ParseMeta(ep.(meta := ep.meta + Bytes(io))); }
  }

  lemma AtDataInv(ep: Ep)
    requires ep.tx == [] && !ep.state.NewRpc? && !ep.state.DataRecved? && !ep.state.Replying?
    requires |ep.meta| == META_SIZE && ep.headerOwner.Some? && ep.dataOwner.Some?
    requires HeaderSize(ep.meta) <= HeaderLen(ep) && DataSize(ep.meta) <= DataLen(ep)
    requires |ep.header| == HeaderLen(ep)
    requires ep.state.MetaRecved? ==> ep.header == []
    requires |ep.data| < DataLen(ep) || (DataLen(ep) == 0 && ep.data == [])
    ensures LocalInv(AtData(ep))
  {}

  lemma HeaderStepInv(ep: Ep, io: Io)
    requires LocalInv(ep) && ep.pc.InHeader? && OkIo(ep, io)
    ensures LocalInv(OnHeader(ep, io))
  {
    var e := AfterHeader(ep, io);
    assert ep.state.MetaRecved?;
    if |e.header| == HeaderLen(ep) {
      assert io.Blocked? ==> e.header == ep.header;
      AtDataInv(e);
    }
  }

  lemma DataStepInv(ep: Ep, io: Io)
    requires LocalInv(ep) && ep.pc.InData? && OkIo(ep, io)
    ensures LocalInv(OnData(ep, io))
  {
    assert ep.tx == [] && |ep.header| == HeaderLen(ep) && |ep.data| < DataLen(ep);
  }

  lemma SendStepInv(ep: Ep, io: Io)
    requires LocalInv(ep) && ep.pc.InSend? && OkIo(ep, io)
    ensures LocalInv(OnSend(ep, io))
  {
    assert ep.state.Replying? && ep.tx == [ep.tx[0]];
    if io.Sent? { assert |io.bytes| <= |Offered(ep)|; }
  }

  /** Every system call result keeps the invariant, so it holds at every handler boundary. */
  lemma StepKeepsInv(ep: Ep, io: Io)
    requires LocalInv(ep) && OkIo(ep, io)
    ensures LocalInv(OnIo(ep, io))
  {
    match ep.pc
    case InMeta => MetaStepInv(ep, io);
    case InHeader => HeaderStepInv(ep, io);
    case InData => DataStepInv(ep, io);
    case InSend => SendStepInv(ep, io);
  }

  predicate Receiving(ep: Ep) {
    ep.pc.InMeta? || ep.pc.InHeader? || ep.pc.InData?
  }

  /** The peer has closed, or the connection broke. */
  predicate EndOfStream(ep: Ep, io: Io) {
    (io == Got([]) && RecvLen(ep) > 0) || io.Failed?
  }

  /** A receive step appends exactly the received bytes; the sizes are read once, when the eighth
      byte is in; a reply is queued whole and unsent. */
  predicate Advances(ep: Ep, e: Ep, io: Io) {
    && Received(e) == Received(ep) + Bytes(io)
    && e.served == ep.served && e.writable == ep.writable
    && (e.state.NewRpc? ==> ep.state.NewRpc?)
    && (if !e.state.NewRpc? && ep.state.NewRpc? then
          |e.meta| == META_SIZE
          && e.headerOwner == Grow(ep.headerOwner, HeaderSize(e.meta))
          && e.dataOwner == Grow(ep.dataOwner, DataSize(e.meta))
        else
          e.headerOwner == ep.headerOwner && e.dataOwner == ep.dataOwner)
    && (!ep.state.NewRpc? ==> e.meta == ep.meta)
    && (e.state.Replying? ==> e.tx == [Tx(e.header, 0)])
    && (!e.state.Replying? ==> e.tx == [])
  }

  lemma MetaAdvances(ep: Ep, io: Io)
    requires LocalInv(ep) && ep.pc.InMeta? && OkIo(ep, io) && !EndOfStream(ep, io)
    ensures Advances(ep, OnMeta(ep, io), io)
  {
    assert (ep.meta + Bytes(io)) + [] + [] == ep.meta + [] + [] + Bytes(io);
  }

  lemma HeaderAdvances(ep: Ep, io: Io)
    requires LocalInv(ep) && ep.pc.InHeader? && OkIo(ep, io)
    ensures Advances(ep, OnHeader(ep, io), io)
  {
    assert ep.tx == [] && (Bytes(io) != [] ==> ep.data == []);
    assert ep.meta + (ep.header + Bytes(io)) + ep.data == ep.meta + ep.header + ep.data + Bytes(io);
  }

  lemma DataAdvances(ep: Ep, io: Io)
    requires LocalInv(ep) && ep.pc.InData? && OkIo(ep, io)
    ensures Advances(ep, OnData(ep, io), io)
  {
    assert ep.tx == [];
    assert ep.meta + ep.header + (ep.data + Bytes(io)) == ep.meta + ep.header + ep.data + Bytes(io);
  }

  lemma ReceiveAdvances(ep: Ep, io: Io)
    requires LocalInv(ep) && Receiving(ep) && OkIo(ep, io) && !EndOfStream(ep, io)
    ensures Advances(ep, OnIo(ep, io), io)
  {
    match ep.pc
    case InMeta => MetaAdvances(ep, io);
    case InHeader => HeaderAdvances(ep, io);
    case InData => DataAdvances(ep, io);
  }

  /** Entering a handler moves no bytes and queues nothing. */
  lemma EnterMovesNothing(ep: Ep)
    requires LocalInv(ep) && ep.pc.Idle?
    ensures EnterRecv(ep).(pc := Idle) == ep
    ensures EnterSend(ep).(pc := Idle) == ep
  {}

  // ---- runs of system call results ----

  /** The endpoint after a sequence of results inside one handler, or None if one is impossible. */
  function RunIo(ep: Ep, ios: seq<Io>): Option<Ep> {
    if ios == [] then Some(ep)
    else
      var e := RunIo(ep, ios[..|ios| - 1]);
      var io := ios[|ios| - 1];
      if e.Some? && LocalInv(e.value) && OkIo(e.value, io) then Some(OnIo(e.value, io)) else None
  }

  lemma RunStep(ep: Ep, ios: seq<Io>, e: Ep, io: Io)
    requires RunIo(ep, ios) == Some(e) && LocalInv(e) && OkIo(e, io)
    ensures RunIo(ep, ios + [io]) == Some(OnIo(e, io))
  {
    assert (ios + [io])[..|ios|] == ios;
  }

  lemma {:induction false} RunJoin(ep: Ep, p: seq<Io>, e: Ep, q: seq<Io>)
    requires RunIo(ep, p) == Some(e)
    ensures RunIo(ep, p + q) == RunIo(e, q)
    decreases |q|
  {
    if q == [] {
      assert p + q == p;
    } else {
      var init := q[..|q| - 1];
      RunJoin(ep, p, e, init);
      assert (p + q)[..|p + q| - 1] == p + init;
    }
  }

  /** es is a would-block-tolerant sequence of receives that delivered exactly s. */
  predicate Chunks(es: seq<Io>, s: seq<Byte>) {
    if es == [] then s == []
    else
      var init, io := es[..|es| - 1], es[|es| - 1];
      match io
      case Blocked => Chunks(init, s[..|s|])
      case Got(b) => b != [] && |b| <= |s| && s[|s| - |b|..] == b && Chunks(init, s[..|s| - |b|])
      case _ => false
  }

  lemma MetaStep(ep: Ep, io: Io)
    requires LocalInv(ep) && ep.pc.InMeta? && |ep.meta + Bytes(io)| < META_SIZE
    requires io.Blocked? || (io.Got? && io.bytes != [])
    ensures OkIo(ep, io) && OnIo(ep, io) == ep.(meta := ep.meta + Bytes(io)) && LocalInv(OnIo(ep, io))
  {
    if io.Blocked? { assert ep.meta + [] == ep.meta; }
  }

  /** The blocking read of the sizes, short of all eight bytes. */
  lemma {:induction false} MetaRun(ep: Ep, es: seq<Io>, s: seq<Byte>)
    requires LocalInv(ep) && ep.pc.InMeta? && ep.meta == [] && Chunks(es, s) && |s| < META_SIZE
    ensures RunIo(ep, es) == Some(ep.(meta := s)) && LocalInv(ep.(meta := s))
    decreases |es|
  {
    if es == [] {
    } else {
      var init, io := es[..|es| - 1], es[|es| - 1];
      var s0 := s[..|s| - |Bytes(io)|];
      assert s0 + Bytes(io) == s;
      MetaRun(ep, init, s0);
      MetaStep(ep.(meta := s0), io);
    }
  }

  /** The blocking read of the sizes, complete. */
  lemma MetaRunAll(ep: Ep, es: seq<Io>, s: seq<Byte>)
    requires LocalInv(ep) && ep.pc.InMeta? && ep.meta == [] && Chunks(es, s) && |s| == META_SIZE
    requires es[|es| - 1].Got?
    ensures RunIo(ep, es) == Some(ParseMeta(ep.(meta := s))) && LocalInv(ParseMeta(ep.(meta := s)))
  {
    var init, io := es[..|es| - 1], es[|es| - 1];
    var s0 := s[..|s| - |io.bytes|];
    assert s0 + io.bytes == s;
    MetaRun(ep, init, s0);
    var e := ep.(meta := s0);
    assert OkIo(e, io) && OnIo(e, io) == ParseMeta(ep.(meta := s));
    MetaStepInv(e, io);
  }
}
