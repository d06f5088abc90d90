/** The endpoint as the object the server runs: buffers with shared memory, a transmit queue and an
    interest set, updated in place. Every handler is proved to take the steps of EndpointSpec. */
module Endpoint {
  import opened Wire
  import opened EndpointSpec
  import opened Buffers
  import opened Sockets

  class BwServerEndpoint {
    const sock: TcpSocket
    const poll: Selector
    var interest: Interest
    var state: State
    var txQueue: seq<Buffer>
    var headerOwner: Buffer?
    var dataOwner: Buffer?
    var headerBuffer: Buffer?
    var dataBuffer: Buffer?
    var replyBuffer: Buffer?
    /** A PCHECK failed: the process is gone. */
    var aborted: bool

    ghost var Repr: set<object>

    /** An owner buffer: allocated to its size, all of it one message. */
    ghost predicate Owns(b: Buffer?, len: Option<nat>)
      reads this, b
    {
      if b == null then len == None
      else b in Repr && b.mem in Repr && b.Valid() && b.isOwner && len == Some(b.size) && b.msgLength == b.size
    }

    /** A view on an owner's memory: the first handled bytes are done, and the memory starts with bytes. */
    ghost predicate Views(v: Buffer?, owner: Buffer?, handled: nat, bytes: seq<Byte>)
      reads this, v, owner, if v != null then {v.mem} else {}
    {
      && v != null && owner != null && v in Repr && v.Valid() && !v.isOwner
      && v.mem == owner.mem && v.size == owner.size && v.msgLength == owner.size
      && v.bytesHandled == handled && |bytes| <= v.size && v.mem[..|bytes|] == bytes
    }

    /** The objects, the kernel's registration and the two owners. */
    ghost predicate Shape(a: Ep)
      reads this, Repr
    {
      && this in Repr && sock in Repr && poll in Repr
      && sock.fd in poll.interests && poll.interests[sock.fd] == interest && interest.readable
      && (headerOwner != null ==> headerOwner in Repr) && (dataOwner != null ==> dataOwner in Repr)
      && Owns(headerOwner, a.headerOwner) && Owns(dataOwner, a.dataOwner)
      && (headerOwner != null && dataOwner != null ==> headerOwner.mem != dataOwner.mem)
    }

    /** The two receiving views, while a request is under way. */
    ghost predicate Receivers(a: Ep)
      reads this, Repr
      requires Shape(a)
    {
      && headerBuffer != null && headerBuffer in Repr && dataBuffer != null && dataBuffer in Repr
      && headerBuffer != dataBuffer
      && headerBuffer.mem in Repr && dataBuffer.mem in Repr
      && Views(headerBuffer, headerOwner, |a.header|, a.header)
      && Views(dataBuffer, dataOwner, |a.data|, a.data)
    }

    /** The queued reply is a view on the header owner's memory, which still holds the header. */
    ghost predicate Queue(a: Ep)
      reads this, Repr
      requires Shape(a)
    {
      && |txQueue| == |a.tx| <= 1
      && (|txQueue| == 1 ==>
            && txQueue[0] in Repr && txQueue[0].mem in Repr && txQueue[0] != headerBuffer && txQueue[0] != dataBuffer
            && Views(txQueue[0], headerOwner, a.tx[0].handled, a.tx[0].msg)
            && |a.tx[0].msg| == txQueue[0].size)
    }

    /** The object is in the specification's state a. */
    ghost predicate Tied(a: Ep)
      reads this, Repr
    {
      && Shape(a) && Queue(a)
      && state == a.state && interest.writable == a.writable
      && (!a.state.NewRpc? ==> Receivers(a))
    }

    /** At a handler boundary, in the specification's state a. */
    ghost predicate Valid(a: Ep)
      reads this, Repr
    {
      Tied(a) && LocalInv(a) && a.pc.Idle? && !aborted
    }

    /** OnAccepted registers the fd for both directions. */
    constructor (sock: TcpSocket, poll: Selector)
      requires sock.fd !in poll.interests
      modifies poll
      ensures this.sock == sock && this.poll == poll
      ensures Valid(INIT) && Repr == {this, sock, poll}
      ensures poll.interests == old(poll.interests)[sock.fd := Interest(true, true)]
    {
      this.sock, this.poll, interest := sock, poll, Interest(true, true);
      state, txQueue, aborted := NewRpc, [], false;
      headerOwner, dataOwner, headerBuffer, dataBuffer, replyBuffer := null, null, null, null, null;
      Repr := {this, sock, poll};
      new;
      poll.Register(sock.fd, interest);
    }

    // ---- the sizes ----

    /** Replaces an owner that is missing or shorter than the announced size. */
    method GrowHeaderOwner(size: nat, ghost a: Ep) returns (ghost b: Ep)
      requires Shape(a) && size < U32
      modifies this`headerOwner, this`Repr
      ensures Shape(b) && fresh(Repr - old(Repr)) && headerOwner != null
      ensures b == a.(headerOwner := Grow(a.headerOwner, size))
    {
      if headerOwner == null || headerOwner.msgLength < size {
        var owner := new Buffer.Owner(size);
        owner.SetMsgLength(size);
        headerOwner := owner;
        Repr := Repr + {owner, owner.mem};
      }
      b := a.(headerOwner := Grow(a.headerOwner, size));
    }

    method GrowDataOwner(size: nat, ghost a: Ep) returns (ghost b: Ep)
      requires Shape(a) && size < U32
      modifies this`dataOwner, this`Repr
      ensures Shape(b) && fresh(Repr - old(Repr)) && dataOwner != null
      ensures b == a.(dataOwner := Grow(a.dataOwner, size))
    {
      if dataOwner == null || dataOwner.msgLength < size {
        var owner := new Buffer.Owner(size);
        owner.SetMsgLength(size);
        dataOwner := owner;
        Repr := Repr + {owner, owner.mem};
      }
      b := a.(dataOwner := Grow(a.dataOwner, size));
    }

    method GrowOwners(headerSize: nat, dataSize: nat, ghost a: Ep) returns (ghost b: Ep)
      requires Shape(a) && headerSize < U32 && dataSize < U32
      modifies this`headerOwner, this`dataOwner, this`Repr
      ensures Shape(b) && fresh(Repr - old(Repr)) && headerOwner != null && dataOwner != null
      ensures b == a.(headerOwner := Grow(a.headerOwner, headerSize), dataOwner := Grow(a.dataOwner, dataSize))
    {
      b := GrowHeaderOwner(headerSize, a);
      b := GrowDataOwner(dataSize, b);
    }

    /** Both receiving views start afresh on the owners. */
    method MakeViews(ghost a: Ep) returns (ghost b: Ep)
      requires Shape(a) && headerOwner != null && dataOwner != null
      modifies this`headerBuffer, this`dataBuffer, this`Repr
      ensures b == a.(header := [], data := [])
      ensures Shape(b) && Repr == old(Repr) + {headerBuffer, dataBuffer} && fresh(headerBuffer) && fresh(dataBuffer)
      ensures Receivers(b)
    {
      var h := new Buffer.View(headerOwner);
      var d := new Buffer.View(dataOwner);
      headerBuffer, dataBuffer := h, d;
      Repr := Repr + {h, d};
      b := a.(header := [], data := []);
    }

    /** A complete size pair: owners grow if they have to, and views are made on them. */
    method Allocate(meta: seq<Byte>, ghost a: Ep) returns (ghost b: Ep)
      requires Shape(a) && |meta| == META_SIZE && txQueue == [] && a.tx == [] && interest.writable == a.writable
      modifies this`headerOwner, this`dataOwner, this`headerBuffer, this`dataBuffer, this`state, this`Repr
      ensures Tied(b) && fresh(Repr - old(Repr))
      ensures b == ParseMeta(a.(meta := meta))
    {
      b := GrowOwners(HeaderSize(meta), DataSize(meta), a);
      b := MakeViews(b);
      state := MetaRecved;
      b := b.(meta := meta, state := MetaRecved, pc := InHeader);
    }

    /** The blocking read of the sizes; what was read of them is lost when the stream breaks off. */
    method ReadMeta(ghost a: Ep) returns (meta: seq<Byte>, ghost ios: seq<Io>)
      requires LocalInv(a) && a.pc.InMeta? && a.meta == []
      modifies sock
      ensures |meta| == META_SIZE || meta == []
      ensures sock.log == old(sock.log) + ios
      ensures var b := if meta == [] then a.(pc := Idle) else ParseMeta(a.(meta := meta));
        RunIo(a, ios) == Some(b) && LocalInv(b)
    {
      var metaBuffer := new Byte[META_SIZE];
      ghost var inbound := sock.inbound;
      var n, chunks := sock.RecvAll(metaBuffer, META_SIZE);
      ghost var s := inbound[..n];
      if n < META_SIZE {
        ghost var last := sock.log[|sock.log| - 1];
        MetaFails(a, chunks, s, last);
        return [], chunks + [last];
      }
      MetaRunAll(a, chunks, s);
      assert metaBuffer[..] == s;
      return metaBuffer[..], chunks;
    }

    method ReceiveMeta(ghost a: Ep) returns (ok: bool, ghost b: Ep, ghost ios: seq<Io>)
      requires Tied(a) && LocalInv(a) && a.pc.InMeta? && a.meta == []
      modifies this`headerOwner, this`dataOwner, this`headerBuffer, this`dataBuffer, this`state, this`Repr, sock
      ensures Tied(b) && LocalInv(b) && fresh(Repr - old(Repr))
      ensures sock.log == old(sock.log) + ios && RunIo(a, ios) == Some(b) && Rearmed(sock.fd, a, ios) == []
      ensures if ok then b.pc.InHeader? else b.pc.Idle?
    {
      var meta;
      meta, ios := ReadMeta(a);
      CalmRun(sock.fd, a, ios);
      if meta == [] { return false, a.(pc := Idle), ios; }
      b := Allocate(meta, a);
      ok := true;
    }

    // ---- header and data ----

    /** One Recv into the unfilled part of a buffer, with the cursor moved on. */
    method Fill(v: Buffer, ghost got: seq<Byte>) returns (nbytes: int, ghost io: Io)
      requires v.Valid() && |got| == v.bytesHandled && v.mem[..|got|] == got
      modifies sock, v`bytesHandled, v.mem
      ensures v.Valid()
      ensures sock.log == old(sock.log) + [io]
      ensures nbytes >= -1
      ensures nbytes == -1 && !sock.lastErrorWouldBlock <==> io.Failed?
      ensures nbytes == -1 && sock.lastErrorWouldBlock <==> io.Blocked?
      ensures nbytes >= 0 <==> io.Got?
      ensures |Bytes(io)| <= old(v.RemainSize())
      ensures v.bytesHandled == |got + Bytes(io)| && v.mem[..|got + Bytes(io)|] == got + Bytes(io)
    {
      nbytes := sock.Recv(v.mem, v.RemainBuffer(), v.RemainSize());
      io := sock.log[|sock.log| - 1];
      if nbytes != -1 { v.MarkHandled(nbytes); }
    }

    /** ok means that the header is complete; the specification then goes on with AtData. */
    method ReceiveHeader(ghost a: Ep) returns (ok: bool, ghost b: Ep, ghost io: Io)
      requires Tied(a) && a.tx == [] && a.state.MetaRecved? && !aborted
      modifies this`state, this`aborted, sock, headerBuffer, headerBuffer.mem
      ensures sock.log == old(sock.log) + [io]
      ensures aborted ==> io.Failed? && !ok
      ensures !aborted ==> (io.Got? || io.Blocked?) && |Bytes(io)| <= HeaderLen(a) - |a.header|
      ensures !aborted ==> b == AfterHeader(a, io) && Tied(b) && (ok <==> |b.header| == HeaderLen(a))
    {
      var nbytes;
      nbytes, io := Fill(headerBuffer, a.header);
      if nbytes == -1 {
        if !sock.lastErrorWouldBlock { aborted := true; return false, a, io; }
      } else if headerBuffer.IsClear() {
        state := HeaderRecved;
      }
      b := AfterHeader(a, io);
      ok := headerBuffer.IsClear();
    }

    /** ok means that all data is in and the reply view is made; the specification then goes on with
        AtReply. An announced but empty data part needs no system call. */
    method ReceiveData(ghost a: Ep) returns (ok: bool, ghost b: Ep, ghost ios: seq<Io>)
      requires Tied(a) && a.tx == [] && (a.state.MetaRecved? || a.state.HeaderRecved?) && !aborted
      requires |a.header| == HeaderLen(a) && (|a.data| < DataLen(a) || DataLen(a) == 0)
      modifies this`state, this`aborted, this`replyBuffer, this`Repr, sock, dataBuffer, dataBuffer.mem
      ensures sock.log == old(sock.log) + ios && fresh(Repr - old(Repr))
      ensures aborted ==> !ok && |ios| == 1 && ios[0].Failed? && DataLen(a) > 0
      ensures !aborted ==> Tied(b)
      ensures !aborted && DataLen(a) == 0 ==> ok && ios == [] && b == a.(state := DataRecved)
      ensures !aborted && DataLen(a) > 0 ==> |ios| == 1 && b == AfterData(a, ios[0])
      ensures !aborted && DataLen(a) > 0 ==> ios[0].Got? || ios[0].Blocked?
      ensures !aborted && DataLen(a) > 0 ==> |Bytes(ios[0])| <= DataLen(a) - |a.data|
      ensures !aborted ==> (ok <==> b.state.DataRecved?)
      ensures ok ==> ReplyReady(b)
    {
      if dataBuffer.size == 0 {
        state := DataRecved;
        MakeReply(a.(state := DataRecved));
        return true, a.(state := DataRecved), [];
      }
      var nbytes;
      ghost var io;
      nbytes, io := Fill(dataBuffer, a.data);
      ios, b := [io], AfterData(a, io);
      if nbytes == -1 {
        if !sock.lastErrorWouldBlock { aborted := true; return false, a, ios; }
      } else if dataBuffer.IsClear() {
        state := DataRecved;
        MakeReply(b);
      }
      ok := dataBuffer.IsClear();
    }

    /** The reply reuses the header's memory: it is only a view on it. */
    ghost predicate ReplyReady(a: Ep)
      reads this, Repr
    {
      && replyBuffer != null && replyBuffer in Repr && replyBuffer.mem in Repr
      && replyBuffer != headerBuffer && replyBuffer != dataBuffer
      && headerOwner != null && headerOwner in Repr
      && Views(replyBuffer, headerOwner, 0, a.header) && |a.header| == replyBuffer.size
    }

    method MakeReply(ghost a: Ep)
      requires Tied(a) && !a.state.NewRpc? && |a.header| == HeaderLen(a)
      modifies this`replyBuffer, this`Repr
      ensures Tied(a) && ReplyReady(a) && fresh(Repr - old(Repr))
    {
      replyBuffer := new Buffer.View(headerBuffer);
      Repr := Repr + {replyBuffer};
    }

    // ---- replying ----

    method Reply(ghost a: Ep) returns (ghost b: Ep, ghost ios: seq<Io>)
      requires Tied(a) && a.state.DataRecved? && a.tx == [] && ReplyReady(a) && LocalInv(AtReply(a)) && !aborted
      modifies this`state, this`txQueue, this`replyBuffer, this`interest, this`aborted, poll, sock, replyBuffer
      ensures sock.log == old(sock.log) + ios
      ensures aborted || Valid(b)
      ensures Took(sock.fd, AtReply(a), ios, b, aborted, old(poll.changes), poll.changes)
    {
      txQueue := txQueue + [replyBuffer];
      replyBuffer := null;
      state := Replying;
      b, ios := OnSendReady(AtReply(a));
    }

    /** The interest set and the kernel's copy of it change together. */
    method SetInterest(i: Interest, ghost a: Ep) returns (ghost b: Ep)
      requires Tied(a) && i.readable
      modifies this`interest, poll
      ensures Tied(b) && b == a.(writable := i.writable)
      ensures poll.changes == old(poll.changes) + [(sock.fd, i)]
    {
      interest := i;
      poll.Reregister(sock.fd, interest);
      b := a.(writable := i.writable);
    }

    /** One Send from the front of the queue, with the cursor moved on: what goes out is the next
        part of the header that was received, though it is read from the shared memory only now. */
    method SendFront(buffer: Buffer, ghost a: Ep) returns (nbytes: int, ghost b: Ep, ghost io: Io)
      requires Tied(a) && txQueue == [buffer]
      modifies sock, buffer`bytesHandled
      ensures sock.log == old(sock.log) + [io] && Tied(b)
      ensures nbytes >= -1
      ensures nbytes == -1 && !sock.lastErrorWouldBlock <==> io.Failed?
      ensures nbytes == -1 && sock.lastErrorWouldBlock <==> io.Blocked?
      ensures nbytes == -1 ==> b == a
      ensures nbytes >= 0 ==> io.Sent? && io.bytes <= Offered(a) && (Offered(a) != [] ==> io.bytes != [])
      ensures nbytes >= 0 ==> b == a.(tx := [Tx(a.tx[0].msg, a.tx[0].handled + |io.bytes|)])
      ensures |sock.schedule| < |old(sock.schedule)| || io.Failed?
    {
      nbytes := sock.Send(buffer.mem, buffer.RemainBuffer(), buffer.RemainSize());
      io, b := sock.log[|sock.log| - 1], a;
      if nbytes != -1 {
        SendsSuffix(buffer.mem[..], a.tx[0].msg, buffer.bytesHandled, nbytes);
        buffer.MarkHandled(nbytes);
        b := a.(tx := [Tx(a.tx[0].msg, a.tx[0].handled + nbytes)]);
      }
    }

    /** The reply is out: the RPC is over and the view is dropped. */
    method PopReply(ghost a: Ep) returns (ghost b: Ep)
      requires Tied(a) && |a.tx| == 1
      modifies this`state, this`txQueue
      ensures Tied(b) && b == Served(a)
    {
      state := NewRpc;
      txQueue := txQueue[1..];
      b := Served(a);
    }

    /** After a would-block, WRITABLE is in the interest set. */
    method AwaitRoom(ghost a: Ep) returns (ghost b: Ep)
      requires Tied(a)
      modifies this`interest, poll
      ensures Tied(b) && b == a.(writable := true, pc := Idle)
      ensures poll.changes == old(poll.changes) + if a.writable then [] else [(sock.fd, Interest(true, true))]
    {
      b := a;
      if !interest.writable { b := SetInterest(Interest(true, true), a); }
      b := b.(pc := Idle);
    }

    /** One turn of the send loop; more is false after a would-block. */
    method SendTurn(ghost a: Ep) returns (more: bool, ghost b: Ep, ghost io: Io)
      requires Tied(a) && |a.tx| == 1 && a.pc.InSend? && !aborted
      modifies this`state, this`txQueue, this`interest, this`aborted, poll, sock, txQueue[0]
      ensures sock.log == old(sock.log) + [io]
      ensures aborted ==> !more && io.Failed?
      ensures !aborted ==> poll.changes == old(poll.changes) + Rearm(sock.fd, a, io)
      ensures !aborted ==> Tied(b) && b == OnSend(a, io) && (more <==> io.Sent?)
      ensures !aborted ==> io.Blocked? || (io.Sent? && io.bytes <= Offered(a) && (Offered(a) != [] ==> io.bytes != []))
      ensures more ==> |sock.schedule| < |old(sock.schedule)|
      ensures txQueue == [] || txQueue == old(txQueue)
    {
      var buffer, nbytes := txQueue[0], 0;
      nbytes, b, io := SendFront(buffer, a);
      if nbytes == -1 {
        more := false;
        if !sock.lastErrorWouldBlock { aborted := true; return; }
        b := AwaitRoom(b);
        return;
      }
      more := true;
      if buffer.IsClear() {
        b := PopReply(b);
        if interest.writable { b := SetInterest(READABLE, b); }
      }
    }

    ghost predicate MidSend(a: Ep)
      reads this, Repr
    {
      Tied(a) && LocalInv(a) && Sending(a)
    }

    /** The same turn as a step of the specification, after ios. */
    method SendStep(ghost start: Ep, ghost ios: seq<Io>, ghost a: Ep, ghost before: seq<(int, Interest)>)
      returns (more: bool, ghost b: Ep, ghost io: Io)
      requires MidSend(a) && |a.tx| == 1 && !aborted && Took(sock.fd, start, ios, a, false, before, poll.changes)
      modifies this`state, this`txQueue, this`interest, this`aborted, poll, sock, txQueue[0]
      ensures sock.log == old(sock.log) + [io]
      ensures aborted ==> !more
      ensures Took(sock.fd, start, ios + [io], b, aborted, before, poll.changes)
      ensures aborted || !more || MidSend(b)
      ensures aborted || more || Valid(b)
      ensures more ==> |sock.schedule| < |old(sock.schedule)|
      ensures txQueue == [] || txQueue == old(txQueue)
    {
      more, b, io := SendTurn(a);
      if !aborted { SendIsStep(start, ios, a, io); }
      TookNext(sock.fd, start, ios, a, io, b, aborted, before, old(poll.changes), poll.changes);
    }

    /** Sends what the queue holds until it is empty or the socket would block. */
    method OnSendReady(ghost a: Ep) returns (ghost b: Ep, ghost ios: seq<Io>)
      requires Tied(a) && LocalInv(a) && !aborted && Sending(a)
      modifies this`state, this`txQueue, this`interest, this`aborted, poll, sock, set t | t in txQueue
      ensures sock.log == old(sock.log) + ios
      ensures aborted || Valid(b)
      ensures Took(sock.fd, a, ios, b, aborted, old(poll.changes), poll.changes)
    {
      b, ios := a, [];
      while txQueue != []
        invariant !aborted
        invariant aborted || MidSend(b)
        invariant txQueue == [] || txQueue == old(txQueue)
        invariant sock.log == old(sock.log) + ios
        invariant Took(sock.fd, a, ios, b, aborted, old(poll.changes), poll.changes)
        decreases |sock.schedule|
      {
        ghost var io, b0 := Blocked, b;
        var more;
        more, b, io := SendStep(a, ios, b0, old(poll.changes));
        ios := ios + [io];
        if !more { return; }
      }
    }

    // ---- the handlers ----

    /** ReceiveData as steps of the specification. */
    method DataStep(ghost a: Ep) returns (ok: bool, ghost b: Ep, ghost ios: seq<Io>)
      requires Tied(a) && a.tx == [] && (a.state.MetaRecved? || a.state.HeaderRecved?) && !aborted
      requires |a.header| == HeaderLen(a) && LocalInv(AtData(a))
      modifies this`state, this`aborted, this`replyBuffer, this`Repr, sock, dataBuffer, dataBuffer.mem
      ensures sock.log == old(sock.log) + ios && fresh(Repr - old(Repr))
      ensures aborted ==> !ok
      ensures DataRan(sock.fd, a, b, ok, aborted, ios)
      ensures aborted || ok || Valid(b)
      ensures !ok || (Tied(b) && ReplyReady(b))
    {
      ok, b, ios := ReceiveData(a);
      DataRuns(sock.fd, a, b, ok, aborted, ios);
    }

    /** ReceiveData and, if it succeeds, Reply. */
    method DataOnwards(ghost a: Ep) returns (ghost b: Ep, ghost ios: seq<Io>)
      requires Tied(a) && a.tx == [] && (a.state.MetaRecved? || a.state.HeaderRecved?) && !aborted
      requires |a.header| == HeaderLen(a) && LocalInv(AtData(a))
      modifies Repr
      ensures fresh(Repr - old(Repr))
      ensures aborted || Valid(b)
      ensures sock.log == old(sock.log) + ios
      ensures Took(sock.fd, AtData(a), ios, b, aborted, old(poll.changes), poll.changes)
    {
      var ok;
      ok, b, ios := DataStep(a);
      if !ok {
        DataTook(sock.fd, a, b, aborted, ios, poll.changes);
        return;
      }
      ghost var b1, ios1, ios2 := b, ios, [];
      b, ios2 := Reply(b1);
      TookJoin(sock.fd, AtData(a), ios1, AtReply(b1), ios2, b, aborted, old(poll.changes), poll.changes);
      Associates(old(sock.log), ios1, ios2);
      ios := ios1 + ios2;
    }

    /** ReceiveHeader and what follows if it succeeds. */
    method HeaderOnwards(ghost a: Ep) returns (ghost b: Ep, ghost ios: seq<Io>)
      requires Tied(a) && LocalInv(a) && a.pc.InHeader? && !aborted
      modifies Repr
      ensures fresh(Repr - old(Repr))
      ensures aborted || Valid(b)
      ensures sock.log == old(sock.log) + ios
      ensures Took(sock.fd, a, ios, b, aborted, old(poll.changes), poll.changes)
    {
      var ok;
      ghost var io;
      ok, b, io := ReceiveHeader(a);
      ios := [io];
      if aborted {
        AbortsNow(a, [], a, io);
        return;
      }
      HeaderIsStep(a, io);
      OneReceive(sock.fd, a, [io]);
      if !ok { return; }
      ghost var b1, ios2 := b, [];
      b, ios2 := DataOnwards(b1);
      TookJoin(sock.fd, a, [io], AtData(b1), ios2, b, aborted, old(poll.changes), poll.changes);
      Associates(old(sock.log), [io], ios2);
      ios := [io] + ios2;
    }

    method MetaOnwards(ghost a: Ep) returns (ghost b: Ep, ghost ios: seq<Io>)
      requires Tied(a) && LocalInv(a) && a.pc.InMeta? && a.meta == [] && !aborted
      modifies Repr
      ensures fresh(Repr - old(Repr))
      ensures aborted || Valid(b)
      ensures sock.log == old(sock.log) + ios
      ensures Took(sock.fd, a, ios, b, aborted, old(poll.changes), poll.changes)
    {
      var ok;
      ok, b, ios := ReceiveMeta(a);
      if !ok { return; }
      ghost var b1, ios1, ios2 := b, ios, [];
      b, ios2 := HeaderOnwards(b1);
      TookJoin(sock.fd, a, ios1, b1, ios2, b, aborted, old(poll.changes), poll.changes);
      Associates(old(sock.log), ios1, ios2);
      ios := ios1 + ios2;
    }

    /** A readable event: the object takes exactly the steps of the specification's OnRecvReady, for
        some results of the system calls, and is back at a handler boundary. */
    method OnRecvReady(ghost a: Ep) returns (ghost b: Ep, ghost ios: seq<Io>)
      requires Valid(a)
      modifies Repr
      ensures fresh(Repr - old(Repr))
      ensures aborted || Valid(b)
      ensures sock.log == old(sock.log) + ios
      ensures Took(sock.fd, EnterRecv(a), ios, b, aborted, old(poll.changes), poll.changes)
      ensures aborted ==> |sock.log| > |old(sock.log)| && sock.log[|sock.log| - 1].Failed?
    {
      EnterKeepsInv(a);
      b, ios := a, [];
      match state {
        case NewRpc => b, ios := MetaOnwards(EnterRecv(a));
        case MetaRecved => b, ios := HeaderOnwards(EnterRecv(a));
        case HeaderRecved => b, ios := DataOnwards(a);
        case DataRecved => assert false;
        case Replying =>
      }
    }

    /** A writable event. */
    method OnWritable(ghost a: Ep) returns (ghost b: Ep, ghost ios: seq<Io>)
      requires Valid(a)
      modifies Repr
      ensures Repr == old(Repr)
      ensures aborted || Valid(b)
      ensures sock.log == old(sock.log) + ios
      ensures Took(sock.fd, EnterSend(a), ios, b, aborted, old(poll.changes), poll.changes)
      ensures aborted ==> |sock.log| > |old(sock.log)| && sock.log[|sock.log| - 1].Failed?
    {
      EnterKeepsInv(a);
      b, ios := OnSendReady(EnterSend(a));
    }
  }

  /** The Reregister call of one step, if it makes one, and those of a run. */
  function Rearm(fd: int, ep: Ep, io: Io): seq<(int, Interest)>
    requires ep.tx != []
  {
    if Rearms(ep, io) then [(fd, Interest(true, OnSend(ep, io).writable))] else []
  }

  function Rearmed(fd: int, ep: Ep, ios: seq<Io>): seq<(int, Interest)> {
    if ios == [] then []
    else
      var init, io := ios[..|ios| - 1], ios[|ios| - 1];
      var e := RunIo(ep, init);
      Rearmed(fd, ep, init) + (if e.Some? && e.value.tx != [] then Rearm(fd, e.value, io) else [])
  }

  lemma RearmedNext(fd: int, ep: Ep, ios: seq<Io>, e: Ep, io: Io)
    requires RunIo(ep, ios) == Some(e)
    ensures Rearmed(fd, ep, ios + [io]) == Rearmed(fd, ep, ios) + (if e.tx != [] then Rearm(fd, e, io) else [])
    ensures !e.pc.InSend? ==> Rearmed(fd, ep, ios + [io]) == Rearmed(fd, ep, ios)
  {
    assert (ios + [io])[..|ios|] == ios;
  }

  lemma {:induction false} RearmedJoin(fd: int, ep: Ep, p: seq<Io>, e: Ep, q: seq<Io>)
    requires RunIo(ep, p) == Some(e)
    ensures Rearmed(fd, ep, p + q) == Rearmed(fd, ep, p) + Rearmed(fd, e, q)
    decreases |q|
  {
    if q == [] {
      assert p + q == p;
    } else {
      var init, io := q[..|q| - 1], q[|q| - 1];
      RearmedJoin(fd, ep, p, e, init);
      RunJoin(ep, p, e, init);
      assert (p + q)[..|p + q| - 1] == p + init;
      var mid := RunIo(e, init);
      var last := if mid.Some? && mid.value.tx != [] then Rearm(fd, mid.value, io) else [];
      Associates(Rearmed(fd, ep, p), Rearmed(fd, e, init), last);
    }
  }

  /** Of one step: served never shrinks, and a step into an empty queue that serves nothing is no send. */
  lemma Calm(ep: Ep, io: Io)
    requires LocalInv(ep) && OkIo(ep, io)
    ensures |OnIo(ep, io).served| >= |ep.served|
    ensures OnIo(ep, io).tx == [] && |OnIo(ep, io).served| == |ep.served| ==> ep.tx == []
  {}

  /** A run that has sent nothing has registered nothing. */
  lemma {:induction false} CalmRun(fd: int, ep: Ep, ios: seq<Io>)
    requires RunIo(ep, ios).Some?
    ensures |RunIo(ep, ios).value.served| >= |ep.served|
    ensures RunIo(ep, ios).value.tx == [] && |RunIo(ep, ios).value.served| == |ep.served| ==> Rearmed(fd, ep, ios) == []
    decreases |ios|
  {
    if ios == [] {
    } else {
      var init, io := ios[..|ios| - 1], ios[|ios| - 1];
      CalmRun(fd, ep, init);
      Calm(RunIo(ep, init).value, io);
    }
  }

  lemma OneReceive(fd: int, ep: Ep, ios: seq<Io>)
    requires ios == [] || (|ios| == 1 && !ep.pc.InSend?)
    ensures Rearmed(fd, ep, ios) == []
  {
    if ios != [] {
      assert RunIo(ep, []) == Some(ep) && [] + [ios[0]] == ios;
      RearmedNext(fd, ep, [], ep, ios[0]);
    }
  }

  /** What a handler call did, in terms of the specification: the run of its system call results and the Reregister
      calls of that run, or a run that a failed system call ended. */
  predicate Took(fd: int, start: Ep, ios: seq<Io>, b: Ep, aborted: bool,
                 before: seq<(int, Interest)>, after: seq<(int, Interest)>) {
    if aborted then Aborts(start, ios) else RunIo(start, ios) == Some(b) && after == before + Rearmed(fd, start, ios)
  }

  /** What ReceiveData did: it leads to the reply, or ends the handler call, or the process. */
  predicate DataRan(fd: int, a: Ep, b: Ep, ok: bool, aborted: bool, ios: seq<Io>) {
    && Rearmed(fd, AtData(a), ios) == []
    && (aborted ==> Aborts(AtData(a), ios))
    && (!aborted && !ok ==> RunIo(AtData(a), ios) == Some(b) && LocalInv(b) && b.pc.Idle?)
    && (ok ==> b.state.DataRecved? && b.tx == [] && LocalInv(AtReply(b)) && RunIo(AtData(a), ios) == Some(AtReply(b)))
  }

  lemma DataRuns(fd: int, a: Ep, b: Ep, ok: bool, aborted: bool, ios: seq<Io>)
    requires a.tx == [] && (a.state.MetaRecved? || a.state.HeaderRecved?) && LocalInv(AtData(a))
    requires |a.header| == HeaderLen(a) && (ok ==> !aborted)
    requires aborted ==> |ios| == 1 && ios[0].Failed? && DataLen(a) > 0
    requires !aborted && DataLen(a) == 0 ==> ok && ios == [] && b == a.(state := DataRecved)
    requires !aborted && DataLen(a) > 0 ==> |ios| == 1 && b == AfterData(a, ios[0])
    requires !aborted && DataLen(a) > 0 ==> ios[0].Got? || ios[0].Blocked?
    requires !aborted && DataLen(a) > 0 ==> |Bytes(ios[0])| <= DataLen(a) - |a.data|
    requires !aborted ==> (ok <==> b.state.DataRecved?)
    ensures DataRan(fd, a, b, ok, aborted, ios)
  {
    if ios != [] { assert ios == [] + [ios[0]]; }
    OneReceive(fd, AtData(a), ios);
    if aborted {
      AbortsNow(AtData(a), [], AtData(a), ios[0]);
    } else if DataLen(a) > 0 {
      DataIsStep(a, ios[0]);
      assert ios == [ios[0]];
    }
  }

  lemma DataTook(fd: int, a: Ep, b: Ep, aborted: bool, ios: seq<Io>, changes: seq<(int, Interest)>)
    requires DataRan(fd, a, b, false, aborted, ios)
    ensures Took(fd, AtData(a), ios, b, aborted, changes, changes)
  {
    assert changes + [] == changes;
  }

  lemma TookNext(fd: int, start: Ep, ios: seq<Io>, e: Ep, io: Io, b: Ep, aborted: bool,
                 before: seq<(int, Interest)>, between: seq<(int, Interest)>, after: seq<(int, Interest)>)
    requires e.tx != [] && Took(fd, start, ios, e, false, before, between)
    requires aborted ==> io.Failed?
    requires !aborted ==> after == between + Rearm(fd, e, io) && RunIo(start, ios + [io]) == Some(b)
    ensures Took(fd, start, ios + [io], b, aborted, before, after)
  {
    if aborted {
      AbortsNow(start, ios, e, io);
    } else {
      RearmedNext(fd, start, ios, e, io);
      Associates(before, Rearmed(fd, start, ios), Rearm(fd, e, io));
    }
  }

  /** A run that registers nothing, and then a handler call from where it ended. */
  lemma TookJoin(fd: int, a: Ep, p: seq<Io>, m: Ep, q: seq<Io>, b: Ep, aborted: bool,
                 before: seq<(int, Interest)>, after: seq<(int, Interest)>)
    requires RunIo(a, p) == Some(m) && Rearmed(fd, a, p) == [] && Took(fd, m, q, b, aborted, before, after)
    ensures Took(fd, a, p + q, b, aborted, before, after)
  {
    RunJoin(a, p, m, q);
    RearmedJoin(fd, a, p, m, q);
    assert [] + Rearmed(fd, m, q) == Rearmed(fd, m, q);
    if aborted {
      RunJoin(a, p, m, q[..|q| - 1]);
      assert (p + q)[..|p + q| - 1] == p + q[..|q| - 1];
    }
  }

  /** The results of a handler call that ended the process: the last one is a failed system call, and the ones before
      are a run of the specification. */
  predicate Aborts(start: Ep, ios: seq<Io>) {
    ios != [] && ios[|ios| - 1].Failed? && RunIo(start, ios[..|ios| - 1]).Some?
  }

  lemma AbortsNow(start: Ep, ios: seq<Io>, e: Ep, io: Io)
    requires RunIo(start, ios) == Some(e) && io.Failed?
    ensures Aborts(start, ios + [io])
  {
    assert (ios + [io])[..|ios|] == ios;
  }

  lemma HeaderIsStep(ep: Ep, io: Io)
    requires LocalInv(ep) && ep.pc.InHeader? && OkIo(ep, io)
    ensures var b := AfterHeader(ep, io);
      if |b.header| == HeaderLen(ep) then
        && RunIo(ep, [io]) == Some(AtData(b)) && LocalInv(AtData(b))
        && (b.state.MetaRecved? || b.state.HeaderRecved?) && b.tx == []
      else
        RunIo(ep, [io]) == Some(b) && LocalInv(b) && b.pc.Idle?
  {
    HeaderStepInv(ep, io);
    RunStep(ep, [], ep, io);
  }

  lemma DataIsStep(ep: Ep, io: Io)
    requires LocalInv(AtData(ep)) && AtData(ep).pc.InData? && OkIo(AtData(ep), io)
    ensures var b := AfterData(ep, io);
      if b.state.DataRecved? then RunIo(AtData(ep), [io]) == Some(AtReply(b)) && LocalInv(AtReply(b)) && b.tx == []
      else RunIo(AtData(ep), [io]) == Some(b) && LocalInv(b) && b.pc.Idle?
  {
    DataStepInv(AtData(ep), io);
    RunStep(AtData(ep), [], AtData(ep), io);
  }

  /** About to send, or nothing to send. */
  predicate Sending(ep: Ep) {
    if ep.tx == [] then ep.pc.Idle? else ep.pc.InSend? && |ep.tx| == 1
  }

  lemma SendIsStep(a: Ep, ios: seq<Io>, ep: Ep, io: Io)
    requires LocalInv(ep) && ep.pc.InSend? && OkIo(ep, io) && |ep.tx| == 1 && RunIo(a, ios) == Some(ep)
    ensures LocalInv(OnSend(ep, io)) && RunIo(a, ios + [io]) == Some(OnSend(ep, io))
    ensures io.Sent? ==> Sending(OnSend(ep, io))
  {
    SendStepInv(ep, io);
    RunStep(a, ios, ep, io);
    if io.Sent? {
      var t := Tx(ep.tx[0].msg, ep.tx[0].handled + |io.bytes|);
      assert |io.bytes| <= |Offered(ep)|;
      assert ep.tx[1..] == [] && ep.tx[0 := t] == [t];
    }
  }

  lemma SendsSuffix(mem: seq<Byte>, msg: seq<Byte>, off: nat, n: nat)
    requires off + n <= |msg| <= |mem| && mem[..|msg|] == msg
    ensures mem[off..off + n] == msg[off..][..n]
  {
    assert mem[..|msg|][off..off + n] == mem[off..off + n];
  }

  lemma MetaFails(ep: Ep, es: seq<Io>, s: seq<Byte>, io: Io)
    requires LocalInv(ep) && ep.pc.InMeta? && ep.meta == [] && Chunks(es, s) && |s| < META_SIZE
    requires io == Got([]) || io == Failed
    ensures RunIo(ep, es + [io]) == Some(ep.(pc := Idle)) && LocalInv(ep.(pc := Idle))
  {
    MetaRun(ep, es, s);
    MetaAbandoned(ep, es, s, io);
  }

  lemma MetaAbandoned(ep: Ep, es: seq<Io>, s: seq<Byte>, io: Io)
    requires LocalInv(ep) && ep.pc.InMeta? && |s| < META_SIZE && ep.meta == []
    requires RunIo(ep, es) == Some(ep.(meta := s)) && LocalInv(ep.(meta := s))
    requires io == Got([]) || io == Failed
    ensures RunIo(ep, es + [io]) == Some(ep.(pc := Idle)) && LocalInv(ep.(pc := Idle))
  {
    RunStep(ep, es, ep.(meta := s), io);
  }
}
