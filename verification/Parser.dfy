/** The incremental parser against the one-shot reading of the same bytes. */
module ParserRefinement {
  import opened Wire
  import opened EndpointSpec

  /** Between events the next readiness event enters OnRecvReady. */
  function Ready(ep: Ep): Ep {
    if ep.pc.Idle? then EnterRecv(ep) else ep
  }

  /** The results arrive one by one, for one request, with handlers re-entered as they return. */
  predicate Fed(ep: Ep, ios: seq<Io>)
    requires LocalInv(ep)
    decreases |ios|
  {
    if ios == [] then true
    else
      EnterKept(ep);
      var e := Ready(ep);
      if e.state.Replying? || !OkIo(e, ios[0]) || EndOfStream(e, ios[0]) then false
      else
        StepKeepsInv(e, ios[0]);
        Fed(OnIo(e, ios[0]), ios[1..])
  }

  function Feed(ep: Ep, ios: seq<Io>): Ep
    requires LocalInv(ep) && Fed(ep, ios)
    decreases |ios|
  {
    if ios == [] then ep
    else
      EnterKept(ep);
      StepKeepsInv(Ready(ep), ios[0]);
      Feed(OnIo(Ready(ep), ios[0]), ios[1..])
  }

  lemma EnterKept(ep: Ep)
    requires LocalInv(ep)
    ensures LocalInv(Ready(ep))
  {
    if ep.pc.Idle? { EnterKeepsInv(ep); }
  }

  function AllBytes(ios: seq<Io>): seq<Byte> {
    if ios == [] then [] else Bytes(ios[0]) + AllBytes(ios[1..])
  }

  datatype Parse = Incomplete | Complete(header: seq<Byte>, data: seq<Byte>)

  /** Reading all bytes at once, with the owner lengths of the previous requests. */
  function OneShot(headerOwner: Option<nat>, dataOwner: Option<nat>, s: seq<Byte>): Parse {
    if |s| < META_SIZE then Incomplete
    else
      var h := Grow(headerOwner, HeaderSize(s[..META_SIZE])).value;
      var d := Grow(dataOwner, DataSize(s[..META_SIZE])).value;
      if |s| < META_SIZE + h + d then Incomplete
      else Complete(s[META_SIZE..META_SIZE + h], s[META_SIZE + h..META_SIZE + h + d])
  }

  /** What the endpoint is in the middle of a request that began with the given owners. */
  predicate Parsing(ho: Option<nat>, do: Option<nat>, ep: Ep) {
    && LocalInv(ep)
    && (ep.state.NewRpc? ==> ep.headerOwner == ho && ep.dataOwner == do)
    && (!ep.state.NewRpc? ==>
          && |ep.meta| == META_SIZE
          && ep.headerOwner == Grow(ho, HeaderSize(ep.meta)) && ep.dataOwner == Grow(do, DataSize(ep.meta)))
    && (ep.state.Replying? ==> ep.tx == [Tx(ep.header, 0)])
  }

  lemma ParsingStep(ho: Option<nat>, do: Option<nat>, ep: Ep, io: Io)
    requires Parsing(ho, do, ep) && !ep.state.Replying? && LocalInv(Ready(ep))
    requires OkIo(Ready(ep), io) && !EndOfStream(Ready(ep), io)
    ensures Parsing(ho, do, OnIo(Ready(ep), io))
    ensures Received(OnIo(Ready(ep), io)) == Received(ep) + Bytes(io)
  {
    var e := Ready(ep);
    if ep.pc.Idle? { EnterMovesNothing(ep); }
    StepKeepsInv(e, io);
    ReceiveAdvances(e, io);
  }

  lemma FedFirst(ho: Option<nat>, do: Option<nat>, ep: Ep, ios: seq<Io>) returns (next: Ep)
    requires Parsing(ho, do, ep) && Fed(ep, ios) && ios != []
    ensures Parsing(ho, do, next) && Fed(next, ios[1..]) && Feed(ep, ios) == Feed(next, ios[1..])
    ensures Received(next) == Received(ep) + Bytes(ios[0])
  {
    EnterKept(ep);
    StepKeepsInv(Ready(ep), ios[0]);
    next := OnIo(Ready(ep), ios[0]);
    ParsingStep(ho, do, ep, ios[0]);
  }

  lemma JoinBytes(s: seq<Byte>, ios: seq<Io>)
    requires ios != []
    ensures s + Bytes(ios[0]) + AllBytes(ios[1..]) == s + AllBytes(ios)
  {
    assert AllBytes(ios) == Bytes(ios[0]) + AllBytes(ios[1..]);
  }

  lemma {:induction false} FeedParses(ho: Option<nat>, do: Option<nat>, ep: Ep, ios: seq<Io>)
    requires Parsing(ho, do, ep) && Fed(ep, ios)
    ensures Parsing(ho, do, Feed(ep, ios))
    ensures Received(Feed(ep, ios)) == Received(ep) + AllBytes(ios)
    decreases |ios|
  {
    if ios == [] {
      assert Received(ep) + [] == Received(ep);
    } else {
      var next := FedFirst(ho, do, ep, ios);
      FeedParses(ho, do, next, ios[1..]);
      JoinBytes(Received(ep), ios);
    }
  }

  lemma Parts(m: seq<Byte>, h: seq<Byte>, d: seq<Byte>)
    ensures var s := m + h + d;
      s[..|m|] == m && s[|m|..|m| + |h|] == h && s[|m| + |h|..|m| + |h| + |d|] == d
  {}

  /** Splitting does not matter: at a handler boundary the endpoint is replying exactly when the
      one-shot reading of the concatenated bytes is complete, and then holds the same header and
      data, with the header queued whole as the reply. */
  lemma ParserRefinesOneShot(ep: Ep, ios: seq<Io>)
    requires LocalInv(ep) && ep.state.NewRpc? && ep.pc.Idle? && Fed(ep, ios)
    requires var e := Feed(ep, ios); e.pc.Idle? || e.state.Replying?
    ensures var e := Feed(ep, ios);
      match OneShot(ep.headerOwner, ep.dataOwner, AllBytes(ios))
      case Incomplete => !e.state.Replying?
      case Complete(h, d) => e.state.Replying? && e.header == h && e.data == d && e.tx == [Tx(h, 0)]
                             && |AllBytes(ios)| == META_SIZE + |h| + |d|
  {
    FeedParses(ep.headerOwner, ep.dataOwner, ep, ios);
    var e, s := Feed(ep, ios), AllBytes(ios);
    assert Received(e) == s;
    if !e.state.NewRpc? {
      Parts(e.meta, e.header, e.data);
    }
  }

  /** A size is at least the length of the owner, if there is one. */
  predicate Covers(size: nat, owner: Option<nat>) {
    owner.Some? ==> owner.value <= size
  }

  /** When neither announced size is below its owner's length, that reading is the decoding of the
      frame: header and data are the encoded ones and no byte is left over. */
  lemma ParserDecodesFrame(ep: Ep, ios: seq<Io>, r: Request)
    requires LocalInv(ep) && ep.state.NewRpc? && ep.pc.Idle? && Fed(ep, ios)
    requires var e := Feed(ep, ios); e.pc.Idle? || e.state.Replying?
    requires Fits(r) && AllBytes(ios) == Frame(r)
    ensures var e := Feed(ep, ios);
      (e.state.Replying? && Request(e.header, e.data) == r && DecodeFrame(AllBytes(ios)) == Some((r, [])))
      <==> Covers(|r.header|, ep.headerOwner) && Covers(|r.data|, ep.dataOwner)
  {
    ParserRefinesOneShot(ep, ios);
    MetaRoundTrip(r);
    FrameRoundTrip(r, []);
    var s := Frame(r);
    assert s + [] == s;
    Parts(Meta(r), r.header, r.data);
    assert Grow(ep.headerOwner, |r.header|).value >= |r.header| && Grow(ep.dataOwner, |r.data|).value >= |r.data|;
  }

  // ---- the read of the sizes holds the thread ----

  /** The handler is still inside its blocking read of the sizes after each of these results. */
  predicate HoldsTheLoop(ep: Ep, ios: seq<Io>)
    requires LocalInv(ep)
    decreases |ios|
  {
    && ep.pc.InMeta?
    && (ios == [] || (
          && OkIo(ep, ios[0])
          && (StepKeepsInv(ep, ios[0]); HoldsTheLoop(OnIo(ep, ios[0]), ios[1..]))))
  }

  predicate Possible(ios: seq<Io>) {
    forall k | 0 <= k < |ios| :: ios[k].Blocked? || ios[k].Failed? || ios[k].Got?
  }

  /** The peer has not closed and the connection has not failed. */
  predicate Unbroken(ios: seq<Io>) {
    forall k | 0 <= k < |ios| :: !ios[k].Failed? && ios[k] != Got([])
  }

  /** One result ends the read exactly if it breaks the stream off or completes the sizes. */
  lemma StillReading(ep: Ep, io: Io)
    requires LocalInv(ep) && ep.pc.InMeta?
    requires OkIo(ep, io)
    ensures OnIo(ep, io).pc.InMeta? <==> !EndOfStream(ep, io) && |ep.meta| + |Bytes(io)| < META_SIZE
    ensures OnIo(ep, io).pc.InMeta? ==> |OnIo(ep, io).meta| == |ep.meta| + |Bytes(io)|
  {}

  /** Exactly how long a peer holds the one thread of the server: as long as it neither closes nor completes the eight
      bytes, whatever other connections wait for. */
  lemma {:induction false} HoldsTheLoopIff(ep: Ep, ios: seq<Io>)
    requires LocalInv(ep) && ep.pc.InMeta? && Possible(ios)
    ensures HoldsTheLoop(ep, ios) <==>
            Unbroken(ios) && |ep.meta| + |AllBytes(ios)| < META_SIZE
    decreases |ios|
  {
    if ios == [] {
    } else {
      var io := ios[0];
      assert |AllBytes(ios)| == |Bytes(io)| + |AllBytes(ios[1..])|;
      if OkIo(ep, io) {
        StillReading(ep, io);
        StepKeepsInv(ep, io);
        if OnIo(ep, io).pc.InMeta? { HoldsTheLoopIff(OnIo(ep, io), ios[1..]); }
      }
    }
  }
}
