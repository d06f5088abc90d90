/** The reply is a view on the memory the header was received into: over any number of handler calls and
    partial sends, what goes out is that header. */
module ReplyIntegrity {
  import opened Wire
  import opened EndpointSpec

  function SentBytes(ios: seq<Io>): seq<Byte> {
    if ios == [] then [] else (if ios[0].Sent? then ios[0].bytes else []) + SentBytes(ios[1..])
  }

  /** A writable event, if the endpoint is outside its handlers. */
  function Resumed(ep: Ep): Ep {
    if ep.pc.Idle? then EnterSend(ep) else ep
  }

  /** ios are possible results of the sends made until the reply is out, or for as long as they last. */
  predicate Sends(ep: Ep, ios: seq<Io>)
    decreases |ios|
  {
    ios == [] || (
      && ep.state.Replying? && LocalInv(Resumed(ep)) && OkIo(Resumed(ep), ios[0])
      && Sends(OnIo(Resumed(ep), ios[0]), ios[1..]))
  }

  function AfterSends(ep: Ep, ios: seq<Io>): Ep
    requires Sends(ep, ios)
    decreases |ios|
  {
    if ios == [] then ep else AfterSends(OnIo(Resumed(ep), ios[0]), ios[1..])
  }

  /** From ep to e, bytes went out: the next part of the header, with header, data and owners as they
      were while the reply is under way; the RPC is over exactly when the whole header is out. */
  predicate Replies(ep: Ep, e: Ep, bytes: seq<Byte>) {
    && |ep.tx| == 1
    && if e.state.Replying? then
         var h := ep.tx[0].handled;
         && e.tx == [Tx(ep.header, h + |bytes|)] && h + |bytes| <= |ep.header| && bytes == ep.header[h..h + |bytes|]
         && (ep.header != [] ==> h + |bytes| < |ep.header|)
         && e.header == ep.header && e.data == ep.data && e.served == ep.served
         && e.headerOwner == ep.headerOwner && e.dataOwner == ep.dataOwner
       else
         && ep.tx[0].handled <= |ep.header| && bytes == ep.header[ep.tx[0].handled..]
         && e.state.NewRpc? && e.tx == [] && e.served == ep.served + [Request(ep.header, ep.data)]
  }

  lemma Unsent(ep: Ep)
    requires LocalInv(ep) && ep.pc.InSend?
    ensures LocalInv(OnIo(ep, Blocked)) && Replies(ep, OnIo(ep, Blocked), [])
  {
    StepKeepsInv(ep, Blocked);
    assert ep.tx == [Tx(ep.header, ep.tx[0].handled)];
  }

  lemma SomeSent(ep: Ep, bytes: seq<Byte>)
    requires LocalInv(ep) && ep.pc.InSend? && OkIo(ep, Sent(bytes))
    ensures LocalInv(OnIo(ep, Sent(bytes))) && Replies(ep, OnIo(ep, Sent(bytes)), bytes)
  {
    StepKeepsInv(ep, Sent(bytes));
    assert ep.tx == [ep.tx[0]];
    assert |bytes| <= |Offered(ep)|;
  }

  lemma OneSend(ep: Ep, io: Io)
    requires LocalInv(ep) && ep.state.Replying? && LocalInv(Resumed(ep)) && OkIo(Resumed(ep), io)
    ensures LocalInv(OnIo(Resumed(ep), io))
    ensures Replies(ep, OnIo(Resumed(ep), io), SentBytes([io]))
  {
    assert SentBytes([io]) == if io.Sent? then io.bytes else [];
    if io.Sent? { SomeSent(Resumed(ep), io.bytes); } else { Unsent(Resumed(ep)); }
  }

  lemma Compose(ep: Ep, m: Ep, e: Ep, p: seq<Byte>, q: seq<Byte>)
    requires Replies(ep, m, p) && m.state.Replying? && Replies(m, e, q)
    ensures Replies(ep, e, p + q)
  {}

  lemma SentHead(ios: seq<Io>)
    requires ios != []
    ensures SentBytes(ios) == SentBytes([ios[0]]) + SentBytes(ios[1..])
  {
    assert [ios[0]][1..] == [];
  }

  lemma SendsHead(ep: Ep, ios: seq<Io>)
    requires ios != [] && Sends(ep, ios)
    ensures ep.state.Replying? && LocalInv(Resumed(ep)) && OkIo(Resumed(ep), ios[0])
    ensures Sends(OnIo(Resumed(ep), ios[0]), ios[1..])
    ensures AfterSends(ep, ios) == AfterSends(OnIo(Resumed(ep), ios[0]), ios[1..])
  {}

  lemma NothingSent(ep: Ep)
    requires LocalInv(ep) && ep.state.Replying?
    ensures Replies(ep, ep, [])
  {
    assert ep.tx == [Tx(ep.header, ep.tx[0].handled)];
  }

  /** The parts sent concatenate to the part of the header that was still to go, none missing, repeated or
      overwritten in between. */
  lemma {:induction false} RepliesWithTheHeader(ep: Ep, ios: seq<Io>)
    requires LocalInv(ep) && ep.state.Replying? && Sends(ep, ios)
    ensures Replies(ep, AfterSends(ep, ios), SentBytes(ios))
    decreases |ios|
  {
    if ios == [] {
      NothingSent(ep);
    } else {
      SendsHead(ep, ios);
      SentHead(ios);
      OneSend(ep, ios[0]);
      var m, rest := OnIo(Resumed(ep), ios[0]), ios[1..];
      if m.state.Replying? {
        RepliesWithTheHeader(m, rest);
        Compose(ep, m, AfterSends(m, rest), SentBytes([ios[0]]), SentBytes(rest));
      } else {
        assert rest == [];
      }
    }
  }
}
