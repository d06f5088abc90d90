/** The bandwidth client: framing, the synchronous call, and the loop that repeats one message. */
module Client {
  import opened Wire
  import opened Sockets
  import opened Metering

  class SocketBwClientApp {
    const sock: TcpSocket
    const sendBuffer: array<Byte>
    const recvBuffer: array<Byte>
    const meter: Meter
    /** An RPC_CHECK failed: the process is gone. */
    var aborted: bool

    constructor (sock: TcpSocket, bufferSize: nat, meter: Meter)
      ensures this.sock == sock && this.meter == meter && !aborted
      ensures fresh(sendBuffer) && fresh(recvBuffer) && sendBuffer != recvBuffer
      ensures sendBuffer.Length == recvBuffer.Length == bufferSize
    {
      this.sock, this.meter := sock, meter;
      sendBuffer := new Byte[bufferSize];
      recvBuffer := new Byte[bufferSize];
      aborted := false;
    }

    method Store(off: nat, bytes: seq<Byte>)
      requires off + |bytes| <= sendBuffer.Length
      modifies sendBuffer
      ensures sendBuffer[..] == old(sendBuffer[..off]) + bytes + old(sendBuffer[off + |bytes|..])
    {
      forall k | off <= k < off + |bytes| { sendBuffer[k] := bytes[k - off]; }
    }

    /** Writes exactly the frame of the request and reads exactly as many bytes as its header has;
        success is false exactly when the stream broke off before that. */
    method PushData(header: seq<Byte>, data: array<Byte>) returns (success: bool, ack: seq<Byte>)
      requires META_SIZE + |header| <= sendBuffer.Length && |header| <= recvBuffer.Length
      requires sendBuffer != recvBuffer && data != sendBuffer && data != recvBuffer && !aborted
      modifies this`aborted, sock, sendBuffer, recvBuffer
      ensures data[..] == old(data[..])
      ensures sock.outbound <= old(sock.outbound) + Frame(Request(header, data[..]))
      ensures !aborted ==> sock.outbound == old(sock.outbound) + Frame(Request(header, data[..]))
      ensures aborted ==> sock.failures == old(sock.failures) + 1 && sock.inbound == old(sock.inbound) && !success
      ensures !aborted && success ==> sock.failures == old(sock.failures)
      ensures !aborted && success ==>
        && |header| <= |old(sock.inbound)|
        && ack == old(sock.inbound)[..|header|] && sock.inbound == old(sock.inbound)[|header|..]
      ensures !aborted && !success ==>
        || (sock.failures == old(sock.failures) + 1 && |sock.inbound| <= |old(sock.inbound)|)
        || (sock.failures == old(sock.failures) && sock.inbound == [] && |old(sock.inbound)| < |header|)
    {
      success, ack := false, [];
      ghost var r := Request(header, data[..]);
      Store(0, EncodeU32(|header|));
      Store(4, EncodeU32(data.Length));
      Store(META_SIZE, header);
      assert sendBuffer[..META_SIZE + |header|] == Meta(r) + header;
      ghost var sent0 := sock.outbound;
      var n := sock.SendAll(sendBuffer, META_SIZE + |header|);
      FrameParts(r, sendBuffer[..n], []);
      if n != META_SIZE + |header| { aborted := true; return; }
      var m := sock.SendAll(data, data.Length);
      FrameParts(r, Meta(r) + header, data[..m]);
      Associates(sent0, Meta(r) + header, data[..m]);
      if m != data.Length { aborted := true; return; }
      var k, _ := sock.RecvAll(recvBuffer, |header|);
      success := k == |header|;
      if success {
        ack := recvBuffer[..|header|];
        assert ack == old(sock.inbound)[..|header|];
      }
    }

    /** The meter has been given total bytes since it stood at base. */
    ghost predicate Counted(base: int, total: nat)
      reads meter
    {
      meter.Metered() - base == if meter.disable then 0 else total
    }

    /** What the program has counted, and the meter with it. */
    ghost predicate Tallied(base: int, size: nat, successes: nat, total: nat)
      reads meter
    {
      total == Multiple(successes, size) && Counted(base, total)
    }

    /** After some rounds: what is sent, counted and heard. r is the message, before what had been sent earlier, base
        the meter's start, arrived what the peer delivers and failures the failed calls at the start. */
    ghost predicate Ledger(r: Request, size: nat, rounds: nat, successes: nat, total: nat,
                           before: seq<Byte>, base: int, arrived: nat, failures: nat)
      reads sock, meter
    {
      && SentCopies(sock.outbound, before, r, rounds) && Tallied(base, size, successes, total)
      && Heard(arrived, |sock.inbound|, failures, sock.failures, successes, rounds, |r.header|)
    }

    /** One turn of the benchmark loop: one more copy of the frame is sent, and a successful call is counted and
        metered with the size of the message. */
    method Round(header: seq<Byte>, data: array<Byte>, size: nat, tick: int, successes: nat, totalBytes: nat,
                 ghost r: Request, ghost rounds: nat, ghost before: seq<Byte>, ghost base: int,
                 ghost arrived: nat, ghost failures: nat) returns (n: nat, total: nat)
      requires META_SIZE + |header| <= sendBuffer.Length && |header| <= recvBuffer.Length
      requires sendBuffer != recvBuffer && data != sendBuffer && data != recvBuffer && !aborted
      requires 0 <= meter.cnt < INT_MAX && r == Request(header, data[..])
      requires Ledger(r, size, rounds, successes, totalBytes, before, base, arrived, failures)
      modifies this`aborted, sock, sendBuffer, recvBuffer, meter
      ensures r == Request(header, data[..])
      ensures aborted || Ledger(r, size, rounds + 1, n, total, before, base, arrived, failures)
      ensures Tallied(base, size, n, total)
      ensures Heard(arrived, |sock.inbound|, failures, sock.failures, n, rounds + 1, |header|)
      ensures successes <= n <= successes + (if aborted then 0 else 1)
      ensures old(meter.cnt) <= meter.cnt <= old(meter.cnt) + 1
    {
      ghost var in0, f0 := |sock.inbound|, sock.failures;
      var success := PushCopy(header, data, before, r, rounds);
      HeardNext(arrived, in0, |sock.inbound|, failures, f0, sock.failures, successes, rounds, |header|, success);
      n, total := successes, totalBytes;
      if success {
        n, total := n + 1, total + size;
        Count(size, tick, totalBytes, base);
      }
    }

    method PushCopy(header: seq<Byte>, data: array<Byte>, ghost before: seq<Byte>, ghost r: Request, ghost rounds: nat)
      returns (success: bool)
      requires META_SIZE + |header| <= sendBuffer.Length && |header| <= recvBuffer.Length
      requires sendBuffer != recvBuffer && data != sendBuffer && data != recvBuffer && !aborted
      requires r == Request(header, data[..]) && SentCopies(sock.outbound, before, r, rounds)
      modifies this`aborted, sock, sendBuffer, recvBuffer
      ensures r == Request(header, data[..])
      ensures aborted || SentCopies(sock.outbound, before, r, rounds + 1)
      ensures aborted ==> !success
      ensures Outcome(success, |old(sock.inbound)|, |sock.inbound|, old(sock.failures), sock.failures, |header|)
    {
      ghost var out := sock.outbound;
      var ack;
      success, ack := PushData(header, data);
      OneMoreCopy(out, before, r, rounds);
    }

    method Count(size: nat, tick: int, ghost totalBytes: nat, ghost base: int)
      requires 0 <= meter.cnt < INT_MAX && Counted(base, totalBytes)
      modifies meter
      ensures Counted(base, totalBytes + size)
      ensures old(meter.cnt) <= meter.cnt <= old(meter.cnt) + 1
    {
      meter.AddBytes(size, tick);
    }

    /** The benchmark loop: the same message until the clock passes the duration. What it sends is a
        whole number of copies of one frame, so the sizes it announces never decrease; what it counts and what the
        meter counts are the sizes of the messages that were acknowledged. size is the size of the message in memory,
        and ticks are the meter's clock. */
    method Run(header: seq<Byte>, data: array<Byte>, size: nat, clock: seq<nat>, ticks: seq<int>, duration: nat)
      returns (rounds: nat, successes: nat, totalBytes: nat)
      requires META_SIZE + |header| <= sendBuffer.Length && |header| <= recvBuffer.Length
      requires sendBuffer != recvBuffer && data != sendBuffer && data != recvBuffer && !aborted
      requires |ticks| == |clock| && 0 <= meter.cnt && meter.cnt + |clock| <= INT_MAX
      modifies this`aborted, sock, sendBuffer, recvBuffer, meter
      ensures !aborted ==> SentCopies(sock.outbound, old(sock.outbound), Request(header, data[..]), rounds)
      ensures successes <= rounds <= |clock|
      ensures totalBytes == Multiple(successes, size)
      ensures Multiple(successes, |header|) <= |old(sock.inbound)| - |sock.inbound|
      ensures !aborted && sock.failures == old(sock.failures) && Multiple(rounds, |header|) <= |old(sock.inbound)| ==>
                successes == rounds
      ensures Counted(old(meter.Metered()), totalBytes)
      ensures !aborted && rounds < |clock| ==> 0 < rounds && clock[rounds - 1] > duration
      ensures forall k | 0 <= k < rounds - 1 :: clock[k] <= duration
    {
      ghost var r, sent0, base := Request(header, data[..]), sock.outbound, meter.Metered();
      ghost var arrived, failures := |sock.inbound|, sock.failures;
      NoCopies(sent0, r);
      rounds, successes, totalBytes :=
        Loop(header, data, size, clock, ticks, duration, r, sent0, base, arrived, failures);
    }

    method Loop(header: seq<Byte>, data: array<Byte>, size: nat, clock: seq<nat>, ticks: seq<int>, duration: nat,
                ghost r: Request, ghost before: seq<Byte>, ghost base: int, ghost arrived: nat, ghost failures: nat)
      returns (rounds: nat, successes: nat, total: nat)
      requires META_SIZE + |header| <= sendBuffer.Length && |header| <= recvBuffer.Length
      requires sendBuffer != recvBuffer && data != sendBuffer && data != recvBuffer && !aborted
      requires |ticks| == |clock| && 0 <= meter.cnt && meter.cnt + |clock| <= INT_MAX && r == Request(header, data[..])
      requires Ledger(r, size, 0, 0, 0, before, base, arrived, failures)
      modifies this`aborted, sock, sendBuffer, recvBuffer, meter
      ensures r == Request(header, data[..]) && successes <= rounds
      ensures aborted || Ledger(r, size, rounds, successes, total, before, base, arrived, failures)
      ensures Tallied(base, size, successes, total) && Multiple(successes, |header|) <= arrived - |sock.inbound|
      ensures if aborted then rounds < Stop(clock, duration, 0) else rounds == Stop(clock, duration, 0)
    {
      rounds, successes, total := 0, 0, 0;
      while rounds < |clock|
        invariant successes <= rounds <= Stop(clock, duration, 0)
        invariant rounds < |clock| ==> Stop(clock, duration, 0) == Stop(clock, duration, rounds)
        invariant !aborted && r == Request(header, data[..])
        invariant aborted || Ledger(r, size, rounds, successes, total, before, base, arrived, failures)
        invariant 0 <= meter.cnt && meter.cnt + |clock| - rounds <= INT_MAX
      {
        var over := clock[rounds] > duration;
        successes, total :=
          Round(header, data, size, ticks[rounds], successes, total, r, rounds, before, base, arrived, failures);
        if aborted { return; }
        rounds := rounds + 1;
        if over { return; }
      }
    }
  }

  /** How many rounds the clock allows, from round k on: up to and including the first that ends past the duration. */
  function Stop(clock: seq<nat>, duration: nat, k: nat): (n: nat)
    requires k <= |clock|
    ensures k <= n <= |clock| && (k < |clock| ==> k < n)
    ensures n < |clock| ==> clock[n - 1] > duration
    ensures forall j | k <= j < n - 1 :: clock[j] <= duration
    decreases |clock| - k
  {
    if k == |clock| then k else if clock[k] > duration then k + 1 else Stop(clock, duration, k + 1)
  }

  /** What one call says: an ack was read, or a call failed, or the stream ended too early. */
  predicate Outcome(success: bool, before: nat, after: nat, failures: nat, failures': nat, size: nat) {
    if success then size <= before && after == before - size && failures' == failures
    else
      || (failures' == failures + 1 && after <= before)
      || (failures' == failures && after == 0 && before < size)
  }

  /** After some rounds: each success has taken one ack from what arrived, and every round was a success as long as no
      call failed and the acks were there. */
  predicate Heard(arrived: nat, left: nat, failures: nat, failures': nat, successes: nat, rounds: nat, size: nat) {
    && left <= arrived && failures <= failures' && Multiple(successes, size) <= arrived - left
    && (failures' == failures ==>
          || (successes == rounds && arrived - left == Multiple(rounds, size))
          || arrived < Multiple(rounds, size))
  }

  lemma HeardNext(arrived: nat, left: nat, left': nat, failures: nat, failures0: nat, failures': nat,
                  successes: nat, rounds: nat, size: nat, success: bool)
    requires Heard(arrived, left, failures, failures0, successes, rounds, size)
    requires Outcome(success, left, left', failures0, failures', size)
    ensures Heard(arrived, left', failures, failures', if success then successes + 1 else successes, rounds + 1, size)
  {}

  /** n * m, by repeated addition as the loop computes it. */
  function Multiple(n: nat, m: nat): nat {
    if n == 0 then 0 else Multiple(n - 1, m) + m
  }

  function Copies(r: Request, n: nat): (rs: seq<Request>)
    ensures |rs| == n
  {
    seq(n, _ => r)
  }

  function Repeated(r: Request, n: nat): seq<Byte> {
    Whole(Frames(Copies(r, n)))
  }

  lemma {:induction false} CatOfPrefix(ms: seq<seq<Byte>>, ns: seq<seq<Byte>>, n: nat)
    requires n <= |ms| && n <= |ns| && ms[..n] == ns[..n]
    ensures Cat(ms, n) == Cat(ns, n)
  {
    if n == 0 {
    } else {
      assert ms[..n][..n - 1] == ms[..n - 1] && ns[..n][..n - 1] == ns[..n - 1] && ms[..n][n - 1] == ns[..n][n - 1];
      CatOfPrefix(ms, ns, n - 1);
    }
  }

  /** After what had been sent before, out holds n whole copies of the frame of r and nothing else. */
  predicate SentCopies(out: seq<Byte>, before: seq<Byte>, r: Request, n: nat) {
    out == before + Repeated(r, n)
  }

  lemma NoCopies(before: seq<Byte>, r: Request)
    ensures SentCopies(before, before, r, 0)
  {
    assert before + [] == before;
  }

  lemma {:induction false} RepeatedOnce(r: Request, n: nat)
    ensures Repeated(r, n + 1) == Repeated(r, n) + Frame(r)
  {
    var ms, ns := Frames(Copies(r, n + 1)), Frames(Copies(r, n));
    assert ms[..n] == ns[..n] && ms[n] == Frame(r);
    CatOfPrefix(ms, ns, n);
  }

  lemma OneMoreCopy(out: seq<Byte>, before: seq<Byte>, r: Request, n: nat)
    requires SentCopies(out, before, r, n)
    ensures SentCopies(out + Frame(r), before, r, n + 1)
  {
    RepeatedOnce(r, n);
    Associates(before, Repeated(r, n), Frame(r));
  }

  /** What is sent of a frame, in two parts, is a prefix of it, and all of it once both parts are out. */
  lemma FrameParts(r: Request, first: seq<Byte>, data: seq<Byte>)
    requires first <= Meta(r) + r.header && data <= r.data
    ensures first <= Frame(r)
    ensures first == Meta(r) + r.header ==> first + data <= Frame(r)
    ensures first == Meta(r) + r.header && data == r.data ==> first + data == Frame(r)
  {}
}
