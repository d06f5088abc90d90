/** The non-blocking socket, its SendAll and RecvAll loops, and the selector's registrations. */
module Sockets {
  import opened Wire
  import opened EndpointSpec

  /** The kernel's answer to one call: would-block, another error, or up to max bytes moved. */
  datatype Answer = WouldBlock | Error | Move(max: nat)

  datatype Interest = Interest(readable: bool, writable: bool)

  const READABLE := Interest(true, false)

  const INVALID_SOCKET := -1

  /** inbound is what the peer will still deliver before closing, outbound what was sent so far;
      schedule holds the kernel's answers, and a call beyond its end is an error. */
  class TcpSocket {
    const fd: int
    var inbound: seq<Byte>
    var outbound: seq<Byte>
    var schedule: seq<Answer>
    var lastErrorWouldBlock: bool
    ghost var failures: nat
    ghost var log: seq<Io>

    constructor (fd: int, inbound: seq<Byte>, schedule: seq<Answer>)
      ensures this.fd == fd && this.inbound == inbound && this.schedule == schedule
      ensures outbound == [] && failures == 0 && log == []
    {
      this.fd, this.inbound, this.schedule := fd, inbound, schedule;
      outbound, lastErrorWouldBlock, failures, log := [], false, 0, [];
    }

    method NextAnswer() returns (a: Answer)
      modifies this`schedule
      ensures |schedule| < |old(schedule)| || a == Error
      ensures |schedule| <= |old(schedule)|
    {
      if schedule == [] { return Error; }
      a, schedule := schedule[0], schedule[1..];
    }

    /** Moves between one byte and all len of them, or none of the state changes. */
    method Send(buf: array<Byte>, off: nat, len: nat) returns (r: int)
      requires off + len <= buf.Length
      modifies this`outbound, this`schedule, this`lastErrorWouldBlock, this`failures, this`log
      ensures -1 <= r <= len
      ensures r >= 0 && len > 0 ==> r > 0
      ensures r >= 0 ==> failures == old(failures) && outbound == old(outbound) + buf[off..off + r]
      ensures r >= 0 ==> log == old(log) + [Sent(buf[off..off + r])]
      ensures r == -1 ==> outbound == old(outbound)
      ensures r == -1 && lastErrorWouldBlock ==> failures == old(failures) && log == old(log) + [Blocked]
      ensures r == -1 && !lastErrorWouldBlock ==> failures == old(failures) + 1 && log == old(log) + [Failed]
      ensures |schedule| < |old(schedule)| || (r == -1 && !lastErrorWouldBlock)
      ensures |schedule| <= |old(schedule)|
    {
      var a := NextAnswer();
      if a.Move? {
        r := if a.max < len then if a.max == 0 then 1 else a.max else len;
        outbound := outbound + buf[off..off + r];
        log := log + [Sent(buf[off..off + r])];
      } else {
        r, lastErrorWouldBlock := -1, a.WouldBlock?;
        failures := if a.WouldBlock? then failures else failures + 1;
        log := log + [if a.WouldBlock? then Blocked else Failed];
      }
    }

    /** The kernel copies bytes to buf + off. */
    method Deliver(buf: array<Byte>, off: nat, bytes: seq<Byte>)
      requires off + |bytes| <= buf.Length
      modifies buf
      ensures buf[..] == old(buf[..off]) + bytes + old(buf[off + |bytes|..])
    {
      forall k | off <= k < off + |bytes| { buf[k] := bytes[k - off]; }
    }

    /** Delivers the next bytes of the peer's stream; 0 on a nonempty request means the stream ended. */
    method Recv(buf: array<Byte>, off: nat, len: nat) returns (r: int)
      requires off + len <= buf.Length
      modifies this`inbound, this`schedule, this`lastErrorWouldBlock, this`failures, this`log, buf
      ensures -1 <= r <= len && r <= |old(inbound)|
      ensures r == 0 ==> len == 0 || old(inbound) == []
      ensures r >= 0 ==> failures == old(failures) && inbound == old(inbound)[r..]
      ensures r >= 0 ==> log == old(log) + [Got(old(inbound)[..r])]
      ensures r >= 0 ==> buf[..] == old(buf[..off]) + old(inbound)[..r] + old(buf[off + r..])
      ensures r == -1 ==> inbound == old(inbound) && buf[..] == old(buf[..])
      ensures r == -1 && lastErrorWouldBlock ==> failures == old(failures) && log == old(log) + [Blocked]
      ensures r == -1 && !lastErrorWouldBlock ==> failures == old(failures) + 1 && log == old(log) + [Failed]
      ensures |schedule| < |old(schedule)| || (r == -1 && !lastErrorWouldBlock)
      ensures |schedule| <= |old(schedule)|
    {
      var a := NextAnswer();
      if a.Move? {
        r := if a.max < len then if a.max == 0 then 1 else a.max else len;
        r := if r < |inbound| then r else |inbound|;
        Deliver(buf, off, inbound[..r]);
        log := log + [Got(inbound[..r])];
        inbound := inbound[r..];
      } else {
        r, lastErrorWouldBlock := -1, a.WouldBlock?;
        failures := if a.WouldBlock? then failures else failures + 1;
        log := log + [if a.WouldBlock? then Blocked else Failed];
      }
    }

    /** Exactly the first n bytes are sent, in order, and n falls short exactly when the call failed. */
    method SendAll(buf: array<Byte>, len: nat) returns (n: nat)
      requires len <= buf.Length
      modifies this`outbound, this`schedule, this`lastErrorWouldBlock, this`failures, this`log
      ensures n <= len
      ensures outbound == old(outbound) + buf[..n]
      ensures n < len <==> failures == old(failures) + 1
      ensures n == len <==> failures == old(failures)
    {
      n := 0;
      while n < len
        invariant n <= len && failures == old(failures)
        invariant outbound == old(outbound) + buf[..n]
        decreases |schedule|
      {
        var r := Send(buf, n, len - n);
        if r == -1 {
          if lastErrorWouldBlock { continue; }
          break;
        } else {
          assert buf[..n + r] == buf[..n] + buf[n..n + r];
          n := n + r;
        }
      }
    }

    /** Exactly the next n bytes of the stream are stored, in order, and nothing else is touched; n
        falls short only if the call failed or the stream ended. */
    method RecvAll(buf: array<Byte>, len: nat) returns (n: nat, ghost chunks: seq<Io>)
      requires len <= buf.Length
      modifies this`inbound, this`schedule, this`lastErrorWouldBlock, this`failures, this`log, buf
      ensures n <= len && n <= |old(inbound)|
      ensures inbound == old(inbound)[n..]
      ensures buf[..] == old(inbound)[..n] + old(buf[n..])
      ensures n == len ==> failures == old(failures)
      ensures n < len ==> failures == old(failures) + 1 || (failures == old(failures) && inbound == [])
      ensures Chunks(chunks, old(inbound)[..n])
      ensures n == len ==> log == old(log) + chunks && (len > 0 ==> EndsInGot(chunks))
      ensures n < len ==> log == old(log) + chunks + [Got([])] || log == old(log) + chunks + [Failed]
    {
      n, chunks := 0, [];
      ghost var stream, was := inbound, buf[..];
      while n < len
        invariant n <= len && failures == old(failures)
        invariant Stored(buf[..], inbound, stream, was, n, chunks)
        invariant log == old(log) + chunks && (n == len > 0 ==> EndsInGot(chunks))
        decreases |schedule|
      {
        var r;
        r, chunks := RecvNext(buf, n, len - n, stream, was, chunks);
        if r == -1 {
          if lastErrorWouldBlock { continue; }
          break;
        } else if r == 0 {
          break;
        } else {
          n := n + r;
        }
      }
    }

    /** One Recv of the loop, with what the loop has stored so far. */
    method RecvNext(buf: array<Byte>, n: nat, len: nat, ghost stream: seq<Byte>, ghost was: seq<Byte>,
        ghost chunks: seq<Io>)
      returns (r: int, ghost after: seq<Io>)
      requires n + len <= buf.Length && len > 0 && Stored(buf[..], inbound, stream, was, n, chunks)
      modifies this`inbound, this`schedule, this`lastErrorWouldBlock, this`failures, this`log, buf
      ensures chunks <= after
      ensures -1 <= r <= len && Stored(buf[..], inbound, stream, was, if r > 0 then n + r else n, after)
      ensures r > 0 ==> failures == old(failures) && log == old(log) + after[|chunks|..] && EndsInGot(after)
      ensures r == -1 && lastErrorWouldBlock ==> failures == old(failures) && log == old(log) + after[|chunks|..]
      ensures r == -1 && !lastErrorWouldBlock ==> failures == old(failures) + 1 && after == chunks
      ensures r == -1 && !lastErrorWouldBlock ==> log == old(log) + [Failed]
      ensures r == 0 ==> failures == old(failures) && inbound == [] && log == old(log) + [Got([])] && after == chunks
      ensures |schedule| < |old(schedule)| || (r == -1 && !lastErrorWouldBlock)
    {
      r := Recv(buf, n, len);
      after := chunks;
      if r > 0 {
        Extends(stream, was, n, r, chunks);
        after := chunks + [Got(stream[n..][..r])];
      } else if r == -1 && lastErrorWouldBlock {
        ChunkBlocked(chunks, stream[..n]);
        after := chunks + [Blocked];
      }
    }
  }

  /** Of stream, n bytes are stored over the start of was, as the receives in chunks, and rest is left. */
  predicate Stored(mem: seq<Byte>, rest: seq<Byte>, stream: seq<Byte>, was: seq<Byte>, n: nat, chunks: seq<Io>) {
    && n <= |stream| && n <= |was| && rest == stream[n..]
    && mem == stream[..n] + was[n..] && Chunks(chunks, stream[..n])
  }

  predicate EndsInGot(es: seq<Io>) {
    es != [] && es[|es| - 1].Got?
  }

  lemma ChunkBlocked(es: seq<Io>, s: seq<Byte>)
    requires Chunks(es, s)
    ensures Chunks(es + [Blocked], s)
  {
    assert (es + [Blocked])[..|es|] == es && s[..|s|] == s;
  }

  /** Storing r more bytes of the stream behind the n already stored. */
  lemma Extends(stream: seq<Byte>, was: seq<Byte>, n: nat, r: nat, chunks: seq<Io>)
    requires 0 < r && n + r <= |stream| && n + r <= |was| && Chunks(chunks, stream[..n])
    ensures Chunks(chunks + [Got(stream[n..][..r])], stream[..n + r])
    ensures var b := stream[..n] + was[n..];
      b[..n] + stream[n..][..r] + b[n + r..] == stream[..n + r] + was[n + r..]
    ensures stream[n..][r..] == stream[n + r..]
  {
    ChunkGot(chunks, stream[..n], stream[n..][..r]);
    assert stream[..n] + stream[n..][..r] == stream[..n + r];
  }

  lemma ChunkGot(es: seq<Io>, s: seq<Byte>, b: seq<Byte>)
    requires Chunks(es, s) && b != []
    ensures Chunks(es + [Got(b)], s + b)
  {
    assert (es + [Got(b)])[..|es|] == es && (s + b)[..|s|] == s && (s + b)[|s|..] == b;
  }

  /** The registered interests, by fd; every Register and Reregister replaces the entry of one fd, and changes
      records the Reregister calls, each of which raises an edge if the fd is ready. */
  class Selector {
    var interests: map<int, Interest>
    ghost var changes: seq<(int, Interest)>

    constructor ()
      ensures interests == map[] && changes == []
    {
      interests, changes := map[], [];
    }

    /** EPOLL_CTL_ADD of a registered fd, like EPOLL_CTL_MOD of an unregistered one, would abort. */
    method Register(fd: int, interest: Interest)
      requires fd !in interests
      modifies this
      ensures interests == old(interests)[fd := interest] && changes == old(changes)
    {
      interests := interests[fd := interest];
    }

    method Reregister(fd: int, interest: Interest)
      requires fd in interests
      modifies this
      ensures interests == old(interests)[fd := interest] && changes == old(changes) + [(fd, interest)]
    {
      interests := interests[fd := interest];
      changes := changes + [(fd, interest)];
    }
  }
}
