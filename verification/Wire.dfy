/** Bytes on the wire: the two u32 sizes, the frame of one request, and the
    concatenation of many messages into one stream. */
module Wire {

  type Byte = x: int | 0 <= x < 256

  datatype Option<+T> = None | Some(value: T)

  /** One request of the bandwidth client: serialized header and data, both opaque. */
  datatype Request = Request(header: seq<Byte>, data: seq<Byte>)

  const U32 := 0x1_0000_0000

  const META_SIZE := 8

  /** A store of a size_t through a uint32_t pointer: it truncates, little-endian. */
  function EncodeU32(n: nat): (b: seq<Byte>)
    ensures |b| == 4
  {
    [n % 256, n / 256 % 256, n / 65536 % 256, n / 16777216 % 256]
  }

  function DecodeU32(b: seq<Byte>): (n: nat)
    requires |b| == 4
    ensures n < U32
  {
    b[0] as int + 256 * (b[1] as int) + 65536 * (b[2] as int) + 16777216 * (b[3] as int)
  }

  /** Reading back what was stored gives the value modulo 2^32, so it is exact below 2^32. */
  lemma U32RoundTrip(n: nat)
    ensures DecodeU32(EncodeU32(n)) == n % U32
    ensures DecodeU32(EncodeU32(n)) == n <==> n < U32
  {
    var q1, q2, q3, q4 := n / 256, n / 65536, n / 16777216, n / U32;
    assert q2 == q1 / 256 && q3 == q2 / 256 && q4 == q3 / 256;
    assert n == 256 * q1 + n % 256 && q1 == 256 * q2 + q1 % 256;
    assert q2 == 256 * q3 + q2 % 256 && q3 == 256 * q4 + q3 % 256;
  }

  /** The other direction: four bytes survive a decode and encode. */
  lemma U32Canonical(b: seq<Byte>)
    requires |b| == 4
    ensures EncodeU32(DecodeU32(b)) == b
  {
    var n := DecodeU32(b);
    var b1: int, b2: int, b3: int := b[1], b[2], b[3];
    assert n / 256 == b1 + 256 * b2 + 65536 * b3;
    assert n / 65536 == b2 + 256 * b3;
    assert n / 16777216 == b3;
  }

  function Meta(r: Request): (m: seq<Byte>)
    ensures |m| == META_SIZE
  {
    EncodeU32(|r.header|) + EncodeU32(|r.data|)
  }

  function HeaderSize(meta: seq<Byte>): (n: nat)
    requires |meta| == META_SIZE
  {
    DecodeU32(meta[..4])
  }

  function DataSize(meta: seq<Byte>): (n: nat)
    requires |meta| == META_SIZE
  {
    DecodeU32(meta[4..])
  }

  /** The byte string PushData writes for one request. */
  function Frame(r: Request): (f: seq<Byte>)
    ensures |f| == META_SIZE + |r.header| + |r.data|
  {
    Meta(r) + r.header + r.data
  }

  predicate Fits(r: Request) {
    |r.header| < U32 && |r.data| < U32
  }

  /** The one-shot reading of a stream: sizes, then exactly that many bytes. */
  function DecodeFrame(s: seq<Byte>): (res: Option<(Request, seq<Byte>)>) {
    if |s| < META_SIZE then None
    else
      var h, d := HeaderSize(s[..META_SIZE]), DataSize(s[..META_SIZE]);
      if |s| < META_SIZE + h + d then None
      else Some((Request(s[META_SIZE..META_SIZE + h], s[META_SIZE + h..META_SIZE + h + d]), s[META_SIZE + h + d..]))
  }

  lemma MetaRoundTrip(r: Request)
    ensures HeaderSize(Meta(r)) == |r.header| % U32
    ensures DataSize(Meta(r)) == |r.data| % U32
    ensures Fits(r) <==> HeaderSize(Meta(r)) == |r.header| && DataSize(Meta(r)) == |r.data|
  {
    assert Meta(r)[..4] == EncodeU32(|r.header|) && Meta(r)[4..] == EncodeU32(|r.data|);
    U32RoundTrip(|r.header|);
    U32RoundTrip(|r.data|);
  }

  /** Decoding what was encoded gives the request back exactly when both sizes fit in 32 bits. */
  lemma FrameRoundTrip(r: Request, rest: seq<Byte>)
    ensures DecodeFrame(Frame(r) + rest) == Some((r, rest)) <==> Fits(r)
  {
    var s := Frame(r) + rest;
    assert s[..META_SIZE] == Meta(r);
    MetaRoundTrip(r);
    if Fits(r) {
      var h, d := |r.header|, |r.data|;
      assert s[META_SIZE..META_SIZE + h] == r.header;
      assert s[META_SIZE + h..META_SIZE + h + d] == r.data;
      assert s[META_SIZE + h + d..] == rest;
    }
  }

  // ---- streams of messages ----

  lemma Associates<T>(a: seq<T>, b: seq<T>, c: seq<T>)
    ensures a + b + c == a + (b + c)
  {}

  /** Where message n starts in the concatenation of ms. */
  function Pos(ms: seq<seq<Byte>>, n: nat): (p: nat)
    requires n <= |ms|
  {
    if n == 0 then 0 else Pos(ms, n - 1) + |ms[n - 1]|
  }

  /** The first n messages, concatenated. */
  function Cat(ms: seq<seq<Byte>>, n: nat): (s: seq<Byte>)
    requires n <= |ms|
    ensures |s| == Pos(ms, n)
  {
    if n == 0 then [] else Cat(ms, n - 1) + ms[n - 1]
  }

  function Whole(ms: seq<seq<Byte>>): (s: seq<Byte>)
    ensures |s| == Pos(ms, |ms|)
  {
    Cat(ms, |ms|)
  }

  lemma {:induction false} PosMonotone(ms: seq<seq<Byte>>, n: nat, m: nat)
    requires n <= m <= |ms|
    ensures Pos(ms, n) <= Pos(ms, m)
    decreases m
  {
    if n == m {
    } else {
      PosMonotone(ms, n, m - 1);
    }
  }

  lemma {:induction false} CatPrefix(ms: seq<seq<Byte>>, n: nat, m: nat)
    requires n <= m <= |ms|
    ensures Pos(ms, n) <= Pos(ms, m)
    ensures Cat(ms, m)[..Pos(ms, n)] == Cat(ms, n)
    decreases m
  {
    PosMonotone(ms, n, m);
    if n < m {
      PosMonotone(ms, n, m - 1);
      CatPrefix(ms, n, m - 1);
      assert Cat(ms, m)[..Pos(ms, n)] == Cat(ms, m - 1)[..Pos(ms, n)];
    }
  }

  /** Cutting the stream at the positions of message n gives that message. */
  lemma MessageAt(ms: seq<seq<Byte>>, n: nat)
    requires n < |ms|
    ensures Pos(ms, n + 1) == Pos(ms, n) + |ms[n]| <= |Whole(ms)|
    ensures Whole(ms)[Pos(ms, n)..Pos(ms, n + 1)] == ms[n]
  {
    CatPrefix(ms, n + 1, |ms|);
    assert Whole(ms)[Pos(ms, n)..Pos(ms, n + 1)] == Whole(ms)[..Pos(ms, n + 1)][Pos(ms, n)..];
  }

  function Frames(rs: seq<Request>): (ms: seq<seq<Byte>>)
    ensures |ms| == |rs|
  {
    seq(|rs|, i requires 0 <= i < |rs| => Frame(rs[i]))
  }

  function Headers(rs: seq<Request>): (ms: seq<seq<Byte>>)
    ensures |ms| == |rs|
  {
    seq(|rs|, i requires 0 <= i < |rs| => rs[i].header)
  }
}
