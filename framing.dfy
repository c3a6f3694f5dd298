/** The wire framing shared by both sides: a 4-byte big-endian `int32` length
    (`binary.Write`/`binary.Read` with `binary.BigEndian`), then the payload. */
module Framing {
  import opened Events

  /** `binary.Write(conn, binary.BigEndian, int32(n))`: the length is first
      truncated to `int32`, then written most significant byte first. */
  function EncodeLength(n: int): (b: seq<Byte>)
    ensures |b| == 4
  {
    var u := n % TwoTo32;
    var q1 := u / 0x100;
    var q2 := q1 / 0x100;
    [(q2 / 0x100) as Byte, (q2 % 0x100) as Byte, (q1 % 0x100) as Byte, (u % 0x100) as Byte]
  }

  /** The big-endian value of four bytes. */
  function BigEndian(b: seq<Byte>): (v: int)
    requires |b| == 4
    ensures 0 <= v < TwoTo32
  {
    ((b[0] as int * 0x100 + b[1] as int) * 0x100 + b[2] as int) * 0x100 + b[3] as int
  }

  /** Splitting off the low byte is unique. */
  lemma ByteSplit(q: int, r: int)
    requires 0 <= r < 0x100
    ensures (q * 0x100 + r) / 0x100 == q && (q * 0x100 + r) % 0x100 == r
  {
  }

  /** `binary.Read(conn, binary.BigEndian, &length)` into an `int32`. */
  function DecodeLength(b: seq<Byte>): (r: Int32)
    requires |b| == 4
    // The two's-complement reading: congruent to the unsigned value, and
    // negative exactly when the top bit of the first byte is set.
    ensures (r as int - BigEndian(b)) % TwoTo32 == 0
    ensures r < 0 <==> b[0] >= 0x80
  {
    Wrap32(BigEndian(b))
  }

  /** Decoding an encoded length gives back the length as Go's `int32(n)`
      conversion sees it; for every real slice length up to MaxInt32 that is
      the length itself. */
  lemma LengthRoundTrip(n: int)
    ensures DecodeLength(EncodeLength(n)) == Wrap32(n)
    ensures 0 <= n <= MaxInt32 ==> DecodeLength(EncodeLength(n)) as int == n
  {
    var u := n % TwoTo32;
    var q1 := u / 0x100;
    var q2 := q1 / 0x100;
    assert u == q1 * 0x100 + u % 0x100;
    assert q1 == q2 * 0x100 + q1 % 0x100;
    assert q2 == (q2 / 0x100) * 0x100 + q2 % 0x100;
    assert BigEndian(EncodeLength(n)) == u;
  }

  /** Every 4-byte prefix is the encoding of the length it decodes to: the
      encoding is a bijection between `int32` values and 4-byte strings. */
  lemma LengthBytesRoundTrip(b: seq<Byte>)
    requires |b| == 4
    ensures EncodeLength(DecodeLength(b) as int) == b
  {
    var v := BigEndian(b);
    assert (DecodeLength(b) as int) % TwoTo32 == v;
    var q2 := b[0] as int * 0x100 + b[1] as int;
    var q1 := q2 * 0x100 + b[2] as int;
    ByteSplit(q1, b[3] as int);
    ByteSplit(q2, b[2] as int);
    ByteSplit(b[0] as int, b[1] as int);
    assert b[0] as int / 0x100 == 0;
  }

  /** One frame as the write path sends it: prefix, then payload. */
  function Frame(payload: seq<Byte>): (f: seq<Byte>)
    ensures |f| == 4 + |payload|
    ensures f[4..] == payload
  {
    EncodeLength(|payload|) + payload
  }

  /** The frames of several payloads, back to back on one connection. */
  function Frames(payloads: seq<seq<Byte>>): seq<Byte>
  {
    if payloads == [] then [] else Frame(payloads[0]) + Frames(payloads[1..])
  }

  /** Why a read loop stops. */
  datatype Stop =
    | Closed         // clean end of stream before a length (io.EOF)
    | ShortLength    // fewer than 4 bytes of length (io.ErrUnexpectedEOF)
    | BadLength      // negative length: make([]byte, length) panics
    | ShortPayload   // fewer payload bytes than announced (io.ReadFull fails)

  datatype ReadResult = Got(payload: seq<Byte>, rest: seq<Byte>) | Failed(why: Stop)

  /** One iteration of the read loops (`ReadConn`, `ClientRead`): read exactly
      4 bytes, interpret them as the length, read exactly that many bytes. */
  function ReadFrame(s: seq<Byte>): (r: ReadResult)
    ensures r.Got? ==> |r.rest| < |s| && s == EncodeLength(|r.payload|) + r.payload + r.rest
  {
    if |s| == 0 then Failed(Closed)
    else if |s| < 4 then Failed(ShortLength)
    else
      var n := DecodeLength(s[..4]);
      if n < 0 then Failed(BadLength)
      else if |s| - 4 < n as int then Failed(ShortPayload)
      else
        LengthBytesRoundTrip(s[..4]);
        assert s == s[..4] + s[4..4 + n as int] + s[4 + n as int..];
        Got(s[4..4 + n as int], s[4 + n as int..])
  }

  /** The read loop over a whole stream: every payload it hands to the
      decoder, in order, and the reason it stops. */
  function ReadFrames(s: seq<Byte>): (r: (seq<seq<Byte>>, Stop))
    // What was read is the framing of the payloads handed on, and a clean
    // stop means nothing else was on the stream.
    ensures |Frames(r.0)| <= |s| && s[..|Frames(r.0)|] == Frames(r.0)
    ensures r.1 == Closed ==> s == Frames(r.0)
    ensures r.1 != Closed ==> |Frames(r.0)| < |s|
    decreases |s|
  {
    match ReadFrame(s)
    case Failed(why) => ([], why)
    case Got(p, rest) =>
      var (ps, why) := ReadFrames(rest);
      assert ([p] + ps)[1..] == ps;
      assert s == Frame(p) + rest;
      ([p] + ps, why)
  }

  /** A frame written for a payload of at most MaxInt32 bytes is read back as
      exactly that payload, leaving whatever followed it. */
  lemma FrameRoundTrip(p: seq<Byte>, rest: seq<Byte>)
    requires |p| <= MaxInt32
    ensures ReadFrame(Frame(p) + rest) == Got(p, rest)
  {
    var s := Frame(p) + rest;
    assert s[..4] == EncodeLength(|p|);
    LengthRoundTrip(|p|);
    assert s[4..4 + |p|] == p;
    assert s[4 + |p|..] == rest;
  }

  /** A payload of 2^31 bytes or more (below 2^32) has a length prefix that
      reads back negative, so the reader gives up on the connection. */
  lemma OversizedFrameRejected(p: seq<Byte>, rest: seq<Byte>)
    requires MaxInt32 < |p| < TwoTo32
    ensures ReadFrame(Frame(p) + rest) == Failed(BadLength)
  {
    var s := Frame(p) + rest;
    assert s[..4] == EncodeLength(|p|);
    LengthRoundTrip(|p|);
  }

  /** Stream round trip: reading back a connection onto which whole frames
      were written yields every payload in write order, then a clean close. */
  lemma {:induction false} FramesRoundTrip(ps: seq<seq<Byte>>)
    requires forall i | 0 <= i < |ps| :: |ps[i]| <= MaxInt32
    ensures ReadFrames(Frames(ps)) == (ps, Closed)
  {
    if ps != [] {
      FrameRoundTrip(ps[0], Frames(ps[1..]));
      FramesRoundTrip(ps[1..]);
      assert [ps[0]] + ps[1..] == ps;
    }
  }

  /** Frames of a concatenation are the concatenation of the frames. */
  lemma {:induction false} FramesAppend(ps: seq<seq<Byte>>, qs: seq<seq<Byte>>)
    ensures Frames(ps + qs) == Frames(ps) + Frames(qs)
  {
    if ps == [] {
      assert ps + qs == qs;
    } else {
      assert (ps + qs)[1..] == ps[1..] + qs;
      FramesAppend(ps[1..], qs);
    }
  }
}
