/** The frames of the tunnel: a type byte, a stream id, a length and the payload. */
module TunnelProtocol {
  import opened Octets
  import opened Wrappers

  const HEADER: nat := 9
  const TWO_32: nat := 0x1_0000_0000

  datatype Frame = Frame(frameType: byte, id: nat, payload: Bytes)

  datatype EncodeError = OutOfRange
  datatype DecodeError = FrameTooShort | FrameTruncated

  predicate Fits(f: Frame) {
    f.id < TWO_32 && |f.payload| < TWO_32
  }

  /** A 32-bit unsigned integer, most significant byte first. */
  function BigEndian(n: nat): (b: Bytes)
    requires n < TWO_32
    ensures |b| == 4
  {
    [(n / 0x1000000) as byte, (n / 0x10000 % 0x100) as byte, (n / 0x100 % 0x100) as byte, (n % 0x100) as byte]
  }

  function ReadBigEndian(data: Bytes, at: nat): (n: nat)
    requires at + 4 <= |data|
    ensures n < TWO_32
  {
    0x1000000 * (data[at] as nat) + 0x10000 * (data[at + 1] as nat) + 0x100 * (data[at + 2] as nat) + data[at + 3] as nat
  }

  function Encoded(f: Frame): Bytes
    requires Fits(f)
  {
    [f.frameType] + BigEndian(f.id) + BigEndian(|f.payload|) + f.payload
  }

  function Decoded(data: Bytes): Result<Frame, DecodeError> {
    if |data| < HEADER then Failure(FrameTooShort)
    else
      var length := ReadBigEndian(data, 5);
      if |data| < HEADER + length then Failure(FrameTruncated)
      else Success(Frame(data[0], ReadBigEndian(data, 1), data[HEADER..HEADER + length]))
  }

  /** Where everything stands in a frame: the type, the stream id and the length with their
      most significant bytes first, then the payload. */
  ghost predicate LaidOut(data: Bytes, frameType: byte, id: int, payload: Bytes) {
    && |data| == 9 + |payload| && data[0] == frameType && data[9..] == payload
    && id == 16777216 * (data[1] as int) + 65536 * (data[2] as int) + 256 * (data[3] as int) + data[4] as int
    && |payload| == 16777216 * (data[5] as int) + 65536 * (data[6] as int) + 256 * (data[7] as int) + data[8] as int
  }

  lemma EncodedIsLaidOut(f: Frame)
    requires Fits(f)
    ensures LaidOut(Encoded(f), f.frameType, f.id, f.payload)
  {
    var data := Encoded(f);
    assert data[1..5] == BigEndian(f.id) && data[5..9] == BigEndian(|f.payload|);
    hide BigEndian;
    BigEndianReads(f.id, data, 1);
    BigEndianReads(|f.payload|, data, 5);
  }

  /** A frame is decoded exactly when its header and the payload that the header announces
      are there; bytes after the payload do not matter. */
  lemma DecodedExactly(data: Bytes)
    ensures |data| < 9 <==> Decoded(data) == Failure(FrameTooShort)
    ensures |data| >= 9 ==>
              var end := 9 + 16777216 * (data[5] as int) + 65536 * (data[6] as int) + 256 * (data[7] as int) + data[8] as int;
              && (Decoded(data) == Failure(FrameTruncated) <==> |data| < end)
              && forall f :: Decoded(data) == Success(f) <==>
                               |data| >= end && LaidOut(data[..end], f.frameType, f.id, f.payload)
  {
    if |data| >= 9 {
      var end := 9 + 16777216 * (data[5] as int) + 65536 * (data[6] as int) + 256 * (data[7] as int) + data[8] as int;
      if |data| >= end {
        assert data[..end][9..] == data[9..end];
      }
    }
  }

  method WriteUInt32(buf: array<byte>, n: nat, at: nat)
    requires n < TWO_32 && at + 4 <= buf.Length
    modifies buf
    ensures buf[at..at + 4] == BigEndian(n)
    ensures buf[..at] == old(buf[..at]) && buf[at + 4..] == old(buf[at + 4..])
  {
    var b := BigEndian(n);
    buf[at], buf[at + 1], buf[at + 2], buf[at + 3] := b[0], b[1], b[2], b[3];
  }

  /** Fill a new buffer at the offsets of the header and copy the payload behind it. */
  method EncodeFrame(frameType: byte, id: int, payload: Bytes) returns (r: Result<array<byte>, EncodeError>)
    ensures r.Success? <==> 0 <= id < 0x1_0000_0000 && |payload| < 0x1_0000_0000
    ensures r.Success? ==> fresh(r.value) && r.value[..] == Encoded(Frame(frameType, id, payload))
    ensures r.Success? ==> LaidOut(r.value[..], frameType, id, payload)
  {
    if !(0 <= id < TWO_32) || |payload| >= TWO_32 {
      return Failure(OutOfRange);
    }
    var buf := new byte[HEADER + |payload|];
    buf[0] := frameType;
    WriteUInt32(buf, id, 1);
    assert buf[..1] == [frameType];
    ghost var front := buf[..5];
    assert front == [frameType] + BigEndian(id);
    WriteUInt32(buf, |payload|, 5);
    assert buf[..9] == buf[..5] + buf[5..9];
    for i := 0 to |payload|
      invariant buf[..9] == [frameType] + BigEndian(id) + BigEndian(|payload|)
      invariant buf[9..9 + i] == payload[..i]
    {
      ghost var before := buf[..9];
      buf[HEADER + i] := payload[i];
      assert buf[..9] == before;
      assert buf[9..9 + i + 1] == buf[9..9 + i] + [payload[i]];
    }
    assert buf[..] == buf[..9] + buf[9..];
    EncodedIsLaidOut(Frame(frameType, id, payload));
    return Success(buf);
  }

  // ---- Reading undoes writing -----------------------------------------------------

  lemma BigEndianReads(n: nat, data: Bytes, at: nat)
    requires n < TWO_32 && at + 4 <= |data| && data[at..at + 4] == BigEndian(n)
    ensures ReadBigEndian(data, at) == n
  {
    var b := BigEndian(n);
    assert data[at] == b[0] && data[at + 1] == b[1] && data[at + 2] == b[2] && data[at + 3] == b[3];
    var q := n / 0x100;
    var p := n / 0x10000;
    assert n == 0x100 * q + n % 0x100;
    assert q == 0x100 * p + q % 0x100;
    assert p == 0x100 * (n / 0x1000000) + p % 0x100;
  }

  lemma BigEndianWrites(data: Bytes, at: nat)
    requires at + 4 <= |data|
    ensures BigEndian(ReadBigEndian(data, at)) == data[at..at + 4]
  {
    Bytes4(data[at] as nat, data[at + 1] as nat, data[at + 2] as nat, data[at + 3] as nat);
  }

  lemma Bytes4(a: nat, b: nat, c: nat, d: nat)
    requires a < 0x100 && b < 0x100 && c < 0x100 && d < 0x100
    ensures var n := 0x1000000 * a + 0x10000 * b + 0x100 * c + d;
            n / 0x1000000 == a && n / 0x10000 % 0x100 == b && n / 0x100 % 0x100 == c && n % 0x100 == d
  {
    var n := 0x1000000 * a + 0x10000 * b + 0x100 * c + d;
    assert n / 0x100 == 0x10000 * a + 0x100 * b + c;
    assert n / 0x10000 == 0x100 * a + b;
  }

  /** Decoding an encoded frame followed by anything returns the frame. */
  lemma DecodeOfEncode(f: Frame, rest: Bytes)
    requires Fits(f)
    ensures Decoded(Encoded(f) + rest) == Success(f)
  {
    hide BigEndian;
    hide ReadBigEndian;
    var data := Encoded(f) + rest;
    assert data[1..5] == BigEndian(f.id);
    assert data[5..9] == BigEndian(|f.payload|);
    BigEndianReads(f.id, data, 1);
    BigEndianReads(|f.payload|, data, 5);
    assert data[9..9 + |f.payload|] == f.payload;
  }

  /** Encoding what was decoded gives back the bytes that were read. */
  lemma EncodeOfDecode(data: Bytes)
    requires Decoded(data).Success?
    ensures var f := Decoded(data).value;
            Fits(f) && Encoded(f) == data[..HEADER + |f.payload|]
  {
    hide BigEndian;
    hide ReadBigEndian;
    var f := Decoded(data).value;
    BigEndianWrites(data, 1);
    BigEndianWrites(data, 5);
    var n := HEADER + |f.payload|;
    assert data[..n] == [data[0]] + data[1..5] + data[5..9] + data[9..n];
  }

  /** A frame that has not arrived completely is never decoded. */
  lemma IncompleteFrameFails(f: Frame, k: nat)
    requires Fits(f) && k < |Encoded(f)|
    ensures Decoded(Encoded(f)[..k]) == Failure(if k < HEADER then FrameTooShort else FrameTruncated)
  {
    hide BigEndian;
    hide ReadBigEndian;
    if k >= HEADER {
      var data := Encoded(f)[..k];
      assert data[5..9] == BigEndian(|f.payload|);
      BigEndianReads(|f.payload|, data, 5);
    }
  }

  /** No encoded frame is a proper prefix of another. */
  lemma PrefixFree(f: Frame, g: Frame)
    requires Fits(f) && Fits(g) && Encoded(f) <= Encoded(g)
    ensures f == g
  {
    hide Encoded;
    hide Decoded;
    var rest := Encoded(g)[|Encoded(f)|..];
    assert Encoded(g) == Encoded(f) + rest;
    assert Encoded(g) + [] == Encoded(g);
    DecodeOfEncode(f, rest);
    DecodeOfEncode(g, []);
  }

  function EncodedAll(fs: seq<Frame>): Bytes
    requires forall f :: f in fs ==> Fits(f)
  {
    if fs == [] then [] else Encoded(fs[0]) + EncodedAll(fs[1..])
  }

  lemma FirstDecodes(fs: seq<Frame>)
    requires fs != [] && forall f :: f in fs ==> Fits(f)
    ensures EncodedAll(fs) != [] && Decoded(EncodedAll(fs)) == Success(fs[0])
    ensures EncodedAll(fs)[|Encoded(fs[0])|..] == EncodedAll(fs[1..])
  {
    DecodeOfEncode(fs[0], EncodedAll(fs[1..]));
  }

  /** A concatenation of frames determines the list of frames. */
  lemma {:induction false} ConcatenationDetermines(fs: seq<Frame>, gs: seq<Frame>)
    requires (forall f :: f in fs ==> Fits(f)) && (forall g :: g in gs ==> Fits(g))
    requires EncodedAll(fs) == EncodedAll(gs)
    ensures fs == gs
  {
    hide Encoded;
    hide Decoded;
    if fs == [] {
    } else {
      FirstDecodes(fs);
    }
    if gs != [] {
      FirstDecodes(gs);
    }
    if fs != [] {
      ConcatenationDetermines(fs[1..], gs[1..]);
      assert fs == [fs[0]] + fs[1..] && gs == [gs[0]] + gs[1..];
    }
  }
}
