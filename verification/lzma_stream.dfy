/** The glue between the `lzma` compressor and the easylzma codec: the `dataStream`
    the codec pulls input from and pushes output to, and the 4-byte length frame the
    compressed payload is stored in. The codec itself is not part of this model. */
module LzmaStream {
  import opened Common

  /** `dataStream`. The `inData` pointer is kept as the position it has reached in
      the buffer it was set to (`source`); `delivered` is everything handed out so far. */
  class DataStream {
    const source: seq<byte>
    var inPos: nat
    var inLen: nat
    var outData: seq<byte>
    var outLen: nat
    ghost var delivered: seq<byte>

    /** The pointer and the remaining length always describe the rest of `source`,
        the input handed out is exactly what lies before the pointer, and `outLen`
        counts the bytes gathered. */
    ghost predicate Valid()
      reads this
    {
      inPos + inLen == |source| && delivered == source[..inPos] && outLen == |outData|
    }

    /** `ds.inData = …; ds.inLen = …; ds.outData = NULL; ds.outLen = 0`. */
    constructor(input: seq<byte>)
      ensures Valid()
      ensures source == input && inPos == 0 && inLen == |input|
      ensures outData == [] && delivered == []
    {
      source := input;
      inPos := 0;
      inLen := |input|;
      outData := [];
      outLen := 0;
      delivered := [];
    }

    /** `inputCallback`: copies as much of the remaining input as the codec's buffer of
        `size` bytes takes, advances past it and reports how much was copied. */
    method InputCallback(buf: array<byte>, size: SizeT) returns (copied: SizeT, rc: int)
      requires Valid()
      requires size <= buf.Length
      modifies this, buf
      ensures Valid()
      ensures copied == (if old(inLen) < size then old(inLen) else size)
      ensures inPos == old(inPos) + copied && inLen == old(inLen) - copied
      ensures buf[..copied] == source[old(inPos)..inPos]
      ensures buf[copied..] == old(buf[copied..])
      ensures delivered == old(delivered) + buf[..copied]
      ensures delivered <= source && (inLen == 0 ==> delivered == source)
      ensures outData == old(outData) && outLen == old(outLen)
      ensures rc == 0
    {
      var rd: SizeT := if inLen < size then inLen else size;
      if rd > 0 {
        forall k | 0 <= k < rd {
          buf[k] := source[inPos + k];
        }
        assert buf[..rd] == source[inPos..inPos + rd];
        assert source[..inPos + rd] == source[..inPos] + source[inPos..inPos + rd];
        delivered := delivered + buf[..rd];
        inPos := inPos + rd;
        inLen := inLen - rd;
      }
      copied := rd;
      rc := 0;
    }

    /** `outputCallback`: appends the codec's `size` bytes to the output and reports
        them all as taken. */
    method OutputCallback(buf: seq<byte>, size: SizeT) returns (taken: SizeT)
      requires Valid()
      requires size <= |buf|
      modifies this
      ensures Valid()
      ensures outData == old(outData) + buf[..size]
      ensures outLen == old(outLen) + size
      ensures inPos == old(inPos) && inLen == old(inLen) && delivered == old(delivered)
      ensures taken == size
    {
      if size > 0 {
        outData := outData + buf[..size];
        outLen := outLen + size;
      }
      taken := size;
    }
  }

  // ---------------------------------------------------------------- frame

  /** The `sizeof(int)` bytes of an `unsigned int`, least significant first. */
  function LittleEndian32(n: U32): (r: seq<byte>)
    ensures |r| == 4
  {
    [n % 0x100, n / 0x100 % 0x100, n / 0x1_0000 % 0x100, n / 0x100_0000]
  }

  function FromLittleEndian32(b: seq<byte>): (n: U32)
    requires |b| == 4
  {
    b[0] as int + 0x100 * b[1] as int + 0x1_0000 * b[2] as int + 0x100_0000 * b[3] as int
  }

  lemma LittleEndian32RoundTrip(n: U32)
    ensures FromLittleEndian32(LittleEndian32(n)) == n
  {
    var b := LittleEndian32(n);
    var q1, q2, q3 := n / 0x100, n / 0x1_0000, n / 0x100_0000;
    assert n == b[0] + 0x100 * q1;
    assert q2 == q1 / 0x100 by {
      assert n == b[0] + 0x100 * (q1 % 0x100) + 0x1_0000 * (q1 / 0x100);
    }
    assert q1 == b[1] + 0x100 * q2;
    assert q3 == q2 / 0x100 by {
      assert n == b[0] + 0x100 * b[1] + 0x1_0000 * (q2 % 0x100) + 0x100_0000 * (q2 / 0x100);
    }
    assert q2 == b[2] + 0x100 * q3;
  }

  /** What `compress` writes: the low four bytes of `outLen`, then the payload. */
  function Framed(payload: seq<byte>): (r: seq<byte>)
    ensures |r| == 4 + |payload|
    ensures r[4..] == payload
  {
    LittleEndian32(ToU32(|payload|)) + payload
  }

  /** What `decompress` hands to the codec: the length read from the first four bytes,
      then that many bytes; None when the stream holds fewer bytes than either read asks. */
  function Unframed(data: seq<byte>): (r: Option<seq<byte>>)
    ensures r.Some? <==> 4 <= |data| && FromLittleEndian32(data[..4]) <= |data| - 4
    ensures r.Some? ==> |r.value| == FromLittleEndian32(data[..4]) && r.value == data[4..4 + |r.value|]
  {
    if |data| < 4 then None
    else
      var length := FromLittleEndian32(data[..4]);
      if |data| - 4 < length then None else Some(data[4..4 + length])
  }

  /** A payload shorter than 4 GiB read back from its frame is the payload, whatever
      follows the frame in the stream. */
  lemma FrameRoundTrip(payload: seq<byte>, rest: seq<byte>)
    requires |payload| < 0x1_0000_0000
    ensures Unframed(Framed(payload) + rest) == Some(payload)
  {
    var data := Framed(payload) + rest;
    assert data[..4] == LittleEndian32(|payload|);
    LittleEndian32RoundTrip(|payload|);
    assert data[4..4 + |payload|] == payload;
  }

  // ---------------------------------------------------------------- compressor

  /** `LZMACompressor::compress`, with the codec run over the data stream given as
      `encode`: nothing when the codec fails, otherwise the framed codec output. */
  function Compress(src: seq<byte>, encode: seq<byte> -> Option<seq<byte>>): (r: Option<seq<byte>>)
    ensures r.Some? <==> encode(src).Some?
    ensures r.Some? ==> |r.value| == 4 + |encode(src).value| && r.value[4..] == encode(src).value
  {
    match encode(src)
    case None => None
    case Some(payload) =>
      Some(Framed(payload))
  }

  /** `LZMACompressor::decompress`, with the codec run given as `decode`: the framed
      payload handed to the codec. */
  function Decompress(stream: seq<byte>, decode: seq<byte> -> Option<seq<byte>>): (r: Option<seq<byte>>)
    ensures Unframed(stream).None? ==> r.None?
    ensures Unframed(stream).Some? ==> r == decode(Unframed(stream).value)
  {
    match Unframed(stream)
    case None => None
    case Some(payload) => decode(payload)
  }

  /** With a codec whose decoder inverts its encoder, what `compress` writes
      `decompress` reads back, even with more data after it in the stream, as long as
      the compressed payload is shorter than 4 GiB. */
  lemma CompressRoundTrip(src: seq<byte>, rest: seq<byte>,
                          encode: seq<byte> -> Option<seq<byte>>, decode: seq<byte> -> Option<seq<byte>>)
    requires encode(src).Some? ==> |encode(src).value| < 0x1_0000_0000 && decode(encode(src).value) == Some(src)
    ensures Compress(src, encode).Some? ==> Decompress(Compress(src, encode).value + rest, decode) == Some(src)
  {
    if encode(src).Some? {
      FrameRoundTrip(encode(src).value, rest);
    }
  }
}
