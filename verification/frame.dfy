/**
 * `FrameEncoder` and `FrameDecoder` of the first transport generation:
 * a packet frame is its VarInt packet id followed by its data; with the
 * `compression` feature the frame is stored raw behind a declared length
 * of 0 when shorter than the threshold, and zlib-compressed behind its
 * true length otherwise.
 *
 * The zlib stream of `flate2` is a parameter (`Zlib`); the compressed
 * round trip holds under the hypothesis that it inverts itself.
 */
module Frame {
  import opened Bytes
  import VarNum
  import Extension

  /** `PacketFrame { packet_id, data }`; the id is an `i32`. */
  datatype PacketFrame = PacketFrame(packetId: int, data: seq<byte>)

  predicate ValidFrame(f: PacketFrame) { VarNum.Fits(VarNum.VarInt, f.packetId) }

  /** `CompressedPacketFrame`: the declared length and the bytes stored after it. */
  datatype CompressedPacketFrame = CompressedPacketFrame(declaredLength: int, stored: seq<byte>)

  /** A zlib implementation: `decompress` is `None` on a stream it rejects. */
  datatype Zlib = Zlib(compress: seq<byte> -> seq<byte>, decompress: seq<byte> -> Option<seq<byte>>)

  /** `z` gives back what it compressed. */
  predicate Inverts(z: Zlib, data: seq<byte>)
  {
    z.decompress(z.compress(data)) == Some(data)
  }

  const I32_MAX: int := 0x7FFF_FFFF
  /** `isize::MAX + 1`: a threshold is an `isize`. */
  const ISIZE_HALF: int := 0x8000_0000_0000_0000
  /** The `TryFromIntError` of `usize::try_into::<i32>()`. */
  const TRY_FROM_INT: string := "out of range integral type conversion attempted"
  const LENGTH_MISMATCH: string := "Actual decoded {} is not the same as data length {}"
  const CORRUPT_STREAM: string := "corrupt deflate stream"

  // ---------------------------------------------------------------
  // Encoder
  // ---------------------------------------------------------------

  /** `create_uncompressed_packet`: the VarInt packet id, then the data. */
  function Uncompressed(f: PacketFrame): (out: seq<byte>)
    requires ValidFrame(f)
    ensures |out| == |VarNum.Encode(VarNum.VarInt, f.packetId)| + |f.data|
  {
    VarNum.Encode(VarNum.VarInt, f.packetId) + f.data
  }

  /**
   * `create_compressed_packet_frame`: the id-prefixed body is kept raw
   * behind a declared length of 0 when shorter than `threshold as usize`
   * (a negative threshold wraps to a huge one), and is compressed behind
   * its length otherwise; a length above `i32::MAX` fails to convert.
   */
  function CreateCompressed(threshold: int, z: Zlib, f: PacketFrame): (r: Result<CompressedPacketFrame>)
    requires ValidFrame(f)
    ensures r.Ok? ==> VarNum.Fits(VarNum.VarInt, r.value.declaredLength)
    ensures r.Ok? && r.value.declaredLength == 0 ==> r.value.stored == Uncompressed(f)
    ensures r.Ok? && r.value.declaredLength != 0 ==>
              r.value.declaredLength == |Uncompressed(f)| && r.value.stored == z.compress(Uncompressed(f))
    ensures r.Err? <==> |Uncompressed(f)| >= AsUsize(threshold) && |Uncompressed(f)| > I32_MAX
  {
    var data := Uncompressed(f);
    if |data| < AsUsize(threshold) then Ok(CompressedPacketFrame(0, data))
    else if |data| > I32_MAX then Err(Explain(TRY_FROM_INT))
    else Ok(CompressedPacketFrame(|data|, z.compress(data)))
  }

  /**
   * `FrameEncoder::process`. `compression` is `None` when the crate is
   * built without the `compression` feature, and `Some(threshold)` with
   * it: the path is chosen by the feature, whatever the threshold's sign.
   */
  function EncodeFrame(compression: Option<int>, z: Zlib, f: PacketFrame): Result<seq<byte>>
    requires ValidFrame(f)
  {
    if compression.None? then Ok(Uncompressed(f))
    else
      var c :- CreateCompressed(compression.value, z, f);
      Ok(VarNum.Encode(VarNum.VarInt, c.declaredLength) + c.stored)
  }

  // ---------------------------------------------------------------
  // Decoder
  // ---------------------------------------------------------------

  /** `read_var_int_sync` on a cursor over `data`: the value and the position after it. */
  function ReadId(data: seq<byte>): (r: Result<(int, nat)>)
    ensures r.Ok? ==> r.value.1 <= |data| && VarNum.Fits(VarNum.VarInt, r.value.0)
  {
    match VarNum.Decode(VarNum.VarInt, data)
    case Value(v, n) => Ok((v, n))
    case TooLarge => Err(Explain(Extension.VAR_INT_TOO_BIG))
    case Truncated => Err(Explain(Extension.NO_BYTE_READY))
  }

  /** `read_raw_packet`: the VarInt packet id, then everything after it as data. */
  function ReadRaw(data: seq<byte>): Result<PacketFrame>
  {
    var p :- ReadId(data);
    Ok(PacketFrame(p.0, data[p.1..]))
  }

  /**
   * The bytes `decompress_frame` reads the frame from, as written: the
   * declared length `declared` was read from the first `at` bytes of
   * `input`. A declared length of 0 takes `compressed_data.into_inner()`,
   * which is the whole input, the declared length included; a negative
   * one wraps to a capacity `Vec::with_capacity` refuses; otherwise the
   * bytes after `at` are decompressed and must be exactly as long as
   * declared.
   */
  function Body(z: Zlib, input: seq<byte>, declared: int, at: nat): (r: Result<seq<byte>>)
    requires at <= |input| && VarNum.Fits(VarNum.VarInt, declared)
    ensures declared == 0 ==> r == Ok(input)
    ensures declared < 0 ==> r == Err(Panic(CAPACITY_OVERFLOW))
    ensures declared > 0 ==>
              (r.Ok? <==> z.decompress(input[at..]).Some? && |z.decompress(input[at..]).value| == declared)
    ensures declared > 0 && r.Ok? ==> z.decompress(input[at..]) == Some(r.value)
  {
    var dataLength := AsUsize(declared);
    if dataLength == 0 then Ok(input)
    else if declared < 0 then Err(Panic(CAPACITY_OVERFLOW))
    else match z.decompress(input[at..])
      case None => Err(Io(CORRUPT_STREAM))
      case Some(d) => if |d| != dataLength then Err(Explain(LENGTH_MISMATCH)) else Ok(d)
  }

  /** As `Body`, reading a declared length of 0 from the bytes after it. */
  function FixedBody(z: Zlib, input: seq<byte>, declared: int, at: nat): (r: Result<seq<byte>>)
    requires at <= |input| && VarNum.Fits(VarNum.VarInt, declared)
    ensures declared == 0 ==> r == Ok(input[at..])
    ensures declared != 0 ==> r == Body(z, input, declared, at)
  {
    if declared == 0 then Ok(input[at..]) else Body(z, input, declared, at)
  }

  const CAPACITY_OVERFLOW: string := "capacity overflow"

  /**
   * `FrameDecoder::process`: with a non-negative threshold, the declared
   * length, the body and then the packet id; otherwise the raw packet.
   * `compression` is as for `EncodeFrame`.
   */
  function DecodeFrame(compression: Option<int>, z: Zlib, input: seq<byte>): Result<PacketFrame>
  {
    if compression.Some? && compression.value >= 0 then
      var p :- ReadId(input);
      var data :- Body(z, input, p.0, p.1);
      ReadRaw(data)
    else ReadRaw(input)
  }

  /** `DecodeFrame` with the stored frame of a declared length of 0 read after that length. */
  function DecodeFrameFixed(compression: Option<int>, z: Zlib, input: seq<byte>): Result<PacketFrame>
  {
    if compression.Some? && compression.value >= 0 then
      var p :- ReadId(input);
      var data :- FixedBody(z, input, p.0, p.1);
      ReadRaw(data)
    else ReadRaw(input)
  }

  /**
   * `FrameDecoder::process` on the cursor: each `read_var_int_sync` is
   * the byte loop of `Extension.ReadVarNumber`.
   */
  method Process(compression: Option<int>, z: Zlib, input: seq<byte>) returns (r: Result<PacketFrame>)
    ensures r == DecodeFrame(compression, z, input)
  {
    var data := input;
    if compression.Some? && compression.value >= 0 {
      var declared, at := Extension.ReadVarNumber(VarNum.VarInt, input, Extension.SyncByteError(Extension.Exhausted));
      if declared.Err? {
        return Err(declared.error);
      }
      var body := Body(z, input, declared.value, at);
      if body.Err? {
        return Err(body.error);
      }
      data := body.value;
    }
    var id, used := Extension.ReadVarNumber(VarNum.VarInt, data, Extension.SyncByteError(Extension.Exhausted));
    if id.Err? {
      return Err(id.error);
    }
    return Ok(PacketFrame(id.value, data[used..]));
  }

  /** `FrameDecoder::default()`: threshold -1 with the feature, nothing without it. */
  function DefaultDecoder(feature: bool): Option<int>
  {
    if feature then Some(-1) else None
  }

  // ---------------------------------------------------------------
  // Properties
  // ---------------------------------------------------------------

  /** Reading the packet id back off an uncompressed frame gives the frame. */
  lemma {:induction false} ReadRawUncompressed(f: PacketFrame)
    requires ValidFrame(f)
    ensures ReadRaw(Uncompressed(f)) == Ok(f)
  {
    var e := VarNum.Encode(VarNum.VarInt, f.packetId);
    VarNum.DecodeEncode(VarNum.VarInt, f.packetId, f.data);
    assert Uncompressed(f)[|e|..] == f.data;
  }

  /** The default decoder, with or without the feature, reads raw frames. */
  lemma DefaultIsRaw(feature: bool, z: Zlib, input: seq<byte>)
    ensures DecodeFrame(DefaultDecoder(feature), z, input) == ReadRaw(input)
  {
  }

  /** Without the feature both ends use the raw frame, and it round-trips. */
  lemma RawRoundTrip(z: Zlib, f: PacketFrame)
    requires ValidFrame(f)
    ensures EncodeFrame(None, z, f) == Ok(Uncompressed(f))
    ensures DecodeFrame(None, z, Uncompressed(f)) == Ok(f)
  {
    ReadRawUncompressed(f);
  }

  /** The encoder's output is the VarInt declared length, then the stored bytes. */
  lemma EncodedLayout(threshold: int, z: Zlib, f: PacketFrame)
    requires ValidFrame(f) && CreateCompressed(threshold, z, f).Ok?
    ensures var c := CreateCompressed(threshold, z, f).value;
            EncodeFrame(Some(threshold), z, f) == Ok(VarNum.Encode(VarNum.VarInt, c.declaredLength) + c.stored)
  {
  }

  /** The declared length of a stored frame, read back: 0, one byte. */
  lemma ReadZero(rest: seq<byte>)
    ensures ReadId([0] + rest) == Ok((0, 1))
  {
    assert VarNum.Groups(0) == [0];
    VarNum.DecodeEncode(VarNum.VarInt, 0, rest);
  }

  /**
   * As written, a frame stored behind a declared length of 0 comes back
   * with packet id 0 and the id-prefixed body as its data: the decoder
   * reads the packet id from the start of the whole input.
   */
  lemma StoredFrameAsWritten(threshold: int, z: Zlib, f: PacketFrame)
    requires ValidFrame(f) && 0 <= threshold < ISIZE_HALF && |Uncompressed(f)| < threshold
    ensures EncodeFrame(Some(threshold), z, f) == Ok([0] + Uncompressed(f))
    ensures DecodeFrame(Some(threshold), z, [0] + Uncompressed(f)) == Ok(PacketFrame(0, Uncompressed(f)))
    ensures DecodeFrame(Some(threshold), z, [0] + Uncompressed(f)) != Ok(f)
  {
    assert VarNum.Groups(0) == [0];
    var input := [0] + Uncompressed(f);
    ReadZero(Uncompressed(f));
    assert Body(z, input, 0, 1) == Ok(input);
    assert ReadRaw(input) == Ok(PacketFrame(0, input[1..]));
    assert input[1..] == Uncompressed(f);
  }

  /** Below the threshold, the corrected decoder gives the frame back. */
  lemma StoredFrameRoundTrip(threshold: int, z: Zlib, f: PacketFrame)
    requires ValidFrame(f) && 0 <= threshold < ISIZE_HALF && |Uncompressed(f)| < threshold
    ensures EncodeFrame(Some(threshold), z, f) == Ok([0] + Uncompressed(f))
    ensures DecodeFrameFixed(Some(threshold), z, [0] + Uncompressed(f)) == Ok(f)
  {
    assert VarNum.Groups(0) == [0];
    var input := [0] + Uncompressed(f);
    ReadZero(Uncompressed(f));
    assert input[1..] == Uncompressed(f);
    ReadRawUncompressed(f);
  }

  /**
   * At or above a non-negative threshold the frame is compressed, and
   * decoding gives it back when the zlib stream inverts itself on it.
   */
  lemma CompressedFrameRoundTrip(threshold: int, z: Zlib, f: PacketFrame)
    requires ValidFrame(f) && 0 <= threshold <= |Uncompressed(f)| <= I32_MAX
    requires Inverts(z, Uncompressed(f))
    ensures EncodeFrame(Some(threshold), z, f).Ok?
    ensures DecodeFrame(Some(threshold), z, EncodeFrame(Some(threshold), z, f).value) == Ok(f)
    ensures DecodeFrameFixed(Some(threshold), z, EncodeFrame(Some(threshold), z, f).value) == Ok(f)
  {
    var data := Uncompressed(f);
    var n := |data|;
    assert AsUsize(threshold) == threshold;
    assert CreateCompressed(threshold, z, f) == Ok(CompressedPacketFrame(n, z.compress(data)));
    var e := VarNum.Encode(VarNum.VarInt, n);
    var input := e + z.compress(data);
    VarNum.DecodeEncode(VarNum.VarInt, n, z.compress(data));
    assert Yields(ReadId(input), n, |e|);
    assert input[|e|..] == z.compress(data);
    assert Body(z, input, n, |e|) == Ok(data);
    ReadRawUncompressed(f);
  }
}
