/**
 * The writing stages of the first transport generation:
 * `FrameSizeAppender`, which puts the VarInt length of a frame in front
 * of it, and `GenericWriter`, which writes a transport component into a
 * buffer sized by its `precondition_size`.
 */
module BufferedWriter {
  import opened Bytes
  import VarNum
  import Primitives

  /** `input.len() as i32`: the length as the header carries it. */
  function Declared(input: seq<byte>): (v: int)
    ensures VarNum.Fits(VarNum.VarInt, v)
    ensures |input| < 0x8000_0000 ==> v == |input|
  {
    AsI32(|input|)
  }

  /** The VarInt header `FrameSizeAppender` writes. */
  function Header(input: seq<byte>): seq<byte>
  {
    VarNum.Encode(VarNum.VarInt, Declared(input))
  }

  /** `FrameSizeAppender::process`: the length header, then the input unchanged. */
  function AppendSize(input: seq<byte>): (out: seq<byte>)
    ensures |out| == |Header(input)| + |input|
    ensures out[|Header(input)|..] == input
  {
    Header(input) + input
  }

  /**
   * Reading one VarInt off the output, and whatever follows it, gives
   * the input's length and leaves exactly the input, then what follows.
   */
  lemma {:induction false} AppendSizeReadBack(input: seq<byte>, tail: seq<byte>)
    requires |input| < 0x8000_0000
    ensures VarNum.Decode(VarNum.VarInt, AppendSize(input) + tail) == VarNum.Value(|input|, |Header(input)|)
    ensures (AppendSize(input) + tail)[|Header(input)|..] == input + tail
  {
    var h := Header(input);
    assert AppendSize(input) + tail == h + (input + tail);
    VarNum.DecodeEncode(VarNum.VarInt, |input|, input + tail);
  }

  /** The header takes one to five bytes. */
  lemma HeaderSize(input: seq<byte>)
    ensures 1 <= |Header(input)| <= 5
    ensures |input| < 128 ==> |Header(input)| == 1
  {
    VarNum.SizeBounds(VarNum.VarInt, Declared(input));
    if |input| < 128 {
      assert VarNum.Pattern(VarNum.VarInt, |input|) == |input|;
      assert VarNum.Groups(|input|) == [|input|];
    }
  }

  /**
   * An input of 2^31 bytes or more has its length truncated to 32 bits:
   * at exactly 2^31 the header reads back as -2^31.
   */
  lemma LongInputWraps(input: seq<byte>)
    requires |input| == 0x8000_0000
    ensures VarNum.Decode(VarNum.VarInt, AppendSize(input)).Value?
    ensures VarNum.Decode(VarNum.VarInt, AppendSize(input)).v == -0x8000_0000
  {
    assert Declared(input) == -0x8000_0000;
    VarNum.DecodeEncode(VarNum.VarInt, -0x8000_0000, input);
  }

  /**
   * `GenericWriter::process` for a primitive component: it writes into
   * a buffer of `precondition_size` bytes, and the frame data is exactly
   * what the component reads back.
   */
  function GenericWrite(t: Primitives.IntType, v: int): (data: seq<byte>)
    requires Primitives.InRange(t, v)
    ensures |data| == Primitives.PreconditionSize(t, v)
    ensures Primitives.Read(t, data) == Ok((v, |data|))
  {
    Primitives.ReadWrite(t, v, []);
    assert Primitives.Write(t, v) + [] == Primitives.Write(t, v);
    Primitives.Write(t, v)
  }
}
