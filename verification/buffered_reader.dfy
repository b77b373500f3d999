/**
 * The buffered frame reader of the first transport generation:
 * `DraxTransportPipeline` owns a byte buffer that outlives each read,
 * and each `read_transport_packet` future remembers the frame size it
 * has parsed off the buffer (`ready_size`).
 *
 * One call of `poll` is one step: it reads once from the source, appends
 * what arrived, parses the VarInt frame size when none is pending, and
 * hands exactly that many bytes to the pipeline once they are all there.
 * `PollStep` is that step on explicit state; the `Poll` method of the
 * future is proved to take it.
 */
module BufferedReader {
  import opened Bytes
  import VarNum
  import Extension
  import BufferedWriter

  /** What the source (`AsyncRead::poll_read`) does when the future polls it. */
  datatype Incoming =
    | Waiting                 // Poll::Pending
    | ReadFailed(error: Error) // Poll::Ready(Err(..))
    | Filled(bytes: seq<byte>) // Poll::Ready(Ok(())) with these bytes read

  /** The outcome of one poll, the buffer it leaves and the pending frame size. */
  datatype Step<T> = Step(outcome: VarNum.Poll<Result<T>>, buffer: seq<byte>, readySize: Option<nat>)

  const BUFFER_FULL: string := "No packet found but buffer is full."
  /** The panic of `slice::chunks(0)`. */
  const ZERO_CHUNK: string := "chunk size must be non-zero"
  /** `usize::MAX`: a `BytesMut` this long has no spare capacity left. */
  const USIZE_MAX: nat := U64_MOD - 1

  /**
   * One poll on buffer `buffer` with pending size `readySize`. A full
   * buffer fails before reading; the source is read first whatever is
   * buffered; a read of zero bytes is end of stream.
   */
  function PollStep<T>(pipeline: seq<byte> -> Result<T>, buffer: seq<byte>, readySize: Option<nat>,
                       incoming: Incoming): Step<T>
  {
    if |buffer| >= USIZE_MAX then Step(VarNum.Ready(Err(Explain(BUFFER_FULL))), buffer, readySize)
    else match incoming
      case Waiting => Step(VarNum.NotReady, buffer, readySize)
      case ReadFailed(e) => Step(VarNum.Ready(Err(e)), buffer, readySize)
      case Filled(bytes) =>
        if |bytes| == 0 then Step(VarNum.Ready(Err(Eof)), buffer, readySize)
        else Deliver(pipeline, buffer + bytes, readySize)
  }

  /**
   * After the read: with no size pending, a VarInt is parsed off the front
   * of the buffer (`size as usize`, so a negative size wraps), and the
   * poll waits, consuming nothing, while that fails.
   */
  function Deliver<T>(pipeline: seq<byte> -> Result<T>, buffer: seq<byte>, readySize: Option<nat>): Step<T>
  {
    if readySize.Some? then Serve(pipeline, buffer, readySize.value)
    else match VarNum.Decode(VarNum.VarInt, buffer)
      case Value(v, n) => Serve(pipeline, buffer[n..], AsUsize(v))
      case _ => Step(VarNum.NotReady, buffer, None)
  }

  /**
   * With frame size `size` known: once `size` bytes are buffered, exactly
   * those go through the pipeline and leave the buffer; before that, the
   * poll waits.
   */
  function Serve<T>(pipeline: seq<byte> -> Result<T>, buffer: seq<byte>, size: nat): Step<T>
  {
    if size > |buffer| then Step(VarNum.NotReady, buffer, Some(size))
    else if size == 0 then Step(VarNum.Ready(Err(Panic(ZERO_CHUNK))), buffer, Some(size))
    else Step(VarNum.Ready(pipeline(buffer[..size])), buffer[size..], Some(size))
  }

  /** `DraxTransportPipeline`: the pipeline frames go through, and the buffer shared by its reads. */
  class TransportPipeline<T> {
    var pipeline: seq<byte> -> Result<T>
    var buffer: seq<byte>

    constructor (pipeline: seq<byte> -> Result<T>, buffer: seq<byte>)
      ensures this.pipeline == pipeline && this.buffer == buffer
    {
      this.pipeline := pipeline;
      this.buffer := buffer;
    }

    /** `update_chain`: later frames go through `chain`; the buffer is kept. */
    method UpdateChain(chain: seq<byte> -> Result<T>)
      modifies this
      ensures pipeline == chain && buffer == old(buffer)
    {
      pipeline := chain;
    }

    /** `read_transport_packet`: a future over this buffer with no size pending. */
    method ReadTransportPacket() returns (f: ReadTransportPacket<T>)
      ensures fresh(f) && f.owner == this && f.readySize == None
    {
      f := new ReadTransportPacket(this);
    }
  }

  /** `ReadTransportPacket`: one read of a frame, with the size parsed so far. */
  class ReadTransportPacket<T> {
    const owner: TransportPipeline<T>
    var readySize: Option<nat>

    constructor (owner: TransportPipeline<T>)
      ensures this.owner == owner && readySize == None
    {
      this.owner := owner;
      readySize := None;
    }

    /** `Future::poll`: one step of the state machine, as `PollStep` gives it. */
    method Poll(incoming: Incoming) returns (p: VarNum.Poll<Result<T>>)
      modifies this, owner
      ensures owner.pipeline == old(owner.pipeline)
      ensures Step(p, owner.buffer, readySize)
              == PollStep(old(owner.pipeline), old(owner.buffer), old(readySize), incoming)
    {
      if |owner.buffer| >= USIZE_MAX {
        return VarNum.Ready(Err(Explain(BUFFER_FULL)));
      }
      if incoming.Waiting? {
        return VarNum.NotReady;
      }
      if incoming.ReadFailed? {
        return VarNum.Ready(Err(incoming.error));
      }
      if |incoming.bytes| == 0 {
        return VarNum.Ready(Err(Eof));
      }
      owner.buffer := owner.buffer + incoming.bytes;
      var size: nat;
      if readySize.None? {
        var parsed, used := Extension.ReadVarNumber(VarNum.VarInt, owner.buffer,
                                                    Extension.SyncByteError(Extension.Exhausted));
        if parsed.Err? {
          return VarNum.NotReady;
        }
        size := AsUsize(parsed.value);
        readySize := Some(size);
        owner.buffer := owner.buffer[used..];
      } else {
        size := readySize.value;
      }
      if size > |owner.buffer| {
        return VarNum.NotReady;
      }
      if size == 0 {
        return VarNum.Ready(Err(Panic(ZERO_CHUNK)));
      }
      p := VarNum.Ready(owner.pipeline(owner.buffer[..size]));
      owner.buffer := owner.buffer[size..];
    }
  }

  // ---------------------------------------------------------------
  // Properties of one poll
  // ---------------------------------------------------------------

  /**
   * Nothing buffered is served without a read: a source that is not
   * ready leaves the poll pending and the state as it was, and a read of
   * zero bytes is end of stream, even when a whole frame is buffered.
   */
  lemma ReadsFirst<T>(pipeline: seq<byte> -> Result<T>, buffer: seq<byte>, readySize: Option<nat>)
    requires |buffer| < USIZE_MAX
    ensures PollStep(pipeline, buffer, readySize, Waiting) == Step(VarNum.NotReady, buffer, readySize)
    ensures PollStep(pipeline, buffer, readySize, Filled([])) == Step(VarNum.Ready(Err(Eof)), buffer, readySize)
  {
  }

  /** A buffer with no spare capacity fails before the source is read. */
  lemma FullBufferRefused<T>(pipeline: seq<byte> -> Result<T>, buffer: seq<byte>, readySize: Option<nat>,
                             incoming: Incoming)
    requires |buffer| == USIZE_MAX
    ensures PollStep(pipeline, buffer, readySize, incoming)
            == Step(VarNum.Ready(Err(Explain(BUFFER_FULL))), buffer, readySize)
  {
  }

  /**
   * While the frame size cannot be parsed off the front of the buffer, the
   * bytes read are appended in order, nothing is consumed and no size is
   * recorded.
   */
  lemma WaitsForSize<T>(pipeline: seq<byte> -> Result<T>, buffer: seq<byte>, bytes: seq<byte>)
    requires |buffer| < USIZE_MAX && |bytes| > 0
    requires !VarNum.Decode(VarNum.VarInt, buffer + bytes).Value?
    ensures PollStep(pipeline, buffer, None, Filled(bytes)) == Step(VarNum.NotReady, buffer + bytes, None)
  {
  }

  /**
   * A proper prefix of a VarInt encoding does not parse: every byte of it
   * carries the continuation bit.
   */
  lemma {:induction false} EncodingPrefix(v: int, a: seq<byte>)
    requires VarNum.Fits(VarNum.VarInt, v)
    requires |a| < |VarNum.Encode(VarNum.VarInt, v)| && a == VarNum.Encode(VarNum.VarInt, v)[..|a|]
    ensures VarNum.Decode(VarNum.VarInt, a).Truncated?
  {
    var e := VarNum.Encode(VarNum.VarInt, v);
    assert e + [] == e;
    VarNum.EncodeStops(VarNum.VarInt, v, []);
    VarNum.SizeBounds(VarNum.VarInt, v);
    assert VarNum.ContinuesUpTo(a, |a|) by {
      forall j | 0 <= j < |a|
        ensures a[j] >= 128
      {
        assert a[j] == e[j];
      }
    }
    VarNum.DecodeShape(VarNum.VarInt, a);
  }

  /**
   * A frame written by `FrameSizeAppender` whose last bytes arrive with
   * one read, into a buffer holding the start of it (possibly nothing) and
   * no pending size, goes through the pipeline whole; whatever arrived
   * after it stays buffered.
   */
  lemma {:induction false} WholeFrame<T>(pipeline: seq<byte> -> Result<T>, input: seq<byte>,
                                         buffer: seq<byte>, bytes: seq<byte>, rest: seq<byte>)
    requires 0 < |input| < 0x8000_0000
    requires |buffer| < USIZE_MAX && |bytes| > 0 && buffer + bytes == BufferedWriter.AppendSize(input) + rest
    ensures PollStep(pipeline, buffer, None, Filled(bytes)) == Step(VarNum.Ready(pipeline(input)), rest, Some(|input|))
  {
    var h := BufferedWriter.Header(input);
    var all := BufferedWriter.AppendSize(input) + rest;
    BufferedWriter.AppendSizeReadBack(input, rest);
    assert all[|h|..][..|input|] == input;
    assert all[|h|..][|input|..] == rest;
  }

  /** The first part of a frame, cut inside its size header: nothing is parsed yet. */
  lemma {:induction false} CutInHeader<T>(pipeline: seq<byte> -> Result<T>, input: seq<byte>, a: seq<byte>, b: seq<byte>)
    requires 0 < |input| < 0x8000_0000
    requires |a| > 0 && a + b == BufferedWriter.AppendSize(input) && |a| < |BufferedWriter.Header(input)|
    ensures PollStep(pipeline, [], None, Filled(a)) == Step(VarNum.NotReady, a, None)
  {
    assert [] + a == a;
    assert a == VarNum.Encode(VarNum.VarInt, |input|)[..|a|] by {
      assert BufferedWriter.AppendSize(input)[..|a|] == a;
    }
    EncodingPrefix(|input|, a);
  }

  /** The first part of a frame, cut inside its body: the size is recorded, the body awaited. */
  lemma {:induction false} CutInBody<T>(pipeline: seq<byte> -> Result<T>, input: seq<byte>, a: seq<byte>, b: seq<byte>)
    requires 0 < |input| < 0x8000_0000
    requires |b| > 0 && a + b == BufferedWriter.AppendSize(input) && |a| >= |BufferedWriter.Header(input)|
    ensures var h := |BufferedWriter.Header(input)|;
            PollStep(pipeline, [], None, Filled(a)) == Step(VarNum.NotReady, a[h..], Some(|input|))
            && a[h..] + b == input
  {
    var h := BufferedWriter.Header(input);
    assert [] + a == a;
    assert a == h + a[|h|..];
    VarNum.DecodeEncode(VarNum.VarInt, |input|, a[|h|..]);
    assert a[|h|..] + b == BufferedWriter.AppendSize(input)[|h|..];
  }

  /**
   * A frame that arrives in two reads: the first poll waits, whether or
   * not the size header is complete, and the second hands the whole
   * frame to the pipeline and leaves the buffer empty.
   */
  lemma {:induction false} FrameInTwoReads<T>(pipeline: seq<byte> -> Result<T>, input: seq<byte>,
                                              a: seq<byte>, b: seq<byte>)
    requires 0 < |input| < 0x8000_0000
    requires |a| > 0 && |b| > 0 && a + b == BufferedWriter.AppendSize(input)
    ensures var first := PollStep(pipeline, [], None, Filled(a));
            first.outcome == VarNum.NotReady
            && PollStep(pipeline, first.buffer, first.readySize, Filled(b))
               == Step(VarNum.Ready(pipeline(input)), [], Some(|input|))
  {
    var out := BufferedWriter.AppendSize(input);
    assert out + [] == out;
    if |a| < |BufferedWriter.Header(input)| {
      CutInHeader(pipeline, input, a, b);
      BufferedWriter.HeaderSize(input);
      WholeFrame(pipeline, input, a, b, []);
    } else {
      CutInBody(pipeline, input, a, b);
      assert input[..|input|] == input && input[|input|..] == [];
    }
  }

  /**
   * `FrameSizeAppender` of an empty frame gives the single byte 0, and a
   * frame size of 0 makes `chunks(0)` panic.
   */
  lemma EmptyFramePanics<T>(pipeline: seq<byte> -> Result<T>)
    ensures BufferedWriter.AppendSize([]) == [0]
    ensures PollStep(pipeline, [], None, Filled([0])) == Step(VarNum.Ready(Err(Panic(ZERO_CHUNK))), [], Some(0))
  {
    assert VarNum.Groups(0) == [0];
    VarNum.DecodeEncode(VarNum.VarInt, 0, []);
    assert [] + [0] == [0 as byte];
  }

  /**
   * A negative frame size wraps to at least 2^63 as `usize`: it is
   * recorded, and the poll waits, since no buffer reaches it.
   */
  lemma NegativeSizeWaits<T>(pipeline: seq<byte> -> Result<T>, buffer: seq<byte>, bytes: seq<byte>, v: int, n: nat)
    requires |buffer| < USIZE_MAX && |bytes| > 0 && |buffer + bytes| < 0x8000_0000_0000_0000
    requires VarNum.Decode(VarNum.VarInt, buffer + bytes) == VarNum.Value(v, n) && v < 0
    ensures PollStep(pipeline, buffer, None, Filled(bytes)).outcome == VarNum.NotReady
    ensures PollStep(pipeline, buffer, None, Filled(bytes)).readySize == Some(AsUsize(v))
    ensures AsUsize(v) >= 0x8000_0000_0000_0000
  {
  }
}
