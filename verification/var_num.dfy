/**
 * The VarInt / VarLong codec of the async transport: `size_var_int`,
 * `size_var_long` and the `ReadVarInt`/`ReadVarLong` and
 * `WriteVarInt`/`WriteVarLong` futures generated by `declare_var_num_ext!`.
 *
 * A value is written as the 7-bit groups of its unsigned two's-complement
 * pattern, low group first, every byte but the last carrying the
 * continuation bit 0x80 (the group layout of unsigned LEB128). Reading
 * stops at the first byte without the continuation bit, or fails once
 * 35 (VarInt) / 70 (VarLong) bits have been accumulated.
 */
module VarNum {
  import opened Bytes

  /** The two instantiations of the codec: `i32`/`u32` and `i64`/`u64`. */
  datatype Width = VarInt | VarLong
  {
    /** Width of the integer type. */
    function Bits(): nat { if VarInt? then 32 else 64 }
    /** `$bit_limit`: the bit offset at which reading gives up. */
    function BitLimit(): nat { if VarInt? then 35 else 70 }
    /** The longest encoding, `BitLimit() / 7` bytes. */
    function MaxBytes(): nat { if VarInt? then 5 else 10 }
    /** `2^Bits()`. */
    function Modulus(): nat { if VarInt? then U32_MOD else U64_MOD }
    /** `2^(Bits() - 1)`, the first pattern read as negative. */
    function Half(): nat { if VarInt? then 0x8000_0000 else 0x8000_0000_0000_0000 }
  }

  lemma WidthFacts(w: Width)
    ensures w.Modulus() == Pow2(w.Bits()) && w.Half() == Pow2(w.Bits() - 1)
    ensures w.Modulus() <= Pow2(7 * w.MaxBytes())
    ensures Pow2(7 * (w.MaxBytes() - 1)) <= w.Half()
  {
    Pow2Words();
    Pow2Add(1, 31);
    Pow2Add(1, 63);
    Pow2Monotone(w.Bits(), 7 * w.MaxBytes());
    Pow2Monotone(7 * (w.MaxBytes() - 1), w.Bits() - 1);
  }

  /** `v` is a value of the signed type of width `w`. */
  predicate Fits(w: Width, v: int) { -(w.Half() as int) <= v < w.Half() }

  /** `var_num as uN`: the unsigned bit pattern the codec works on. */
  function Pattern(w: Width, v: int): (u: nat)
    requires Fits(w, v)
    ensures u < w.Modulus()
  {
    if v < 0 then v + w.Modulus() else v
  }

  /** `pattern as iN`: the signed value of an unsigned bit pattern. */
  function Signed(w: Width, u: nat): (v: int)
    requires u < w.Modulus()
    ensures Fits(w, v)
  {
    if u >= w.Half() then u - w.Modulus() else u
  }

  /**
   * The 7-bit groups of `u`, low group first; every group but the last
   * carries the continuation bit.
   */
  function Groups(u: nat): (r: seq<byte>)
    ensures |r| >= 1
    decreases u
  {
    if u < 128 then [u] else [u % 128 + 128] + Groups(u / 128)
  }

  /** The bytes written for `v`. */
  function Encode(w: Width, v: int): seq<byte>
    requires Fits(w, v)
  {
    Groups(Pattern(w, v))
  }

  /** `len as i32`: the VarInt written before a byte string or list of `n` entries. */
  function CountPrefix(n: nat): (v: int)
    ensures Fits(VarInt, v)
    ensures n < VarInt.Half() ==> v == n
  {
    AsI32(n)
  }

  // ---------------------------------------------------------------
  // Reading: one-shot specification
  // ---------------------------------------------------------------

  /** What reading a whole stream yields, before each copy picks its error values. */
  datatype Decoded =
    | Value(v: int, len: nat)   // `v` was read from the first `len` bytes
    | TooLarge                  // the bit limit was reached without a terminator
    | Truncated                 // the stream ended before a terminator

  /** The first `n` bytes of `src` all carry the continuation bit. */
  predicate ContinuesUpTo(src: seq<byte>, n: nat)
  {
    n <= |src| && forall j :: 0 <= j < n ==> src[j] >= 128
  }

  /** The first index at or after `i` whose byte lacks the continuation bit, or `|src|`. */
  function StopFrom(src: seq<byte>, i: nat): (n: nat)
    requires i <= |src|
    ensures i <= n <= |src|
    ensures n < |src| ==> src[n] < 128
    ensures forall j :: i <= j < n ==> src[j] >= 128
    decreases |src| - i
  {
    if i == |src| || src[i] < 128 then i else StopFrom(src, i + 1)
  }

  /** The number whose base-128 digits, low digit first, are the low seven bits of the bytes of `s`. */
  function Payload(s: seq<byte>): nat
  {
    if |s| == 0 then 0 else s[0] % 128 + 128 * Payload(s[1..])
  }

  /**
   * Reading a value from a stream whose bytes are `src`. The read stops
   * at the first byte without the continuation bit; the groups up to it,
   * ORed together at offsets 0, 7, 14, ... and truncated to the width, are
   * the value. When the first `MaxBytes` bytes all continue, the bit limit
   * is reached first; when the stream ends before that, it is truncated.
   */
  function Decode(w: Width, src: seq<byte>): (d: Decoded)
    ensures d.Value? ==> 1 <= d.len <= |src| && Fits(w, d.v)
  {
    var n := StopFrom(src, 0);
    if n >= w.MaxBytes() then TooLarge
    else if n == |src| then Truncated
    else Value(Signed(w, Payload(src[..n + 1]) % w.Modulus()), n + 1)
  }

  // ---------------------------------------------------------------
  // Size: `size_var_int` / `size_var_long`
  // ---------------------------------------------------------------

  /**
   * `size_fn`: counts the groups of the unsigned pattern by shifting it
   * right by 7 until no bit above the low seven is set
   * (`temp & and_check == 0`).
   */
  method Size(w: Width, v: int) returns (size: nat)
    requires Fits(w, v)
    ensures size == |Encode(w, v)|
    ensures 1 <= size <= w.MaxBytes()
  {
    SizeBounds(w, v);
    var temp := Pattern(w, v);
    size := 0;
    while true
      invariant size + |Groups(temp)| == |Encode(w, v)|
      decreases temp
    {
      if temp < 128 {
        return size + 1;
      }
      size := size + 1;
      temp := temp / 128;
    }
  }

  // ---------------------------------------------------------------
  // Properties of the encoding
  // ---------------------------------------------------------------

  lemma {:induction false} GroupsShort(u: nat, k: nat)
    requires k >= 1 && u < Pow2(7 * k)
    ensures |Groups(u)| <= k
    decreases u
  {
    if u >= 128 {
      Pow2Add(7, 7 * (k - 1));
      Pow2Small();
      if k == 1 {
        assert false;
      }
      GroupsShort(u / 128, k - 1);
    }
  }

  lemma {:induction false} GroupsLong(u: nat, k: nat)
    requires k >= 1 && u >= Pow2(7 * (k - 1))
    ensures |Groups(u)| >= k
    decreases u
  {
    if k > 1 {
      Pow2Add(7, 7 * (k - 2));
      Pow2Small();
      GroupsLong(u / 128, k - 1);
    }
  }

  /** `size_var_int(v)` is in [1, 5] and `size_var_long(v)` in [1, 10]. */
  lemma SizeBounds(w: Width, v: int)
    requires Fits(w, v)
    ensures 1 <= |Encode(w, v)| <= w.MaxBytes()
  {
    WidthFacts(w);
    GroupsShort(Pattern(w, v), w.MaxBytes());
  }

  /** A negative value is written as its unsigned pattern, so it always takes the longest encoding. */
  lemma NegativeIsLongest(w: Width, v: int)
    requires Fits(w, v) && v < 0
    ensures |Encode(w, v)| == w.MaxBytes()
  {
    SizeBounds(w, v);
    WidthFacts(w);
    GroupsLong(Pattern(w, v), w.MaxBytes());
  }

  /** Every byte but the last carries the continuation bit 0x80; the last does not. */
  lemma {:induction false} GroupsContinuation(u: nat, k: nat)
    requires k < |Groups(u)|
    ensures k < |Groups(u)| - 1 ==> Groups(u)[k] >= 128
    ensures k == |Groups(u)| - 1 ==> Groups(u)[k] < 128
    decreases u
  {
    if u >= 128 && k > 0 {
      GroupsContinuation(u / 128, k - 1);
    }
  }

  /** Byte `k` of the encoding carries bits 7k .. 7k+6 of the pattern, low group first. */
  lemma {:induction false} GroupsCarryBits(u: nat, k: nat)
    requires k < |Groups(u)|
    ensures Groups(u)[k] % 128 == (u / Pow2(7 * k)) % 128
    decreases u
  {
    if k > 0 {
      if u < 128 {
        assert false;
      }
      Pow2Add(7, 7 * (k - 1));
      Pow2Small();
      GroupsCarryBits(u / 128, k - 1);
      DivDiv(u, 128, Pow2(7 * (k - 1)));
    }
  }

  /** Writing, in the terms of the source: exactly the continuation and payload bits above. */
  lemma EncodeShape(w: Width, v: int)
    requires Fits(w, v)
    ensures forall k :: 0 <= k < |Encode(w, v)| - 1 ==> Encode(w, v)[k] >= 128
    ensures Encode(w, v)[|Encode(w, v)| - 1] < 128
    ensures forall k :: 0 <= k < |Encode(w, v)| ==>
              Encode(w, v)[k] % 128 == (Pattern(w, v) / Pow2(7 * k)) % 128
  {
    var e := Encode(w, v);
    forall k | 0 <= k < |e|
      ensures k < |e| - 1 ==> e[k] >= 128
      ensures e[k] % 128 == (Pattern(w, v) / Pow2(7 * k)) % 128
    {
      GroupsContinuation(Pattern(w, v), k);
      GroupsCarryBits(Pattern(w, v), k);
    }
    GroupsContinuation(Pattern(w, v), |e| - 1);
  }

  // ---------------------------------------------------------------
  // Round trip and the shape of every read outcome
  // ---------------------------------------------------------------

  lemma {:induction false} PayloadGroups(u: nat)
    ensures Payload(Groups(u)) == u
    decreases u
  {
    if u >= 128 {
      assert Groups(u)[1..] == Groups(u / 128);
      PayloadGroups(u / 128);
    }
  }

  /** A continuing prefix of `n` bytes followed by a final byte stops the read at `n`. */
  lemma StopAt(src: seq<byte>, n: nat)
    requires ContinuesUpTo(src, n) && n < |src| && src[n] < 128
    ensures StopFrom(src, 0) == n
  {
  }

  /** A continuing prefix of `n` bytes means the read does not stop before `n`. */
  lemma StopBeyond(src: seq<byte>, n: nat)
    requires ContinuesUpTo(src, n)
    ensures StopFrom(src, 0) >= n
  {
  }

  /** Reading the bytes written for `v` returns `v` and consumes exactly those bytes. */
  lemma DecodeEncode(w: Width, v: int, tail: seq<byte>)
    requires Fits(w, v)
    ensures Decode(w, Encode(w, v) + tail) == Value(v, |Encode(w, v)|)
  {
    var u := Pattern(w, v);
    var e := Encode(w, v);
    var src := e + tail;
    SizeBounds(w, v);
    EncodeStops(w, v, tail);
    assert src[..|e|] == e;
    PayloadGroups(u);
    assert Signed(w, Payload(src[..|e|]) % w.Modulus()) == v;
    DecodeStopsAt(w, src, |e| - 1);
  }

  /** The read of an encoding stops at its last byte. */
  lemma EncodeStops(w: Width, v: int, tail: seq<byte>)
    requires Fits(w, v)
    ensures StopFrom(Encode(w, v) + tail, 0) == |Encode(w, v)| - 1
  {
    var e := Encode(w, v);
    forall k | 0 <= k < |e| - 1
      ensures (e + tail)[k] >= 128
    {
      GroupsContinuation(Pattern(w, v), k);
    }
    GroupsContinuation(Pattern(w, v), |e| - 1);
    StopAt(e + tail, |e| - 1);
  }

  /** A read that stops at byte `n`, within the limit, takes the first `n + 1` bytes. */
  lemma DecodeStopsAt(w: Width, src: seq<byte>, n: nat)
    requires n < w.MaxBytes() && n < |src| && StopFrom(src, 0) == n
    ensures Decode(w, src) == Value(Signed(w, Payload(src[..n + 1]) % w.Modulus()), n + 1)
  {
  }

  /**
   * Reading never consumes more than 5 / 10 bytes: it stops at the first
   * byte without the continuation bit, fails as too large exactly when
   * the first `MaxBytes` bytes all continue, and runs out exactly on a
   * shorter stream of continuing bytes.
   */
  lemma DecodeShape(w: Width, src: seq<byte>)
    ensures Decode(w, src).Value? ==>
              var n := Decode(w, src).len;
              1 <= n <= w.MaxBytes() && ContinuesUpTo(src, n - 1) && n <= |src| && src[n - 1] < 128
    ensures Decode(w, src).TooLarge? <==> ContinuesUpTo(src, w.MaxBytes())
    ensures Decode(w, src).Truncated? <==> |src| < w.MaxBytes() && ContinuesUpTo(src, |src|)
  {
    if ContinuesUpTo(src, w.MaxBytes()) {
      StopBeyond(src, w.MaxBytes());
    }
    if ContinuesUpTo(src, |src|) {
      StopBeyond(src, |src|);
    }
  }

  // ---------------------------------------------------------------
  // The read future: `ReadVarInt` / `ReadVarLong`
  // ---------------------------------------------------------------

  lemma {:induction false} PayloadSnoc(s: seq<byte>, b: byte)
    ensures Payload(s + [b]) == Payload(s) + (b % 128) * Pow2(7 * |s|)
  {
    if |s| == 0 {
      assert Payload([b]) == b % 128 + 128 * Payload([]);
    } else {
      assert (s + [b])[1..] == s[1..] + [b];
      PayloadSnoc(s[1..], b);
      Pow2Next7(|s| - 1);
      var rest, low, w := Payload(s[1..]), b % 128, Pow2(7 * (|s| - 1));
      assert Payload(s + [b]) == s[0] % 128 + 128 * (rest + low * w);
      assert 128 * (low * w) == low * (128 * w);
    }
  }

  lemma Pow2Next7(k: nat)
    ensures Pow2(7 * (k + 1)) == 128 * Pow2(7 * k)
  {
    Pow2Add(7, 7 * k);
    Pow2Small();
  }

  /**
   * `value |= (byte & 0x7F).overflowing_shl(bit_offset)` on a field that
   * holds numbers modulo `m`. The groups already in `value` occupy the
   * bits below `bit_offset`, so the OR is an addition; the shift stays
   * below the width, so only the truncation modulo `m` remains.
   */
  lemma {:induction false} AccumulateStep(m: nat, s: seq<byte>, b: byte)
    requires m > 0
    ensures (Payload(s) % m + (b % 128) * Pow2(7 * |s|)) % m == Payload(s + [b]) % m
  {
    PayloadSnoc(s, b);
    ModAdd(Payload(s), (b % 128) * Pow2(7 * |s|), Payload(s + [b]), m);
  }

  /** The future has seen `c`, a prefix of `src`, whose last byte ends the number. */
  lemma ReadFinishes(w: Width, src: seq<byte>, c: seq<byte>)
    requires 1 <= |c| <= w.MaxBytes() && |c| <= |src| && c == src[..|c|]
    requires ContinuesUpTo(c, |c| - 1) && c[|c| - 1] < 128
    ensures Decode(w, src) == Value(Signed(w, Payload(c) % w.Modulus()), |c|)
  {
    assert forall j :: 0 <= j < |c| ==> src[j] == c[j];
    StopAt(src, |c| - 1);
  }

  /** The future has seen `MaxBytes` continuing bytes of `src`. */
  lemma ReadOverflows(w: Width, src: seq<byte>, c: seq<byte>)
    requires |c| == w.MaxBytes() && |c| <= |src| && c == src[..|c|] && ContinuesUpTo(c, |c|)
    ensures Decode(w, src) == TooLarge
  {
    assert forall j :: 0 <= j < |c| ==> src[j] == c[j];
    StopBeyond(src, |c|);
  }

  /** The future has seen all of `src`, fewer than `MaxBytes` bytes, all continuing. */
  lemma ReadRunsOut(w: Width, src: seq<byte>)
    requires |src| < w.MaxBytes() && ContinuesUpTo(src, |src|)
    ensures Decode(w, src) == Truncated
  {
    StopBeyond(src, |src|);
  }

  /** What the inner reader does once the bytes offered to one poll are used up. */
  datatype ReaderEnd = StillPending | EndOfStream | ReadFailed(message: string)

  /** `std::task::Poll`. */
  datatype Poll<T> = NotReady | Ready(result: T)

  const TOO_LARGE: string := "VarInt too large"

  /** The result of the future when the bytes delivered so far decode to `d`. */
  function Outcome(d: Decoded, end: ReaderEnd): Poll<Result<int>>
  {
    match d
    case Value(v, _) => Ready(Ok(v))
    case TooLarge => Ready(Err(Explain(TOO_LARGE)))
    case Truncated => AtEnd(end)
  }

  /**
   * A poll whose reader has no byte for it: Pending is passed on, a read
   * that fills nothing is the EOF error, and a read error is returned.
   */
  function AtEnd(end: ReaderEnd): Poll<Result<int>>
  {
    match end
    case StillPending => NotReady
    case EndOfStream => Ready(Err(Eof))
    case ReadFailed(m) => Ready(Err(Io(m)))
  }

  /** The future returned by `read_var_int` / `read_var_long`. */
  class ReadFuture {
    const width: Width
    /** The `value` field, as its unsigned bit pattern. */
    var value: nat
    /** The `bit_offset` field. */
    var bitOffset: nat
    /** The bytes taken from the reader by earlier polls. */
    ghost var consumed: seq<byte>

    ghost predicate Valid()
      reads this
    {
      |consumed| <= width.MaxBytes() && ContinuesUpTo(consumed, |consumed|)
      && bitOffset == 7 * |consumed| && value == Payload(consumed) % width.Modulus()
    }

    constructor (w: Width)
      ensures width == w && Valid() && consumed == []
      ensures value == 0 && bitOffset == 0
    {
      width := w;
      value := 0;
      bitOffset := 0;
      consumed := [];
    }

    /**
     * Takes one byte: ORs its low seven bits in at `bit_offset` (the
     * shift stays below the width, so only truncation to the width
     * remains) and moves the offset on by 7.
     */
    method Accept(b: byte)
      requires Valid() && |consumed| < width.MaxBytes()
      modifies this
      ensures consumed == old(consumed) + [b]
      ensures bitOffset == 7 * |consumed| && value == Payload(consumed) % width.Modulus()
      ensures b >= 128 ==> Valid()
    {
      AccumulateStep(width.Modulus(), consumed, b);
      value := (value + (b % 128) * Pow2(bitOffset)) % width.Modulus();
      bitOffset := bitOffset + 7;
      consumed := consumed + [b];
    }

    /**
     * One poll. The reader hands over the bytes of `input` one at a time
     * and then behaves as `end`. The result is the one-shot reading of
     * every byte delivered to the future so far, so splitting the stream
     * across polls does not change it.
     */
    method Poll(input: seq<byte>, end: ReaderEnd) returns (r: Poll<Result<int>>, used: nat)
      requires Valid()
      modifies this
      ensures used <= |input| && consumed == old(consumed) + input[..used]
      ensures r == Outcome(Decode(width, old(consumed) + input), end)
      ensures Decode(width, old(consumed) + input).Value? ==>
                |consumed| == Decode(width, old(consumed) + input).len
      ensures r.NotReady? ==> Valid() && used == |input|
    {
      ghost var src := consumed + input;
      ghost var start := |consumed|;
      used := 0;
      while true
        invariant Valid()
        invariant used <= |input| && consumed == old(consumed) + input[..used]
        invariant |consumed| == start + used && consumed == src[..|consumed|]
        decreases width.MaxBytes() - |consumed|
      {
        if bitOffset >= width.BitLimit() {
          ReadOverflows(width, src, consumed);
          return Ready(Err(Explain(TOO_LARGE))), used;
        }
        if used == |input| {
          assert src == consumed;
          ReadRunsOut(width, src);
          return AtEnd(end), used;
        }
        var b := input[used];
        Accept(b);
        used := used + 1;
        assert input[..used] == input[..used - 1] + [b];
        if b < 128 {
          ReadFinishes(width, src, consumed);
          return Ready(Ok(Signed(width, value))), used;
        }
      }
    }
  }

  // ---------------------------------------------------------------
  // The write future: `WriteVarInt` / `WriteVarLong`
  // ---------------------------------------------------------------

  /** The future returned by `write_var_int` / `write_var_long`. */
  class WriteFuture {
    const width: Width
    /** The `value` field: what is still to be written. */
    var value: int
    /** The bytes the writer has accepted so far. */
    var written: seq<byte>
    /** The complete encoding of the value the future was created with. */
    ghost const target: seq<byte>

    ghost predicate Valid()
      reads this
    {
      Fits(width, value) && written + Encode(width, value) == target
    }

    constructor (w: Width, v: int)
      requires Fits(w, v)
      ensures width == w && value == v && written == [] && target == Encode(w, v)
      ensures Valid()
    {
      width := w;
      value := v;
      written := [];
      target := Encode(w, v);
    }

    /**
     * One poll against a writer that accepts `room` more bytes before it
     * reports Pending. The future is done once the whole encoding is out;
     * otherwise the `value` field holds the unwritten rest, so the next
     * poll resumes where this one stopped.
     */
    method Poll(room: nat) returns (done: bool)
      requires Valid()
      modifies this
      ensures done <==> room >= |Encode(width, old(value))|
      ensures written == old(written) + Encode(width, old(value))[..if done then |Encode(width, old(value))| else room]
      ensures done ==> written == target
      ensures !done ==> Valid()
    {
      ghost var e := Encode(width, old(value));
      var v := Pattern(width, value);
      var left: nat := room;
      while true
        invariant Fits(width, value) && v == Pattern(width, value)
        invariant written + Groups(v) == target && target == old(written) + e
        invariant |old(written)| <= |written| && left + (|written| - |old(written)|) == room
        decreases v
      {
        assert written == (written + Groups(v))[..|written|];
        if v < 128 {
          assert Groups(v) == [v];
          if left == 0 {
            return false;
          }
          written := written + [v];
          assert written == target;
          assert |e| == |written| - |old(written)| <= room;
          assert e[..|e|] == e;
          return true;
        }
        assert Groups(v) == [v % 128 + 128] + Groups(v / 128);
        if left == 0 {
          return false;
        }
        written := written + [v % 128 + 128];
        left := left - 1;
        v := v / 128;
        // `value.try_into().unwrap()` cannot fail: the shifted pattern is below 2^25 / 2^57
        value := v;
      }
    }
  }

  /** The varint test vectors of the transport, written. */
  lemma EncodeVectors()
    ensures Encode(VarInt, 25) == [25]
    ensures Encode(VarInt, 55324) == [156, 176, 3]
    ensures Encode(VarInt, -8877777) == [175, 146, 226, 251, 15]
    ensures Encode(VarInt, 2147483647) == [255, 255, 255, 255, 7]
    ensures Encode(VarInt, -2147483648) == [128, 128, 128, 128, 8]
  {
    assert Pattern(VarInt, -8877777) == 4286089519;
    assert Groups(4286089519) == [175, 146, 226, 251, 15];
    assert Pattern(VarInt, -2147483648) == 2147483648;
    assert Groups(2147483648) == [128, 128, 128, 128, 8];
    assert Groups(2147483647) == [255, 255, 255, 255, 7];
    assert Groups(55324) == [156, 176, 3];
  }

  /** The varint test vectors of the transport, read back. */
  lemma DecodeVectors()
    ensures Decode(VarInt, [25]) == Value(25, 1)
    ensures Decode(VarInt, [156, 176, 3]) == Value(55324, 3)
    ensures Decode(VarInt, [175, 146, 226, 251, 15]) == Value(-8877777, 5)
    ensures Decode(VarInt, [255, 255, 255, 255, 7]) == Value(2147483647, 5)
    ensures Decode(VarInt, [128, 128, 128, 128, 8]) == Value(-2147483648, 5)
  {
    EncodeVectors();
    DecodeEncode(VarInt, 25, []);
    assert [25] + [] == [25];
    DecodeEncode(VarInt, 55324, []);
    assert [156, 176, 3] + [] == [156, 176, 3];
    DecodeEncode(VarInt, -8877777, []);
    assert [175, 146, 226, 251, 15] + [] == [175, 146, 226, 251, 15];
    DecodeEncode(VarInt, 2147483647, []);
    assert [255, 255, 255, 255, 7] + [] == [255, 255, 255, 255, 7];
    DecodeEncode(VarInt, -2147483648, []);
    assert [128, 128, 128, 128, 8] + [] == [128, 128, 128, 128, 8];
  }
}
