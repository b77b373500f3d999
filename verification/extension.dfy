/**
 * The blocking and async stream helpers of the first generation: the
 * `read_var_number!` loop, the `declare_variable_number!` size and write
 * loops, and the length-prefixed string helpers.
 *
 * A reader is modelled by the bytes it will hand over, one per read, and
 * by what it does once they are gone (`StreamEnd`). A writer is an
 * in-memory buffer that accepts everything, so writing is the sequence
 * of bytes produced.
 */
module Extension {
  import opened Bytes
  import opened VarNum

  /** What a reader does after its last byte. */
  datatype StreamEnd =
    | Exhausted               // a read returns 0 bytes
    | Failed(message: string) // a read returns an io error

  const VAR_INT_TOO_BIG: string := "Var int too big, could not find end."
  const NO_BYTE_READY: string := "Invalid read, no byte ready."

  /** The error of the sync byte read (`read` into a one-byte buffer) on a reader in state `end`. */
  function SyncByteError(end: StreamEnd): Error
  {
    match end
    case Exhausted => Explain(NO_BYTE_READY)
    case Failed(m) => Io(m)
  }

  /** The error of the async byte read (`read_u8`) on a reader in state `end`. */
  function AsyncByteError(end: StreamEnd): Error
  {
    match end
    case Exhausted => ShortRead
    case Failed(m) => Io(m)
  }

  /**
   * The value `read_var_number!` returns on a reader holding `src`, given
   * the error its byte read raises once `src` is used up.
   */
  function ReadSpec(w: Width, src: seq<byte>, byteError: Error): Result<int>
  {
    match Decode(w, src)
    case Value(v, _) => Ok(v)
    case TooLarge => Err(Explain(VAR_INT_TOO_BIG))
    case Truncated => Err(byteError)
  }

  /**
   * `read_var_number!`: ORs each byte's low seven bits in at offsets 0, 7,
   * 14, ... until a byte without the continuation bit, and gives up when
   * the offset reaches the bit limit. `byteError` is what the byte read
   * returns once `src` is exhausted: `SyncByteError` for
   * `read_var_int_sync`, `AsyncByteError` for `read_var_int`.
   */
  method ReadVarNumber(w: Width, src: seq<byte>, byteError: Error) returns (r: Result<int>, used: nat)
    ensures r == ReadSpec(w, src, byteError)
    ensures used <= |src| && used <= w.MaxBytes()
    ensures r.Ok? ==> used == Decode(w, src).len
  {
    var value: nat := 0;
    var bitOffset: nat := 0;
    used := 0;
    while true
      invariant used <= |src| && used <= w.MaxBytes() && ContinuesUpTo(src[..used], used)
      invariant bitOffset == 7 * used && value == Payload(src[..used]) % w.Modulus()
      decreases w.MaxBytes() - used
    {
      if bitOffset == w.BitLimit() {
        ReadOverflows(w, src, src[..used]);
        return Err(Explain(VAR_INT_TOO_BIG)), used;
      }
      if used == |src| {
        assert src[..used] == src;
        ReadRunsOut(w, src);
        return Err(byteError), used;
      }
      var b := src[used];
      ReadStep(w, src, used, value);
      value := (value + (b % 128) * Pow2(bitOffset)) % w.Modulus();
      bitOffset := bitOffset + 7;
      used := used + 1;
      if b < 128 {
        ReadFinishes(w, src, src[..used]);
        return Ok(Signed(w, value)), used;
      }
    }
  }

  /** One more byte of `src` taken into the value read so far. */
  lemma ReadStep(w: Width, src: seq<byte>, used: nat, value: nat)
    requires used < |src| && value == Payload(src[..used]) % w.Modulus()
    ensures src[..used + 1] == src[..used] + [src[used]]
    ensures (value + (src[used] % 128) * Pow2(7 * used)) % w.Modulus() == Payload(src[..used + 1]) % w.Modulus()
  {
    assert src[..used + 1] == src[..used] + [src[used]];
    AccumulateStep(w.Modulus(), src[..used], src[used]);
  }

  /**
   * `size_var_int` / `size_var_long` of this generation: the same group
   * count as the transport's, wrapped in `Ok`.
   */
  method SizeVarNumber(w: Width, v: int) returns (r: Result<nat>)
    requires Fits(w, v)
    ensures r == Ok(|Encode(w, v)|)
  {
    var temp := Pattern(w, v);
    var size: nat := 0;
    while true
      invariant size + |Groups(temp)| == |Encode(w, v)|
      decreases temp
    {
      if temp < 128 {
        return Ok(size + 1);
      }
      size := size + 1;
      temp := temp / 128;
    }
  }

  /**
   * `write_var_int_sync` / `write_var_int` (and the `long` forms): one
   * byte per group, `temp & 0x7F | 0x80` while bits remain above the low
   * seven, then `temp` itself.
   */
  method WriteVarNumber(w: Width, v: int) returns (out: seq<byte>)
    requires Fits(w, v)
    ensures out == Encode(w, v)
  {
    var temp := Pattern(w, v);
    out := [];
    while true
      invariant out + Groups(temp) == Encode(w, v)
      decreases temp
    {
      if temp < 128 {
        assert Groups(temp) == [temp];
        return out + [temp];
      }
      assert Groups(temp) == [temp % 128 + 128] + Groups(temp / 128);
      out := out + [temp % 128 + 128];
      temp := temp / 128;
    }
  }

  /** Writing then reading with either byte read returns the value and consumes exactly what was written. */
  lemma ReadWriteVarNumber(w: Width, v: int, tail: seq<byte>, byteError: Error)
    requires Fits(w, v)
    ensures ReadSpec(w, Encode(w, v) + tail, byteError) == Ok(v)
  {
    DecodeEncode(w, v, tail);
  }

  // ---------------------------------------------------------------
  // Strings: `write_string`, `read_string`, `size_string`
  // ---------------------------------------------------------------

  const WRITE_TOO_LONG: string := "Attempted to write string of length {} when max is {}."
  const READ_TOO_LONG: string := "Attempted to read string of length {} when max is {}."

  /** `write_string_checked`: the length as a VarInt, then the bytes. */
  function WriteStringChecked(bytes: seq<byte>): (out: seq<byte>)
    ensures |out| == |Encode(VarInt, CountPrefix(|bytes|))| + |bytes|
    ensures out[|out| - |bytes|..] == bytes
  {
    Encode(VarInt, CountPrefix(|bytes|)) + bytes
  }

  /**
   * `write_string`: rejects a string of more than `3 * max_length` bytes
   * (the message mentions `4 * max_length`), otherwise writes it checked.
   * The `length < 0` test that follows can never fire on a `usize`.
   */
  function WriteString(maxLength: nat, s: seq<byte>): (r: Result<seq<byte>>)
    ensures r.Err? <==> |s| > maxLength * 3
    ensures r.Err? ==> r.error == Explain(WRITE_TOO_LONG)
    ensures r.Ok? ==> r.value == WriteStringChecked(s)
  {
    if |s| > maxLength * 3 then Err(Explain(WRITE_TOO_LONG))
    else Ok(WriteStringChecked(s))
  }

  /** What `read_exact` of `n` bytes does on a reader holding `src` and then behaving as `end`. */
  function ReadExact(src: seq<byte>, n: nat, end: StreamEnd): (r: Result<seq<byte>>)
    ensures r.Ok? <==> n <= |src|
    ensures r.Ok? ==> r.value == src[..n]
    ensures r.Err? ==> r.error == AsyncByteError(end)
  {
    if n <= |src| then Ok(src[..n]) else Err(AsyncByteError(end))
  }

  /**
   * `read_string`: reads the length with `read_var_int_sync`, takes it
   * `as usize` (a negative length wraps to a huge one), rejects it when
   * above `3 * max_length`, then reads exactly that many bytes and
   * requires them to be UTF-8. The result carries the bytes consumed.
   */
  function ReadString(maxLength: nat, src: seq<byte>, end: StreamEnd): Result<(seq<byte>, nat)>
  {
    var prefix := Decode(VarInt, src);
    match prefix
    case TooLarge => Err(Explain(VAR_INT_TOO_BIG))
    case Truncated => Err(SyncByteError(end))
    case Value(v, k) =>
      var length := AsUsize(v);
      if length > maxLength * 3 then Err(Explain(READ_TOO_LONG))
      else
        var body :- ReadExact(src[k..], length, end);
        if ValidUtf8(body) then Ok((body, k + length)) else Err(Utf8)
  }

  /** `size_string`: the VarInt size of the byte length, plus the length. */
  function SizeString(s: seq<byte>): nat
  {
    |Encode(VarInt, CountPrefix(|s|))| + |s|
  }

  /** `size_string` is exactly the length of what `write_string` emits, whenever it writes. */
  lemma SizeStringMatchesWrite(maxLength: nat, s: seq<byte>)
    requires WriteString(maxLength, s).Ok?
    ensures |WriteString(maxLength, s).value| == SizeString(s)
  {
  }

  /**
   * A string of valid UTF-8 within the bound reads back from what
   * `write_string` wrote, consuming exactly the written bytes.
   */
  lemma {:induction false} ReadStringWriteString(maxLength: nat, s: seq<byte>, tail: seq<byte>, end: StreamEnd)
    requires |s| <= maxLength * 3 && |s| < VarInt.Half() && ValidUtf8(s)
    ensures WriteString(maxLength, s).Ok?
    ensures ReadString(maxLength, WriteString(maxLength, s).value + tail, end)
            == Ok((s, |WriteString(maxLength, s).value|))
  {
    var e := Encode(VarInt, |s|);
    var src := WriteString(maxLength, s).value + tail;
    assert src == e + (s + tail);
    DecodeEncode(VarInt, |s|, s + tail);
    assert src[|e|..] == s + tail;
    assert (s + tail)[..|s|] == s;
  }

  /** A declared length above `3 * max_length` fails before any byte of the body is read. */
  lemma ReadStringRejectsLong(maxLength: nat, src: seq<byte>, end: StreamEnd)
    requires Decode(VarInt, src).Value? && AsUsize(Decode(VarInt, src).v) > maxLength * 3
    ensures ReadString(maxLength, src, end) == Err(Explain(READ_TOO_LONG))
  {
  }

  /**
   * After an accepted length, the body is exactly the next `length` bytes:
   * too few fail with the reader's own error, and bytes that are not
   * UTF-8 fail as such.
   */
  lemma ReadStringBody(maxLength: nat, src: seq<byte>, end: StreamEnd)
    requires Decode(VarInt, src).Value? && AsUsize(Decode(VarInt, src).v) <= maxLength * 3
    ensures var k, length := Decode(VarInt, src).len, AsUsize(Decode(VarInt, src).v);
            && (k + length > |src| ==> ReadString(maxLength, src, end) == Err(AsyncByteError(end)))
            && (k + length <= |src| && !ValidUtf8(src[k..k + length]) ==>
                  ReadString(maxLength, src, end) == Err(Utf8))
            && (k + length <= |src| && ValidUtf8(src[k..k + length]) ==>
                  ReadString(maxLength, src, end) == Ok((src[k..k + length], k + length)))
  {
    var k := Decode(VarInt, src).len;
    var length := AsUsize(Decode(VarInt, src).v);
    if k + length <= |src| {
      assert src[k..][..length] == src[k..k + length];
    }
  }

  /** A negative declared length wraps to a length above any bound a caller can give below 2^63. */
  lemma NegativeLengthRejected(maxLength: nat, src: seq<byte>, end: StreamEnd)
    requires Decode(VarInt, src).Value? && Decode(VarInt, src).v < 0
    requires maxLength * 3 < U64_MOD - VarInt.Half()
    ensures ReadString(maxLength, src, end) == Err(Explain(READ_TOO_LONG))
  {
  }
}
