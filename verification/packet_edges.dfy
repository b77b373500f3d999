/**
 * The error paths and edge cases of the packet components: the bounds
 * the decoders enforce before reading a body, the presence byte of
 * `Maybe`, keys that match no enum arm, and `ByteDrain`, which owns the
 * rest of the stream.
 */
module PacketEdges {
  import opened Bytes
  import opened Sizes
  import VarNum
  import opened Packet

  /** The default string cap is 32767 four-byte characters; a limit `l` allows `4 * l` bytes. */
  lemma StringBounds(limit: Option<int>)
    ensures limit.None? ==> StringBound(limit) == 131068
    ensures limit.Some? ==> StringBound(limit) == 4 * limit.value
  {
  }

  /**
   * A declared string length above the bound fails with "String exceeded
   * length bound" whatever follows: the body is never read.
   */
  lemma TextTooLong(limit: Option<int>, src: seq<byte>)
    requires ReadVar(VarNum.VarInt, src).Ok? && ReadVar(VarNum.VarInt, src).value.0 > StringBound(limit)
    ensures Decode(Text(limit), src) == Err(Explain(STRING_TOO_LONG))
  {
  }

  /** Within the bound, too few bytes after the length are `UnexpectedEof`. */
  lemma {:induction false} TextShort(limit: Option<int>, src: seq<byte>, len: nat, k: nat)
    requires Yields(ReadVar(VarNum.VarInt, src), len, k) && len <= StringBound(limit) && |src| < k + len
    ensures Decode(Text(limit), src) == Err(ShortRead)
  {
  }

  /**
   * Within the bound, the string is exactly the `len` bytes after the
   * length, refused when they are not UTF-8; anything after them is left
   * unread.
   */
  lemma {:induction false} TextBody(limit: Option<int>, src: seq<byte>, len: nat, k: nat)
    requires Yields(ReadVar(VarNum.VarInt, src), len, k) && len <= StringBound(limit) && k + len <= |src|
    ensures ValidUtf8(src[k..k + len]) ==> Decode(Text(limit), src) == Ok((Blob(src[k..k + len]), k + len))
    ensures !ValidUtf8(src[k..k + len]) ==> Decode(Text(limit), src) == Err(Utf8)
  {
    assert ReadBody(src, k, len) == Ok((src[k..k + len], k + len));
  }

  /**
   * A negative string or byte-vector length makes the allocation panic
   * (for a string, once it is within the bound, as it always is without
   * a limit).
   */
  lemma NegativeLength(limit: Option<int>, src: seq<byte>)
    requires ReadVar(VarNum.VarInt, src).Ok? && ReadVar(VarNum.VarInt, src).value.0 < 0
    ensures ReadVar(VarNum.VarInt, src).value.0 <= StringBound(limit) ==>
              Decode(Text(limit), src) == Err(Panic(CAPACITY_OVERFLOW))
    ensures Decode(ByteVec, src) == Err(Panic(CAPACITY_OVERFLOW))
  {
  }

  /**
   * `Vec<T>` with a negative count reads no element: it panics allocating
   * the vector, unless the element type is zero-sized, when it is empty.
   */
  lemma NegativeCount(e: Kind, src: seq<byte>)
    requires ReadVar(VarNum.VarInt, src).Ok? && ReadVar(VarNum.VarInt, src).value.0 < 0
    ensures !ZeroSized(e) ==> Decode(List(e), src) == Err(Panic(CAPACITY_OVERFLOW))
    ensures ZeroSized(e) ==> Decode(List(e), src) == Ok((Items([]), ReadVar(VarNum.VarInt, src).value.1))
  {
  }

  /** The five bytes `[0xFF, 0xFF, 0xFF, 0xFF, 0x0F]` are the VarInt -1. */
  lemma MinusOne()
    ensures ReadVar(VarNum.VarInt, [0xFF, 0xFF, 0xFF, 0xFF, 0x0F]) == Ok((-1, 5))
  {
    var src: seq<byte> := [0xFF, 0xFF, 0xFF, 0xFF, 0x0F];
    assert VarNum.Payload(src[4..]) == 15;
    assert VarNum.Payload(src[3..]) == 0x7FF by { assert src[3..][1..] == src[4..]; }
    assert VarNum.Payload(src[2..]) == 0x3_FFFF by { assert src[2..][1..] == src[3..]; }
    assert VarNum.Payload(src[1..]) == 0x1FF_FFFF by { assert src[1..][1..] == src[2..]; }
    assert VarNum.Payload(src) == 0xFFFF_FFFF;
    assert src[..5] == src;
    VarNum.ReadFinishes(VarNum.VarInt, src, src);
  }

  /**
   * A vector of unit structs with count -1 is empty after its five count
   * bytes, while a vector of `[u8; 1]` with that count panics.
   */
  lemma UnitStructsNegativeCount()
    ensures Decode(List(Struct([])), [0xFF, 0xFF, 0xFF, 0xFF, 0x0F]) == Ok((Items([]), 5))
    ensures Decode(List(Slice(1)), [0xFF, 0xFF, 0xFF, 0xFF, 0x0F]) == Err(Panic(CAPACITY_OVERFLOW))
  {
    MinusOne();
    NegativeCount(Struct([]), [0xFF, 0xFF, 0xFF, 0xFF, 0x0F]);
    NegativeCount(Slice(1), [0xFF, 0xFF, 0xFF, 0xFF, 0x0F]);
  }

  /**
   * `LimitedVec<T, N>` refuses a declared count above `N` (a negative
   * count wraps to a huge one) before decoding any element.
   */
  lemma LimitedRefusesCount(e: Kind, bound: nat, src: seq<byte>)
    requires ReadVar(VarNum.VarInt, src).Ok? && AsUsize(ReadVar(VarNum.VarInt, src).value.0) > bound
    ensures Decode(Limited(e, bound), src) == Err(Explain(LIMITED_DECODE))
  {
  }

  /**
   * `LimitedVec<T, N>` encode refuses more than `N` elements; otherwise
   * it writes and sizes exactly as `Vec<T>`.
   */
  lemma LimitedAsVec(e: Kind, bound: nat, v: Value)
    requires Has(Limited(e, bound), v)
    ensures |v.items| > bound ==> Encode(Limited(e, bound), v) == Err(Explain(LIMITED_ENCODE))
    ensures |v.items| <= bound ==> Encode(Limited(e, bound), v) == Encode(List(e), v)
    ensures SizeOf(Limited(e, bound), v) == SizeOf(List(e), v)
  {
  }

  /**
   * The presence byte of `Maybe<T>`: an empty stream is `UnexpectedEof`,
   * zero is `None` after one byte, and every other value reads `T` from
   * the next byte on, failing as `T` fails.
   */
  lemma PresenceByte(inner: Kind, b: byte, rest: seq<byte>)
    ensures Decode(Maybe(inner), []) == Err(ShortRead)
    ensures b == 0 ==> Decode(Maybe(inner), [b] + rest) == Ok((Absent, 1))
    ensures b != 0 && Decode(inner, rest).Err? ==>
              Decode(Maybe(inner), [b] + rest) == Err(Decode(inner, rest).error)
    ensures b != 0 && Decode(inner, rest).Ok? ==>
              Decode(Maybe(inner), [b] + rest)
              == Ok((Present(Decode(inner, rest).value.0), 1 + Decode(inner, rest).value.1))
  {
    var src := [b] + rest;
    MaybeDecodes(inner, []);
    MaybeDecodes(inner, src);
    assert src[1..] == rest;
  }

  /** `Maybe<T>` sizes: one byte for `None`, one more than the value for `Some`, always dynamic. */
  lemma MaybeSize(inner: Kind, v: Value)
    requires Has(Maybe(inner), v)
    ensures v.Absent? ==> SizeOf(Maybe(inner), v) == Dynamic(1)
    ensures v.Present? ==> SizeOf(Maybe(inner), v) == Dynamic(SizeOf(inner, v.inner).n + 1)
  {
  }

  /** A key that matches no arm fails with "Failed to decode key", after the key was read. */
  lemma UnknownKey(k: Kind, src: seq<byte>, key: int, m: nat)
    requires k.Enum? && Decode(k.key, src) == Ok((Num(key), m))
    requires forall c :: c in k.cases ==> c.literal != key
    ensures Decode(k, src) == Err(Explain(UNKNOWN_KEY))
  {
    NoCase(k.cases, key);
  }

  /** No arm carries `key`: the search runs off the end. */
  lemma {:induction false} NoCase(cases: seq<Case>, key: int)
    requires forall c :: c in cases ==> c.literal != key
    ensures FirstCase(cases, key) == |cases|
  {
    if |cases| > 0 {
      assert cases[0] in cases;
      assert forall c :: c in cases[1..] ==> c in cases;
      NoCase(cases[1..], key);
    }
  }

  /**
   * `ByteDrain` reads everything that is left and writes its bytes
   * as they are, so it comes back from its own encoding only at the end
   * of the stream.
   */
  lemma DrainRoundTrip(v: Value)
    requires Has(Drain, v)
    ensures Encode(Drain, v) == Ok(v.bytes)
    ensures Decode(Drain, Encode(Drain, v).value) == Ok((v, |v.bytes|))
    ensures SizeOf(Drain, v) == Dynamic(|v.bytes|)
  {
  }

  /** Whatever follows a drained value is swallowed with it. */
  lemma DrainSwallowsTail(b: seq<byte>, tail: seq<byte>)
    requires |tail| > 0
    ensures Decode(Drain, b + tail) != Ok((Blob(b), |b|))
  {
  }
}
