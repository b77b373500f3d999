/**
 * Fixed-width integer primitives: `define_primitive!` of the first
 * generation (`write_to_transport`, `read_from_transport`,
 * `precondition_size`) and `define_primitive_bind!` of the second
 * (`encode_owned`, `decode_owned`, `size_owned`). Both write the value's
 * big-endian bytes (`to_be_bytes`) and read them back with `read_exact`
 * and `from_be_bytes`.
 */
module Primitives {
  import opened Bytes

  /** The integer types given a primitive binding. */
  datatype IntType = U8 | I8 | U16 | I16 | U32 | I32 | U64 | I64 | U128 | I128
  {
    predicate IsSigned() { I8? || I16? || I32? || I64? || I128? }

    /** `$byte_count` / `size_of::<T>()`. */
    function ByteCount(): nat
    {
      match this
      case U8 | I8 => 1
      case U16 | I16 => 2
      case U32 | I32 => 4
      case U64 | I64 => 8
      case U128 | I128 => 16
    }

    /** `2^(8 * ByteCount())`: the number of bit patterns of the type. */
    function Modulus(): nat { Pow256(ByteCount()) }

    /** Half the patterns: the least pattern a signed type reads as negative. */
    function Half(): nat { 128 * Pow256(ByteCount() - 1) }
  }

  /** `v` is a value of type `t`. */
  predicate InRange(t: IntType, v: int)
  {
    if t.IsSigned() then -(t.Half() as int) <= v < t.Half() else 0 <= v < t.Modulus()
  }

  /** `v as uN`: the bit pattern of `v`, as an unsigned number. */
  function PatternOf(t: IntType, v: int): (u: nat)
    requires InRange(t, v)
    ensures u < t.Modulus()
  {
    if v < 0 then v + t.Modulus() else v
  }

  /** The value of type `t` whose bit pattern is `u` (`u as iN` for a signed type). */
  function ValueOf(t: IntType, u: nat): (v: int)
    requires u < t.Modulus()
    ensures InRange(t, v)
  {
    if t.IsSigned() && u >= t.Half() then u - t.Modulus() else u
  }

  /** `to_be_bytes`, written with `write_all`. */
  function Write(t: IntType, v: int): (out: seq<byte>)
    requires InRange(t, v)
    ensures |out| == t.ByteCount()
  {
    BeBytes(PatternOf(t, v), t.ByteCount())
  }

  /**
   * `read_exact` into a `[0u8; $byte_count]` buffer, then `from_be_bytes`.
   * The result carries the bytes consumed; too few bytes are the
   * `UnexpectedEof` of `read_exact`.
   */
  function Read(t: IntType, src: seq<byte>): (r: Result<(int, nat)>)
    ensures r.Ok? <==> |src| >= t.ByteCount()
    ensures r.Err? ==> r.error == ShortRead
    ensures r.Ok? ==> InRange(t, r.value.0) && r.value.1 == t.ByteCount()
  {
    if |src| < t.ByteCount() then Err(ShortRead)
    else Ok((ValueOf(t, FromBe(src[..t.ByteCount()])), t.ByteCount()))
  }

  /** `precondition_size` / `size_owned`: the byte count, whatever the value. */
  function PreconditionSize(t: IntType, v: int): (n: nat)
    requires InRange(t, v)
    ensures n == |Write(t, v)|
  {
    t.ByteCount()
  }

  /** Reading back what was written gives the value and consumes exactly its bytes. */
  lemma ReadWrite(t: IntType, v: int, tail: seq<byte>)
    requires InRange(t, v)
    ensures Read(t, Write(t, v) + tail) == Ok((v, t.ByteCount()))
  {
    var w := Write(t, v);
    assert (w + tail)[..t.ByteCount()] == w;
    FromBeBeBytes(PatternOf(t, v), t.ByteCount());
    PatternValue(t, v);
  }

  /** Bytes that start with what was written read back as the value written. */
  lemma ReadPrefix(t: IntType, v: int, src: seq<byte>)
    requires InRange(t, v) && |src| >= t.ByteCount() && src[..t.ByteCount()] == Write(t, v)
    ensures Read(t, src) == Ok((v, t.ByteCount()))
  {
    FromBeBeBytes(PatternOf(t, v), t.ByteCount());
    PatternValue(t, v);
  }

  /** `as uN` then `as iN` is the identity on the values of the type. */
  lemma PatternValue(t: IntType, v: int)
    requires InRange(t, v)
    ensures ValueOf(t, PatternOf(t, v)) == v
  {
  }

  /** Every byte string of the right length is the encoding of the value it reads as. */
  lemma WriteRead(t: IntType, src: seq<byte>)
    requires |src| == t.ByteCount()
    ensures Read(t, src).Ok?
    ensures Write(t, Read(t, src).value.0) == src
  {
    assert src[..t.ByteCount()] == src;
    var u := FromBe(src);
    assert PatternOf(t, ValueOf(t, u)) == u;
    BeBytesFromBe(src);
  }

  /** Big-endian: the bytes written, read most significant first, are the value's bit pattern. */
  lemma WriteIsBigEndian(t: IntType, v: int)
    requires InRange(t, v)
    ensures FromBe(Write(t, v)) == PatternOf(t, v)
  {
    FromBeBeBytes(PatternOf(t, v), t.ByteCount());
  }

  /** Values from the source's test: `10i32` is [0, 0, 0, 10] and `u16` 0 is [0, 0]. */
  lemma PrimitiveVectors()
    ensures Write(I32, 10) == [0, 0, 0, 10]
    ensures Write(U16, 0) == [0, 0]
    ensures Write(I32, -1) == [255, 255, 255, 255]
  {
    assert I32.Modulus() == 0x1_0000_0000;
    assert BeBytes(0, 0) == [];
    assert BeBytes(0, 1) == [0];
    assert BeBytes(0, 2) == [0, 0];
    assert BeBytes(0, 3) == [0, 0, 0];
    assert BeBytes(10, 4) == [0, 0, 0, 10];
    assert BeBytes(255, 1) == [255];
    assert BeBytes(0xFFFF, 2) == [255, 255];
    assert BeBytes(0xFF_FFFF, 3) == [255, 255, 255];
    assert BeBytes(0xFFFF_FFFF, 4) == [255, 255, 255, 255];
  }
}
