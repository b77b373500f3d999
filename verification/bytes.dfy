/**
 * Shared vocabulary of the Drax model: bytes, powers of two, the
 * two's-complement reading of fixed-width integers, big-endian byte
 * order, UTF-8 well-formedness and the error kinds the transport reports.
 */
module Bytes {

  /** An octet as Rust's `u8`. */
  type byte = b: int | 0 <= b < 256

  datatype Option<T> = None | Some(value: T)

  /**
   * The error kinds the codecs and transports of Drax report. Formatted
   * arguments of messages are not rendered; the fixed text is kept.
   */
  datatype Error =
    | Eof                      // the dedicated end-of-stream error kind
    | ShortRead                // io `UnexpectedEof` raised by `read_exact` / `read_u8`
    | Explain(message: string) // an error carrying an explanation
    | Io(message: string)      // an `std::io::Error` raised by a stream
    | Utf8                     // `String::from_utf8` rejected the bytes
    | Cesu8                    // `cesu8::from_java_cesu8` rejected the bytes
    | Panic(message: string)   // the Rust code panics (allocation, `unwrap`, `chunks(0)`)

  datatype Result<T> = Ok(value: T) | Err(error: Error)
  {
    predicate IsFailure() { Err? }
    function PropagateFailure<U>(): Result<U>
      requires Err?
    {
      Err(error)
    }
    function Extract(): T
      requires Ok?
    {
      value
    }
  }

  /** The read `r` succeeded with `v`, having consumed `n` bytes. */
  predicate Yields<T(==)>(r: Result<(T, nat)>, v: T, n: nat)
  {
    r.Ok? && r.value.0 == v && r.value.1 == n
  }

  lemma OkPair<T>(r: Result<(T, nat)>, v: T, n: nat)
    requires Yields(r, v, n)
    ensures r == Ok((v, n))
  {
  }

  // ---------------------------------------------------------------
  // Powers of two and fixed-width integers
  // ---------------------------------------------------------------

  function Pow2(n: nat): (r: nat)
    ensures r >= 1
  {
    if n == 0 then 1 else 2 * Pow2(n - 1)
  }

  lemma {:induction false} Pow2Add(a: nat, b: nat)
    ensures Pow2(a + b) == Pow2(a) * Pow2(b)
    decreases a
  {
    if a != 0 {
      Pow2Add(a - 1, b);
      var p, q := Pow2(a - 1), Pow2(b);
      assert Pow2(a + b) == 2 * (p * q);
      assert 2 * (p * q) == (2 * p) * q;
    }
  }

  lemma Pow2Monotone(a: nat, b: nat)
    requires a <= b
    ensures Pow2(a) <= Pow2(b)
  {
    Pow2Add(a, b - a);
  }

  lemma MulAtLeast(x: int, d: int)
    requires x >= 1 && d > 0
    ensures x * d >= d
  {
  }

  /** Division is determined by a quotient and an in-range remainder. */
  lemma DivUnique(u: int, d: int, q: int, r: int)
    requires d > 0 && 0 <= r < d && u == q * d + r
    ensures u / d == q && u % d == r
  {
    var q', r' := u / d, u % d;
    assert u == q' * d + r';
    assert (q - q') * d == r' - r;
    if q > q' {
      MulAtLeast(q - q', d);
    } else if q < q' {
      MulAtLeast(q' - q, d);
    }
  }

  /** Reducing one summand modulo `m` does not change the sum `z` modulo `m`. */
  lemma ModAdd(x: nat, y: nat, z: nat, m: nat)
    requires m > 0 && z == x + y
    ensures (x % m + y) % m == z % m
  {
    var q := x / m;
    var r := (x % m + y) % m;
    var q2 := (x % m + y) / m;
    assert x % m + y == q2 * m + r;
    assert z == (q + q2) * m + r;
    DivUnique(z, m, q + q2, r);
  }

  lemma MulSplit(a: nat, b: nat, q: nat, r: nat)
    ensures a * (b * q + r) == (a * b) * q + a * r
  {
    assert a * (b * q + r) == a * (b * q) + a * r;
  }

  lemma MulBelow(a: nat, b: nat, r: nat)
    requires a > 0 && r < b
    ensures a * r + a <= a * b
  {
    assert a * b - a * r == a * (b - r);
    MulAtLeast(b - r, a);
  }

  /** Dividing by `a` then by `b` is dividing by `a * b`. */
  lemma DivDiv(u: nat, a: nat, b: nat)
    requires a > 0 && b > 0
    ensures u / a / b == u / (a * b)
  {
    var q1, r1 := u / a, u % a;
    var q2, r2 := q1 / b, q1 % b;
    MulSplit(a, b, q2, r2);
    MulBelow(a, b, r2);
    DivUnique(u, a * b, q2, a * r2 + r1);
  }

  /** Widths of the machine words the source converts between. */
  const U32_MOD: nat := 0x1_0000_0000
  const U64_MOD: nat := 0x1_0000_0000_0000_0000

  lemma Pow2Small()
    ensures Pow2(7) == 128 && Pow2(8) == 256
  {
  }

  lemma Pow2Words()
    ensures Pow2(7) == 128 && Pow2(8) == 256
    ensures Pow2(32) == U32_MOD && Pow2(64) == U64_MOD
  {
    Pow2Small();
    Pow2Add(8, 8);
    assert Pow2(16) == 0x1_0000;
    Pow2Add(16, 16);
    assert Pow2(32) == 0x1_0000_0000;
    Pow2Add(32, 32);
  }

  /** `n as i32` for any integer `n` (Rust's truncating cast). */
  function AsI32(n: int): (v: int)
    ensures -0x8000_0000 <= v < 0x8000_0000
    ensures (v - n) % U32_MOD == 0
  {
    var u := n % U32_MOD;
    if u >= 0x8000_0000 then u - U32_MOD else u
  }

  /** `v as usize` on a 64-bit target: negative values wrap around. */
  function AsUsize(v: int): (u: nat)
    ensures u < U64_MOD
    ensures 0 <= v < U64_MOD ==> u == v
    ensures -(U64_MOD as int) <= v < 0 ==> u == v + U64_MOD
  {
    v % U64_MOD
  }

  // ---------------------------------------------------------------
  // Big-endian byte order (`to_be_bytes` / `from_be_bytes`)
  // ---------------------------------------------------------------

  /** `256^n`, the number of values `n` bytes hold. */
  function Pow256(n: nat): (r: nat)
    ensures r >= 1
  {
    if n == 0 then 1 else 256 * Pow256(n - 1)
  }

  /** The `n` bytes of `u`, most significant first. */
  function BeBytes(u: nat, n: nat): (r: seq<byte>)
    requires u < Pow256(n)
    ensures |r| == n
    decreases n
  {
    if n == 0 then [] else BeBytes(u / 256, n - 1) + [u % 256]
  }

  /** The number whose most-significant-first bytes are `s`. */
  function FromBe(s: seq<byte>): (u: nat)
    ensures u < Pow256(|s|)
  {
    if |s| == 0 then 0 else FromBe(s[..|s| - 1]) * 256 + s[|s| - 1]
  }

  lemma {:induction false} FromBeBeBytes(u: nat, n: nat)
    requires u < Pow256(n)
    ensures FromBe(BeBytes(u, n)) == u
    decreases n
  {
    if n != 0 {
      var r := BeBytes(u, n);
      assert r[..n - 1] == BeBytes(u / 256, n - 1);
      FromBeBeBytes(u / 256, n - 1);
    }
  }

  lemma {:induction false} BeBytesFromBe(s: seq<byte>)
    ensures BeBytes(FromBe(s), |s|) == s
  {
    if |s| != 0 {
      var n := |s|;
      var u := FromBe(s);
      assert u / 256 == FromBe(s[..n - 1]);
      assert u % 256 == s[n - 1];
      BeBytesFromBe(s[..n - 1]);
      assert s == s[..n - 1] + [s[n - 1]];
    }
  }

  // ---------------------------------------------------------------
  // UTF-8 well-formedness (RFC 3629, section 4)
  // ---------------------------------------------------------------

  predicate Cont(b: byte) { 0x80 <= b <= 0xBF }

  /**
   * Length of the well-formed UTF-8 sequence at the front of `s`, or 0
   * when the front of `s` is not one.
   */
  function Utf8SeqLen(s: seq<byte>): (n: nat)
    ensures n <= 4 && n <= |s|
  {
    if |s| == 0 then 0
    else if s[0] <= 0x7F then 1
    else if 0xC2 <= s[0] <= 0xDF then
      if |s| >= 2 && Cont(s[1]) then 2 else 0
    else if 0xE0 <= s[0] <= 0xEF then
      if |s| >= 3 && Cont(s[2])
         && (if s[0] == 0xE0 then 0xA0 <= s[1] <= 0xBF
             else if s[0] == 0xED then 0x80 <= s[1] <= 0x9F
             else Cont(s[1]))
      then 3 else 0
    else if 0xF0 <= s[0] <= 0xF4 then
      if |s| >= 4 && Cont(s[2]) && Cont(s[3])
         && (if s[0] == 0xF0 then 0x90 <= s[1] <= 0xBF
             else if s[0] == 0xF4 then 0x80 <= s[1] <= 0x8F
             else Cont(s[1]))
      then 4 else 0
    else 0
  }

  /** `s` is a sequence of well-formed UTF-8 characters (what a Rust `String` holds). */
  predicate ValidUtf8(s: seq<byte>)
    decreases |s|
  {
    |s| == 0 || (Utf8SeqLen(s) > 0 && ValidUtf8(s[Utf8SeqLen(s)..]))
  }
}
