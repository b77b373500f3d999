/**
 * The packet components of both transport generations as one universe:
 * a `Kind` names a component type (a primitive, a delegate, a collection,
 * an option, a struct or enum declared with the record macros), a
 * `Value` is a value of it, and `Encode`, `Decode` and `Size` are the
 * component's `encode`, `decode` and `size`. The stream is an in-memory
 * cursor: decoding reads a prefix of the given bytes and reports how many
 * it consumed; encoding is the sequence of bytes written.
 */
module Packet {
  import opened Bytes
  import opened Sizes
  import VarNum
  import Primitives

  /** `STRING_DEFAULT_CAP`: 32767 characters of up to four bytes. */
  const STRING_DEFAULT_CAP: int := 32767 * 4

  const STRING_TOO_LONG: string := "String exceeded length bound {}"
  const LIMITED_DECODE: string := "Tried to encode vec of length {} but was bound to length {}"
  const LIMITED_ENCODE: string := "Tried to encode vec of length {} but was bound to length {}."
  const UNKNOWN_KEY: string := "Failed to decode key {} for type {}"
  /** The panic of `vec![0; n]` / `Vec::with_capacity(n)` for `n` above `isize::MAX` bytes. */
  const CAPACITY_OVERFLOW: string := "capacity overflow"

  /** A packet component type. */
  datatype Kind =
    | Int(t: Primitives.IntType)        // a primitive bind: big-endian, fixed width
    | Octet                             // `B1`, and `u8` read with `read_u8`
    | Var(w: VarNum.Width)              // the `VarInt` / `VarLong` delegates
    | Text(limit: Option<int>)          // `String`, decoded with `decode_with_limit(limit)`
    | ByteVec                           // `VecU8` / `Vec<u8>`
    | Drain                             // `ByteDrain`
    | Slice(n: nat)                     // `SliceU8<N>` / `[u8; N]`
    | Array(elem: Kind, n: nat)         // `[T; N]`
    | List(elem: Kind)                  // `Vec<T>`
    | Limited(elem: Kind, bound: nat)   // `LimitedVec<T, N>`
    | Maybe(inner: Kind)                // `Maybe<T>` / `MaybeDelegate<T>`
    | Struct(fields: seq<Kind>)         // `struct_packet_components!`
    | Enum(key: Kind, cases: seq<Case>) // `enum_packet_components!`, matching on the key itself
    | Shield                            // `TcpShieldHeaderDelegate`

  /**
   * One arm of an enum: the key literal, the type it is written with when
   * the arm names one (`literal: Type as Variant`), and the variant's fields.
   */
  datatype Case = Case(literal: int, keyAs: Option<Kind>, fields: seq<Kind>)

  /** A component value. */
  datatype Value =
    | Num(n: int)                        // an integer, a byte or a varint
    | Blob(bytes: seq<byte>)             // a byte string; for `String`, its UTF-8 bytes
    | Items(items: seq<Value>)           // the elements of a vector or array
    | Absent                             // `None`
    | Present(inner: Value)              // `Some(inner)`
    | Fields(vals: seq<Value>)           // a struct's fields in declaration order
    | Variant(index: nat, vals: seq<Value>) // an enum value: its arm and that arm's fields

  /**
   * The Rust type `k` stands for occupies no memory: `[u8; 0]`, `[T; 0]`,
   * an array of such a type, a unit struct or a struct of such fields, and
   * an enum of at most one variant whose fields are all such (attributes
   * such as `#[repr(u8)]` are not part of a `Kind`). `Vec::with_capacity`
   * allocates nothing for these, whatever the capacity asked for.
   */
  predicate ZeroSized(k: Kind)
  {
    match k
    case Slice(n) => n == 0
    case Array(e, n) => n == 0 || ZeroSized(e)
    case Struct(fields) => forall i :: 0 <= i < |fields| ==> ZeroSized(fields[i])
    case Enum(_, cases) =>
      |cases| <= 1
      && forall i, j :: 0 <= i < |cases| && 0 <= j < |cases[i].fields| ==> ZeroSized(cases[i].fields[j])
    case _ => false
  }

  /** `fs` is the field list of the struct `parent` or of one arm of the enum `parent`. */
  predicate FieldsOf(parent: Kind, fs: seq<Kind>)
  {
    (parent.Struct? && fs == parent.fields)
    || (parent.Enum? && exists c :: c in parent.cases && fs == c.fields)
  }

  /** `v` is a value of the Rust type `k` stands for. */
  predicate Has(k: Kind, v: Value)
    decreases k, 1
  {
    match k
    case Int(t) => v.Num? && Primitives.InRange(t, v.n)
    case Octet => v.Num? && 0 <= v.n < 256
    case Var(w) => v.Num? && VarNum.Fits(w, v.n)
    case Text(_) => v.Blob? && ValidUtf8(v.bytes)
    case ByteVec => v.Blob?
    case Drain => v.Blob?
    case Slice(n) => v.Blob? && |v.bytes| == n
    case Array(e, n) => v.Items? && |v.items| == n && forall i :: 0 <= i < |v.items| ==> Has(e, v.items[i])
    case List(e) => v.Items? && forall i :: 0 <= i < |v.items| ==> Has(e, v.items[i])
    case Limited(e, _) => v.Items? && forall i :: 0 <= i < |v.items| ==> Has(e, v.items[i])
    case Maybe(inner) => v.Absent? || (v.Present? && Has(inner, v.inner))
    case Struct(fs) => v.Fields? && |v.vals| == |fs| && forall i :: 0 <= i < |fs| ==> Has(fs[i], v.vals[i])
    case Enum(key, cases) =>
      v.Variant? && v.index < |cases|
      && var c := cases[v.index];
         |v.vals| == |c.fields|
         && (forall i :: 0 <= i < |c.fields| ==> Has(c.fields[i], v.vals[i]))
         && Has(if c.keyAs.Some? then c.keyAs.value else key, Num(c.literal))
    case Shield => v.Blob? && ValidUtf8(v.bytes)
  }

  // ---------------------------------------------------------------
  // Encoding
  // ---------------------------------------------------------------

  /** `write_var_int(len as i32)`: the count written before a byte string or vector. */
  function Prefix(n: nat): seq<byte>
  {
    VarNum.Encode(VarNum.VarInt, VarNum.CountPrefix(n))
  }

  /**
   * `encode`: the bytes the component writes. The only failure is a
   * `LimitedVec` holding more than its bound.
   */
  function Encode(k: Kind, v: Value): (r: Result<seq<byte>>)
    requires Has(k, v)
    ensures r.Err? ==> r.error == Explain(LIMITED_ENCODE)
    decreases k, 1, 0
  {
    match k
    case Int(t) => Ok(Primitives.Write(t, v.n))
    case Octet => Ok([v.n])
    case Var(w) => Ok(VarNum.Encode(w, v.n))
    case Text(_) => Ok(Prefix(|v.bytes|) + v.bytes)
    case ByteVec => Ok(Prefix(|v.bytes|) + v.bytes)
    case Drain => Ok(v.bytes)
    case Slice(_) => Ok(v.bytes)
    case Array(e, _) => EncodeItems(e, v.items)
    case List(e) =>
      var body :- EncodeItems(e, v.items);
      Ok(Prefix(|v.items|) + body)
    case Limited(e, bound) =>
      if |v.items| > bound then Err(Explain(LIMITED_ENCODE))
      else
        var body :- EncodeItems(e, v.items);
        Ok(Prefix(|v.items|) + body)
    case Maybe(inner) =>
      if v.Absent? then Ok([0])
      else
        var body :- Encode(inner, v.inner);
        Ok([1] + body)
    case Struct(fs) => EncodeFields(k, fs, v.vals, 0)
    case Enum(key, cases) =>
      var c := cases[v.index];
      var keyBytes :- Encode(if c.keyAs.Some? then c.keyAs.value else key, Num(c.literal));
      var body :- EncodeFields(k, c.fields, v.vals, 0);
      Ok(keyBytes + body)
    case Shield => Ok(ShieldHeader(v.bytes))
  }

  /**
   * `TcpShieldHeaderDelegate::encode`: VarInt 0, the string, `0u16`,
   * then VarInt 2.
   */
  function ShieldHeader(s: seq<byte>): seq<byte>
  {
    VarNum.Encode(VarNum.VarInt, 0) + (Prefix(|s|) + s)
    + Primitives.Write(Primitives.U16, 0) + VarNum.Encode(VarNum.VarInt, 2)
  }

  /** The elements one after another (`for item in component_ref { T::encode(item) }`). */
  function EncodeItems(e: Kind, items: seq<Value>): (r: Result<seq<byte>>)
    requires forall i :: 0 <= i < |items| ==> Has(e, items[i])
    ensures r.Err? ==> r.error == Explain(LIMITED_ENCODE)
    decreases e, 2, |items|
  {
    if |items| == 0 then Ok([])
    else
      var head :- Encode(e, items[0]);
      var rest :- EncodeItems(e, items[1..]);
      Ok(head + rest)
  }

  /** Fields `i..` in declaration order (`expand_field!(@ser ...)` per field). */
  function EncodeFields(parent: Kind, fs: seq<Kind>, vals: seq<Value>, i: nat): (r: Result<seq<byte>>)
    requires FieldsOf(parent, fs) && |vals| == |fs| && i <= |fs|
    requires forall j :: 0 <= j < |fs| ==> Has(fs[j], vals[j])
    ensures r.Err? ==> r.error == Explain(LIMITED_ENCODE)
    decreases parent, 0, |fs| - i
  {
    if i == |fs| then Ok([])
    else
      var head :- Encode(fs[i], vals[i]);
      var rest :- EncodeFields(parent, fs, vals, i + 1);
      Ok(head + rest)
  }

  // ---------------------------------------------------------------
  // Decoding
  // ---------------------------------------------------------------

  /** `read_var_int` / `read_var_long` on the cursor: the value and the bytes it took. */
  function ReadVar(w: VarNum.Width, src: seq<byte>): (r: Result<(int, nat)>)
    ensures r.Ok? ==> 1 <= r.value.1 <= |src| && VarNum.Fits(w, r.value.0)
    ensures r.Err? ==> r.error == Eof || r.error == Explain(VarNum.TOO_LARGE)
  {
    match VarNum.Decode(w, src)
    case Value(v, n) => Ok((v, n))
    case TooLarge => Err(Explain(VarNum.TOO_LARGE))
    case Truncated => Err(Eof)
  }

  /**
   * `vec![0; len as usize]` then `read_exact` at offset `at`: a negative
   * length wraps to more than `isize::MAX` bytes and the allocation
   * panics; too few bytes are `UnexpectedEof`.
   */
  function ReadBody(src: seq<byte>, at: nat, len: int): (r: Result<(seq<byte>, nat)>)
    requires at <= |src|
    ensures r.Ok? ==> len >= 0 && r.value.1 == at + len <= |src| && r.value.0 == src[at..at + len]
  {
    if len < 0 then Err(Panic(CAPACITY_OVERFLOW))
    else if |src| - at < len then Err(ShortRead)
    else Ok((src[at..at + len], at + len))
  }

  /** The bound a string decode enforces: `limit * 4`, or `STRING_DEFAULT_CAP` without a limit. */
  function StringBound(limit: Option<int>): int
  {
    if limit.Some? then limit.value * 4 else STRING_DEFAULT_CAP
  }

  /** The string decode: the length, the bound check, the body, then UTF-8 validation. */
  function DecodeText(limit: Option<int>, src: seq<byte>): (r: Result<(Value, nat)>)
    ensures r.Ok? ==> r.value.1 <= |src|
  {
    var p :- ReadVar(VarNum.VarInt, src);
    if p.0 > StringBound(limit) then Err(Explain(STRING_TOO_LONG))
    else
      var body :- ReadBody(src, p.1, p.0);
      if ValidUtf8(body.0) then Ok((Blob(body.0), body.1)) else Err(Utf8)
  }

  /** The index of the first arm whose literal is `key`, or `|cases|` when none matches. */
  function FirstCase(cases: seq<Case>, key: int): (i: nat)
    ensures i <= |cases|
    ensures i < |cases| ==> cases[i].literal == key
    ensures forall j :: 0 <= j < i ==> cases[j].literal != key
  {
    if |cases| == 0 then 0
    else if cases[0].literal == key then 0
    else 1 + FirstCase(cases[1..], key)
  }

  /** `decode`: the value read from the front of `src`, and the bytes consumed. */
  function Decode(k: Kind, src: seq<byte>): (r: Result<(Value, nat)>)
    ensures r.Ok? ==> r.value.1 <= |src|
    decreases k, 1, 0
  {
    match k
    case Int(t) =>
      var p :- Primitives.Read(t, src);
      Ok((Num(p.0), p.1))
    case Octet => if |src| == 0 then Err(ShortRead) else Ok((Num(src[0]), 1))
    case Var(w) =>
      var p :- ReadVar(w, src);
      Ok((Num(p.0), p.1))
    case Text(limit) => DecodeText(limit, src)
    case ByteVec => DecodeBytes(src)
    case Drain => Ok((Blob(src), |src|))
    case Slice(n) =>
      var body :- ReadBody(src, 0, n);
      Ok((Blob(body.0), body.1))
    case Array(e, n) =>
      var q :- DecodeItems(e, n, src);
      Ok((Items(q.0), q.1))
    case List(e) => DecodeList(e, src)
    case Limited(e, bound) => DecodeLimited(e, bound, src)
    case Maybe(inner) => DecodeMaybe(inner, src)
    case Struct(fs) =>
      var q :- DecodeFields(k, fs, 0, src);
      Ok((Fields(q.0), q.1))
    case Enum(_, _) => DecodeEnum(k, src)
    case Shield => DecodeShield(src)
  }

  /** `VecU8::decode`: the VarInt length, then that many bytes. */
  function DecodeBytes(src: seq<byte>): (r: Result<(Value, nat)>)
    ensures r.Ok? ==> r.value.1 <= |src|
  {
    var p :- ReadVar(VarNum.VarInt, src);
    var body :- ReadBody(src, p.1, p.0);
    Ok((Blob(body.0), body.1))
  }

  /**
   * `Vec<T>::decode`: the VarInt count, then that many elements. A
   * negative count wraps to a huge capacity: a capacity overflow, except
   * for a zero-sized element type, where the loop `0..len` runs no times.
   */
  function DecodeList(e: Kind, src: seq<byte>): (r: Result<(Value, nat)>)
    ensures r.Ok? ==> r.value.1 <= |src|
    decreases e, 3
  {
    var p :- ReadVar(VarNum.VarInt, src);
    if p.0 < 0 then
      // `0..len` is empty; only the allocation can fail, and it cannot for a zero-sized type
      if ZeroSized(e) then Ok((Items([]), p.1)) else Err(Panic(CAPACITY_OVERFLOW))
    else
      var q :- DecodeItems(e, p.0, src[p.1..]);
      Ok((Items(q.0), p.1 + q.1))
  }

  /**
   * `LimitedVec<T, N>::decode`: the VarInt count taken `as usize`, refused
   * above the bound before any element is read.
   */
  function DecodeLimited(e: Kind, bound: nat, src: seq<byte>): (r: Result<(Value, nat)>)
    ensures r.Ok? ==> r.value.1 <= |src|
    decreases e, 3
  {
    var p :- ReadVar(VarNum.VarInt, src);
    var count := AsUsize(p.0);
    if count > bound then Err(Explain(LIMITED_DECODE))
    else
      var q :- DecodeItems(e, count, src[p.1..]);
      Ok((Items(q.0), p.1 + q.1))
  }

  /** `Maybe<T>::decode`: a presence byte, zero for `None`, anything else for `Some`. */
  function DecodeMaybe(inner: Kind, src: seq<byte>): (r: Result<(Value, nat)>)
    ensures r.Ok? ==> r.value.1 <= |src|
    decreases inner, 3
  {
    if |src| == 0 then Err(ShortRead)
    else if src[0] == 0 then Ok((Absent, 1))
    else
      var q :- Decode(inner, src[1..]);
      Ok((Present(q.0), 1 + q.1))
  }

  /** `Maybe<T>` decodes with its own decoder. */
  lemma MaybeDecodes(inner: Kind, src: seq<byte>)
    ensures Decode(Maybe(inner), src) == DecodeMaybe(inner, src)
  {
  }

  /**
   * The enum decode: the key, then the fields of the first arm whose
   * literal it equals; a key matching no arm is refused.
   */
  function DecodeEnum(k: Kind, src: seq<byte>): (r: Result<(Value, nat)>)
    requires k.Enum?
    ensures r.Ok? ==> r.value.1 <= |src|
    decreases k, 0
  {
    var p :- Decode(k.key, src);
    if !p.0.Num? then Err(Explain(UNKNOWN_KEY))
    else
      var i := FirstCase(k.cases, p.0.n);
      if i == |k.cases| then Err(Explain(UNKNOWN_KEY))
      else
        assert k.cases[i] in k.cases;
        var q :- DecodeFields(k, k.cases[i].fields, 0, src[p.1..]);
        Ok((Variant(i, q.0), p.1 + q.1))
  }

  /**
   * `TcpShieldHeaderDelegate::decode`: a VarInt, the string, a `u16` and
   * a VarInt; only the string is kept.
   */
  function DecodeShield(src: seq<byte>): (r: Result<(Value, nat)>)
    ensures r.Ok? ==> r.value.1 <= |src|
  {
    var a :- ReadVar(VarNum.VarInt, src);
    var afterId := src[a.1..];
    var s :- DecodeText(None, afterId);
    var afterText := afterId[s.1..];
    var b :- Primitives.Read(Primitives.U16, afterText);
    var c :- ReadVar(VarNum.VarInt, afterText[b.1..]);
    Ok((s.0, a.1 + s.1 + b.1 + c.1))
  }

  /** `count` elements one after another, as the decode loops push them. */
  function DecodeItems(e: Kind, count: nat, src: seq<byte>): (r: Result<(seq<Value>, nat)>)
    ensures r.Ok? ==> |r.value.0| == count && r.value.1 <= |src|
    decreases e, 2, count
  {
    if count == 0 then Ok(([], 0))
    else
      var p :- Decode(e, src);
      var q :- DecodeItems(e, count - 1, src[p.1..]);
      Ok(([p.0] + q.0, p.1 + q.1))
  }

  /** Fields `i..` in declaration order (`expand_field!(@de ...)` per field). */
  function DecodeFields(parent: Kind, fs: seq<Kind>, i: nat, src: seq<byte>): (r: Result<(seq<Value>, nat)>)
    requires FieldsOf(parent, fs) && i <= |fs|
    ensures r.Ok? ==> |r.value.0| == |fs| - i && r.value.1 <= |src|
    decreases parent, 0, |fs| - i
  {
    if i == |fs| then Ok(([], 0))
    else
      var p :- Decode(fs[i], src);
      var q :- DecodeFields(parent, fs, i + 1, src[p.1..]);
      Ok(([p.0] + q.0, p.1 + q.1))
  }

  // ---------------------------------------------------------------
  // Sizes
  // ---------------------------------------------------------------

  /** `size` of a length-prefixed byte string: `Dynamic(len + size_var_int(len as i32))`. */
  function PrefixedSize(n: nat): Size
  {
    Dynamic(n + |Prefix(n)|)
  }

  /** A size grown by `extra` bytes, keeping its kind. */
  function Grow(s: Size, extra: nat): (r: Size)
    ensures r.n == s.n + extra && (r.Constant? <==> s.Constant?)
  {
    match s
    case Dynamic(x) => Dynamic(x + extra)
    case Constant(x) => Constant(x + extra)
  }

  /** `size`: what the component reports it will write. */
  function SizeOf(k: Kind, v: Value): Size
    requires Has(k, v)
    decreases k, 1, 0
  {
    match k
    case Int(t) => Constant(t.ByteCount())
    case Octet => Constant(1)
    case Var(w) => Dynamic(|VarNum.Encode(w, v.n)|)
    case Text(_) => PrefixedSize(|v.bytes|)
    case ByteVec => PrefixedSize(|v.bytes|)
    case Drain => Dynamic(|v.bytes|)
    case Slice(n) => Constant(n)
    case Array(e, _) => ArraySizeOf(ItemSizes(e, v.items))
    case List(e) => VecSizeOf(ItemSizes(e, v.items), |Prefix(|v.items|)|)
    case Limited(e, _) => VecSizeOf(ItemSizes(e, v.items), |Prefix(|v.items|)|)
    case Maybe(inner) => if v.Absent? then Dynamic(1) else Dynamic(SizeOf(inner, v.inner).n + 1)
    case Struct(fs) => RecordSizeOf(FieldSizes(k, fs, v.vals, 0))
    case Enum(key, cases) =>
      var c := cases[v.index];
      RecordSizeOf([SizeOf(if c.keyAs.Some? then c.keyAs.value else key, Num(c.literal))]
                    + FieldSizes(k, c.fields, v.vals, 0))
    case Shield => Grow(PrefixedSize(|v.bytes|), 4)
  }

  /** The sizes the elements report, in order. */
  function ItemSizes(e: Kind, items: seq<Value>): (r: seq<Size>)
    requires forall i :: 0 <= i < |items| ==> Has(e, items[i])
    ensures |r| == |items|
    decreases e, 2, |items|
  {
    if |items| == 0 then [] else [SizeOf(e, items[0])] + ItemSizes(e, items[1..])
  }

  /** The sizes fields `i..` report, in declaration order. */
  function FieldSizes(parent: Kind, fs: seq<Kind>, vals: seq<Value>, i: nat): (r: seq<Size>)
    requires FieldsOf(parent, fs) && |vals| == |fs| && i <= |fs|
    requires forall j :: 0 <= j < |fs| ==> Has(fs[j], vals[j])
    ensures |r| == |fs| - i
    decreases parent, 0, |fs| - i
  {
    if i == |fs| then [] else [SizeOf(fs[i], vals[i])] + FieldSizes(parent, fs, vals, i + 1)
  }
}
