/**
 * The NBT codec of `drax_core`: the bit accounter, the writer and sizer of
 * a tag tree, and the loader, here as functions of the bytes and the
 * accounter's count. The imperative loader in `NbtCoreMethods` is proved to
 * compute exactly these functions.
 *
 * Arithmetic on `u64` charges follows release builds: products wrap
 * around (`Charge`), and `checked_add` guards only the running total.
 */
module NbtCore {
  import opened Bytes
  import opened NbtTag
  import opened NbtStream
  import Primitives
  import Mutf8

  const TOO_BIG: string := "Nbt tag too big, read {} bytes of allowed {}."
  const OVERFLOWED: string := "Overflowed bits in accounter."
  const DEPTH_EXCEEDED: string := "Nbt tag depth exceeded 512."
  const MISSING_TYPE: string := "Missing type on list tag."
  const UNKNOWN_TAG: string := "Unknown tag bit {}"
  const UNDER_READ: string := "Invalid NBT string, under read."
  const CESU8_ERROR: string := "Cesu8 encoding error: {}"
  const ROOT_NOT_COMPOUND: string := "Root tag must be a compound tag."
  const INVALID_ROOT: string := "Invalid root tag loaded."
  const CAPACITY_OVERFLOW: string := "capacity overflow"

  /** The deepest a list or compound may sit; one level deeper fails. */
  const MAX_DEPTH: nat := 512

  /** What a load reads: the bytes, the accounter's limit and the CESU-8 decoder (`from_java_cesu8`). */
  datatype Source = Source(data: seq<byte>, limit: nat, decode: seq<byte> -> Option<string>)

  // ---------------------------------------------------------------
  // The accounter
  // ---------------------------------------------------------------

  /**
   * `account_bits`: the count after charging `bits`, refused when the sum
   * leaves `u64` or passes the limit.
   */
  function Account(limit: nat, current: nat, bits: nat): (r: Result<nat>)
    ensures r.Ok? <==> current + bits < U64_MOD && current + bits <= limit
    ensures r.Ok? ==> r.value == current + bits
    ensures r.Err? && current + bits < U64_MOD ==> r.error == Explain(TOO_BIG)
    ensures current + bits >= U64_MOD ==> r.error == Explain(OVERFLOWED)
  {
    if current + bits >= U64_MOD then Err(Explain(OVERFLOWED))
    else if current + bits > limit then Err(Explain(TOO_BIG))
    else Ok(current + bits)
  }

  /** `k * (n as u64)`, wrapping: a negative `n` is sign-extended first. */
  function Charge(k: nat, n: int): (bits: nat)
    ensures bits < U64_MOD
    ensures 0 <= n && k * n < U64_MOD ==> bits == k * n
  {
    (k * AsUsize(n)) % U64_MOD
  }

  /** `NbtAccounter`: the limit and the bits charged so far. */
  class NbtAccounter {
    const limit: nat
    var current: nat

    constructor (limit: nat)
      ensures this.limit == limit && current == 0
    {
      this.limit := limit;
      current := 0;
    }

    /** `account_bits`: a refused charge leaves the count as it was. */
    method AccountBits(bits: nat) returns (r: Result<()>)
      modifies this
      ensures var spec := Account(limit, old(current), bits);
              (r.Ok? <==> spec.Ok?)
              && (spec.Ok? ==> current == spec.value)
              && (spec.Err? ==> r.error == spec.error && current == old(current))
    {
      var next := current + bits;
      if next >= U64_MOD {
        return Err(Explain(OVERFLOWED));
      }
      if next > limit {
        return Err(Explain(TOO_BIG));
      }
      current := next;
      return Ok(());
    }
  }

  // ---------------------------------------------------------------
  // Strings
  // ---------------------------------------------------------------

  /** `write_string`: the `str::len` as a `u16`, then the CESU-8 bytes. */
  function WriteString(s: string): (out: seq<byte>)
    ensures |out| == 2 + |Mutf8.Encode(s)|
    ensures out[2..] == Mutf8.Encode(s)
  {
    Primitives.Write(Primitives.U16, Mutf8.Utf8Len(s) % 0x1_0000) + Mutf8.Encode(s)
  }

  /** `size_string`. */
  function SizeString(s: string): (n: nat)
    ensures n == |WriteString(s)| + 2
  {
    4 + |Mutf8.Encode(s)|
  }

  /**
   * `write_string` with the prefix `read_string` expects: the byte length
   * of the CESU-8 form rather than of standard UTF-8.
   */
  function WriteStringCorrected(s: string): (out: seq<byte>)
    ensures |out| == 2 + |Mutf8.Encode(s)|
    ensures out[2..] == Mutf8.Encode(s)
  {
    Primitives.Write(Primitives.U16, |Mutf8.Encode(s)| % 0x1_0000) + Mutf8.Encode(s)
  }

  /**
   * `read_string`: the `u16` length; zero is the empty string without
   * decoding; too few bytes are an under-read; then the decoder.
   */
  function ReadString(decode: seq<byte> -> Option<string>, data: seq<byte>, pos: nat): (r: Result<(string, nat)>)
    requires pos <= |data|
    ensures r.Ok? ==> pos + 2 <= r.value.1 <= |data|
  {
    var (len, start) :- ReadAt(Primitives.U16, data, pos);
    if len == 0 then Ok(("", start))
    else if |data| - start < len then Err(Explain(UNDER_READ))
    else match decode(data[start..start + len])
      case None => Err(Explain(CESU8_ERROR))
      case Some(s) => Ok((s, start + len))
  }

  /** `skip_string`: the `u16` length, then up to that many bytes. */
  function SkipString(data: seq<byte>, pos: nat): (r: Result<nat>)
    requires pos <= |data|
    ensures r.Ok? <==> pos + 2 <= |data|
    ensures r.Ok? ==> pos + 2 <= r.value <= |data|
  {
    var (len, start) :- ReadAt(Primitives.U16, data, pos);
    Ok(if |data| - start < len then |data| else start + len)
  }

  // ---------------------------------------------------------------
  // Writing and sizing
  // ---------------------------------------------------------------

  /** The integer type a scalar tag is written as (`ShortTag` as its 16 bits). */
  function ScalarType(id: byte): Primitives.IntType
    requires 1 <= id <= 6
  {
    match id
    case 1 => Primitives.U8
    case 2 => Primitives.U16
    case 3 => Primitives.I32
    case 4 => Primitives.I64
    case 5 => Primitives.U32
    case _ => Primitives.U64
  }

  predicate IsScalar(t: Tag)
  {
    1 <= Id(t) <= 6
  }

  /** The number a scalar tag holds. */
  function ScalarValue(t: Tag): int
    requires IsScalar(t)
  {
    match t
    case Byte(b) => b
    case Short(bits) => bits
    case Int(i) => i
    case Long(l) => l
    case Float(bits) => bits
    case Double(bits) => bits
  }

  /** The scalar tag with id `id` holding `v`. */
  function MakeScalar(id: byte, v: int): (t: Tag)
    requires 1 <= id <= 6 && Primitives.InRange(ScalarType(id), v)
    ensures Id(t) == id && ScalarValue(t) == v && Valid(t)
  {
    match id
    case 1 => Byte(v)
    case 2 => Short(v)
    case 3 => Int(v)
    case 4 => Long(v)
    case 5 => Float(v)
    case _ => Double(v)
  }

  /** `count as i32`, the length prefix of arrays and lists. */
  function LengthPrefix(count: nat): (out: seq<byte>)
    ensures |out| == 4
  {
    Primitives.Write(Primitives.I32, AsI32(count))
  }

  /** The values of an int or long array, each big-endian. */
  function WriteValues(t: Primitives.IntType, xs: seq<int>): seq<byte>
    requires forall i :: 0 <= i < |xs| ==> Primitives.InRange(t, xs[i])
  {
    if |xs| == 0 then [] else Primitives.Write(t, xs[0]) + WriteValues(t, xs[1..])
  }

  /** `write_tag`: the payload of a tag, without its id. */
  function Write(t: Tag): seq<byte>
    requires Valid(t)
    decreases t, 1
  {
    match t
    case End => []
    case ByteArray(bytes) => LengthPrefix(|bytes|) + bytes
    case Str(s) => WriteString(s)
    case List(elem, items) => [elem] + LengthPrefix(|items|) + WriteItems(items)
    case Compound(es) => WriteEntries(es)
    case IntArray(xs) => LengthPrefix(|xs|) + WriteValues(Primitives.I32, xs)
    case LongArray(xs) => LengthPrefix(|xs|) + WriteValues(Primitives.I64, xs)
    case _ => WriteScalar(t)
  }

  /** A scalar's big-endian bytes. */
  function WriteScalar(t: Tag): seq<byte>
    requires IsScalar(t) && Valid(t)
  {
    match t
    case Byte(b) => Primitives.Write(Primitives.U8, b)
    case Short(bits) => Primitives.Write(Primitives.U16, bits)
    case Int(i) => Primitives.Write(Primitives.I32, i)
    case Long(l) => Primitives.Write(Primitives.I64, l)
    case Float(bits) => Primitives.Write(Primitives.U32, bits)
    case Double(bits) => Primitives.Write(Primitives.U64, bits)
  }

  /** The elements of a list, one after the other. */
  function WriteItems(items: seq<Tag>): seq<byte>
    requires forall i :: 0 <= i < |items| ==> Valid(items[i])
    decreases items, 0
  {
    if |items| == 0 then [] else Write(items[0]) + WriteItems(items[1..])
  }

  /**
   * `write_compound_tag`: id, name and payload per entry, then 0; an
   * `EndTag` value writes its id 0 and ends the compound there.
   */
  function WriteEntries(es: seq<Entry>): seq<byte>
    requires forall i :: 0 <= i < |es| ==> Valid(es[i].value)
    decreases es, 0
  {
    if |es| == 0 then [0]
    else if Id(es[0].value) == 0 then [0]
    else [Id(es[0].value)] + WriteString(es[0].name) + Write(es[0].value) + WriteEntries(es[1..])
  }

  /** `size_tag`. */
  function SizeTag(t: Tag): nat
    decreases t, 1
  {
    match t
    case End => 0
    case Byte(_) => 1
    case Short(_) => 2
    case Int(_) => 4
    case Long(_) => 8
    case Float(_) => 4
    case Double(_) => 8
    case ByteArray(bytes) => |bytes| + 4
    case Str(s) => SizeString(s)
    case List(_, items) => 5 + SizeItems(items)
    case Compound(es) => SizeEntries(es)
    case IntArray(xs) => |xs| * 4 + 4
    case LongArray(xs) => |xs| * 8 + 4
  }

  /** The sum of the element sizes of a list. */
  function SizeItems(items: seq<Tag>): nat
    decreases items, 0
  {
    if |items| == 0 then 0 else SizeTag(items[0]) + SizeItems(items[1..])
  }

  /** `size_compound_tag`: it stops where the writer stops. */
  function SizeEntries(es: seq<Entry>): nat
    decreases es, 0
  {
    if |es| == 0 then 1
    else if Id(es[0].value) == 0 then 1
    else 1 + SizeString(es[0].name) + SizeTag(es[0].value) + SizeEntries(es[1..])
  }

  /** `write_nbt`: the compound id, an empty name, the compound. */
  function WriteNbt(es: seq<Entry>): seq<byte>
    requires forall i :: 0 <= i < |es| ==> Valid(es[i].value)
  {
    [COMPOUND_TAG_BIT] + WriteString("") + WriteEntries(es)
  }

  /** `write_optional_nbt`. */
  function WriteOptionalNbt(tag: Option<seq<Entry>>): seq<byte>
    requires tag.Some? ==> forall i :: 0 <= i < |tag.value| ==> Valid(tag.value[i].value)
  {
    match tag
    case Some(es) => WriteNbt(es)
    case None => [0]
  }

  /** `size_nbt`: the compound alone. */
  function SizeNbt(es: seq<Entry>): nat
  {
    SizeEntries(es)
  }

  /** `size_optional_nbt`. */
  function SizeOptionalNbt(tag: Option<seq<Entry>>): nat
  {
    match tag
    case Some(es) => SizeEntries(es)
    case None => 1
  }

  // ---------------------------------------------------------------
  // Loading
  // ---------------------------------------------------------------

  /** Termination measure: each list or compound level uses one unit. */
  function Fuel(depth: nat): nat
  {
    if depth <= MAX_DEPTH + 1 then MAX_DEPTH + 2 - depth else 0
  }

  /** The bits a scalar costs. */
  function ScalarCharge(id: byte): nat
    requires 1 <= id <= 6
  {
    match id
    case 1 => 72
    case 2 => 80
    case 3 => 96
    case 4 => 128
    case 5 => 96
    case _ => 128
  }

  /** `vec![0; n]`: the slots the array loaders allocate before reading. */
  function Zeros(n: nat): (z: seq<int>)
    ensures |z| == n && forall i :: 0 <= i < n ==> z[i] == 0
  {
    seq(n, _ => 0)
  }

  /**
   * `load_tag` for the ids that hold no other tag; an id above 12 is
   * refused before anything is charged or read.
   */
  function LoadLeaf(src: Source, id: byte, pos: nat, current: nat): (r: Result<Loaded<Tag>>)
    requires pos <= |src.data| && id != 9 && id != 10
    ensures r.Ok? ==> pos <= r.value.pos <= |src.data| && Id(r.value.value) == id && Valid(r.value.value)
    ensures id > 12 ==> r == Err(Explain(UNKNOWN_TAG))
  {
    if id == 0 then
      var c :- Account(src.limit, current, 64);
      Ok(Loaded(End, pos, c))
    else if id <= 6 then LoadScalar(src, id, pos, current)
    else if id == 7 then LoadByteArray(src, pos, current)
    else if id == 8 then LoadString(src, pos, current)
    else if id == 11 || id == 12 then LoadArray(src, id, pos, current)
    else Err(Explain(UNKNOWN_TAG))
  }

  /** Ids 1 to 6: the charge, then the big-endian value. */
  function LoadScalar(src: Source, id: byte, pos: nat, current: nat): (r: Result<Loaded<Tag>>)
    requires pos <= |src.data| && 1 <= id <= 6
    ensures r.Ok? ==> pos <= r.value.pos <= |src.data| && Id(r.value.value) == id && Valid(r.value.value)
  {
    var c :- Account(src.limit, current, ScalarCharge(id));
    var (v, next) :- ReadAt(ScalarType(id), src.data, pos);
    Ok(Loaded(MakeScalar(id, v), next, c))
  }

  /**
   * Id 7: 192 bits, the `i32` length, 8 bits per byte, the allocation
   * (which panics for a negative length), then `read_exact`.
   */
  function LoadByteArray(src: Source, pos: nat, current: nat): (r: Result<Loaded<Tag>>)
    requires pos <= |src.data|
    ensures r.Ok? ==> pos <= r.value.pos <= |src.data| && r.value.value.ByteArray?
  {
    var c :- Account(src.limit, current, 192);
    var (n, start) :- ReadAt(Primitives.I32, src.data, pos);
    var c2 :- Account(src.limit, c, Charge(8, n));
    if n < 0 then Err(Panic(CAPACITY_OVERFLOW))
    else
      var (bytes, next) :- ReadExact(src.data, start, n);
      Ok(Loaded(ByteArray(bytes), next, c2))
  }

  /** Id 8: 288 bits, the string, then 16 bits per byte of its `str::len`. */
  function LoadString(src: Source, pos: nat, current: nat): (r: Result<Loaded<Tag>>)
    requires pos <= |src.data|
    ensures r.Ok? ==> pos <= r.value.pos <= |src.data| && r.value.value.Str?
  {
    var c :- Account(src.limit, current, 288);
    var (s, next) :- ReadString(src.decode, src.data, pos);
    var c2 :- Account(src.limit, c, Charge(16, Mutf8.Utf8Len(s)));
    Ok(Loaded(Str(s), next, c2))
  }

  /** The element type of an int (11) or long (12) array. */
  function ArrayType(id: byte): Primitives.IntType
    requires id == 11 || id == 12
  {
    if id == 11 then Primitives.I32 else Primitives.I64
  }

  /** 32 bits per element of an int array, 64 per element of a long array. */
  function ArrayCharge(id: byte, n: int): nat
  {
    if id == 11 then Charge(32, n) else Charge(64, n)
  }

  /**
   * Ids 11 and 12: 192 bits, the `i32` length, 32 or 64 bits per
   * element, `vec![0; len]` (a panic for a negative length), then `len`
   * values pushed after the zeros.
   */
  function LoadArray(src: Source, id: byte, pos: nat, current: nat): (r: Result<Loaded<Tag>>)
    requires pos <= |src.data| && (id == 11 || id == 12)
    ensures r.Ok? ==> pos <= r.value.pos <= |src.data| && Id(r.value.value) == id && Valid(r.value.value)
  {
    var c :- Account(src.limit, current, 192);
    var (n, start) :- ReadAt(Primitives.I32, src.data, pos);
    var c2 :- Account(src.limit, c, ArrayCharge(id, n));
    if n < 0 then Err(Panic(CAPACITY_OVERFLOW))
    else ArrayValues(src.data, id, n, start, c2)
  }

  /** The array loop: `n` values pushed after `n` zeros. */
  function ArrayValues(data: seq<byte>, id: byte, n: nat, pos: nat, current: nat): (r: Result<Loaded<Tag>>)
    requires pos <= |data| && (id == 11 || id == 12)
    ensures r.Ok? ==> pos <= r.value.pos <= |data| && Id(r.value.value) == id && Valid(r.value.value)
  {
    var t := ArrayType(id);
    ZerosInRange(t, n);
    ReadValuesInRange(t, data, pos, n, Zeros(n));
    var read := ReadValues(t, data, pos, n, Zeros(n));
    if read.Err? then Err(read.error)
    else Ok(Loaded(ArrayTag(id, read.value.0), read.value.1, current))
  }

  /** The int (11) or long (12) array holding `values`. */
  function ArrayTag(id: byte, values: seq<int>): (a: Tag)
    requires id == 11 || id == 12
    requires forall i :: 0 <= i < |values| ==> Primitives.InRange(ArrayType(id), values[i])
    ensures Id(a) == id && Valid(a)
  {
    if id == 11 then
      assert ArrayType(id) == Primitives.I32;
      IntArray(values)
    else
      assert ArrayType(id) == Primitives.I64;
      LongArray(values)
  }

  /** Zero is a value of every integer type. */
  lemma ZerosInRange(t: Primitives.IntType, n: nat)
    ensures forall i :: 0 <= i < n ==> Primitives.InRange(t, Zeros(n)[i])
  {
  }

  /** `load_tag(tag_bit, read, depth, accounter)`. */
  function LoadTag(src: Source, id: byte, pos: nat, depth: nat, current: nat): (r: Result<Loaded<Tag>>)
    requires pos <= |src.data|
    ensures r.Ok? ==> pos <= r.value.pos <= |src.data| && Id(r.value.value) == id && Valid(r.value.value)
    decreases Fuel(depth), 2, 0
  {
    if id == 9 then LoadList(src, pos, depth, current)
    else if id == 10 then LoadCompound(src, pos, depth, current)
    else LoadLeaf(src, id, pos, current)
  }

  /**
   * The list case: 296 bits; the depth check; the element id and the
   * `i32` length; a missing element type; 32 bits per element; then the
   * elements one level deeper (none for a negative length).
   */
  function LoadList(src: Source, pos: nat, depth: nat, current: nat): (r: Result<Loaded<Tag>>)
    requires pos <= |src.data|
    ensures r.Ok? ==> pos <= r.value.pos <= |src.data| && r.value.value.List? && Valid(r.value.value)
    decreases Fuel(depth), 1, 0
  {
    var c :- Account(src.limit, current, 296);
    if depth > MAX_DEPTH then Err(Explain(DEPTH_EXCEEDED))
    else
      var (elem, p1) :- ReadAt(Primitives.U8, src.data, pos);
      var (n, p2) :- ReadAt(Primitives.I32, src.data, p1);
      if elem == 0 && n > 0 then Err(Explain(MISSING_TYPE))
      else
        var c2 :- Account(src.limit, c, Charge(32, n));
        var items :- LoadItems(src, elem, [], if n < 0 then 0 else n, p2, depth, c2);
        Ok(Loaded(List(elem, items.value), items.pos, items.current))
  }

  /** The list loop: `count` more elements pushed after `acc`. */
  function LoadItems(src: Source, elem: byte, acc: seq<Tag>, count: nat, pos: nat, depth: nat, current: nat)
    : (r: Result<Loaded<seq<Tag>>>)
    requires pos <= |src.data| && depth <= MAX_DEPTH
    requires forall i :: 0 <= i < |acc| ==> Valid(acc[i])
    ensures r.Ok? ==> pos <= r.value.pos <= |src.data| && |r.value.value| == |acc| + count
    ensures r.Ok? ==> forall i :: 0 <= i < |r.value.value| ==> Valid(r.value.value[i])
    decreases Fuel(depth), 0, count
  {
    if count == 0 then Ok(Loaded(acc, pos, current))
    else
      var t :- LoadTag(src, elem, pos, depth + 1, current);
      LoadItems(src, elem, acc + [t.value], count - 1, t.pos, depth, t.current)
  }

  /** The compound case: 384 bits, the depth check, then the entries. */
  function LoadCompound(src: Source, pos: nat, depth: nat, current: nat): (r: Result<Loaded<Tag>>)
    requires pos <= |src.data|
    ensures r.Ok? ==> pos < r.value.pos <= |src.data| && r.value.value.Compound? && Valid(r.value.value)
    decreases Fuel(depth), 1, 0
  {
    var c :- Account(src.limit, current, 384);
    if depth > MAX_DEPTH then Err(Explain(DEPTH_EXCEEDED))
    else
      var es :- LoadEntries(src, [], pos, depth, c);
      Ok(Loaded(Compound(es.value), es.pos, es.current))
  }

  /** The compound loop after the entries `es`: an id, and 0 ends it. */
  function LoadEntries(src: Source, es: seq<Entry>, pos: nat, depth: nat, current: nat)
    : (r: Result<Loaded<seq<Entry>>>)
    requires pos <= |src.data| && depth <= MAX_DEPTH
    requires forall i :: 0 <= i < |es| ==> Valid(es[i].value)
    ensures r.Ok? ==> pos < r.value.pos <= |src.data|
    ensures r.Ok? ==> forall i :: 0 <= i < |r.value.value| ==> Valid(r.value.value[i].value)
    decreases Fuel(depth), 0, |src.data| - pos
  {
    var (id, p1) :- ReadAt(Primitives.U8, src.data, pos);
    if id == 0 then Ok(Loaded(es, p1, current))
    else
      var e :- LoadEntry(src, id, es, p1, depth, current);
      LoadEntries(src, e.value, e.pos, depth, e.current)
  }

  /**
   * One entry after its id: the name and its charge, the tag one level
   * deeper, and `insert`, charging 288 more when the name was already there.
   */
  function LoadEntry(src: Source, id: byte, es: seq<Entry>, pos: nat, depth: nat, current: nat)
    : (r: Result<Loaded<seq<Entry>>>)
    requires pos <= |src.data| && depth <= MAX_DEPTH
    requires forall i :: 0 <= i < |es| ==> Valid(es[i].value)
    ensures r.Ok? ==> pos < r.value.pos <= |src.data|
    ensures r.Ok? ==> forall i :: 0 <= i < |r.value.value| ==> Valid(r.value.value[i].value)
    decreases Fuel(depth), 0, |src.data| - pos
  {
    var (name, p2) :- ReadString(src.decode, src.data, pos);
    var c :- Account(src.limit, current, (224 + Charge(16, Mutf8.Utf8Len(name))) % U64_MOD);
    InsertLoaded(src, id, es, name, p2, depth, c)
  }

  /** The value of an entry named `name`, put into `es`. */
  function InsertLoaded(src: Source, id: byte, es: seq<Entry>, name: string, pos: nat, depth: nat, current: nat)
    : (r: Result<Loaded<seq<Entry>>>)
    requires pos <= |src.data| && depth <= MAX_DEPTH
    requires forall i :: 0 <= i < |es| ==> Valid(es[i].value)
    ensures r.Ok? ==> pos <= r.value.pos <= |src.data|
    ensures r.Ok? ==> forall i :: 0 <= i < |r.value.value| ==> Valid(r.value.value[i].value)
    decreases Fuel(depth), 0, |src.data| - pos
  {
    var t :- LoadTag(src, id, pos, depth + 1, current);
    var (next, had) := Insert(es, name, t.value);
    var c2 :- if had then Account(src.limit, t.current, 288) else Ok(t.current);
    Ok(Loaded(next, t.pos, c2))
  }

  /**
   * `read_nbt`: a 0 byte is no compound; another byte than 10 fails;
   * otherwise the root name is skipped and a compound loaded at depth 0
   * with a fresh accounter.
   */
  function ReadNbt(src: Source, pos: nat): (r: Result<(Option<seq<Entry>>, nat)>)
    requires pos <= |src.data|
  {
    var (b, p1) :- ReadAt(Primitives.U8, src.data, pos);
    if b == 0 then Ok((None, p1))
    else if b != COMPOUND_TAG_BIT as int then Err(Explain(ROOT_NOT_COMPOUND))
    else
      var p2 :- SkipString(src.data, p1);
      var t :- LoadTag(src, COMPOUND_TAG_BIT, p2, 0, 0);
      match t.value
      case Compound(es) => Ok((Some(es), t.pos))
      case _ => Err(Explain(INVALID_ROOT))
  }

  // ---------------------------------------------------------------
  // `CompoundTag`
  // ---------------------------------------------------------------

  /** `CompoundTag`: the map a compound tag holds, built with `put_tag`. */
  class CompoundTag {
    var mappings: seq<Entry>

    /** `CompoundTag::new`. */
    constructor ()
      ensures mappings == []
    {
      mappings := [];
    }

    /** `put_tag`: the name now maps to the tag, every other name as before. */
    method PutTag(location: string, tag: Tag)
      modifies this
      ensures mappings == Insert(old(mappings), location, tag).0
      ensures GetTag(location) == Some(tag)
      ensures forall other :: other != location ==> GetTag(other) == old(GetTag(other))
    {
      InsertGetAll(mappings, location, tag);
      mappings := Insert(mappings, location, tag).0;
    }

    /** `get_tag`. */
    function GetTag(location: string): Option<Tag>
      reads this
    {
      Get(mappings, location)
    }
  }

  /** `InsertGet` for every other name at once. */
  lemma InsertGetAll(es: seq<Entry>, name: string, value: Tag)
    ensures Get(Insert(es, name, value).0, name) == Some(value)
    ensures forall other :: other != name ==> Get(Insert(es, name, value).0, other) == Get(es, other)
  {
    InsertGet(es, name, value, name);
    forall other | other != name
      ensures Get(Insert(es, name, value).0, other) == Get(es, other)
    {
      InsertGet(es, name, value, other);
    }
  }
}
