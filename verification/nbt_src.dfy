/**
 * The NBT codec of the `drax` crate (`src/nbt.rs`): the byte accounter,
 * the `define_tags!` expansion (`get_tag_bit`, `load_tag`, `write_tag`,
 * `size_tag`), the string helpers and `EnsuredCompoundTag`, here as
 * functions of the bytes and the accounter's count. The imperative loader
 * in `NbtSrcMethods` is proved to compute exactly these functions.
 *
 * The compound writer is given twice: `WriteAsWritten` omits the id byte
 * of each entry, as the crate does; `Write` puts it back, which is what
 * the sizer counts and the loader expects, and is the writer the rest of
 * the model uses.
 *
 * Arithmetic follows release builds: `i32` products wrap (`Scaled`), and a
 * negative `i32` turned into a `u64` or `usize` is sign-extended.
 */
module NbtSrc {
  import opened Bytes
  import opened NbtTag
  import opened NbtStream
  import NbtCore
  import Primitives
  import Mutf8
  import Sizes

  const TOO_BIG: string := "Nbt tag too big, read {} bytes of allowed {}."
  const OVERFLOWED: string := "Overflowed bits in accounter."
  const DEPTH_EXCEEDED: string := "NBT tag too complex. Depth surpassed 512."
  const INVALID_BIT: string := "Invalid bit {} found while loading tag."
  const NOT_COMPOUND: string := "Invalid tag bit. Expected compound tag; received {}"
  const CAPACITY_OVERFLOW: string := "capacity overflow"

  // ---------------------------------------------------------------
  // The accounter
  // ---------------------------------------------------------------

  /**
   * `account_bytes`: a limit of 0 accepts everything and counts nothing;
   * otherwise the count after charging `bytes`, refused when the sum
   * leaves `u64` or passes the limit.
   */
  function Account(limit: nat, current: nat, bytes: nat): (r: Result<nat>)
    ensures limit == 0 ==> r == Ok(current)
    ensures limit != 0 ==> (r.Ok? <==> current + bytes < U64_MOD && current + bytes <= limit)
    ensures limit != 0 && r.Ok? ==> r.value == current + bytes
    ensures limit != 0 && current + bytes >= U64_MOD ==> r == Err(Explain(OVERFLOWED))
  {
    if limit == 0 then Ok(current)
    else if current + bytes >= U64_MOD then Err(Explain(OVERFLOWED))
    else if current + bytes > limit then Err(Explain(TOO_BIG))
    else Ok(current + bytes)
  }

  /** `NbtAccounter`: the limit and the bytes charged so far. */
  class NbtAccounter {
    const limit: nat
    var current: nat

    constructor (limit: nat)
      ensures this.limit == limit && current == 0
    {
      this.limit := limit;
      current := 0;
    }

    /** `account_bytes`: a refused charge leaves the count as it was. */
    method AccountBytes(bytes: nat) returns (r: Result<()>)
      modifies this
      ensures var spec := Account(limit, old(current), bytes);
              (r.Ok? <==> spec.Ok?)
              && (spec.Ok? ==> current == spec.value)
              && (spec.Err? ==> r.error == spec.error && current == old(current))
    {
      if limit == 0 {
        return Ok(());
      }
      var next := current + bytes;
      if next >= U64_MOD {
        return Err(Explain(OVERFLOWED));
      }
      if next > limit {
        return Err(Explain(TOO_BIG));
      }
      current := next;
      return Ok(());
    }
  }

  /** `(k * n) as u64` for an `i32` `n`: the product wraps in `i32`, then a negative one is sign-extended. */
  function Scaled(k: nat, n: int): (bytes: nat)
    ensures bytes < U64_MOD
    ensures 0 <= k * n < 0x8000_0000 ==> bytes == k * n
  {
    AsUsize(AsI32(k * n))
  }

  // ---------------------------------------------------------------
  // Strings
  // ---------------------------------------------------------------

  /** `size_string`: the two length bytes and the CESU-8 bytes. */
  function SizeString(s: string): (n: nat)
    ensures n == |NbtCore.WriteString(s)|
  {
    2 + |Mutf8.Encode(s)|
  }

  /**
   * `read_string`: the `u16` length, `read_exact` of that many bytes, the
   * decoder, then a charge of the string's `str::len`.
   */
  function ReadString(src: NbtCore.Source, pos: nat, current: nat): (r: Result<Loaded<string>>)
    requires pos <= |src.data|
    ensures r.Ok? ==> pos + 2 <= r.value.pos <= |src.data|
  {
    var (len, start) :- ReadAt(Primitives.U16, src.data, pos);
    var (bytes, next) :- ReadExact(src.data, start, len);
    match src.decode(bytes)
    case None => Err(Cesu8)
    case Some(s) =>
      var c :- Account(src.limit, current, Mutf8.Utf8Len(s));
      Ok(Loaded(s, next, c))
  }

  // ---------------------------------------------------------------
  // Writing and sizing
  // ---------------------------------------------------------------

  /** `write_tag` as the crate has it: a compound's entries carry no id byte. */
  function WriteAsWritten(t: Tag): seq<byte>
    requires Valid(t)
    decreases t, 1
  {
    match t
    case List(elem, items) => [elem] + NbtCore.LengthPrefix(|items|) + ItemsAsWritten(items)
    case Compound(es) => EntriesAsWritten(es)
    case _ => WriteLeaf(t)
  }

  function ItemsAsWritten(items: seq<Tag>): seq<byte>
    requires forall i :: 0 <= i < |items| ==> Valid(items[i])
    decreases items, 0
  {
    if |items| == 0 then [] else WriteAsWritten(items[0]) + ItemsAsWritten(items[1..])
  }

  /** The compound writer as the crate has it: name and payload per entry, then 0. */
  function EntriesAsWritten(es: seq<Entry>): seq<byte>
    requires forall i :: 0 <= i < |es| ==> Valid(es[i].value)
    decreases es, 0
  {
    if |es| == 0 then [0]
    else NbtCore.WriteString(es[0].name) + WriteAsWritten(es[0].value) + EntriesAsWritten(es[1..])
  }

  /** `write_tag` with each compound entry led by its id, as `load_tag` reads it. */
  function Write(t: Tag): seq<byte>
    requires Valid(t)
    decreases t, 1
  {
    match t
    case List(elem, items) => [elem] + NbtCore.LengthPrefix(|items|) + WriteItems(items)
    case Compound(es) => WriteEntries(es)
    case _ => WriteLeaf(t)
  }

  function WriteItems(items: seq<Tag>): seq<byte>
    requires forall i :: 0 <= i < |items| ==> Valid(items[i])
    decreases items, 0
  {
    if |items| == 0 then [] else Write(items[0]) + WriteItems(items[1..])
  }

  /** The compound writer: id, name and payload per entry, then 0. */
  function WriteEntries(es: seq<Entry>): seq<byte>
    requires forall i :: 0 <= i < |es| ==> Valid(es[i].value)
    decreases es, 0
  {
    if |es| == 0 then [0]
    else [Id(es[0].value)] + NbtCore.WriteString(es[0].name) + Write(es[0].value) + WriteEntries(es[1..])
  }

  /** The payload of a tag that holds no other tag. */
  function WriteLeaf(t: Tag): seq<byte>
    requires Valid(t) && !t.List? && !t.Compound?
  {
    match t
    case End => []
    case ByteArray(bytes) => NbtCore.LengthPrefix(|bytes|) + bytes
    case Str(s) => NbtCore.WriteString(s)
    case IntArray(xs) => NbtCore.LengthPrefix(|xs|) + NbtCore.WriteValues(Primitives.I32, xs)
    case LongArray(xs) => NbtCore.LengthPrefix(|xs|) + NbtCore.WriteValues(Primitives.I64, xs)
    case Byte(_) => NbtCore.WriteScalar(t)
    case Short(_) => NbtCore.WriteScalar(t)
    case Int(_) => NbtCore.WriteScalar(t)
    case Long(_) => NbtCore.WriteScalar(t)
    case Float(_) => NbtCore.WriteScalar(t)
    case Double(_) => NbtCore.WriteScalar(t)
  }

  /** `size_tag`. */
  function SizeTag(t: Tag): nat
    decreases t, 1
  {
    match t
    case End => 0
    case Byte(_) => 1
    case Short(_) => 2
    case Int(_) => 4
    case Long(_) => 8
    case Float(_) => 4
    case Double(_) => 8
    case ByteArray(bytes) => 4 + |bytes|
    case Str(s) => SizeString(s)
    case List(_, items) => 5 + SizeItems(items)
    case Compound(es) => SizeEntries(es)
    case IntArray(xs) => 4 + 4 * |xs|
    case LongArray(xs) => 4 + 8 * |xs|
  }

  /** The sum the list sizer's loop adds up. */
  function SizeItems(items: seq<Tag>): nat
    decreases items, 0
  {
    if |items| == 0 then 0 else SizeTag(items[0]) + SizeItems(items[1..])
  }

  /** The compound sizer: a name, an id byte and a payload per entry, then 1 for the end. */
  function SizeEntries(es: seq<Entry>): nat
    decreases es, 0
  {
    if |es| == 0 then 1
    else SizeString(es[0].name) + 1 + SizeTag(es[0].value) + SizeEntries(es[1..])
  }

  // ---------------------------------------------------------------
  // Loading
  // ---------------------------------------------------------------

  /** The bytes a scalar costs. */
  function ScalarCharge(id: byte): nat
    requires 1 <= id <= 6
  {
    match id
    case 1 => 9
    case 2 => 10
    case 3 => 12
    case 4 => 16
    case 5 => 12
    case _ => 16
  }

  /** 4 bytes per element of an int array, 8 per element of a long array. */
  function ArrayCharge(id: byte, n: int): nat
  {
    if id == 11 then Scaled(4, n) else Scaled(8, n)
  }

  /** `load_tag(read, bit, depth, accounter)`. */
  function LoadTag(src: NbtCore.Source, id: byte, pos: nat, depth: nat, current: nat): (r: Result<Loaded<Tag>>)
    requires pos <= |src.data|
    ensures r.Ok? ==> pos <= r.value.pos <= |src.data| && Id(r.value.value) == id && Valid(r.value.value)
    decreases NbtCore.Fuel(depth), 2, 0
  {
    if id == 9 then LoadList(src, pos, depth, current)
    else if id == 10 then LoadCompound(src, pos, depth, current)
    else LoadLeaf(src, id, pos, current)
  }

  /** The cases of `load_tag` that hold no other tag; a bit above 12 is refused before anything is charged or read. */
  function LoadLeaf(src: NbtCore.Source, id: byte, pos: nat, current: nat): (r: Result<Loaded<Tag>>)
    requires pos <= |src.data| && id != 9 && id != 10
    ensures r.Ok? ==> pos <= r.value.pos <= |src.data| && Id(r.value.value) == id && Valid(r.value.value)
    ensures id > 12 ==> r == Err(Explain(INVALID_BIT))
  {
    if id == 0 then
      var c :- Account(src.limit, current, 8);
      Ok(Loaded(End, pos, c))
    else if id <= 6 then LoadScalar(src, id, pos, current)
    else if id == 7 then LoadByteArray(src, pos, current)
    else if id == 8 then LoadString(src, pos, current)
    else if id == 11 || id == 12 then LoadArray(src, id, pos, current)
    else Err(Explain(INVALID_BIT))
  }

  /** Bits 1 to 6: the charge, then the big-endian value. */
  function LoadScalar(src: NbtCore.Source, id: byte, pos: nat, current: nat): (r: Result<Loaded<Tag>>)
    requires pos <= |src.data| && 1 <= id <= 6
    ensures r.Ok? ==> pos <= r.value.pos <= |src.data| && Id(r.value.value) == id && Valid(r.value.value)
  {
    var c :- Account(src.limit, current, ScalarCharge(id));
    var (v, next) :- ReadAt(NbtCore.ScalarType(id), src.data, pos);
    Ok(Loaded(NbtCore.MakeScalar(id, v), next, c))
  }

  /**
   * Bit 7: 24 bytes, the `i32` length and as many bytes again, the
   * zeroed buffer (which cannot be allocated for a negative length), then
   * `read_exact`.
   */
  function LoadByteArray(src: NbtCore.Source, pos: nat, current: nat): (r: Result<Loaded<Tag>>)
    requires pos <= |src.data|
    ensures r.Ok? ==> pos <= r.value.pos <= |src.data| && r.value.value.ByteArray?
  {
    var c :- Account(src.limit, current, 24);
    var (n, start) :- ReadAt(Primitives.I32, src.data, pos);
    var c2 :- Account(src.limit, c, AsUsize(n));
    if n < 0 then Err(Panic(CAPACITY_OVERFLOW))
    else
      var (bytes, next) :- ReadExact(src.data, start, n);
      Ok(Loaded(ByteArray(bytes), next, c2))
  }

  /** Bit 8: 36 bytes, then the string with its own charge. */
  function LoadString(src: NbtCore.Source, pos: nat, current: nat): (r: Result<Loaded<Tag>>)
    requires pos <= |src.data|
    ensures r.Ok? ==> pos <= r.value.pos <= |src.data| && r.value.value.Str?
  {
    var c :- Account(src.limit, current, 36);
    var s :- ReadString(src, pos, c);
    Ok(Loaded(Str(s.value), s.pos, s.current))
  }

  /**
   * Bits 11 and 12: 24 bytes, the `i32` length, 4 or 8 bytes per element,
   * `vec![0; len]` (a panic for a negative length), then `len` values
   * pushed after the zeros.
   */
  function LoadArray(src: NbtCore.Source, id: byte, pos: nat, current: nat): (r: Result<Loaded<Tag>>)
    requires pos <= |src.data| && (id == 11 || id == 12)
    ensures r.Ok? ==> pos <= r.value.pos <= |src.data| && Id(r.value.value) == id && Valid(r.value.value)
  {
    var c :- Account(src.limit, current, 24);
    var (n, start) :- ReadAt(Primitives.I32, src.data, pos);
    var c2 :- Account(src.limit, c, ArrayCharge(id, n));
    if n < 0 then Err(Panic(CAPACITY_OVERFLOW))
    else NbtCore.ArrayValues(src.data, id, n, start, c2)
  }

  /**
   * The list case: 37 bytes; the depth check; the element bit and the
   * `i32` length; 4 bytes per element; `Vec::with_capacity` (a panic for
   * a negative length); then the elements one level deeper. An element
   * bit of 0 is not refused.
   */
  function LoadList(src: NbtCore.Source, pos: nat, depth: nat, current: nat): (r: Result<Loaded<Tag>>)
    requires pos <= |src.data|
    ensures r.Ok? ==> pos <= r.value.pos <= |src.data| && r.value.value.List? && Valid(r.value.value)
    decreases NbtCore.Fuel(depth), 1, 0
  {
    var c :- Account(src.limit, current, 37);
    if depth > NbtCore.MAX_DEPTH then Err(Explain(DEPTH_EXCEEDED))
    else
      var (elem, p1) :- ReadAt(Primitives.U8, src.data, pos);
      var (n, p2) :- ReadAt(Primitives.I32, src.data, p1);
      var c2 :- Account(src.limit, c, Scaled(4, n));
      if n < 0 then Err(Panic(CAPACITY_OVERFLOW))
      else
        var items :- LoadItems(src, elem, [], n, p2, depth, c2);
        Ok(Loaded(List(elem, items.value), items.pos, items.current))
  }

  /** The list loop: `count` more elements pushed after `acc`. */
  function LoadItems(src: NbtCore.Source, elem: byte, acc: seq<Tag>, count: nat, pos: nat, depth: nat, current: nat)
    : (r: Result<Loaded<seq<Tag>>>)
    requires pos <= |src.data| && depth <= NbtCore.MAX_DEPTH
    requires forall i :: 0 <= i < |acc| ==> Valid(acc[i])
    ensures r.Ok? ==> pos <= r.value.pos <= |src.data| && |r.value.value| == |acc| + count
    ensures r.Ok? ==> forall i :: 0 <= i < |r.value.value| ==> Valid(r.value.value[i])
    decreases NbtCore.Fuel(depth), 0, count
  {
    if count == 0 then Ok(Loaded(acc, pos, current))
    else
      var t :- LoadTag(src, elem, pos, depth + 1, current);
      LoadItems(src, elem, acc + [t.value], count - 1, t.pos, depth, t.current)
  }

  /** The compound case: 48 bytes, the depth check, then the entries. */
  function LoadCompound(src: NbtCore.Source, pos: nat, depth: nat, current: nat): (r: Result<Loaded<Tag>>)
    requires pos <= |src.data|
    ensures r.Ok? ==> pos < r.value.pos <= |src.data| && r.value.value.Compound? && Valid(r.value.value)
    decreases NbtCore.Fuel(depth), 1, 0
  {
    var c :- Account(src.limit, current, 48);
    if depth > NbtCore.MAX_DEPTH then Err(Explain(DEPTH_EXCEEDED))
    else
      var es :- LoadEntries(src, [], pos, depth, c);
      Ok(Loaded(Compound(es.value), es.pos, es.current))
  }

  /** The compound loop after the entries `es`: a bit, and 0 ends it. */
  function LoadEntries(src: NbtCore.Source, es: seq<Entry>, pos: nat, depth: nat, current: nat)
    : (r: Result<Loaded<seq<Entry>>>)
    requires pos <= |src.data| && depth <= NbtCore.MAX_DEPTH
    requires forall i :: 0 <= i < |es| ==> Valid(es[i].value)
    ensures r.Ok? ==> pos < r.value.pos <= |src.data|
    ensures r.Ok? ==> forall i :: 0 <= i < |r.value.value| ==> Valid(r.value.value[i].value)
    decreases NbtCore.Fuel(depth), 0, |src.data| - pos
  {
    var (id, p1) :- ReadAt(Primitives.U8, src.data, pos);
    if id == 0 then Ok(Loaded(es, p1, current))
    else
      var e :- LoadEntry(src, id, es, p1, depth, current);
      LoadEntries(src, e.value, e.pos, depth, e.current)
  }

  /** One entry after its bit: 28 bytes, the name, then the value. */
  function LoadEntry(src: NbtCore.Source, id: byte, es: seq<Entry>, pos: nat, depth: nat, current: nat)
    : (r: Result<Loaded<seq<Entry>>>)
    requires pos <= |src.data| && depth <= NbtCore.MAX_DEPTH
    requires forall i :: 0 <= i < |es| ==> Valid(es[i].value)
    ensures r.Ok? ==> pos < r.value.pos <= |src.data|
    ensures r.Ok? ==> forall i :: 0 <= i < |r.value.value| ==> Valid(r.value.value[i].value)
    decreases NbtCore.Fuel(depth), 0, |src.data| - pos
  {
    var c :- Account(src.limit, current, 28);
    var name :- ReadString(src, pos, c);
    InsertLoaded(src, id, es, name.value, name.pos, depth, name.current)
  }

  /**
   * The value of an entry named `name`, one level deeper, put into `es`:
   * a name seen before takes the new value and costs nothing more, a new
   * one is added and costs 36 bytes.
   */
  function InsertLoaded(src: NbtCore.Source, id: byte, es: seq<Entry>, name: string, pos: nat, depth: nat, current: nat)
    : (r: Result<Loaded<seq<Entry>>>)
    requires pos <= |src.data| && depth <= NbtCore.MAX_DEPTH
    requires forall i :: 0 <= i < |es| ==> Valid(es[i].value)
    ensures r.Ok? ==> pos <= r.value.pos <= |src.data|
    ensures r.Ok? ==> forall i :: 0 <= i < |r.value.value| ==> Valid(r.value.value[i].value)
    decreases NbtCore.Fuel(depth), 0, |src.data| - pos
  {
    var t :- LoadTag(src, id, pos, depth + 1, current);
    var (next, had) := Insert(es, name, t.value);
    var c2 :- if had then Ok(t.current) else Account(src.limit, t.current, 36);
    Ok(Loaded(next, t.pos, c2))
  }

  // ---------------------------------------------------------------
  // `EnsuredCompoundTag`
  // ---------------------------------------------------------------

  /** A packet field holding a root compound, or nothing. */
  datatype EnsuredCompoundTag = Tagged(tag: Tag) | NoTag

  /**
   * `decode`: a 0 byte is `NoTag`; a byte other than 10 fails; otherwise
   * the root name is read and charged with an accounter of limit `limit`
   * starting at 0, then a compound is loaded at depth 0.
   */
  function Decode(data: seq<byte>, limit: nat, decode: seq<byte> -> Option<string>, pos: nat)
    : (r: Result<(EnsuredCompoundTag, nat)>)
    requires pos <= |data|
    ensures r.Ok? ==> pos < r.value.1 <= |data|
    ensures r.Ok? && r.value.0.Tagged? ==> r.value.0.tag.Compound? && Valid(r.value.0.tag)
  {
    var src := NbtCore.Source(data, limit, decode);
    var (b, p1) :- ReadAt(Primitives.U8, data, pos);
    if b == 0 then Ok((NoTag, p1))
    else if b != COMPOUND_TAG_BIT as int then Err(Explain(NOT_COMPOUND))
    else
      var name :- ReadString(src, p1, 0);
      var t :- LoadTag(src, COMPOUND_TAG_BIT, name.pos, 0, name.current);
      Ok((Tagged(t.value), t.pos))
  }

  /** `encode`: bit 10, an empty name and the tag; or a single 0. */
  function Encode(e: EnsuredCompoundTag): (out: seq<byte>)
    requires e.Tagged? ==> Valid(e.tag)
    ensures |out| > 0 && (out[0] == 0 <==> e.NoTag?)
  {
    match e
    case Tagged(t) => [COMPOUND_TAG_BIT] + NbtCore.WriteString("") + Write(t)
    case NoTag => [0]
  }

  /** `size`: 3 bytes and the tag's size, dynamic; `NoTag` is the constant 1. */
  function Size(e: EnsuredCompoundTag): (r: Sizes.Size)
    ensures e.NoTag? <==> r.Constant?
  {
    match e
    case Tagged(t) => Sizes.AddCount(Sizes.Dynamic(3), SizeTag(t))
    case NoTag => Sizes.Constant(1)
  }
}
