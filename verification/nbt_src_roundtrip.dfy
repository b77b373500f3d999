/**
 * The round trip of the `drax` NBT codec: a tree written with each
 * compound entry led by its id (`NbtSrc.Write`) loads back through
 * `load_tag`, and an `EnsuredCompoundTag` decodes back from its encoding.
 *
 * The accounter is general: a limit of 0 counts nothing, any other limit
 * must hold the whole charge (`Spent`, `Within`).
 */
module NbtSrcRoundTrip {
  import opened Bytes
  import opened NbtTag
  import opened NbtStream
  import opened NbtSrc
  import NbtCore
  import NbtCoreLaws
  import Primitives
  import Mutf8
  import NbtSrcSizes

  // ---------------------------------------------------------------
  // Charges
  // ---------------------------------------------------------------

  /** The count after charging `cost`: unchanged under the limit 0. */
  function Spent(limit: nat, current: nat, cost: nat): nat
  {
    if limit == 0 then current else current + cost
  }

  /** `count` passes a limit of 0, or any limit it stays under. */
  predicate Within(limit: nat, count: nat)
  {
    limit == 0 || count <= limit < U64_MOD
  }

  /**
   * A charge of `a + b` that fits: charging `a` first succeeds, reaching
   * `mid`, which fits too, and `b` more from there reaches the same count.
   */
  lemma Split(limit: nat, current: nat, a: nat, b: nat, spent: nat) returns (mid: nat)
    requires spent == Spent(limit, current, a + b) && Within(limit, spent)
    ensures mid == Spent(limit, current, a) && Within(limit, mid)
    ensures Account(limit, current, a) == Ok(mid) && spent == Spent(limit, mid, b)
  {
    mid := Spent(limit, current, a);
  }

  /** A charge that fits succeeds. */
  lemma Charged(limit: nat, current: nat, a: nat, spent: nat)
    requires spent == Spent(limit, current, a) && Within(limit, spent)
    ensures Account(limit, current, a) == Ok(spent)
  {
  }

  /**
   * The bytes the loader charges for `t`, when no name repeats: its
   * fixed charge, its length charges (`i32` products, wrapping) and the
   * `str::len` of its strings and names.
   */
  function Cost(t: Tag): nat
    decreases t, 1
  {
    match t
    case End => 8
    case Byte(_) => 9
    case Short(_) => 10
    case Int(_) => 12
    case Long(_) => 16
    case Float(_) => 12
    case Double(_) => 16
    case ByteArray(bytes) => 24 + |bytes|
    case Str(s) => 36 + Mutf8.Utf8Len(s)
    case List(_, items) => 37 + Scaled(4, |items|) + CostItems(items)
    case Compound(es) => 48 + CostEntries(es)
    case IntArray(xs) => 24 + ArrayCharge(11, |xs|)
    case LongArray(xs) => 24 + ArrayCharge(12, |xs|)
  }

  function CostItems(items: seq<Tag>): nat
    decreases items, 0
  {
    if |items| == 0 then 0 else Cost(items[0]) + CostItems(items[1..])
  }

  /** Per entry: 28 bytes, the name's `str::len`, the value, and 36 for a new name. */
  function CostEntries(es: seq<Entry>): nat
    decreases es, 0
  {
    if |es| == 0 then 0
    else 28 + Mutf8.Utf8Len(es[0].name) + Cost(es[0].value) + 36 + CostEntries(es[1..])
  }

  // ---------------------------------------------------------------
  // Trees that load back
  // ---------------------------------------------------------------

  /**
   * A string `write_string` and `read_string` carry through: no NUL and
   * no supplementary character (so that `str::len` is the CESU-8 length
   * the `u16` prefix must give), short enough, and decoded back.
   */
  predicate Readable(decode: seq<byte> -> Option<string>, s: string)
  {
    Mutf8.Plain(s) && Mutf8.Utf8Len(s) < 0x1_0000 && Mutf8.Inverts(decode, s)
  }

  /**
   * A tree the loader reads back from what `Write` wrote, at `depth`:
   * lengths that fit an `i32`, readable strings and names, lists whose
   * elements carry their declared bit (`EndTag`s included), compounds
   * with distinct names and no `EndTag` value, and no list or compound
   * deeper than 512.
   */
  predicate WellFormed(t: Tag, depth: nat, decode: seq<byte> -> Option<string>)
    decreases t, 1
  {
    match t
    case ByteArray(bytes) => |bytes| < 0x8000_0000
    case Str(s) => Readable(decode, s)
    case List(elem, items) =>
      depth <= NbtCore.MAX_DEPTH && |items| < 0x8000_0000 && ItemsWellFormed(elem, items, depth + 1, decode)
    case Compound(es) =>
      depth <= NbtCore.MAX_DEPTH && DistinctNames(es) && EntriesWellFormed(es, depth + 1, decode)
    case IntArray(xs) => |xs| < 0x8000_0000
    case LongArray(xs) => |xs| < 0x8000_0000
    case _ => true
  }

  predicate ItemsWellFormed(elem: byte, items: seq<Tag>, depth: nat, decode: seq<byte> -> Option<string>)
    decreases items, 0
  {
    |items| == 0
    || (Id(items[0]) == elem && WellFormed(items[0], depth, decode) && ItemsWellFormed(elem, items[1..], depth, decode))
  }

  predicate EntriesWellFormed(es: seq<Entry>, depth: nat, decode: seq<byte> -> Option<string>)
    decreases es, 0
  {
    |es| == 0
    || (Id(es[0].value) != 0 && Readable(decode, es[0].name) && WellFormed(es[0].value, depth, decode)
        && EntriesWellFormed(es[1..], depth, decode))
  }

  // ---------------------------------------------------------------
  // One step of the loader each
  // ---------------------------------------------------------------

  /** `load_tag` hands each bit to its case. */
  lemma TagStep(src: NbtCore.Source, id: byte, pos: nat, depth: nat, current: nat)
    requires pos <= |src.data|
    ensures id == 9 ==> LoadTag(src, id, pos, depth, current) == LoadList(src, pos, depth, current)
    ensures id == 10 ==> LoadTag(src, id, pos, depth, current) == LoadCompound(src, pos, depth, current)
    ensures id != 9 && id != 10 ==> LoadTag(src, id, pos, depth, current) == LoadLeaf(src, id, pos, current)
  {
  }

  lemma EndStep(src: NbtCore.Source, pos: nat, current: nat, c: nat)
    requires pos <= |src.data| && Account(src.limit, current, 8) == Ok(c)
    ensures LoadLeaf(src, 0, pos, current) == Ok(Loaded(End, pos, c))
  {
  }

  lemma ScalarStep(src: NbtCore.Source, id: byte, pos: nat, current: nat, v: int, next: nat, c: nat)
    requires pos <= |src.data| && 1 <= id <= 6
    requires Account(src.limit, current, ScalarCharge(id)) == Ok(c)
    requires ReadAt(NbtCore.ScalarType(id), src.data, pos) == Ok((v, next))
    ensures LoadLeaf(src, id, pos, current) == Ok(Loaded(NbtCore.MakeScalar(id, v), next, c))
  {
  }

  lemma ByteArrayStep(src: NbtCore.Source, pos: nat, current: nat, c1: nat, n: nat, start: nat, c2: nat,
                      bytes: seq<byte>, end: nat)
    requires pos <= |src.data|
    requires Account(src.limit, current, 24) == Ok(c1)
    requires ReadAt(Primitives.I32, src.data, pos) == Ok((n, start))
    requires Account(src.limit, c1, n) == Ok(c2)
    requires ReadExact(src.data, start, n) == Ok((bytes, end))
    ensures LoadLeaf(src, 7, pos, current) == Ok(Loaded(ByteArray(bytes), end, c2))
  {
    assert AsUsize(n) == n;
  }

  lemma StringStep(src: NbtCore.Source, pos: nat, current: nat, c1: nat, s: string, end: nat, c2: nat)
    requires pos <= |src.data|
    requires Account(src.limit, current, 36) == Ok(c1)
    requires ReadString(src, pos, c1) == Ok(Loaded(s, end, c2))
    ensures LoadLeaf(src, 8, pos, current) == Ok(Loaded(Str(s), end, c2))
  {
  }

  /** The pieces of `read_string` in order: the length, the bytes, the decoder and the charge. */
  lemma StringBodyStep(src: NbtCore.Source, pos: nat, current: nat, len: nat, start: nat, bytes: seq<byte>,
                       end: nat, s: string, c: nat)
    requires pos <= |src.data|
    requires ReadAt(Primitives.U16, src.data, pos) == Ok((len, start))
    requires start <= |src.data| && ReadExact(src.data, start, len) == Ok((bytes, end))
    requires src.decode(bytes) == Some(s)
    requires Account(src.limit, current, Mutf8.Utf8Len(s)) == Ok(c)
    ensures ReadString(src, pos, current) == Ok(Loaded(s, end, c))
  {
  }

  lemma ArrayStep(src: NbtCore.Source, id: byte, pos: nat, current: nat, c1: nat, n: nat, start: nat, c2: nat,
                  r: Result<Loaded<Tag>>)
    requires pos <= |src.data| && (id == 11 || id == 12)
    requires Account(src.limit, current, 24) == Ok(c1)
    requires ReadAt(Primitives.I32, src.data, pos) == Ok((n, start))
    requires Account(src.limit, c1, ArrayCharge(id, n)) == Ok(c2)
    requires start <= |src.data| && NbtCore.ArrayValues(src.data, id, n, start, c2) == r
    ensures LoadLeaf(src, id, pos, current) == r
  {
  }

  /** Past its header, a list is what the element loop makes of it. */
  lemma ListHeadStep(src: NbtCore.Source, pos: nat, depth: nat, current: nat, elem: byte, n: nat, p1: nat, p2: nat,
                     c1: nat, c2: nat)
    requires pos <= |src.data| && depth <= NbtCore.MAX_DEPTH
    requires Account(src.limit, current, 37) == Ok(c1)
    requires ReadAt(Primitives.U8, src.data, pos) == Ok((elem, p1))
    requires p1 <= |src.data| && ReadAt(Primitives.I32, src.data, p1) == Ok((n, p2))
    requires Account(src.limit, c1, Scaled(4, n)) == Ok(c2)
    ensures p2 <= |src.data|
    ensures LoadList(src, pos, depth, current) == NbtCoreLaws.ListOf(elem, LoadItems(src, elem, [], n, p2, depth, c2))
  {
  }

  lemma ItemsEndStep(src: NbtCore.Source, elem: byte, acc: seq<Tag>, pos: nat, depth: nat, current: nat)
    requires pos <= |src.data| && depth <= NbtCore.MAX_DEPTH
    requires forall i :: 0 <= i < |acc| ==> Valid(acc[i])
    ensures LoadItems(src, elem, acc, 0, pos, depth, current) == Ok(Loaded(acc, pos, current))
  {
  }

  lemma ItemsStep(src: NbtCore.Source, elem: byte, acc: seq<Tag>, count: nat, pos: nat, depth: nat, current: nat,
                  v: Tag, next: nat, c: nat)
    requires pos <= |src.data| && depth <= NbtCore.MAX_DEPTH && count > 0
    requires forall i :: 0 <= i < |acc| ==> Valid(acc[i])
    requires LoadTag(src, elem, pos, depth + 1, current) == Ok(Loaded(v, next, c))
    ensures next <= |src.data| && Valid(v)
    ensures LoadItems(src, elem, acc, count, pos, depth, current)
            == LoadItems(src, elem, acc + [v], count - 1, next, depth, c)
  {
  }

  /** Past its charge, a compound is what the entry loop makes of it. */
  lemma CompoundHeadStep(src: NbtCore.Source, pos: nat, depth: nat, current: nat, c1: nat)
    requires pos <= |src.data| && depth <= NbtCore.MAX_DEPTH
    requires Account(src.limit, current, 48) == Ok(c1)
    ensures LoadCompound(src, pos, depth, current) == NbtCoreLaws.CompoundOf(LoadEntries(src, [], pos, depth, c1))
  {
  }

  lemma EntriesEndStep(src: NbtCore.Source, acc: seq<Entry>, pos: nat, depth: nat, current: nat, end: nat)
    requires pos <= |src.data| && depth <= NbtCore.MAX_DEPTH
    requires forall i :: 0 <= i < |acc| ==> Valid(acc[i].value)
    requires ReadAt(Primitives.U8, src.data, pos) == Ok((0, end))
    ensures LoadEntries(src, acc, pos, depth, current) == Ok(Loaded(acc, end, current))
  {
  }

  lemma EntriesStep(src: NbtCore.Source, es: seq<Entry>, pos: nat, depth: nat, current: nat, id: byte, p1: nat,
                    next: seq<Entry>, q: nat, c: nat)
    requires pos <= |src.data| && depth <= NbtCore.MAX_DEPTH
    requires forall i :: 0 <= i < |es| ==> Valid(es[i].value)
    requires ReadAt(Primitives.U8, src.data, pos) == Ok((id, p1)) && id != 0
    requires p1 <= |src.data| && LoadEntry(src, id, es, p1, depth, current) == Ok(Loaded(next, q, c))
    ensures q <= |src.data| && forall i :: 0 <= i < |next| ==> Valid(next[i].value)
    ensures LoadEntries(src, es, pos, depth, current) == LoadEntries(src, next, q, depth, c)
  {
  }

  lemma EntryStep(src: NbtCore.Source, id: byte, es: seq<Entry>, pos: nat, depth: nat, current: nat,
                  c1: nat, name: string, p2: nat, c2: nat)
    requires pos <= |src.data| && depth <= NbtCore.MAX_DEPTH
    requires forall i :: 0 <= i < |es| ==> Valid(es[i].value)
    requires Account(src.limit, current, 28) == Ok(c1)
    requires ReadString(src, pos, c1) == Ok(Loaded(name, p2, c2))
    ensures p2 <= |src.data|
    ensures LoadEntry(src, id, es, pos, depth, current) == InsertLoaded(src, id, es, name, p2, depth, c2)
  {
  }

  /** A value under a new name is appended and charged 36 bytes. */
  lemma InsertNewStep(src: NbtCore.Source, id: byte, es: seq<Entry>, name: string, pos: nat, depth: nat,
                      current: nat, v: Tag, next: nat, c: nat, c3: nat)
    requires pos <= |src.data| && depth <= NbtCore.MAX_DEPTH
    requires forall i :: 0 <= i < |es| ==> Valid(es[i].value)
    requires forall i :: 0 <= i < |es| ==> es[i].name != name
    requires LoadTag(src, id, pos, depth + 1, current) == Ok(Loaded(v, next, c))
    requires Account(src.limit, c, 36) == Ok(c3)
    ensures InsertLoaded(src, id, es, name, pos, depth, current) == Ok(Loaded(es + [Entry(name, v)], next, c3))
  {
    FindAbsent(es, name);
  }

  // ---------------------------------------------------------------
  // The round trip, case by case
  // ---------------------------------------------------------------

  /** A string written at `pos` is read back there, ending at `end`, and charged its `str::len`. */
  lemma ReadStringWritten(src: NbtCore.Source, pos: nat, current: nat, s: string, end: nat, c: nat)
    requires Readable(src.decode, s) && NbtCoreLaws.At(src.data, pos, NbtCore.WriteString(s))
    requires end == pos + |NbtCore.WriteString(s)|
    requires c == Spent(src.limit, current, Mutf8.Utf8Len(s)) && Within(src.limit, c)
    ensures ReadString(src, pos, current) == Ok(Loaded(s, end, c))
  {
    var w := Mutf8.Encode(s);
    Mutf8.EncodeLength(s);
    var len := Mutf8.Utf8Len(s) % 0x1_0000;
    assert len == |w|;
    var start := pos + 2;
    NbtCoreLaws.AtSplit(src.data, pos, Primitives.Write(Primitives.U16, len), w, start);
    NbtCoreLaws.ReadAtWritten(Primitives.U16, len, src.data, pos, start);
    assert ReadExact(src.data, start, len) == Ok((w, end));
    Charged(src.limit, current, Mutf8.Utf8Len(s), c);
    StringBodyStep(src, pos, current, len, start, w, end, s, c);
  }

  /**
   * The round trip of `write_tag` (with entry ids) and `load_tag`: a
   * well-formed tree written at `pos` loads back as `Reloaded(t)` (the
   * same tree, int and long arrays after as many zeros), ending at
   * `next`, right after the bytes written, with `Cost(t)` charged.
   */
  lemma {:induction false} LoadWritten(src: NbtCore.Source, t: Tag, pos: nat, depth: nat, current: nat,
                                       next: nat, spent: nat)
    requires Valid(t) && WellFormed(t, depth, src.decode)
    requires NbtCoreLaws.At(src.data, pos, Write(t))
    requires next == pos + |Write(t)| && spent == Spent(src.limit, current, Cost(t)) && Within(src.limit, spent)
    ensures LoadTag(src, Id(t), pos, depth, current) == Ok(Loaded(NbtCoreLaws.Reloaded(t), next, spent))
    decreases t, 2
  {
    match t {
      case List(_, _) => LoadListWritten(src, t, pos, depth, current, next, spent);
      case Compound(_) => LoadCompoundWritten(src, t, pos, depth, current, next, spent);
      case _ => LoadLeafWritten(src, t, pos, current, next, spent);
    }
    TagStep(src, Id(t), pos, depth, current);
  }

  lemma LoadLeafWritten(src: NbtCore.Source, t: Tag, pos: nat, current: nat, next: nat, spent: nat)
    requires !t.List? && !t.Compound?
    requires Valid(t) && WellFormed(t, 0, src.decode)
    requires NbtCoreLaws.At(src.data, pos, Write(t))
    requires next == pos + |Write(t)| && spent == Spent(src.limit, current, Cost(t)) && Within(src.limit, spent)
    ensures LoadLeaf(src, Id(t), pos, current) == Ok(Loaded(NbtCoreLaws.Reloaded(t), next, spent))
  {
    match t
    case End =>
      Charged(src.limit, current, 8, spent);
      EndStep(src, pos, current, spent);
    case ByteArray(bytes) => LoadByteArrayWritten(src, t, bytes, pos, current, next, spent);
    case Str(s) => LoadStringWritten(src, t, s, pos, current, next, spent);
    case IntArray(xs) => LoadArrayWritten(src, t, 11, xs, pos, current, next, spent);
    case LongArray(xs) => LoadArrayWritten(src, t, 12, xs, pos, current, next, spent);
    case _ => LoadScalarWritten(src, t, pos, current, next, spent);
  }

  /** A scalar of the type `id` names: its bytes and charge. */
  lemma ScalarWritten(src: NbtCore.Source, t: Tag, id: byte, v: int, pos: nat, current: nat, next: nat, spent: nat)
    requires 1 <= id <= 6 && Primitives.InRange(NbtCore.ScalarType(id), v) && t == NbtCore.MakeScalar(id, v)
    requires NbtCoreLaws.At(src.data, pos, Primitives.Write(NbtCore.ScalarType(id), v))
    requires next == pos + NbtCore.ScalarType(id).ByteCount()
    requires spent == Spent(src.limit, current, ScalarCharge(id)) && Within(src.limit, spent)
    ensures LoadLeaf(src, id, pos, current) == Ok(Loaded(t, next, spent))
  {
    NbtCoreLaws.ReadAtWritten(NbtCore.ScalarType(id), v, src.data, pos, next);
    Charged(src.limit, current, ScalarCharge(id), spent);
    ScalarStep(src, id, pos, current, v, next, spent);
  }

  lemma LoadScalarWritten(src: NbtCore.Source, t: Tag, pos: nat, current: nat, next: nat, spent: nat)
    requires NbtCore.IsScalar(t) && Valid(t)
    requires NbtCoreLaws.At(src.data, pos, Write(t))
    requires next == pos + |Write(t)| && spent == Spent(src.limit, current, Cost(t)) && Within(src.limit, spent)
    ensures LoadLeaf(src, Id(t), pos, current) == Ok(Loaded(NbtCoreLaws.Reloaded(t), next, spent))
  {
    match t
    case Byte(b) => ScalarWritten(src, t, 1, b, pos, current, next, spent);
    case Short(bits) => ScalarWritten(src, t, 2, bits, pos, current, next, spent);
    case Int(i) => ScalarWritten(src, t, 3, i, pos, current, next, spent);
    case Long(l) => ScalarWritten(src, t, 4, l, pos, current, next, spent);
    case Float(bits) => ScalarWritten(src, t, 5, bits, pos, current, next, spent);
    case Double(bits) => ScalarWritten(src, t, 6, bits, pos, current, next, spent);
  }

  lemma LoadByteArrayWritten(src: NbtCore.Source, t: Tag, bytes: seq<byte>, pos: nat, current: nat, next: nat,
                             spent: nat)
    requires t == ByteArray(bytes) && |bytes| < 0x8000_0000
    requires NbtCoreLaws.At(src.data, pos, Write(t))
    requires next == pos + |Write(t)| && spent == Spent(src.limit, current, Cost(t)) && Within(src.limit, spent)
    ensures LoadLeaf(src, Id(t), pos, current) == Ok(Loaded(NbtCoreLaws.Reloaded(t), next, spent))
  {
    NbtCoreLaws.SmallPrefix(|bytes|);
    var start := pos + 4;
    NbtCoreLaws.AtSplit(src.data, pos, NbtCore.LengthPrefix(|bytes|), bytes, start);
    NbtCoreLaws.ReadAtWritten(Primitives.I32, |bytes|, src.data, pos, start);
    var c1 := Split(src.limit, current, 24, |bytes|, spent);
    Charged(src.limit, c1, |bytes|, spent);
    ByteArrayStep(src, pos, current, c1, |bytes|, start, spent, bytes, next);
  }

  lemma LoadStringWritten(src: NbtCore.Source, t: Tag, s: string, pos: nat, current: nat, next: nat, spent: nat)
    requires t == Str(s) && Readable(src.decode, s)
    requires NbtCoreLaws.At(src.data, pos, Write(t))
    requires next == pos + |Write(t)| && spent == Spent(src.limit, current, Cost(t)) && Within(src.limit, spent)
    ensures LoadLeaf(src, Id(t), pos, current) == Ok(Loaded(NbtCoreLaws.Reloaded(t), next, spent))
  {
    var c1 := Split(src.limit, current, 36, Mutf8.Utf8Len(s), spent);
    ReadStringWritten(src, pos, c1, s, next, spent);
    StringStep(src, pos, current, c1, s, next, spent);
  }

  /** An int or long array's element type, bytes, value read back and charge. */
  lemma ArrayShape(t: Tag, id: byte, xs: seq<int>)
    requires (t == IntArray(xs) && id == 11) || (t == LongArray(xs) && id == 12)
    requires Valid(t)
    ensures Id(t) == id && forall i :: 0 <= i < |xs| ==> Primitives.InRange(NbtCore.ArrayType(id), xs[i])
    ensures Write(t) == NbtCore.LengthPrefix(|xs|) + NbtCore.WriteValues(NbtCore.ArrayType(id), xs)
    ensures NbtCoreLaws.Reloaded(t) == NbtCore.ArrayTag(id, NbtCore.Zeros(|xs|) + xs)
    ensures Cost(t) == 24 + ArrayCharge(id, |xs|)
  {
  }

  lemma LoadArrayWritten(src: NbtCore.Source, t: Tag, id: byte, xs: seq<int>, pos: nat, current: nat, next: nat,
                         spent: nat)
    requires (t == IntArray(xs) && id == 11) || (t == LongArray(xs) && id == 12)
    requires Valid(t) && |xs| < 0x8000_0000
    requires NbtCoreLaws.At(src.data, pos, Write(t))
    requires next == pos + |Write(t)| && spent == Spent(src.limit, current, Cost(t)) && Within(src.limit, spent)
    ensures LoadLeaf(src, Id(t), pos, current) == Ok(Loaded(NbtCoreLaws.Reloaded(t), next, spent))
  {
    ArrayShape(t, id, xs);
    NbtCoreLaws.SmallPrefix(|xs|);
    var start := pos + 4;
    var w := NbtCore.WriteValues(NbtCore.ArrayType(id), xs);
    NbtCoreLaws.AtSplit(src.data, pos, NbtCore.LengthPrefix(|xs|), w, start);
    NbtCoreLaws.ReadAtWritten(Primitives.I32, |xs|, src.data, pos, start);
    NbtCoreLaws.ReadValuesWritten(NbtCore.ArrayType(id), xs, src.data, start, NbtCore.Zeros(|xs|), |xs|, next);
    var c1 := Split(src.limit, current, 24, ArrayCharge(id, |xs|), spent);
    Charged(src.limit, c1, ArrayCharge(id, |xs|), spent);
    NbtCoreLaws.ArrayValuesStep(src.data, id, NbtCore.Zeros(|xs|) + xs, |xs|, start, spent, next);
    ArrayStep(src, id, pos, current, c1, |xs|, start, spent,
              Ok(Loaded(NbtCore.ArrayTag(id, NbtCore.Zeros(|xs|) + xs), next, spent)));
  }

  /** The pieces of a list: its header, items, charge and what comes back. */
  lemma ListShape(t: Tag, depth: nat, decode: seq<byte> -> Option<string>)
    requires t.List? && Valid(t) && WellFormed(t, depth, decode)
    ensures depth <= NbtCore.MAX_DEPTH && |t.items| < 0x8000_0000
    ensures forall i :: 0 <= i < |t.items| ==> Valid(t.items[i])
    ensures ItemsWellFormed(t.elem, t.items, depth + 1, decode)
    ensures |Write(t)| == 5 + |WriteItems(t.items)|
    ensures Cost(t) == 37 + Scaled(4, |t.items|) + CostItems(t.items)
    ensures NbtCoreLaws.Reloaded(t) == List(t.elem, NbtCoreLaws.ReloadedItems(t.items))
  {
  }

  /** The bytes of a list, split where the loader reads them. */
  lemma ListBytes(data: seq<byte>, t: Tag, pos: nat, p1: nat, p2: nat)
    requires t.List? && Valid(t) && |t.items| < 0x8000_0000
    requires NbtCoreLaws.At(data, pos, Write(t))
    requires p1 == pos + 1 && p2 == p1 + 4
    ensures NbtCoreLaws.At(data, pos, Primitives.Write(Primitives.U8, t.elem))
    ensures NbtCoreLaws.At(data, p1, Primitives.Write(Primitives.I32, |t.items|))
    ensures NbtCoreLaws.At(data, p2, WriteItems(t.items))
  {
    NbtCoreLaws.SmallPrefix(|t.items|);
    NbtCoreLaws.ByteWritten(t.elem);
    NbtCoreLaws.AtSplit(data, pos, [t.elem] + NbtCore.LengthPrefix(|t.items|), WriteItems(t.items), p2);
    NbtCoreLaws.AtSplit(data, pos, [t.elem], NbtCore.LengthPrefix(|t.items|), p1);
  }

  /** The element bit, the length and the elements of a list, then its items' round trip. */
  lemma {:induction false} LoadListWritten(src: NbtCore.Source, t: Tag, pos: nat, depth: nat, current: nat,
                                           next: nat, spent: nat)
    requires t.List? && Valid(t) && WellFormed(t, depth, src.decode)
    requires NbtCoreLaws.At(src.data, pos, Write(t))
    requires next == pos + |Write(t)| && spent == Spent(src.limit, current, Cost(t)) && Within(src.limit, spent)
    ensures LoadList(src, pos, depth, current) == Ok(Loaded(NbtCoreLaws.Reloaded(t), next, spent))
    decreases t, 1
  {
    ListShape(t, depth, src.decode);
    var n := |t.items|;
    var p1 := pos + 1;
    var p2 := p1 + 4;
    var c1 := Split(src.limit, current, 37, Scaled(4, n) + CostItems(t.items), spent);
    var c2 := Split(src.limit, c1, Scaled(4, n), CostItems(t.items), spent);
    ListBytes(src.data, t, pos, p1, p2);
    NbtCoreLaws.ReadAtWritten(Primitives.U8, t.elem, src.data, pos, p1);
    NbtCoreLaws.ReadAtWritten(Primitives.I32, n, src.data, p1, p2);
    LoadItemsWritten(src, t.elem, t.items, [], p2, depth, c2, n, next, spent);
    ListHeadStep(src, pos, depth, current, t.elem, n, p1, p2, c1, c2);
    assert [] + NbtCoreLaws.ReloadedItems(t.items) == NbtCoreLaws.ReloadedItems(t.items);
  }

  /** What loading `t` at `pos` gives, consumes and charges, by name. */
  lemma Outcome(t: Tag, pos: nat, limit: nat, current: nat) returns (v: Tag, next: nat, spent: nat)
    requires Valid(t)
    ensures v == NbtCoreLaws.Reloaded(t) && next == pos + |Write(t)| && spent == Spent(limit, current, Cost(t))
  {
    v, next, spent := NbtCoreLaws.Reloaded(t), pos + |Write(t)|, Spent(limit, current, Cost(t));
  }

  /** The first item of a list: its bit, bytes and charge, then the rest. */
  lemma ItemShape(data: seq<byte>, elem: byte, items: seq<Tag>, depth: nat, decode: seq<byte> -> Option<string>,
                  pos: nat, next: nat)
    requires |items| > 0 && forall i :: 0 <= i < |items| ==> Valid(items[i])
    requires ItemsWellFormed(elem, items, depth, decode)
    requires NbtCoreLaws.At(data, pos, WriteItems(items)) && next == pos + |Write(items[0])|
    ensures Id(items[0]) == elem && WellFormed(items[0], depth, decode)
    ensures ItemsWellFormed(elem, items[1..], depth, decode)
    ensures NbtCoreLaws.At(data, pos, Write(items[0])) && NbtCoreLaws.At(data, next, WriteItems(items[1..]))
    ensures |WriteItems(items)| == |Write(items[0])| + |WriteItems(items[1..])|
    ensures CostItems(items) == Cost(items[0]) + CostItems(items[1..])
  {
    NbtCoreLaws.AtSplit(data, pos, Write(items[0]), WriteItems(items[1..]), next);
  }

  lemma {:induction false} LoadItemsWritten(src: NbtCore.Source, elem: byte, items: seq<Tag>, acc: seq<Tag>,
                                            pos: nat, depth: nat, current: nat, count: nat, end: nat, spent: nat)
    requires depth <= NbtCore.MAX_DEPTH
    requires forall i :: 0 <= i < |acc| ==> Valid(acc[i])
    requires forall i :: 0 <= i < |items| ==> Valid(items[i])
    requires ItemsWellFormed(elem, items, depth + 1, src.decode)
    requires NbtCoreLaws.At(src.data, pos, WriteItems(items))
    requires count == |items| && end == pos + |WriteItems(items)|
    requires spent == Spent(src.limit, current, CostItems(items)) && Within(src.limit, spent)
    ensures LoadItems(src, elem, acc, count, pos, depth, current)
            == Ok(Loaded(acc + NbtCoreLaws.ReloadedItems(items), end, spent))
    decreases items, 0
  {
    if |items| == 0 {
      ItemsEndStep(src, elem, acc, pos, depth, current);
      assert acc + NbtCoreLaws.ReloadedItems(items) == acc;
    } else {
      var head := items[0];
      var v, next, c := Outcome(head, pos, src.limit, current);
      ItemShape(src.data, elem, items, depth + 1, src.decode, pos, next);
      var mid := Split(src.limit, current, Cost(head), CostItems(items[1..]), spent);
      LoadWritten(src, head, pos, depth + 1, current, next, c);
      ItemsStep(src, elem, acc, count, pos, depth, current, v, next, c);
      LoadItemsWritten(src, elem, items[1..], acc + [v], next, depth, c, count - 1, end, spent);
      NbtCoreLaws.ReloadedItemsCons(acc, items);
    }
  }

  /** The pieces of a compound: its entries, charge and what comes back. */
  lemma CompoundShape(t: Tag, depth: nat, decode: seq<byte> -> Option<string>)
    requires t.Compound? && Valid(t) && WellFormed(t, depth, decode)
    ensures depth <= NbtCore.MAX_DEPTH && DistinctNames(t.entries)
    ensures forall i :: 0 <= i < |t.entries| ==> Valid(t.entries[i].value)
    ensures EntriesWellFormed(t.entries, depth + 1, decode)
    ensures Write(t) == WriteEntries(t.entries) && Cost(t) == 48 + CostEntries(t.entries)
    ensures NbtCoreLaws.Reloaded(t) == Compound(NbtCoreLaws.ReloadedEntries(t.entries))
  {
  }

  lemma {:induction false} LoadCompoundWritten(src: NbtCore.Source, t: Tag, pos: nat, depth: nat, current: nat,
                                               next: nat, spent: nat)
    requires t.Compound? && Valid(t) && WellFormed(t, depth, src.decode)
    requires NbtCoreLaws.At(src.data, pos, Write(t))
    requires next == pos + |Write(t)| && spent == Spent(src.limit, current, Cost(t)) && Within(src.limit, spent)
    ensures LoadCompound(src, pos, depth, current) == Ok(Loaded(NbtCoreLaws.Reloaded(t), next, spent))
    decreases t, 1
  {
    CompoundShape(t, depth, src.decode);
    var c1 := Split(src.limit, current, 48, CostEntries(t.entries), spent);
    LoadEntriesWritten(src, t.entries, [], pos, depth, c1, next, spent);
    CompoundHeadStep(src, pos, depth, current, c1);
    assert [] + NbtCoreLaws.ReloadedEntries(t.entries) == NbtCoreLaws.ReloadedEntries(t.entries);
  }

  /** The first entry of a compound: its bit, bytes and charge, then the rest. */
  lemma EntryShape(data: seq<byte>, es: seq<Entry>, depth: nat, decode: seq<byte> -> Option<string>,
                   pos: nat, p1: nat, p2: nat, p3: nat)
    requires |es| > 0 && forall i :: 0 <= i < |es| ==> Valid(es[i].value)
    requires EntriesWellFormed(es, depth, decode)
    requires NbtCoreLaws.At(data, pos, WriteEntries(es))
    requires p1 == pos + 1 && p2 == p1 + |NbtCore.WriteString(es[0].name)| && p3 == p2 + |Write(es[0].value)|
    ensures Id(es[0].value) != 0 && Readable(decode, es[0].name) && WellFormed(es[0].value, depth, decode)
    ensures EntriesWellFormed(es[1..], depth, decode)
    ensures NbtCoreLaws.At(data, pos, Primitives.Write(Primitives.U8, Id(es[0].value)))
    ensures NbtCoreLaws.At(data, p1, NbtCore.WriteString(es[0].name)) && NbtCoreLaws.At(data, p2, Write(es[0].value))
    ensures NbtCoreLaws.At(data, p3, WriteEntries(es[1..]))
    ensures |WriteEntries(es)| == p3 - pos + |WriteEntries(es[1..])|
    ensures CostEntries(es) == 28 + Mutf8.Utf8Len(es[0].name) + Cost(es[0].value) + 36 + CostEntries(es[1..])
  {
    var e := es[0];
    NbtCoreLaws.ByteWritten(Id(e.value));
    NbtCoreLaws.AtSplit(data, pos, [Id(e.value)] + NbtCore.WriteString(e.name) + Write(e.value),
                        WriteEntries(es[1..]), p3);
    NbtCoreLaws.AtSplit(data, pos, [Id(e.value)] + NbtCore.WriteString(e.name), Write(e.value), p2);
    NbtCoreLaws.AtSplit(data, pos, [Id(e.value)], NbtCore.WriteString(e.name), p1);
  }

  /** The first entry of a compound, loaded back: the loop goes on after it. */
  lemma {:induction false} EntryWritten(src: NbtCore.Source, es: seq<Entry>, acc: seq<Entry>, pos: nat, depth: nat,
                                        current: nat, c1: nat, c2: nat, c3: nat, c: nat)
      returns (next: seq<Entry>, q: nat)
    requires depth <= NbtCore.MAX_DEPTH && |es| > 0
    requires forall i :: 0 <= i < |acc| ==> Valid(acc[i].value)
    requires forall i :: 0 <= i < |es| ==> Valid(es[i].value)
    requires NbtCoreLaws.Apart(acc, es) && EntriesWellFormed(es, depth + 1, src.decode)
    requires NbtCoreLaws.At(src.data, pos, WriteEntries(es))
    requires Account(src.limit, current, 28) == Ok(c1)
    requires c2 == Spent(src.limit, c1, Mutf8.Utf8Len(es[0].name)) && Within(src.limit, c2)
    requires c3 == Spent(src.limit, c2, Cost(es[0].value)) && Within(src.limit, c3)
    requires Account(src.limit, c3, 36) == Ok(c)
    ensures next == acc + [Entry(es[0].name, NbtCoreLaws.Reloaded(es[0].value))]
    ensures q <= |src.data| && forall i :: 0 <= i < |next| ==> Valid(next[i].value)
    ensures EntriesWellFormed(es[1..], depth + 1, src.decode) && NbtCoreLaws.At(src.data, q, WriteEntries(es[1..]))
    ensures |WriteEntries(es)| == q - pos + |WriteEntries(es[1..])|
    ensures LoadEntries(src, acc, pos, depth, current) == LoadEntries(src, next, q, depth, c)
    decreases es, 0, 0
  {
    var e := es[0];
    var p1 := pos + 1;
    var p2 := p1 + |NbtCore.WriteString(e.name)|;
    var v, c3';
    v, q, c3' := Outcome(e.value, p2, src.limit, c2);
    EntryShape(src.data, es, depth + 1, src.decode, pos, p1, p2, q);
    next := acc + [Entry(e.name, v)];
    NbtCoreLaws.ReadAtWritten(Primitives.U8, Id(e.value), src.data, pos, p1);
    ReadStringWritten(src, p1, c1, e.name, p2, c2);
    LoadWritten(src, e.value, p2, depth + 1, c2, q, c3);
    EntryLoaded(src, e, acc, pos, depth, current, p1, c1, p2, c2, v, q, c3, c);
  }

  /** The charges of one entry, in the order the loader makes them. */
  lemma EntryCharges(limit: nat, current: nat, name: nat, value: nat, rest: nat, spent: nat)
      returns (c1: nat, c2: nat, c3: nat, c: nat)
    requires spent == Spent(limit, current, 28 + name + value + 36 + rest) && Within(limit, spent)
    ensures Account(limit, current, 28) == Ok(c1)
    ensures c2 == Spent(limit, c1, name) && Within(limit, c2)
    ensures c3 == Spent(limit, c2, value) && Within(limit, c3)
    ensures Account(limit, c3, 36) == Ok(c)
    ensures spent == Spent(limit, c, rest) && Within(limit, spent)
  {
    c1 := Split(limit, current, 28, name + value + 36 + rest, spent);
    c2 := Split(limit, c1, name, value + 36 + rest, spent);
    c3 := Split(limit, c2, value, 36 + rest, spent);
    c := Split(limit, c3, 36, rest, spent);
  }

  /** An entry whose name and value were read: the loop goes on after it, the entry appended. */
  lemma EntryLoaded(src: NbtCore.Source, e: Entry, acc: seq<Entry>, pos: nat, depth: nat, current: nat,
                    p1: nat, c1: nat, p2: nat, c2: nat, v: Tag, q: nat, c3: nat, c: nat)
    requires pos <= |src.data| && depth <= NbtCore.MAX_DEPTH && Id(e.value) != 0
    requires forall i :: 0 <= i < |acc| ==> Valid(acc[i].value)
    requires forall i :: 0 <= i < |acc| ==> acc[i].name != e.name
    requires ReadAt(Primitives.U8, src.data, pos) == Ok((Id(e.value), p1)) && p1 <= |src.data|
    requires Account(src.limit, current, 28) == Ok(c1)
    requires ReadString(src, p1, c1) == Ok(Loaded(e.name, p2, c2))
    requires LoadTag(src, Id(e.value), p2, depth + 1, c2) == Ok(Loaded(v, q, c3))
    requires Account(src.limit, c3, 36) == Ok(c)
    ensures q <= |src.data| && forall i :: 0 <= i < |acc + [Entry(e.name, v)]| ==> Valid((acc + [Entry(e.name, v)])[i].value)
    ensures LoadEntries(src, acc, pos, depth, current) == LoadEntries(src, acc + [Entry(e.name, v)], q, depth, c)
  {
    EntryStep(src, Id(e.value), acc, p1, depth, current, c1, e.name, p2, c2);
    InsertNewStep(src, Id(e.value), acc, e.name, p2, depth, c2, v, q, c3, c);
    EntriesStep(src, acc, pos, depth, current, Id(e.value), p1, acc + [Entry(e.name, v)], q, c);
  }

  lemma {:induction false} LoadEntriesWritten(src: NbtCore.Source, es: seq<Entry>, acc: seq<Entry>, pos: nat,
                                              depth: nat, current: nat, end: nat, spent: nat)
    requires depth <= NbtCore.MAX_DEPTH
    requires forall i :: 0 <= i < |acc| ==> Valid(acc[i].value)
    requires forall i :: 0 <= i < |es| ==> Valid(es[i].value)
    requires DistinctNames(es) && NbtCoreLaws.Apart(acc, es) && EntriesWellFormed(es, depth + 1, src.decode)
    requires NbtCoreLaws.At(src.data, pos, WriteEntries(es))
    requires end == pos + |WriteEntries(es)|
    requires spent == Spent(src.limit, current, CostEntries(es)) && Within(src.limit, spent)
    ensures LoadEntries(src, acc, pos, depth, current) == Ok(Loaded(acc + NbtCoreLaws.ReloadedEntries(es), end, spent))
    decreases es, 1
  {
    if |es| == 0 {
      NbtCoreLaws.ByteWritten(0);
      NbtCoreLaws.ReadAtWritten(Primitives.U8, 0, src.data, pos, end);
      EntriesEndStep(src, acc, pos, depth, current, end);
      assert acc + NbtCoreLaws.ReloadedEntries(es) == acc;
    } else {
      var next, q, c := EntryNext(src, es, acc, pos, depth, current, spent);
      LoadEntriesWritten(src, es[1..], next, q, depth, c, end, spent);
    }
  }

  /** The first entry of a compound, charged and loaded back: what the loop goes on from. */
  lemma {:induction false} EntryNext(src: NbtCore.Source, es: seq<Entry>, acc: seq<Entry>, pos: nat, depth: nat,
                                     current: nat, spent: nat)
      returns (next: seq<Entry>, q: nat, c: nat)
    requires depth <= NbtCore.MAX_DEPTH && |es| > 0
    requires forall i :: 0 <= i < |acc| ==> Valid(acc[i].value)
    requires forall i :: 0 <= i < |es| ==> Valid(es[i].value)
    requires DistinctNames(es) && NbtCoreLaws.Apart(acc, es) && EntriesWellFormed(es, depth + 1, src.decode)
    requires NbtCoreLaws.At(src.data, pos, WriteEntries(es))
    requires spent == Spent(src.limit, current, CostEntries(es)) && Within(src.limit, spent)
    ensures q <= |src.data| && forall i :: 0 <= i < |next| ==> Valid(next[i].value)
    ensures NbtCoreLaws.Apart(next, es[1..]) && EntriesWellFormed(es[1..], depth + 1, src.decode)
    ensures NbtCoreLaws.At(src.data, q, WriteEntries(es[1..])) && pos + |WriteEntries(es)| == q + |WriteEntries(es[1..])|
    ensures spent == Spent(src.limit, c, CostEntries(es[1..])) && Within(src.limit, spent)
    ensures acc + NbtCoreLaws.ReloadedEntries(es) == next + NbtCoreLaws.ReloadedEntries(es[1..])
    ensures LoadEntries(src, acc, pos, depth, current) == LoadEntries(src, next, q, depth, c)
    decreases es, 0, 1
  {
    var c1, c2, c3;
    c1, c2, c3, c := EntryCharges(src.limit, current, Mutf8.Utf8Len(es[0].name), Cost(es[0].value),
                                  CostEntries(es[1..]), spent);
    next, q := EntryWritten(src, es, acc, pos, depth, current, c1, c2, c3, c);
    assert NbtCoreLaws.Apart(next, es[1..]);
    NbtCoreLaws.ReloadedEntriesCons(acc, es);
  }

  // ---------------------------------------------------------------
  // The root tag
  // ---------------------------------------------------------------

  /** The empty root name: a zero length and no bytes. */
  lemma EmptyName()
    ensures NbtCore.WriteString("") == [0, 0] && Mutf8.Utf8Len("") == 0
  {
    assert BeBytes(0, 2) == [0, 0] by {
      assert BeBytes(0, 1) == [0];
    }
  }

  /**
   * The round trip of `EnsuredCompoundTag`: what `encode` writes at
   * `pos`, `decode` reads back, ending right after it: `NoTag` as itself
   * and a well-formed compound as `Reloaded` of it, its whole cost
   * charged against the limit from 0 (the empty root name costs nothing).
   */
  lemma DecodeEncode(e: EnsuredCompoundTag, data: seq<byte>, limit: nat, decode: seq<byte> -> Option<string>,
                     pos: nat)
    requires e.Tagged? ==> e.tag.Compound? && Valid(e.tag) && WellFormed(e.tag, 0, decode)
    requires e.Tagged? ==> Mutf8.Inverts(decode, "") && (limit == 0 || Cost(e.tag) <= limit < U64_MOD)
    requires NbtCoreLaws.At(data, pos, Encode(e))
    ensures pos <= |data|
    ensures Decode(data, limit, decode, pos)
            == Ok((if e.NoTag? then NoTag else Tagged(NbtCoreLaws.Reloaded(e.tag)), pos + |Encode(e)|))
  {
    var p1 := pos + 1;
    NbtCoreLaws.ByteWritten(Encode(e)[0]);
    match e
    case NoTag =>
      NbtCoreLaws.ReadAtWritten(Primitives.U8, 0, data, pos, p1);
    case Tagged(t) =>
      var src := NbtCore.Source(data, limit, decode);
      var p2 := p1 + 2;
      var end := pos + |Encode(e)|;
      EmptyName();
      NbtCoreLaws.AtSplit(data, pos, [COMPOUND_TAG_BIT] + NbtCore.WriteString(""), Write(t), p2);
      NbtCoreLaws.AtSplit(data, pos, [COMPOUND_TAG_BIT], NbtCore.WriteString(""), p1);
      NbtCoreLaws.ReadAtWritten(Primitives.U8, COMPOUND_TAG_BIT as int, data, pos, p1);
      ReadStringWritten(src, p1, 0, "", p2, 0);
      LoadWritten(src, t, p2, 0, 0, end, Spent(limit, 0, Cost(t)));
  }

  /**
   * With each entry led by its id, `{"a": 1b}` loads back whole from
   * the six bytes `Write` gives it, where the crate's own writer loses
   * the entry (`NbtSrcSizes.AsWrittenLosesEntries`).
   */
  lemma CorrectedKeepsEntries(decode: seq<byte> -> Option<string>)
    requires decode([97]) == Some("a")
    ensures var data := Write(Compound([Entry("a", Byte(1))]));
            LoadTag(NbtCore.Source(data, 0, decode), COMPOUND_TAG_BIT, 0, 0, 0)
            == Ok(Loaded(Compound([Entry("a", Byte(1))]), 6, 0))
  {
    var t := Compound([Entry("a", Byte(1))]);
    var data := Write(t);
    var src := NbtCore.Source(data, 0, decode);
    NbtSrcSizes.OneEntryBytes();
    assert Mutf8.Encode("a") == [97] by {
      assert Mutf8.Encode("a") == Mutf8.EncodeChar('a') + Mutf8.Encode("");
    }
    assert Mutf8.Utf8Len("a") == 1 by {
      assert Mutf8.Utf8Len("a") == Mutf8.Utf8Width('a') + Mutf8.Utf8Len("");
    }
    var es := t.entries;
    assert es[1..] == [];
    assert EntriesWellFormed(es, 1, decode);
    assert NbtCoreLaws.Reloaded(t) == t by {
      assert NbtCoreLaws.ReloadedEntries(es[1..]) == [];
      assert NbtCoreLaws.ReloadedEntries(es) == [Entry("a", Byte(1))] + NbtCoreLaws.ReloadedEntries(es[1..]);
    }
    assert NbtCoreLaws.At(data, 0, data);
    LoadWritten(src, t, 0, 0, 0, 6, 0);
  }
}
