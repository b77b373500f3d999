/**
 * What the `drax_core` NBT codec promises, proved about the functions of
 * `NbtCore`: the sizer against the writer, the loader's error cases, the
 * root rules of `read_nbt`, and the round trip of a whole tree through
 * `write_tag` and `load_tag`.
 */
module NbtCoreLaws {
  import opened Bytes
  import opened NbtTag
  import opened NbtStream
  import opened NbtCore
  import Primitives
  import Mutf8

  // ---------------------------------------------------------------
  // Sizing against writing
  // ---------------------------------------------------------------

  /** How many strings `write_tag` emits for `t`: string tags and the names of written entries. */
  function Strings(t: Tag): nat
    decreases t, 1
  {
    match t
    case Str(_) => 1
    case List(_, items) => StringsItems(items)
    case Compound(es) => StringsEntries(es)
    case _ => 0
  }

  function StringsItems(items: seq<Tag>): nat
    decreases items, 0
  {
    if |items| == 0 then 0 else Strings(items[0]) + StringsItems(items[1..])
  }

  function StringsEntries(es: seq<Entry>): nat
    decreases es, 0
  {
    if |es| == 0 || Id(es[0].value) == 0 then 0
    else 1 + Strings(es[0].value) + StringsEntries(es[1..])
  }

  /**
   * `size_tag` counts every byte `write_tag` emits, plus two for each
   * string, since `size_string` is `4 + len` where `write_string` writes
   * `2 + len`.
   */
  lemma {:induction false} SizeWrite(t: Tag)
    requires Valid(t)
    ensures SizeTag(t) == |Write(t)| + 2 * Strings(t)
    decreases t, 1
  {
    match t
    case List(_, items) => SizeWriteItems(items);
    case Compound(es) => SizeWriteEntries(es);
    case _ => SizeWriteLeaf(t);
  }

  /** The same for a tag that holds no other tags. */
  lemma SizeWriteLeaf(t: Tag)
    requires Valid(t) && !t.List? && !t.Compound?
    ensures SizeTag(t) == |Write(t)| + 2 * Strings(t)
  {
    match t
    case IntArray(xs) => SizeWriteIntArray(xs);
    case LongArray(xs) => SizeWriteLongArray(xs);
    case End =>
    case ByteArray(_) =>
    case Str(_) =>
    case _ => SizeWriteScalar(t);
  }

  lemma SizeWriteScalar(t: Tag)
    requires Valid(t) && IsScalar(t)
    ensures SizeTag(t) == |Write(t)| && Strings(t) == 0
  {
    if t.Byte? || t.Short? || t.Int? {
      SizeWriteNarrow(t);
    } else {
      SizeWriteWide(t);
    }
  }

  lemma SizeWriteNarrow(t: Tag)
    requires Valid(t) && (t.Byte? || t.Short? || t.Int?)
    ensures SizeTag(t) == |Write(t)|
  {
    match t
    case Byte(b) => assert Write(t) == Primitives.Write(Primitives.U8, b);
    case Short(bits) => assert Write(t) == Primitives.Write(Primitives.U16, bits);
    case Int(i) => assert Write(t) == Primitives.Write(Primitives.I32, i);
  }

  lemma SizeWriteWide(t: Tag)
    requires Valid(t) && (t.Long? || t.Float? || t.Double?)
    ensures SizeTag(t) == |Write(t)|
  {
    match t
    case Long(l) => SizeWriteLong(l);
    case Float(bits) => assert Write(t) == Primitives.Write(Primitives.U32, bits);
    case Double(bits) => SizeWriteDouble(bits);
  }

  lemma SizeWriteLong(l: int)
    requires Valid(Long(l))
    ensures SizeTag(Long(l)) == |Write(Long(l))|
  {
    assert Write(Long(l)) == Primitives.Write(Primitives.I64, l);
  }

  lemma SizeWriteDouble(bits: nat)
    requires Valid(Double(bits))
    ensures SizeTag(Double(bits)) == |Write(Double(bits))|
  {
    assert Write(Double(bits)) == Primitives.Write(Primitives.U64, bits);
  }

  lemma SizeWriteIntArray(xs: seq<int>)
    requires Valid(IntArray(xs))
    ensures SizeTag(IntArray(xs)) == |Write(IntArray(xs))|
  {
    WriteValuesLength(Primitives.I32, xs);
    assert Primitives.IntType.I32.ByteCount() == 4;
    assert Write(IntArray(xs)) == LengthPrefix(|xs|) + WriteValues(Primitives.I32, xs);
  }

  lemma SizeWriteLongArray(xs: seq<int>)
    requires Valid(LongArray(xs))
    ensures SizeTag(LongArray(xs)) == |Write(LongArray(xs))|
  {
    WriteValuesLength(Primitives.I64, xs);
    assert Primitives.IntType.I64.ByteCount() == 8;
    assert Write(LongArray(xs)) == LengthPrefix(|xs|) + WriteValues(Primitives.I64, xs);
  }

  /** Each value takes its type's width. */
  lemma {:induction false} WriteValuesLength(t: Primitives.IntType, xs: seq<int>)
    requires forall i :: 0 <= i < |xs| ==> Primitives.InRange(t, xs[i])
    ensures |WriteValues(t, xs)| == |xs| * t.ByteCount()
    decreases |xs|
  {
    if |xs| > 0 {
      WriteValuesLength(t, xs[1..]);
      var k := t.ByteCount();
      assert (|xs| - 1) * k + k == |xs| * k;
    }
  }

  lemma {:induction false} SizeWriteItems(items: seq<Tag>)
    requires forall i :: 0 <= i < |items| ==> Valid(items[i])
    ensures SizeItems(items) == |WriteItems(items)| + 2 * StringsItems(items)
    decreases items, 0
  {
    if |items| > 0 {
      SizeWrite(items[0]);
      SizeWriteItems(items[1..]);
    }
  }

  lemma {:induction false} SizeWriteEntries(es: seq<Entry>)
    requires forall i :: 0 <= i < |es| ==> Valid(es[i].value)
    ensures SizeEntries(es) == |WriteEntries(es)| + 2 * StringsEntries(es)
    decreases es, 0
  {
    if |es| > 0 && Id(es[0].value) != 0 {
      SizeWrite(es[0].value);
      SizeWriteEntries(es[1..]);
    }
  }

  /** Without strings the sizer is exact, as for scalars, arrays and lists of them. */
  lemma SizeWriteNoStrings(t: Tag)
    requires Valid(t) && Strings(t) == 0
    ensures SizeTag(t) == |Write(t)|
  {
    SizeWrite(t);
  }

  /**
   * `size_nbt` leaves out the three bytes of the root id and its empty
   * name that `write_nbt` writes, on top of the two per string.
   */
  lemma SizeNbtWrite(es: seq<Entry>)
    requires forall i :: 0 <= i < |es| ==> Valid(es[i].value)
    ensures |WriteNbt(es)| + 2 * StringsEntries(es) == SizeNbt(es) + 3
    ensures SizeOptionalNbt(Some(es)) == SizeNbt(es)
  {
    SizeWriteEntries(es);
  }

  /** The absent compound: one 0 byte, and a size of 1. */
  lemma OptionalNone()
    ensures WriteOptionalNbt(None) == [0]
    ensures SizeOptionalNbt(None) == |WriteOptionalNbt(None)|
  {
  }

  /**
   * The compound writer stops at the first `EndTag` value: its id 0 ends
   * the compound, and the entries after it are neither written nor counted.
   */
  lemma EntriesStopAtEnd(es: seq<Entry>, i: nat)
    requires forall k :: 0 <= k < |es| ==> Valid(es[k].value)
    requires i < |es| && es[i].value == End
    ensures WriteEntries(es) == WriteEntries(es[..i]) [..|WriteEntries(es[..i])| - 1] + [0]
    ensures SizeEntries(es) == SizeEntries(es[..i])
  {
    EntriesPrefix(es, i);
    SizePrefix(es, i);
  }

  lemma {:induction false} EntriesPrefix(es: seq<Entry>, i: nat)
    requires forall k :: 0 <= k < |es| ==> Valid(es[k].value)
    requires i < |es| && es[i].value == End
    ensures |WriteEntries(es[..i])| >= 1
    ensures WriteEntries(es) == WriteEntries(es[..i]) [..|WriteEntries(es[..i])| - 1] + [0]
    decreases i
  {
    var pre := es[..i];
    if i == 0 || Id(es[0].value) == 0 {
      assert |pre| == 0 || pre[0] == es[0];
      assert WriteEntries(pre) == [0] && WriteEntries(es) == [0];
    } else {
      assert es[1..][..i - 1] == pre[1..];
      EntriesPrefix(es[1..], i - 1);
      var head := EntriesCons(es, pre);
      DropLast(head, WriteEntries(pre[1..]), WriteEntries(es[1..]));
    }
  }

  /** A compound whose first entry is not an `EndTag` starts with that entry's bytes, in `es` and in `pre` alike. */
  lemma EntriesCons(es: seq<Entry>, pre: seq<Entry>) returns (head: seq<byte>)
    requires forall k :: 0 <= k < |es| ==> Valid(es[k].value)
    requires 0 < |pre| <= |es| && pre == es[..|pre|] && Id(es[0].value) != 0
    ensures WriteEntries(es) == head + WriteEntries(es[1..])
    ensures WriteEntries(pre) == head + WriteEntries(pre[1..])
  {
    assert pre[0] == es[0];
    head := [Id(es[0].value)] + WriteString(es[0].name) + Write(es[0].value);
  }

  /** Dropping the last byte of `head + rest` drops it from `rest`. */
  lemma DropLast(head: seq<byte>, rest: seq<byte>, stopped: seq<byte>)
    requires |rest| >= 1 && stopped == rest[..|rest| - 1] + [0]
    ensures |head + rest| >= 1 && head + stopped == (head + rest)[..|head + rest| - 1] + [0]
  {
    assert (head + rest)[..|head + rest| - 1] == head + rest[..|rest| - 1];
  }

  lemma {:induction false} SizePrefix(es: seq<Entry>, i: nat)
    requires i < |es| && es[i].value == End
    ensures SizeEntries(es) == SizeEntries(es[..i])
    decreases i
  {
    if i > 0 && Id(es[0].value) != 0 {
      assert es[1..][..i - 1] == es[..i][1..];
      SizePrefix(es[1..], i - 1);
    }
  }

  // ---------------------------------------------------------------
  // The accounter
  // ---------------------------------------------------------------

  /**
   * A sequence of charges that all succeed never passes the limit, and a
   * refused charge leaves the count where it was, so later charges see
   * the same count.
   */
  lemma AccountNeverPassesLimit(limit: nat, current: nat, bits: nat)
    requires current <= limit
    ensures Account(limit, current, bits).Ok? ==> current <= Account(limit, current, bits).value <= limit
    ensures limit < U64_MOD ==> (Account(limit, current, bits).Ok? <==> current + bits <= limit)
  {
  }

  // ---------------------------------------------------------------
  // The loader's refusals
  // ---------------------------------------------------------------

  /**
   * A list or compound deeper than 512 fails once its charge is taken,
   * before a byte of it is read.
   */
  lemma DepthExceeded(src: Source, pos: nat, depth: nat, current: nat)
    requires pos <= |src.data| && depth > MAX_DEPTH
    ensures Account(src.limit, current, 296).Ok? ==>
              LoadTag(src, 9, pos, depth, current) == Err(Explain(DEPTH_EXCEEDED))
    ensures Account(src.limit, current, 384).Ok? ==>
              LoadTag(src, 10, pos, depth, current) == Err(Explain(DEPTH_EXCEEDED))
    ensures Account(src.limit, current, 296).Err? ==>
              LoadTag(src, 9, pos, depth, current) == Err(Account(src.limit, current, 296).error)
  {
  }

  /** A list whose element id is 0 but whose length is positive is refused, before its charge per element. */
  lemma MissingListType(src: Source, pos: nat, depth: nat, current: nat, n: int)
    requires pos + 5 <= |src.data| && depth <= MAX_DEPTH
    requires src.data[pos] == 0 && 0 < n < 0x8000_0000
    requires src.data[pos + 1..pos + 5] == Primitives.Write(Primitives.I32, n)
    requires Account(src.limit, current, 296).Ok?
    ensures LoadTag(src, 9, pos, depth, current) == Err(Explain(MISSING_TYPE))
  {
    ByteWritten(0);
    assert src.data[pos..pos + 1] == [0];
    ReadAtWritten(Primitives.U8, 0, src.data, pos, pos + 1);
    ReadAtWritten(Primitives.I32, n, src.data, pos + 1, pos + 5);
  }

  /** An id above 12 is refused before anything is charged or read. */
  lemma UnknownId(src: Source, id: byte, pos: nat, depth: nat, current: nat)
    requires pos <= |src.data| && id > 12
    ensures LoadTag(src, id, pos, depth, current) == Err(Explain(UNKNOWN_TAG))
  {
  }

  /** A name already in the compound: the value is replaced in place and 288 more bits are charged. */
  lemma DuplicateName(src: Source, id: byte, es: seq<Entry>, name: string, pos: nat, depth: nat, current: nat)
    requires pos <= |src.data| && depth <= MAX_DEPTH
    requires forall i :: 0 <= i < |es| ==> Valid(es[i].value)
    requires Get(es, name).Some?
    requires LoadTag(src, id, pos, depth + 1, current).Ok?
    ensures var t := LoadTag(src, id, pos, depth + 1, current).value;
            InsertLoaded(src, id, es, name, pos, depth, current)
            == (match Account(src.limit, t.current, 288)
                case Ok(c) => Ok(Loaded(Insert(es, name, t.value).0, t.pos, c))
                case Err(e) => Err(e))
    ensures var t := LoadTag(src, id, pos, depth + 1, current).value;
            |Insert(es, name, t.value).0| == |es| && Get(Insert(es, name, t.value).0, name) == Some(t.value)
  {
    var t := LoadTag(src, id, pos, depth + 1, current).value;
    InsertGet(es, name, t.value, name);
    assert Insert(es, name, t.value).1;
  }

  /** A new name is appended and costs nothing more. */
  lemma NewName(src: Source, id: byte, es: seq<Entry>, name: string, pos: nat, depth: nat, current: nat)
    requires pos <= |src.data| && depth <= MAX_DEPTH
    requires forall i :: 0 <= i < |es| ==> Valid(es[i].value)
    requires Get(es, name).None?
    requires LoadTag(src, id, pos, depth + 1, current).Ok?
    ensures var t := LoadTag(src, id, pos, depth + 1, current).value;
            InsertLoaded(src, id, es, name, pos, depth, current)
            == Ok(Loaded(es + [Entry(name, t.value)], t.pos, t.current))
  {
    var t := LoadTag(src, id, pos, depth + 1, current).value;
    InsertGet(es, name, t.value, name);
  }

  // ---------------------------------------------------------------
  // The root
  // ---------------------------------------------------------------

  /** A leading 0 is no compound, after one byte; a byte other than 0 and 10 is refused. */
  lemma ReadNbtRoot(src: Source, pos: nat)
    requires pos < |src.data|
    ensures src.data[pos] == 0 ==> Yields(ReadNbt(src, pos), None, pos + 1)
    ensures src.data[pos] != 0 && src.data[pos] != COMPOUND_TAG_BIT ==>
              ReadNbt(src, pos) == Err(Explain(ROOT_NOT_COMPOUND))
  {
    ByteWritten(src.data[pos]);
    assert src.data[pos..pos + 1] == [src.data[pos]];
    ReadAtWritten(Primitives.U8, src.data[pos], src.data, pos, pos + 1);
  }

  /** A compound byte: the name is skipped, whatever it is, and the compound loaded from depth 0. */
  lemma ReadNbtCompound(src: Source, pos: nat)
    requires pos + 3 <= |src.data| && src.data[pos] == COMPOUND_TAG_BIT
    ensures var p2 := SkipString(src.data, pos + 1).value;
            ReadNbt(src, pos)
            == (match LoadTag(src, COMPOUND_TAG_BIT, p2, 0, 0)
                case Ok(t) => Ok((Some(t.value.entries), t.pos))
                case Err(e) => Err(e))
  {
    ByteWritten(src.data[pos]);
    assert src.data[pos..pos + 1] == [src.data[pos]];
    ReadAtWritten(Primitives.U8, src.data[pos], src.data, pos, pos + 1);
  }

  // ---------------------------------------------------------------
  // Reading back what was written
  // ---------------------------------------------------------------

  /** `data` holds `w` at `pos`. */
  predicate At(data: seq<byte>, pos: nat, w: seq<byte>)
  {
    pos + |w| <= |data| && data[pos..pos + |w|] == w
  }

  /** `a` then `b` at `pos`: `a` is at `pos` and `b` at `mid`, right after it. */
  lemma AtSplit(data: seq<byte>, pos: nat, a: seq<byte>, b: seq<byte>, mid: nat)
    requires At(data, pos, a + b) && mid == pos + |a|
    ensures At(data, pos, a) && At(data, mid, b)
  {
    assert data[pos..mid] == (a + b)[..|a|];
    assert data[mid..mid + |b|] == (a + b)[|a|..];
  }

  lemma ByteWritten(b: byte)
    ensures Primitives.Write(Primitives.U8, b) == [b]
  {
  }

  /** A value written at `pos` is read back there, and reading ends at `next`, right after it. */
  lemma ReadAtWritten(t: Primitives.IntType, v: int, data: seq<byte>, pos: nat, next: nat)
    requires Primitives.InRange(t, v) && At(data, pos, Primitives.Write(t, v))
    requires next == pos + t.ByteCount()
    ensures ReadAt(t, data, pos) == Ok((v, next))
  {
    assert data[pos..][..t.ByteCount()] == Primitives.Write(t, v);
    Primitives.ReadPrefix(t, v, data[pos..]);
  }

  /** `count as i32` is `count` below 2^31. */
  lemma SmallPrefix(count: nat)
    requires count < 0x8000_0000
    ensures AsI32(count) == count && LengthPrefix(count) == Primitives.Write(Primitives.I32, count)
  {
  }

  /** Two sequences, the second of them empty. */
  lemma AppendEmpty<T>(a: seq<T>, b: seq<T>)
    requires |b| == 0
    ensures a + b == a && b + a == a
  {
  }

  /** Restates a read outcome with an equal value and position. */
  lemma SameRead<T>(r: Result<(T, nat)>, v: T, w: T, a: nat, b: nat)
    requires r == Ok((v, a)) && v == w && a == b
    ensures r == Ok((w, b))
  {
  }

  /** The values written at `pos` are read back there, after `acc`, ending at `end`. */
  lemma {:induction false} ReadValuesWritten(t: Primitives.IntType, xs: seq<int>, data: seq<byte>, pos: nat,
                                             acc: seq<int>, count: nat, end: nat)
    requires forall i :: 0 <= i < |xs| ==> Primitives.InRange(t, xs[i])
    requires At(data, pos, WriteValues(t, xs))
    requires count == |xs| && end == pos + |WriteValues(t, xs)|
    ensures ReadValues(t, data, pos, count, acc) == Ok((acc + xs, end))
    decreases |xs|
  {
    if |xs| == 0 {
      AppendEmpty(acc, xs);
    } else {
      var mid := pos + t.ByteCount();
      AtSplit(data, pos, Primitives.Write(t, xs[0]), WriteValues(t, xs[1..]), mid);
      ReadAtWritten(t, xs[0], data, pos, mid);
      ReadValuesNext(t, data, pos, count, acc, xs[0], mid);
      ReadValuesWritten(t, xs[1..], data, mid, acc + [xs[0]], count - 1, end);
      Cons(acc, xs);
      SameRead(ReadValues(t, data, pos, count, acc), acc + [xs[0]] + xs[1..], acc + xs, end, end);
    }
  }

  /** The first element of `xs` after `acc`, then the others. */
  lemma Cons<T>(acc: seq<T>, xs: seq<T>)
    requires |xs| > 0
    ensures acc + [xs[0]] + xs[1..] == acc + xs
  {
  }

  /** A string `write_string` and `read_string` carry through: no NUL, no supplementary character, short enough. */
  predicate Readable(decode: seq<byte> -> Option<string>, s: string)
  {
    Mutf8.Plain(s) && Mutf8.Utf8Len(s) < 0x1_0000 && (s != "" ==> Mutf8.Inverts(decode, s))
  }

  /** A string written at `pos` is read back there, ending at `end`. */
  lemma ReadStringWritten(decode: seq<byte> -> Option<string>, data: seq<byte>, pos: nat, s: string, end: nat)
    requires Readable(decode, s) && At(data, pos, WriteString(s))
    requires end == pos + |WriteString(s)|
    ensures ReadString(decode, data, pos) == Ok((s, end))
  {
    var w := Mutf8.Encode(s);
    Mutf8.EncodeLength(s);
    var len := Mutf8.Utf8Len(s) % 0x1_0000;
    assert len == |w|;
    var start := pos + 2;
    AtSplit(data, pos, Primitives.Write(Primitives.U16, len), w, start);
    ReadAtWritten(Primitives.U16, len, data, pos, start);
    if s == "" {
      StringEmptyStep(decode, data, pos, start);
    } else {
      assert w == Mutf8.EncodeChar(s[0]) + Mutf8.Encode(s[1..]);
      StringReadStep(decode, data, pos, len, start, s);
    }
  }

  /**
   * The string writer as written: "\0" is written as the prefix 1 and the
   * two bytes [0xC0, 0x80], so the reader hands the decoder only [0xC0]
   * and, whatever the decoder does, never gives back "\0" ending at the
   * fourth byte written.
   */
  lemma NulStringCutShort(decode: seq<byte> -> Option<string>)
    ensures WriteString("\0") == [0, 1, 0xC0, 0x80]
    ensures ReadString(decode, WriteString("\0"), 0)
            == (if decode([0xC0]).None? then Err(Explain(CESU8_ERROR)) else Ok((decode([0xC0]).value, 3)))
  {
    Mutf8.LengthsDiffer();
    var data := WriteString("\0");
    assert Primitives.Write(Primitives.U16, 1) == [0, 1] by {
      Primitives.WriteIsBigEndian(Primitives.U16, 1);
    }
    assert data == [0, 1, 0xC0, 0x80];
    ReadAtWritten(Primitives.U16, 1, data, 0, 2);
    assert data[2..3] == [0xC0];
  }

  /**
   * The corrected writer: with the CESU-8 length as the prefix, every
   * string of fewer than 2^16 encoded bytes reads back, NUL and
   * supplementary characters included.
   */
  lemma CorrectedStringRoundTrip(decode: seq<byte> -> Option<string>, data: seq<byte>, pos: nat, s: string, end: nat)
    requires |Mutf8.Encode(s)| < 0x1_0000 && (s != "" ==> Mutf8.Inverts(decode, s))
    requires At(data, pos, WriteStringCorrected(s)) && end == pos + |WriteStringCorrected(s)|
    ensures ReadString(decode, data, pos) == Ok((s, end))
  {
    var w := Mutf8.Encode(s);
    var len := |w|;
    var start := pos + 2;
    AtSplit(data, pos, Primitives.Write(Primitives.U16, len), w, start);
    ReadAtWritten(Primitives.U16, len, data, pos, start);
    if s == "" {
      StringEmptyStep(decode, data, pos, start);
    } else {
      assert w == Mutf8.EncodeChar(s[0]) + Mutf8.Encode(s[1..]);
      StringReadStep(decode, data, pos, len, start, s);
    }
  }

  /** For a string with no NUL and no supplementary character the two writers agree. */
  lemma CorrectedStringAgrees(s: string)
    requires Mutf8.Plain(s)
    ensures WriteStringCorrected(s) == WriteString(s)
  {
    Mutf8.EncodeLength(s);
  }

  /** A zero length reads as the empty string, without the decoder. */
  lemma StringEmptyStep(decode: seq<byte> -> Option<string>, data: seq<byte>, pos: nat, start: nat)
    requires pos <= |data| && ReadAt(Primitives.U16, data, pos) == Ok((0, start))
    ensures ReadString(decode, data, pos) == Ok(("", start))
  {
  }

  /** A non-zero length with that many bytes left reads as what the decoder makes of them. */
  lemma StringReadStep(decode: seq<byte> -> Option<string>, data: seq<byte>, pos: nat, len: nat, start: nat, s: string)
    requires pos <= |data| && ReadAt(Primitives.U16, data, pos) == Ok((len, start))
    requires 0 < len && start + len <= |data| && decode(data[start..start + len]) == Some(s)
    ensures ReadString(decode, data, pos) == Ok((s, start + len))
  {
  }

  /** What the loader charges for an entry's name (`u64` arithmetic, wrapping). */
  function NameCharge(name: string): nat
  {
    (224 + Charge(16, Mutf8.Utf8Len(name))) % U64_MOD
  }

  /**
   * The bits the loader charges for `t`, when no name repeats; `Charge(k, n)`
   * is `k * n` whenever that stays below 2^64.
   */
  function Cost(t: Tag): nat
    decreases t, 1
  {
    match t
    case End => 64
    case Byte(_) => 72
    case Short(_) => 80
    case Int(_) => 96
    case Long(_) => 128
    case Float(_) => 96
    case Double(_) => 128
    case ByteArray(bytes) => 192 + Charge(8, |bytes|)
    case Str(s) => 288 + Charge(16, Mutf8.Utf8Len(s))
    case List(_, items) => 296 + Charge(32, |items|) + CostItems(items)
    case Compound(es) => 384 + CostEntries(es)
    case IntArray(xs) => 192 + ArrayCharge(11, |xs|)
    case LongArray(xs) => 192 + ArrayCharge(12, |xs|)
  }

  function CostItems(items: seq<Tag>): nat
    decreases items, 0
  {
    if |items| == 0 then 0 else Cost(items[0]) + CostItems(items[1..])
  }

  function CostEntries(es: seq<Entry>): nat
    decreases es, 0
  {
    if |es| == 0 then 0
    else NameCharge(es[0].name) + Cost(es[0].value) + CostEntries(es[1..])
  }

  /**
   * The tree the loader gives back for `t`: the same tree, except that
   * every int and long array comes back after as many zeros as it has
   * values, since the loader pushes onto a zero-filled vector.
   */
  function Reloaded(t: Tag): Tag
    decreases t, 1
  {
    match t
    case List(elem, items) => List(elem, ReloadedItems(items))
    case Compound(es) => Compound(ReloadedEntries(es))
    case IntArray(xs) => IntArray(Zeros(|xs|) + xs)
    case LongArray(xs) => LongArray(Zeros(|xs|) + xs)
    case _ => t
  }

  function ReloadedItems(items: seq<Tag>): (r: seq<Tag>)
    ensures |r| == |items|
    decreases items, 0
  {
    if |items| == 0 then [] else [Reloaded(items[0])] + ReloadedItems(items[1..])
  }

  function ReloadedEntries(es: seq<Entry>): (r: seq<Entry>)
    ensures |r| == |es|
    decreases es, 0
  {
    if |es| == 0 then [] else [Entry(es[0].name, Reloaded(es[0].value))] + ReloadedEntries(es[1..])
  }

  /**
   * A tree the loader reads back from what the writer wrote, at `depth`:
   * lengths that fit an `i32`, readable strings and names, lists whose
   * elements carry their declared id (never 0 when there are some),
   * compounds with distinct names and no `EndTag` value, and no list or
   * compound deeper than 512.
   */
  predicate WellFormed(t: Tag, depth: nat, decode: seq<byte> -> Option<string>)
    decreases t, 1
  {
    match t
    case ByteArray(bytes) => |bytes| < 0x8000_0000
    case Str(s) => Readable(decode, s)
    case List(elem, items) =>
      depth <= MAX_DEPTH && |items| < 0x8000_0000 && (|items| > 0 ==> elem != 0)
      && ItemsWellFormed(elem, items, depth + 1, decode)
    case Compound(es) =>
      depth <= MAX_DEPTH && DistinctNames(es) && EntriesWellFormed(es, depth + 1, decode)
    case IntArray(xs) => |xs| < 0x8000_0000
    case LongArray(xs) => |xs| < 0x8000_0000
    case _ => true
  }

  predicate ItemsWellFormed(elem: byte, items: seq<Tag>, depth: nat, decode: seq<byte> -> Option<string>)
    decreases items, 0
  {
    |items| == 0
    || (Id(items[0]) == elem && WellFormed(items[0], depth, decode) && ItemsWellFormed(elem, items[1..], depth, decode))
  }

  predicate EntriesWellFormed(es: seq<Entry>, depth: nat, decode: seq<byte> -> Option<string>)
    decreases es, 0
  {
    |es| == 0
    || (Id(es[0].value) != 0 && Readable(decode, es[0].name) && WellFormed(es[0].value, depth, decode)
        && EntriesWellFormed(es[1..], depth, decode))
  }


  /** No name of `acc` is a name of `es`. */
  predicate Apart(acc: seq<Entry>, es: seq<Entry>)
  {
    forall i, j :: 0 <= i < |acc| && 0 <= j < |es| ==> acc[i].name != es[j].name
  }

  // One step of the loader each: what it gives once the pieces before are
  // known. Positions and counts come in as names, so that each outcome is
  // stated with the very terms the next step expects.

  /** `load_tag` hands each id to its case. */
  lemma TagStep(src: Source, id: byte, pos: nat, depth: nat, current: nat)
    requires pos <= |src.data|
    ensures id == 9 ==> LoadTag(src, id, pos, depth, current) == LoadList(src, pos, depth, current)
    ensures id == 10 ==> LoadTag(src, id, pos, depth, current) == LoadCompound(src, pos, depth, current)
    ensures id != 9 && id != 10 ==> LoadTag(src, id, pos, depth, current) == LoadLeaf(src, id, pos, current)
  {
  }

  lemma EndStep(src: Source, pos: nat, current: nat, spent: nat)
    requires pos <= |src.data| && spent == current + 64 && spent <= src.limit < U64_MOD
    ensures LoadLeaf(src, 0, pos, current) == Ok(Loaded(End, pos, spent))
  {
  }

  lemma ScalarStep(src: Source, id: byte, pos: nat, current: nat, v: int, next: nat, spent: nat)
    requires pos <= |src.data| && 1 <= id <= 6
    requires ReadAt(ScalarType(id), src.data, pos) == Ok((v, next))
    requires spent == current + ScalarCharge(id) && spent <= src.limit < U64_MOD
    ensures LoadLeaf(src, id, pos, current) == Ok(Loaded(MakeScalar(id, v), next, spent))
  {
  }

  lemma ByteArrayStep(src: Source, pos: nat, current: nat, n: nat, start: nat, bytes: seq<byte>, end: nat,
                      spent: nat)
    requires pos <= |src.data|
    requires ReadAt(Primitives.I32, src.data, pos) == Ok((n, start))
    requires spent == current + 192 + Charge(8, n) && spent <= src.limit < U64_MOD
    requires ReadExact(src.data, start, n) == Ok((bytes, end))
    ensures LoadLeaf(src, 7, pos, current) == Ok(Loaded(ByteArray(bytes), end, spent))
  {
  }

  lemma StringStep(src: Source, pos: nat, current: nat, s: string, end: nat, spent: nat)
    requires pos <= |src.data|
    requires ReadString(src.decode, src.data, pos) == Ok((s, end))
    requires spent == current + 288 + Charge(16, Mutf8.Utf8Len(s)) && spent <= src.limit < U64_MOD
    ensures LoadLeaf(src, 8, pos, current) == Ok(Loaded(Str(s), end, spent))
  {
  }

  lemma ArrayStep(src: Source, id: byte, pos: nat, current: nat, n: nat, start: nat, c2: nat,
                  r: Result<Loaded<Tag>>)
    requires pos <= |src.data| && (id == 11 || id == 12)
    requires ReadAt(Primitives.I32, src.data, pos) == Ok((n, start))
    requires c2 == current + 192 + ArrayCharge(id, n) && c2 <= src.limit < U64_MOD
    requires ArrayValues(src.data, id, n, start, c2) == r
    ensures LoadLeaf(src, id, pos, current) == r
  {
  }

  lemma ArrayValuesStep(data: seq<byte>, id: byte, vs: seq<int>, n: nat, pos: nat, current: nat, end: nat)
    requires pos <= |data| && (id == 11 || id == 12)
    requires ReadValues(ArrayType(id), data, pos, n, Zeros(n)) == Ok((vs, end))
    ensures forall i :: 0 <= i < |vs| ==> Primitives.InRange(ArrayType(id), vs[i])
    ensures ArrayValues(data, id, n, pos, current) == Ok(Loaded(ArrayTag(id, vs), end, current))
  {
    ZerosInRange(ArrayType(id), n);
    ReadValuesInRange(ArrayType(id), data, pos, n, Zeros(n));
  }

  lemma ListStep(src: Source, t: Tag, pos: nat, depth: nat, current: nat, n: nat, p1: nat, p2: nat, c2: nat,
                 end: nat, spent: nat)
    requires t.List? && n == |t.items|
    requires pos <= |src.data| && depth <= MAX_DEPTH
    requires ReadAt(Primitives.U8, src.data, pos) == Ok((t.elem, p1))
    requires p1 <= |src.data| && ReadAt(Primitives.I32, src.data, p1) == Ok((n, p2))
    requires t.elem == 0 ==> n == 0
    requires c2 == current + 296 + Charge(32, n) && c2 <= src.limit < U64_MOD
    requires LoadItems(src, t.elem, [], n, p2, depth, c2) == Ok(Loaded([] + ReloadedItems(t.items), end, spent))
    ensures LoadList(src, pos, depth, current) == Ok(Loaded(Reloaded(t), end, spent))
  {
    ListHeadStep(src, pos, depth, current, t.elem, n, p1, p2, c2);
    assert [] + ReloadedItems(t.items) == ReloadedItems(t.items);
  }

  /** The list as the element loop leaves it: its error, or the elements it loaded. */
  function ListOf(elem: byte, r: Result<Loaded<seq<Tag>>>): Result<Loaded<Tag>>
  {
    if r.Err? then Err(r.error) else Ok(Loaded(List(elem, r.value.value), r.value.pos, r.value.current))
  }

  /** Past its header, a list is what the element loop makes of it. */
  lemma ListHeadStep(src: Source, pos: nat, depth: nat, current: nat, elem: byte, n: nat, p1: nat, p2: nat, c2: nat)
    requires pos <= |src.data| && depth <= MAX_DEPTH
    requires ReadAt(Primitives.U8, src.data, pos) == Ok((elem, p1))
    requires p1 <= |src.data| && ReadAt(Primitives.I32, src.data, p1) == Ok((n, p2))
    requires elem == 0 ==> n == 0
    requires c2 == current + 296 + Charge(32, n) && c2 <= src.limit < U64_MOD
    ensures LoadList(src, pos, depth, current) == ListOf(elem, LoadItems(src, elem, [], n, p2, depth, c2))
  {
    assert Account(src.limit, current, 296) == Ok(current + 296);
    assert Account(src.limit, current + 296, Charge(32, n)) == Ok(c2);
  }

  lemma ItemsEndStep(src: Source, elem: byte, acc: seq<Tag>, items: seq<Tag>, count: nat, pos: nat, depth: nat,
                     current: nat, end: nat, spent: nat)
    requires pos <= |src.data| && depth <= MAX_DEPTH
    requires forall i :: 0 <= i < |acc| ==> Valid(acc[i])
    requires |items| == 0 && count == 0 && end == pos + |WriteItems(items)| && spent == current + CostItems(items)
    ensures LoadItems(src, elem, acc, count, pos, depth, current) == Ok(Loaded(acc + ReloadedItems(items), end, spent))
  {
    assert acc + ReloadedItems(items) == acc;
  }

  lemma ItemsStep(src: Source, elem: byte, acc: seq<Tag>, count: nat, pos: nat, depth: nat, current: nat,
                  v: Tag, next: nat, c: nat)
    requires pos <= |src.data| && depth <= MAX_DEPTH && count > 0
    requires forall i :: 0 <= i < |acc| ==> Valid(acc[i])
    requires LoadTag(src, elem, pos, depth + 1, current) == Ok(Loaded(v, next, c))
    ensures next <= |src.data| && Valid(v)
    ensures LoadItems(src, elem, acc, count, pos, depth, current) == LoadItems(src, elem, acc + [v], count - 1, next, depth, c)
  {
  }

  lemma CompoundStep(src: Source, t: Tag, pos: nat, depth: nat, current: nat, c1: nat, end: nat, spent: nat)
    requires t.Compound?
    requires pos <= |src.data| && depth <= MAX_DEPTH
    requires c1 == current + 384 && c1 <= src.limit < U64_MOD
    requires LoadEntries(src, [], pos, depth, c1) == Ok(Loaded([] + ReloadedEntries(t.entries), end, spent))
    ensures LoadCompound(src, pos, depth, current) == Ok(Loaded(Reloaded(t), end, spent))
  {
    CompoundHeadStep(src, pos, depth, current, c1);
    assert [] + ReloadedEntries(t.entries) == ReloadedEntries(t.entries);
  }

  /** The compound as the entry loop leaves it: its error, or the entries it loaded. */
  function CompoundOf(r: Result<Loaded<seq<Entry>>>): Result<Loaded<Tag>>
  {
    if r.Err? then Err(r.error) else Ok(Loaded(Compound(r.value.value), r.value.pos, r.value.current))
  }

  /** Past its charge, a compound is what the entry loop makes of it. */
  lemma CompoundHeadStep(src: Source, pos: nat, depth: nat, current: nat, c1: nat)
    requires pos <= |src.data| && depth <= MAX_DEPTH
    requires c1 == current + 384 && c1 <= src.limit < U64_MOD
    ensures LoadCompound(src, pos, depth, current) == CompoundOf(LoadEntries(src, [], pos, depth, c1))
  {
    assert Account(src.limit, current, 384) == Ok(c1);
  }

  lemma EntriesEndStep(src: Source, acc: seq<Entry>, es: seq<Entry>, pos: nat, depth: nat, current: nat,
                       end: nat, spent: nat)
    requires pos <= |src.data| && depth <= MAX_DEPTH
    requires forall i :: 0 <= i < |acc| ==> Valid(acc[i].value)
    requires |es| == 0 && ReadAt(Primitives.U8, src.data, pos) == Ok((0, end))
    requires spent == current + CostEntries(es)
    ensures LoadEntries(src, acc, pos, depth, current) == Ok(Loaded(acc + ReloadedEntries(es), end, spent))
  {
    assert acc + ReloadedEntries(es) == acc;
  }

  lemma EntriesStep(src: Source, es: seq<Entry>, pos: nat, depth: nat, current: nat, id: byte, p1: nat,
                    next: seq<Entry>, q: nat, c: nat)
    requires pos <= |src.data| && depth <= MAX_DEPTH
    requires forall i :: 0 <= i < |es| ==> Valid(es[i].value)
    requires ReadAt(Primitives.U8, src.data, pos) == Ok((id, p1)) && id != 0
    requires p1 <= |src.data| && LoadEntry(src, id, es, p1, depth, current) == Ok(Loaded(next, q, c))
    ensures q <= |src.data| && forall i :: 0 <= i < |next| ==> Valid(next[i].value)
    ensures LoadEntries(src, es, pos, depth, current) == LoadEntries(src, next, q, depth, c)
  {
  }

  lemma EntryStep(src: Source, id: byte, es: seq<Entry>, pos: nat, depth: nat, current: nat,
                  name: string, p2: nat, c1: nat)
    requires pos <= |src.data| && depth <= MAX_DEPTH
    requires forall i :: 0 <= i < |es| ==> Valid(es[i].value)
    requires ReadString(src.decode, src.data, pos) == Ok((name, p2))
    requires c1 == current + NameCharge(name) && c1 <= src.limit < U64_MOD
    ensures p2 <= |src.data|
    ensures LoadEntry(src, id, es, pos, depth, current) == InsertLoaded(src, id, es, name, p2, depth, c1)
  {
    assert Account(src.limit, current, NameCharge(name)) == Ok(c1);
  }

  /** A value under a new name is appended and costs nothing more. */
  lemma InsertNewStep(src: Source, id: byte, es: seq<Entry>, name: string, pos: nat, depth: nat, current: nat,
                      v: Tag, next: nat, c: nat)
    requires pos <= |src.data| && depth <= MAX_DEPTH
    requires forall i :: 0 <= i < |es| ==> Valid(es[i].value)
    requires forall i :: 0 <= i < |es| ==> es[i].name != name
    requires LoadTag(src, id, pos, depth + 1, current) == Ok(Loaded(v, next, c))
    ensures InsertLoaded(src, id, es, name, pos, depth, current) == Ok(Loaded(es + [Entry(name, v)], next, c))
  {
    FindAbsent(es, name);
  }

  // The round trip, case by case.

  /**
   * The round trip of `write_tag` and `load_tag`: a well-formed tree
   * written at `pos` loads back as `Reloaded(t)`, ending at `next`, the
   * end of the bytes written, and charging `Cost(t)` to reach `spent`,
   * whenever that fits the limit.
   */
  lemma {:induction false} LoadWritten(src: Source, t: Tag, pos: nat, depth: nat, current: nat, next: nat, spent: nat)
    requires Valid(t) && WellFormed(t, depth, src.decode)
    requires At(src.data, pos, Write(t))
    requires next == pos + |Write(t)| && spent == current + Cost(t) && spent <= src.limit < U64_MOD
    ensures LoadTag(src, Id(t), pos, depth, current) == Ok(Loaded(Reloaded(t), next, spent))
    decreases t, 2
  {
    match t {
      case List(_, _) => LoadListWritten(src, t, pos, depth, current, next, spent);
      case Compound(_) => LoadCompoundWritten(src, t, pos, depth, current, next, spent);
      case _ => LoadLeafWritten(src, t, pos, current, next, spent);
    }
    TagStep(src, Id(t), pos, depth, current);
  }

  lemma LoadLeafWritten(src: Source, t: Tag, pos: nat, current: nat, next: nat, spent: nat)
    requires !t.List? && !t.Compound?
    requires Valid(t) && WellFormed(t, 0, src.decode)
    requires At(src.data, pos, Write(t))
    requires next == pos + |Write(t)| && spent == current + Cost(t) && spent <= src.limit < U64_MOD
    ensures LoadLeaf(src, Id(t), pos, current) == Ok(Loaded(Reloaded(t), next, spent))
  {
    match t
    case End => EndStep(src, pos, current, spent);
    case ByteArray(bytes) => LoadByteArrayWritten(src, t, bytes, pos, current, next, spent);
    case Str(s) => LoadStringWritten(src, t, s, pos, current, next, spent);
    case IntArray(xs) => LoadArrayWritten(src, t, 11, xs, pos, current, next, spent);
    case LongArray(xs) => LoadArrayWritten(src, t, 12, xs, pos, current, next, spent);
    case _ => LoadScalarWritten(src, t, pos, current, next, spent);
  }

  /** A scalar of the type `id` names: its bytes and charge. */
  lemma ScalarWritten(src: Source, t: Tag, id: byte, v: int, pos: nat, current: nat, next: nat, spent: nat)
    requires 1 <= id <= 6 && Primitives.InRange(ScalarType(id), v) && t == MakeScalar(id, v)
    requires At(src.data, pos, Primitives.Write(ScalarType(id), v))
    requires next == pos + ScalarType(id).ByteCount()
    requires spent == current + ScalarCharge(id) && spent <= src.limit < U64_MOD
    ensures LoadLeaf(src, id, pos, current) == Ok(Loaded(t, next, spent))
  {
    ReadAtWritten(ScalarType(id), v, src.data, pos, next);
    ScalarStep(src, id, pos, current, v, next, spent);
  }

  lemma LoadScalarWritten(src: Source, t: Tag, pos: nat, current: nat, next: nat, spent: nat)
    requires IsScalar(t) && Valid(t)
    requires At(src.data, pos, Write(t))
    requires next == pos + |Write(t)| && spent == current + Cost(t) && spent <= src.limit < U64_MOD
    ensures LoadLeaf(src, Id(t), pos, current) == Ok(Loaded(Reloaded(t), next, spent))
  {
    match t
    case Byte(b) => ScalarWritten(src, t, 1, b, pos, current, next, spent);
    case Short(bits) => ScalarWritten(src, t, 2, bits, pos, current, next, spent);
    case Int(i) => ScalarWritten(src, t, 3, i, pos, current, next, spent);
    case Long(l) => ScalarWritten(src, t, 4, l, pos, current, next, spent);
    case Float(bits) => ScalarWritten(src, t, 5, bits, pos, current, next, spent);
    case Double(bits) => ScalarWritten(src, t, 6, bits, pos, current, next, spent);
  }

  lemma LoadByteArrayWritten(src: Source, t: Tag, bytes: seq<byte>, pos: nat, current: nat, next: nat, spent: nat)
    requires t == ByteArray(bytes) && |bytes| < 0x8000_0000
    requires At(src.data, pos, Write(t))
    requires next == pos + |Write(t)| && spent == current + Cost(t) && spent <= src.limit < U64_MOD
    ensures LoadLeaf(src, Id(t), pos, current) == Ok(Loaded(Reloaded(t), next, spent))
  {
    SmallPrefix(|bytes|);
    var start := pos + 4;
    AtSplit(src.data, pos, LengthPrefix(|bytes|), bytes, start);
    ReadAtWritten(Primitives.I32, |bytes|, src.data, pos, start);
    ByteArrayStep(src, pos, current, |bytes|, start, bytes, next, spent);
  }

  lemma LoadStringWritten(src: Source, t: Tag, s: string, pos: nat, current: nat, next: nat, spent: nat)
    requires t == Str(s) && Readable(src.decode, s)
    requires At(src.data, pos, Write(t))
    requires next == pos + |Write(t)| && spent == current + Cost(t) && spent <= src.limit < U64_MOD
    ensures LoadLeaf(src, Id(t), pos, current) == Ok(Loaded(Reloaded(t), next, spent))
  {
    ReadStringWritten(src.decode, src.data, pos, s, next);
    StringStep(src, pos, current, s, next, spent);
  }

  /** An int or long array's element type, bytes, value read back and charge. */
  lemma ArrayShape(t: Tag, id: byte, xs: seq<int>)
    requires (t == IntArray(xs) && id == 11) || (t == LongArray(xs) && id == 12)
    requires Valid(t)
    ensures Id(t) == id && forall i :: 0 <= i < |xs| ==> Primitives.InRange(ArrayType(id), xs[i])
    ensures Write(t) == LengthPrefix(|xs|) + WriteValues(ArrayType(id), xs)
    ensures Reloaded(t) == ArrayTag(id, Zeros(|xs|) + xs) && Cost(t) == 192 + ArrayCharge(id, |xs|)
  {
  }

  lemma LoadArrayWritten(src: Source, t: Tag, id: byte, xs: seq<int>, pos: nat, current: nat, next: nat, spent: nat)
    requires (t == IntArray(xs) && id == 11) || (t == LongArray(xs) && id == 12)
    requires Valid(t) && |xs| < 0x8000_0000
    requires At(src.data, pos, Write(t))
    requires next == pos + |Write(t)| && spent == current + Cost(t) && spent <= src.limit < U64_MOD
    ensures LoadLeaf(src, Id(t), pos, current) == Ok(Loaded(Reloaded(t), next, spent))
  {
    ArrayShape(t, id, xs);
    SmallPrefix(|xs|);
    var start := pos + 4;
    AtSplit(src.data, pos, LengthPrefix(|xs|), WriteValues(ArrayType(id), xs), start);
    ReadAtWritten(Primitives.I32, |xs|, src.data, pos, start);
    ReadValuesWritten(ArrayType(id), xs, src.data, start, Zeros(|xs|), |xs|, next);
    ArrayValuesStep(src.data, id, Zeros(|xs|) + xs, |xs|, start, spent, next);
    ArrayStep(src, id, pos, current, |xs|, start, spent, Ok(Loaded(ArrayTag(id, Zeros(|xs|) + xs), next, spent)));
  }

  /** The pieces of a list: its header, items, charge and what comes back. */
  lemma ListShape(t: Tag, depth: nat, decode: seq<byte> -> Option<string>)
    requires t.List? && Valid(t) && WellFormed(t, depth, decode)
    ensures depth <= MAX_DEPTH && |t.items| < 0x8000_0000 && (t.elem == 0 ==> |t.items| == 0)
    ensures forall i :: 0 <= i < |t.items| ==> Valid(t.items[i])
    ensures ItemsWellFormed(t.elem, t.items, depth + 1, decode)
    ensures |Write(t)| == 5 + |WriteItems(t.items)|
    ensures Cost(t) == 296 + Charge(32, |t.items|) + CostItems(t.items)
  {
  }

  /** The bytes of a list, split where the loader reads them. */
  lemma ListBytes(data: seq<byte>, t: Tag, pos: nat, p1: nat, p2: nat)
    requires t.List? && Valid(t) && |t.items| < 0x8000_0000
    requires At(data, pos, Write(t))
    requires p1 == pos + 1 && p2 == p1 + 4
    ensures At(data, pos, Primitives.Write(Primitives.U8, t.elem))
    ensures At(data, p1, Primitives.Write(Primitives.I32, |t.items|))
    ensures At(data, p2, WriteItems(t.items))
  {
    SmallPrefix(|t.items|);
    ByteWritten(t.elem);
    AtSplit(data, pos, [t.elem] + LengthPrefix(|t.items|), WriteItems(t.items), p2);
    AtSplit(data, pos, [t.elem], LengthPrefix(|t.items|), p1);
  }

  /** The element id, the length and the elements of a list, then its items' round trip. */
  lemma {:induction false} LoadListWritten(src: Source, t: Tag, pos: nat, depth: nat, current: nat,
                                           next: nat, spent: nat)
    requires t.List? && Valid(t) && WellFormed(t, depth, src.decode)
    requires At(src.data, pos, Write(t))
    requires next == pos + |Write(t)| && spent == current + Cost(t) && spent <= src.limit < U64_MOD
    ensures LoadList(src, pos, depth, current) == Ok(Loaded(Reloaded(t), next, spent))
    decreases t, 1
  {
    ListShape(t, depth, src.decode);
    var n := |t.items|;
    var p1 := pos + 1;
    var p2 := p1 + 4;
    var c2 := current + 296 + Charge(32, n);
    ListBytes(src.data, t, pos, p1, p2);
    ReadAtWritten(Primitives.U8, t.elem, src.data, pos, p1);
    ReadAtWritten(Primitives.I32, n, src.data, p1, p2);
    LoadItemsWritten(src, t.elem, t.items, [], p2, depth, c2, n, next, spent);
    ListStep(src, t, pos, depth, current, n, p1, p2, c2, next, spent);
  }

  /** What loading `t` at `pos` gives, consumes and charges, by name. */
  lemma Outcome(t: Tag, pos: nat, current: nat) returns (v: Tag, next: nat, spent: nat)
    requires Valid(t)
    ensures v == Reloaded(t) && next == pos + |Write(t)| && spent == current + Cost(t)
  {
    v, next, spent := Reloaded(t), pos + |Write(t)|, current + Cost(t);
  }

  /** The first item of a list, read back, then the others after it. */
  lemma ReloadedItemsCons(acc: seq<Tag>, items: seq<Tag>)
    requires |items| > 0
    ensures acc + [Reloaded(items[0])] + ReloadedItems(items[1..]) == acc + ReloadedItems(items)
  {
  }

  /** The first item of a list: its id, bytes and charge, then the rest. */
  lemma ItemShape(data: seq<byte>, elem: byte, items: seq<Tag>, depth: nat, decode: seq<byte> -> Option<string>,
                  pos: nat, next: nat)
    requires |items| > 0 && forall i :: 0 <= i < |items| ==> Valid(items[i])
    requires ItemsWellFormed(elem, items, depth, decode)
    requires At(data, pos, WriteItems(items)) && next == pos + |Write(items[0])|
    ensures Id(items[0]) == elem && WellFormed(items[0], depth, decode)
    ensures ItemsWellFormed(elem, items[1..], depth, decode)
    ensures At(data, pos, Write(items[0])) && At(data, next, WriteItems(items[1..]))
    ensures |WriteItems(items)| == |Write(items[0])| + |WriteItems(items[1..])|
    ensures CostItems(items) == Cost(items[0]) + CostItems(items[1..])
  {
    AtSplit(data, pos, Write(items[0]), WriteItems(items[1..]), next);
  }

  lemma {:induction false} LoadItemsWritten(src: Source, elem: byte, items: seq<Tag>, acc: seq<Tag>, pos: nat,
                                            depth: nat, current: nat, count: nat, end: nat, spent: nat)
    requires depth <= MAX_DEPTH
    requires forall i :: 0 <= i < |acc| ==> Valid(acc[i])
    requires forall i :: 0 <= i < |items| ==> Valid(items[i])
    requires ItemsWellFormed(elem, items, depth + 1, src.decode)
    requires At(src.data, pos, WriteItems(items))
    requires count == |items| && end == pos + |WriteItems(items)| && spent == current + CostItems(items)
    requires spent <= src.limit < U64_MOD
    ensures LoadItems(src, elem, acc, count, pos, depth, current)
            == Ok(Loaded(acc + ReloadedItems(items), end, spent))
    decreases items, 0
  {
    if |items| == 0 {
      ItemsEndStep(src, elem, acc, items, count, pos, depth, current, end, spent);
    } else {
      var head := items[0];
      var v, next, c := Outcome(head, pos, current);
      ItemShape(src.data, elem, items, depth + 1, src.decode, pos, next);
      LoadWritten(src, head, pos, depth + 1, current, next, c);
      ItemsStep(src, elem, acc, count, pos, depth, current, v, next, c);
      LoadItemsWritten(src, elem, items[1..], acc + [v], next, depth, c, count - 1, end, spent);
      ReloadedItemsCons(acc, items);
    }
  }

  /** The pieces of a compound: its entries, charge and what comes back. */
  lemma CompoundShape(t: Tag, depth: nat, decode: seq<byte> -> Option<string>)
    requires t.Compound? && Valid(t) && WellFormed(t, depth, decode)
    ensures depth <= MAX_DEPTH && DistinctNames(t.entries)
    ensures forall i :: 0 <= i < |t.entries| ==> Valid(t.entries[i].value)
    ensures EntriesWellFormed(t.entries, depth + 1, decode)
    ensures Write(t) == WriteEntries(t.entries) && Cost(t) == 384 + CostEntries(t.entries)
  {
  }

  lemma {:induction false} LoadCompoundWritten(src: Source, t: Tag, pos: nat, depth: nat, current: nat,
                                               next: nat, spent: nat)
    requires t.Compound? && Valid(t) && WellFormed(t, depth, src.decode)
    requires At(src.data, pos, Write(t))
    requires next == pos + |Write(t)| && spent == current + Cost(t) && spent <= src.limit < U64_MOD
    ensures LoadCompound(src, pos, depth, current) == Ok(Loaded(Reloaded(t), next, spent))
    decreases t, 1
  {
    CompoundShape(t, depth, src.decode);
    var c1 := current + 384;
    LoadEntriesWritten(src, t.entries, [], pos, depth, c1, next, spent);
    CompoundStep(src, t, pos, depth, current, c1, next, spent);
  }

  /** The first entry of a compound, read back, then the others after it. */
  lemma ReloadedEntriesCons(acc: seq<Entry>, es: seq<Entry>)
    requires |es| > 0
    ensures acc + [Entry(es[0].name, Reloaded(es[0].value))] + ReloadedEntries(es[1..]) == acc + ReloadedEntries(es)
  {
  }

  /** The first entry of a compound: its id, bytes and charge, then the rest. */
  lemma EntryShape(data: seq<byte>, es: seq<Entry>, depth: nat, decode: seq<byte> -> Option<string>,
                   pos: nat, p1: nat, p2: nat, p3: nat)
    requires |es| > 0 && forall i :: 0 <= i < |es| ==> Valid(es[i].value)
    requires EntriesWellFormed(es, depth, decode)
    requires At(data, pos, WriteEntries(es))
    requires p1 == pos + 1 && p2 == p1 + |WriteString(es[0].name)| && p3 == p2 + |Write(es[0].value)|
    ensures Id(es[0].value) != 0 && Readable(decode, es[0].name) && WellFormed(es[0].value, depth, decode)
    ensures EntriesWellFormed(es[1..], depth, decode)
    ensures At(data, pos, Primitives.Write(Primitives.U8, Id(es[0].value)))
    ensures At(data, p1, WriteString(es[0].name)) && At(data, p2, Write(es[0].value))
    ensures At(data, p3, WriteEntries(es[1..]))
    ensures |WriteEntries(es)| == p3 - pos + |WriteEntries(es[1..])|
    ensures CostEntries(es) == NameCharge(es[0].name) + Cost(es[0].value) + CostEntries(es[1..])
  {
    var e := es[0];
    ByteWritten(Id(e.value));
    AtSplit(data, pos, [Id(e.value)] + WriteString(e.name) + Write(e.value), WriteEntries(es[1..]), p3);
    AtSplit(data, pos, [Id(e.value)] + WriteString(e.name), Write(e.value), p2);
    AtSplit(data, pos, [Id(e.value)], WriteString(e.name), p1);
  }

  /** The first entry of a compound, loaded back: the loop goes on after it. */
  lemma {:induction false} EntryWritten(src: Source, es: seq<Entry>, acc: seq<Entry>, pos: nat, depth: nat,
                                        current: nat)
      returns (next: seq<Entry>, q: nat, c: nat)
    requires depth <= MAX_DEPTH && |es| > 0
    requires forall i :: 0 <= i < |acc| ==> Valid(acc[i].value)
    requires forall i :: 0 <= i < |es| ==> Valid(es[i].value)
    requires Apart(acc, es) && EntriesWellFormed(es, depth + 1, src.decode)
    requires At(src.data, pos, WriteEntries(es))
    requires current + CostEntries(es) <= src.limit < U64_MOD
    ensures next == acc + [Entry(es[0].name, Reloaded(es[0].value))]
    ensures q <= |src.data| && forall i :: 0 <= i < |next| ==> Valid(next[i].value)
    ensures EntriesWellFormed(es[1..], depth + 1, src.decode) && At(src.data, q, WriteEntries(es[1..]))
    ensures |WriteEntries(es)| == q - pos + |WriteEntries(es[1..])|
    ensures CostEntries(es) == c - current + CostEntries(es[1..])
    ensures LoadEntries(src, acc, pos, depth, current) == LoadEntries(src, next, q, depth, c)
    decreases es, 0
  {
    var e := es[0];
    var p1 := pos + 1;
    var p2 := p1 + |WriteString(e.name)|;
    var c1 := current + NameCharge(e.name);
    var v;
    v, q, c := Outcome(e.value, p2, c1);
    next := acc + [Entry(e.name, v)];
    EntryShape(src.data, es, depth + 1, src.decode, pos, p1, p2, q);
    ReadAtWritten(Primitives.U8, Id(e.value), src.data, pos, p1);
    ReadStringWritten(src.decode, src.data, p1, e.name, p2);
    LoadWritten(src, e.value, p2, depth + 1, c1, q, c);
    InsertNewStep(src, Id(e.value), acc, e.name, p2, depth, c1, v, q, c);
    EntryStep(src, Id(e.value), acc, p1, depth, current, e.name, p2, c1);
    EntriesStep(src, acc, pos, depth, current, Id(e.value), p1, next, q, c);
  }

  lemma {:induction false} LoadEntriesWritten(src: Source, es: seq<Entry>, acc: seq<Entry>, pos: nat, depth: nat,
                                              current: nat, end: nat, spent: nat)
    requires depth <= MAX_DEPTH
    requires forall i :: 0 <= i < |acc| ==> Valid(acc[i].value)
    requires forall i :: 0 <= i < |es| ==> Valid(es[i].value)
    requires DistinctNames(es) && Apart(acc, es) && EntriesWellFormed(es, depth + 1, src.decode)
    requires At(src.data, pos, WriteEntries(es))
    requires end == pos + |WriteEntries(es)| && spent == current + CostEntries(es) && spent <= src.limit < U64_MOD
    ensures LoadEntries(src, acc, pos, depth, current) == Ok(Loaded(acc + ReloadedEntries(es), end, spent))
    decreases es, 1
  {
    if |es| == 0 {
      ByteWritten(0);
      ReadAtWritten(Primitives.U8, 0, src.data, pos, end);
      EntriesEndStep(src, acc, es, pos, depth, current, end, spent);
    } else {
      var next, q, c := EntryWritten(src, es, acc, pos, depth, current);
      assert Apart(next, es[1..]);
      LoadEntriesWritten(src, es[1..], next, q, depth, c, end, spent);
      ReloadedEntriesCons(acc, es);
    }
  }
}
