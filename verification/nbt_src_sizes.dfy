/**
 * What the `drax` NBT codec promises about sizes, the accounter and the
 * loader's refusals, proved about the functions of `NbtSrc`; and the
 * compound writer's missing id byte, shown on a concrete tree.
 */
module NbtSrcSizes {
  import opened Bytes
  import opened NbtTag
  import opened NbtStream
  import opened NbtSrc
  import NbtCore
  import NbtCoreLaws
  import Primitives
  import Mutf8

  // ---------------------------------------------------------------
  // Sizing against writing
  // ---------------------------------------------------------------

  /** `size_tag` counts exactly the bytes the writer emits, once every compound entry carries its id. */
  lemma {:induction false} SizeWrite(t: Tag)
    requires Valid(t)
    ensures |Write(t)| == SizeTag(t)
    decreases t, 1
  {
    match t
    case List(_, items) => SizeWriteItems(items);
    case Compound(es) => SizeWriteEntries(es);
    case _ => SizeWriteLeaf(t);
  }

  /** The same for a tag that holds no other tag: the bytes are those of the `drax_core` writer. */
  lemma SizeWriteLeaf(t: Tag)
    requires Valid(t) && !t.List? && !t.Compound?
    ensures |WriteLeaf(t)| == SizeTag(t)
  {
    if !t.Str? {
      NbtCoreLaws.SizeWriteLeaf(t);
      assert WriteLeaf(t) == NbtCore.Write(t);
    }
  }

  lemma {:induction false} SizeWriteItems(items: seq<Tag>)
    requires forall i :: 0 <= i < |items| ==> Valid(items[i])
    ensures |WriteItems(items)| == SizeItems(items)
    decreases items, 0
  {
    if |items| > 0 {
      SizeWrite(items[0]);
      SizeWriteItems(items[1..]);
    }
  }

  lemma {:induction false} SizeWriteEntries(es: seq<Entry>)
    requires forall i :: 0 <= i < |es| ==> Valid(es[i].value)
    ensures |WriteEntries(es)| == SizeEntries(es)
    decreases es, 0
  {
    if |es| > 0 {
      SizeWrite(es[0].value);
      SizeWriteEntries(es[1..]);
    }
  }

  /** The empty compound: the single byte 0, and a size of 1. */
  lemma EmptyCompound()
    ensures Write(Compound([])) == [0] && WriteAsWritten(Compound([])) == [0]
    ensures SizeTag(Compound([])) == 1
  {
  }

  /** How many compound entries the tree holds, at every level. */
  function EntryCount(t: Tag): nat
    decreases t, 1
  {
    match t
    case List(_, items) => ItemsEntryCount(items)
    case Compound(es) => EntriesEntryCount(es)
    case _ => 0
  }

  function ItemsEntryCount(items: seq<Tag>): nat
    decreases items, 0
  {
    if |items| == 0 then 0 else EntryCount(items[0]) + ItemsEntryCount(items[1..])
  }

  function EntriesEntryCount(es: seq<Entry>): nat
    decreases es, 0
  {
    if |es| == 0 then 0 else 1 + EntryCount(es[0].value) + EntriesEntryCount(es[1..])
  }

  /**
   * The crate's compound writer emits one byte fewer per entry than
   * `size_tag` counts: the id byte it leaves out.
   */
  lemma {:induction false} SizeWriteAsWritten(t: Tag)
    requires Valid(t)
    ensures SizeTag(t) == |WriteAsWritten(t)| + EntryCount(t)
    decreases t, 1
  {
    match t
    case List(_, items) => SizeItemsAsWritten(items);
    case Compound(es) => SizeEntriesAsWritten(es);
    case _ => SizeWriteLeaf(t);
  }

  lemma {:induction false} SizeItemsAsWritten(items: seq<Tag>)
    requires forall i :: 0 <= i < |items| ==> Valid(items[i])
    ensures SizeItems(items) == |ItemsAsWritten(items)| + ItemsEntryCount(items)
    decreases items, 0
  {
    if |items| > 0 {
      SizeWriteAsWritten(items[0]);
      SizeItemsAsWritten(items[1..]);
    }
  }

  lemma {:induction false} SizeEntriesAsWritten(es: seq<Entry>)
    requires forall i :: 0 <= i < |es| ==> Valid(es[i].value)
    ensures SizeEntries(es) == |EntriesAsWritten(es)| + EntriesEntryCount(es)
    decreases es, 0
  {
    if |es| > 0 {
      SizeWriteAsWritten(es[0].value);
      SizeEntriesAsWritten(es[1..]);
    }
  }

  /** The compound `{"a": 1b}`, as the crate writes it and as the loader expects it. */
  lemma OneEntryBytes()
    ensures NbtCore.WriteString("a") == [0, 1, 97]
    ensures WriteAsWritten(Compound([Entry("a", Byte(1))])) == [0, 1, 97, 1, 0]
    ensures Write(Compound([Entry("a", Byte(1))])) == [1, 0, 1, 97, 1, 0]
    ensures SizeTag(Compound([Entry("a", Byte(1))])) == 6
  {
    assert Mutf8.Encode("a") == Mutf8.EncodeChar('a') + Mutf8.Encode("");
    assert Mutf8.Utf8Len("a") == 1 by {
      assert Mutf8.Utf8Len("a") == Mutf8.Utf8Width('a') + Mutf8.Utf8Len("");
    }
    assert Primitives.Write(Primitives.U16, 1) == [0, 1] by {
      assert BeBytes(0, 1) == [0];
      assert BeBytes(1, 2) == [0, 1];
    }
    var es := [Entry("a", Byte(1))];
    assert es[1..] == [];
    assert Write(Byte(1)) == [1] && WriteAsWritten(Byte(1)) == [1];
  }

  /**
   * What the crate writes for `{"a": 1b}` does not load back: the
   * loader takes the name's first length byte, 0, for the end of the
   * compound and stops after one byte with no entry, where `size_tag`
   * promised six.
   */
  lemma AsWrittenLosesEntries(decode: seq<byte> -> Option<string>)
    ensures var data := WriteAsWritten(Compound([Entry("a", Byte(1))]));
            LoadTag(NbtCore.Source(data, 0, decode), COMPOUND_TAG_BIT, 0, 0, 0) == Ok(Loaded(Compound([]), 1, 0))
            && |data| + 1 == SizeTag(Compound([Entry("a", Byte(1))]))
  {
    OneEntryBytes();
    var data := WriteAsWritten(Compound([Entry("a", Byte(1))]));
    var src := NbtCore.Source(data, 0, decode);
    NbtCoreLaws.ByteWritten(0);
    assert data[0..1] == [0];
    NbtCoreLaws.ReadAtWritten(Primitives.U8, 0, data, 0, 1);
    assert LoadEntries(src, [], 0, 0, 0) == Ok(Loaded([], 1, 0));
  }

  // ---------------------------------------------------------------
  // The accounter
  // ---------------------------------------------------------------

  /**
   * Charging `a` then `b` succeeds exactly when charging `a + b` at once
   * does, and ends at the same count: only the total matters. With a
   * limit below 2^64, a count within the limit stays within it.
   */
  lemma AccountSplit(limit: nat, current: nat, a: nat, b: nat)
    requires limit < U64_MOD
    ensures var first := Account(limit, current, a);
            Account(limit, current, a + b).Ok?
            <==> first.Ok? && Account(limit, first.value, b).Ok?
    ensures var first := Account(limit, current, a);
            first.Ok? && Account(limit, first.value, b).Ok? ==>
              Account(limit, current, a + b) == Account(limit, first.value, b)
    ensures current <= limit && Account(limit, current, a).Ok? ==> Account(limit, current, a).value <= limit
  {
  }

  // ---------------------------------------------------------------
  // The loader's refusals
  // ---------------------------------------------------------------

  /** A list or compound deeper than 512 fails once its charge is taken, before a byte of it is read. */
  lemma DepthExceeded(src: NbtCore.Source, pos: nat, depth: nat, current: nat)
    requires pos <= |src.data| && depth > NbtCore.MAX_DEPTH
    ensures Account(src.limit, current, 37).Ok? ==>
              LoadTag(src, 9, pos, depth, current) == Err(Explain(DEPTH_EXCEEDED))
    ensures Account(src.limit, current, 48).Ok? ==>
              LoadTag(src, 10, pos, depth, current) == Err(Explain(DEPTH_EXCEEDED))
    ensures Account(src.limit, current, 48).Err? ==>
              LoadTag(src, 10, pos, depth, current) == Err(Account(src.limit, current, 48).error)
  {
  }

  /** A bit above 12 is refused before anything is charged or read. */
  lemma InvalidBit(src: NbtCore.Source, id: byte, pos: nat, depth: nat, current: nat)
    requires pos <= |src.data| && id > 12
    ensures LoadTag(src, id, pos, depth, current) == Err(Explain(INVALID_BIT))
  {
  }

  /**
   * A negative list length whose charge passes (always, under the limit
   * 0) ends in the failed allocation of `Vec::with_capacity`.
   */
  lemma NegativeListLength(src: NbtCore.Source, pos: nat, depth: nat, current: nat, elem: byte, n: int)
    requires pos + 5 <= |src.data| && depth <= NbtCore.MAX_DEPTH
    requires -0x8000_0000 <= n < 0
    requires src.data[pos] == elem && src.data[pos + 1..pos + 5] == Primitives.Write(Primitives.I32, n)
    requires src.limit == 0
    ensures LoadTag(src, 9, pos, depth, current) == Err(Panic(CAPACITY_OVERFLOW))
  {
    NbtCoreLaws.ByteWritten(elem);
    assert src.data[pos..pos + 1] == [elem];
    NbtCoreLaws.ReadAtWritten(Primitives.U8, elem, src.data, pos, pos + 1);
    NbtCoreLaws.ReadAtWritten(Primitives.I32, n, src.data, pos + 1, pos + 5);
  }

  /** A name already in the compound: the value is replaced where it stands, and nothing more is charged. */
  lemma DuplicateName(src: NbtCore.Source, id: byte, es: seq<Entry>, name: string, pos: nat, depth: nat,
                      current: nat)
    requires pos <= |src.data| && depth <= NbtCore.MAX_DEPTH
    requires forall i :: 0 <= i < |es| ==> Valid(es[i].value)
    requires Get(es, name).Some?
    requires LoadTag(src, id, pos, depth + 1, current).Ok?
    ensures var t := LoadTag(src, id, pos, depth + 1, current).value;
            InsertLoaded(src, id, es, name, pos, depth, current) == Ok(Loaded(Insert(es, name, t.value).0, t.pos, t.current))
    ensures var t := LoadTag(src, id, pos, depth + 1, current).value;
            |Insert(es, name, t.value).0| == |es| && Get(Insert(es, name, t.value).0, name) == Some(t.value)
  {
    var t := LoadTag(src, id, pos, depth + 1, current).value;
    InsertGet(es, name, t.value, name);
    assert Insert(es, name, t.value).1;
  }

  /** A new name is appended, and charged 36 bytes. */
  lemma NewName(src: NbtCore.Source, id: byte, es: seq<Entry>, name: string, pos: nat, depth: nat, current: nat)
    requires pos <= |src.data| && depth <= NbtCore.MAX_DEPTH
    requires forall i :: 0 <= i < |es| ==> Valid(es[i].value)
    requires Get(es, name).None?
    requires LoadTag(src, id, pos, depth + 1, current).Ok?
    ensures var t := LoadTag(src, id, pos, depth + 1, current).value;
            InsertLoaded(src, id, es, name, pos, depth, current)
            == (match Account(src.limit, t.current, 36)
                case Ok(c) => Ok(Loaded(es + [Entry(name, t.value)], t.pos, c))
                case Err(e) => Err(e))
  {
    var t := LoadTag(src, id, pos, depth + 1, current).value;
    InsertGet(es, name, t.value, name);
  }

  // ---------------------------------------------------------------
  // `EnsuredCompoundTag`
  // ---------------------------------------------------------------

  /** A leading 0 is `NoTag`, after one byte; a byte other than 0 and 10 is refused. */
  lemma DecodeFirstByte(data: seq<byte>, limit: nat, decode: seq<byte> -> Option<string>, pos: nat)
    requires pos < |data|
    ensures data[pos] == 0 ==> Decode(data, limit, decode, pos) == Ok((NoTag, pos + 1))
    ensures data[pos] != 0 && data[pos] != COMPOUND_TAG_BIT ==>
              Decode(data, limit, decode, pos) == Err(Explain(NOT_COMPOUND))
  {
    NbtCoreLaws.ByteWritten(data[pos]);
    assert data[pos..pos + 1] == [data[pos]];
    NbtCoreLaws.ReadAtWritten(Primitives.U8, data[pos], data, pos, pos + 1);
  }

  /** `NoTag` writes one byte and says so; a tagged value's size is its bytes, dynamically. */
  lemma SizeEncode(e: EnsuredCompoundTag)
    requires e.Tagged? ==> Valid(e.tag)
    ensures Size(e).n == |Encode(e)|
    ensures e.NoTag? ==> Encode(e) == [0] && Size(e) == Sizes.Constant(1)
  {
    if e.Tagged? {
      SizeWrite(e.tag);
      assert |NbtCore.WriteString("")| == 2;
    }
  }
}
