/**
 * The imperative side of the `drax` NBT codec: `read_string`, `load_tag`
 * and its loops over a `Read` handle and a mutable `NbtAccounter`,
 * `EnsuredCompoundTag::decode`, and the size loops of the list and
 * compound sizers. Each method is proved to leave the stream, the
 * accounter and its result exactly as the corresponding function of
 * `NbtSrc` says.
 */
module NbtSrcMethods {
  import opened Bytes
  import opened NbtTag
  import opened NbtStream
  import NbtCore
  import NbtSrc
  import Primitives
  import Mutf8

  /** `read_string`: the length, `read_exact`, the decoder, then the charge. */
  method ReadString(s: Stream, acc: NbtSrc.NbtAccounter, decode: seq<byte> -> Option<string>) returns (r: Result<string>)
    requires s.Valid()
    modifies s, acc
    ensures s.Valid()
    ensures Agrees(r, NbtSrc.ReadString(NbtCore.Source(s.data, acc.limit, decode), old(s.pos), old(acc.current)),
                   s.pos, acc.current)
  {
    var len :- s.ReadInt(Primitives.U16);
    var bytes :- s.ReadBytes(len);
    match decode(bytes) {
      case None => return Err(Cesu8);
      case Some(str) =>
        var charged :- acc.AccountBytes(Mutf8.Utf8Len(str));
        return Ok(str);
    }
  }

  /** `load_tag(read, bit, depth, accounter)`. */
  method LoadTag(s: Stream, acc: NbtSrc.NbtAccounter, decode: seq<byte> -> Option<string>, id: byte, depth: nat)
    returns (r: Result<Tag>)
    requires s.Valid()
    modifies s, acc
    ensures s.Valid()
    ensures Agrees(r, NbtSrc.LoadTag(NbtCore.Source(s.data, acc.limit, decode), id, old(s.pos), depth, old(acc.current)),
                   s.pos, acc.current)
    decreases NbtCore.Fuel(depth), 2, 0
  {
    if id == 9 {
      r := LoadList(s, acc, decode, depth);
    } else if id == 10 {
      r := LoadCompound(s, acc, decode, depth);
    } else {
      r := LoadLeaf(s, acc, decode, id);
    }
  }

  /** The cases of `load_tag` that hold no other tag. */
  method LoadLeaf(s: Stream, acc: NbtSrc.NbtAccounter, decode: seq<byte> -> Option<string>, id: byte)
    returns (r: Result<Tag>)
    requires s.Valid() && id != 9 && id != 10
    modifies s, acc
    ensures s.Valid()
    ensures Agrees(r, NbtSrc.LoadLeaf(NbtCore.Source(s.data, acc.limit, decode), id, old(s.pos), old(acc.current)),
                   s.pos, acc.current)
  {
    if id == 0 {
      var charged :- acc.AccountBytes(8);
      return Ok(End);
    } else if id <= 6 {
      var charged :- acc.AccountBytes(NbtSrc.ScalarCharge(id));
      var v :- s.ReadInt(NbtCore.ScalarType(id));
      return Ok(NbtCore.MakeScalar(id, v));
    } else if id == 7 {
      r := LoadByteArray(s, acc, decode);
    } else if id == 8 {
      var charged :- acc.AccountBytes(36);
      var str :- ReadString(s, acc, decode);
      return Ok(Str(str));
    } else if id == 11 || id == 12 {
      r := LoadArray(s, acc, decode, id);
    } else {
      return Err(Explain(NbtSrc.INVALID_BIT));
    }
  }

  /** Bit 7. */
  method LoadByteArray(s: Stream, acc: NbtSrc.NbtAccounter, decode: seq<byte> -> Option<string>)
    returns (r: Result<Tag>)
    requires s.Valid()
    modifies s, acc
    ensures s.Valid()
    ensures Agrees(r, NbtSrc.LoadByteArray(NbtCore.Source(s.data, acc.limit, decode), old(s.pos), old(acc.current)),
                   s.pos, acc.current)
  {
    var charged :- acc.AccountBytes(24);
    var len :- s.ReadInt(Primitives.I32);
    var charged2 :- acc.AccountBytes(AsUsize(len));
    if len < 0 {
      return Err(Panic(NbtSrc.CAPACITY_OVERFLOW));
    }
    var bytes :- s.ReadBytes(len);
    return Ok(ByteArray(bytes));
  }

  /** Bits 11 and 12: the zero-filled vector, then a loop pushing `len` values. */
  method LoadArray(s: Stream, acc: NbtSrc.NbtAccounter, decode: seq<byte> -> Option<string>, id: byte)
    returns (r: Result<Tag>)
    requires s.Valid() && (id == 11 || id == 12)
    modifies s, acc
    ensures s.Valid()
    ensures Agrees(r, NbtSrc.LoadArray(NbtCore.Source(s.data, acc.limit, decode), id, old(s.pos), old(acc.current)),
                   s.pos, acc.current)
  {
    var charged :- acc.AccountBytes(24);
    var len :- s.ReadInt(Primitives.I32);
    var charged2 :- acc.AccountBytes(NbtSrc.ArrayCharge(id, len));
    if len < 0 {
      return Err(Panic(NbtSrc.CAPACITY_OVERFLOW));
    }
    var t := NbtCore.ArrayType(id);
    NbtCore.ZerosInRange(t, len);
    ReadValuesInRange(t, s.data, s.pos, len, NbtCore.Zeros(len));
    ghost var spec := ReadValues(t, s.data, s.pos, len, NbtCore.Zeros(len));
    var values := s.ReadMany(t, len, NbtCore.Zeros(len));
    if values.Err? {
      return Err(values.error);
    }
    assert spec.Ok? && values.value == spec.value.0;
    assert forall i :: 0 <= i < |values.value| ==> Primitives.InRange(t, values.value[i]);
    return Ok(NbtCore.ArrayTag(id, values.value));
  }

  /** Bit 9. */
  method LoadList(s: Stream, acc: NbtSrc.NbtAccounter, decode: seq<byte> -> Option<string>, depth: nat)
    returns (r: Result<Tag>)
    requires s.Valid()
    modifies s, acc
    ensures s.Valid()
    ensures Agrees(r, NbtSrc.LoadList(NbtCore.Source(s.data, acc.limit, decode), old(s.pos), depth, old(acc.current)),
                   s.pos, acc.current)
    decreases NbtCore.Fuel(depth), 1, 0
  {
    var charged :- acc.AccountBytes(37);
    if depth > NbtCore.MAX_DEPTH {
      return Err(Explain(NbtSrc.DEPTH_EXCEEDED));
    }
    var tagByte :- s.ReadInt(Primitives.U8);
    var length :- s.ReadInt(Primitives.I32);
    var charged2 :- acc.AccountBytes(NbtSrc.Scaled(4, length));
    if length < 0 {
      return Err(Panic(NbtSrc.CAPACITY_OVERFLOW));
    }
    var tags :- LoadItems(s, acc, decode, tagByte, length, depth);
    return Ok(List(tagByte, tags));
  }

  /** The list loop: `count` elements loaded one level deeper and pushed in order. */
  method LoadItems(s: Stream, acc: NbtSrc.NbtAccounter, decode: seq<byte> -> Option<string>,
                   elem: byte, count: nat, depth: nat)
    returns (r: Result<seq<Tag>>)
    requires s.Valid() && depth <= NbtCore.MAX_DEPTH
    modifies s, acc
    ensures s.Valid()
    ensures Agrees(r, NbtSrc.LoadItems(NbtCore.Source(s.data, acc.limit, decode), elem, [], count, old(s.pos), depth,
                                       old(acc.current)),
                   s.pos, acc.current)
    decreases NbtCore.Fuel(depth), 0, count
  {
    ghost var src := NbtCore.Source(s.data, acc.limit, decode);
    ghost var spec := NbtSrc.LoadItems(src, elem, [], count, s.pos, depth, acc.current);
    var tags: seq<Tag> := [];
    var i := 0;
    while i < count
      invariant s.Valid() && i <= count
      invariant forall k :: 0 <= k < |tags| ==> Valid(tags[k])
      invariant spec == NbtSrc.LoadItems(src, elem, tags, count - i, s.pos, depth, acc.current)
      decreases count - i
    {
      var tag :- LoadTag(s, acc, decode, elem, depth + 1);
      tags := tags + [tag];
      i := i + 1;
    }
    return Ok(tags);
  }

  /** Bit 10. */
  method LoadCompound(s: Stream, acc: NbtSrc.NbtAccounter, decode: seq<byte> -> Option<string>, depth: nat)
    returns (r: Result<Tag>)
    requires s.Valid()
    modifies s, acc
    ensures s.Valid()
    ensures Agrees(r, NbtSrc.LoadCompound(NbtCore.Source(s.data, acc.limit, decode), old(s.pos), depth, old(acc.current)),
                   s.pos, acc.current)
    decreases NbtCore.Fuel(depth), 1, 0
  {
    var charged :- acc.AccountBytes(48);
    if depth > NbtCore.MAX_DEPTH {
      return Err(Explain(NbtSrc.DEPTH_EXCEEDED));
    }
    var entries :- LoadEntries(s, acc, decode, depth);
    return Ok(Compound(entries));
  }

  /** The compound loop: entries are read until a bit of 0. */
  method LoadEntries(s: Stream, acc: NbtSrc.NbtAccounter, decode: seq<byte> -> Option<string>, depth: nat)
    returns (r: Result<seq<Entry>>)
    requires s.Valid() && depth <= NbtCore.MAX_DEPTH
    modifies s, acc
    ensures s.Valid()
    ensures Agrees(r, NbtSrc.LoadEntries(NbtCore.Source(s.data, acc.limit, decode), [], old(s.pos), depth,
                                         old(acc.current)),
                   s.pos, acc.current)
    decreases NbtCore.Fuel(depth), 0, 2
  {
    ghost var src := NbtCore.Source(s.data, acc.limit, decode);
    ghost var spec := NbtSrc.LoadEntries(src, [], s.pos, depth, acc.current);
    var entries: seq<Entry> := [];
    while true
      invariant s.Valid()
      invariant forall k :: 0 <= k < |entries| ==> Valid(entries[k].value)
      invariant spec == NbtSrc.LoadEntries(src, entries, s.pos, depth, acc.current)
      decreases |s.data| - s.pos
    {
      var tagByte :- s.ReadInt(Primitives.U8);
      if tagByte == 0 {
        return Ok(entries);
      }
      entries :- LoadEntry(s, acc, decode, tagByte, entries, depth);
    }
  }

  /** One entry after its bit: 28 bytes, the key, the value one level deeper, and the insertion. */
  method LoadEntry(s: Stream, acc: NbtSrc.NbtAccounter, decode: seq<byte> -> Option<string>, id: byte,
                   entries: seq<Entry>, depth: nat)
    returns (r: Result<seq<Entry>>)
    requires s.Valid() && depth <= NbtCore.MAX_DEPTH
    requires forall k :: 0 <= k < |entries| ==> Valid(entries[k].value)
    modifies s, acc
    ensures s.Valid()
    ensures Agrees(r, NbtSrc.LoadEntry(NbtCore.Source(s.data, acc.limit, decode), id, entries, old(s.pos), depth,
                                       old(acc.current)),
                   s.pos, acc.current)
    decreases NbtCore.Fuel(depth), 0, 1
  {
    var charged :- acc.AccountBytes(28);
    var key :- ReadString(s, acc, decode);
    var data :- LoadTag(s, acc, decode, id, depth + 1);
    var inserted := Insert(entries, key, data);
    if !inserted.1 {
      var charged2 :- acc.AccountBytes(36);
    }
    return Ok(inserted.0);
  }

  /** `EnsuredCompoundTag::decode` with an accounter of limit `limit`. */
  method Decode(s: Stream, decode: seq<byte> -> Option<string>, limit: nat) returns (r: Result<NbtSrc.EnsuredCompoundTag>)
    requires s.Valid()
    modifies s
    ensures s.Valid()
    ensures ReadsAs(r, NbtSrc.Decode(s.data, limit, decode, old(s.pos)), s.pos)
  {
    var b :- s.ReadInt(Primitives.U8);
    if b == 0 {
      return Ok(NbtSrc.NoTag);
    }
    if b != COMPOUND_TAG_BIT as int {
      return Err(Explain(NbtSrc.NOT_COMPOUND));
    }
    var accounter := new NbtSrc.NbtAccounter(limit);
    var name :- ReadString(s, accounter, decode);
    var tag :- LoadTag(s, accounter, decode, b, 0);
    return Ok(NbtSrc.Tagged(tag));
  }

  // ---------------------------------------------------------------
  // Sizes
  // ---------------------------------------------------------------

  /** `size_tag`; the list case sums its elements in a loop. */
  method SizeTag(t: Tag) returns (size: nat)
    ensures size == NbtSrc.SizeTag(t)
    decreases t, 1
  {
    match t {
      case List(_, items) =>
        var sum := 0;
        var i := 0;
        while i < |items|
          invariant i <= |items|
          invariant sum + NbtSrc.SizeItems(items[i..]) == NbtSrc.SizeItems(items)
        {
          assert items[i..][1..] == items[i + 1..];
          var n := SizeTag(items[i]);
          sum := sum + n;
          i := i + 1;
        }
        size := 5 + sum;
      case Compound(es) =>
        size := SizeCompound(es);
      case _ =>
        size := NbtSrc.SizeTag(t);
    }
  }

  /** The compound sizer: 1 when empty; otherwise name, bit and payload per entry, then 1. */
  method SizeCompound(es: seq<Entry>) returns (size: nat)
    ensures size == NbtSrc.SizeEntries(es)
    decreases es, 0
  {
    if |es| == 0 {
      return 1;
    }
    size := 0;
    var i := 0;
    while i < |es|
      invariant i <= |es|
      invariant size + NbtSrc.SizeEntries(es[i..]) == NbtSrc.SizeEntries(es)
    {
      assert es[i..][1..] == es[i + 1..];
      size := size + NbtSrc.SizeString(es[i].name) + 1;
      var n := SizeTag(es[i].value);
      size := size + n;
      i := i + 1;
    }
    assert es[i..] == [];
    return size + 1;
  }
}
