/**
 * The imperative side of the `drax_core` NBT codec: `load_tag` and its
 * loops over a `Read` handle and a mutable `NbtAccounter`, and the size
 * loops of `size_tag` and `size_compound_tag`. Each method is proved to
 * leave the stream, the accounter and its result exactly as the
 * corresponding function of `NbtCore` says.
 */
module NbtCoreMethods {
  import opened Bytes
  import opened NbtTag
  import opened NbtStream
  import NbtCore
  import Primitives
  import Mutf8

  /** `read_string`. */
  method ReadString(s: Stream, decode: seq<byte> -> Option<string>) returns (r: Result<string>)
    requires s.Valid()
    modifies s
    ensures s.Valid()
    ensures ReadsAs(r, NbtCore.ReadString(decode, s.data, old(s.pos)), s.pos)
  {
    var len :- s.ReadInt(Primitives.U16);
    if len == 0 {
      return Ok("");
    }
    var bytes := s.ReadBytes(len);
    if bytes.Err? {
      return Err(Explain(NbtCore.UNDER_READ));
    }
    match decode(bytes.value) {
      case None => return Err(Explain(NbtCore.CESU8_ERROR));
      case Some(str) => return Ok(str);
    }
  }

  /** `skip_string`. */
  method SkipString(s: Stream) returns (r: Result<()>)
    requires s.Valid()
    modifies s
    ensures s.Valid()
    ensures var spec := NbtCore.SkipString(s.data, old(s.pos));
            (r.Ok? <==> spec.Ok?) && (spec.Ok? ==> s.pos == spec.value) && (spec.Err? ==> r.error == spec.error)
  {
    var len :- s.ReadInt(Primitives.U16);
    s.Skip(len);
    return Ok(());
  }

  /** `load_tag(tag_bit, read, depth, accounter)`. */
  method LoadTag(s: Stream, acc: NbtCore.NbtAccounter, decode: seq<byte> -> Option<string>, id: byte, depth: nat)
    returns (r: Result<Tag>)
    requires s.Valid()
    modifies s, acc
    ensures s.Valid()
    ensures Agrees(r, NbtCore.LoadTag(NbtCore.Source(s.data, acc.limit, decode), id, old(s.pos), depth, old(acc.current)),
                   s.pos, acc.current)
    decreases NbtCore.Fuel(depth), 2, 0
  {
    if id == 9 {
      r := LoadList(s, acc, decode, depth);
    } else if id == 10 {
      r := LoadCompound(s, acc, decode, depth);
    } else {
      r := LoadLeaf(s, acc, decode, id);
    }
  }

  /** The cases of `load_tag` that hold no other tag. */
  method LoadLeaf(s: Stream, acc: NbtCore.NbtAccounter, decode: seq<byte> -> Option<string>, id: byte)
    returns (r: Result<Tag>)
    requires s.Valid() && id != 9 && id != 10
    modifies s, acc
    ensures s.Valid()
    ensures Agrees(r, NbtCore.LoadLeaf(NbtCore.Source(s.data, acc.limit, decode), id, old(s.pos), old(acc.current)),
                   s.pos, acc.current)
  {
    if id == 0 {
      var charged :- acc.AccountBits(64);
      return Ok(End);
    } else if id <= 6 {
      var charged :- acc.AccountBits(NbtCore.ScalarCharge(id));
      var v :- s.ReadInt(NbtCore.ScalarType(id));
      return Ok(NbtCore.MakeScalar(id, v));
    } else if id == 7 {
      r := LoadByteArray(s, acc, decode);
    } else if id == 8 {
      r := LoadString(s, acc, decode);
    } else if id == 11 || id == 12 {
      r := LoadArray(s, acc, decode, id);
    } else {
      return Err(Explain(NbtCore.UNKNOWN_TAG));
    }
  }

  /** Id 7. */
  method LoadByteArray(s: Stream, acc: NbtCore.NbtAccounter, decode: seq<byte> -> Option<string>)
    returns (r: Result<Tag>)
    requires s.Valid()
    modifies s, acc
    ensures s.Valid()
    ensures Agrees(r, NbtCore.LoadByteArray(NbtCore.Source(s.data, acc.limit, decode), old(s.pos), old(acc.current)),
                   s.pos, acc.current)
  {
    var charged :- acc.AccountBits(192);
    var size :- s.ReadInt(Primitives.I32);
    var charged2 :- acc.AccountBits(NbtCore.Charge(8, size));
    if size < 0 {
      return Err(Panic(NbtCore.CAPACITY_OVERFLOW));
    }
    var bytes :- s.ReadBytes(size);
    return Ok(ByteArray(bytes));
  }

  /** Id 8. */
  method LoadString(s: Stream, acc: NbtCore.NbtAccounter, decode: seq<byte> -> Option<string>)
    returns (r: Result<Tag>)
    requires s.Valid()
    modifies s, acc
    ensures s.Valid()
    ensures Agrees(r, NbtCore.LoadString(NbtCore.Source(s.data, acc.limit, decode), old(s.pos), old(acc.current)),
                   s.pos, acc.current)
  {
    var charged :- acc.AccountBits(288);
    var str :- ReadString(s, decode);
    var charged2 :- acc.AccountBits(NbtCore.Charge(16, Mutf8.Utf8Len(str)));
    return Ok(Str(str));
  }

  /** Ids 11 and 12: the zero-filled vector, then a loop pushing `len` values. */
  method LoadArray(s: Stream, acc: NbtCore.NbtAccounter, decode: seq<byte> -> Option<string>, id: byte)
    returns (r: Result<Tag>)
    requires s.Valid() && (id == 11 || id == 12)
    modifies s, acc
    ensures s.Valid()
    ensures Agrees(r, NbtCore.LoadArray(NbtCore.Source(s.data, acc.limit, decode), id, old(s.pos), old(acc.current)),
                   s.pos, acc.current)
  {
    var charged :- acc.AccountBits(192);
    var len :- s.ReadInt(Primitives.I32);
    var charged2 :- acc.AccountBits(NbtCore.ArrayCharge(id, len));
    if len < 0 {
      return Err(Panic(NbtCore.CAPACITY_OVERFLOW));
    }
    r := ArrayLoop(s, id, len);
  }

  /** The array loop: `len` values read and pushed after the `len` zeros the vector starts with. */
  method ArrayLoop(s: Stream, id: byte, len: nat) returns (r: Result<Tag>)
    requires s.Valid() && (id == 11 || id == 12)
    modifies s
    ensures s.Valid()
    ensures var spec := NbtCore.ArrayValues(s.data, id, len, old(s.pos), 0);
            (r.Ok? <==> spec.Ok?)
            && (spec.Ok? ==> r.value == spec.value.value && s.pos == spec.value.pos)
            && (spec.Err? ==> r.error == spec.error)
  {
    var t := NbtCore.ArrayType(id);
    NbtCore.ZerosInRange(t, len);
    ReadValuesInRange(t, s.data, s.pos, len, NbtCore.Zeros(len));
    ghost var spec := ReadValues(t, s.data, s.pos, len, NbtCore.Zeros(len));
    var values := s.ReadMany(t, len, NbtCore.Zeros(len));
    if values.Err? {
      return Err(values.error);
    }
    assert spec.Ok? && values.value == spec.value.0;
    assert forall i :: 0 <= i < |values.value| ==> Primitives.InRange(t, values.value[i]);
    return Ok(NbtCore.ArrayTag(id, values.value));
  }

  /** The list case of `load_tag`. */
  method LoadList(s: Stream, acc: NbtCore.NbtAccounter, decode: seq<byte> -> Option<string>, depth: nat)
    returns (r: Result<Tag>)
    requires s.Valid()
    modifies s, acc
    ensures s.Valid()
    ensures Agrees(r, NbtCore.LoadList(NbtCore.Source(s.data, acc.limit, decode), old(s.pos), depth, old(acc.current)),
                   s.pos, acc.current)
    decreases NbtCore.Fuel(depth), 1, 0
  {
    var charged :- acc.AccountBits(296);
    if depth > NbtCore.MAX_DEPTH {
      return Err(Explain(NbtCore.DEPTH_EXCEEDED));
    }
    var listType :- s.ReadInt(Primitives.U8);
    var listLen :- s.ReadInt(Primitives.I32);
    if listType == 0 && listLen > 0 {
      return Err(Explain(NbtCore.MISSING_TYPE));
    }
    var charged2 :- acc.AccountBits(NbtCore.Charge(32, listLen));
    var tags :- LoadItems(s, acc, decode, listType, if listLen < 0 then 0 else listLen, depth);
    return Ok(List(listType, tags));
  }

  /** The list loop: `count` elements loaded one level deeper and pushed in order. */
  method LoadItems(s: Stream, acc: NbtCore.NbtAccounter, decode: seq<byte> -> Option<string>,
                   elem: byte, count: nat, depth: nat)
    returns (r: Result<seq<Tag>>)
    requires s.Valid() && depth <= NbtCore.MAX_DEPTH
    modifies s, acc
    ensures s.Valid()
    ensures Agrees(r, NbtCore.LoadItems(NbtCore.Source(s.data, acc.limit, decode), elem, [], count, old(s.pos), depth,
                                        old(acc.current)),
                   s.pos, acc.current)
    decreases NbtCore.Fuel(depth), 0, count
  {
    ghost var src := NbtCore.Source(s.data, acc.limit, decode);
    ghost var spec := NbtCore.LoadItems(src, elem, [], count, s.pos, depth, acc.current);
    var tags: seq<Tag> := [];
    var i := 0;
    while i < count
      invariant s.Valid() && i <= count
      invariant forall k :: 0 <= k < |tags| ==> Valid(tags[k])
      invariant spec == NbtCore.LoadItems(src, elem, tags, count - i, s.pos, depth, acc.current)
      decreases count - i
    {
      var tag :- LoadTag(s, acc, decode, elem, depth + 1);
      tags := tags + [tag];
      i := i + 1;
    }
    return Ok(tags);
  }

  /** The compound case of `load_tag`. */
  method LoadCompound(s: Stream, acc: NbtCore.NbtAccounter, decode: seq<byte> -> Option<string>, depth: nat)
    returns (r: Result<Tag>)
    requires s.Valid()
    modifies s, acc
    ensures s.Valid()
    ensures Agrees(r, NbtCore.LoadCompound(NbtCore.Source(s.data, acc.limit, decode), old(s.pos), depth, old(acc.current)),
                   s.pos, acc.current)
    decreases NbtCore.Fuel(depth), 1, 0
  {
    var charged :- acc.AccountBits(384);
    if depth > NbtCore.MAX_DEPTH {
      return Err(Explain(NbtCore.DEPTH_EXCEEDED));
    }
    var mappings :- LoadEntries(s, acc, decode, depth);
    return Ok(Compound(mappings));
  }

  /** The compound loop: entries are read until an id of 0. */
  method LoadEntries(s: Stream, acc: NbtCore.NbtAccounter, decode: seq<byte> -> Option<string>, depth: nat)
    returns (r: Result<seq<Entry>>)
    requires s.Valid() && depth <= NbtCore.MAX_DEPTH
    modifies s, acc
    ensures s.Valid()
    ensures Agrees(r, NbtCore.LoadEntries(NbtCore.Source(s.data, acc.limit, decode), [], old(s.pos), depth,
                                          old(acc.current)),
                   s.pos, acc.current)
    decreases NbtCore.Fuel(depth), 0, 2
  {
    ghost var src := NbtCore.Source(s.data, acc.limit, decode);
    ghost var spec := NbtCore.LoadEntries(src, [], s.pos, depth, acc.current);
    var mappings: seq<Entry> := [];
    while true
      invariant s.Valid()
      invariant forall k :: 0 <= k < |mappings| ==> Valid(mappings[k].value)
      invariant spec == NbtCore.LoadEntries(src, mappings, s.pos, depth, acc.current)
      decreases |s.data| - s.pos
    {
      var nextByte :- s.ReadInt(Primitives.U8);
      if nextByte == 0 {
        return Ok(mappings);
      }
      mappings :- LoadEntry(s, acc, decode, nextByte, mappings, depth);
    }
  }

  /**
   * One entry after its id: the name and its charge, the tag one level
   * deeper, and `insert`, with 288 more bits for a name seen before.
   */
  method LoadEntry(s: Stream, acc: NbtCore.NbtAccounter, decode: seq<byte> -> Option<string>, id: byte,
                   mappings: seq<Entry>, depth: nat)
    returns (r: Result<seq<Entry>>)
    requires s.Valid() && depth <= NbtCore.MAX_DEPTH && id != 0
    requires forall k :: 0 <= k < |mappings| ==> Valid(mappings[k].value)
    modifies s, acc
    ensures s.Valid()
    ensures Agrees(r, NbtCore.LoadEntry(NbtCore.Source(s.data, acc.limit, decode), id, mappings, old(s.pos), depth,
                                        old(acc.current)),
                   s.pos, acc.current)
    decreases NbtCore.Fuel(depth), 0, 1
  {
    var tagName :- ReadString(s, decode);
    var charged :- acc.AccountBits((224 + NbtCore.Charge(16, Mutf8.Utf8Len(tagName))) % U64_MOD);
    r := InsertLoaded(s, acc, decode, id, mappings, tagName, depth);
  }

  /** The value of an entry named `name`, put into the map. */
  method InsertLoaded(s: Stream, acc: NbtCore.NbtAccounter, decode: seq<byte> -> Option<string>, id: byte,
                      mappings: seq<Entry>, name: string, depth: nat)
    returns (r: Result<seq<Entry>>)
    requires s.Valid() && depth <= NbtCore.MAX_DEPTH
    requires forall k :: 0 <= k < |mappings| ==> Valid(mappings[k].value)
    modifies s, acc
    ensures s.Valid()
    ensures Agrees(r, NbtCore.InsertLoaded(NbtCore.Source(s.data, acc.limit, decode), id, mappings, name, old(s.pos),
                                           depth, old(acc.current)),
                   s.pos, acc.current)
    decreases NbtCore.Fuel(depth), 0, 0
  {
    var tag :- LoadTag(s, acc, decode, id, depth + 1);
    var inserted := Insert(mappings, name, tag);
    if inserted.1 {
      var charged :- acc.AccountBits(288);
    }
    return Ok(inserted.0);
  }

  /** `read_nbt`: a fresh accounter with the given limit. */
  method ReadNbt(s: Stream, decode: seq<byte> -> Option<string>, limit: nat) returns (r: Result<Option<seq<Entry>>>)
    requires s.Valid()
    modifies s
    ensures s.Valid()
    ensures ReadsAs(r, NbtCore.ReadNbt(NbtCore.Source(s.data, limit, decode), old(s.pos)), s.pos)
  {
    var accounter := new NbtCore.NbtAccounter(limit);
    var bit :- s.ReadInt(Primitives.U8);
    if bit == 0 {
      return Ok(None);
    } else if bit != COMPOUND_TAG_BIT as int {
      return Err(Explain(NbtCore.ROOT_NOT_COMPOUND));
    }
    var skipped :- SkipString(s);
    var tag :- LoadTag(s, accounter, decode, COMPOUND_TAG_BIT, 0);
    match tag {
      case Compound(mappings) => return Ok(Some(mappings));
      case _ => return Err(Explain(NbtCore.INVALID_ROOT));
    }
  }

  // ---------------------------------------------------------------
  // Sizes
  // ---------------------------------------------------------------

  /** `size_tag`; the list case sums its elements in a loop. */
  method SizeTag(t: Tag) returns (size: nat)
    ensures size == NbtCore.SizeTag(t)
    decreases t, 1
  {
    match t {
      case List(_, items) =>
        size := 5;
        var i := 0;
        while i < |items|
          invariant i <= |items|
          invariant size + NbtCore.SizeItems(items[i..]) == 5 + NbtCore.SizeItems(items)
        {
          assert items[i..][1..] == items[i + 1..];
          var n := SizeTag(items[i]);
          size := size + n;
          i := i + 1;
        }
      case Compound(es) =>
        size := SizeCompound(es);
      case _ =>
        size := NbtCore.SizeTag(t);
    }
  }

  /** `size_compound_tag`: a mutable total, returned early at an `EndTag` value. */
  method SizeCompound(es: seq<Entry>) returns (size: nat)
    ensures size == NbtCore.SizeEntries(es)
    decreases es, 0
  {
    size := 0;
    var i := 0;
    while i < |es|
      invariant i <= |es|
      invariant size + NbtCore.SizeEntries(es[i..]) == NbtCore.SizeEntries(es)
    {
      assert es[i..][1..] == es[i + 1..];
      if Id(es[i].value) == 0 {
        return size + 1;
      }
      size := size + 1 + NbtCore.SizeString(es[i].name);
      var n := SizeTag(es[i].value);
      size := size + n;
      i := i + 1;
    }
    assert es[i..] == [];
    return size + 1;
  }
}
