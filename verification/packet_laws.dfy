/**
 * What the packet components promise about `size`: it is the number of
 * bytes `encode` writes, as long as the vector and array short cut holds.
 */
module PacketLaws {
  import opened Bytes
  import opened Sizes
  import VarNum
  import Primitives
  import opened Packet

  // ---------------------------------------------------------------
  // Size equals the bytes written
  // ---------------------------------------------------------------

  /**
   * The element sizes of every vector and array in `v` are uniform: the
   * `Vec<T>` and `[T; N]` sizes take the first constant element size as
   * every element's.
   */
  predicate Coherent(k: Kind, v: Value)
    requires Has(k, v)
    decreases k, 1
  {
    match k
    case Array(e, _) =>
      Uniform(ItemSizes(e, v.items)) && forall i :: 0 <= i < |v.items| ==> Coherent(e, v.items[i])
    case List(e) =>
      Uniform(ItemSizes(e, v.items)) && forall i :: 0 <= i < |v.items| ==> Coherent(e, v.items[i])
    case Limited(e, _) =>
      Uniform(ItemSizes(e, v.items)) && forall i :: 0 <= i < |v.items| ==> Coherent(e, v.items[i])
    case Maybe(inner) => v.Present? ==> Coherent(inner, v.inner)
    case Struct(fs) => forall i :: 0 <= i < |fs| ==> Coherent(fs[i], v.vals[i])
    case Enum(key, cases) =>
      var c := cases[v.index];
      Coherent(if c.keyAs.Some? then c.keyAs.value else key, Num(c.literal))
      && forall i :: 0 <= i < |c.fields| ==> Coherent(c.fields[i], v.vals[i])
    case _ => true
  }

  /** A component's size counts exactly the bytes it writes. */
  lemma {:induction false} SizeEncode(k: Kind, v: Value)
    requires Has(k, v) && Coherent(k, v) && Encode(k, v).Ok?
    ensures SizeOf(k, v).n == |Encode(k, v).value|
    decreases k, 1, 0
  {
    match k
    case Array(e, _) =>
      SizeEncodeItems(e, v.items);
      ShortCutExact(ItemSizes(e, v.items), 0);
    case List(e) =>
      SizeEncodeItems(e, v.items);
      ShortCutExact(ItemSizes(e, v.items), |Prefix(|v.items|)|);
    case Limited(e, _) =>
      SizeEncodeItems(e, v.items);
      ShortCutExact(ItemSizes(e, v.items), |Prefix(|v.items|)|);
    case Maybe(inner) =>
      if v.Present? {
        SizeEncode(inner, v.inner);
      }
    case Struct(fs) =>
      SizeEncodeFields(k, fs, v.vals, 0);
    case Enum(key, cases) =>
      var c := cases[v.index];
      assert c in cases;
      var kk := if c.keyAs.Some? then c.keyAs.value else key;
      SizeEncode(kk, Num(c.literal));
      SizeEncodeFields(k, c.fields, v.vals, 0);
      TotalAppend([SizeOf(kk, Num(c.literal))], FieldSizes(k, c.fields, v.vals, 0));
    case Shield =>
      ShieldHeaderLength(v.bytes);
    case _ =>
  }

  /** The shield header adds four bytes around the string: VarInt 0, `0u16` and VarInt 2. */
  lemma ShieldHeaderLength(s: seq<byte>)
    ensures |ShieldHeader(s)| == |Prefix(|s|)| + |s| + 4
  {
    assert VarNum.Encode(VarNum.VarInt, 0) == [0] && VarNum.Encode(VarNum.VarInt, 2) == [2];
  }

  lemma {:induction false} SizeEncodeItems(e: Kind, items: seq<Value>)
    requires forall i :: 0 <= i < |items| ==> Has(e, items[i]) && Coherent(e, items[i])
    requires EncodeItems(e, items).Ok?
    ensures Total(ItemSizes(e, items)) == |EncodeItems(e, items).value|
    decreases e, 2, |items|
  {
    if |items| > 0 {
      SizeEncode(e, items[0]);
      SizeEncodeItems(e, items[1..]);
      TotalAppend([SizeOf(e, items[0])], ItemSizes(e, items[1..]));
    }
  }

  lemma {:induction false} SizeEncodeFields(parent: Kind, fs: seq<Kind>, vals: seq<Value>, i: nat)
    requires FieldsOf(parent, fs) && |vals| == |fs| && i <= |fs|
    requires forall j :: 0 <= j < |fs| ==> Has(fs[j], vals[j]) && Coherent(fs[j], vals[j])
    requires EncodeFields(parent, fs, vals, i).Ok?
    ensures Total(FieldSizes(parent, fs, vals, i)) == |EncodeFields(parent, fs, vals, i).value|
    decreases parent, 0, |fs| - i
  {
    if i < |fs| {
      SizeEncode(fs[i], vals[i]);
      SizeEncodeFields(parent, fs, vals, i + 1);
      TotalAppend([SizeOf(fs[i], vals[i])], FieldSizes(parent, fs, vals, i + 1));
    }
  }
}
