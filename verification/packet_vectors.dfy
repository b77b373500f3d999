/**
 * The packet tests of both transport generations, stated over the
 * component universe: the `Example` struct and `ExampleEnum` of the
 * macro tests, the hand-written `Example` of the first generation, and
 * `Maybe<u8>`.
 */
module PacketVectors {
  import opened Bytes
  import opened Sizes
  import VarNum
  import Primitives
  import opened Packet
  import PacketRoundTrip
  import PacketEdges

  /** `struct_packet_components! { Example { v_int; VarInt, uu: i32 } }` */
  const Example: Kind := Struct([Var(VarNum.VarInt), Int(Primitives.I32)])

  /** `ExampleEnum`: keyed by a `VarInt`, arm 0 `{ v_int; VarInt, reg_int: i32 }`, arm 1 the reverse. */
  const ExampleEnum: Kind :=
    Enum(Var(VarNum.VarInt), [Case(0, None, [Var(VarNum.VarInt), Int(Primitives.I32)]),
                              Case(1, None, [Int(Primitives.I32), Var(VarNum.VarInt)])])

  /** The first generation's `Example { v_int: i32 as VarInt, uu: u8 }`. */
  const CoreExample: Kind := Struct([Var(VarNum.VarInt), Octet])

  lemma SmallFacts()
    ensures VarNum.Encode(VarNum.VarInt, 25) == [25]
    ensures VarNum.Encode(VarNum.VarInt, 0) == [0]
    ensures VarNum.Encode(VarNum.VarInt, 1) == [1]
    ensures Primitives.Write(Primitives.I32, 10) == [0, 0, 0, 10]
  {
    VarNum.EncodeVectors();
    Primitives.PrimitiveVectors();
    assert VarNum.Groups(0) == [0];
    assert VarNum.Groups(1) == [1];
  }

  /** A two-field record writes its first field, then its second. */
  lemma EncodePair(parent: Kind, fs: seq<Kind>, vals: seq<Value>)
    requires FieldsOf(parent, fs) && |fs| == 2 && |vals| == 2
    requires Has(fs[0], vals[0]) && Has(fs[1], vals[1])
    requires Encode(fs[0], vals[0]).Ok? && Encode(fs[1], vals[1]).Ok?
    ensures EncodeFields(parent, fs, vals, 0) == Ok(Encode(fs[0], vals[0]).value + Encode(fs[1], vals[1]).value)
  {
    var b1 := Encode(fs[1], vals[1]).value;
    assert EncodeFields(parent, fs, vals, 2) == Ok([]);
    assert b1 + [] == b1;
  }

  /** A two-field record reports its first field's size, then its second's. */
  lemma SizePair(parent: Kind, fs: seq<Kind>, vals: seq<Value>)
    requires FieldsOf(parent, fs) && |fs| == 2 && |vals| == 2
    requires Has(fs[0], vals[0]) && Has(fs[1], vals[1])
    ensures FieldSizes(parent, fs, vals, 0) == [SizeOf(fs[0], vals[0]), SizeOf(fs[1], vals[1])]
  {
    assert FieldSizes(parent, fs, vals, 2) == [];
  }

  /** The record size of two fields: constant unless a dynamic one adds bytes. */
  lemma RecordOfTwo(a: Size, b: Size)
    ensures RecordSizeOf([a, b]).n == a.n + b.n
    ensures RecordSizeOf([a, b]).Dynamic? <==> (a.Dynamic? && a.n > 0) || (b.Dynamic? && b.n > 0)
  {
    assert [a, b][..1] == [a];
    assert [a][..0] == [];
    assert Total([a]) == a.n;
    assert ConstantPart([a]) == (if a.Constant? then a.n else 0);
    assert Total([a, b]) == a.n + b.n;
    assert ConstantPart([a, b]) == (if a.Constant? then a.n else 0) + (if b.Constant? then b.n else 0);
  }

  /** The record size of three fields, as `RecordOfTwo`. */
  lemma RecordOfThree(a: Size, b: Size, c: Size)
    ensures RecordSizeOf([a, b, c]).n == a.n + b.n + c.n
    ensures RecordSizeOf([a, b, c]).Dynamic? <==> (a.Dynamic? && a.n > 0) || (b.Dynamic? && b.n > 0) || (c.Dynamic? && c.n > 0)
  {
    assert [a, b, c][..2] == [a, b];
    assert [a, b][..1] == [a];
    assert [a][..0] == [];
    assert ConstantPart([a]) == (if a.Constant? then a.n else 0);
    assert ConstantPart([a, b]) == (if a.Constant? then a.n else 0) + (if b.Constant? then b.n else 0);
    assert Total([a]) == a.n;
    assert Total([a, b]) == a.n + b.n;
    assert Total([a, b, c]) == a.n + b.n + c.n;
    assert ConstantPart([a, b, c])
           == (if a.Constant? then a.n else 0) + (if b.Constant? then b.n else 0) + (if c.Constant? then c.n else 0);
  }

  // `Example { v_int: 25, uu: 10 }` and `[25, 0, 0, 0, 10]`

  lemma ExampleEncodes()
    ensures Has(Example, Fields([Num(25), Num(10)]))
    ensures Encode(Example, Fields([Num(25), Num(10)])) == Ok([25, 0, 0, 0, 10])
  {
    SmallFacts();
    EncodePair(Example, Example.fields, [Num(25), Num(10)]);
    assert [25] + [0, 0, 0, 10] == [25, 0, 0, 0, 10];
  }

  lemma ExampleDecodes()
    ensures Decode(Example, [25, 0, 0, 0, 10]) == Ok((Fields([Num(25), Num(10)]), 5))
  {
    ExampleEncodes();
    PacketRoundTrip.DecodeEncode(Example, Fields([Num(25), Num(10)]), []);
    assert [25, 0, 0, 0, 10] + [] == [25, 0, 0, 0, 10];
  }

  lemma ExampleSize()
    ensures Has(Example, Fields([Num(25), Num(10)]))
    ensures SizeOf(Example, Fields([Num(25), Num(10)])) == Dynamic(5)
  {
    SmallFacts();
    SizePair(Example, Example.fields, [Num(25), Num(10)]);
    RecordOfTwo(Dynamic(1), Constant(4));
  }

  // `ExampleEnum::Variant1 { v_int: 25, reg_int: 10 }` and `[0, 25, 0, 0, 0, 10]`

  /** An arm of two fields, keyed with the enum's own key type, writes the key and then its fields. */
  lemma EnumPairEncodes(key: Kind, cases: seq<Case>, i: nat, vals: seq<Value>)
    requires i < |cases| && cases[i].keyAs.None? && |cases[i].fields| == 2 && |vals| == 2
    requires Has(key, Num(cases[i].literal))
    requires Has(cases[i].fields[0], vals[0]) && Has(cases[i].fields[1], vals[1])
    requires Encode(key, Num(cases[i].literal)).Ok?
    requires Encode(cases[i].fields[0], vals[0]).Ok? && Encode(cases[i].fields[1], vals[1]).Ok?
    ensures Has(Enum(key, cases), Variant(i, vals))
    ensures Encode(Enum(key, cases), Variant(i, vals))
            == Ok(Encode(key, Num(cases[i].literal)).value
                  + (Encode(cases[i].fields[0], vals[0]).value + Encode(cases[i].fields[1], vals[1]).value))
  {
    assert cases[i] in cases;
    EncodePair(Enum(key, cases), cases[i].fields, vals);
  }

  /** The same arm reports the record size of its key and its two fields. */
  lemma EnumPairSize(key: Kind, cases: seq<Case>, i: nat, vals: seq<Value>)
    requires i < |cases| && cases[i].keyAs.None? && |cases[i].fields| == 2 && |vals| == 2
    requires Has(key, Num(cases[i].literal))
    requires Has(cases[i].fields[0], vals[0]) && Has(cases[i].fields[1], vals[1])
    ensures Has(Enum(key, cases), Variant(i, vals))
    ensures SizeOf(Enum(key, cases), Variant(i, vals))
            == RecordSizeOf([SizeOf(key, Num(cases[i].literal)),
                             SizeOf(cases[i].fields[0], vals[0]), SizeOf(cases[i].fields[1], vals[1])])
  {
    assert cases[i] in cases;
    SizePair(Enum(key, cases), cases[i].fields, vals);
    var a, b, c := SizeOf(key, Num(cases[i].literal)), SizeOf(cases[i].fields[0], vals[0]), SizeOf(cases[i].fields[1], vals[1]);
    assert [a] + [b, c] == [a, b, c];
  }

  lemma Variant1Encodes()
    ensures Has(ExampleEnum, Variant(0, [Num(25), Num(10)]))
    ensures Encode(ExampleEnum, Variant(0, [Num(25), Num(10)])) == Ok([0, 25, 0, 0, 0, 10])
  {
    SmallFacts();
    EnumPairEncodes(ExampleEnum.key, ExampleEnum.cases, 0, [Num(25), Num(10)]);
    assert [0] + ([25] + [0, 0, 0, 10]) == [0, 25, 0, 0, 0, 10];
  }

  lemma Variant1Decodes()
    ensures Decode(ExampleEnum, [0, 25, 0, 0, 0, 10]) == Ok((Variant(0, [Num(25), Num(10)]), 6))
  {
    Variant1Encodes();
    PacketRoundTrip.DecodeEncode(ExampleEnum, Variant(0, [Num(25), Num(10)]), []);
    assert [0, 25, 0, 0, 0, 10] + [] == [0, 25, 0, 0, 0, 10];
  }

  lemma Variant1Size()
    ensures Has(ExampleEnum, Variant(0, [Num(25), Num(10)]))
    ensures SizeOf(ExampleEnum, Variant(0, [Num(25), Num(10)])) == Dynamic(6)
  {
    SmallFacts();
    EnumPairSize(ExampleEnum.key, ExampleEnum.cases, 0, [Num(25), Num(10)]);
    RecordOfThree(Dynamic(1), Dynamic(1), Constant(4));
  }

  // `ExampleEnum::Variant2 { reg_int: 10, v_int: 25 }` and `[1, 0, 0, 0, 10, 25]`

  lemma Variant2Encodes()
    ensures Has(ExampleEnum, Variant(1, [Num(10), Num(25)]))
    ensures Encode(ExampleEnum, Variant(1, [Num(10), Num(25)])) == Ok([1, 0, 0, 0, 10, 25])
  {
    SmallFacts();
    EnumPairEncodes(ExampleEnum.key, ExampleEnum.cases, 1, [Num(10), Num(25)]);
    assert [1] + ([0, 0, 0, 10] + [25]) == [1, 0, 0, 0, 10, 25];
  }

  lemma Variant2Decodes()
    ensures Decode(ExampleEnum, [1, 0, 0, 0, 10, 25]) == Ok((Variant(1, [Num(10), Num(25)]), 6))
  {
    Variant2Encodes();
    PacketRoundTrip.DecodeEncode(ExampleEnum, Variant(1, [Num(10), Num(25)]), []);
    assert [1, 0, 0, 0, 10, 25] + [] == [1, 0, 0, 0, 10, 25];
  }

  lemma Variant2Size()
    ensures Has(ExampleEnum, Variant(1, [Num(10), Num(25)]))
    ensures SizeOf(ExampleEnum, Variant(1, [Num(10), Num(25)])) == Dynamic(6)
  {
    SmallFacts();
    EnumPairSize(ExampleEnum.key, ExampleEnum.cases, 1, [Num(10), Num(25)]);
    RecordOfThree(Dynamic(1), Constant(4), Dynamic(1));
  }

  // The first generation's `Example { v_int: 25, uu: 10 }` and `[25, 10]`

  lemma CoreExampleEncodes()
    ensures Has(CoreExample, Fields([Num(25), Num(10)]))
    ensures Encode(CoreExample, Fields([Num(25), Num(10)])) == Ok([25, 10])
  {
    SmallFacts();
    EncodePair(CoreExample, CoreExample.fields, [Num(25), Num(10)]);
    assert [25] + [10] == [25, 10];
  }

  lemma CoreExampleDecodes()
    ensures Decode(CoreExample, [25, 10]) == Ok((Fields([Num(25), Num(10)]), 2))
  {
    CoreExampleEncodes();
    PacketRoundTrip.DecodeEncode(CoreExample, Fields([Num(25), Num(10)]), []);
    assert [25, 10] + [] == [25, 10];
  }

  lemma CoreExampleSize()
    ensures Has(CoreExample, Fields([Num(25), Num(10)]))
    ensures SizeOf(CoreExample, Fields([Num(25), Num(10)])) == Dynamic(2)
  {
    SmallFacts();
    SizePair(CoreExample, CoreExample.fields, [Num(25), Num(10)]);
    RecordOfTwo(Dynamic(1), Constant(1));
  }

  /** `Maybe<u8>`: `Some(v)` is `[1, v]` of size `Dynamic(2)`, `None` is `[0]` of size `Dynamic(1)`. */
  lemma MaybeOctetVectors(v: byte)
    ensures Encode(Maybe(Octet), Present(Num(v))) == Ok([1, v])
    ensures Decode(Maybe(Octet), [1, v]) == Ok((Present(Num(v)), 2))
    ensures SizeOf(Maybe(Octet), Present(Num(v))) == Dynamic(2)
    ensures Encode(Maybe(Octet), Absent) == Ok([0])
    ensures Decode(Maybe(Octet), [0]) == Ok((Absent, 1))
    ensures SizeOf(Maybe(Octet), Absent) == Dynamic(1)
  {
    assert [1, v][1..] == [v];
    assert Decode(Octet, [v]) == Ok((Num(v), 1));
    assert Encode(Octet, Num(v)) == Ok([v]);
    assert [1] + [v] == [1, v];
  }

  /** Arm 2 does not exist: its key is read and refused. */
  lemma UnknownVariant()
    ensures Decode(ExampleEnum, [2, 0, 0, 0, 10]) == Err(Explain(UNKNOWN_KEY))
  {
    assert VarNum.Groups(2) == [2];
    VarNum.DecodeEncode(VarNum.VarInt, 2, [0, 0, 0, 10]);
    assert [2] + [0, 0, 0, 10] == [2, 0, 0, 0, 10];
    assert Decode(ExampleEnum.key, [2, 0, 0, 0, 10]) == Ok((Num(2), 1));
    PacketEdges.UnknownKey(ExampleEnum, [2, 0, 0, 0, 10], 2, 1);
  }
}
