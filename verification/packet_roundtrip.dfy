/**
 * The round trip of the packet components: `decode` reads back what
 * `encode` wrote and stops exactly where it ended, for every value the
 * decoders accept. Each component's step is its own lemma; the
 * recursion over element and field lists follows the decoders'.
 */
module PacketRoundTrip {
  import opened Bytes
  import VarNum
  import Primitives
  import opened Packet
  import PacketLaws

  /**
   * `v` is within what decoding accepts: lengths fit the `i32` count,
   * strings are within their decode bound, a `LimitedVec` within its
   * bound, an enum arm is the first arm with its literal and writes its
   * key with the key's own type, and no `ByteDrain` appears (it reads
   * to the end of the stream).
   */
  predicate Decodable(k: Kind, v: Value)
    requires Has(k, v)
    decreases k, 1
  {
    match k
    case Text(limit) => |v.bytes| < VarNum.Width.VarInt.Half() && |v.bytes| <= StringBound(limit)
    case ByteVec => |v.bytes| < VarNum.Width.VarInt.Half()
    case Drain => false
    case Array(e, _) => forall i :: 0 <= i < |v.items| ==> Decodable(e, v.items[i])
    case List(e) =>
      |v.items| < VarNum.Width.VarInt.Half() && forall i :: 0 <= i < |v.items| ==> Decodable(e, v.items[i])
    case Limited(e, bound) =>
      |v.items| <= bound && |v.items| < VarNum.Width.VarInt.Half()
      && forall i :: 0 <= i < |v.items| ==> Decodable(e, v.items[i])
    case Maybe(inner) => v.Present? ==> Decodable(inner, v.inner)
    case Struct(fs) => forall i :: 0 <= i < |fs| ==> Decodable(fs[i], v.vals[i])
    case Enum(key, cases) =>
      var c := cases[v.index];
      c.keyAs.None? && Decodable(key, Num(c.literal)) && FirstCase(cases, c.literal) == v.index
      && forall i :: 0 <= i < |c.fields| ==> Decodable(c.fields[i], v.vals[i])
    case Shield => |v.bytes| < VarNum.Width.VarInt.Half() && |v.bytes| <= STRING_DEFAULT_CAP
    case _ => true
  }

  /** `v` comes back from its own encoding followed by `tail`, and exactly its bytes are consumed. */
  predicate RoundTrips(k: Kind, v: Value, tail: seq<byte>)
    requires Has(k, v)
  {
    Encode(k, v).Ok? && Yields(Decode(k, Encode(k, v).value + tail), v, |Encode(k, v).value|)
  }

  // ---------------------------------------------------------------
  // The whole universe
  // ---------------------------------------------------------------

  /**
   * Decoding what `encode` wrote, followed by anything, gives back the
   * value and stops exactly at the end of its bytes.
   */
  lemma DecodeEncode(k: Kind, v: Value, tail: seq<byte>)
    requires Has(k, v) && Decodable(k, v)
    ensures Encode(k, v).Ok?
    ensures Decode(k, Encode(k, v).value + tail) == Ok((v, |Encode(k, v).value|))
  {
    RoundTrip(k, v, tail);
    OkPair(Decode(k, Encode(k, v).value + tail), v, |Encode(k, v).value|);
  }

  lemma {:induction false} RoundTrip(k: Kind, v: Value, tail: seq<byte>)
    requires Has(k, v) && Decodable(k, v)
    ensures RoundTrips(k, v, tail)
    decreases k, 1, 0
  {
    match k
    case Int(t) => IntRoundTrip(t, v, tail);
    case Octet => OctetRoundTrip(v, tail);
    case Var(w) => VarRoundTrip(w, v, tail);
    case Text(limit) => TextRoundTrip(limit, v, tail);
    case ByteVec => ByteVecRoundTrip(v, tail);
    case Drain => assert false;
    case Slice(n) => SliceRoundTrip(n, v, tail);
    case Array(e, n) =>
      RoundTripItems(e, v.items, tail);
      ArrayRoundTrip(e, n, v, tail);
    case List(e) =>
      RoundTripItems(e, v.items, tail);
      ListRoundTrip(e, v, tail);
    case Limited(e, bound) =>
      RoundTripItems(e, v.items, tail);
      LimitedRoundTrip(e, bound, v, tail);
    case Maybe(inner) =>
      if v.Present? {
        RoundTrip(inner, v.inner, tail);
        PresentRoundTrip(inner, v, tail);
      } else {
        AbsentRoundTrip(inner, v, tail);
      }
    case Struct(fs) =>
      RoundTripFields(k, fs, v.vals, 0, tail);
      StructRoundTrip(fs, v, tail);
    case Enum(key, cases) =>
      var c := cases[v.index];
      assert c in cases;
      RoundTripFields(k, c.fields, v.vals, 0, tail);
      RoundTrip(key, Num(c.literal), EncodeFields(k, c.fields, v.vals, 0).value + tail);
      EnumRoundTrip(key, cases, v, tail);
    case Shield => ShieldRoundTrip(v, tail);
  }

  /** The elements, one after another, read back as `|items|` elements. */
  lemma {:induction false} RoundTripItems(e: Kind, items: seq<Value>, tail: seq<byte>)
    requires forall i :: 0 <= i < |items| ==> Has(e, items[i]) && Decodable(e, items[i])
    ensures EncodeItems(e, items).Ok?
    ensures Yields(DecodeItems(e, |items|, EncodeItems(e, items).value + tail), items, |EncodeItems(e, items).value|)
    decreases e, 2, |items|
  {
    if |items| > 0 {
      RoundTripItems(e, items[1..], tail);
      var rest := EncodeItems(e, items[1..]).value;
      RoundTrip(e, items[0], rest + tail);
      var head := Encode(e, items[0]).value;
      EncodeItemsStep(e, items);
      Split(head, rest, tail);
      DecodeItemsStep(e, items, head + (rest + tail), |head|, |rest|);
    } else {
      assert [] + tail == tail;
    }
  }

  /** Fields `i..`, one after another, read back in declaration order. */
  lemma {:induction false} RoundTripFields(parent: Kind, fs: seq<Kind>, vals: seq<Value>, i: nat, tail: seq<byte>)
    requires FieldsOf(parent, fs) && |vals| == |fs| && i <= |fs|
    requires forall j :: 0 <= j < |fs| ==> Has(fs[j], vals[j]) && Decodable(fs[j], vals[j])
    ensures EncodeFields(parent, fs, vals, i).Ok?
    ensures Yields(DecodeFields(parent, fs, i, EncodeFields(parent, fs, vals, i).value + tail), vals[i..], |EncodeFields(parent, fs, vals, i).value|)
    decreases parent, 0, |fs| - i
  {
    if i < |fs| {
      RoundTripFields(parent, fs, vals, i + 1, tail);
      var rest := EncodeFields(parent, fs, vals, i + 1).value;
      RoundTrip(fs[i], vals[i], rest + tail);
      var head := Encode(fs[i], vals[i]).value;
      EncodeFieldsStep(parent, fs, vals, i);
      Split(head, rest, tail);
      DecodeFieldsStep(parent, fs, vals, i, head + (rest + tail), |head|, |rest|);
    } else {
      DecodeFieldsEnd(parent, fs, vals, tail);
    }
  }

  // ---------------------------------------------------------------
  // Sequence facts
  // ---------------------------------------------------------------

  /** Where `head` ends in `head + rest + tail`. */
  lemma Split(head: seq<byte>, rest: seq<byte>, tail: seq<byte>)
    ensures head + rest + tail == head + (rest + tail)
    ensures (head + (rest + tail))[|head|..] == rest + tail
    ensures |head + rest| == |head| + |rest|
  {
  }

  lemma Whole<T>(s: seq<T>)
    ensures s[0..] == s
    ensures |s| > 0 ==> [s[0]] + s[1..] == s
  {
  }

  // ---------------------------------------------------------------
  // Lists of elements and of fields
  // ---------------------------------------------------------------

  lemma EncodeItemsStep(e: Kind, items: seq<Value>)
    requires |items| > 0 && forall i :: 0 <= i < |items| ==> Has(e, items[i])
    requires Encode(e, items[0]).Ok? && EncodeItems(e, items[1..]).Ok?
    ensures EncodeItems(e, items) == Ok(Encode(e, items[0]).value + EncodeItems(e, items[1..]).value)
  {
  }

  lemma DecodeItemsStep(e: Kind, items: seq<Value>, src: seq<byte>, m: nat, r: nat)
    requires |items| > 0 && m <= |src|
    requires Yields(Decode(e, src), items[0], m)
    requires Yields(DecodeItems(e, |items[1..]|, src[m..]), items[1..], r)
    ensures Yields(DecodeItems(e, |items|, src), items, m + r)
  {
    Whole(items);
  }

  lemma EncodeFieldsStep(parent: Kind, fs: seq<Kind>, vals: seq<Value>, i: nat)
    requires FieldsOf(parent, fs) && |vals| == |fs| && i < |fs|
    requires forall j :: 0 <= j < |fs| ==> Has(fs[j], vals[j])
    requires Encode(fs[i], vals[i]).Ok? && EncodeFields(parent, fs, vals, i + 1).Ok?
    ensures EncodeFields(parent, fs, vals, i)
            == Ok(Encode(fs[i], vals[i]).value + EncodeFields(parent, fs, vals, i + 1).value)
  {
  }

  lemma DecodeFieldsStep(parent: Kind, fs: seq<Kind>, vals: seq<Value>, i: nat, src: seq<byte>, m: nat, r: nat)
    requires FieldsOf(parent, fs) && |vals| == |fs| && i < |fs| && m <= |src|
    requires Yields(Decode(fs[i], src), vals[i], m)
    requires Yields(DecodeFields(parent, fs, i + 1, src[m..]), vals[i + 1..], r)
    ensures Yields(DecodeFields(parent, fs, i, src), vals[i..], m + r)
  {
    assert [vals[i]] + vals[i + 1..] == vals[i..];
  }

  lemma DecodeFieldsEnd(parent: Kind, fs: seq<Kind>, vals: seq<Value>, tail: seq<byte>)
    requires FieldsOf(parent, fs) && |vals| == |fs|
    requires forall j :: 0 <= j < |fs| ==> Has(fs[j], vals[j])
    ensures EncodeFields(parent, fs, vals, |fs|) == Ok([])
    ensures Yields(DecodeFields(parent, fs, |fs|, [] + tail), vals[|fs|..], 0)
  {
    assert vals[|fs|..] == [];
  }

  // ---------------------------------------------------------------
  // Reads that the components share
  // ---------------------------------------------------------------

  lemma ReadVarEncode(w: VarNum.Width, v: int, rest: seq<byte>)
    requires VarNum.Fits(w, v)
    ensures Yields(ReadVar(w, VarNum.Encode(w, v) + rest), v, |VarNum.Encode(w, v)|)
  {
    VarNum.DecodeEncode(w, v, rest);
  }

  /** The count prefix of a count below 2^31 reads back as that count. */
  lemma ReadPrefix(n: nat, rest: seq<byte>)
    requires n < VarNum.Width.VarInt.Half()
    ensures Yields(ReadVar(VarNum.VarInt, Prefix(n) + rest), n, |Prefix(n)|)
  {
    ReadVarEncode(VarNum.VarInt, n, rest);
  }

  /** A length-prefixed byte string reads back from the front of any stream. */
  lemma ReadPrefixedBody(b: seq<byte>, tail: seq<byte>)
    requires |b| < VarNum.Width.VarInt.Half()
    ensures var src := Prefix(|b|) + b + tail;
            Yields(ReadVar(VarNum.VarInt, src), |b|, |Prefix(|b|)|)
            && Yields(ReadBody(src, |Prefix(|b|)|, |b|), b, |Prefix(|b|) + b|)
  {
    var p := Prefix(|b|);
    assert p + b + tail == p + (b + tail);
    ReadPrefix(|b|, b + tail);
    assert (p + b + tail)[|p|..|p| + |b|] == b;
  }

  /** The count prefix followed by the elements: the count reads back and the elements follow it. */
  lemma PrefixedItems(items: seq<Value>, body: seq<byte>, tail: seq<byte>)
    requires |items| < VarNum.Width.VarInt.Half()
    ensures var src := Prefix(|items|) + body + tail;
            Yields(ReadVar(VarNum.VarInt, src), |items|, |Prefix(|items|)|)
            && src[|Prefix(|items|)|..] == body + tail
            && AsUsize(|items|) == |items|
            && |Prefix(|items|) + body| == |Prefix(|items|)| + |body|
  {
    var p := Prefix(|items|);
    assert p + body + tail == p + (body + tail);
    ReadPrefix(|items|, body + tail);
    VarNum.WidthFacts(VarNum.VarInt);
  }

  // ---------------------------------------------------------------
  // One lemma per component
  // ---------------------------------------------------------------

  lemma IntRoundTrip(t: Primitives.IntType, v: Value, tail: seq<byte>)
    requires Has(Int(t), v)
    ensures RoundTrips(Int(t), v, tail)
  {
    assert Encode(Int(t), v) == Ok(Primitives.Write(t, v.n));
    IntReads(t, v, tail);
  }

  lemma IntReads(t: Primitives.IntType, v: Value, tail: seq<byte>)
    requires Has(Int(t), v)
    ensures Yields(Decode(Int(t), Primitives.Write(t, v.n) + tail), v, |Primitives.Write(t, v.n)|)
  {
    Primitives.ReadWrite(t, v.n, tail);
  }

  lemma OctetRoundTrip(v: Value, tail: seq<byte>)
    requires Has(Octet, v)
    ensures RoundTrips(Octet, v, tail)
  {
  }

  lemma VarRoundTrip(w: VarNum.Width, v: Value, tail: seq<byte>)
    requires Has(Var(w), v)
    ensures RoundTrips(Var(w), v, tail)
  {
    assert Encode(Var(w), v) == Ok(VarNum.Encode(w, v.n));
    VarReads(w, v, tail);
  }

  lemma VarReads(w: VarNum.Width, v: Value, tail: seq<byte>)
    requires Has(Var(w), v)
    ensures Yields(Decode(Var(w), VarNum.Encode(w, v.n) + tail), v, |VarNum.Encode(w, v.n)|)
  {
    ReadVarEncode(w, v.n, tail);
  }

  lemma TextRoundTrip(limit: Option<int>, v: Value, tail: seq<byte>)
    requires Has(Text(limit), v) && Decodable(Text(limit), v)
    ensures RoundTrips(Text(limit), v, tail)
  {
    assert Encode(Text(limit), v) == Ok(Prefix(|v.bytes|) + v.bytes);
    TextReads(limit, v, tail);
  }

  lemma TextReads(limit: Option<int>, v: Value, tail: seq<byte>)
    requires Has(Text(limit), v) && Decodable(Text(limit), v)
    ensures Yields(Decode(Text(limit), Prefix(|v.bytes|) + v.bytes + tail), v, |Prefix(|v.bytes|) + v.bytes|)
  {
    DecodeTextEncode(limit, v.bytes, tail);
  }

  lemma DecodeTextEncode(limit: Option<int>, b: seq<byte>, tail: seq<byte>)
    requires ValidUtf8(b) && |b| < VarNum.Width.VarInt.Half() && |b| <= StringBound(limit)
    ensures Yields(DecodeText(limit, Prefix(|b|) + b + tail), Blob(b), |Prefix(|b|) + b|)
  {
    ReadPrefixedBody(b, tail);
  }

  lemma ByteVecRoundTrip(v: Value, tail: seq<byte>)
    requires Has(ByteVec, v) && Decodable(ByteVec, v)
    ensures RoundTrips(ByteVec, v, tail)
  {
    assert Encode(ByteVec, v) == Ok(Prefix(|v.bytes|) + v.bytes);
    ByteVecReads(v, tail);
  }

  lemma ByteVecReads(v: Value, tail: seq<byte>)
    requires Has(ByteVec, v) && Decodable(ByteVec, v)
    ensures Yields(Decode(ByteVec, Prefix(|v.bytes|) + v.bytes + tail), v, |Prefix(|v.bytes|) + v.bytes|)
  {
    DecodeBytesEncode(v.bytes, tail);
  }

  lemma DecodeBytesEncode(b: seq<byte>, tail: seq<byte>)
    requires |b| < VarNum.Width.VarInt.Half()
    ensures Yields(DecodeBytes(Prefix(|b|) + b + tail), Blob(b), |Prefix(|b|) + b|)
  {
    ReadPrefixedBody(b, tail);
  }

  lemma SliceRoundTrip(n: nat, v: Value, tail: seq<byte>)
    requires Has(Slice(n), v)
    ensures RoundTrips(Slice(n), v, tail)
  {
    assert Encode(Slice(n), v) == Ok(v.bytes);
    SliceReads(n, v, tail);
  }

  lemma SliceReads(n: nat, v: Value, tail: seq<byte>)
    requires Has(Slice(n), v)
    ensures Yields(Decode(Slice(n), v.bytes + tail), v, |v.bytes|)
  {
    assert (v.bytes + tail)[0..n] == v.bytes;
  }

  lemma ShieldRoundTrip(v: Value, tail: seq<byte>)
    requires Has(Shield, v) && Decodable(Shield, v)
    ensures RoundTrips(Shield, v, tail)
  {
    assert Encode(Shield, v) == Ok(ShieldHeader(v.bytes));
    ShieldReads(v, tail);
  }

  lemma ShieldReads(v: Value, tail: seq<byte>)
    requires Has(Shield, v) && Decodable(Shield, v)
    ensures Yields(Decode(Shield, ShieldHeader(v.bytes) + tail), v, |ShieldHeader(v.bytes)|)
  {
    DecodeShieldHeader(v.bytes, tail);
  }

  lemma ArrayRoundTrip(e: Kind, n: nat, v: Value, tail: seq<byte>)
    requires Has(Array(e, n), v)
    requires EncodeItems(e, v.items).Ok?
    requires Yields(DecodeItems(e, |v.items|, EncodeItems(e, v.items).value + tail), v.items, |EncodeItems(e, v.items).value|)
    ensures RoundTrips(Array(e, n), v, tail)
  {
    assert Encode(Array(e, n), v) == EncodeItems(e, v.items);
    ArrayReads(e, n, v, EncodeItems(e, v.items).value, tail);
  }

  lemma ArrayReads(e: Kind, n: nat, v: Value, body: seq<byte>, tail: seq<byte>)
    requires Has(Array(e, n), v)
    requires Yields(DecodeItems(e, |v.items|, body + tail), v.items, |body|)
    ensures Yields(Decode(Array(e, n), body + tail), v, |body|)
  {
  }

  lemma ListRoundTrip(e: Kind, v: Value, tail: seq<byte>)
    requires Has(List(e), v) && |v.items| < VarNum.Width.VarInt.Half()
    requires EncodeItems(e, v.items).Ok?
    requires Yields(DecodeItems(e, |v.items|, EncodeItems(e, v.items).value + tail), v.items, |EncodeItems(e, v.items).value|)
    ensures RoundTrips(List(e), v, tail)
  {
    assert Encode(List(e), v) == Ok(Prefix(|v.items|) + EncodeItems(e, v.items).value);
    ListReads(e, v, EncodeItems(e, v.items).value, tail);
  }

  lemma ListReads(e: Kind, v: Value, body: seq<byte>, tail: seq<byte>)
    requires v.Items? && |v.items| < VarNum.Width.VarInt.Half()
    requires Yields(DecodeItems(e, |v.items|, body + tail), v.items, |body|)
    ensures Yields(Decode(List(e), Prefix(|v.items|) + body + tail), v, |Prefix(|v.items|) + body|)
  {
    DecodeListEncode(e, v.items, body, tail);
  }

  lemma DecodeListEncode(e: Kind, items: seq<Value>, body: seq<byte>, tail: seq<byte>)
    requires |items| < VarNum.Width.VarInt.Half()
    requires Yields(DecodeItems(e, |items|, body + tail), items, |body|)
    ensures Yields(DecodeList(e, Prefix(|items|) + body + tail), Items(items), |Prefix(|items|) + body|)
  {
    PrefixedItems(items, body, tail);
  }

  lemma LimitedRoundTrip(e: Kind, bound: nat, v: Value, tail: seq<byte>)
    requires Has(Limited(e, bound), v) && |v.items| <= bound && |v.items| < VarNum.Width.VarInt.Half()
    requires EncodeItems(e, v.items).Ok?
    requires Yields(DecodeItems(e, |v.items|, EncodeItems(e, v.items).value + tail), v.items, |EncodeItems(e, v.items).value|)
    ensures RoundTrips(Limited(e, bound), v, tail)
  {
    assert Encode(Limited(e, bound), v) == Ok(Prefix(|v.items|) + EncodeItems(e, v.items).value);
    LimitedReads(e, bound, v, EncodeItems(e, v.items).value, tail);
  }

  lemma LimitedReads(e: Kind, bound: nat, v: Value, body: seq<byte>, tail: seq<byte>)
    requires v.Items? && |v.items| <= bound && |v.items| < VarNum.Width.VarInt.Half()
    requires Yields(DecodeItems(e, |v.items|, body + tail), v.items, |body|)
    ensures Yields(Decode(Limited(e, bound), Prefix(|v.items|) + body + tail), v, |Prefix(|v.items|) + body|)
  {
    DecodeLimitedEncode(e, bound, v.items, body, tail);
  }

  lemma DecodeLimitedEncode(e: Kind, bound: nat, items: seq<Value>, body: seq<byte>, tail: seq<byte>)
    requires |items| <= bound && |items| < VarNum.Width.VarInt.Half()
    requires Yields(DecodeItems(e, |items|, body + tail), items, |body|)
    ensures Yields(DecodeLimited(e, bound, Prefix(|items|) + body + tail), Items(items), |Prefix(|items|) + body|)
  {
    PrefixedItems(items, body, tail);
  }

  lemma AbsentRoundTrip(inner: Kind, v: Value, tail: seq<byte>)
    requires v.Absent?
    ensures RoundTrips(Maybe(inner), v, tail)
  {
  }

  lemma PresentRoundTrip(inner: Kind, v: Value, tail: seq<byte>)
    requires v.Present? && Has(inner, v.inner) && RoundTrips(inner, v.inner, tail)
    ensures RoundTrips(Maybe(inner), v, tail)
  {
    assert Encode(Maybe(inner), v) == Ok([1] + Encode(inner, v.inner).value);
    PresentReads(inner, v, Encode(inner, v.inner).value, tail);
  }

  lemma PresentReads(inner: Kind, v: Value, body: seq<byte>, tail: seq<byte>)
    requires v.Present?
    requires Yields(Decode(inner, body + tail), v.inner, |body|)
    ensures Yields(Decode(Maybe(inner), [1] + body + tail), v, |[1] + body|)
  {
    MaybeDecodes(inner, [1] + body + tail);
    DecodeMaybePresent(inner, v.inner, body, tail);
  }

  lemma DecodeMaybePresent(inner: Kind, x: Value, body: seq<byte>, tail: seq<byte>)
    requires Yields(Decode(inner, body + tail), x, |body|)
    ensures Yields(DecodeMaybe(inner, [1] + body + tail), Present(x), |[1] + body|)
  {
    assert ([1] + body + tail)[1..] == body + tail;
  }

  lemma StructRoundTrip(fs: seq<Kind>, v: Value, tail: seq<byte>)
    requires Has(Struct(fs), v)
    requires EncodeFields(Struct(fs), fs, v.vals, 0).Ok?
    requires Yields(DecodeFields(Struct(fs), fs, 0, EncodeFields(Struct(fs), fs, v.vals, 0).value + tail), v.vals[0..], |EncodeFields(Struct(fs), fs, v.vals, 0).value|)
    ensures RoundTrips(Struct(fs), v, tail)
  {
    assert Encode(Struct(fs), v) == EncodeFields(Struct(fs), fs, v.vals, 0);
    StructReads(fs, v, EncodeFields(Struct(fs), fs, v.vals, 0).value, tail);
  }

  lemma StructReads(fs: seq<Kind>, v: Value, body: seq<byte>, tail: seq<byte>)
    requires Has(Struct(fs), v)
    requires Yields(DecodeFields(Struct(fs), fs, 0, body + tail), v.vals[0..], |body|)
    ensures Yields(Decode(Struct(fs), body + tail), v, |body|)
  {
    Whole(v.vals);
  }

  lemma EnumRoundTrip(key: Kind, cases: seq<Case>, v: Value, tail: seq<byte>)
    requires Has(Enum(key, cases), v)
    requires var c := cases[v.index];
             c in cases && c.keyAs.None? && FirstCase(cases, c.literal) == v.index
             && EncodeFields(Enum(key, cases), c.fields, v.vals, 0).Ok?
             && var body := EncodeFields(Enum(key, cases), c.fields, v.vals, 0).value;
                Yields(DecodeFields(Enum(key, cases), c.fields, 0, body + tail), v.vals[0..], |body|)
                && RoundTrips(key, Num(c.literal), body + tail)
    ensures RoundTrips(Enum(key, cases), v, tail)
  {
    var c := cases[v.index];
    var body := EncodeFields(Enum(key, cases), c.fields, v.vals, 0).value;
    assert Encode(Enum(key, cases), v) == Ok(Encode(key, Num(c.literal)).value + body);
    EnumReads(key, cases, v, Encode(key, Num(c.literal)).value, body, tail);
  }

  lemma EnumReads(key: Kind, cases: seq<Case>, v: Value, keyBytes: seq<byte>, body: seq<byte>, tail: seq<byte>)
    requires v.Variant? && v.index < |cases|
    requires var c := cases[v.index];
             FirstCase(cases, c.literal) == v.index
             && Yields(Decode(key, keyBytes + (body + tail)), Num(c.literal), |keyBytes|)
             && Yields(DecodeFields(Enum(key, cases), c.fields, 0, body + tail), v.vals[0..], |body|)
    ensures Yields(Decode(Enum(key, cases), keyBytes + body + tail), v, |keyBytes + body|)
  {
    Split(keyBytes, body, tail);
    Whole(v.vals);
    DecodeEnumStep(Enum(key, cases), keyBytes + (body + tail), cases[v.index].literal, |keyBytes|, v.vals, |body|);
  }

  lemma DecodeEnumStep(k: Kind, src: seq<byte>, literal: int, m: nat, vals: seq<Value>, r: nat)
    requires k.Enum? && m <= |src| && FirstCase(k.cases, literal) < |k.cases|
    requires Yields(Decode(k.key, src), Num(literal), m)
    requires Yields(DecodeFields(k, k.cases[FirstCase(k.cases, literal)].fields, 0, src[m..]), vals, r)
    ensures Yields(DecodeEnum(k, src), Variant(FirstCase(k.cases, literal), vals), m + r)
  {
  }

  // ---------------------------------------------------------------
  // The shield header
  // ---------------------------------------------------------------

  /** `TcpShield` decoding reads the shield header back to its string. */
  lemma DecodeShieldHeader(b: seq<byte>, tail: seq<byte>)
    requires ValidUtf8(b) && |b| < VarNum.Width.VarInt.Half() && |b| <= STRING_DEFAULT_CAP
    ensures Yields(DecodeShield(ShieldHeader(b) + tail), Blob(b), |ShieldHeader(b)|)
  {
    var r3 := VarNum.Encode(VarNum.VarInt, 2) + tail;
    var r2 := Primitives.Write(Primitives.U16, 0) + r3;
    var r1 := Prefix(|b|) + b + r2;
    ShieldLayout(b, tail);
    ShieldReadsId(b, tail);
    DecodeTextEncode(None, b, r2);
    ShieldReadsPort(r3);
    ShieldReadsVersion(tail);
    ShieldSteps(ShieldHeader(b) + tail, b, r1, r2, r3);
  }

  /** Where each part of the shield header starts, and its length. */
  lemma ShieldLayout(b: seq<byte>, tail: seq<byte>)
    ensures var r3 := VarNum.Encode(VarNum.VarInt, 2) + tail;
            var r2 := Primitives.Write(Primitives.U16, 0) + r3;
            var r1 := Prefix(|b|) + b + r2;
            (ShieldHeader(b) + tail)[1..] == r1
            && r1[|Prefix(|b|) + b|..] == r2
            && r2[2..] == r3
            && |ShieldHeader(b)| == |Prefix(|b|) + b| + 4
  {
    var r3 := VarNum.Encode(VarNum.VarInt, 2) + tail;
    var r2 := Primitives.Write(Primitives.U16, 0) + r3;
    var r1 := Prefix(|b|) + b + r2;
    SmallVarInts();
    assert ShieldHeader(b) + tail == [0] + r1;
    PacketLaws.ShieldHeaderLength(b);
  }

  lemma SmallVarInts()
    ensures VarNum.Encode(VarNum.VarInt, 0) == [0]
    ensures VarNum.Encode(VarNum.VarInt, 2) == [2]
  {
  }

  /** The connection id, VarInt 0, takes one byte. */
  lemma ShieldReadsId(b: seq<byte>, tail: seq<byte>)
    ensures Yields(ReadVar(VarNum.VarInt, ShieldHeader(b) + tail), 0, 1)
  {
    var r1 := Prefix(|b|) + b + (Primitives.Write(Primitives.U16, 0) + (VarNum.Encode(VarNum.VarInt, 2) + tail));
    SmallVarInts();
    assert ShieldHeader(b) + tail == VarNum.Encode(VarNum.VarInt, 0) + r1;
    ReadVarEncode(VarNum.VarInt, 0, r1);
  }

  /** The `0u16` after the string takes two bytes. */
  lemma ShieldReadsPort(r3: seq<byte>)
    ensures Yields(Primitives.Read(Primitives.U16, Primitives.Write(Primitives.U16, 0) + r3), 0, 2)
  {
    Primitives.ReadWrite(Primitives.U16, 0, r3);
  }

  /** The closing VarInt 2 takes one byte. */
  lemma ShieldReadsVersion(tail: seq<byte>)
    ensures Yields(ReadVar(VarNum.VarInt, VarNum.Encode(VarNum.VarInt, 2) + tail), 2, 1)
  {
    SmallVarInts();
    ReadVarEncode(VarNum.VarInt, 2, tail);
  }

  /** The four reads of `TcpShield::decode`, in order, each on what the previous left. */
  lemma ShieldSteps(src: seq<byte>, b: seq<byte>, r1: seq<byte>, r2: seq<byte>, r3: seq<byte>)
    requires Yields(ReadVar(VarNum.VarInt, src), 0, 1) && |src| >= 1 && src[1..] == r1
    requires Yields(DecodeText(None, r1), Blob(b), |Prefix(|b|) + b|)
    requires |Prefix(|b|) + b| <= |r1| && r1[|Prefix(|b|) + b|..] == r2
    requires Yields(Primitives.Read(Primitives.U16, r2), 0, 2) && |r2| >= 2 && r2[2..] == r3
    requires Yields(ReadVar(VarNum.VarInt, r3), 2, 1)
    ensures Yields(DecodeShield(src), Blob(b), |Prefix(|b|) + b| + 4)
  {
  }
}
