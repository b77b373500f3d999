/**
 * The NBT tag tree shared by both NBT codecs: thirteen tag kinds, numbered
 * in declaration order (`get_bit` / `get_tag_bit`), a compound being a
 * `HashMap` from names to tags.
 *
 * A compound is modelled as an association list in the map's enumeration
 * order; `Insert` and `Get` are `HashMap::insert` and `HashMap::get` on it.
 * Floating-point tags carry their IEEE 754 bit patterns.
 */
module NbtTag {
  import opened Bytes
  import Primitives

  datatype Tag =
    | End                              // 0
    | Byte(b: byte)                    // 1, `u8`
    | Short(bits: nat)                 // 2, the 16 bits of the `i16` / `u16`
    | Int(i: int)                      // 3, `i32`
    | Long(l: int)                     // 4, `i64`
    | Float(fbits: nat)                // 5, the bits of the `f32`
    | Double(dbits: nat)               // 6, the bits of the `f64`
    | ByteArray(bytes: seq<byte>)      // 7
    | Str(s: string)                   // 8
    | List(elem: byte, items: seq<Tag>) // 9, the element id and the elements
    | Compound(entries: seq<Entry>)    // 10
    | IntArray(ints: seq<int>)         // 11, `i32`s
    | LongArray(longs: seq<int>)       // 12, `i64`s

  /** One name/tag pair of a compound. */
  datatype Entry = Entry(name: string, value: Tag)

  const COMPOUND_TAG_BIT: byte := 10

  /** `get_bit` / `get_tag_bit`: the kinds in declaration order. */
  function Id(t: Tag): (id: byte)
    ensures id <= 12
    ensures id == COMPOUND_TAG_BIT <==> t.Compound?
    ensures id == 0 <==> t.End?
  {
    match t
    case End => 0
    case Byte(_) => 1
    case Short(_) => 2
    case Int(_) => 3
    case Long(_) => 4
    case Float(_) => 5
    case Double(_) => 6
    case ByteArray(_) => 7
    case Str(_) => 8
    case List(_, _) => 9
    case Compound(_) => 10
    case IntArray(_) => 11
    case LongArray(_) => 12
  }

  /** Every number in the tree is a value of its Rust type. */
  predicate Valid(t: Tag)
  {
    match t
    case Short(bits) => bits < 0x1_0000
    case Int(i) => Primitives.InRange(Primitives.I32, i)
    case Long(l) => Primitives.InRange(Primitives.I64, l)
    case Float(bits) => bits < U32_MOD
    case Double(bits) => bits < U64_MOD
    case List(_, items) => forall i :: 0 <= i < |items| ==> Valid(items[i])
    case Compound(entries) => forall i :: 0 <= i < |entries| ==> Valid(entries[i].value)
    case IntArray(xs) => forall i :: 0 <= i < |xs| ==> Primitives.InRange(Primitives.I32, xs[i])
    case LongArray(xs) => forall i :: 0 <= i < |xs| ==> Primitives.InRange(Primitives.I64, xs[i])
    case _ => true
  }

  // ---------------------------------------------------------------
  // The compound's map
  // ---------------------------------------------------------------

  /** The index of the entry named `name`, or `|es|` when there is none. */
  function Find(es: seq<Entry>, name: string): (i: nat)
    ensures i <= |es|
    ensures i < |es| ==> es[i].name == name
    ensures forall j :: 0 <= j < i ==> es[j].name != name
  {
    if |es| == 0 then 0
    else if es[0].name == name then 0
    else 1 + Find(es[1..], name)
  }

  /** `HashMap::get`. */
  function Get(es: seq<Entry>, name: string): Option<Tag>
  {
    var i := Find(es, name);
    if i < |es| then Some(es[i].value) else None
  }

  /**
   * `HashMap::insert`: an existing entry takes the new value where it
   * stands, a new name is added; the flag is `insert(..).is_some()`.
   */
  function Insert(es: seq<Entry>, name: string, value: Tag): (r: (seq<Entry>, bool))
  {
    var i := Find(es, name);
    if i < |es| then (es[i := Entry(name, value)], true) else (es + [Entry(name, value)], false)
  }

  /** No two entries share a name, as in a map. */
  predicate DistinctNames(es: seq<Entry>)
  {
    forall i, j :: 0 <= i < j < |es| ==> es[i].name != es[j].name
  }

  /**
   * After `insert`, the name maps to the new value and every other name
   * to what it mapped to before; the flag says whether the name was there.
   */
  lemma InsertGet(es: seq<Entry>, name: string, value: Tag, other: string)
    ensures Get(Insert(es, name, value).0, name) == Some(value)
    ensures other != name ==> Get(Insert(es, name, value).0, other) == Get(es, other)
    ensures Insert(es, name, value).1 <==> Get(es, name).Some?
  {
    var i := Find(es, name);
    var r := Insert(es, name, value).0;
    if i < |es| {
      FindSame(es, name, value);
      if other != name {
        FindOther(es, i, name, value, other);
      }
    } else {
      FindSnoc(es, Entry(name, value), name);
      if other != name {
        FindSnoc(es, Entry(name, value), other);
      }
    }
  }

  /** Names stay distinct under `insert`; a new name goes at the end, an old one keeps its place. */
  lemma InsertDistinct(es: seq<Entry>, name: string, value: Tag)
    requires DistinctNames(es)
    ensures DistinctNames(Insert(es, name, value).0)
    ensures Get(es, name).None? ==> Insert(es, name, value).0 == es + [Entry(name, value)]
    ensures Get(es, name).Some? ==> |Insert(es, name, value).0| == |es|
  {
    var i := Find(es, name);
    if i == |es| {
      FindAbsent(es, name);
    }
  }

  /** Replacing the value of the entry a name finds does not move it. */
  lemma FindSame(es: seq<Entry>, name: string, value: Tag)
    requires Find(es, name) < |es|
    ensures Find(es[Find(es, name) := Entry(name, value)], name) == Find(es, name)
  {
    var i := Find(es, name);
    FindAt(es[i := Entry(name, value)], name, i);
  }

  /** A name is found at the first entry that carries it. */
  lemma {:induction false} FindAt(es: seq<Entry>, name: string, i: nat)
    requires i < |es| && es[i].name == name && forall j :: 0 <= j < i ==> es[j].name != name
    ensures Find(es, name) == i
  {
    if i > 0 {
      assert es[0].name != name;
      FindAt(es[1..], name, i - 1);
    }
  }

  /** A name that is not in the list is not found. */
  lemma {:induction false} FindAbsent(es: seq<Entry>, name: string)
    requires forall j :: 0 <= j < |es| ==> es[j].name != name
    ensures Find(es, name) == |es|
  {
    if |es| > 0 {
      assert es[0].name != name;
      FindAbsent(es[1..], name);
    }
  }

  /** Another name is found where it was, once an entry's value is replaced. */
  lemma FindOther(es: seq<Entry>, i: nat, name: string, value: Tag, other: string)
    requires i < |es| && es[i].name == name && other != name
    ensures Get(es[i := Entry(name, value)], other) == Get(es, other)
  {
    var r := es[i := Entry(name, value)];
    var k := Find(es, other);
    if k < |es| {
      FindAt(r, other, k);
    } else {
      FindAbsent(r, other);
    }
  }

  /** Appending an entry: names already present are found where they were, a new one at the end. */
  lemma FindSnoc(es: seq<Entry>, e: Entry, name: string)
    ensures Find(es, name) < |es| ==> Find(es + [e], name) == Find(es, name)
    ensures Find(es, name) == |es| ==> Find(es + [e], name) == (if e.name == name then |es| else |es| + 1)
  {
    var r := es + [e];
    var k := Find(es, name);
    if k < |es| {
      FindAt(r, name, k);
    } else if e.name == name {
      FindAt(r, name, |es|);
    } else {
      FindAbsent(r, name);
    }
  }
}
