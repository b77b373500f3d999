/**
 * The byte source both NBT loaders read from, and what a load step
 * yields: the value, the position it leaves the source at, and the
 * accounter's count after it.
 *
 * `Stream` is the `Read` / `AsyncRead` handle: the bytes it will deliver
 * and how many of them were consumed. Reads past the end fail with the
 * `UnexpectedEof` of `read_exact` / `read_u8`; on a failed read the
 * position is left where it was, since every caller gives up on the
 * stream at its first error.
 */
module NbtStream {
  import opened Bytes
  import Primitives

  /** The outcome of one load step. */
  datatype Loaded<T> = Loaded(value: T, pos: nat, current: nat)

  /** A big-endian `t` read at `pos`, with the position after it. */
  function ReadAt(t: Primitives.IntType, src: seq<byte>, pos: nat): (r: Result<(int, nat)>)
    requires pos <= |src|
    ensures r.Ok? <==> pos + t.ByteCount() <= |src|
    ensures r.Ok? ==> Primitives.InRange(t, r.value.0) && r.value.1 == pos + t.ByteCount()
    ensures r.Err? ==> r.error == ShortRead
  {
    var (v, n) :- Primitives.Read(t, src[pos..]);
    Ok((v, pos + n))
  }

  /**
   * `count` big-endian `t`s one after the other, each pushed after the
   * values in `acc`, as a loop of `read_iN` calls and `push`es does.
   */
  function ReadValues(t: Primitives.IntType, src: seq<byte>, pos: nat, count: nat, acc: seq<int>)
    : (r: Result<(seq<int>, nat)>)
    requires pos <= |src|
    ensures r.Ok? ==> |r.value.0| == |acc| + count && r.value.0[..|acc|] == acc
    ensures r.Ok? ==> pos <= r.value.1 <= |src|
    ensures r.Err? ==> r.error == ShortRead
    decreases count
  {
    if count == 0 then Ok((acc, pos))
    else
      var (v, next) :- ReadAt(t, src, pos);
      ReadValues(t, src, next, count - 1, acc + [v])
  }

  /** Every value read is a value of `t`, and so is everything before it. */
  lemma {:induction false} ReadValuesInRange(t: Primitives.IntType, src: seq<byte>, pos: nat, count: nat, acc: seq<int>)
    requires pos <= |src|
    requires forall i :: 0 <= i < |acc| ==> Primitives.InRange(t, acc[i])
    ensures ReadValues(t, src, pos, count, acc).Ok? ==>
              forall i :: 0 <= i < |ReadValues(t, src, pos, count, acc).value.0| ==>
                Primitives.InRange(t, ReadValues(t, src, pos, count, acc).value.0[i])
    decreases count
  {
    if count > 0 {
      var first := ReadAt(t, src, pos);
      if first.Ok? {
        var (v, next) := first.value;
        var more := acc + [v];
        assert forall i :: 0 <= i < |more| ==> Primitives.InRange(t, more[i]) by {
          forall i | 0 <= i < |more|
            ensures Primitives.InRange(t, more[i])
          {
            if i < |acc| {
              assert more[i] == acc[i];
            }
          }
        }
        ReadValuesNext(t, src, pos, count, acc, v, next);
        ReadValuesInRange(t, src, next, count - 1, more);
      }
    }
  }

  /** The values fit exactly when `count` of them fit in what is left, and they end `count` widths further on. */
  lemma {:induction false} ReadValuesSpan(t: Primitives.IntType, src: seq<byte>, pos: nat, count: nat, acc: seq<int>)
    requires pos <= |src|
    ensures ReadValues(t, src, pos, count, acc).Ok? <==> pos + count * t.ByteCount() <= |src|
    ensures ReadValues(t, src, pos, count, acc).Ok? ==>
              ReadValues(t, src, pos, count, acc).value.1 == pos + count * t.ByteCount()
    decreases count
  {
    if count > 0 {
      var k := t.ByteCount();
      var rest := (count - 1) * k;
      assert count * k == rest + k && rest >= 0;
      var first := ReadAt(t, src, pos);
      if first.Ok? {
        var (v, next) := first.value;
        assert next == pos + k;
        ReadValuesNext(t, src, pos, count, acc, v, next);
        ReadValuesSpan(t, src, next, count - 1, acc + [v]);
      } else {
        assert pos + k > |src|;
        ReadValuesStop(t, src, pos, count, acc);
      }
    }
  }

  /** A first value that does not fit stops the reading. */
  lemma ReadValuesStop(t: Primitives.IntType, src: seq<byte>, pos: nat, count: nat, acc: seq<int>)
    requires pos <= |src| && count > 0 && ReadAt(t, src, pos).Err?
    ensures ReadValues(t, src, pos, count, acc) == Err(ShortRead)
  {
  }

  /** A first value read as `v`, ending at `next`, leaves the other `count - 1` to read from there. */
  lemma ReadValuesNext(t: Primitives.IntType, src: seq<byte>, pos: nat, count: nat, acc: seq<int>, v: int, next: nat)
    requires pos <= |src| && count > 0 && ReadAt(t, src, pos) == Ok((v, next))
    ensures ReadValues(t, src, pos, count, acc) == ReadValues(t, src, next, count - 1, acc + [v])
  {
  }

  /** `read_exact` into a buffer of `n` bytes. */
  function ReadExact(src: seq<byte>, pos: nat, n: nat): (r: Result<(seq<byte>, nat)>)
    requires pos <= |src|
    ensures r.Ok? <==> pos + n <= |src|
    ensures r.Ok? ==> r.value.0 == src[pos..pos + n] && r.value.1 == pos + n
    ensures r.Err? ==> r.error == ShortRead
  {
    if |src| - pos < n then Err(ShortRead) else Ok((src[pos..pos + n], pos + n))
  }

  /** A method's result and the state it leaves agree with a load step's outcome. */
  ghost predicate Agrees<T>(r: Result<T>, spec: Result<Loaded<T>>, pos: nat, current: nat)
  {
    match spec
    case Ok(l) => r == Ok(l.value) && pos == l.pos && current == l.current
    case Err(e) => r == Err(e)
  }

  /** A method's result and the position it leaves agree with a read's outcome. */
  ghost predicate ReadsAs<T>(r: Result<T>, spec: Result<(T, nat)>, pos: nat)
  {
    match spec
    case Ok((v, n)) => r == Ok(v) && pos == n
    case Err(e) => r == Err(e)
  }

  /** A `Read` handle over a fixed sequence of bytes. */
  class Stream {
    const data: seq<byte>
    var pos: nat

    predicate Valid()
      reads this
    {
      pos <= |data|
    }

    constructor (data: seq<byte>)
      ensures this.data == data && pos == 0 && Valid()
    {
      this.data := data;
      pos := 0;
    }

    /** `read_u8` / `read_iN::<BigEndian>`. */
    method ReadInt(t: Primitives.IntType) returns (r: Result<int>)
      requires Valid()
      modifies this
      ensures Valid()
      ensures var spec := ReadAt(t, data, old(pos));
              (r.Ok? <==> spec.Ok?)
              && (spec.Ok? ==> r.value == spec.value.0 && pos == spec.value.1)
              && (spec.Err? ==> r.error == spec.error && pos == old(pos))
    {
      var read := ReadAt(t, data, pos);
      if read.Err? {
        return Err(read.error);
      }
      pos := read.value.1;
      return Ok(read.value.0);
    }

    /** `read_exact` into a buffer of `n` bytes. */
    method ReadBytes(n: nat) returns (r: Result<seq<byte>>)
      requires Valid()
      modifies this
      ensures Valid()
      ensures r.Ok? <==> old(pos) + n <= |data|
      ensures r.Ok? ==> r.value == data[old(pos)..old(pos) + n] && pos == old(pos) + n
      ensures r.Err? ==> r.error == ShortRead && pos == old(pos)
    {
      if |data| - pos < n {
        return Err(ShortRead);
      }
      r := Ok(data[pos..pos + n]);
      pos := pos + n;
    }

    /**
     * A loop of `count` `read_iN` calls, each value pushed onto `acc`;
     * the first failed read ends it.
     */
    method ReadMany(t: Primitives.IntType, count: nat, acc: seq<int>) returns (r: Result<seq<int>>)
      requires Valid()
      modifies this
      ensures Valid()
      ensures ReadsAs(r, ReadValues(t, data, old(pos), count, acc), pos)
    {
      var values := acc;
      var i := 0;
      while i < count
        invariant Valid() && i <= count
        invariant ReadValues(t, data, old(pos), count, acc) == ReadValues(t, data, pos, count - i, values)
      {
        ghost var before := pos;
        var read := ReadInt(t);
        if read.Err? {
          ReadValuesStop(t, data, before, count - i, values);
          return Err(read.error);
        }
        ReadValuesNext(t, data, before, count - i, values, read.value, pos);
        values := values + [read.value];
        i := i + 1;
      }
      return Ok(values);
    }

    /** Copying `take(n)` into a sink: at most `n` bytes, fewer at the end of the data. */
    method Skip(n: nat)
      requires Valid()
      modifies this
      ensures Valid()
      ensures pos == if old(pos) + n <= |data| then old(pos) + n else |data|
    {
      if |data| - pos < n {
        pos := |data|;
      } else {
        pos := pos + n;
      }
    }
  }
}
