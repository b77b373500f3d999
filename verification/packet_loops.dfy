/**
 * The decode loops of `Vec<T>`, `LimitedVec<T, N>` and `[T; N]`: a
 * vector that elements are pushed onto one decode at a time, stopping at
 * the first element that fails. Each is proved to compute the recursive
 * reading `Packet.DecodeItems` / `Packet.DecodeList` that the round trip
 * is stated over.
 */
module PacketLoops {
  import opened Bytes
  import VarNum
  import opened Packet

  /**
   * What the loop returns when `acc`, read from the first `pos` bytes, is
   * followed by what the rest of the loop returns, `rest`.
   */
  function Joined(acc: seq<Value>, pos: nat, rest: Result<(seq<Value>, nat)>): Result<(seq<Value>, nat)>
  {
    if rest.Err? then Err(rest.error) else Ok((acc + rest.value.0, pos + rest.value.1))
  }

  /**
   * The state of the push loop after `items` were read from the first
   * `pos` bytes, with `left` of the `count` elements still to read.
   */
  predicate Midway(e: Kind, count: nat, src: seq<byte>, items: seq<Value>, pos: nat, left: nat)
  {
    pos <= |src| && DecodeItems(e, count, src) == Joined(items, pos, DecodeItems(e, left, src[pos..]))
  }

  /** Before the first element, the rest of the loop is all of it. */
  lemma JoinedStart(all: Result<(seq<Value>, nat)>)
    ensures all == Joined([], 0, all)
  {
    if all.Ok? {
      assert [] + all.value.0 == all.value.0;
    }
  }

  /** The rest of the loop is over: `all` is what it ended with. */
  lemma Settled(all: Result<(seq<Value>, nat)>, acc: seq<Value>, pos: nat, rest: Result<(seq<Value>, nat)>)
    requires all == Joined(acc, pos, rest)
    ensures rest.Err? ==> all == Err(rest.error)
    ensures rest == Ok(([], 0)) ==> all == Ok((acc, pos))
  {
    if rest.Ok? {
      assert acc + [] == acc;
    }
  }

  /** Reading `n > 0` elements is reading the first, then `n - 1` from where it ended. */
  lemma ItemsCons(e: Kind, n: nat, src: seq<byte>, x: Value, m: nat)
    requires n > 0 && m <= |src| && Yields(Decode(e, src), x, m)
    ensures DecodeItems(e, n, src) == Joined([x], m, DecodeItems(e, n - 1, src[m..]))
  {
  }

  /** As `ItemsCons`, on the bytes from `pos` on. */
  lemma ItemsAt(e: Kind, n: nat, src: seq<byte>, pos: nat, x: Value, m: nat)
    requires n > 0 && pos <= |src| && Yields(Decode(e, src[pos..]), x, m)
    ensures pos + m <= |src|
    ensures DecodeItems(e, n, src[pos..]) == Joined([x], m, DecodeItems(e, n - 1, src[pos + m..]))
  {
    ItemsCons(e, n, src[pos..], x, m);
    assert src[pos..][m..] == src[pos + m..];
  }

  /** When the first element fails, so does the rest of the loop, with its error. */
  lemma ItemsFail(e: Kind, n: nat, src: seq<byte>)
    requires n > 0 && Decode(e, src).Err?
    ensures DecodeItems(e, n, src).Err? && DecodeItems(e, n, src).error == Decode(e, src).error
  {
  }

  /** Moving one decoded element from the rest of the loop onto the vector. */
  lemma JoinedStep(all: Result<(seq<Value>, nat)>, acc: seq<Value>, pos: nat,
                   mid: Result<(seq<Value>, nat)>, x: Value, m: nat, rest: Result<(seq<Value>, nat)>)
    requires all == Joined(acc, pos, mid) && mid == Joined([x], m, rest)
    ensures all == Joined(acc + [x], pos + m, rest)
  {
    if rest.Ok? {
      assert acc + ([x] + rest.value.0) == acc + [x] + rest.value.0;
    }
  }

  /** Before the first iteration the loop has pushed nothing and all of it is still to come. */
  lemma Begin(e: Kind, count: nat, src: seq<byte>)
    ensures Midway(e, count, src, [], 0, count)
  {
    assert src[0..] == src;
    JoinedStart(DecodeItems(e, count, src));
  }

  /** `x`, read from `pos` on, joins `items` while `left` elements remain to read. */
  lemma Push(e: Kind, count: nat, src: seq<byte>, items: seq<Value>, pos: nat, left: nat, x: Value, m: nat)
    requires left > 0 && Midway(e, count, src, items, pos, left) && Yields(Decode(e, src[pos..]), x, m)
    ensures Midway(e, count, src, items + [x], pos + m, left - 1)
  {
    ItemsAt(e, left, src, pos, x, m);
    JoinedStep(DecodeItems(e, count, src), items, pos, DecodeItems(e, left, src[pos..]), x, m,
               DecodeItems(e, left - 1, src[pos + m..]));
  }

  /** An element fails to read while `left` remain: the whole loop fails with its error. */
  lemma Stop(e: Kind, count: nat, src: seq<byte>, items: seq<Value>, pos: nat, left: nat)
    requires left > 0 && Midway(e, count, src, items, pos, left) && Decode(e, src[pos..]).Err?
    ensures DecodeItems(e, count, src) == Err(Decode(e, src[pos..]).error)
  {
    ItemsFail(e, left, src[pos..]);
    Settled(DecodeItems(e, count, src), items, pos, DecodeItems(e, left, src[pos..]));
  }

  /** No iteration left. */
  lemma Finish(e: Kind, count: nat, src: seq<byte>, items: seq<Value>, pos: nat)
    requires Midway(e, count, src, items, pos, 0)
    ensures DecodeItems(e, count, src) == Ok((items, pos))
  {
    Settled(DecodeItems(e, count, src), items, pos, DecodeItems(e, 0, src[pos..]));
  }

  /**
   * One iteration, `T::decode(..)?`: the next element, read from where
   * the previous one ended.
   */
  method DecodeNext(e: Kind, ghost count: nat, src: seq<byte>, ghost items: seq<Value>, pos: nat, ghost left: nat)
    returns (p: Result<(Value, nat)>)
    requires left > 0 && Midway(e, count, src, items, pos, left)
    ensures p.Ok? ==> Midway(e, count, src, items + [p.value.0], pos + p.value.1, left - 1)
    ensures p.Err? ==> DecodeItems(e, count, src) == Err(p.error)
  {
    p := Decode(e, src[pos..]);
    if p.Err? {
      Stop(e, count, src, items, pos, left);
    } else {
      Push(e, count, src, items, pos, left, p.value.0, p.value.1);
    }
  }

  /**
   * `for _ in 0..len { vec.push(T::decode(..)?) }`: reads `count` elements
   * from the front of `src`; the result carries the bytes consumed.
   */
  method DecodeElements(e: Kind, count: nat, src: seq<byte>) returns (r: Result<(seq<Value>, nat)>)
    ensures r == DecodeItems(e, count, src)
  {
    var items: seq<Value> := [];
    var pos: nat := 0;
    var left: nat := count;
    Begin(e, count, src);
    while left > 0
      // the whole loop returns `items` followed by what its `left` remaining iterations return
      invariant Midway(e, count, src, items, pos, left)
    {
      var p := DecodeNext(e, count, src, items, pos, left);
      if p.Err? {
        return Err(p.error);
      }
      var (x, m) := p.value;
      items, pos, left := items + [x], pos + m, left - 1;
    }
    Finish(e, count, src, items, pos);
    return Ok((items, pos));
  }

  /**
   * `Vec<T>::decode`: the VarInt count, `Vec::with_capacity(len as usize)`
   * (which panics on a negative count unless the element type is
   * zero-sized), then the push loop.
   */
  method DecodeVec(e: Kind, src: seq<byte>) returns (r: Result<(Value, nat)>)
    ensures r == DecodeList(e, src)
  {
    var p := ReadVar(VarNum.VarInt, src);
    ListStart(e, src);
    if p.Err? {
      return Err(p.error);
    }
    var len, k := p.value.0, p.value.1;
    if len < 0 {
      if ZeroSized(e) {
        return Ok((Items([]), k));
      }
      return Err(Panic(CAPACITY_OVERFLOW));
    }
    r := DecodeCounted(e, src, len, k);
  }

  /** The push loop of `Vec<T>::decode` once a count `len >= 0` was read from the first `k` bytes. */
  method DecodeCounted(e: Kind, src: seq<byte>, len: nat, k: nat) returns (r: Result<(Value, nat)>)
    requires ReadVar(VarNum.VarInt, src) == Ok((len, k))
    ensures r == DecodeList(e, src)
  {
    var q := DecodeElements(e, len, src[k..]);
    if q.Err? {
      ListFails(e, src, len, k);
      return Err(q.error);
    }
    ListReads(e, src, len, k);
    OkPair(DecodeList(e, src), Items(q.value.0), k + q.value.1);
    return Ok((Items(q.value.0), k + q.value.1));
  }

  /**
   * The count read fails, or is negative: the list reads no element. It
   * fails, except for a negative count of a zero-sized type, which is empty.
   */
  lemma ListStart(e: Kind, src: seq<byte>)
    ensures ReadVar(VarNum.VarInt, src).Err? ==> DecodeList(e, src) == Err(ReadVar(VarNum.VarInt, src).error)
    ensures ReadVar(VarNum.VarInt, src).Ok? && ReadVar(VarNum.VarInt, src).value.0 < 0 ==>
              DecodeList(e, src) == if ZeroSized(e) then Ok((Items([]), ReadVar(VarNum.VarInt, src).value.1))
                                    else Err(Panic(CAPACITY_OVERFLOW))
  {
  }

  /** A non-negative count read, then elements that fail: the list fails with their error. */
  lemma ListFails(e: Kind, src: seq<byte>, len: nat, k: nat)
    requires ReadVar(VarNum.VarInt, src) == Ok((len, k)) && DecodeItems(e, len, src[k..]).Err?
    ensures DecodeList(e, src) == Err(DecodeItems(e, len, src[k..]).error)
  {
  }

  /** A non-negative count read, then that many elements: the list is those elements. */
  lemma ListReads(e: Kind, src: seq<byte>, len: nat, k: nat)
    requires ReadVar(VarNum.VarInt, src) == Ok((len, k)) && DecodeItems(e, len, src[k..]).Ok?
    ensures var q := DecodeItems(e, len, src[k..]).value;
            Yields(DecodeList(e, src), Items(q.0), k + q.1)
  {
  }
}
