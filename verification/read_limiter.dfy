/**
 * `ReadLimiter`: a reader wrapper that refuses any read which could take
 * the total number of bytes read past `limit`, and `assert_length`, which
 * checks that a region was read in full. Both transport generations
 * carry the same code.
 *
 * The wrapped reader holds the bytes `source`. What it does on one poll
 * is a parameter of that poll (`Inner`): it fills some of the bytes asked
 * for, is not ready, or fails. `read_exact` runs over an in-memory
 * cursor, which fills all it can on every poll.
 */
module Limiter {
  import opened Bytes

  const LIMIT_EXCEEDED: string := "Read limit exceeded"
  const UNDER_READ: string := "Buffer under-read, failed to read whole buffer"

  /** What the wrapped reader's `poll_read` does on one call. */
  datatype Inner =
    | Fill(n: nat)            // `Ready(Ok(()))` after filling `n` bytes of the buffer
    | NotReady                // `Pending`
    | Fails(message: string)  // `Ready(Err(e))` with an io error

  /** What `poll_read` returns: `Pending`, or `Ready` with its result. */
  datatype Polled = Pending | Ready(result: Result<seq<byte>>)

  class ReadLimiter {
    const limit: nat
    /** Bytes handed out so far. */
    var current: nat
    /** The unread bytes of the wrapped cursor. */
    var source: seq<byte>

    /** `current` never passes `limit`. */
    ghost predicate Valid()
      reads this
    {
      current <= limit
    }

    /** `ReadLimiter::new`: nothing has been read yet. */
    constructor (source: seq<byte>, limit: nat)
      ensures this.limit == limit && this.source == source && current == 0
      ensures Valid()
    {
      this.limit := limit;
      this.source := source;
      current := 0;
    }

    /**
     * `poll_read` into a buffer with room for `want` more bytes. A read
     * that could pass the limit fails before the wrapped reader is
     * touched. Otherwise the wrapped reader is polled: its `Pending` and
     * its error pass through with nothing counted, and the bytes it fills
     * are counted.
     */
    method PollRead(want: nat, inner: Inner) returns (r: Polled)
      requires Valid()
      requires inner.Fill? ==> inner.n <= want && inner.n <= |source|
      modifies this
      ensures Valid()
      ensures old(current) + want > limit ==>
                r == Ready(Err(Io(LIMIT_EXCEEDED))) && current == old(current) && source == old(source)
      ensures old(current) + want <= limit && inner.NotReady? ==>
                r == Pending && current == old(current) && source == old(source)
      ensures old(current) + want <= limit && inner.Fails? ==>
                r == Ready(Err(Io(inner.message))) && current == old(current) && source == old(source)
      ensures old(current) + want <= limit && inner.Fill? ==>
                r == Ready(Ok(old(source)[..inner.n]))
                && source == old(source)[inner.n..]
                && current == old(current) + inner.n
    {
      if current + want > limit {
        return Ready(Err(Io(LIMIT_EXCEEDED)));
      }
      match inner
      case NotReady =>
        return Pending;
      case Fails(message) =>
        return Ready(Err(Io(message)));
      case Fill(n) =>
        var filled := source[..n];
        source := source[n..];
        current := current + n;
        return Ready(Ok(filled));
    }

    /** `assert_length`: succeeds exactly when the whole limit was read. */
    function AssertLength(): (r: Result<()>)
      reads this
      ensures r.Ok? <==> current == limit
      ensures r.Err? ==> r.error == Explain(UNDER_READ)
    {
      if current == limit then Ok(()) else Err(Explain(UNDER_READ))
    }

    /**
     * `read_exact` on the limiter over an in-memory cursor: polls until
     * `n` bytes have arrived, failing on a poll error or on a poll that
     * fills nothing.
     */
    method ReadExact(n: nat) returns (r: Result<seq<byte>>)
      requires Valid()
      modifies this
      ensures Valid()
      ensures old(current) + n > limit ==>
                r == Err(Io(LIMIT_EXCEEDED)) && current == old(current) && source == old(source)
      ensures old(current) + n <= limit && n <= |old(source)| ==>
                r == Ok(old(source)[..n]) && source == old(source)[n..] && current == old(current) + n
      ensures old(current) + n <= limit && n > |old(source)| ==>
                r == Err(ShortRead) && source == [] && current == old(current) + |old(source)|
    {
      var got: seq<byte> := [];
      while |got| < n
        invariant Valid() && |got| <= n
        invariant old(source) == got + source && current == old(current) + |got|
        invariant got != [] ==> old(current) + n <= limit
        invariant got != [] && |got| < n ==> source == []
        decreases n - |got|
      {
        var want := n - |got|;
        var polled := PollRead(want, Fill(if want <= |source| then want else |source|));
        var filled := polled.result;
        if filled.Err? {
          return filled;
        }
        if filled.value == [] {
          return Err(ShortRead);
        }
        got := got + filled.value;
      }
      assert got == old(source)[..n];
      return Ok(got);
    }
  }

  /**
   * The documented behaviour on a limit of 2 over the bytes [1, 2, 3]:
   * reading 3 bytes fails, reading 2 yields [1, 2], and after reading 1
   * byte `assert_length` fails.
   */
  method LimitExamples() returns (three: Result<seq<byte>>, two: Result<seq<byte>>, one: Result<seq<byte>>, check: Result<()>)
    ensures three.Err? && two == Ok([1, 2]) && one == Ok([1]) && check.Err?
  {
    var a := new ReadLimiter([1, 2, 3], 2);
    three := a.ReadExact(3);
    var b := new ReadLimiter([1, 2, 3], 2);
    two := b.ReadExact(2);
    assert [1, 2, 3][..2] == [1, 2];
    var c := new ReadLimiter([1, 2, 3], 2);
    one := c.ReadExact(1);
    assert [1, 2, 3][..1] == [1];
    check := c.AssertLength();
  }
}
