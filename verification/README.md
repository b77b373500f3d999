# Drax, modelled in Dafny

Drax is a Rust toolkit for length-framed binary network protocols. The
repository holds two generations of the same ideas: the `drax_core` crate
and the newer top-level `src` crate. This project models their byte-level
core and proves properties of it:

- the VarInt / VarLong codec: 7-bit groups, low group first, with
  continuation bit `0x80`, capped at 5 / 10 bytes. It appears as the
  `var_num` futures of both generations (one model, `VarNum`) and as the
  blocking and async macros of `drax_core/src/extension.rs` (`Extension`).
- the `ReadLimiter` counting reader of both generations (`Limiter`);
- the packet components: big-endian primitives, the VarInt delegates,
  length-prefixed byte vectors and strings with their caps, `ByteDrain`,
  fixed slices and arrays, vectors, `LimitedVec`, presence-byte options,
  the struct and enum record macros and the TCPShield header. These are
  one universe of component kinds (`Packet`), with the `Size` algebra
  (`Sizes`), and proofs that `size` counts the bytes `encode` writes and
  that `decode` inverts `encode` (`PacketLaws`, `PacketRoundTrip`);
- the two NBT tagged-tree codecs:
  - `drax_core/src/nbt.rs` is `NbtCore`, `NbtCoreLaws` and `NbtCoreMethods`;
  - `src/nbt.rs` is `NbtSrc`, `NbtSrcSizes`, `NbtSrcRoundTrip` and `NbtSrcMethods`.

  Each has a writer, a sizer, a loader with its cost accounter and its
  depth cap of 512, and the root-tag rules. The loaders appear twice. As
  recursive functions over an in-memory stream, they are the specification
  the round-trip lemmas are about. As imperative methods over a `Stream`
  object and an `NbtAccounter` object, they follow the Rust loops, and
  each is proved to agree with its function;
- framing: `FrameEncoder` / `FrameDecoder` (`Frame`), the outer length
  prefix `FrameSizeAppender` (`BufferedWriter`), the buffered frame reader
  state machine (`BufferedReader`) and processor chaining (`Pipeline`).

Streams are in-memory. A decoder reads a prefix of a byte sequence and
reports how many bytes it consumed. An encoder's output is the sequence
of bytes it writes. A future's `poll` is a method over explicit state
that receives, as a parameter, what the underlying reader or writer does
on that call. Zlib and the CESU-8 decoder are parameters (functions), and
their round trips are hypotheses of the lemmas that need them.

Modules, one per file: `Bytes` (bytes.dfy), `VarNum`, `Extension`,
`Limiter` (read_limiter.dfy), `Primitives`, `Sizes`, `Packet`,
`PacketEdges`, `PacketLaws`, `PacketLoops`, `PacketRoundTrip`,
`PacketVectors`, `Mutf8`, `NbtTag`, `NbtStream`, `NbtCore`,
`NbtCoreLaws`, `NbtCoreMethods`, `NbtSrc`, `NbtSrcSizes`,
`NbtSrcRoundTrip`, `NbtSrcMethods`, `Frame`, `BufferedWriter`,
`BufferedReader`, `Pipeline`.

### Where the model follows the code rather than the stated intent

Each of these points follows the code.

- `drax_core` NBT `size_string` counts `4 + len`, but `write_string`
  writes a two-byte prefix. `NbtCoreLaws.SizeWrite` proves that the size
  exceeds the written length by exactly 2 per string.
- `drax_core` `size_nbt` is the compound's size alone, without the three
  root bytes that `write_nbt` adds (`NbtCoreLaws.SizeNbtWrite`).
- Both NBT generations load an int or long array of `n` values as `n`
  zeros followed by the `n` values read. `Reloaded` is exactly that
  doubling, and the round trips return `Reloaded(t)`.
- Both NBT generations write a string's u16 prefix from its UTF-8 byte
  length, while the body is the CESU-8 bytes (see Findings). The two lengths differ for
  `\0` and for characters outside the BMP (`Mutf8.LengthsDiffer`).
  Strings round-trip when the two agree (`Mutf8.Plain`).
- The `drax_core` string helpers check `3 * max_length`, although their
  messages mention `4 * max_length`. The messages are modelled as fixed
  text.
- The `drax_core` frame encoder chooses the compressed layout by the
  build's `compression` feature, not by the threshold. The model takes
  the choice as `Option<int>`: `None` for the raw layout, `Some(threshold)`
  for the compressed one.
- In `src/nbt.rs` the compound writer leaves out each entry's id byte,
  which the sizer counts and the reader expects (see Findings).
- In `drax_core` the decoder keeps the declared-length varint of a frame
  stored below the threshold, and reads it back as the packet id (see
  Findings).

## Model

| member | source | states |
|---|---|---|
| VarNum.Pattern | drax_core/src/transport/buffer/var_num.rs:22 | the `as u32` / `as u64` pattern of a value of the signed type is below 2^32 / 2^64 |
| VarNum.Signed | drax_core/src/transport/buffer/var_num.rs:82-88 | reading a pattern back as the signed type gives a value of that type |
| VarNum.Groups | drax_core/src/transport/buffer/var_num.rs:128-139 | the 7-bit groups of a pattern are never empty: even 0 writes one byte |
| VarNum.CountPrefix | drax_core/src/extension.rs:149 | `len as i32` gives a VarInt value, equal to `len` for lengths below 2^31 |
| VarNum.StopFrom | drax_core/src/transport/buffer/var_num.rs:86-88 | the first byte without the continuation bit: every byte before it has `0x80` set |
| VarNum.Decode | drax_core/src/transport/buffer/var_num.rs:64-90 | a decoded value has the signed type and used between 1 and all of the available bytes |
| VarNum.Size | drax_core/src/transport/buffer/var_num.rs:21-31 | the size loop returns the length of the encoding, which is between 1 and 5 (i32) / 10 (i64) |
| VarNum.SizeBounds | src/transport/buffer.rs:281-291 | every encoding is 1 to 5 (i32) / 1 to 10 (i64) bytes long |
| VarNum.NegativeIsLongest | drax_core/src/transport/buffer/var_num.rs:22 | every negative value encodes to exactly 5 (i32) / 10 (i64) bytes |
| VarNum.GroupsContinuation | drax_core/src/transport/buffer/var_num.rs:130-137 | every group but the last has `0x80` set, and the last is below `0x80` |
| VarNum.GroupsCarryBits | drax_core/src/transport/buffer/var_num.rs:134-137 | byte k carries bits 7k..7k+6 of the pattern |
| VarNum.EncodeShape | drax_core/src/transport/buffer/var_num.rs:128-139 | the encoding has continuation bits on all bytes but the last, and byte k carries bits 7k..7k+6 of the pattern, low group first |
| VarNum.PayloadGroups | drax_core/src/transport/buffer/var_num.rs:82-85 | accumulating the written groups at offsets 0, 7, 14, ... rebuilds the pattern |
| VarNum.DecodeEncode | drax_core/src/transport/buffer/var_num.rs:64-90 | decoding the encoding of v, followed by anything, returns v and consumes exactly the encoding |
| VarNum.EncodeStops | drax_core/src/transport/buffer/var_num.rs:86-88 | the first byte without the continuation bit is the last byte of the encoding |
| VarNum.DecodeStopsAt | drax_core/src/transport/buffer/var_num.rs:82-88 | when the terminator is within the cap, the value is the accumulated groups up to and including it, wrapped to the type |
| VarNum.DecodeShape | drax_core/src/transport/buffer/var_num.rs:71-80 | decode succeeds with at most 5 / 10 bytes ending at the first terminator; it is "too large" exactly when 5 / 10 continuation bytes come first, and runs out exactly when the input ends first |
| VarNum.AccumulateStep | drax_core/src/transport/buffer/var_num.rs:82-85 | ORing the next group in at offset 7k, wrapped to the width, is the accumulation of one more byte |
| VarNum.ReadFinishes | drax_core/src/transport/buffer/var_num.rs:86-88 | bytes ending in the first terminator, within the cap, decode to the accumulated value |
| VarNum.ReadOverflows | drax_core/src/transport/buffer/var_num.rs:71-73 | 5 / 10 continuation bytes make decoding fail as too large |
| VarNum.ReadRunsOut | drax_core/src/transport/buffer/var_num.rs:78-80 | input that ends before a terminator and before the cap runs out of bytes |
| VarNum.ReadFuture.constructor | drax_core/src/transport/buffer/var_num.rs:33-43 | a new read future has value 0, bit offset 0 and nothing consumed |
| VarNum.ReadFuture.Accept | drax_core/src/transport/buffer/var_num.rs:82-85 | one byte ORed in: the value is the wrapped accumulation of the bytes consumed so far, and the offset is 7 per byte |
| VarNum.ReadFuture.Poll | drax_core/src/transport/buffer/var_num.rs:64-90 | the poll loop's result is the decode of everything consumed over all polls: Ready(value), "VarInt too large" at 35 / 70 bits, EOF on a zero-byte read, or Pending with the state kept |
| VarNum.WriteFuture.constructor | drax_core/src/transport/buffer/var_num.rs:93-102 | a new write future holds the value with nothing written |
| VarNum.WriteFuture.Poll | drax_core/src/transport/buffer/var_num.rs:122-140 | with room for r bytes, the loop writes the next r bytes of the encoding, and finishes exactly when the rest of the encoding fits |
| VarNum.EncodeVectors | src/transport/buffer.rs:460-468 | 25, 55324, -8877777, 2147483647 and -2147483648 encode to the five listed byte strings |
| VarNum.DecodeVectors | drax_core/src/transport/buffer.rs:198-206 | the five listed byte strings decode to 25, 55324, -8877777, 2147483647 and -2147483648, consuming all their bytes |
| Extension.ReadVarNumber | drax_core/src/extension.rs:7-33 | the read loop returns the decoded value, "Var int too big, could not find end." at 35 / 70 bits, or the byte read's own error when the input ends; it reads at most 5 / 10 bytes and exactly the encoding on success |
| Extension.ReadStep | drax_core/src/extension.rs:21-25 | ORing in the next byte's low seven bits at the current offset extends the accumulated value by that byte |
| Extension.SizeVarNumber | drax_core/src/extension.rs:62-77 | `size_var_int` / `size_var_long` return the length of the encoding |
| Extension.WriteVarNumber | drax_core/src/extension.rs:97-113 | the sync write loop emits exactly the encoding |
| Extension.ReadWriteVarNumber | drax_core/src/extension.rs:46-58 | reading what the write loop emitted, followed by anything, gives back the value |
| Extension.WriteStringChecked | drax_core/src/extension.rs:141-152 | the output is the VarInt length prefix followed by the bytes themselves |
| Extension.WriteString | drax_core/src/extension.rs:154-178 | fails exactly when the byte length exceeds `3 * max_length`, and otherwise writes the checked form |
| Extension.ReadExact | drax_core/src/extension.rs:187-188 | `read_exact` of n bytes succeeds exactly when n bytes are there, and yields them |
| Extension.SizeStringMatchesWrite | drax_core/src/extension.rs:217-222 | `size_string` equals the length of what `write_string` emits |
| Extension.ReadStringWriteString | drax_core/src/extension.rs:154-215 | reading back what `write_string` emitted gives the same UTF-8 string and consumes exactly its bytes |
| Extension.ReadStringRejectsLong | drax_core/src/extension.rs:200-207 | a declared length above `3 * max_length` fails before the body is read |
| Extension.ReadStringBody | drax_core/src/extension.rs:180-191 | after an accepted length, too few bytes fail with the reader's own error, bytes that are not UTF-8 fail as UTF-8, and otherwise exactly the next `length` bytes are the string |
| Extension.NegativeLengthRejected | drax_core/src/extension.rs:200-207 | a negative declared length, taken `as usize`, is rejected as too long |
| Limiter.ReadLimiter.constructor | src/transport/buffer.rs:82-88 | a new limiter starts with `current = 0` |
| Limiter.ReadLimiter.PollRead | src/transport/buffer.rs:120-139 | a read for more than `limit - current` bytes fails with "Read limit exceeded" and touches neither the counter nor the reader; otherwise the wrapped reader is polled: its `Pending` and its io error pass through with nothing counted, and when it fills n bytes they are the next n bytes and `current` grows by exactly n, staying at most `limit` |
| Limiter.ReadLimiter.AssertLength | drax_core/src/transport/buffer.rs:103-111 | succeeds exactly when `current == limit`, and otherwise fails with the under-read message |
| Limiter.ReadLimiter.ReadExact | drax_core/src/transport/buffer.rs:118-138 | `read_exact` through the limiter yields the next n bytes, fails over the limit before reading, or fails short when the reader runs out |
| Limiter.LimitExamples | drax_core/src/transport/buffer.rs:56-101 | with limit 2 over [1, 2, 3]: reading 3 fails, reading 2 yields [1, 2], and reading 1 then `assert_length` fails |
| Bytes.AsI32 | drax_core/src/transport/buffered_writer.rs:11 | `as i32` gives an `i32` congruent to the input modulo 2^32 |
| Bytes.AsUsize | drax_core/src/extension.rs:200 | `as usize` of an `i32` / `i64` is the value itself when nonnegative, and the value plus 2^64 when negative |
| Bytes.FromBeBeBytes | drax_core/src/primitives.rs:16-28 | reading big-endian bytes back gives the pattern that was written |
| Bytes.BeBytesFromBe | drax_core/src/primitives.rs:26-28 | writing the pattern read from n bytes gives those bytes back |
| Primitives.PatternOf | drax_core/src/primitives.rs:16 | the two's-complement pattern of a value of the type is below 256^byte_count |
| Primitives.ValueOf | drax_core/src/primitives.rs:28 | `from_be_bytes` gives a value of the type |
| Primitives.Write | drax_core/src/primitives.rs:16 | `write_to_transport` emits exactly `byte_count` bytes |
| Primitives.Read | drax_core/src/primitives.rs:20-29 | `read_from_transport` succeeds exactly when `byte_count` bytes are there, consumes exactly them, and fails with the short-read error otherwise |
| Primitives.PreconditionSize | drax_core/src/primitives.rs:31-38 | `precondition_size` equals the number of bytes written |
| Primitives.ReadWrite | drax_core/src/primitives.rs:9-29 | reading back what was written, followed by anything, returns the value and consumes `byte_count` bytes |
| Primitives.ReadPrefix | src/transport/packet/primitive.rs:22-26 | a read sees only the first `size_of` bytes |
| Primitives.PatternValue | drax_core/src/primitives.rs:16-28 | reading a value's pattern back as the type gives the value |
| Primitives.WriteRead | src/transport/packet/primitive.rs:22-36 | writing the value read from `size_of` bytes gives those bytes back |
| Primitives.WriteIsBigEndian | drax_core/src/primitives.rs:16 | the bytes written are the big-endian digits of the value's pattern |
| Primitives.PrimitiveVectors | src/transport/packet.rs:568-577 | i32 10 is [0, 0, 0, 10], the bytes of the `uu` field in the encoded example; further instances of the big-endian layout: u16 0 is [0, 0] and i32 -1 is four `0xFF` bytes |
| Sizes.Add | src/transport/packet.rs:12-23 | `Constant + Constant` is `Constant` and anything with `Dynamic` is `Dynamic`, with the counts added |
| Sizes.AddCount | src/transport/packet.rs:25-33 | `Size + usize` is always `Dynamic`, with the count added |
| Sizes.AddLaws | drax_core/src/transport/packet.rs:12-23 | size addition is associative and commutative, with `Constant(0)` as unit |
| Sizes.TotalAppend | src/transport/packet.rs:350-362 | the dynamic counter over two field lists is the sum of the two |
| Sizes.ConstantPartBounded | src/transport/packet.rs:350-362 | the constant counter never exceeds the dynamic counter, and equals it exactly when every `Dynamic` field is 0 |
| Sizes.SumShape | src/transport/packet.rs:12-23 | adding field sizes with `+` counts every byte, and stays `Constant` exactly when every field is |
| Sizes.RecordSizeOf | src/transport/packet.rs:448-469 | a record's size counts every byte of its fields |
| Sizes.RecordSize | src/transport/packet.rs:448-469 | the two-counter loop gives the record size, which is `Constant` exactly when every `Dynamic` field is 0 |
| Sizes.RecordSizeVersusAdd | src/transport/packet.rs:323-327 | the two-counter rule agrees with plain `+` exactly when all fields are `Constant` or some `Dynamic` field is nonzero |
| Sizes.FirstConstant | drax_core/src/transport/packet.rs:442-450 | the scan stops at the first `Constant` element, and every element before it is `Dynamic` |
| Sizes.VecSizeOf | src/transport/packet/vec.rs:207-219 | a vector's size is always `Dynamic` |
| Sizes.ArraySize | src/transport/packet/vec.rs:119-128 | the array size loop returns `Constant(x * N)` at the first `Constant(x)`, and otherwise `Dynamic` of the sum |
| Sizes.VecSize | drax_core/src/transport/packet.rs:545-555 | the vector size loop returns the count prefix plus `x * len` at the first `Constant(x)`, and otherwise the prefix plus the sum |
| Sizes.TotalOfEqual | src/transport/packet/vec.rs:119-128 | n element sizes of x bytes total `x * n` |
| Sizes.ShortCutExact | drax_core/src/transport/packet.rs:442-450 | when all elements have one size, the short cut counts exactly the bytes of the elements |
| Sizes.ArraySizeShapes | src/transport/packet/vec.rs:119-128 | N = 0 gives `Dynamic(0)`; a `Constant(x)` first element gives `Constant(x * N)`; all-`Dynamic` elements give `Dynamic` of their sum |
| Packet.Encode | src/transport/packet/vec.rs:256-271 | encoding fails only for a `LimitedVec` over its bound, with the bound message |
| Packet.EncodeItems | src/transport/packet/vec.rs:193-204 | writing elements fails only for a `LimitedVec` over its bound |
| Packet.EncodeFields | src/transport/packet.rs:430-446 | writing fields fails only for a `LimitedVec` over its bound |
| Packet.ReadVar | src/transport/packet/primitive.rs:83-87 | the VarInt delegate consumes 1 to all of the available bytes and yields a value of the type, or fails with EOF or "VarInt too large" |
| Packet.ReadBody | drax_core/src/transport/packet.rs:477-508 | a body read of `len` bytes yields exactly the next `len` bytes |
| Packet.DecodeText | src/transport/packet/string.rs:11-31 | string decoding consumes no more than the input |
| Packet.FirstCase | src/transport/packet.rs:195-225 | enum decoding picks the first arm whose literal matches the key |
| Packet.Decode | src/transport/packet.rs:409-428 | every component decoder consumes no more than the input |
| Packet.DecodeBytes | src/transport/packet/vec.rs:136-150 | `VecU8` decoding consumes no more than the input |
| Packet.DecodeList | src/transport/packet/vec.rs:176-191 | `Vec<T>` decoding consumes no more than the input; what it decodes is stated by `PacketEdges.NegativeCount`, `PacketLoops.ListStart`, `ListFails`, `ListReads` and `PacketRoundTrip.DecodeListEncode` |
| Packet.DecodeLimited | src/transport/packet/vec.rs:230-249 | `LimitedVec` decoding consumes no more than the input |
| Packet.DecodeMaybe | src/transport/packet/option.rs:21-28 | `Maybe` decoding consumes no more than the input |
| Packet.DecodeEnum | src/transport/packet.rs:195-225 | enum decoding consumes no more than the input |
| Packet.DecodeShield | src/transport/packet.rs:488-499 | TCPShield header decoding consumes no more than the input |
| Packet.DecodeItems | src/transport/packet/vec.rs:176-191 | decoding `count` elements yields exactly `count` values |
| Packet.DecodeFields | src/transport/packet.rs:409-428 | decoding a record's fields yields one value per field |
| Packet.Grow | src/transport/packet.rs:514-519 | the TCPShield size adds 4 and keeps the kind |
| Packet.ItemSizes | src/transport/packet/vec.rs:119-128 | one size per element |
| Packet.FieldSizes | src/transport/packet.rs:448-462 | one size per field |
| PacketEdges.StringBounds | src/transport/packet/string.rs:61-71 | `decode_with_limit(None)` caps a string at 131068 bytes and `Some(l)` at `4 * l` |
| PacketEdges.TextTooLong | src/transport/packet/string.rs:21-27 | a declared length above the cap fails with "String exceeded length bound" before the body is read |
| PacketEdges.TextShort | src/transport/packet/string.rs:28-29 | an accepted length with too few bytes after it fails as a short read |
| PacketEdges.TextBody | src/transport/packet/string.rs:28-30 | an accepted length yields exactly that many bytes when they are UTF-8, and fails on invalid UTF-8 |
| PacketEdges.NegativeLength | src/transport/packet/string.rs:28 | a negative declared length panics allocating the buffer, for strings and for `VecU8` |
| PacketEdges.NegativeCount | src/transport/packet/vec.rs:183-191 | a negative element count reads no element: it panics allocating the vector, except for a zero-sized element type (unit struct, `[u8; 0]`, `[T; 0]` and the like), where `0..len` is empty and the vector is empty after the count |
| PacketEdges.UnitStructsNegativeCount | src/transport/packet/vec.rs:183-191 | count -1 ([0xFF, 0xFF, 0xFF, 0xFF, 0x0F]) gives an empty vector of unit structs after 5 bytes, and a capacity-overflow panic for `[u8; 1]` elements |
| PacketEdges.LimitedRefusesCount | src/transport/packet/vec.rs:235-241 | a declared count above N fails before any element is decoded |
| PacketEdges.LimitedAsVec | src/transport/packet/vec.rs:256-271 | `LimitedVec` encoding fails over N and otherwise equals `Vec<T>` encoding; its size is the `Vec<T>` size |
| PacketEdges.PresenceByte | src/transport/packet/option.rs:21-28 | presence byte 0 gives `None` after one byte; any other byte decodes the inner value after it; no byte is a short read |
| PacketEdges.MaybeSize | src/transport/packet/option.rs:46-54 | `None` has size `Dynamic(1)` and `Some(v)` has `Dynamic(size(v) + 1)`, whatever the inner kind |
| PacketEdges.UnknownKey | src/transport/packet.rs:195-225 | a key that matches no arm fails with "Failed to decode key" |
| PacketEdges.NoCase | src/transport/packet.rs:205-223 | with no arm for the key, the arm search runs off the end |
| PacketEdges.DrainRoundTrip | src/transport/packet/vec.rs:16-47 | `ByteDrain` writes the raw bytes, reads them all back, and has size `Dynamic(len)` |
| PacketEdges.DrainSwallowsTail | src/transport/packet/vec.rs:19-31 | `ByteDrain` reads to the end of the input, so bytes after it are swallowed |
| PacketLaws.SizeEncode | src/transport/packet.rs:448-469 | for every component, `size` counts exactly the bytes `encode` writes, when vectors and arrays have uniform element sizes |
| PacketLaws.ShieldHeaderLength | src/transport/packet.rs:501-519 | the TCPShield header is the string's encoding plus 4 bytes |
| PacketLaws.SizeEncodeItems | drax_core/src/transport/packet.rs:510-556 | the element sizes total the bytes the elements write |
| PacketLaws.SizeEncodeFields | src/transport/packet.rs:430-469 | the field sizes total the bytes the fields write |
| PacketLoops.DecodeElements | src/transport/packet/vec.rs:183-190 | the push loop decodes `count` elements one after another, stopping at the first error |
| PacketLoops.DecodeVec | drax_core/src/transport/packet.rs:516-530 | `Vec<T>` decoding reads the count, then that many elements in order; a negative count panics in `with_capacity`, or gives an empty vector for a zero-sized element type |
| PacketLoops.DecodeCounted | src/transport/packet/vec.rs:185-190 | once a count `len >= 0` was read, the vector is the `len` elements pushed one after another, or the error of the first that fails |
| PacketLoops.DecodeNext | src/transport/packet/vec.rs:183-190 | one loop step: the next element extends the decoded prefix, or its error ends the loop |
| PacketLoops.ListStart | src/transport/packet/vec.rs:184-186 | a count that fails to read fails the vector; a negative count panics allocating the vector, except for a zero-sized element type, which gives an empty vector |
| PacketLoops.ListFails | src/transport/packet/vec.rs:183-190 | an element error is the vector's error |
| PacketLoops.ListReads | src/transport/packet/vec.rs:176-191 | a vector is its count prefix followed by its elements |
| PacketRoundTrip.DecodeEncode | src/transport/packet.rs:409-446 | decoding what `encode` wrote, followed by anything, gives back the value and consumes exactly its bytes, for every component whose lengths and bounds decoding accepts |
| PacketRoundTrip.RoundTrip | src/transport/packet.rs:409-446 | the same, case by case over the component kinds |
| PacketRoundTrip.RoundTripItems | src/transport/packet/vec.rs:183-204 | elements written one after another decode back one after another |
| PacketRoundTrip.RoundTripFields | src/transport/packet.rs:409-446 | struct fields are written and read in declaration order, so they decode back |
| PacketRoundTrip.IntRoundTrip | src/transport/packet/primitive.rs:22-36 | a big-endian primitive decodes back from its bytes |
| PacketRoundTrip.OctetRoundTrip | src/transport/packet/primitive.rs:54-71 | `B1` reads back the byte it wrote |
| PacketRoundTrip.VarRoundTrip | src/transport/packet/primitive.rs:78-122 | `VarInt` and `VarLong` read back what they wrote |
| PacketRoundTrip.TextRoundTrip | src/transport/packet/string.rs:21-41 | a string within its bound reads back from its prefixed UTF-8 bytes |
| PacketRoundTrip.DecodeTextEncode | src/transport/packet/string.rs:21-41 | a UTF-8 body within the bound, after its VarInt length, decodes to itself |
| PacketRoundTrip.ByteVecRoundTrip | src/transport/packet/vec.rs:136-161 | `VecU8` reads back its prefixed bytes |
| PacketRoundTrip.DecodeBytesEncode | drax_core/src/transport/packet.rs:477-504 | a body after its VarInt length decodes to itself |
| PacketRoundTrip.SliceRoundTrip | src/transport/packet/vec.rs:51-82 | `SliceU8<N>` reads back exactly the N bytes it wrote |
| PacketRoundTrip.ShieldRoundTrip | src/transport/packet.rs:485-512 | the TCPShield header reads back its host string |
| PacketRoundTrip.DecodeShieldHeader | src/transport/packet.rs:488-499 | the header decoder skips VarInt 0, reads the string, skips the u16 and VarInt 2 |
| PacketRoundTrip.ArrayRoundTrip | src/transport/packet/vec.rs:84-117 | `[T; N]` reads back its N elements, with no count prefix |
| PacketRoundTrip.ListRoundTrip | src/transport/packet/vec.rs:176-204 | `Vec<T>` reads back its count and elements |
| PacketRoundTrip.DecodeListEncode | drax_core/src/transport/packet.rs:510-544 | a count followed by that many encoded elements decodes to those elements |
| PacketRoundTrip.LimitedRoundTrip | src/transport/packet/vec.rs:230-267 | a `LimitedVec` within its bound reads back |
| PacketRoundTrip.DecodeLimitedEncode | src/transport/packet/vec.rs:230-249 | a count within the bound followed by the elements decodes to them |
| PacketRoundTrip.AbsentRoundTrip | src/transport/packet/option.rs:21-43 | `None` writes [0] and reads back |
| PacketRoundTrip.PresentRoundTrip | src/transport/packet/option.rs:21-43 | `Some(v)` writes 1 and then v, and reads back whenever v does |
| PacketRoundTrip.DecodeMaybePresent | src/transport/packet/option.rs:21-28 | byte 1 followed by an inner encoding decodes to `Some` |
| PacketRoundTrip.StructRoundTrip | src/transport/packet.rs:409-446 | a struct reads back when its fields do |
| PacketRoundTrip.EnumRoundTrip | src/transport/packet.rs:195-275 | an enum value writes its arm's key and then its fields, and reads back to the same arm and fields |
| PacketRoundTrip.DecodeEnumStep | src/transport/packet.rs:195-225 | enum decoding reads the key, picks the first matching arm and decodes that arm's fields |
| PacketVectors.RecordOfTwo | src/transport/packet.rs:448-469 | a two-field record is `Dynamic` exactly when a field is a nonzero `Dynamic` |
| PacketVectors.RecordOfThree | src/transport/packet.rs:448-469 | the same for three fields |
| PacketVectors.EnumPairEncodes | src/transport/packet.rs:227-275 | an enum value of a two-field arm writes the arm's key and then its two fields |
| PacketVectors.EnumPairSize | src/transport/packet.rs:277-327 | its size is the record size of the key and the two fields |
| PacketVectors.ExampleEncodes | src/transport/packet.rs:568-579 | `Example { v_int: 25, uu: 10 }` encodes to [25, 0, 0, 0, 10] |
| PacketVectors.ExampleDecodes | src/transport/packet.rs:553-566 | [25, 0, 0, 0, 10] decodes to `Example { v_int: 25, uu: 10 }` |
| PacketVectors.ExampleSize | src/transport/packet.rs:580-587 | its size is `Dynamic(5)` |
| PacketVectors.Variant1Encodes | src/transport/packet.rs:612-630 | `Variant1 { 25, 10 }` encodes to [0, 25, 0, 0, 0, 10] |
| PacketVectors.Variant1Decodes | src/transport/packet.rs:590-610 | [0, 25, 0, 0, 0, 10] decodes to `Variant1 { 25, 10 }` |
| PacketVectors.Variant1Size | src/transport/packet.rs:632-639 | its size is `Dynamic(6)` |
| PacketVectors.Variant2Encodes | src/transport/packet.rs:612-630 | `Variant2 { 10, 25 }` encodes to [1, 0, 0, 0, 10, 25] |
| PacketVectors.Variant2Decodes | src/transport/packet.rs:590-610 | [1, 0, 0, 0, 10, 25] decodes to `Variant2 { 10, 25 }` |
| PacketVectors.Variant2Size | src/transport/packet.rs:640-645 | its size is `Dynamic(6)` |
| PacketVectors.CoreExampleEncodes | drax_core/src/transport/packet.rs:864-888 | the first generation's `Example { 25, 10 }` encodes to [25, 10] |
| PacketVectors.CoreExampleDecodes | drax_core/src/transport/packet.rs:864-888 | [25, 10] decodes to that example |
| PacketVectors.CoreExampleSize | drax_core/src/transport/packet.rs:864-888 | its size is `Dynamic(2)` |
| PacketVectors.MaybeOctetVectors | drax_core/src/transport/packet.rs:701-739 | `Maybe<u8>`: `Some(v)` is [1, v] with size `Dynamic(2)`, and `None` is [0] with size `Dynamic(1)`, both ways |
| PacketVectors.UnknownVariant | src/transport/packet.rs:195-225 | key 2 matches no arm of the example enum and fails with "Failed to decode key" |
| Mutf8.Three | drax_core/src/nbt.rs:238-246 | a CESU-8 unit below 0x10000 written as three bytes |
| Mutf8.EncodeChar | src/nbt.rs:128 | a character's CESU-8 form is 1 to 6 bytes |
| Mutf8.EncodeLength | src/nbt.rs:127-134 | the CESU-8 form is never shorter than the UTF-8 length, and has the same length exactly when the string has no `\0` and no character outside the BMP |
| Mutf8.EncodeAppend | src/nbt.rs:128 | the CESU-8 form of a concatenation is the concatenation of the forms |
| Mutf8.LengthsDiffer | src/nbt.rs:127-128 | for `\0` and for U+1F600 the CESU-8 length differs from the UTF-8 length written as the prefix |
| NbtTag.Id | drax_core/src/nbt.rs:182-198 | tag ids are 0..12 in declaration order; 10 exactly for a compound and 0 exactly for `EndTag` |
| NbtTag.Find | drax_core/src/nbt.rs:499-501 | a name lookup finds the first entry with that name, or none |
| NbtTag.InsertGet | drax_core/src/nbt.rs:495-501 | after inserting a name its lookup gives the new value and other names are unchanged; the insert reports whether the name was already there |
| NbtTag.InsertDistinct | src/nbt.rs:342-346 | inserting keeps names distinct: a new name is appended, and an existing one is overwritten in place |
| NbtStream.ReadAt | drax_core/src/nbt.rs:372-404 | a big-endian read at a position succeeds exactly when `byte_count` bytes remain, yields a value of the type and advances by `byte_count`; otherwise a short read |
| NbtStream.ReadValues | drax_core/src/nbt.rs:466-468 | reading `count` values appends exactly `count` values and stays within the input, or fails as a short read |
| NbtStream.ReadValuesInRange | drax_core/src/nbt.rs:466-468 | every value read is a value of the element type |
| NbtStream.ReadValuesSpan | drax_core/src/nbt.rs:466-468 | reading `count` values succeeds exactly when `count * byte_count` bytes remain, and consumes exactly them |
| NbtStream.ReadExact | drax_core/src/nbt.rs:409-411 | `read_exact` of n bytes succeeds exactly when n bytes remain, yields them and advances by n |
| NbtStream.Stream.constructor | drax_core/src/nbt.rs:507 | a stream starts at position 0 over its bytes |
| NbtStream.Stream.ReadInt | drax_core/src/primitives.rs:20-29 | reads a big-endian value as `ReadAt` says, and leaves the position unchanged on a short read |
| NbtStream.Stream.ReadBytes | drax_core/src/nbt.rs:409-411 | `read_exact` into a buffer yields the next n bytes and advances by n, or fails short leaving the position |
| NbtStream.Stream.ReadMany | drax_core/src/nbt.rs:466-468 | the read loop gives what `ReadValues` gives, and the position it gives |
| NbtStream.Stream.Skip | drax_core/src/nbt.rs:201-205 | `skip_bytes` copies at most n bytes to a sink: it advances by n, stopping at the end of the input without an error |
| NbtCore.Account | drax_core/src/nbt.rs:18-32 | `account_bits` succeeds exactly when `current + bits` does not overflow u64 and is within the limit, then yields the sum; it fails with the overflow or too-big message |
| NbtCore.Charge | drax_core/src/nbt.rs:453-474 | `k * n as u64` is the product when it fits, and wraps modulo 2^64 otherwise |
| NbtCore.NbtAccounter.constructor | drax_core/src/nbt.rs:509 | a new accounter has `current = 0` |
| NbtCore.NbtAccounter.AccountBits | drax_core/src/nbt.rs:18-32 | success adds the bits to `current`; failure leaves it unchanged |
| NbtCore.WriteString | drax_core/src/nbt.rs:238-246 | a string is written as a two-byte prefix and its CESU-8 bytes |
| NbtCore.SizeString | drax_core/src/nbt.rs:234-236 | `size_string` is 2 more than the bytes `write_string` emits |
| NbtCore.WriteStringCorrected | drax_core/src/nbt.rs:238-246 | the corrected writer: the u16 prefix is the CESU-8 byte length, followed by the CESU-8 bytes |
| NbtCore.ReadString | drax_core/src/nbt.rs:213-232 | a string read consumes its two-byte prefix and no more than the input |
| NbtCore.SkipString | drax_core/src/nbt.rs:207-211 | skipping a string needs its two-byte prefix |
| NbtCore.MakeScalar | drax_core/src/nbt.rs:372-404 | ids 1 to 6 build the scalar tag of that id holding the value read |
| NbtCore.LengthPrefix | drax_core/src/nbt.rs:294-296 | the `len as i32` prefix is four bytes |
| NbtCore.Zeros | drax_core/src/nbt.rs:465 | `vec![0; len]` holds `len` zeros |
| NbtCore.LoadLeaf | drax_core/src/nbt.rs:361-481 | a loaded leaf has the requested id; an id above 12 fails with "Unknown tag bit" |
| NbtCore.LoadScalar | drax_core/src/nbt.rs:372-404 | a loaded scalar has the requested id |
| NbtCore.LoadByteArray | drax_core/src/nbt.rs:406-413 | the byte-array loader yields a byte array |
| NbtCore.LoadString | drax_core/src/nbt.rs:414-419 | the string loader yields a string |
| NbtCore.LoadArray | drax_core/src/nbt.rs:461-480 | the int / long array loaders yield an array of that id |
| NbtCore.ArrayValues | drax_core/src/nbt.rs:465-469 | the values loop yields an array of that id |
| NbtCore.ArrayTag | drax_core/src/nbt.rs:461-480 | the array tag built has the id and holds values of its type |
| NbtCore.ZerosInRange | drax_core/src/nbt.rs:465 | zeros are values of every integer type |
| NbtCore.LoadTag | drax_core/src/nbt.rs:361-483 | a loaded tag has the requested id and is within the input |
| NbtCore.LoadList | drax_core/src/nbt.rs:420-439 | the list loader yields a list |
| NbtCore.LoadItems | drax_core/src/nbt.rs:434-437 | the element loop yields exactly `len` elements after those already loaded |
| NbtCore.LoadCompound | drax_core/src/nbt.rs:440-460 | the compound loader yields a compound and consumes at least its end byte |
| NbtCore.LoadEntries | drax_core/src/nbt.rs:447-458 | the entry loop consumes at least the end byte |
| NbtCore.LoadEntry | drax_core/src/nbt.rs:452-457 | one entry consumes at least its bytes |
| NbtCore.InsertLoaded | drax_core/src/nbt.rs:454-457 | inserting the loaded value stays within the input |
| NbtCore.CompoundTag.constructor | drax_core/src/nbt.rs:491-493 | a new compound has no mappings |
| NbtCore.CompoundTag.PutTag | drax_core/src/nbt.rs:495-497 | after `put_tag`, `get_tag` of that name is the tag and every other name is unchanged |
| NbtCore.InsertGetAll | drax_core/src/nbt.rs:495-501 | the same for the association list, for all other names at once |
| NbtCoreLaws.SizeWrite | drax_core/src/nbt.rs:234-359 | `size_tag` exceeds the bytes `write_tag` emits by exactly 2 per string in the tag |
| NbtCoreLaws.SizeWriteScalar | drax_core/src/nbt.rs:339-345 | scalar sizes 1, 2, 4, 8, 4, 8 are their written lengths |
| NbtCoreLaws.SizeWriteIntArray | drax_core/src/nbt.rs:312-356 | the int-array size `4n + 4` is its written length |
| NbtCoreLaws.SizeWriteLongArray | drax_core/src/nbt.rs:323-357 | the long-array size `8n + 4` is its written length |
| NbtCoreLaws.SizeWriteItems | drax_core/src/nbt.rs:348-354 | the list's element sizes exceed the elements' bytes by 2 per string |
| NbtCoreLaws.SizeWriteEntries | drax_core/src/nbt.rs:248-272 | the compound sizer exceeds the compound writer by 2 per string |
| NbtCoreLaws.SizeWriteNoStrings | drax_core/src/nbt.rs:274-359 | with no strings, `size_tag` equals the bytes written |
| NbtCoreLaws.SizeNbtWrite | drax_core/src/nbt.rs:523-553 | `write_nbt` emits 3 more bytes than `size_nbt` counts, besides the string surplus; `size_optional_nbt(Some)` is `size_nbt` |
| NbtCoreLaws.OptionalNone | drax_core/src/nbt.rs:531-553 | `write_optional_nbt(None)` emits [0], and its size is 1 |
| NbtCoreLaws.EntriesStopAtEnd | drax_core/src/nbt.rs:248-272 | an `EndTag` entry ends the compound at its 0 byte, and the sizer stops there too |
| NbtCoreLaws.AccountNeverPassesLimit | drax_core/src/nbt.rs:18-32 | accounting never takes `current` past the limit, and succeeds exactly when the sum is within it |
| NbtCoreLaws.DepthExceeded | drax_core/src/nbt.rs:420-444 | a list or compound at depth above 512 fails with "Nbt tag depth exceeded 512." once its charge is accepted, before reading its body |
| NbtCoreLaws.MissingListType | drax_core/src/nbt.rs:426-430 | a list with element id 0 and a positive length fails with "Missing type on list tag." |
| NbtCoreLaws.UnknownId | drax_core/src/nbt.rs:481 | an id above 12 fails with "Unknown tag bit" |
| NbtCoreLaws.DuplicateName | drax_core/src/nbt.rs:454-457 | a repeated name overwrites the value and charges an extra 288 |
| NbtCoreLaws.NewName | drax_core/src/nbt.rs:454-457 | a new name is appended with no extra charge |
| NbtCoreLaws.ReadNbtRoot | drax_core/src/nbt.rs:508-515 | a leading 0 gives no tag after one byte; any other byte but 10 fails with "Root tag must be a compound tag." |
| NbtCoreLaws.ReadNbtCompound | drax_core/src/nbt.rs:516-520 | otherwise the name is skipped and a compound is loaded at depth 0 with a fresh accounter |
| NbtCoreLaws.ReadValuesWritten | drax_core/src/nbt.rs:466-468 | the values loop reads back the values written |
| NbtCoreLaws.NulStringCutShort | drax_core/src/nbt.rs:213-246 | as written, "\0" is written [0, 1, 0xC0, 0x80]; reading it back hands the decoder only [0xC0] and ends after 3 of the 4 bytes, or fails |
| NbtCoreLaws.CorrectedStringRoundTrip | drax_core/src/nbt.rs:213-232 | with the corrected prefix, every string under 2^16 encoded bytes reads back and consumes exactly its written bytes, NUL and supplementary characters included |
| NbtCoreLaws.CorrectedStringAgrees | drax_core/src/nbt.rs:238-246 | for strings with no NUL and no character outside the BMP, the corrected writer writes the same bytes as the writer as written |
| NbtCoreLaws.ReadStringWritten | drax_core/src/nbt.rs:213-246 | a string whose prefix is its CESU-8 length reads back from its written bytes |
| NbtCoreLaws.LoadWritten | drax_core/src/nbt.rs:274-483 | loading what `write_tag` wrote, under a sufficient limit, gives the tag back (arrays doubled), consumes exactly its bytes and charges its cost |
| NbtCoreLaws.LoadLeafWritten | drax_core/src/nbt.rs:361-419 | the same for every tag other than a list or a compound |
| NbtCoreLaws.LoadScalarWritten | drax_core/src/nbt.rs:372-404 | scalars read back |
| NbtCoreLaws.LoadByteArrayWritten | drax_core/src/nbt.rs:406-413 | byte arrays read back |
| NbtCoreLaws.LoadStringWritten | drax_core/src/nbt.rs:414-419 | strings read back |
| NbtCoreLaws.LoadArrayWritten | drax_core/src/nbt.rs:461-480 | int and long arrays read back doubled: n zeros, then the n values |
| NbtCoreLaws.LoadListWritten | drax_core/src/nbt.rs:420-439 | lists read back element by element |
| NbtCoreLaws.LoadItemsWritten | drax_core/src/nbt.rs:434-437 | the element loop reads back the written elements |
| NbtCoreLaws.LoadCompoundWritten | drax_core/src/nbt.rs:440-460 | compounds with distinct names read back entry by entry |
| NbtCoreLaws.LoadEntriesWritten | drax_core/src/nbt.rs:447-458 | the entry loop reads back the written entries up to the end byte |
| NbtCoreMethods.ReadString | drax_core/src/nbt.rs:213-232 | the chunked read loop returns what the read-string function gives, and moves the stream to its end |
| NbtCoreMethods.SkipString | drax_core/src/nbt.rs:207-211 | skips the string as the function says |
| NbtCoreMethods.LoadTag | drax_core/src/nbt.rs:361-483 | the loader over a stream and an accounter object gives the function's result, position and charge |
| NbtCoreMethods.LoadLeaf | drax_core/src/nbt.rs:368-419 | the same for the leaf cases |
| NbtCoreMethods.LoadByteArray | drax_core/src/nbt.rs:406-413 | the same for byte arrays |
| NbtCoreMethods.LoadString | drax_core/src/nbt.rs:414-419 | the same for strings |
| NbtCoreMethods.LoadArray | drax_core/src/nbt.rs:461-480 | the same for int and long arrays |
| NbtCoreMethods.ArrayLoop | drax_core/src/nbt.rs:465-469 | the push loop after `vec![0; len]` gives the values function's result |
| NbtCoreMethods.LoadList | drax_core/src/nbt.rs:420-439 | the same for lists |
| NbtCoreMethods.LoadItems | drax_core/src/nbt.rs:434-437 | the element loop gives the elements function's result |
| NbtCoreMethods.LoadCompound | drax_core/src/nbt.rs:440-460 | the same for compounds |
| NbtCoreMethods.LoadEntries | drax_core/src/nbt.rs:447-458 | the `while` loop over id bytes gives the entries function's result |
| NbtCoreMethods.LoadEntry | drax_core/src/nbt.rs:452-457 | one loop body: name, charge, value, insert |
| NbtCoreMethods.InsertLoaded | drax_core/src/nbt.rs:454-457 | the insert and the duplicate charge |
| NbtCoreMethods.ReadNbt | drax_core/src/nbt.rs:508-521 | `read_nbt` over a stream gives the function's result and position |
| NbtCoreMethods.SizeTag | drax_core/src/nbt.rs:337-359 | the sizing loops give `size_tag` |
| NbtCoreMethods.SizeCompound | drax_core/src/nbt.rs:261-272 | the compound size loop, stopping at an `EndTag`, gives the entries size |
| NbtSrc.Account | src/nbt.rs:14-31 | limit 0 always succeeds and leaves `current` unchanged; otherwise success exactly when `current + bytes` neither overflows nor passes the limit, yielding the sum |
| NbtSrc.NbtAccounter.constructor | src/nbt.rs:424-427 | a new accounter has `current = 0` |
| NbtSrc.NbtAccounter.AccountBytes | src/nbt.rs:14-31 | success sets `current` to the accounted sum; failure leaves it unchanged |
| NbtSrc.Scaled | src/nbt.rs:293-390 | `(k * n) as u64` is the product when it fits in `i32`, and wraps otherwise |
| NbtSrc.SizeString | src/nbt.rs:132-134 | `size_string` is exactly the bytes `write_string` emits |
| NbtSrc.ReadString | src/nbt.rs:111-121 | a string read consumes its two-byte prefix and no more than the input |
| NbtSrc.LoadTag | src/nbt.rs:70-84 | a loaded tag has the requested id and stays within the input |
| NbtSrc.LoadLeaf | src/nbt.rs:70-84 | a loaded leaf has the requested id; any id above 12 fails with "Invalid bit" |
| NbtSrc.LoadScalar | src/nbt.rs:150-234 | a loaded scalar has the requested id |
| NbtSrc.LoadByteArray | src/nbt.rs:245-252 | the byte-array loader yields a byte array |
| NbtSrc.LoadString | src/nbt.rs:262-265 | the string loader yields a string |
| NbtSrc.LoadArray | src/nbt.rs:352-397 | the int / long array loaders yield an array of that id |
| NbtSrc.LoadList | src/nbt.rs:286-299 | the list loader yields a list |
| NbtSrc.LoadItems | src/nbt.rs:295-297 | the element loop yields exactly `length` elements |
| NbtSrc.LoadCompound | src/nbt.rs:327-350 | the compound loader yields a compound and consumes at least its end byte |
| NbtSrc.LoadEntries | src/nbt.rs:333-348 | the entry loop consumes at least the end byte |
| NbtSrc.LoadEntry | src/nbt.rs:338-347 | one entry consumes at least its bytes |
| NbtSrc.InsertLoaded | src/nbt.rs:342-347 | inserting the loaded value stays within the input |
| NbtSrc.Decode | src/nbt.rs:409-431 | `EnsuredCompoundTag` decoding consumes at least one byte, and a tagged result is a compound |
| NbtSrc.Encode | src/nbt.rs:434-453 | the first byte is 0 exactly for `NoTag` |
| NbtSrc.Size | src/nbt.rs:455-463 | the size is `Constant` exactly for `NoTag` |
| NbtSrcSizes.SizeWrite | src/nbt.rs:86-108 | `size_tag` equals the bytes the writer emits, per-entry id bytes included |
| NbtSrcSizes.SizeWriteLeaf | src/nbt.rs:136-397 | leaf sizes: scalars 0/1/2/4/8/4/8, byte array 4 + len, string 2 + CESU-8 length, int array 4 + 4n, long array 4 + 8n |
| NbtSrcSizes.SizeWriteItems | src/nbt.rs:269-285 | the list size `5 + Σ` is its written length |
| NbtSrcSizes.SizeWriteEntries | src/nbt.rs:303-326 | the compound size is its written length, per-entry id bytes included |
| NbtSrcSizes.EmptyCompound | src/nbt.rs:303-326 | an empty compound writes [0] and has size 1 |
| NbtSrcSizes.SizeWriteAsWritten | src/nbt.rs:303-326 | the sizer counts one byte per compound entry more than the writer as written emits |
| NbtSrcSizes.OneEntryBytes | src/nbt.rs:315-326 | for `{"a": Byte(1)}` the writer as written emits [0, 1, 97, 1, 0], while the size is 6 |
| NbtSrcSizes.AsWrittenLosesEntries | src/nbt.rs:315-349 | loading what the writer as written emits for `{"a": Byte(1)}` ends at the first byte and gives an empty compound |
| NbtSrcSizes.AccountSplit | src/nbt.rs:14-31 | charging a + b succeeds exactly when charging a and then b does, with the same result |
| NbtSrcSizes.DepthExceeded | src/nbt.rs:286-331 | a list or compound at depth above 512 fails with "Depth surpassed 512" once its charge is accepted, before reading its body |
| NbtSrcSizes.InvalidBit | src/nbt.rs:81 | an id above 12 fails with "Invalid bit" |
| NbtSrcSizes.NegativeListLength | src/nbt.rs:292-294 | a negative list length panics allocating the vector |
| NbtSrcSizes.DuplicateName | src/nbt.rs:342-345 | a repeated key overwrites the value with no extra charge |
| NbtSrcSizes.NewName | src/nbt.rs:346-347 | a new key is appended and charged 36 |
| NbtSrcSizes.DecodeFirstByte | src/nbt.rs:414-423 | byte 0 gives `NoTag` after one byte; a byte other than 0 and 10 fails |
| NbtSrcSizes.SizeEncode | src/nbt.rs:441-461 | the size counts exactly the bytes encoded; `NoTag` is [0] with size `Constant(1)` |
| NbtSrcRoundTrip.Split | src/nbt.rs:14-31 | charging a + b in one call equals charging a and then b |
| NbtSrcRoundTrip.ReadStringWritten | src/nbt.rs:111-130 | a string whose prefix is its CESU-8 length reads back from its written bytes, charging its UTF-8 length |
| NbtSrcRoundTrip.LoadWritten | src/nbt.rs:70-84 | loading what the writer (with per-entry id bytes) emits, under a sufficient limit or limit 0, gives the tag back (arrays doubled), consumes exactly its bytes and charges its cost |
| NbtSrcRoundTrip.LoadLeafWritten | src/nbt.rs:136-397 | the same for every tag other than a list or compound |
| NbtSrcRoundTrip.LoadScalarWritten | src/nbt.rs:150-234 | scalars read back |
| NbtSrcRoundTrip.LoadByteArrayWritten | src/nbt.rs:235-252 | byte arrays read back |
| NbtSrcRoundTrip.LoadStringWritten | src/nbt.rs:254-265 | strings read back |
| NbtSrcRoundTrip.LoadArrayWritten | src/nbt.rs:352-397 | int and long arrays read back doubled |
| NbtSrcRoundTrip.LoadListWritten | src/nbt.rs:267-299 | lists read back element by element |
| NbtSrcRoundTrip.LoadItemsWritten | src/nbt.rs:295-297 | the element loop reads back the written elements |
| NbtSrcRoundTrip.LoadCompoundWritten | src/nbt.rs:301-350 | compounds with distinct names read back entry by entry |
| NbtSrcRoundTrip.LoadEntriesWritten | src/nbt.rs:333-348 | the entry loop reads back the written entries up to the end byte |
| NbtSrcRoundTrip.DecodeEncode | src/nbt.rs:409-453 | decoding an encoded `EnsuredCompoundTag` gives it back (arrays doubled) and consumes exactly its bytes |
| NbtSrcRoundTrip.CorrectedKeepsEntries | src/nbt.rs:315-349 | with the id byte written, `{"a": Byte(1)}` loads back whole from its 6 bytes |
| NbtSrcMethods.ReadString | src/nbt.rs:111-121 | the read gives the function's result, position and charge |
| NbtSrcMethods.LoadTag | src/nbt.rs:70-84 | the loader over a stream and an accounter object gives the function's result, position and charge |
| NbtSrcMethods.LoadLeaf | src/nbt.rs:136-266 | the same for the leaf cases |
| NbtSrcMethods.LoadByteArray | src/nbt.rs:245-252 | the same for byte arrays |
| NbtSrcMethods.LoadArray | src/nbt.rs:352-397 | the same for int and long arrays, with the push loop |
| NbtSrcMethods.LoadList | src/nbt.rs:286-299 | the same for lists |
| NbtSrcMethods.LoadItems | src/nbt.rs:295-297 | the element loop gives the elements function's result |
| NbtSrcMethods.LoadCompound | src/nbt.rs:327-350 | the same for compounds |
| NbtSrcMethods.LoadEntries | src/nbt.rs:333-348 | the `loop` over id bytes gives the entries function's result |
| NbtSrcMethods.LoadEntry | src/nbt.rs:338-347 | one loop body: charge 28, key, value, insert, and 36 for a new key |
| NbtSrcMethods.Decode | src/nbt.rs:409-431 | `EnsuredCompoundTag` decoding over a stream gives the function's result and position |
| NbtSrcMethods.SizeTag | src/nbt.rs:99-108 | the size loops give `size_tag` |
| NbtSrcMethods.SizeCompound | src/nbt.rs:303-314 | the compound size loop gives the entries size, with 1 for an empty compound |
| Frame.Uncompressed | drax_core/src/transport/frame.rs:30-40 | the uncompressed frame is the packet id's VarInt followed by the data |
| Frame.CreateCompressed | drax_core/src/transport/frame.rs:42-71 | below the threshold: declared length 0 and the body stored raw; otherwise: the zlib output, with the body length declared; fails only when that length does not fit `i32` |
| Frame.ReadId | drax_core/src/transport/frame.rs:138 | the packet id read is a VarInt value within the input |
| Frame.Body | drax_core/src/transport/frame.rs:154-168 | declared 0 gives the input as it stands; a positive length decompresses and fails unless exactly that many bytes come out; a negative one panics allocating |
| Frame.FixedBody | drax_core/src/transport/frame.rs:154-168 | the corrected body: declared 0 gives the bytes after the length prefix |
| Frame.Process | drax_core/src/transport/frame.rs:182-202 | the decoder's `process` gives the frame-decoding function's result |
| Frame.ReadRawUncompressed | drax_core/src/transport/frame.rs:133-143 | the raw reader gives back the frame from its uncompressed bytes |
| Frame.DefaultIsRaw | drax_core/src/transport/frame.rs:109-118 | `FrameDecoder::default()` (threshold -1) takes the raw path |
| Frame.RawRoundTrip | drax_core/src/transport/frame.rs:133-143 | without compression, decoding the encoded frame gives it back |
| Frame.EncodedLayout | drax_core/src/transport/frame.rs:86-97 | encoder output is the declared length's VarInt followed by the stored bytes |
| Frame.ReadZero | drax_core/src/transport/frame.rs:170 | a leading 0 byte reads as packet id 0 |
| Frame.StoredFrameAsWritten | drax_core/src/transport/frame.rs:154-174 | a frame stored below the threshold decodes as packet id 0 carrying the whole uncompressed body, not as the frame |
| Frame.StoredFrameRoundTrip | drax_core/src/transport/frame.rs:145-175 | with the position after the declared length kept, a frame stored below the threshold decodes back to itself |
| Frame.CompressedFrameRoundTrip | drax_core/src/transport/frame.rs:145-175 | at or above the threshold, given a zlib that inverts itself, the frame decodes back to itself |
| BufferedWriter.Declared | drax_core/src/transport/buffered_writer.rs:11 | `input.len() as i32` is a VarInt value, equal to the length below 2^31 |
| BufferedWriter.AppendSize | drax_core/src/transport/buffered_writer.rs:11-14 | the output is the header followed by the input, unchanged |
| BufferedWriter.AppendSizeReadBack | drax_core/src/transport/buffered_writer.rs:11-14 | reading one VarInt off the output yields the input length and leaves exactly the input |
| BufferedWriter.HeaderSize | drax_core/src/transport/buffered_writer.rs:12-13 | the header is 1 to 5 bytes, and 1 byte for inputs under 128 bytes |
| BufferedWriter.LongInputWraps | drax_core/src/transport/buffered_writer.rs:11 | an input of 2^31 bytes declares length -2^31 |
| BufferedWriter.GenericWrite | drax_core/src/transport/buffered_writer.rs:31-35 | the frame data is `precondition_size` bytes long and reads back as the value |
| BufferedReader.TransportPipeline.constructor | drax_core/src/transport/buffered_reader.rs:18-20 | a pipeline holds the chain and the buffer it is given |
| BufferedReader.TransportPipeline.UpdateChain | drax_core/src/transport/buffered_reader.rs:36-38 | `update_chain` replaces the chain and keeps the buffer |
| BufferedReader.TransportPipeline.ReadTransportPacket | drax_core/src/transport/buffered_reader.rs:22-34 | each new read future starts with no pending size |
| BufferedReader.ReadTransportPacket.constructor | drax_core/src/transport/buffered_reader.rs:27-33 | the future starts with no pending size |
| BufferedReader.ReadTransportPacket.Poll | drax_core/src/transport/buffered_reader.rs:58-130 | one poll moves the buffer, the pending size and the outcome exactly as the step function says |
| BufferedReader.ReadsFirst | drax_core/src/transport/buffered_reader.rs:68-84 | every poll reads first: a pending read is Pending with nothing changed, and a zero-byte read fails with EOF |
| BufferedReader.FullBufferRefused | drax_core/src/transport/buffered_reader.rs:64-66 | a full buffer fails with "No packet found but buffer is full." before reading |
| BufferedReader.WaitsForSize | drax_core/src/transport/buffered_reader.rs:93-111 | while no size prefix can be parsed, the bytes are appended, nothing is consumed and the poll is Pending |
| BufferedReader.EncodingPrefix | drax_core/src/transport/buffered_reader.rs:96-109 | a proper prefix of a VarInt encoding does not parse |
| BufferedReader.WholeFrame | drax_core/src/transport/buffered_reader.rs:93-125 | a whole size-prefixed frame in the buffer goes through the pipeline, and the buffer advances past it |
| BufferedReader.CutInHeader | drax_core/src/transport/buffered_reader.rs:93-111 | a read that ends inside the size prefix leaves the bytes buffered and the poll Pending |
| BufferedReader.CutInBody | drax_core/src/transport/buffered_reader.rs:100-129 | a read that ends inside the body records the size, drops the prefix and is Pending |
| BufferedReader.FrameInTwoReads | drax_core/src/transport/buffered_reader.rs:58-130 | a frame split over two reads is Pending after the first and delivered after the second, reusing the recorded size |
| BufferedReader.EmptyFramePanics | drax_core/src/transport/buffered_reader.rs:114-120 | a frame of size 0 panics in `chunks(0)` |
| BufferedReader.NegativeSizeWaits | drax_core/src/transport/buffered_reader.rs:100-129 | a negative size prefix becomes a huge `usize` size and the poll waits |
| Pipeline.IntoOuterLink | drax_core/src/transport/pipeline.rs:14-35 | `into_outer` of `link(a, b)` returns the two stages unchanged |
| Pipeline.ErrorSkipsSecond | drax_core/src/transport/pipeline.rs:41-48 | an error from the first stage is returned, and the second stage is not run |
| Pipeline.Sequenced | drax_core/src/transport/pipeline.rs:41-48 | otherwise the second stage runs on the first stage's output, with the context the first stage left |
| Pipeline.LinkAssociative | drax_core/src/transport/pipeline.rs:51-59 | `link!(a, b, c)` nests to the right, and behaves as the left nesting |

## Left out

- Encryption (AES-128 in CFB8 mode, in both generations) is foreign crypto and is not modelled.
- Zlib is a pair of functions passed as a parameter. Its round trip is a hypothesis of `Frame.CompressedFrameRoundTrip`.
- CESU-8 decoding is a function passed as a parameter. The round trips assume it inverts the encoder on the strings involved. Non-canonical inputs that the decoder accepts are not modelled.
- JSON (`write_json`, `read_json`, `size_json`, `JsonWrapper`) delegates to serde_json and is not modelled.
- `FloatTag` / `DoubleTag` and the f32 / f64 primitives are modelled as their raw bit patterns.
- The async machinery (`Pin`, wakers, `Poll` plumbing) is not modelled. Each future's `poll` is a method over explicit state that receives what the reader or writer does on that call.
- `TransportProcessorContext`, footprints and the error-conversion plumbing are left out. Errors are one small datatype, and formatted message arguments are not rendered.
- The proc-macro crate only generates Rust tokens. Its runtime meaning is the struct and enum record kinds of `Packet`.
- Compounds are `HashMap`s, whose enumeration order is unspecified. A compound is an association list, and its order is the enumeration order the writer uses. `CompoundTag::tags()` (the key iterator) is not modelled.
- Integer arithmetic that would panic in a debug build (`current + bits` is checked; the `size` counters are not) is modelled with the release-build wrap only where the code casts (`as u64`, `as usize`, `as i32`). Sizes are unbounded naturals.
- The position a stream is left at after a failed read is not stated for the loaders: the `Agrees` relation only fixes it on success.
- Writers are byte sequences: an I/O error from the underlying writer is not modelled.
- `TagShort` of `src/nbt.rs` holds a `u16` and is modelled with the u16 pattern.
- The `drax_core` `size_owned` of `Option<CompoundTag>` (drax_core/src/transport/packet.rs:184-186) and the third arm of `Maybe<T>::size` (780-786) do not compile as written. They are not modelled. The modelled `Maybe` size is the one `src/transport/packet/option.rs` gives.
- `decode_with_limit` forwarding a limit into nested components is modelled only for strings (the `Text` kind carries its limit).
- `GenericWriter` writes any `DraxTransport`; the model covers the integer primitives (`BufferedWriter.GenericWrite`).
- NbtCoreLaws.LoadWritten: holds for tags that the loader can rebuild. Names and strings must have a CESU-8 length equal to their UTF-8 length and below 2^16. Lists must have elements of their declared id and no `EndTag` elements. Compound names must be distinct, and the tree must be at most 512 deep. These conditions are its `WellFormed` precondition, so it is stated only for such tags.
- NbtSrcRoundTrip.LoadWritten: the same `WellFormed` precondition as the first generation.
- NbtSrcRoundTrip.DecodeEncode: states the round trip only for `Tagged` values holding a compound, which are what `EnsuredCompoundTag` is meant to carry.
- NbtSrc.Encode: uses the corrected compound writer, with per-entry id bytes; the writer as written is `NbtSrc.WriteAsWritten` (see Findings).
- PacketRoundTrip.DecodeEncode: excludes `ByteDrain`, which swallows everything after it, and enum arms that write their key with a type other than the key's own (`literal: Type as Variant`). For those arms, decoding reads the key with the enum's key type.
- PacketLaws.SizeEncode: assumes uniform element sizes in vectors and arrays, because the code's short cut takes the first `Constant` element size as every element's.
- Packet.Decode: its own contract only bounds what it consumes. What it decodes is stated by the `PacketRoundTrip`, `PacketEdges` and `PacketVectors` lemmas.
- NbtCore.LoadTag: its own contract only states the id and the bounds. What it loads is stated by `NbtCoreLaws.LoadWritten` and the error lemmas (`DepthExceeded`, `MissingListType`, `UnknownId`).
- NbtCore.LoadLeaf: its own contract only states the id and the unknown-id error. What it loads is stated by `NbtCoreLaws.LoadLeafWritten`.
- NbtCore.LoadScalar: its own contract only states the id. The value is stated by `NbtCoreLaws.LoadScalarWritten`.
- NbtCore.LoadByteArray: its own contract only states the shape. The contents are stated by `NbtCoreLaws.LoadByteArrayWritten`.
- NbtCore.LoadString: its own contract only states the shape. The contents are stated by `NbtCoreLaws.LoadStringWritten`.
- NbtCore.LoadArray: its own contract only states the id. The doubled contents are stated by `NbtCoreLaws.LoadArrayWritten`.
- NbtCore.ArrayValues: its own contract only states the id. The values are stated by `NbtCoreLaws.ReadValuesWritten`.
- NbtCore.LoadList: its own contract only states the shape. The contents are stated by `NbtCoreLaws.LoadListWritten`, `MissingListType` and `DepthExceeded`.
- NbtCore.LoadItems: its own contract only states the count. The elements are stated by `NbtCoreLaws.LoadItemsWritten`.
- NbtCore.LoadCompound: its own contract only states the shape. The contents are stated by `NbtCoreLaws.LoadCompoundWritten` and `DepthExceeded`.
- NbtCore.LoadEntries: its own contract only bounds what it consumes. The entries are stated by `NbtCoreLaws.LoadEntriesWritten`.
- NbtCore.LoadEntry: its own contract only bounds what it consumes. The entry is stated by `NbtCoreLaws.LoadEntriesWritten`, `DuplicateName` and `NewName`.
- NbtCore.ReadString: its own contract only bounds what it consumes. The read-back is stated by `NbtCoreLaws.ReadStringWritten` and `CorrectedStringRoundTrip`.
- NbtCore.SkipString: its own contract does not state the end position, which is the prefix plus the smaller of the declared length and the bytes that remain.
- NbtSrc.ReadString: its own contract only bounds what it consumes. The read-back and its charge are stated by `NbtSrcRoundTrip.ReadStringWritten`.
- NbtSrc.LoadTag: its own contract only states the id and the bounds. What it loads is stated by `NbtSrcRoundTrip.LoadWritten` and the `NbtSrcSizes` error lemmas.
- NbtSrc.LoadLeaf: its own contract only states the id and the "Invalid bit" error. What it loads is stated by `NbtSrcRoundTrip.LoadLeafWritten`.
- NbtSrc.LoadScalar: its own contract only states the id. The value is stated by `NbtSrcRoundTrip.LoadScalarWritten`.
- NbtSrc.LoadByteArray: its own contract only states the shape. The contents are stated by `NbtSrcRoundTrip.LoadByteArrayWritten`.
- NbtSrc.LoadString: its own contract only states the shape. The contents are stated by `NbtSrcRoundTrip.LoadStringWritten`.
- NbtSrc.LoadArray: its own contract only states the id. The doubled contents are stated by `NbtSrcRoundTrip.LoadArrayWritten`.
- NbtSrc.LoadList: its own contract only states the shape. The contents are stated by `NbtSrcRoundTrip.LoadListWritten`, `NbtSrcSizes.DepthExceeded` and `NbtSrcSizes.NegativeListLength`.
- NbtSrc.LoadItems: its own contract only states the count. The elements are stated by `NbtSrcRoundTrip.LoadItemsWritten`.
- NbtSrc.LoadCompound: its own contract only states the shape. The contents are stated by `NbtSrcRoundTrip.LoadCompoundWritten` and `NbtSrcSizes.DepthExceeded`.
- NbtSrc.LoadEntries: its own contract only bounds what it consumes. The entries are stated by `NbtSrcRoundTrip.LoadEntriesWritten`.
- NbtSrc.LoadEntry: its own contract only bounds what it consumes. The entry is stated by `NbtSrcRoundTrip.LoadEntriesWritten`, `NbtSrcSizes.DuplicateName` and `NbtSrcSizes.NewName`.
- NbtSrc.Decode: its own contract only states the shape. What it decodes is stated by `NbtSrcRoundTrip.DecodeEncode` and `NbtSrcSizes.DecodeFirstByte`.
- NbtCore.WriteString: the rest of the model keeps the writer as written. The round trips are stated only for strings with no NUL and no character outside the BMP, for which `NbtCoreLaws.CorrectedStringAgrees` shows the two writers agree. `src/nbt.rs` has the same prefix (see Findings), and its corrected writer is not modelled separately.
- Attributes passed through the record macros are not modelled: `#[repr(u8)]` on a one-variant enum gives it a size, while `Packet.ZeroSized` follows the default layout.
- Limiter.ReadLimiter.ReadExact: runs over an in-memory cursor, which fills all it can on every poll; a wrapped reader that is pending or fails is modelled by `PollRead` alone.

## Findings

| source | as written | input that shows it | evidently intended | confidence | as-written member | corrected member |
|---|---|---|---|---|---|---|
| drax_core/src/transport/frame.rs:154-156 | with declared length 0, `compressed_data.into_inner()` returns the whole input, declared-length byte included, so the packet id is read from that 0 byte | threshold 256, frame id 5 with data [1, 2]: encoded [0, 5, 1, 2], decoded as id 0 with data [5, 1, 2] | the body is the bytes after the declared length, so the frame decodes back to id 5 with data [1, 2] | not executed | Frame.StoredFrameAsWritten | Frame.StoredFrameRoundTrip |
| src/nbt.rs:320-323 | the compound writer emits name and value but no id byte per entry, while the reader expects one and the sizer counts it | `{"a": Byte(1)}` is written [0, 1, 97, 1, 0]; the reader takes the first 0 as the end byte and returns an empty compound | each entry written as id byte, name, value, so the compound reads back whole | not executed | NbtSrcSizes.AsWrittenLosesEntries | NbtSrcRoundTrip.CorrectedKeepsEntries |
| drax_core/src/nbt.rs:238-246 | the u16 prefix is the UTF-8 byte length (`str::len`) while the body is the CESU-8 bytes, which are longer for NUL and for characters outside the BMP; `src/nbt.rs:123-130` does the same | `"\0"` is written [0, 1, 0xC0, 0x80]; `read_string` reads 1 body byte, [0xC0], and leaves 0x80 in the stream | the prefix is the length of the CESU-8 bytes, so every string reads back | not executed | NbtCoreLaws.NulStringCutShort | NbtCoreLaws.CorrectedStringRoundTrip |
