/**
 * The byte-level meaning of the runtime's readers and writers
 * (CodeGenerator/ProtocolParser/ProtocolParserVarInt.cs,
 * ProtocolParserKey.cs and ProtocolParser.cs), as functions over a byte
 * sequence and a position. The imperative parser methods are proved to
 * behave as these functions say; the codec model is written in their terms.
 *
 * The format is the one of the protobuf "Encoding" document: "Base 128
 * Varints", "Signed Integers" (ZigZag), "Message Structure" (tags) and
 * "Length-Delimited Records".
 */
module WireFormat {
  import opened Common
  import opened Buffers

  // ---------------------------------------------------------------------
  // Base 128 varints

  function Pow128(n: nat): (r: nat)
    ensures r >= 1
  {
    if n == 0 then 1 else 128 * Pow128(n - 1)
  }

  lemma {:induction false} Pow128Monotone(i: nat, j: nat)
    requires i <= j
    ensures Pow128(i) <= Pow128(j)
    decreases j
  {
    if i < j {
      Pow128Monotone(i, j - 1);
    }
  }

  /**
   * The bytes the varint writers emit for `v`: 7-bit groups, least
   * significant first, 0x80 on every byte except the last.
   */
  function Varint(v: nat): (r: seq<byte>)
    ensures 1 <= |r|
    decreases v
  {
    if v < 128 then [v] else [v % 128 + 128] + Varint(v / 128)
  }

  /** Every byte but the last carries 0x80; the last does not. */
  lemma {:induction false} VarintContinuation(v: nat)
    ensures Varint(v)[|Varint(v)| - 1] < 128
    ensures forall i :: 0 <= i < |Varint(v)| - 1 ==> Varint(v)[i] >= 128
    decreases v
  {
    if v >= 128 {
      VarintContinuation(v / 128);
      assert Varint(v) == [v % 128 + 128] + Varint(v / 128);
    }
  }

  /**
   * The encoding is minimal: `v` needs every one of its groups, so no
   * shorter group sequence has its value, and the last group is not zero.
   */
  lemma {:induction false} VarintMinimal(v: nat)
    ensures v < Pow128(|Varint(v)|)
    ensures |Varint(v)| > 1 ==> Pow128(|Varint(v)| - 1) <= v && Varint(v)[|Varint(v)| - 1] != 0
    decreases v
  {
    if v >= 128 {
      var t := v / 128;
      VarintMinimal(t);
      assert Varint(v) == [v % 128 + 128] + Varint(t);
      assert |Varint(v)| == |Varint(t)| + 1;
      assert Pow128(|Varint(v)|) == 128 * Pow128(|Varint(t)|);
      assert Pow128(|Varint(v)| - 1) == Pow128(|Varint(t)|);
      if |Varint(t)| > 1 {
        assert Pow128(|Varint(t)|) == 128 * Pow128(|Varint(t)| - 1);
      }
    }
  }

  /** Which varint reader: ReadUInt32 (5 groups) or ReadUInt64 (10 groups). */
  datatype Width = W32 | W64

  function MaxGroups(w: Width): nat
  {
    if w == W32 then 5 else 10
  }

  /**
   * The last group must stay below this: `(b & 0xF0) != 0` fails the fifth
   * byte of a 32-bit varint, `(b & 0xFE) != 0` the tenth of a 64-bit one.
   */
  function FinalLimit(w: Width): nat
  {
    if w == W32 then 16 else 2
  }

  function Bound(w: Width): nat
  {
    if w == W32 then TWO_32 else TWO_64
  }

  /**
   * How many values the groups from iteration `n` on can carry: 128 per
   * group and `FinalLimit` for the last one.
   */
  function Capacity(w: Width, n: nat): (c: nat)
    ensures c >= 2
    ensures n < MaxGroups(w) - 1 ==> c >= 256
    decreases MaxGroups(w) - n
  {
    if n >= MaxGroups(w) - 1 then FinalLimit(w) else 128 * Capacity(w, n + 1)
  }

  lemma {:induction false} BoundIsFinalGroup(w: Width)
    ensures Capacity(w, 0) == Bound(w)
    ensures Pow128(MaxGroups(w) - 1) < Bound(w) < Pow128(MaxGroups(w))
  {
    CapacityIsBound(w);
    assert Pow128(4) == 268435456;
    assert Pow128(5) == 34359738368;
    assert Pow128(9) == 9223372036854775808;
    assert Pow128(10) == 1180591620717411303424;
  }

  /** The first group of a varint can take any value below the width's bound. */
  lemma {:induction false} CapacityIsBound(w: Width)
    ensures Capacity(w, 0) == Bound(w)
  {
    if w == W32 {
      assert Capacity(w, 4) == 16;
      assert Capacity(w, 2) == 16 * 128 * 128;
      assert Capacity(w, 0) == 16 * 128 * 128 * 128 * 128;
    } else {
      assert Capacity(w, 9) == 2;
      assert Capacity(w, 7) == 2 * 128 * 128;
      assert Capacity(w, 5) == 2 * 128 * 128 * 128 * 128;
      assert Capacity(w, 3) == 2 * 128 * 128 * 128 * 128 * 128 * 128;
      assert Capacity(w, 0) == 2 * 128 * 128 * 128 * 128 * 128 * 128 * 128 * 128 * 128;
    }
  }

  /** Encodings of values in range take at most 5 or 10 bytes. */
  lemma {:induction false} VarintLengthBound(w: Width, v: nat)
    requires v < Bound(w)
    ensures |Varint(v)| <= MaxGroups(w)
  {
    VarintMinimal(v);
    BoundIsFinalGroup(w);
    if |Varint(v)| > MaxGroups(w) {
      Pow128Monotone(MaxGroups(w), |Varint(v)| - 1);
    }
  }

  /**
   * The loop of ReadUInt32/ReadUInt64 from iteration `n` over the bytes `s`
   * still ahead: reading past the end fails with `eof` (an IOException on a
   * stream; the span variant breaks out of its loop and fails as too large),
   * an oversized last group fails, and the first byte without 0x80 ends the
   * value. The result is the value of the groups in `s`, least significant
   * first, and how many bytes they take; the loop adds that value, shifted
   * by 7n bits, to what it already has.
   */
  function ReadGroups(w: Width, s: seq<byte>, n: nat, eof: Error): (r: Result<Read<nat>>)
    ensures r.Ok? ==> 0 < r.value.next <= |s| && r.value.next <= MaxGroups(w) - n
    ensures r.Err? ==> r.error in {eof, VarIntTooLarge}
    decreases |s|
  {
    if n >= MaxGroups(w) then Err(VarIntTooLarge)
    else if |s| == 0 then Err(eof)
    else if n == MaxGroups(w) - 1 && s[0] >= FinalLimit(w) then Err(VarIntTooLarge)
    else if s[0] < 128 then Ok(Read(s[0], 1))
    else
      var rest :- ReadGroups(w, s[1..], n + 1, eof);
      Ok(Read(s[0] % 128 + 128 * rest.value, 1 + rest.next))
  }

  /** ReadUInt32 / ReadUInt64 at `pos`: the value and the position after it. */
  function ReadVarint(w: Width, b: seq<byte>, pos: nat, eof: Error): (r: Result<Read<nat>>)
    requires pos <= |b|
    ensures r.Ok? ==> pos < r.value.next <= |b| && r.value.next - pos <= MaxGroups(w)
    ensures r.Err? ==> r.error in {eof, VarIntTooLarge}
  {
    var g :- ReadGroups(w, b[pos..], 0, eof);
    Ok(Read(g.value, pos + g.next))
  }

  /** The reader stops at the first byte without 0x80 and at no earlier one. */
  lemma {:induction false} ReadGroupsStops(w: Width, s: seq<byte>, n: nat, eof: Error)
    requires ReadGroups(w, s, n, eof).Ok?
    ensures var k := ReadGroups(w, s, n, eof).value.next;
      s[k - 1] < 128 && forall i :: 0 <= i < k - 1 ==> s[i] >= 128
    decreases |s|
  {
    if s[0] >= 128 {
      ReadGroupsStops(w, s[1..], n + 1, eof);
    }
  }

  lemma {:induction false} ReadVarintStops(w: Width, b: seq<byte>, pos: nat, eof: Error)
    requires pos <= |b| && ReadVarint(w, b, pos, eof).Ok?
    ensures var next := ReadVarint(w, b, pos, eof).value.next;
      b[next - 1] < 128 && forall i :: pos <= i < next - 1 ==> b[i] >= 128
  {
    ReadGroupsStops(w, b[pos..], 0, eof);
    var k := ReadGroups(w, b[pos..], 0, eof).value.next;
    assert forall i :: pos <= i < pos + k - 1 ==> b[i] == b[pos..][i - pos];
  }

  /** Whatever the reader accepts from iteration n on fits the groups left. */
  lemma {:induction false} ReadGroupsBound(w: Width, s: seq<byte>, n: nat, eof: Error)
    requires n < MaxGroups(w)
    ensures ReadGroups(w, s, n, eof).Ok? ==> ReadGroups(w, s, n, eof).value.value < Capacity(w, n)
    decreases |s|
  {
    var r := ReadGroups(w, s, n, eof);
    if r.Ok? && s[0] >= 128 {
      var rest := ReadGroups(w, s[1..], n + 1, eof);
      ReadGroupsBound(w, s[1..], n + 1, eof);
      assert r.value.value == s[0] % 128 + 128 * rest.value.value;
      assert Capacity(w, n) == 128 * Capacity(w, n + 1);
    }
  }

  /** ReadUInt32 yields a uint32 and ReadUInt64 a uint64. */
  lemma {:induction false} ReadVarintBound(w: Width, b: seq<byte>, pos: nat, eof: Error)
    requires pos <= |b|
    ensures ReadVarint(w, b, pos, eof).Ok? ==> ReadVarint(w, b, pos, eof).value.value < Bound(w)
  {
    ReadGroupsBound(w, b[pos..], 0, eof);
    BoundIsFinalGroup(w);
  }

  /**
   * From iteration `n`, the reader takes back any value the remaining groups
   * can carry, over exactly the bytes the writer emitted for it, whatever
   * follows them.
   */
  lemma {:induction false} ReadGroupsOfEncoding(w: Width, u: nat, rest: seq<byte>, n: nat, eof: Error)
    requires n < MaxGroups(w) && u < Capacity(w, n)
    ensures ReadGroups(w, Varint(u) + rest, n, eof) == Ok(Read(u, |Varint(u)|))
    decreases u, 1
  {
    if u >= 128 {
      ReadGroupsOfLongEncoding(w, u, rest, n, eof);
    } else {
      assert (Varint(u) + rest)[0] == u;
      assert n == MaxGroups(w) - 1 ==> Capacity(w, n) == FinalLimit(w);
    }
  }

  lemma {:induction false} ReadGroupsOfLongEncoding(w: Width, u: nat, rest: seq<byte>, n: nat, eof: Error)
    requires n < MaxGroups(w) && 128 <= u < Capacity(w, n)
    ensures ReadGroups(w, Varint(u) + rest, n, eof) == Ok(Read(u, |Varint(u)|))
    decreases u, 0
  {
    var s := Varint(u) + rest;
    var t := u / 128;
    assert Varint(u) == [u % 128 + 128] + Varint(t);
    assert s[0] == u % 128 + 128 && s[1..] == Varint(t) + rest;
    assert Capacity(w, n) == 128 * Capacity(w, n + 1);
    ReadGroupsOfEncoding(w, t, rest, n + 1, eof);
    LowGroup(u);
    ReadGroupsContinues(w, s, n, eof, t, |Varint(t)|, u, |Varint(u)|);
  }

  /** The first byte of a multi-group encoding carries the low 7 bits. */
  lemma {:induction false} LowGroup(u: nat)
    ensures (u % 128 + 128) % 128 + 128 * (u / 128) == u
  {
  }

  /** One continuation byte: its 7 bits below what the rest of the loop reads. */
  lemma {:induction false} ReadGroupsContinues(w: Width, s: seq<byte>, n: nat, eof: Error, x: nat, k: nat, u: nat, len: nat)
    requires n < MaxGroups(w) - 1 && |s| > 0 && s[0] >= 128
    requires ReadGroups(w, s[1..], n + 1, eof) == Ok(Read(x, k))
    requires u == s[0] % 128 + 128 * x && len == 1 + k
    ensures ReadGroups(w, s, n, eof) == Ok(Read(u, len))
  {
  }

  /** ReadUInt32 is a left inverse of WriteUInt32, ReadUInt64 of WriteUInt64. */
  lemma {:induction false} ReadVarintOfEncoding(w: Width, b: seq<byte>, pos: nat, eof: Error, v: nat)
    requires v < Bound(w)
    requires pos + |Varint(v)| <= |b| && b[pos..pos + |Varint(v)|] == Varint(v)
    ensures ReadVarint(w, b, pos, eof) == Ok(Read(v, pos + |Varint(v)|))
  {
    CapacityIsBound(w);
    var e := Varint(v);
    var rest := b[pos + |e|..];
    SuffixFrom(b, pos, e);
    ReadGroupsOfEncoding(w, v, rest, 0, eof);
    ReadVarintOfGroups(w, b, pos, eof, v, |e|);
  }

  /** ReadVarintOfEncoding, with the end position named by the caller. */
  lemma {:induction false} ReadVarintOfEncodingTo(w: Width, b: seq<byte>, pos: nat, eof: Error, v: nat, next: nat)
    requires v < Bound(w) && next == pos + |Varint(v)| <= |b|
    requires b[pos..next] == Varint(v)
    ensures ReadVarint(w, b, pos, eof) == Ok(Read(v, next))
  {
    ReadVarintOfEncoding(w, b, pos, eof, v);
  }

  /** What follows `pos` is `e` and then the rest. */
  lemma {:induction false} SuffixFrom<T>(b: seq<T>, pos: nat, e: seq<T>)
    requires pos + |e| <= |b| && b[pos..pos + |e|] == e
    ensures b[pos..] == e + b[pos + |e|..]
  {
    assert b[pos..] == b[pos..pos + |e|] + b[pos + |e|..];
  }

  lemma {:induction false} ReadVarintOfGroups(w: Width, b: seq<byte>, pos: nat, eof: Error, v: nat, len: nat)
    requires pos <= |b| && ReadGroups(w, b[pos..], 0, eof) == Ok(Read(v, len))
    ensures ReadVarint(w, b, pos, eof) == Ok(Read(v, pos + len))
  {
  }

  /** Running out of bytes while every byte so far carries 0x80 fails with `eof`. */
  lemma {:induction false} ReadGroupsTruncated(w: Width, s: seq<byte>, n: nat, eof: Error)
    requires n + |s| < MaxGroups(w)
    requires forall i :: 0 <= i < |s| ==> s[i] >= 128
    ensures ReadGroups(w, s, n, eof) == Err(eof)
    decreases |s|
  {
    if |s| > 0 {
      ReadGroupsTruncated(w, s[1..], n + 1, eof);
    }
  }

  /**
   * A last group out of range fails: the fifth byte of a 32-bit varint with
   * a bit of 0xF0 set, the tenth of a 64-bit one with a bit of 0xFE set.
   */
  lemma {:induction false} ReadGroupsOverflow(w: Width, s: seq<byte>, n: nat, eof: Error)
    requires n < MaxGroups(w) && MaxGroups(w) - n <= |s|
    requires forall i :: 0 <= i < MaxGroups(w) - 1 - n ==> s[i] >= 128
    requires s[MaxGroups(w) - 1 - n] >= FinalLimit(w)
    ensures ReadGroups(w, s, n, eof) == Err(VarIntTooLarge)
    decreases |s|
  {
    if n < MaxGroups(w) - 1 {
      ReadGroupsOverflow(w, s[1..], n + 1, eof);
    }
  }

  /** ReadSkipVarInt: up to and including the first byte without 0x80. */
  function SkipVarint(b: seq<byte>, pos: nat): (r: Result<nat>)
    ensures r.Ok? ==> pos < r.value <= |b| && b[r.value - 1] < 128
    ensures r.Ok? ==> forall i :: pos <= i < r.value - 1 ==> b[i] >= 128
    ensures r.Err? <==> forall i :: pos <= i < |b| ==> b[i] >= 128
    ensures r.Err? ==> r.error == EndOfStream
    decreases |b| - pos
  {
    if pos >= |b| then Err(EndOfStream)
    else if b[pos] < 128 then Ok(pos + 1)
    else SkipVarint(b, pos + 1)
  }

  /** Skipping lands where reading would have: on every varint the reader accepts. */
  lemma {:induction false} SkipVarintAfterRead(w: Width, b: seq<byte>, pos: nat, eof: Error)
    requires pos <= |b| && ReadVarint(w, b, pos, eof).Ok?
    ensures SkipVarint(b, pos) == Ok(ReadVarint(w, b, pos, eof).value.next)
  {
    var next := ReadVarint(w, b, pos, eof).value.next;
    ReadVarintStops(w, b, pos, eof);
    SkipVarintTo(b, pos, next);
  }

  lemma {:induction false} SkipVarintTo(b: seq<byte>, pos: nat, next: nat)
    requires pos < next <= |b| && b[next - 1] < 128
    requires forall i :: pos <= i < next - 1 ==> b[i] >= 128
    ensures SkipVarint(b, pos) == Ok(next)
    decreases next - pos
  {
    if pos < next - 1 {
      SkipVarintTo(b, pos + 1, next);
    }
  }

  // ---------------------------------------------------------------------
  // ZigZag

  /**
   * WriteZInt32's `(uint)((n << 1) ^ (n >> 31))`: the shift keeps the low
   * 32 bits of 2n, and `n >> 31` is all ones for a negative n and zero
   * otherwise; xor with all ones is 2^32 - 1 - x on the unsigned view.
   */
  function ZigZag32(n: int32): uint32
  {
    var shifted := Low32(2 * n);
    if n < 0 then TWO_32 - 1 - shifted else shifted
  }

  /**
   * ReadZInt32's `(int)(u >> 1) ^ ((int)(u << 31) >> 31)`: the right operand
   * is -1 for an odd u and 0 otherwise; xor with -1 is -x - 1.
   */
  function UnZigZag32(u: uint32): int32
  {
    var half := u / 2;
    if u % 2 == 1 then -half - 1 else half
  }

  function ZigZag64(n: int64): uint64
  {
    var shifted := Low64(2 * n);
    if n < 0 then TWO_64 - 1 - shifted else shifted
  }

  function UnZigZag64(u: uint64): int64
  {
    var half := u / 2;
    if u % 2 == 1 then -half - 1 else half
  }

  /** Small magnitudes map to small codes: 0, -1, 1, -2, 2 ... map to 0, 1, 2, 3, 4 ... */
  lemma {:induction false} ZigZag32Order(n: int32)
    ensures ZigZag32(n) == if n >= 0 then 2 * n else -2 * n - 1
    ensures ZigZag32(-1) == 1 && ZigZag32(1) == 2
  {
  }

  lemma {:induction false} ZigZag64Order(n: int64)
    ensures ZigZag64(n) == if n >= 0 then 2 * n else -2 * n - 1
    ensures ZigZag64(-1) == 1 && ZigZag64(1) == 2
  {
  }

  /** The readers invert the writers, and every code is hit: a bijection. */
  lemma {:induction false} ZigZag32RoundTrip(n: int32, u: uint32)
    ensures UnZigZag32(ZigZag32(n)) == n
    ensures ZigZag32(UnZigZag32(u)) == u
  {
    ZigZag32Order(n);
    ZigZag32Order(UnZigZag32(u));
  }

  lemma {:induction false} ZigZag64RoundTrip(n: int64, u: uint64)
    ensures UnZigZag64(ZigZag64(n)) == n
    ensures ZigZag64(UnZigZag64(u)) == u
  {
    ZigZag64Order(n);
    ZigZag64Order(UnZigZag64(u));
  }

  /** ReadZInt32 and ReadZInt64: a varint of the width, mapped back through ZigZag. */
  function ReadZigZag32(b: seq<byte>, pos: nat): (r: Result<Read<int32>>)
    requires pos <= |b|
  {
    var n :- ReadVarint(W32, b, pos, EndOfStream);
    ReadVarintBound(W32, b, pos, EndOfStream);
    Ok(Read(UnZigZag32(n.value), n.next))
  }

  function ReadZigZag64(b: seq<byte>, pos: nat): (r: Result<Read<int64>>)
    requires pos <= |b|
  {
    var n :- ReadVarint(W64, b, pos, EndOfStream);
    ReadVarintBound(W64, b, pos, EndOfStream);
    Ok(Read(UnZigZag64(n.value), n.next))
  }

  /** WriteZInt32 then ReadZInt32 gives every int32 back. */
  lemma {:induction false} ZigZag32VarintRoundTrip(n: int32, b: seq<byte>, pos: nat)
    requires pos + |Varint(ZigZag32(n))| <= |b| && b[pos..pos + |Varint(ZigZag32(n))|] == Varint(ZigZag32(n))
    ensures ReadZigZag32(b, pos) == Ok(Read(n, pos + |Varint(ZigZag32(n))|))
  {
    ReadVarintOfEncoding(W32, b, pos, EndOfStream, ZigZag32(n));
    ZigZag32RoundTrip(n, 0);
  }

  /** WriteZInt64 then ReadZInt64 gives every int64 back. */
  lemma {:induction false} ZigZag64VarintRoundTrip(n: int64, b: seq<byte>, pos: nat)
    requires pos + |Varint(ZigZag64(n))| <= |b| && b[pos..pos + |Varint(ZigZag64(n))|] == Varint(ZigZag64(n))
    ensures ReadZigZag64(b, pos) == Ok(Read(n, pos + |Varint(ZigZag64(n))|))
  {
    ReadVarintOfEncoding(W64, b, pos, EndOfStream, ZigZag64(n));
    ZigZag64RoundTrip(n, 0);
  }

  // ---------------------------------------------------------------------
  // Bool

  function BoolByte(v: bool): byte
  {
    if v then 1 else 0
  }

  /** ReadBool: one byte, 1 or 0; anything else is rejected. */
  function ReadBool(b: seq<byte>, pos: nat): (r: Result<Read<bool>>)
    ensures r.Ok? <==> pos < |b| && b[pos] in {0, 1}
    ensures r.Ok? ==> r.value.next == pos + 1 && BoolByte(r.value.value) == b[pos]
    ensures pos < |b| && !(b[pos] in {0, 1}) ==> r == Err(InvalidBoolean)
  {
    if pos >= |b| then Err(EndOfStream)
    else if b[pos] == 1 then Ok(Read(true, pos + 1))
    else if b[pos] == 0 then Ok(Read(false, pos + 1))
    else Err(InvalidBoolean)
  }

  // ---------------------------------------------------------------------
  // Keys (tags)

  /** A wire type as a key carries it: the low three bits, any of 0..7. */
  type WireCode = x: int | 0 <= x < 8

  const VARINT: WireCode := 0
  const FIXED64: WireCode := 1
  const LENGTH_DELIMITED: WireCode := 2
  const FIXED32: WireCode := 5

  datatype Key = Key(field: uint32, wireType: WireCode)

  lemma {:induction false} Low32Times8(f: uint32)
    ensures Low32(f * 8) % 8 == 0 && Low32(f * 8) <= TWO_32 - 8
  {
  }

  lemma {:induction false} Low32Times16(t: nat)
    ensures Low32(t * 16) % 16 == 0 && Low32(t * 16) <= TWO_32 - 16
  {
  }

  /** WriteKey's `(field << 3) | wire`; the shift leaves the low three bits clear. */
  function KeyCode(k: Key): (r: uint32)
    ensures r % 8 == k.wireType
    ensures k.field < 0x2000_0000 ==> r == 8 * k.field + k.wireType
  {
    Low32Times8(k.field);
    Low32(k.field * 8) + k.wireType
  }

  function KeyBytes(k: Key): seq<byte>
  {
    Varint(KeyCode(k))
  }

  /** ReadKey(stream): field `n >> 3`, wire `n & 7` of one 32-bit varint. */
  function ReadKey(b: seq<byte>, pos: nat): (r: Result<Read<Key>>)
    requires pos <= |b|
    ensures r.Ok? ==> pos < r.value.next <= |b|
  {
    var n :- ReadVarint(W32, b, pos, EndOfStream);
    ReadVarintBound(W32, b, pos, EndOfStream);
    Ok(Read(Key(n.value / 8, n.value % 8), n.next))
  }

  /**
   * ReadKey(firstByte, stream): a first byte below 128 is the whole key and
   * the stream is not touched; otherwise the remaining varint supplies the
   * bits above the first byte's four field bits.
   */
  function ReadKeyAfter(first: byte, b: seq<byte>, pos: nat): (r: Result<Read<Key>>)
    requires pos <= |b|
    ensures first < 128 ==> r == Ok(Read(Key(first / 8, first % 8), pos))
    ensures r.Ok? ==> pos <= r.value.next <= |b|
  {
    if first < 128 then Ok(Read(Key(first / 8, first % 8), pos))
    else
      var rest :- ReadVarint(W32, b, pos, EndOfStream);
      Low32Times16(rest.value);
      Ok(Read(Key(Low32(rest.value * 16) + (first / 8) % 16, first % 8), rest.next))
  }

  /** WriteKey then ReadKey gives the key back, for field ids below 2^29. */
  lemma {:induction false} KeyRoundTrip(k: Key, b: seq<byte>, pos: nat)
    requires k.field < 0x2000_0000
    requires pos + |KeyBytes(k)| <= |b| && b[pos..pos + |KeyBytes(k)|] == KeyBytes(k)
    ensures ReadKey(b, pos) == Ok(Read(k, pos + |KeyBytes(k)|))
  {
    var next := pos + |KeyBytes(k)|;
    ReadVarintOfEncodingTo(W32, b, pos, EndOfStream, KeyCode(k), next);
    ReadKeyOf(b, pos, KeyCode(k), next, k);
  }

  lemma {:induction false} ReadKeyOf(b: seq<byte>, pos: nat, n: nat, next: nat, k: Key)
    requires k.field < 0x2000_0000 && n == KeyCode(k)
    requires pos <= |b| && ReadVarint(W32, b, pos, EndOfStream) == Ok(Read(n, next))
    ensures ReadKey(b, pos) == Ok(Read(k, next))
  {
  }

  /** The same key is recovered on the first-byte path the decoders use. */
  lemma {:induction false} KeyRoundTripAfterFirstByte(k: Key, b: seq<byte>, pos: nat)
    requires k.field < 0x2000_0000
    requires pos + |KeyBytes(k)| <= |b| && b[pos..pos + |KeyBytes(k)|] == KeyBytes(k)
    ensures ReadKeyAfter(b[pos], b, pos + 1) == Ok(Read(k, pos + |KeyBytes(k)|))
  {
    if KeyCode(k) >= 128 {
      KeyAfterLongFirstByte(k, b, pos, pos + |KeyBytes(k)|);
    } else {
      KeyAfterShortFirstByte(k, b, pos);
    }
  }

  lemma {:induction false} KeyAfterShortFirstByte(k: Key, b: seq<byte>, pos: nat)
    requires k.field < 0x2000_0000 && KeyCode(k) < 128
    requires pos + |KeyBytes(k)| <= |b| && b[pos..pos + |KeyBytes(k)|] == KeyBytes(k)
    ensures ReadKeyAfter(b[pos], b, pos + 1) == Ok(Read(k, pos + |KeyBytes(k)|))
  {
    assert b[pos] == KeyBytes(k)[0];
  }

  lemma {:induction false} KeyAfterLongFirstByte(k: Key, b: seq<byte>, pos: nat, next: nat)
    requires k.field < 0x2000_0000 && KeyCode(k) >= 128
    requires next == pos + |KeyBytes(k)| <= |b| && b[pos..next] == KeyBytes(k)
    ensures ReadKeyAfter(b[pos], b, pos + 1) == Ok(Read(k, next))
  {
    var c := KeyCode(k);
    VarintAfterFirstByte(b, pos, c, pos + 1);
    KeyFromGroups(k);
    ReadKeyAfterLong(b[pos], b, pos + 1, c / 128, next, k);
  }

  lemma {:induction false} ReadKeyAfterLong(first: byte, b: seq<byte>, p: nat, t: nat, next: nat, k: Key)
    requires 128 <= first && p <= |b|
    requires ReadVarint(W32, b, p, EndOfStream) == Ok(Read(t, next))
    requires Low32(t * 16) + (first / 8) % 16 == k.field && first % 8 == k.wireType
    ensures ReadKeyAfter(first, b, p) == Ok(Read(k, next))
  {
  }

  /**
   * Where a varint of two or more groups sits, its first byte carries the
   * low group and the bytes after it read back as the rest of the value.
   */
  lemma {:induction false} VarintAfterFirstByte(b: seq<byte>, pos: nat, v: nat, p: nat)
    requires 128 <= v < TWO_32 && p == pos + 1
    requires pos + |Varint(v)| <= |b| && b[pos..pos + |Varint(v)|] == Varint(v)
    ensures b[pos] == v % 128 + 128
    ensures ReadVarint(W32, b, p, EndOfStream) == Ok(Read(v / 128, pos + |Varint(v)|))
  {
    VarintFirstByte(b, pos, v, p);
    VarintTailWindow(b, pos, v, p);
    ReadVarintOfTail(b, pos, v, p);
  }

  /** The first byte of a varint of two or more groups holds the low group with the continuation bit. */
  lemma {:induction false} VarintFirstByte(b: seq<byte>, pos: nat, v: nat, p: nat)
    requires 128 <= v < TWO_32 && p == pos + 1
    requires pos + |Varint(v)| <= |b| && b[pos..pos + |Varint(v)|] == Varint(v)
    ensures b[pos] == v % 128 + 128
  {
    var e := Varint(v);
    var t := v / 128;
    assert e == [v % 128 + 128] + Varint(t);
    assert b[pos] == e[0];
  }

  /** The remaining groups read back as `v / 128`, ending where the whole encoding ends. */
  lemma {:induction false} ReadVarintOfTail(b: seq<byte>, pos: nat, v: nat, p: nat)
    requires 128 <= v < TWO_32 && p == pos + 1
    requires p + |Varint(v / 128)| == pos + |Varint(v)| <= |b| && b[p..pos + |Varint(v)|] == Varint(v / 128)
    ensures ReadVarint(W32, b, p, EndOfStream) == Ok(Read(v / 128, pos + |Varint(v)|))
  {
    ReadVarintOfEncodingTo(W32, b, p, EndOfStream, v / 128, pos + |Varint(v)|);
  }

  /** After that first byte the window holds the encoding of the remaining groups. */
  lemma {:induction false} VarintTailWindow(b: seq<byte>, pos: nat, v: nat, p: nat)
    requires 128 <= v < TWO_32 && p == pos + 1
    requires pos + |Varint(v)| <= |b| && b[pos..pos + |Varint(v)|] == Varint(v)
    ensures p + |Varint(v / 128)| == pos + |Varint(v)| && b[p..pos + |Varint(v)|] == Varint(v / 128)
  {
    var e := Varint(v);
    var t := v / 128;
    assert e == [v % 128 + 128] + Varint(t);
    SliceOfWindow(b, pos, e, 1, |e|);
    assert e[1..|e|] == Varint(t);
  }



  /** ReadKey(firstByte)'s reassembly of the key from the low group and the rest. */
  lemma {:induction false} KeyFromGroups(k: Key)
    requires k.field < 0x2000_0000 && KeyCode(k) >= 128
    ensures var c := KeyCode(k);
      Low32(c / 128 * 16) + ((c % 128 + 128) / 8) % 16 == k.field && (c % 128 + 128) % 8 == k.wireType
  {
    var c := KeyCode(k);
    var t := c / 128;
    assert Low32(t * 16) == t * 16;
    assert ((c % 128 + 128) / 8) % 16 == (c % 128) / 8;
    assert t * 16 + (c % 128) / 8 == c / 8;
  }

  /** A field id of 2^29 or more loses its top bits in `field << 3`. */
  lemma {:induction false} KeyFieldWraps()
    ensures KeyCode(Key(0x2000_0000, VARINT)) == 0
    ensures ReadKey(KeyBytes(Key(0x2000_0000, VARINT)), 0) == Ok(Read(Key(0, VARINT), 1))
  {
    var k := Key(0x2000_0000, VARINT);
    assert Low32(k.field * 8) == 0;
    assert KeyCode(k) == 0;
    assert Varint(0) == [0];
    var z: seq<byte> := [0];
    assert z[0..] == z;
    assert ReadVarint(W32, z, 0, EndOfStream) == Ok(Read(0, 1));
  }

  /**
   * SkipKey: 4 bytes for Fixed32, 8 for Fixed64, the `(int)` of a 32-bit
   * length after its prefix for LengthDelimited, to the end of the varint
   * for Varint, and any other wire type fails. The windows go through
   * `Bytes`, so they must end before the end of the buffer.
   */
  function SkipKey(b: seq<byte>, pos: nat, k: Key): (r: Result<nat>)
    requires pos <= |b| <= MAX_INT32
    ensures r.Ok? ==> pos < r.value <= |b|
    ensures r.Ok? && k.wireType == FIXED32 ==> r.value == pos + 4
    ensures r.Ok? && k.wireType == FIXED64 ==> r.value == pos + 8
    ensures !(k.wireType in {VARINT, FIXED64, LENGTH_DELIMITED, FIXED32}) <==> r == Err(UnknownWireType)
  {
    if k.wireType == FIXED32 then
      var w :- Window(b, pos, 4); Ok(w.next)
    else if k.wireType == FIXED64 then
      var w :- Window(b, pos, 8); Ok(w.next)
    else if k.wireType == LENGTH_DELIMITED then
      var n :- ReadVarint(W32, b, pos, EndOfStream);
      ReadVarintBound(W32, b, pos, EndOfStream);
      var w :- Window(b, n.next, AsInt32(n.value));
      Ok(w.next)
    else if k.wireType == VARINT then
      SkipVarint(b, pos)
    else
      Err(UnknownWireType)
  }

  // ---------------------------------------------------------------------
  // Fixed-width little-endian integers (Data<T> on a little-endian host)

  function Pow256(n: nat): (r: nat)
    ensures r >= 1
  {
    if n == 0 then 1 else 256 * Pow256(n - 1)
  }

  function LittleEndian(s: seq<byte>): (r: nat)
    ensures r < Pow256(|s|)
  {
    if |s| == 0 then 0 else s[0] + 256 * LittleEndian(s[1..])
  }

  function ToLittleEndian(v: nat, n: nat): (r: seq<byte>)
    ensures |r| == n
  {
    if n == 0 then [] else [v % 256] + ToLittleEndian(v / 256, n - 1)
  }

  /** The n low bytes of v, least significant first, read back as v. */
  lemma {:induction false} LittleEndianRoundTrip(v: nat, n: nat)
    requires v < Pow256(n)
    ensures LittleEndian(ToLittleEndian(v, n)) == v
    decreases n
  {
    if n > 0 {
      var t := ToLittleEndian(v, n);
      assert t[1..] == ToLittleEndian(v / 256, n - 1);
      LittleEndianRoundTrip(v / 256, n - 1);
    }
  }

  function ReadFixed32(b: seq<byte>, pos: nat): (r: Result<Read<int32>>)
    requires pos <= |b| <= MAX_INT32
    ensures r.Ok? <==> pos + 4 < |b|
    ensures r.Ok? ==> r.value.next == pos + 4
  {
    var w :- Window(b, pos, 4);
    assert Pow256(4) == TWO_32;
    Ok(Read(AsInt32(LittleEndian(w.value)), w.next))
  }

  function ReadFixed64(b: seq<byte>, pos: nat): (r: Result<Read<int64>>)
    requires pos <= |b| <= MAX_INT32
    ensures r.Ok? <==> pos + 8 < |b|
    ensures r.Ok? ==> r.value.next == pos + 8
  {
    var w :- Window(b, pos, 8);
    assert Pow256(8) == TWO_64;
    Ok(Read(AsInt64(LittleEndian(w.value)), w.next))
  }

  function Fixed32Bytes(v: int32): (r: seq<byte>)
    ensures |r| == 4
  {
    ToLittleEndian(Low32(v), 4)
  }

  function Fixed64Bytes(v: int64): (r: seq<byte>)
    ensures |r| == 8
  {
    ToLittleEndian(Low64(v), 8)
  }

  /** A window holding the n low bytes of v reads back as v. */
  lemma {:induction false} LittleEndianWindow(b: seq<byte>, pos: nat, n: nat, v: nat)
    requires v < Pow256(n) && pos + n <= |b| && b[pos..pos + n] == ToLittleEndian(v, n)
    ensures LittleEndian(b[pos..pos + n]) == v
  {
    LittleEndianRoundTrip(v, n);
  }

  /** A fixed 32-bit value written at `pos` reads back, given a byte after it. */
  lemma {:induction false} Fixed32RoundTrip(v: int32, b: seq<byte>, pos: nat)
    requires pos + 4 < |b| <= MAX_INT32 && b[pos..pos + 4] == Fixed32Bytes(v)
    ensures ReadFixed32(b, pos) == Ok(Read(v, pos + 4))
  {
    Fixed32Window(v, b, pos);
    ReadFixed32Of(b, pos, Low32(v));
  }

  lemma {:induction false} Fixed32Window(v: int32, b: seq<byte>, pos: nat)
    requires pos + 4 <= |b| && b[pos..pos + 4] == Fixed32Bytes(v)
    ensures LittleEndian(b[pos..pos + 4]) == Low32(v)
  {
    assert Pow256(4) == TWO_32;
    LittleEndianWindow(b, pos, 4, Low32(v));
  }

  lemma {:induction false} ReadFixed32Of(b: seq<byte>, pos: nat, u: uint32)
    requires pos + 4 < |b| <= MAX_INT32 && LittleEndian(b[pos..pos + 4]) == u
    ensures ReadFixed32(b, pos) == Ok(Read(AsInt32(u), pos + 4))
  {
  }

  /** A fixed 64-bit value written at `pos` reads back, given a byte after it. */
  lemma {:induction false} Fixed64RoundTrip(v: int64, b: seq<byte>, pos: nat)
    requires pos + 8 < |b| <= MAX_INT32 && b[pos..pos + 8] == Fixed64Bytes(v)
    ensures ReadFixed64(b, pos) == Ok(Read(v, pos + 8))
  {
    Fixed64Window(v, b, pos);
    ReadFixed64Of(b, pos, Low64(v));
  }

  lemma {:induction false} Fixed64Window(v: int64, b: seq<byte>, pos: nat)
    requires pos + 8 <= |b| && b[pos..pos + 8] == Fixed64Bytes(v)
    ensures LittleEndian(b[pos..pos + 8]) == Low64(v)
  {
    assert Pow256(8) == TWO_64;
    LittleEndianWindow(b, pos, 8, Low64(v));
  }

  lemma {:induction false} ReadFixed64Of(b: seq<byte>, pos: nat, u: uint64)
    requires pos + 8 < |b| <= MAX_INT32 && LittleEndian(b[pos..pos + 8]) == u
    ensures ReadFixed64(b, pos) == Ok(Read(AsInt64(u), pos + 8))
  {
  }

  // ---------------------------------------------------------------------
  // Length-delimited payloads

  /** WriteBytes and WriteString: a varint byte count, then the bytes. */
  function LengthPrefixed(payload: seq<byte>): seq<byte>
  {
    Varint(|payload|) + payload
  }

  /**
   * ReadBytes: the `(int)` of a 32-bit length; `new byte[length]` rejects a
   * negative one before any window is taken; then exactly `length` bytes.
   */
  function ReadBytes(b: seq<byte>, pos: nat): (r: Result<Read<seq<byte>>>)
    requires pos <= |b| <= MAX_INT32
    ensures r.Ok? ==> pos < r.value.next < |b|
  {
    var n :- ReadVarint(W32, b, pos, EndOfStream);
    ReadVarintBound(W32, b, pos, EndOfStream);
    var length := AsInt32(n.value);
    if length < 0 then Err(NegativeArraySize)
    else Window(b, n.next, length)
  }

  /** ReadPooledBytes: as ReadBytes, with the pool's rent refusing a negative size. */
  function ReadPooledBytes(b: seq<byte>, pos: nat): (r: Result<Read<seq<byte>>>)
    requires pos <= |b| <= MAX_INT32
    ensures r.Ok? ==> pos < r.value.next < |b|
  {
    var n :- ReadVarint(W32, b, pos, EndOfStream);
    ReadVarintBound(W32, b, pos, EndOfStream);
    var length := AsInt32(n.value);
    if length < 0 then Err(ArgumentOutOfRange)
    else Window(b, n.next, length)
  }

  /** ReadString's framing: a length of zero or below (after `(int)`) is "". */
  function ReadStringBytes(b: seq<byte>, pos: nat): (r: Result<Read<seq<byte>>>)
    requires pos <= |b| <= MAX_INT32
    ensures r.Ok? ==> pos < r.value.next <= |b|
  {
    var n :- ReadVarint(W32, b, pos, EndOfStream);
    ReadVarintBound(W32, b, pos, EndOfStream);
    var length := AsInt32(n.value);
    if length <= 0 then Ok(Read([], n.next))
    else Window(b, n.next, length)
  }

  /** SkipBytes: past the prefix and the `(int)` of the length it announces. */
  function SkipBytes(b: seq<byte>, pos: nat): (r: Result<nat>)
    requires pos <= |b| <= MAX_INT32
    ensures r.Ok? ==> pos < r.value < |b|
  {
    var n :- ReadVarint(W32, b, pos, EndOfStream);
    ReadVarintBound(W32, b, pos, EndOfStream);
    var w :- Window(b, n.next, AsInt32(n.value));
    Ok(w.next)
  }

  /** The prefix of a length-prefixed payload reads back as its length. */
  lemma {:induction false} LengthPrefixedParts(payload: seq<byte>, b: seq<byte>, pos: nat)
    requires |payload| < TWO_31
    requires pos + |LengthPrefixed(payload)| <= |b|
    requires b[pos..pos + |LengthPrefixed(payload)|] == LengthPrefixed(payload)
    ensures ReadVarint(W32, b, pos, EndOfStream) == Ok(Read(|payload|, pos + |Varint(|payload|)|))
    ensures b[pos + |Varint(|payload|)|..pos + |LengthPrefixed(payload)|] == payload
  {
    var prefix := Varint(|payload|);
    var end := pos + |LengthPrefixed(payload)|;
    assert LengthPrefixed(payload) == prefix + payload;
    WindowHalves(b, pos, end, prefix, payload);
    LengthPrefix(b, pos, |payload|, pos + |prefix|);
  }

  lemma {:induction false} LengthPrefix(b: seq<byte>, pos: nat, n: nat, mid: nat)
    requires n < TWO_31 && mid == pos + |Varint(n)| <= |b| && b[pos..mid] == Varint(n)
    ensures ReadVarint(W32, b, pos, EndOfStream) == Ok(Read(n, mid))
  {
    ReadVarintOfEncodingTo(W32, b, pos, EndOfStream, n, mid);
  }


  /** A window holding `x + y` holds `x` and then `y`. */
  lemma {:induction false} WindowHalves<T>(b: seq<T>, pos: nat, end: nat, x: seq<T>, y: seq<T>)
    requires end == pos + |x| + |y| <= |b| && b[pos..end] == x + y
    ensures b[pos..pos + |x|] == x && b[pos + |x|..pos + |x| + |y|] == y
  {
    SliceOfWindow(b, pos, x + y, 0, |x|);
    SliceOfWindow(b, pos, x + y, |x|, |x| + |y|);
  }

  /** Part of a window holding `e` holds the same part of `e`. */
  lemma {:induction false} SliceOfWindow<T>(b: seq<T>, pos: nat, e: seq<T>, i: nat, j: nat)
    requires pos + |e| <= |b| && b[pos..pos + |e|] == e && i <= j <= |e|
    ensures b[pos + i..pos + j] == e[i..j]
  {
    forall k | 0 <= k < j - i
      ensures b[pos + i..pos + j][k] == e[i..j][k]
    {
      assert b[pos + i + k] == b[pos..pos + |e|][i + k];
    }
  }

  /**
   * A payload written with its length prefix reads back whole, provided
   * at least one byte follows it (Bytes refuses a window that ends at the
   * end of the buffer).
   */
  lemma {:induction false} LengthPrefixedRoundTrip(payload: seq<byte>, b: seq<byte>, pos: nat)
    requires |payload| < TWO_31
    requires pos + |LengthPrefixed(payload)| < |b| <= MAX_INT32
    requires b[pos..pos + |LengthPrefixed(payload)|] == LengthPrefixed(payload)
    ensures ReadBytes(b, pos) == Ok(Read(payload, pos + |LengthPrefixed(payload)|))
    ensures ReadPooledBytes(b, pos) == ReadBytes(b, pos)
  {
    LengthPrefixedParts(payload, b, pos);
  }

  /** ReadString's framing and SkipBytes agree with ReadBytes on such a payload. */
  lemma {:induction false} LengthPrefixedStringAndSkip(payload: seq<byte>, b: seq<byte>, pos: nat)
    requires |payload| < TWO_31
    requires pos + |LengthPrefixed(payload)| < |b| <= MAX_INT32
    requires b[pos..pos + |LengthPrefixed(payload)|] == LengthPrefixed(payload)
    ensures ReadStringBytes(b, pos) == Ok(Read(payload, pos + |LengthPrefixed(payload)|))
    ensures SkipBytes(b, pos) == Ok(pos + |LengthPrefixed(payload)|)
  {
    LengthPrefixedParts(payload, b, pos);
  }

  /** The same payload with nothing after it is refused. */
  lemma {:induction false} LengthPrefixedAtEndRefused(payload: seq<byte>, b: seq<byte>, pos: nat)
    requires |payload| < TWO_31
    requires pos + |LengthPrefixed(payload)| == |b| <= MAX_INT32
    requires b[pos..] == LengthPrefixed(payload)
    ensures ReadBytes(b, pos) == Err(OutOfBuffer)
  {
    var e := LengthPrefixed(payload);
    var m := |Varint(|payload|)|;
    assert b[pos..pos + m] == e[..m];
    ReadVarintOfEncoding(W32, b, pos, EndOfStream, |payload|);
  }
}
