/**
 * The varint, ZigZag and bool readers and writers of the runtime
 * (CodeGenerator/ProtocolParser/ProtocolParserVarInt.cs), as loops over the
 * shared BufferStream or over a span, each proved to do what the functions
 * of WireFormat say.
 *
 * The readers' `val |= (b & 0x7F) << (7 * n)` ors groups into disjoint bit
 * ranges, and the range checks keep the last one inside the 32 or 64 bits,
 * so the accumulation is the sum `val + (b % 128) * 128^n` written here.
 * `(b & 0x80) == 0` on a byte is `b < 128`, and the range checks
 * `(b & 0xF0) != 0` and `(b & 0xFE) != 0` are `b >= 16` and `b >= 2`
 * (FinalLimit).
 */
module VarInt {
  import opened Common
  import opened Buffers
  import opened WireFormat

  /**
   * How a reading that already took `n` groups worth `acc` ends, given how
   * the groups from the n-th on read; `scale` is the weight of the n-th
   * group, 128^n (the source's shift by 7n).
   */
  function Resume(acc: nat, scale: nat, n: nat, r: Result<Read<nat>>): Result<Read<nat>>
  {
    if r.Err? then r else Ok(Read(acc + scale * r.value.value, n + r.value.next))
  }

  /** A byte with 0x80 before the last group: add its seven bits and go on. */
  lemma {:induction false} ResumeContinue(w: Width, s: seq<byte>, n: nat, eof: Error, acc: nat, scale: nat, g: nat)
    requires n < MaxGroups(w) - 1 && |s| > 0 && s[0] >= 128 && g == s[0] % 128
    ensures Resume(acc, scale, n, ReadGroups(w, s, n, eof))
         == Resume(acc + scale * g, 128 * scale, n + 1, ReadGroups(w, s[1..], n + 1, eof))
  {
    var rest := ReadGroups(w, s[1..], n + 1, eof);
    ContinueGroups(w, s, n, eof, g, rest);
    if rest.Ok? {
      ResumeRegroup(acc, scale, n, g, rest.value.value, rest.value.next);
    }
  }

  /** ReadGroups past a byte with 0x80, in terms of what the rest reads. */
  lemma {:induction false} ContinueGroups(w: Width, s: seq<byte>, n: nat, eof: Error, g: nat, rest: Result<Read<nat>>)
    requires n < MaxGroups(w) - 1 && |s| > 0 && s[0] >= 128 && g == s[0] % 128
    requires rest == ReadGroups(w, s[1..], n + 1, eof)
    ensures ReadGroups(w, s, n, eof)
         == if rest.Err? then rest else Ok(Read(g + 128 * rest.value.value, 1 + rest.value.next))
  {
  }

  lemma {:induction false} ResumeRegroup(acc: nat, scale: nat, n: nat, g: nat, x: nat, k: nat)
    ensures Resume(acc, scale, n, Ok(Read(g + 128 * x, 1 + k)))
         == Resume(acc + scale * g, 128 * scale, n + 1, Ok(Read(x, k)))
  {
    Regroup(acc, scale, g, x);
  }

  lemma {:induction false} NonNegativeProduct(x: nat, y: nat)
    ensures x * y >= 0
  {
  }

  lemma {:induction false} Regroup(acc: nat, p: nat, g: nat, x: nat)
    ensures acc + p * (g + 128 * x) == acc + p * g + (128 * p) * x
  {
    calc {
      p * (g + 128 * x);
      p * g + p * (128 * x);
      { assert p * (128 * x) == (128 * p) * x; }
      p * g + (128 * p) * x;
    }
  }

  /** A byte without 0x80 that passes the range check ends the reading. */
  lemma {:induction false} ResumeLast(w: Width, s: seq<byte>, n: nat, eof: Error, acc: nat, scale: nat)
    requires n < MaxGroups(w) && |s| > 0 && s[0] < 128
    requires !(n == MaxGroups(w) - 1 && s[0] >= FinalLimit(w))
    ensures Resume(acc, scale, n, ReadGroups(w, s, n, eof)) == Ok(Read(acc + scale * s[0], n + 1))
  {
  }

  /**
   * The loop of ReadUInt32(stream) and ReadUInt64(stream): one byte per
   * iteration and at most 5 or 10 of them; running out of bytes fails with
   * EndOfStream, a last group out of range with VarIntTooLarge.
   */
  method ReadVarintFrom(stream: BufferStream, w: Width) returns (r: Result<nat>)
    requires stream.Valid()
    modifies stream
    ensures stream.Valid()
    ensures ReadsAs(r, ReadVarint(w, stream.buffer[..], old(stream.position), EndOfStream), stream.position)
  {
    ghost var b := stream.buffer[..];
    ghost var start := stream.position;
    var val: nat := 0;
    var scale: nat := 1;
    var n: nat := 0;
    while n < MaxGroups(w)
      invariant stream.Valid() && stream.buffer[..] == b
      invariant n <= MaxGroups(w) && stream.position == start + n
      invariant ReadGroups(w, b[start..], 0, EndOfStream)
             == Resume(val, scale, n, ReadGroups(w, b[stream.position..], n, EndOfStream))
    {
      ghost var s := b[stream.position..];
      var c := stream.ReadByte();
      if c < 0 {
        return Err(EndOfStream);
      }
      if n == MaxGroups(w) - 1 && c >= FinalLimit(w) {
        return Err(VarIntTooLarge);
      }
      if c < 128 {
        ResumeLast(w, s, n, EndOfStream, val, scale);
        return Ok(val + scale * c);
      }
      var group: nat := c % 128;
      ResumeContinue(w, s, n, EndOfStream, val, scale, group);
      assert s[1..] == b[stream.position..];
      NonNegativeProduct(scale, group);
      val := val + scale * group;
      scale := 128 * scale;
      n := n + 1;
    }
    return Err(VarIntTooLarge);
  }

  /** ReadUInt32(stream): a 32-bit varint at the cursor. */
  method ReadUInt32(stream: BufferStream) returns (r: Result<uint32>)
    requires stream.Valid()
    modifies stream
    ensures stream.Valid()
    ensures ReadsAs(r, ReadVarint(W32, stream.buffer[..], old(stream.position), EndOfStream), stream.position)
  {
    ghost var b := stream.buffer[..];
    ghost var start := stream.position;
    var v := ReadVarintFrom(stream, W32);
    ReadVarintBound(W32, b, start, EndOfStream);
    if v.Err? {
      return Err(v.error);
    }
    return Ok(v.value);
  }

  /** ReadUInt64(stream): a 64-bit varint at the cursor. */
  method ReadUInt64(stream: BufferStream) returns (r: Result<uint64>)
    requires stream.Valid()
    modifies stream
    ensures stream.Valid()
    ensures ReadsAs(r, ReadVarint(W64, stream.buffer[..], old(stream.position), EndOfStream), stream.position)
  {
    ghost var b := stream.buffer[..];
    ghost var start := stream.position;
    var v := ReadVarintFrom(stream, W64);
    ReadVarintBound(W64, b, start, EndOfStream);
    if v.Err? {
      return Err(v.error);
    }
    return Ok(v.value);
  }

  /**
   * ReadUInt32(span, pos, out length): the same loop over a span, except
   * that running off its end leaves the loop and fails with VarIntTooLarge
   * rather than EndOfStream, and a negative `pos` faults on the first index.
   * `length` counts the bytes taken.
   */
  method ReadUInt32Span(span: seq<byte>, pos: int) returns (r: Result<uint32>, length: int)
    ensures pos < 0 ==> r == Err(IndexOutOfRange)
    ensures pos > |span| ==> r == Err(VarIntTooLarge)
    ensures 0 <= pos <= |span| ==> ReadsAs(r, ReadVarint(W32, span, pos, VarIntTooLarge), pos + length)
  {
    var val: nat := 0;
    var scale: nat := 1;
    var p := pos;
    length := 0;
    var n: nat := 0;
    while n < 5
      invariant n <= 5 && p == pos + n && length == n
      invariant n > 0 ==> 0 <= pos <= |span| && p <= |span|
      invariant 0 <= pos <= |span| ==>
        ReadGroups(W32, span[pos..], 0, VarIntTooLarge)
        == Resume(val, scale, n, ReadGroups(W32, span[p..], n, VarIntTooLarge))
    {
      length := length + 1;
      if p >= |span| {
        break;
      }
      if p < 0 {
        return Err(IndexOutOfRange), length;
      }
      ghost var s := span[p..];
      var c := span[p];
      p := p + 1;
      if n == 4 && c >= 16 {
        return Err(VarIntTooLarge), length;
      }
      if c < 128 {
        ResumeLast(W32, s, n, VarIntTooLarge, val, scale);
        ReadVarintBound(W32, span, pos, VarIntTooLarge);
        return Ok(val + scale * c), length;
      }
      var group: nat := c % 128;
      ResumeContinue(W32, s, n, VarIntTooLarge, val, scale, group);
      assert s[1..] == span[p..];
      NonNegativeProduct(scale, group);
      val := val + scale * group;
      scale := 128 * scale;
      n := n + 1;
    }
    return Err(VarIntTooLarge), length;
  }

  /** The byte the writers emit for `v` at index `k` of its encoding `e`, and what follows it. */
  lemma {:induction false} VarintStep(e: seq<byte>, k: nat, v: nat)
    requires k < |e| && e[k..] == Varint(v)
    ensures e[k] == if v < 128 then v else v % 128 + 128
    ensures v < 128 ==> |e| == k + 1
    ensures v >= 128 ==> e[k + 1..] == Varint(v / 128)
  {
    assert e[k..][0] == e[k];
    if v >= 128 {
      assert e[k + 1..] == e[k..][1..];
    }
  }

  function Min(x: int, y: int): int
  {
    if x <= y then x else y
  }

  /**
   * WriteUInt32(val, span, pos): the groups of `val` from `pos` on, as many
   * as fit before the end of the span; the count written is returned. A
   * negative `pos` faults on the first store.
   */
  method WriteUInt32Span(val: uint32, span: array<byte>, pos: int) returns (r: Result<int>)
    modifies span
    ensures pos < 0 ==> r == Err(IndexOutOfRange) && span[..] == old(span[..])
    ensures pos >= span.Length ==> r == Ok(0) && span[..] == old(span[..])
    ensures 0 <= pos < span.Length ==>
      var k := Min(|Varint(val)|, span.Length - pos);
      r == Ok(k) && span[..] == Splice(old(span[..]), pos, Varint(val)[..k])
  {
    ghost var e := Varint(val);
    ghost var s0 := span[..];
    var length := 0;
    var v: nat := val;
    var p := pos;
    while p < span.Length
      invariant p == pos + length && 0 <= length < |e|
      invariant length > 0 ==> 0 <= pos < span.Length
      invariant e[length..] == Varint(v)
      invariant 0 <= pos <= span.Length ==> p <= span.Length
      invariant 0 <= pos <= span.Length ==> span[..] == Splice(s0, pos, e[..length])
      invariant pos < 0 || pos > span.Length ==> span[..] == s0
    {
      VarintStep(e, length, v);
      length := length + 1;
      var b := v % 128;
      var rest := v / 128;
      if p < 0 {
        return Err(IndexOutOfRange);
      }
      SpliceNext(s0, pos, e, p - pos);
      if rest == 0 {
        span[p] := b;
        p := p + 1;
        break;
      } else {
        span[p] := b + 128;
        p := p + 1;
        v := rest;
      }
    }
    assert 0 <= pos < span.Length ==> length == Min(|e|, span.Length - pos);
    return Ok(length);
  }

  /**
   * The loop of WriteUInt32(stream, val) and WriteUInt64(stream, val): the
   * low seven bits, with 0x80 while bits remain above them, through
   * WriteByte, until nothing remains; a full buffer stops it.
   */
  method WriteVarintTo(stream: BufferStream, val: nat) returns (r: Outcome)
    requires stream.Valid()
    modifies stream, stream.buffer
    ensures stream.Valid()
    ensures Written(r, stream.buffer[..], stream.position) == PutBytes(old(stream.buffer[..]), old(stream.position), Varint(val))
  {
    ghost var b0 := stream.buffer[..];
    ghost var start := stream.position;
    ghost var e := Varint(val);
    ghost var k := 0;
    var v: nat := val;
    while true
      invariant stream.Valid() && stream.position == start + k && 0 <= k < |e|
      invariant e[k..] == Varint(v)
      invariant stream.buffer[..] == Splice(b0, start, e[..k])
      decreases v
    {
      VarintStep(e, k, v);
      var b := v % 128;
      v := v / 128;
      if stream.position < stream.buffer.Length {
        SpliceNext(b0, start, e, k);
      }
      if v == 0 {
        r := stream.WriteByte(b);
        if r.Pass? {
          assert e[..k + 1] == e;
          assert stream.buffer[..] == Splice(b0, start, e) && stream.position == start + |e|;
          PutAll(b0, start, e);
        } else {
          assert stream.position == |b0|;
          PutFull(b0, start, e, k);
        }
        return;
      }
      r := stream.WriteByte(b + 128);
      if r.Fail? {
        assert stream.position == |b0|;
        PutFull(b0, start, e, k);
        return;
      }
      k := k + 1;
    }
  }

  /** Bytes that fit are all written. */
  lemma {:induction false} PutAll(b: seq<byte>, pos: nat, e: seq<byte>)
    requires pos + |e| <= |b|
    ensures PutBytes(b, pos, e) == Written(Pass, Splice(b, pos, e), pos + |e|)
  {
  }

  /** Bytes that do not fit stop at the end of the buffer, with the first `k` written. */
  lemma {:induction false} PutFull(b: seq<byte>, pos: nat, e: seq<byte>, k: nat)
    requires pos + k == |b| && k < |e|
    ensures PutBytes(b, pos, e) == Written(Fail(OutOfBuffer), Splice(b, pos, e[..k]), |b|)
  {
  }

  /** WriteUInt32(stream, val). */
  method WriteUInt32(stream: BufferStream, val: uint32) returns (r: Outcome)
    requires stream.Valid()
    modifies stream, stream.buffer
    ensures stream.Valid()
    ensures Written(r, stream.buffer[..], stream.position) == PutBytes(old(stream.buffer[..]), old(stream.position), Varint(val))
  {
    r := WriteVarintTo(stream, val);
  }

  /** WriteUInt64(stream, val). */
  method WriteUInt64(stream: BufferStream, val: uint64) returns (r: Outcome)
    requires stream.Valid()
    modifies stream, stream.buffer
    ensures stream.Valid()
    ensures Written(r, stream.buffer[..], stream.position) == PutBytes(old(stream.buffer[..]), old(stream.position), Varint(val))
  {
    r := WriteVarintTo(stream, val);
  }

  /** ReadZInt32(stream): a 32-bit varint, un-ZigZagged. */
  method ReadZInt32(stream: BufferStream) returns (r: Result<int32>)
    requires stream.Valid()
    modifies stream
    ensures stream.Valid()
    ensures ReadsAs(r, ReadZigZag32(stream.buffer[..], old(stream.position)), stream.position)
  {
    var u :- ReadUInt32(stream);
    return Ok(UnZigZag32(u));
  }

  /** WriteZInt32(stream, val): the ZigZag code as a 32-bit varint. */
  method WriteZInt32(stream: BufferStream, val: int32) returns (r: Outcome)
    requires stream.Valid()
    modifies stream, stream.buffer
    ensures stream.Valid()
    ensures Written(r, stream.buffer[..], stream.position) == PutBytes(old(stream.buffer[..]), old(stream.position), Varint(ZigZag32(val)))
  {
    r := WriteUInt32(stream, ZigZag32(val));
  }

  /** ReadZInt64(stream): a 64-bit varint, un-ZigZagged. */
  method ReadZInt64(stream: BufferStream) returns (r: Result<int64>)
    requires stream.Valid()
    modifies stream
    ensures stream.Valid()
    ensures ReadsAs(r, ReadZigZag64(stream.buffer[..], old(stream.position)), stream.position)
  {
    var u :- ReadUInt64(stream);
    return Ok(UnZigZag64(u));
  }

  /** WriteZInt64(stream, val): the ZigZag code as a 64-bit varint. */
  method WriteZInt64(stream: BufferStream, val: int64) returns (r: Outcome)
    requires stream.Valid()
    modifies stream, stream.buffer
    ensures stream.Valid()
    ensures Written(r, stream.buffer[..], stream.position) == PutBytes(old(stream.buffer[..]), old(stream.position), Varint(ZigZag64(val)))
  {
    r := WriteUInt64(stream, ZigZag64(val));
  }

  /** ReadBool(stream): one byte that must be 0 or 1. */
  method ReadBool(stream: BufferStream) returns (r: Result<bool>)
    requires stream.Valid()
    modifies stream
    ensures stream.Valid()
    ensures ReadsAs(r, WireFormat.ReadBool(stream.buffer[..], old(stream.position)), stream.position)
  {
    var b := stream.ReadByte();
    if b < 0 {
      return Err(EndOfStream);
    }
    if b == 1 {
      return Ok(true);
    }
    if b == 0 {
      return Ok(false);
    }
    return Err(InvalidBoolean);
  }

  /** WriteBool(stream, val): the single byte 1 or 0. */
  method WriteBool(stream: BufferStream, val: bool) returns (r: Outcome)
    requires stream.Valid()
    modifies stream, stream.buffer
    ensures stream.Valid()
    ensures Written(r, stream.buffer[..], stream.position) == PutBytes(old(stream.buffer[..]), old(stream.position), [BoolByte(val)])
  {
    r := stream.WriteByte(BoolByte(val));
  }

  /** ReadSkipVarInt: bytes up to and including the first one without 0x80. */
  method ReadSkipVarInt(stream: BufferStream) returns (r: Outcome)
    requires stream.Valid()
    modifies stream
    ensures stream.Valid()
    ensures SkipsAs(r, SkipVarint(stream.buffer[..], old(stream.position)), stream.position)
  {
    ghost var b := stream.buffer[..];
    while true
      invariant stream.Valid() && stream.buffer[..] == b
      invariant SkipVarint(b, old(stream.position)) == SkipVarint(b, stream.position)
      decreases stream.buffer.Length - stream.position
    {
      var c := stream.ReadByte();
      if c < 0 {
        return Fail(EndOfStream);
      }
      if c < 128 {
        return Pass;
      }
    }
  }
}
