/**
 * The fixed-width, string and byte-array readers and writers of the
 * runtime (CodeGenerator/ProtocolParser/ProtocolParser.cs) over the shared
 * BufferStream.
 *
 * Readers are proved to do what the reading functions of WireFormat say.
 * Writers are proved to leave the buffer and cursor the functions below
 * describe, and those are proved to produce exactly the framing the
 * readers take back.
 *
 * Strings travel as their UTF-8 bytes: the encoder and decoder of
 * System.Text are not modelled, so WriteString takes the bytes
 * `Encoding.UTF8.GetBytes` would produce and ReadString returns the bytes
 * it would decode.
 */
module Parser {
  import opened Common
  import opened Buffers
  import opened WireFormat
  import opened VarInt

  /** The per-thread scratch buffer WriteString encodes into: 128 KiB. */
  const STATIC_BUFFER_SIZE: int := 128 * 1024

  /**
   * An `ArraySegment<byte>`: a null array, or `count` bytes of `data` from
   * `offset`.
   */
  datatype Segment = Segment(data: array?<byte>, offset: int, count: int)
  {
    /** What the ArraySegment constructor guarantees of every segment. */
    predicate Valid()
    {
      data != null ==> 0 <= offset && 0 <= count && offset + count <= data.Length <= MAX_INT32
    }
  }

  // ---------------------------------------------------------------------
  // What the writers do to the buffer

  /**
   * WriteBytes: the length as a varint through WriteByte, then a window of
   * that many bytes, into which the payload is copied.
   */
  function PutLengthPrefixed(b: seq<byte>, pos: nat, payload: seq<byte>): (w: Written)
    requires pos <= |b| <= MAX_INT32
    ensures |w.buffer| == |b|
    ensures w.outcome.Pass? <==> pos + |LengthPrefixed(payload)| < |b|
    ensures w.outcome.Pass? ==>
              w.position == pos + |LengthPrefixed(payload)| && w.buffer == Splice(b, pos, LengthPrefixed(payload))
  {
    var p := PutBytes(b, pos, Varint(|payload|));
    if p.outcome.Fail? then p
    else
      var w := PutWindow(p.buffer, p.position, payload);
      if w.outcome.Fail? then w
      else
        SpliceTwice(b, pos, Varint(|payload|), payload);
        w
  }

  /**
   * WriteString on the UTF-8 bytes of the string: refused when they do not
   * fit the scratch buffer; otherwise the length, and, only when there are
   * bytes, a window they are copied into.
   */
  function PutString(b: seq<byte>, pos: nat, utf8: seq<byte>): (w: Written)
    requires pos <= |b| <= MAX_INT32
    ensures |w.buffer| == |b|
    ensures |utf8| > STATIC_BUFFER_SIZE ==> w == Written(Fail(StringTooLong), b, pos)
    ensures w.outcome.Pass? <==>
              |utf8| <= STATIC_BUFFER_SIZE &&
              if |utf8| == 0 then pos < |b| else pos + |LengthPrefixed(utf8)| < |b|
    ensures w.outcome.Pass? ==>
              w.position == pos + |LengthPrefixed(utf8)| && w.buffer == Splice(b, pos, LengthPrefixed(utf8))
  {
    if |utf8| > STATIC_BUFFER_SIZE then Written(Fail(StringTooLong), b, pos)
    else if |utf8| == 0 then
      assert LengthPrefixed(utf8) == Varint(0);
      PutBytes(b, pos, Varint(0))
    else PutLengthPrefixed(b, pos, utf8)
  }

  /** The bytes of a non-null segment, from its offset. */
  function SegmentBytes(s: Segment): (r: seq<byte>)
    requires s.Valid() && s.data != null
    reads s.data
    ensures |r| == s.count
  {
    s.data[s.offset..s.offset + s.count]
  }

  // ---------------------------------------------------------------------
  // Write, then read back

  /** Bytes written by WriteBytes read back whole through ReadBytes, ReadPooledBytes and SkipBytes. */
  lemma {:induction false} WriteBytesRoundTrip(b: seq<byte>, pos: nat, payload: seq<byte>)
    requires pos <= |b| <= MAX_INT32
    requires PutLengthPrefixed(b, pos, payload).outcome.Pass?
    ensures var w := PutLengthPrefixed(b, pos, payload);
            WireFormat.ReadBytes(w.buffer, pos) == Ok(Read(payload, w.position)) &&
            WireFormat.ReadPooledBytes(w.buffer, pos) == Ok(Read(payload, w.position)) &&
            WireFormat.SkipBytes(w.buffer, pos) == Ok(w.position)
  {
    var w := PutLengthPrefixed(b, pos, payload);
    LengthPrefixedRoundTrip(payload, w.buffer, pos);
    LengthPrefixedStringAndSkip(payload, w.buffer, pos);
  }

  /** A string written by WriteString reads back as the same bytes through ReadString. */
  lemma {:induction false} WriteStringRoundTrip(b: seq<byte>, pos: nat, utf8: seq<byte>)
    requires pos <= |b| <= MAX_INT32
    requires PutString(b, pos, utf8).outcome.Pass?
    ensures var w := PutString(b, pos, utf8);
            ReadStringBytes(w.buffer, pos) == Ok(Read(utf8, w.position))
  {
    var w := PutString(b, pos, utf8);
    if |utf8| == 0 {
      var e := LengthPrefixed(utf8);
      assert e == Varint(0) == [0];
      ReadVarintOfEncodingTo(W32, w.buffer, pos, EndOfStream, 0, pos + 1);
    } else {
      LengthPrefixedStringAndSkip(utf8, w.buffer, pos);
    }
  }

  /** A 32-bit value written by WriteFixedInt32 reads back through ReadFixedInt32. */
  lemma {:induction false} WriteFixedInt32RoundTrip(b: seq<byte>, pos: nat, v: int32)
    requires pos <= |b| <= MAX_INT32
    requires PutWindow(b, pos, Fixed32Bytes(v)).outcome.Pass?
    ensures var w := PutWindow(b, pos, Fixed32Bytes(v));
            ReadFixed32(w.buffer, pos) == Ok(Read(v, w.position))
  {
    Fixed32RoundTrip(v, PutWindow(b, pos, Fixed32Bytes(v)).buffer, pos);
  }

  /** A 64-bit value written by WriteFixedInt64 reads back through ReadFixedInt64. */
  lemma {:induction false} WriteFixedInt64RoundTrip(b: seq<byte>, pos: nat, v: int64)
    requires pos <= |b| <= MAX_INT32
    requires PutWindow(b, pos, Fixed64Bytes(v)).outcome.Pass?
    ensures var w := PutWindow(b, pos, Fixed64Bytes(v));
            ReadFixed64(w.buffer, pos) == Ok(Read(v, w.position))
  {
    Fixed64RoundTrip(v, PutWindow(b, pos, Fixed64Bytes(v)).buffer, pos);
  }

  // ---------------------------------------------------------------------
  // Fixed-width integers: `Data<int>()` / `Data<long>()`

  /** ReadFixedInt32: the four bytes of the `Data<int>` window, little-endian. */
  method ReadFixedInt32(stream: BufferStream) returns (r: Result<int32>)
    requires stream.Valid()
    modifies stream
    ensures stream.Valid()
    ensures ReadsAs(r, ReadFixed32(stream.buffer[..], old(stream.position)), stream.position)
  {
    var start :- stream.Data(4);
    var u := LittleEndian(stream.buffer[start..start + 4]);
    assert Pow256(4) == TWO_32;
    return Ok(AsInt32(u));
  }

  /** WriteFixedInt32: store through the `Data<int>` window. */
  method WriteFixedInt32(stream: BufferStream, i: int32) returns (r: Outcome)
    requires stream.Valid()
    modifies stream, stream.buffer
    ensures stream.Valid()
    ensures Written(r, stream.buffer[..], stream.position) == PutWindow(old(stream.buffer[..]), old(stream.position), Fixed32Bytes(i))
  {
    var start := stream.Data(4);
    if start.Err? {
      return Fail(start.error);
    }
    CopyTo(Fixed32Bytes(i), stream.buffer, start.value);
    r := Pass;
  }

  /** ReadFixedInt64: the eight bytes of the `Data<long>` window, little-endian. */
  method ReadFixedInt64(stream: BufferStream) returns (r: Result<int64>)
    requires stream.Valid()
    modifies stream
    ensures stream.Valid()
    ensures ReadsAs(r, ReadFixed64(stream.buffer[..], old(stream.position)), stream.position)
  {
    var start :- stream.Data(8);
    var u := LittleEndian(stream.buffer[start..start + 8]);
    assert Pow256(8) == TWO_64;
    return Ok(AsInt64(u));
  }

  /** WriteFixedInt64: store through the `Data<long>` window. */
  method WriteFixedInt64(stream: BufferStream, i: int64) returns (r: Outcome)
    requires stream.Valid()
    modifies stream, stream.buffer
    ensures stream.Valid()
    ensures Written(r, stream.buffer[..], stream.position) == PutWindow(old(stream.buffer[..]), old(stream.position), Fixed64Bytes(i))
  {
    var start := stream.Data(8);
    if start.Err? {
      return Fail(start.error);
    }
    CopyTo(Fixed64Bytes(i), stream.buffer, start.value);
    r := Pass;
  }

  // ---------------------------------------------------------------------
  // Length-delimited strings and byte arrays

  /** ReadString: the `(int)` of the length; "" when it is zero or below, else that many bytes. */
  method ReadString(stream: BufferStream) returns (r: Result<seq<byte>>)
    requires stream.Valid()
    modifies stream
    ensures stream.Valid()
    ensures ReadsAs(r, ReadStringBytes(stream.buffer[..], old(stream.position)), stream.position)
  {
    ghost var b := stream.buffer[..];
    ghost var pos := stream.position;
    var n :- ReadUInt32(stream);
    var length := AsInt32(n);
    if length <= 0 {
      return Ok([]);
    }
    var start :- stream.Bytes(length);
    return Ok(stream.buffer[start..start + length]);
  }

  /** WriteString, given the UTF-8 bytes of the string. */
  method WriteString(stream: BufferStream, utf8: seq<byte>) returns (r: Outcome)
    requires stream.Valid()
    modifies stream, stream.buffer
    ensures stream.Valid()
    ensures Written(r, stream.buffer[..], stream.position) == PutString(old(stream.buffer[..]), old(stream.position), utf8)
  {
    if |utf8| > STATIC_BUFFER_SIZE {
      return Fail(StringTooLong);
    }
    ghost var b := stream.buffer[..];
    ghost var pos := stream.position;
    r := WriteUInt32(stream, |utf8|);
    if r.Fail? || |utf8| == 0 {
      return;
    }
    var start := stream.Bytes(|utf8|);
    if start.Err? {
      return Fail(start.error);
    }
    CopyTo(utf8, stream.buffer, start.value);
  }

  /** `stream.Bytes(length).CopyTo(dest)`: a window of `length` bytes copied to the front of `dest`. */
  method ReadBytesInto(stream: BufferStream, dest: array<byte>, length: int32) returns (r: Outcome)
    requires stream.Valid() && dest != stream.buffer && 0 <= length <= dest.Length
    modifies stream, dest
    ensures stream.Valid()
    ensures r.Pass? <==> Window(stream.buffer[..], old(stream.position), length).Ok?
    ensures r.Pass? ==> stream.position == old(stream.position) + length
    ensures r.Pass? ==> dest[..] == Splice(old(dest[..]), 0, stream.buffer[old(stream.position)..stream.position])
    ensures r.Fail? ==> r.error == Window(stream.buffer[..], old(stream.position), length).error
    ensures r.Fail? ==> dest[..] == old(dest[..]) && stream.position == old(stream.position)
  {
    var start := stream.Bytes(length);
    if start.Err? {
      return Fail(start.error);
    }
    CopyTo(stream.buffer[start.value..start.value + length], dest, 0);
    r := Pass;
  }

  /**
   * ReadBytes: the `(int)` of the length; `new byte[length]`, which refuses
   * a negative one; then the window copied into it.
   */
  method ReadBytes(stream: BufferStream) returns (r: Result<array<byte>>)
    requires stream.Valid()
    modifies stream
    ensures stream.Valid()
    ensures r.Ok? ==> fresh(r.value)
    ensures ReadsAs(if r.Ok? then Ok(r.value[..]) else Err(r.error),
                    WireFormat.ReadBytes(stream.buffer[..], old(stream.position)), stream.position)
  {
    ghost var b := stream.buffer[..];
    ghost var pos := stream.position;
    var n :- ReadUInt32(stream);
    var length := AsInt32(n);
    if length < 0 {
      return Err(NegativeArraySize);
    }
    var buffer := new byte[length];
    var copied := ReadBytesInto(stream, buffer, length);
    if copied.Fail? {
      return Err(copied.error);
    }
    assert buffer[..] == buffer[..][0..length];
    return Ok(buffer);
  }

  /**
   * ReadPooledBytes: as ReadBytes, into an array rented from the pool,
   * handed out as the segment of its first `length` bytes.
   */
  method ReadPooledBytes(stream: BufferStream) returns (r: Result<Segment>)
    requires stream.Valid()
    modifies stream
    ensures stream.Valid()
    ensures r.Ok? ==> r.value.data != null && fresh(r.value.data) && r.value.Valid() && r.value.offset == 0
    ensures ReadsAs(if r.Ok? && r.value.data != null then Ok(r.value.data[..r.value.count]) else if r.Ok? then Ok([]) else Err(r.error),
                    WireFormat.ReadPooledBytes(stream.buffer[..], old(stream.position)), stream.position)
  {
    var n :- ReadUInt32(stream);
    var length := AsInt32(n);
    if length < 0 {
      return Err(ArgumentOutOfRange);
    }
    var buffer := new byte[length];
    var copied := ReadBytesInto(stream, buffer, length);
    if copied.Fail? {
      return Err(copied.error);
    }
    return Ok(Segment(buffer, 0, length));
  }

  /** SkipBytes: read the length and take, unused, a window of that size. */
  method SkipBytes(stream: BufferStream) returns (r: Outcome)
    requires stream.Valid()
    modifies stream
    ensures stream.Valid()
    ensures SkipsAs(r, WireFormat.SkipBytes(stream.buffer[..], old(stream.position)), stream.position)
  {
    var n := ReadUInt32(stream);
    if n.Err? {
      return Fail(n.error);
    }
    var w := stream.Bytes(AsInt32(n.value));
    r := if w.Ok? then Pass else Fail(w.error);
  }

  /**
   * WriteBytes: the array's length as a varint, then a window of that many
   * bytes, into which the array is copied. A null array fails on its
   * length before anything is written.
   */
  method WriteBytes(stream: BufferStream, val: array?<byte>) returns (r: Outcome)
    requires stream.Valid()
    requires val != null ==> val != stream.buffer && val.Length <= MAX_INT32
    modifies stream, stream.buffer
    ensures stream.Valid()
    ensures val == null ==> r == Fail(NullReference) && unchanged(stream, stream.buffer)
    ensures val != null ==>
              Written(r, stream.buffer[..], stream.position) == PutLengthPrefixed(old(stream.buffer[..]), old(stream.position), val[..])
  {
    if val == null {
      return Fail(NullReference);
    }
    r := WriteUInt32(stream, val.Length);
    if r.Fail? {
      return;
    }
    var start := stream.Bytes(val.Length);
    if start.Err? {
      return Fail(start.error);
    }
    CopyTo(val[..], stream.buffer, start.value);
  }

  /**
   * WritePooledBytes: a segment without an array is written as the length
   * 0 alone; otherwise its count, then its bytes from its offset.
   */
  method WritePooledBytes(stream: BufferStream, segment: Segment) returns (r: Outcome)
    requires stream.Valid() && segment.Valid()
    requires segment.data != stream.buffer
    modifies stream, stream.buffer
    ensures stream.Valid()
    ensures segment.data == null ==>
              Written(r, stream.buffer[..], stream.position) == PutBytes(old(stream.buffer[..]), old(stream.position), Varint(0))
    ensures segment.data != null ==>
              Written(r, stream.buffer[..], stream.position) == PutLengthPrefixed(old(stream.buffer[..]), old(stream.position), old(SegmentBytes(segment)))
  {
    if segment.data == null {
      r := WriteUInt32(stream, 0);
      return;
    }
    ghost var payload := SegmentBytes(segment);
    r := WriteUInt32(stream, segment.count);
    if r.Fail? {
      return;
    }
    var start := stream.Bytes(segment.count);
    if start.Err? {
      return Fail(start.error);
    }
    assert segment.data[segment.offset..segment.offset + segment.count] == payload;
    CopyTo(segment.data[segment.offset..segment.offset + segment.count], stream.buffer, start.value);
  }
}
