/**
 * BufferStream: a fixed span of bytes plus a cursor
 * (CodeGenerator/ProtocolParser/BufferStream.cs).
 *
 * The C# type is a `ref struct`; every parser call in this model shares one
 * mutable cursor, so it is a class here. A `ref byte` or `Span<byte>` handed
 * out by the stream is modelled by the index of the slot or window start in
 * `buffer`, through which callers then read or write.
 */
module Buffers {
  import opened Common

  /**
   * What `Bytes(count)` does at position `pos` of the byte sequence `b`:
   * the window it hands out and the position after it, or the exception.
   * `_position + count` is a 32-bit sum: at 2^31 or above it wraps negative,
   * passes the length test, and `Slice` then rejects the window.
   */
  function Window(b: seq<byte>, pos: nat, count: int): (r: Result<Read<seq<byte>>>)
    requires pos <= |b| <= MAX_INT32
    ensures r.Ok? <==> 0 <= count && pos + count < |b|
    ensures r.Ok? ==> r.value.next == pos + count && r.value.value == b[pos..pos + count]
    ensures count < 0 ==> r == Err(ArgumentOutOfRange)
    ensures 0 <= count && pos + count >= |b| ==> r.Err? && r.error in {OutOfBuffer, ArgumentOutOfRange}
  {
    if count < 0 then Err(ArgumentOutOfRange)
    else if pos + count >= TWO_31 then Err(ArgumentOutOfRange)
    else if pos + count >= |b| then Err(OutOfBuffer)
    else Ok(Read(b[pos..pos + count], pos + count))
  }

  /** A window ending exactly at the end of the buffer is refused, the empty one included. */
  lemma {:induction false} WindowAtEndRefused(b: seq<byte>, pos: nat, count: int)
    requires pos <= |b| <= MAX_INT32 && 0 <= count && pos + count == |b|
    ensures Window(b, pos, count) == Err(OutOfBuffer)
  {
  }

  /** The outcome of a write, with the buffer contents and the cursor it leaves. */
  datatype Written = Written(outcome: Outcome, buffer: seq<byte>, position: int)

  /**
   * What storing `e` byte by byte through `WriteByte` from `pos` does: all
   * of `e` and the cursor after it, or, when the buffer is too short, the
   * bytes that fit, the cursor at the end and OutOfBuffer.
   */
  function PutBytes(b: seq<byte>, pos: nat, e: seq<byte>): (w: Written)
    requires pos <= |b|
    ensures |w.buffer| == |b| && pos <= w.position <= |b| && w.position <= pos + |e|
    ensures w.outcome.Pass? <==> pos + |e| <= |b|
    ensures w.outcome.Pass? ==> w.position == pos + |e| && w.buffer == Splice(b, pos, e)
    ensures w.outcome.Fail? ==> w.outcome.error == OutOfBuffer && w.position == |b|
    ensures w.buffer[pos..w.position] == e[..w.position - pos]
    ensures w.buffer[..pos] == b[..pos] && w.buffer[w.position..] == b[w.position..]
  {
    if pos + |e| <= |b| then Written(Pass, Splice(b, pos, e), pos + |e|)
    else Written(Fail(OutOfBuffer), Splice(b, pos, e[..|b| - pos]), |b|)
  }

  /**
   * What taking a `Bytes(|e|)` window at `pos` and copying `e` into it
   * does: the window's refusals leave everything as it was.
   */
  function PutWindow(b: seq<byte>, pos: nat, e: seq<byte>): (w: Written)
    requires pos <= |b| <= MAX_INT32
    ensures |w.buffer| == |b|
    ensures w.outcome.Pass? <==> pos + |e| < |b|
    ensures w.outcome.Pass? ==> w.position == pos + |e| && w.buffer == Splice(b, pos, e)
    ensures w.outcome.Fail? ==> w.buffer == b && w.position == pos
  {
    match Window(b, pos, |e|)
    case Ok(win) => Written(Pass, Splice(b, pos, e), win.next)
    case Err(x) => Written(Fail(x), b, pos)
  }

  /**
   * A reader that started at some position behaved as `spec` says: the
   * value and the cursor just after it, or the same error.
   */
  ghost predicate ReadsAs<T>(r: Result<T>, spec: Result<Read<T>>, next: int)
  {
    match spec
    case Ok(rd) => r == Ok(rd.value) && next == rd.next
    case Err(e) => r == Err(e)
  }

  /** A skipper behaved as `spec` says: the cursor where it ends, or the same error. */
  ghost predicate SkipsAs(r: Outcome, spec: Result<nat>, next: int)
  {
    match spec
    case Ok(p) => r == Pass && next == p
    case Err(e) => r == Fail(e)
  }

  class BufferStream {
    const buffer: array<byte>
    var position: int

    ghost predicate Valid()
      reads this
    {
      0 <= position <= buffer.Length <= MAX_INT32
    }

    /** The span constructor: the cursor starts at 0. */
    constructor (buffer: array<byte>)
      requires buffer.Length <= MAX_INT32
      ensures Valid()
      ensures this.buffer == buffer && position == 0
    {
      this.buffer := buffer;
      position := 0;
    }

    /** The array constructor: a null array is rejected. */
    static method FromArray(buffer: array?<byte>) returns (r: Result<BufferStream>)
      requires buffer != null ==> buffer.Length <= MAX_INT32
      ensures r.Err? <==> buffer == null
      ensures r.Err? ==> r.error == ArgumentNull
      ensures r.Ok? ==> fresh(r.value) && r.value.Valid() && r.value.buffer == buffer && r.value.position == 0
    {
      if buffer == null {
        return Err(ArgumentNull);
      }
      var s := new BufferStream(buffer);
      return Ok(s);
    }

    function Position(): (p: int)
      reads this
      requires Valid()
      ensures 0 <= p <= buffer.Length
    {
      position
    }

    /** The next byte, or -1 at the end without moving. */
    method ReadByte() returns (r: int)
      requires Valid()
      modifies this
      ensures Valid()
      ensures old(position) >= buffer.Length ==> r == -1 && position == old(position)
      ensures old(position) < buffer.Length ==> r == buffer[old(position)] && position == old(position) + 1
    {
      if position >= buffer.Length {
        return -1;
      }
      r := buffer[position];
      position := position + 1;
    }

    /** A reference to the slot at the cursor, which then moves past it. */
    method Byte() returns (r: Result<nat>)
      requires Valid()
      modifies this
      ensures Valid()
      ensures r.Ok? <==> old(position) < buffer.Length
      ensures r.Ok? ==> r.value == old(position) && position == old(position) + 1
      ensures r.Err? ==> r.error == OutOfBuffer && position == old(position)
    {
      if position >= buffer.Length {
        return Err(OutOfBuffer);
      }
      r := Ok(position);
      position := position + 1;
    }

    /** A window of `count` bytes at the cursor, which then moves past it. */
    method Bytes(count: int32) returns (r: Result<nat>)
      requires Valid()
      modifies this
      ensures Valid()
      ensures r.Ok? <==> Window(buffer[..], old(position), count).Ok?
      ensures r.Ok? ==> r.value == old(position) && position == old(position) + count
      ensures r.Err? ==> r.error == Window(buffer[..], old(position), count).error && position == old(position)
    {
      if count < 0 {
        return Err(ArgumentOutOfRange);
      }
      if position + count >= TWO_31 {
        return Err(ArgumentOutOfRange);
      }
      if position + count >= buffer.Length {
        return Err(OutOfBuffer);
      }
      r := Ok(position);
      position := position + count;
    }

    /** `Data<T>`: a window the size of an unmanaged value. */
    method Data(size: int32) returns (r: Result<nat>)
      requires Valid()
      requires size == 1 || size == 2 || size == 4 || size == 8
      modifies this
      ensures Valid()
      ensures r.Ok? <==> old(position) + size < buffer.Length
      ensures r.Ok? ==> r.value == old(position) && position == old(position) + size
      ensures r.Err? ==> r.error == Window(buffer[..], old(position), size).error && position == old(position)
    {
      r := Bytes(size);
    }

    /** `WriteByte`: a store through the reference `Byte()` returns. */
    method WriteByte(b: byte) returns (r: Outcome)
      requires Valid()
      modifies this, buffer
      ensures Valid()
      ensures r.Pass? <==> old(position) < buffer.Length
      ensures r.Pass? ==> buffer[..] == old(buffer[..])[old(position) := b] && position == old(position) + 1
      ensures r.Fail? ==> r.error == OutOfBuffer && position == old(position) && buffer[..] == old(buffer[..])
    {
      var slot := Byte();
      if slot.Err? {
        return Fail(slot.error);
      }
      buffer[slot.value] := b;
      r := Pass;
    }

    /** `Skip(n)`: take the window and ignore it. */
    method Skip(count: int32) returns (r: Outcome)
      requires Valid()
      modifies this
      ensures Valid()
      ensures r.Pass? <==> Window(buffer[..], old(position), count).Ok?
      ensures r.Pass? ==> position == old(position) + count
      ensures r.Fail? ==> r.error == Window(buffer[..], old(position), count).error && position == old(position)
    {
      var w := Bytes(count);
      r := if w.Ok? then Pass else Fail(w.error);
    }
  }

  /**
   * `Span<byte>.CopyTo`: store `src` into `dest` from index `at`, one byte
   * at a time, leaving the rest of `dest` as it was.
   */
  method CopyTo(src: seq<byte>, dest: array<byte>, at: nat)
    requires at + |src| <= dest.Length
    modifies dest
    ensures dest[..] == Splice(old(dest[..]), at, src)
  {
    ghost var d0 := dest[..];
    assert Splice(d0, at, src[..0]) == d0;
    for i := 0 to |src|
      invariant dest[..] == Splice(d0, at, src[..i])
    {
      SpliceNext(d0, at, src, i);
      dest[at + i] := src[i];
    }
    assert src[..|src|] == src;
  }
}
