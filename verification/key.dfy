/**
 * The key (tag) reader, writer and skipper of the runtime
 * (CodeGenerator/ProtocolParser/ProtocolParserKey.cs) over the shared
 * BufferStream, each proved to do what WireFormat's key functions say.
 */
module Keys {
  import opened Common
  import opened Buffers
  import opened WireFormat
  import opened VarInt

  /** ReadKey(stream): field `n >> 3` and wire `n & 7` of a 32-bit varint. */
  method ReadKey(stream: BufferStream) returns (r: Result<Key>)
    requires stream.Valid()
    modifies stream
    ensures stream.Valid()
    ensures ReadsAs(r, WireFormat.ReadKey(stream.buffer[..], old(stream.position)), stream.position)
  {
    var n :- ReadUInt32(stream);
    return Ok(Key(n / 8, n % 8));
  }

  /**
   * ReadKey(firstByte, stream): the decoders have already taken the first
   * byte; below 128 it is the whole key, otherwise the rest of the varint
   * is read and shifted above the first byte's four field bits.
   */
  method ReadKeyAfter(firstByte: byte, stream: BufferStream) returns (r: Result<Key>)
    requires stream.Valid()
    modifies stream
    ensures stream.Valid()
    ensures ReadsAs(r, WireFormat.ReadKeyAfter(firstByte, stream.buffer[..], old(stream.position)), stream.position)
  {
    if firstByte < 128 {
      return Ok(Key(firstByte / 8, firstByte % 8));
    }
    var rest :- ReadUInt32(stream);
    Low32Times16(rest as int);
    var low := (firstByte / 8) % 16;
    var fieldId := Low32(rest as int * 16) + low;
    return Ok(Key(fieldId, firstByte % 8));
  }

  /** WriteKey(stream, key): the 32-bit varint of `(field << 3) | wire`. */
  method WriteKey(stream: BufferStream, key: Key) returns (r: Outcome)
    requires stream.Valid()
    modifies stream, stream.buffer
    ensures stream.Valid()
    ensures Written(r, stream.buffer[..], stream.position) == PutBytes(old(stream.buffer[..]), old(stream.position), KeyBytes(key))
  {
    r := WriteUInt32(stream, KeyCode(key));
  }

  /** SkipKey(stream, key): past the value the key announces. */
  method SkipKey(stream: BufferStream, key: Key) returns (r: Outcome)
    requires stream.Valid()
    modifies stream
    ensures stream.Valid()
    ensures SkipsAs(r, WireFormat.SkipKey(stream.buffer[..], old(stream.position), key), stream.position)
  {
    if key.wireType == FIXED32 {
      r := stream.Skip(4);
    } else if key.wireType == FIXED64 {
      r := stream.Skip(8);
    } else if key.wireType == LENGTH_DELIMITED {
      var n := ReadUInt32(stream);
      if n.Err? {
        return Fail(n.error);
      }
      r := stream.Skip(AsInt32(n.value));
    } else if key.wireType == VARINT {
      r := ReadSkipVarInt(stream);
    } else {
      r := Fail(UnknownWireType);
    }
  }
}
