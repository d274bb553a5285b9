# RustProtoBuf: wire runtime, schema sizes and generated codec, in Dafny

RustProtoBuf is a protobuf code generator for C# with a small runtime. This
project models three parts of it and proves properties about them.

1. **The wire runtime** (`ProtocolParser*.cs`, `BufferStream.cs`). A
   `BufferStream` is a fixed byte buffer plus a position. It is a Dafny class
   with an `array<byte>` and a mutable `position`. The varint, ZigZag, bool,
   key, fixed-width and length-prefixed readers and writers are methods that
   advance one shared stream. Each method is proved equal to a pure function
   over `seq<byte>` in module `WireFormat` (or `Buffers.PutBytes`/`PutWindow`
   for writes). The properties of the encoding are proved about those
   functions: round trips, minimal length, overflow and end-of-stream errors.
2. **The schema model** (`Proto/*.cs`). `ProtoType` is a datatype with three
   cases: builtin, enum or message. The model computes wire types, constant
   wire sizes, maximum wire sizes (including the `typeSize < -1` guard as
   written), nullability, C# type names, option defaults and `Field.ToString`.
   Both the memoised `MaximumWireSize` of a message and its aggregate
   `WireSize` are loops on a `MessageNode` class.
3. **The codec the generator emits** (`FieldSerializer.cs`,
   `MessageSerializer.cs`). These files emit C# text. The model takes the
   semantics of that text and turns it into an interpreter over a schema
   value:
   - `Writer.Serialize`/`SerializeDelta` give the bytes the generated
     serializer writes, or the exception it raises. Two defects of the
     emitted writer (see "## Findings") are corrected in them: the Ray
     test, and the delta of repeated message elements. Each defect is also
     modelled as written, in its own member.
   - `Decoding.Deserialize`/`DecodeLengthDelimited`/`DeserializeLength`
     give what the generated `while (true)` reader produces.
   - `Lifecycle` covers `ResetToPool`, `Dispose`, `EnterPool` and
     `LeavePool` as a class with the `ShouldPool`/`_disposed` state. It also
     covers `CopyTo`/`Copy`.
   - `Copying` covers the deep copy. Two defects of the emitted copy are
     corrected in it: the pooled segment copied from index 0, and the
     struct `Copy()` that returns `default`. Each is also modelled as
     written, in its own member.
   - `RoundTrip` proves that deserializing what `Serialize` wrote gives the
     instance back, for every schema of varint-encoded scalar fields with
     distinct ids.
   - `Preservation` proves what happens to unknown fields. The reader keeps
     each record it has no field for, with its key and raw payload, and
     `Serialize` writes the kept records back after the known fields. A
     record whose key is in its shortest form is written back byte for
     byte. `SerializeDelta` never writes them.

Values are unbounded integers restricted to the C# widths (`int32`, `uint32`,
`int64`, `uint64`, `byte` subset types in `Common`). Every wrap-around of the
source is written out explicitly: `Low32`, `Low64`, `AsInt32`, `AsInt64`.
Dafny strings and C# `string` payloads are UTF-8 byte sequences.

## Model

| member | source | states |
|---|---|---|
| Buffers.BufferStream.constructor | CodeGenerator/ProtocolParser/BufferStream.cs:12-22 | a new stream is over the given buffer at position 0 |
| Buffers.BufferStream.FromArray | CodeGenerator/ProtocolParser/BufferStream.cs:18-22 | a null array fails with ArgumentNull; otherwise a fresh stream at position 0 over that array |
| Buffers.BufferStream.Position | CodeGenerator/ProtocolParser/BufferStream.cs:6-10 | the position always lies in 0..buffer length |
| Buffers.BufferStream.ReadByte | CodeGenerator/ProtocolParser/BufferStream.cs:24-33 | at or past the end: -1 and the position is unchanged; otherwise the byte at the position, and the position advances by exactly 1 |
| Buffers.BufferStream.Byte | CodeGenerator/ProtocolParser/BufferStream.cs:35-44 | fails exactly when position ≥ length; otherwise yields the slot at the old position and advances by 1 |
| Buffers.BufferStream.Bytes | CodeGenerator/ProtocolParser/BufferStream.cs:53-69 | succeeds exactly when `Window` does; on success yields the window start and advances by `count`; on failure the position is unchanged and the error is Window's |
| Buffers.Window | CodeGenerator/ProtocolParser/BufferStream.cs:53-69 | a negative count fails with ArgumentOutOfRange; otherwise it succeeds iff position + count < length (the `>=` test as written) and then yields exactly `b[pos..pos+count]` |
| Buffers.WindowAtEndRefused | CodeGenerator/ProtocolParser/BufferStream.cs:61-62 | a window ending exactly at the end of the buffer is refused with OutOfBuffer |
| Buffers.BufferStream.Data | CodeGenerator/ProtocolParser/BufferStream.cs:46-51 | consumes exactly `sizeof(T)` bytes through Bytes, with Bytes' end-of-buffer test |
| Buffers.BufferStream.WriteByte | CodeGenerator/ProtocolParser/BufferStream.cs:35-44 | a write through `Byte()`: stores the byte at the position and advances by 1, or fails with OutOfBuffer leaving buffer and position unchanged |
| Buffers.BufferStream.Skip | CodeGenerator/ProtocolParser/BufferStream.cs:53-69 | `Bytes(count)` with the window discarded: advances by `count` exactly when the window exists |
| Buffers.PutBytes | CodeGenerator/ProtocolParser/BufferStream.cs:35-44 | writing a byte sequence one `WriteByte` at a time: succeeds iff it fits, then the buffer is spliced and the position advanced by its length; on failure a prefix is written, the position stops at the end and nothing else changes |
| Buffers.PutWindow | CodeGenerator/ProtocolParser/BufferStream.cs:53-69 | writing through a `Bytes` window: succeeds iff the window is accepted, and on failure changes nothing |
| Buffers.CopyTo | CodeGenerator/ProtocolParser/ProtocolParser.cs:140-143 | a span copy into an array writes exactly the source at the offset and keeps every other cell |
| Common.AsInt32 | CodeGenerator/ProtocolParser/ProtocolParserVarInt.cs:91-95 | the two's-complement reading of a uint32: negative exactly when the top bit is set, and then 2^32 less |
| Common.AsInt64 | CodeGenerator/ProtocolParser/ProtocolParserVarInt.cs:164-168 | the same for 64 bits |
| Common.Low32 | CodeGenerator/ProtocolParser/ProtocolParserKey.cs:50-51 | a `(uint)` cast: the result is congruent to its input modulo 2^32 |
| Common.Low64 | CodeGenerator/CodeGenerator/FieldSerializer.cs:515-518 | a `(ulong)` cast: the result is congruent to its input modulo 2^64 |
| Common.Splice | CodeGenerator/ProtocolParser/ProtocolParser.cs:140-143 | the window is replaced and the parts before and after are kept |
| WireFormat.Varint | CodeGenerator/ProtocolParser/ProtocolParserVarInt.cs:137-155 | the encoding of an unsigned value is never empty |
| WireFormat.VarintContinuation | CodeGenerator/ProtocolParser/ProtocolParserVarInt.cs:137-155 | every byte but the last carries 0x80 and the last does not |
| WireFormat.VarintMinimal | CodeGenerator/ProtocolParser/ProtocolParserVarInt.cs:209-227 | the encoding is minimal: the value needs all its groups and the last group is not zero |
| WireFormat.VarintLengthBound | CodeGenerator/ProtocolParser/ProtocolParserVarInt.cs:137-155 | a uint32 takes at most 5 bytes and a uint64 at most 10 |
| WireFormat.BoundIsFinalGroup | CodeGenerator/ProtocolParser/ProtocolParserVarInt.cs:121-122 | the widths' value bounds 2^32 and 2^64 lie between 128^(n-1) and 128^n for n = 5 and 10 groups |
| WireFormat.ReadVarint | CodeGenerator/ProtocolParser/ProtocolParserVarInt.cs:109-132 | on success consumes at least one and at most 5 or 10 bytes; errors are only end of stream or VarIntTooLarge |
| WireFormat.ReadVarintStops | CodeGenerator/ProtocolParser/ProtocolParserVarInt.cs:181-204 | the reader stops at the first byte without 0x80 and at no earlier one |
| WireFormat.ReadVarintBound | CodeGenerator/ProtocolParser/ProtocolParserVarInt.cs:181-204 | whatever it accepts fits the width: below 2^32 or 2^64 |
| WireFormat.ReadVarintOfEncoding | CodeGenerator/ProtocolParser/ProtocolParserVarInt.cs:109-155 | the reader is a left inverse of the writer: it reads back every value of the width and stops right after its encoding |
| WireFormat.ReadGroupsTruncated | CodeGenerator/ProtocolParser/ProtocolParserVarInt.cs:116-118 | running out of bytes in the middle of a varint fails with the end-of-stream error |
| WireFormat.ReadGroupsOverflow | CodeGenerator/ProtocolParser/ProtocolParserVarInt.cs:121-122 | a final group with any bit of 0xF0 (32 bits) or 0xFE (64 bits) set fails with VarIntTooLarge |
| WireFormat.SkipVarint | CodeGenerator/ProtocolParser/ProtocolParserVarInt.cs:11-22 | skips exactly up to and including the first byte without 0x80, and fails with EndOfStream iff no such byte remains |
| WireFormat.SkipVarintAfterRead | CodeGenerator/ProtocolParser/ProtocolParserVarInt.cs:11-22 | skipping a varint ends where reading it ends |
| WireFormat.ZigZag32Order | CodeGenerator/ProtocolParser/ProtocolParserVarInt.cs:100-103 | `(n<<1)^(n>>31)` maps n ≥ 0 to 2n and n < 0 to -2n-1; -1 maps to 1 and 1 to 2 |
| WireFormat.ZigZag64Order | CodeGenerator/ProtocolParser/ProtocolParserVarInt.cs:173-176 | the same at 64 bits |
| WireFormat.ZigZag32RoundTrip | CodeGenerator/ProtocolParser/ProtocolParserVarInt.cs:91-103 | ZigZag and its inverse are mutually inverse bijections between int32 and uint32 |
| WireFormat.ZigZag64RoundTrip | CodeGenerator/ProtocolParser/ProtocolParserVarInt.cs:164-176 | the same between int64 and uint64 |
| WireFormat.ZigZag32VarintRoundTrip | CodeGenerator/ProtocolParser/ProtocolParserVarInt.cs:91-103 | ReadZInt32 reads back every int32 WriteZInt32 wrote |
| WireFormat.ZigZag64VarintRoundTrip | CodeGenerator/ProtocolParser/ProtocolParserVarInt.cs:164-176 | ReadZInt64 reads back every int64 WriteZInt64 wrote |
| WireFormat.ReadBool | CodeGenerator/ProtocolParser/ProtocolParserVarInt.cs:233-243 | succeeds iff the next byte is 0 or 1, consumes exactly that byte and returns the bool it encodes; any other byte fails with InvalidBoolean |
| WireFormat.KeyCode | CodeGenerator/ProtocolParser/ProtocolParserKey.cs:54-58 | `(field << 3) \| wire` as a uint32: its low three bits are the wire type, and for ids below 2^29 it is 8·id + wire |
| WireFormat.ReadKey | CodeGenerator/ProtocolParser/ProtocolParserKey.cs:40-44 | on success consumes at least one byte within the buffer |
| WireFormat.ReadKeyAfter | CodeGenerator/ProtocolParser/ProtocolParserKey.cs:46-52 | a first byte below 128 decodes to (byte >> 3, byte & 7) without touching the stream |
| WireFormat.KeyRoundTrip | CodeGenerator/ProtocolParser/ProtocolParserKey.cs:40-58 | ReadKey reads back every key WriteKey wrote, for field ids below 2^29 |
| WireFormat.KeyRoundTripAfterFirstByte | CodeGenerator/ProtocolParser/ProtocolParserKey.cs:46-58 | with the first byte already read, `(rest << 4) \| ((first >> 3) & 0x0F)` also gives back the key WriteKey wrote |
| WireFormat.KeyFieldWraps | CodeGenerator/ProtocolParser/ProtocolParserKey.cs:54-58 | field id 2^29 wraps: its key is written and read back as field 0 |
| WireFormat.SkipKey | CodeGenerator/ProtocolParser/ProtocolParserKey.cs:63-82 | Fixed32 skips exactly 4 bytes and Fixed64 exactly 8; any wire type other than the four known ones fails with UnknownWireType |
| WireFormat.LittleEndianRoundTrip | CodeGenerator/ProtocolParser/BufferStream.cs:46-51 | reading n little-endian bytes gives back any value below 256^n written that way |
| WireFormat.ReadFixed32 | CodeGenerator/ProtocolParser/ProtocolParser.cs:38-39 | succeeds iff 4 bytes fit before the end (Bytes' test), and then consumes exactly 4 |
| WireFormat.ReadFixed64 | CodeGenerator/ProtocolParser/ProtocolParser.cs:44-45 | the same with 8 bytes |
| WireFormat.Fixed32RoundTrip | CodeGenerator/ProtocolParser/ProtocolParser.cs:38-42 | ReadFixedInt32 reads back every int32 WriteFixedInt32 wrote |
| WireFormat.Fixed64RoundTrip | CodeGenerator/ProtocolParser/ProtocolParser.cs:44-48 | ReadFixedInt64 reads back every int64 WriteFixedInt64 wrote |
| WireFormat.ReadBytes | CodeGenerator/ProtocolParser/ProtocolParser.cs:105-118 | on success consumes the prefix and the payload and stays before the end of the buffer |
| WireFormat.ReadPooledBytes | CodeGenerator/ProtocolParser/ProtocolParser.cs:125-138 | the same for the pooled variant |
| WireFormat.ReadStringBytes | CodeGenerator/ProtocolParser/ProtocolParser.cs:62-83 | on success consumes at least the length prefix and stays within the buffer |
| WireFormat.SkipBytes | CodeGenerator/ProtocolParser/ProtocolParser.cs:149-153 | on success advances past the prefix and the payload, before the end of the buffer |
| WireFormat.LengthPrefixedRoundTrip | CodeGenerator/ProtocolParser/ProtocolParser.cs:105-138 | ReadBytes and ReadPooledBytes read back exactly the payload WriteBytes framed, and stop right after it |
| WireFormat.LengthPrefixedStringAndSkip | CodeGenerator/ProtocolParser/ProtocolParser.cs:62-83 | ReadString returns the framed payload, and SkipBytes passes over exactly the framed record |
| WireFormat.LengthPrefixedAtEndRefused | CodeGenerator/ProtocolParser/ProtocolParser.cs:105-118 | a length-prefixed record that ends exactly at the end of the buffer is refused, through Bytes' `>=` test |
| VarInt.ReadUInt32 | CodeGenerator/ProtocolParser/ProtocolParserVarInt.cs:109-132 | the loop returns what ReadVarint at 32 bits specifies, and leaves the stream where it ends |
| VarInt.ReadUInt64 | CodeGenerator/ProtocolParser/ProtocolParserVarInt.cs:181-204 | the same at 64 bits |
| VarInt.ReadVarintFrom | CodeGenerator/ProtocolParser/ProtocolParserVarInt.cs:109-132 | the shared accumulate-and-shift loop meets ReadVarint, errors included |
| VarInt.ReadUInt32Span | CodeGenerator/ProtocolParser/ProtocolParserVarInt.cs:28-58 | a negative start fails; otherwise the result and the reported length match ReadVarint on the span; running off the span fails |
| VarInt.WriteUInt32Span | CodeGenerator/ProtocolParser/ProtocolParserVarInt.cs:63-84 | returns how many bytes it wrote and writes exactly the first that many bytes of the encoding, never at or past the array's length |
| VarInt.WriteVarintTo | CodeGenerator/ProtocolParser/ProtocolParserVarInt.cs:137-155 | the write loop puts exactly the encoding on the stream, or a prefix of it when the buffer ends |
| VarInt.WriteUInt32 | CodeGenerator/ProtocolParser/ProtocolParserVarInt.cs:137-155 | writes the varint of the value through WriteByte |
| VarInt.WriteUInt64 | CodeGenerator/ProtocolParser/ProtocolParserVarInt.cs:209-227 | writes the varint of the value through WriteByte |
| VarInt.ReadZInt32 | CodeGenerator/ProtocolParser/ProtocolParserVarInt.cs:91-95 | reads a 32-bit varint and undoes ZigZag |
| VarInt.WriteZInt32 | CodeGenerator/ProtocolParser/ProtocolParserVarInt.cs:100-103 | writes the varint of the ZigZag of the value |
| VarInt.ReadZInt64 | CodeGenerator/ProtocolParser/ProtocolParserVarInt.cs:164-168 | reads a 64-bit varint and undoes ZigZag |
| VarInt.WriteZInt64 | CodeGenerator/ProtocolParser/ProtocolParserVarInt.cs:173-176 | writes the varint of the ZigZag of the value |
| VarInt.ReadBool | CodeGenerator/ProtocolParser/ProtocolParserVarInt.cs:233-243 | meets WireFormat.ReadBool: only 0 and 1 are accepted |
| VarInt.WriteBool | CodeGenerator/ProtocolParser/ProtocolParserVarInt.cs:245-248 | writes exactly one byte, 1 for true and 0 for false |
| VarInt.ReadSkipVarInt | CodeGenerator/ProtocolParser/ProtocolParserVarInt.cs:11-22 | meets SkipVarint: stops after the first byte without 0x80 and fails at end of stream |
| Keys.ReadKey | CodeGenerator/ProtocolParser/ProtocolParserKey.cs:40-44 | reads the 32-bit varint n and splits it into field n >> 3 and wire n & 7 |
| Keys.ReadKeyAfter | CodeGenerator/ProtocolParser/ProtocolParserKey.cs:46-52 | meets WireFormat.ReadKeyAfter, leaving the stream untouched for a short first byte |
| Keys.WriteKey | CodeGenerator/ProtocolParser/ProtocolParserKey.cs:54-58 | writes the varint of `(field << 3) \| wire` |
| Keys.SkipKey | CodeGenerator/ProtocolParser/ProtocolParserKey.cs:63-82 | meets WireFormat.SkipKey for each wire type |
| Parser.ReadFixedInt32 | CodeGenerator/ProtocolParser/ProtocolParser.cs:38-39 | consumes exactly 4 little-endian bytes through Data |
| Parser.WriteFixedInt32 | CodeGenerator/ProtocolParser/ProtocolParser.cs:41-42 | writes exactly the 4 little-endian bytes of the value through Data, or fails and changes nothing |
| Parser.ReadFixedInt64 | CodeGenerator/ProtocolParser/ProtocolParser.cs:44-45 | consumes exactly 8 little-endian bytes |
| Parser.WriteFixedInt64 | CodeGenerator/ProtocolParser/ProtocolParser.cs:47-48 | writes exactly the 8 little-endian bytes of the value |
| Parser.WriteFixedInt32RoundTrip | CodeGenerator/ProtocolParser/ProtocolParser.cs:38-42 | after a successful write, ReadFixedInt32 at the same place gives the value back |
| Parser.WriteFixedInt64RoundTrip | CodeGenerator/ProtocolParser/ProtocolParser.cs:44-48 | after a successful write, ReadFixedInt64 at the same place gives the value back |
| Parser.ReadString | CodeGenerator/ProtocolParser/ProtocolParser.cs:62-83 | a length ≤ 0 gives the empty string; otherwise exactly `length` payload bytes are consumed |
| Parser.PutString | CodeGenerator/ProtocolParser/ProtocolParser.cs:85-100 | more than the static buffer's bytes fail and change nothing; otherwise the buffer gets the length then the bytes, an empty payload only the prefix |
| Parser.WriteString | CodeGenerator/ProtocolParser/ProtocolParser.cs:85-100 | meets PutString on the stream |
| Parser.WriteStringRoundTrip | CodeGenerator/ProtocolParser/ProtocolParser.cs:62-100 | ReadString reads back the bytes WriteString wrote |
| Parser.ReadBytesInto | CodeGenerator/ProtocolParser/ProtocolParser.cs:140-143 | copies exactly `length` bytes from the stream into the start of the array, or fails and changes nothing |
| Parser.ReadBytes | CodeGenerator/ProtocolParser/ProtocolParser.cs:105-118 | returns a fresh array holding exactly the announced payload |
| Parser.ReadPooledBytes | CodeGenerator/ProtocolParser/ProtocolParser.cs:125-138 | returns a fresh segment with offset 0 and count equal to the decoded length, holding the payload |
| Parser.SkipBytes | CodeGenerator/ProtocolParser/ProtocolParser.cs:149-153 | advances past the prefix plus the decoded length |
| Parser.PutLengthPrefixed | CodeGenerator/ProtocolParser/ProtocolParser.cs:158-162 | the buffer gets the varint length then exactly the payload, when it fits |
| Parser.WriteBytes | CodeGenerator/ProtocolParser/ProtocolParser.cs:158-162 | a null array fails and changes nothing; otherwise meets PutLengthPrefixed |
| Parser.WritePooledBytes | CodeGenerator/ProtocolParser/ProtocolParser.cs:164-174 | a segment with a null array writes only the length 0; otherwise `Count`, then bytes `Offset..Offset+Count` |
| Parser.WriteBytesRoundTrip | CodeGenerator/ProtocolParser/ProtocolParser.cs:105-162 | ReadBytes and ReadPooledBytes give back what WriteBytes wrote, and SkipBytes passes over it |
| Parser.SegmentBytes | CodeGenerator/ProtocolParser/ProtocolParser.cs:164-174 | a segment covers `Count` bytes |
| Proto.CodeRoundTrip | CodeGenerator/ProtocolParser/ProtocolParserKey.cs:9-17 | the `Wire` enum and its codes 0, 1, 2, 5 are inverse; every other code is no known wire type |
| Proto.NewMessage | CodeGenerator/Proto/ProtoMessage.cs:57-61 | a null parent or package fails with ArgumentNull; otherwise no fields, the given names and the default options with OptionType "class" |
| Proto.NewEnum | CodeGenerator/Proto/ProtoType.cs:124-147 | a null parent or package fails with ArgumentNull; otherwise access "public", every flag false and OptionType null |
| Proto.NewField | CodeGenerator/Proto/Field.cs:45-85 | packed, deprecated, pooled, uid-clear, external and readonly are false; use-references is true; default and code type are null; access is "public" |
| Proto.Qualify | CodeGenerator/Proto/ProtoType.cs:46-55 | joins with "::" when the namespace is "global" and with "." otherwise |
| Proto.CsNamespace | CodeGenerator/Proto/ProtoBuiltin.cs:44-47 | fails with InvalidOperation exactly for builtins |
| Proto.FullCsType | CodeGenerator/Proto/ProtoBuiltin.cs:49-52 | a builtin's full type is its CsType; any other type's is its namespace qualified with its CsType |
| Proto.SetCsType | CodeGenerator/Proto/ProtoBuiltin.cs:38-42 | a builtin's CsType cannot be set; any other type takes the new one and keeps its name |
| Proto.NestedNamespace | CodeGenerator/Proto/ProtoType.cs:30-44 | a nested type's namespace is its parent's namespace qualified with the parent's CsType, except under "global", where "." is used and not "::" |
| Proto.SerializerType | CodeGenerator/Proto/ProtoMessage.cs:27-40 | appends "Serialized" exactly for interfaces and no-partials messages |
| Proto.FullSerializerType | CodeGenerator/Proto/ProtoMessage.cs:42-55 | the same over FullCsType |
| Proto.NewMessageIsNullable | CodeGenerator/Proto/ProtoType.cs:149-166 | a freshly built message type is nullable |
| Proto.StructNotNullable | CodeGenerator/Proto/ProtoType.cs:149-166 | a struct message is never nullable |
| Proto.BaseWireSize | CodeGenerator/Proto/ProtoType.cs:171-185 | 4 exactly for Fixed32, 8 exactly for Fixed64, -1 exactly for Varint and LengthDelimited |
| Proto.BaseMaximumWireSize | CodeGenerator/Proto/ProtoType.cs:187-199 | 4, 8 and 10 exactly for Fixed32, Fixed64 and Varint, -1 exactly for LengthDelimited |
| Proto.BuiltinSizeWithinBound | CodeGenerator/Proto/ProtoBuiltin.cs:58-102 | for the standard builtins a constant wire size equals the table's maximum wire size |
| Proto.MaximumWireSizeAtLeastMinusOne | CodeGenerator/Proto/ProtoMessage.cs:97-123 | no type's maximum wire size is below -1 |
| Proto.FieldsBoundNonNegative | CodeGenerator/Proto/ProtoMessage.cs:111 | the `typeSize < -1` guard never fires, so each field adds at least 1 |
| Proto.UnboundedFieldIsSummed | CodeGenerator/Proto/ProtoMessage.cs:105-118 | an unbounded (-1) field does not make the message unbounded: the message bound is at least the field count |
| Proto.UnboundedFieldExample | CodeGenerator/Proto/ProtoMessage.cs:105-118 | one optional field of an unbounded type gives the message the bound 1 |
| Proto.FieldWire | CodeGenerator/Proto/Field.cs:95-103 | LengthDelimited when packed, otherwise the target type's wire type |
| Proto.BinaryWriterHasConstantSize | CodeGenerator/Proto/Field.cs:52-62 | a field using the binary writer has a builtin type of constant positive size |
| Proto.FieldTextEndsWithId | CodeGenerator/Proto/Field.cs:112-115 | ToString is "Rule TypeName Name = " followed by a decimal that parses back to the id |
| Proto.DecimalRoundTrip | CodeGenerator/Proto/Field.cs:112-115 | the decimal rendering of any integer parses back to it |
| Proto.MessageNode.constructor | CodeGenerator/Proto/ProtoMessage.cs:57-61 | a new node holds the message and an empty size cache |
| Proto.MessageNode.GetWireSize | CodeGenerator/Proto/ProtoMessage.cs:82-95 | the loop computes WireSize: -1 if any field's size is negative, otherwise the sum of 2 + size |
| Proto.MessageNode.GetMaximumWireSize | CodeGenerator/Proto/ProtoMessage.cs:97-123 | the loop computes MaximumWireSize; a cached value is returned unchanged, and the result is cached |
| Proto.MessageNode.GetIsUsingBinaryWriter | CodeGenerator/Proto/ProtoMessage.cs:68-77 | true iff some field uses the binary writer |
| Values.MemberValue | CodeGenerator/CodeGenerator/MessageSerializer.cs:183-186 | finds a member's value iff a member of that name exists, and the value is that member's |
| Values.ZeroInstance | CodeGenerator/CodeGenerator/MessageSerializer.cs:50-60 | a new instance has one slot per field |
| Values.ZeroInstanceFits | CodeGenerator/CodeGenerator/MessageSerializer.cs:50-60 | a new instance's slots all hold values of their fields' types |
| Values.ZeroValueFits | CodeGenerator/CodeGenerator/MessageSerializer.cs:50-60 | a new slot holds a value of its field's type |
| Decoding.PrepareSlot | CodeGenerator/CodeGenerator/MessageSerializer.cs:172-200 | repeated slots become lists, an existing list is kept, and a field with a default option gets that default |
| Decoding.Prepare | CodeGenerator/CodeGenerator/MessageSerializer.cs:169-204 | every slot is prepared as PrepareSlot says; preserved fields are kept |
| Decoding.PrepareFits | CodeGenerator/CodeGenerator/MessageSerializer.cs:169-204 | preparing keeps every slot of its field's type |
| Decoding.LowField | CodeGenerator/CodeGenerator/MessageSerializer.cs:238-264 | the first-byte switch selects only a field with id < 16 whose `(id<<3)\|wire` equals the byte |
| Decoding.LowFieldNone | CodeGenerator/CodeGenerator/MessageSerializer.cs:238-264 | no case is taken iff no field with id < 16 has that first byte |
| Decoding.HighField | CodeGenerator/CodeGenerator/MessageSerializer.cs:266-283 | the key switch selects only a field with id ≥ 16 and that id |
| Decoding.HighFieldNone | CodeGenerator/CodeGenerator/MessageSerializer.cs:266-283 | the default case is taken iff no field with id ≥ 16 has that id |
| Decoding.ReadU32 | CodeGenerator/CodeGenerator/FieldSerializer.cs:174-175 | succeeds iff the 32-bit varint read does, consuming at least one byte |
| Decoding.ReadU64 | CodeGenerator/CodeGenerator/FieldSerializer.cs:176-177 | consumes at least one byte on success |
| Decoding.ReadBuiltin | CodeGenerator/CodeGenerator/FieldSerializer.cs:146-210 | a builtin reader consumes at least one byte and yields a value of the field's type |
| Decoding.ReadElement | CodeGenerator/CodeGenerator/FieldSerializer.cs:109-210 | a single element read consumes at least one byte and yields a value of the field's type |
| Decoding.PackedLoop | CodeGenerator/CodeGenerator/FieldSerializer.cs:26-36 | the packed loop reads while position < end and succeeds only when it stops exactly at `end` |
| Decoding.ReadRepeated | CodeGenerator/CodeGenerator/FieldSerializer.cs:17-56 | a repeated read keeps the instance well-typed and its preserved fields |
| Decoding.ReadMessageField | CodeGenerator/CodeGenerator/FieldSerializer.cs:59-97 | a message-field read keeps the instance well-typed and its preserved fields |
| Decoding.ReadSingle | CodeGenerator/CodeGenerator/FieldSerializer.cs:57-101 | a single-field read keeps the instance well-typed and its preserved fields |
| Decoding.ReadField | CodeGenerator/CodeGenerator/FieldSerializer.cs:15-104 | a field read keeps the instance well-typed and its preserved fields |
| Decoding.Preserve | CodeGenerator/CodeGenerator/MessageSerializer.cs:285-290 | the preserved list becomes the old one (a null list read as empty) with the new key and value appended at the end; no slot changes |
| Decoding.LoopStep | CodeGenerator/CodeGenerator/MessageSerializer.cs:230-296 | one turn of the reader loop consumes at least one byte and keeps the instance well-typed |
| Decoding.FieldNumberStep | CodeGenerator/CodeGenerator/MessageSerializer.cs:266-296 | the full-key path consumes at least one byte and keeps the instance well-typed |
| Decoding.DecodeLoop | CodeGenerator/CodeGenerator/MessageSerializer.cs:218-296 | a bounded loop stops exactly at its limit and an unbounded one at the end of the stream |
| Decoding.DecodeFrom | CodeGenerator/CodeGenerator/MessageSerializer.cs:169-296 | preparation then the loop: the read ends at the limit, or at the end of the stream |
| Decoding.Deserialize | CodeGenerator/CodeGenerator/MessageSerializer.cs:137-302 | plain Deserialize ends exactly at the end of the stream |
| Decoding.DecodeLengthDelimited | CodeGenerator/CodeGenerator/MessageSerializer.cs:206-233 | reads the length, then stops exactly at prefix + position |
| Decoding.DeserializeLength | CodeGenerator/CodeGenerator/MessageSerializer.cs:212-233 | stops exactly at position + length |
| Writer.VarintWriter | CodeGenerator/CodeGenerator/FieldSerializer.cs:227-243 | the emitted `WriteByte` constants are exactly the runtime's varint of the value |
| Writer.KeyWriter | CodeGenerator/CodeGenerator/FieldSerializer.cs:216-222 | the emitted key is the varint of `(id<<3)\|wire`, and for ids below 2^29 that is 8·id + wire |
| Writer.PreviousSlot | CodeGenerator/CodeGenerator/FieldSerializer.cs:380 | reading `previous.X` with a null previous fails with NullReference |
| Writer.NestedMode | CodeGenerator/CodeGenerator/FieldSerializer.cs:488-501 | a nested message is written in the same mode as its parent |
| Writer.SerializeNull | CodeGenerator/CodeGenerator/MessageSerializer.cs:513-541 | serializing a null instance fails with NullReference unless the body never touches `instance`: no fields, no trigger, and, for Serialize only, no preserved-fields test |
| Writer.Serialize | CodeGenerator/CodeGenerator/MessageSerializer.cs:513-541 | the only exceptions are NullReference, ArgumentNull, NotImplemented and StringTooLong (what it writes is stated by Preservation.PreservedWrittenBack and the Writer and RoundTrip lemmas) |
| Writer.SerializeDelta | CodeGenerator/CodeGenerator/MessageSerializer.cs:489-511 | every field against `previous`, without the preserved fields; the same four exceptions only |
| Preservation.PreservedBytesAppend | CodeGenerator/CodeGenerator/MessageSerializer.cs:531-537 | the foreach over PreservedFields writes one more record as its key (WriteKey) followed by its raw value |
| Preservation.UnknownFieldRead | CodeGenerator/CodeGenerator/MessageSerializer.cs:285-295 | on a key that selects no field (id not 0), one turn of the reader ends where SkipKey ends; with PreserveUnknown the record's key and the bytes after the key are appended to PreservedFields, and without it the instance is unchanged |
| Preservation.KeptRecordBytes | CodeGenerator/CodeGenerator/MessageSerializer.cs:286-290 | a record kept from bytes whose key is in its shortest form adds exactly those bytes to what the preserved list writes |
| Preservation.PreservedWrittenBack | CodeGenerator/CodeGenerator/MessageSerializer.cs:513-541 | Serialize writes the fields, then, with PreserveUnknown, every preserved record in order |
| Preservation.FieldsIgnorePreserved | CodeGenerator/CodeGenerator/FieldSerializer.cs:294-465 | the field writers read only the slots, so the preserved list changes nothing they write |
| Preservation.DeltaOmitsPreserved | CodeGenerator/CodeGenerator/MessageSerializer.cs:489-511 | SerializeDelta writes the same bytes whatever the preserved list holds |
| Preservation.KeptRecordWrittenBack | CodeGenerator/CodeGenerator/MessageSerializer.cs:286-290 | after a record is kept, Serialize writes the fields, the records kept before it, then its key and value |
| Preservation.LongKeyWrittenShort | CodeGenerator/CodeGenerator/MessageSerializer.cs:531-537 | a key read as [0x88, 0x00] is kept as field 1, wire type 0, and written back as [8] |
| Writer.WriteFields | CodeGenerator/CodeGenerator/MessageSerializer.cs:502-505 | the fields from `i` on, each by FieldWriter, stopping at the first exception, which is one of the four |
| Writer.WriteField | CodeGenerator/CodeGenerator/FieldSerializer.cs:294-465 | FieldWriter's dispatch on the rule; only the four exceptions |
| Writer.OptionalField | CodeGenerator/CodeGenerator/FieldSerializer.cs:357-426 | an optional field: the null, default and delta tests in the emitted order; only the four exceptions |
| Writer.RequiredField | CodeGenerator/CodeGenerator/FieldSerializer.cs:428-432 | a required field: the delta test comes before the null check; only the four exceptions |
| Writer.RequiredValue | CodeGenerator/CodeGenerator/FieldSerializer.cs:433-463 | a null string, bytes or class is ArgumentNull, and a scalar `==` to its default is left out; only the four exceptions |
| Writer.RepeatedField | CodeGenerator/CodeGenerator/FieldSerializer.cs:309-355 | a repeated field writes nothing iff its list is null, or empty and not packed |
| Writer.Items | CodeGenerator/CodeGenerator/FieldSerializer.cs:325-353 | the elements from `j` on take at least one byte each, and two when each has its key; message elements in full (corrected, see Left out) |
| Writer.Emit | CodeGenerator/CodeGenerator/FieldSerializer.cs:382-383 | the key for the type's wire type, then the value: always longer than the key |
| Writer.Element | CodeGenerator/CodeGenerator/FieldSerializer.cs:483-542 | one value by FieldWriterPrimitive: never empty; fixed-width and unknown types are NotImplemented |
| WriterProperties.ElementSize | CodeGenerator/Proto/ProtoBuiltin.cs:58-66 | a constant-size builtin element is written in exactly WireSize bytes |
| WriterProperties.ItemsSize | CodeGenerator/CodeGenerator/FieldSerializer.cs:333-341 | n constant-size elements take exactly WireSize · n bytes, the prefix the packed writer announces |
| WriterProperties.PackedPrefixIsLength | CodeGenerator/CodeGenerator/FieldSerializer.cs:311-344 | a packed field is written under a LengthDelimited key, with a prefix equal to the length of the elements that follow |
| WriterProperties.EmitNonEmpty | CodeGenerator/CodeGenerator/FieldSerializer.cs:381-382 | a field that is written always writes at least its key |
| WriterProperties.ScalarEmitOk | CodeGenerator/CodeGenerator/FieldSerializer.cs:483-542 | scalar fields are always writable |
| WriterProperties.ScalarOmittedIffDefault | CodeGenerator/CodeGenerator/FieldSerializer.cs:274-289 | a plain Serialize writes nothing for a scalar field iff its value is `==` to `OptionDefault ?? default` (Writer.OptionalCheck, Values.DefaultOf), with IEEE equality for floats |
| WriterProperties.ScalarDeltaOmittedIffUnchanged | CodeGenerator/CodeGenerator/FieldSerializer.cs:296-307 | in SerializeDelta a scalar field is skipped iff it is delta-comparable (Writer.CanDelta: the DeltaCompare option or one of the seven listed builtins) and `==` to the field of `previous` |
| WriterProperties.DeltaWithoutPreviousFails | CodeGenerator/CodeGenerator/FieldSerializer.cs:411-412 | SerializeDelta against a null previous fails on the first delta-comparable field |
| WriterProperties.EnumOmittedIffExplicitDefault | CodeGenerator/CodeGenerator/FieldSerializer.cs:394-409 | an optional enum is skipped iff it equals an explicit OptionDefault, and delta mode changes nothing |
| WriterProperties.NullOptionalOmitted | CodeGenerator/CodeGenerator/FieldSerializer.cs:359-371 | a null optional reference field writes nothing |
| WriterProperties.RequiredNullRejected | CodeGenerator/CodeGenerator/FieldSerializer.cs:428-445 | a null required string, bytes or class field fails with ArgumentNull; for string and bytes only when null |
| WriterProperties.ScalarFieldsOmittedIffDefaults | CodeGenerator/CodeGenerator/MessageSerializer.cs:513-541 | an all-scalar message serializes to nothing iff every field is `==` to its default |
| WriterProperties.DeltaFieldsOmittedIffUnchanged | CodeGenerator/CodeGenerator/MessageSerializer.cs:490-511 | an all-delta-comparable message delta-serializes to nothing iff every field is `==` to the one in `previous` |
| WriterProperties.RayOmittedIffUnset | CodeGenerator/CodeGenerator/FieldSerializer.cs:279-283 | (corrected) a Ray field is skipped iff both origin and direction are default |
| WriterProperties.RayFromOriginDroppedAsWritten | CodeGenerator/CodeGenerator/FieldSerializer.cs:280-283 | (as written) a ray from the origin pointing up is dropped by the `&&` test, though it is not the default |
| WriterProperties.DeltaElementAsWritten | CodeGenerator/CodeGenerator/FieldSerializer.cs:495-496 | (as written) a repeated message element is delta-serialized against itself, which writes at least the length byte |
| WriterProperties.DeltaElementEmptyAsWritten | CodeGenerator/CodeGenerator/FieldSerializer.cs:495-496 | (as written) an element whose fields are all delta-comparable scalars is written as the empty message iff none of its fields holds a NaN |
| WriterProperties.DeltaElementLosesValue | CodeGenerator/CodeGenerator/FieldSerializer.cs:495-496 | (as written) an element holding 5 is written as empty, where a plain Serialize writes the 5 |
| WriterProperties.FullElementEmptyIffDefaults | CodeGenerator/CodeGenerator/FieldSerializer.cs:492-499 | (corrected) an element whose fields are all scalars, without preserved fields, is written as the empty message iff every field is `==` to its default |
| WriterProperties.FloatEqualsEquivalence | CodeGenerator/CodeGenerator/FieldSerializer.cs:286-287 | float `==` (Writer.FloatEquals) is symmetric and transitive, reflexive exactly off NaN, and differs from bit equality only on the two zeros |
| WriterProperties.SameValueMeansEqual | CodeGenerator/CodeGenerator/FieldSerializer.cs:379-380 | the emitted `==` (Writer.SameValue) holds on unequal values only for 0.0 and -0.0, and fails on equal values only for a NaN and for a non-null class reference |
| WriterProperties.FloatEqualsExamples | CodeGenerator/CodeGenerator/FieldSerializer.cs:286-287 | -0.0 is `==` to 0.0 with other bits, and a NaN is not `==` to itself |
| WriterProperties.NegativeZeroOmitted | CodeGenerator/CodeGenerator/FieldSerializer.cs:286-287 | an optional float holding -0.0 and without a `default` option is left out of Serialize |
| WriterProperties.NaNAlwaysResent | CodeGenerator/CodeGenerator/FieldSerializer.cs:411-412 | a float NaN is written by every SerializeDelta, even when `previous` holds the same bits |
| WriterProperties.RequiredNullUnchangedSkipped | CodeGenerator/CodeGenerator/FieldSerializer.cs:430-445 | a required delta-comparable class field is skipped iff it is null in both `instance` and `previous`, and is ArgumentNull when only `instance` holds null |
| RoundTrip.Int32ThroughUInt64 | CodeGenerator/CodeGenerator/FieldSerializer.cs:170-171 | an int32 written as the 64-bit varint of its sign extension and read back by truncation is unchanged |
| RoundTrip.Int64ThroughUInt64 | CodeGenerator/CodeGenerator/FieldSerializer.cs:172-173 | an int64 written as `(ulong)` and read back as `(long)` is unchanged |
| RoundTrip.BuiltinRoundTrip | CodeGenerator/CodeGenerator/FieldSerializer.cs:146-210 | the reader the generator picks for a varint builtin reads back what its writer wrote |
| RoundTrip.Int32RoundTrip | CodeGenerator/CodeGenerator/FieldSerializer.cs:170-171 | int32: negative values included, read back through the 64-bit varint |
| RoundTrip.Int64RoundTrip | CodeGenerator/CodeGenerator/FieldSerializer.cs:172-173 | int64 round trip |
| RoundTrip.SInt32RoundTrip | CodeGenerator/CodeGenerator/FieldSerializer.cs:178-179 | sint32 round trip through ZigZag |
| RoundTrip.SInt64RoundTrip | CodeGenerator/CodeGenerator/FieldSerializer.cs:180-181 | sint64 round trip through ZigZag |
| RoundTrip.BoolRoundTrip | CodeGenerator/CodeGenerator/FieldSerializer.cs:191-192 | bool round trip |
| RoundTrip.UInt32RoundTrip | CodeGenerator/CodeGenerator/FieldSerializer.cs:174-175 | uint32 round trip |
| RoundTrip.UInt64RoundTrip | CodeGenerator/CodeGenerator/FieldSerializer.cs:176-177 | uint64 and the three id types round trip |
| RoundTrip.ElementRoundTrip | CodeGenerator/CodeGenerator/FieldSerializer.cs:157-158 | enums and varint builtins: the element reader reads back what the writer wrote |
| RoundTrip.WrittenField | CodeGenerator/CodeGenerator/FieldSerializer.cs:394-427 | a plain field writes nothing iff it may be left out (not an enum, or an optional enum with an explicit default) and holds its prepared value; otherwise it writes its key, then its element |
| RoundTrip.DispatchLow | CodeGenerator/CodeGenerator/MessageSerializer.cs:238-264 | with distinct ids, the first byte of a field's key selects that field |
| RoundTrip.NoLowField | CodeGenerator/CodeGenerator/MessageSerializer.cs:238-264 | a first byte ≥ 128 selects no low field |
| RoundTrip.DispatchHigh | CodeGenerator/CodeGenerator/MessageSerializer.cs:266-283 | with distinct ids, a full key with id ≥ 16 selects that field |
| RoundTrip.LongKeyFirstByte | CodeGenerator/CodeGenerator/MessageSerializer.cs:248-266 | the key of a field with id ≥ 16 never starts with a byte below 128 |
| RoundTrip.DispatchShortKey | CodeGenerator/CodeGenerator/MessageSerializer.cs:238-264 | a key of a field with id < 16 is one byte and is dispatched to that field |
| RoundTrip.DispatchLongKey | CodeGenerator/CodeGenerator/MessageSerializer.cs:266-283 | a key of a field with id ≥ 16 falls through the byte switch, reads back as the full key and selects that field |
| RoundTrip.PlainSerializeSucceeds | CodeGenerator/CodeGenerator/MessageSerializer.cs:513-541 | Serialize never fails on a message of plain fields |
| RoundTrip.KeyStep | CodeGenerator/CodeGenerator/MessageSerializer.cs:230-283 | a written key sends the reader loop to its field's reader just after the key |
| RoundTrip.FieldsRoundTrip | CodeGenerator/CodeGenerator/MessageSerializer.cs:218-296 | the reader loop over the bytes the fields from j on wrote restores those fields and ends at the end of the stream |
| RoundTrip.SerializeThenDeserialize | CodeGenerator/CodeGenerator/MessageSerializer.cs:137-302 | Deserialize of what Serialize wrote gives the instance back (PreservedFields aside), for plain schemas of varint scalar fields with distinct ids |
| RoundTrip.StringAtEndNotReadBack | CodeGenerator/ProtocolParser/BufferStream.cs:61-62 | `{optional string s = 1}` holding "a" is written as [10, 1, 97], and Deserialize of those bytes fails |
| Copying.PooledCopy | CodeGenerator/CodeGenerator/MessageSerializer.cs:638-651 | (corrected) the copy has offset 0, the same count and the same content as the source segment |
| Copying.PooledCopyAsWritten | CodeGenerator/CodeGenerator/MessageSerializer.cs:647-649 | (as written) the copy takes the first `Count` bytes of the array, not those from `Offset` |
| Copying.PooledCopyAsWrittenShifts | CodeGenerator/CodeGenerator/MessageSerializer.cs:647-649 | (as written) the segment [2, 3] at offset 1 of [1, 2, 3] is copied as [1, 2] |
| Copying.PooledCopyAgreesAtOffsetZero | CodeGenerator/CodeGenerator/MessageSerializer.cs:638-651 | the two agree on every segment at offset 0, which ReadPooledBytes always returns |
| Copying.CopyItems | CodeGenerator/CodeGenerator/MessageSerializer.cs:588-616 | the copied list has one item per source item |
| Copying.CopyFields | CodeGenerator/CodeGenerator/MessageSerializer.cs:586-690 | the copied slots are one per field |
| Copying.CopyInto | CodeGenerator/CodeGenerator/MessageSerializer.cs:584-692 | `src.CopyTo(dst)`: the fields copied, the target's own PreservedFields kept (stated through CopyIntoSame) |
| Copying.CopyField | CodeGenerator/CodeGenerator/MessageSerializer.cs:588-688 | a repeated field gets a new list or null; any other field CopyElement (stated through CopyFieldSame) |
| Copying.CopyElement | CodeGenerator/CodeGenerator/MessageSerializer.cs:619-688 | one field's copy: values assigned, pooled segments and class messages copied (corrected, see Left out; stated through CopyElementSame) |
| Copying.CopyItem | CodeGenerator/CodeGenerator/MessageSerializer.cs:594-607 | one list element: `item.Copy()`, NotImplemented for bytes, the item otherwise (corrected for structs, see Left out; stated through CopyItemSame) |
| Copying.CopyIntoSame | CodeGenerator/CodeGenerator/MessageSerializer.cs:584-692 | a successful CopyTo leaves the target well-typed, equal in value to the source field by field, with its own PreservedFields |
| Copying.CopyFieldsSame | CodeGenerator/CodeGenerator/MessageSerializer.cs:586-690 | every copied slot equals its source slot in value |
| Copying.CopyFieldSame | CodeGenerator/CodeGenerator/MessageSerializer.cs:619-688 | a copied field equals its source in value |
| Copying.CopyItemsSame | CodeGenerator/CodeGenerator/MessageSerializer.cs:592-608 | every copied list item equals its source in value |
| Copying.CopyItemSame | CodeGenerator/CodeGenerator/MessageSerializer.cs:594-597 | (corrected) a copied list element equals its source in value |
| Copying.CopyElementSame | CodeGenerator/CodeGenerator/MessageSerializer.cs:673-686 | a copied class submessage equals its source in value |
| Copying.CopyItemsFailure | CodeGenerator/CodeGenerator/MessageSerializer.cs:599-602 | copying a non-message list fails, with NotImplemented, iff it is a non-empty list of bytes |
| Copying.CopyItemsScalarOk | CodeGenerator/CodeGenerator/MessageSerializer.cs:603-607 | a list of primitives is copied item for item |
| Copying.StructCopyAsWritten | CodeGenerator/CodeGenerator/MessageSerializer.cs:695-700 | (as written) a struct's Copy() returns a well-typed instance without preserved fields |
| Copying.StructElementCopyLost | CodeGenerator/CodeGenerator/MessageSerializer.cs:594-597 | (as written) copying a list of structs holding 5 yields structs that do not hold 5, where the corrected copy does |
| Lifecycle.ResetInstance | CodeGenerator/CodeGenerator/MessageSerializer.cs:396-441 | resets every slot as ResetAndPoolField says and keeps PreservedFields |
| Lifecycle.ResetFits | CodeGenerator/CodeGenerator/MessageSerializer.cs:311-391 | a reset instance is still well-typed |
| Lifecycle.ResetIdempotent | CodeGenerator/CodeGenerator/MessageSerializer.cs:311-391 | resetting twice is resetting once |
| Lifecycle.ResetIsNew | CodeGenerator/CodeGenerator/MessageSerializer.cs:311-391 | after a reset (Lifecycle.ResetValue on each slot) a string is "" and every other slot is as in a new instance (false, 0, null, a default struct), except the game identifiers, which the model keeps (see Left out) |
| Lifecycle.ResetToPoolStep | CodeGenerator/CodeGenerator/MessageSerializer.cs:405-441 | ResetToPool changes neither ShouldPool nor the disposed flag |
| Lifecycle.DisposeOnce | CodeGenerator/CodeGenerator/MessageSerializer.cs:458-463 | Dispose fails iff ShouldPool is false; otherwise it marks the instance disposed and resets it unless already disposed; a second Dispose changes nothing |
| Lifecycle.LeavePoolRearmsDispose | CodeGenerator/CodeGenerator/MessageSerializer.cs:465-471 | after LeavePool a Dispose resets again; after EnterPool it does not |
| Lifecycle.PooledMessage.constructor | CodeGenerator/CodeGenerator/MessageSerializer.cs:454-455 | a new instance is pooled and not disposed |
| Lifecycle.PooledMessage.ResetToPool | CodeGenerator/CodeGenerator/MessageSerializer.cs:405-450 | does what ResetToPoolStep says: nothing when ShouldPool is false, otherwise the reset |
| Lifecycle.PooledMessage.Dispose | CodeGenerator/CodeGenerator/MessageSerializer.cs:458-463 | does what DisposeStep says |
| Lifecycle.PooledMessage.EnterPool | CodeGenerator/CodeGenerator/MessageSerializer.cs:465-467 | sets disposed and changes nothing else |
| Lifecycle.PooledMessage.LeavePool | CodeGenerator/CodeGenerator/MessageSerializer.cs:469-471 | clears disposed and changes nothing else |
| Lifecycle.PooledMessage.CopyTo | CodeGenerator/CodeGenerator/MessageSerializer.cs:584-692 | the target gets CopyInto's result, or the copy's error, and keeps its pool flags |
| Lifecycle.PooledMessage.Copy | CodeGenerator/CodeGenerator/MessageSerializer.cs:695-700 | a fresh pooled instance into which this one is copied |
| Lifecycle.CopySlots | CodeGenerator/CodeGenerator/MessageSerializer.cs:586-690 | the field-by-field loop computes CopyFields |
| Lifecycle.CopyList | CodeGenerator/CodeGenerator/MessageSerializer.cs:588-616 | the item-by-item loop computes CopyItems |

## Left out

- Float and double values are kept as their 4 or 8 raw bytes. `ReadSingle`/`ReadDouble` and `WriteSingle`/`WriteDouble` are not modelled as numerics. Only their `==` is: `Writer.FloatEquals` gives IEEE equality on the bits, so the default and delta tests treat -0.0 as 0.0 and never find a NaN equal.
- UTF-8 encoding and decoding of strings is foreign library code. Strings are their UTF-8 bytes.
- `ProtoStreamExtensions` is left out. It is `System.IO.Stream` copying and pool plumbing.
- The thread-static scratch buffer, `ArrayPool` and `Facepunch.Pool` are left out. A rent is a fresh allocation and a free is a no-op. `Pool.Get`/`FreeList` clear the list and null the reference.
- `Unsafe` reinterpretation and `Profiler` calls are left out. `Data<T>` is little-endian bytes.
- `OptionCodeType` (DateTime/TimeSpan through `.Ticks`) and `OptionTriggers` (`BeforeSerialize`) are not modelled. `SerializeNull` fails for a triggers message because `BeforeSerialize` is called on null.
- Fixed32/fixed64/sfixed32/sfixed64 fields fail. The generated writer calls `WriteUnimplemented`, which becomes NotImplemented. The generated reader uses an undeclared `BinaryReader`, which becomes NotSupported.
- The C# text the generators emit (identifiers, comments, `CodeWriter` layout) is not modelled. Only its behaviour is.
- `UidInspectionCode.cs` is not part of this model.
- `ReadValueBytes` is not in these files. A preserved unknown value is taken to be the raw bytes that `SkipKey` passes over.
- Preservation.KeptRecordBytes: an unknown record comes back byte for byte only when its key was read in its shortest form. A longer form that the reader accepts is written back by `WriteKey` in the shortest form (Preservation.LongKeyWrittenShort).
- `Stream` vs `BufferStream`: the generated code writes to a growable `Stream`. The writer is therefore given as a function to `seq<byte>`.
- `BufferStream.Skip` and `WriteByte` are not in BufferStream.cs. They are modelled as `Bytes(count)` and as a write through `Byte()`.
- Buffers.Window: the `>=` end test of `Bytes` is modelled as written. A read that ends exactly at the end of the buffer fails. This holds for fixed and length-prefixed values too.
- Writer.SameValue: struct values are compared structurally, as the model's values. Class values are compared as references: two nulls are equal, and two non-null class values are taken to be distinct objects, so a non-null class field is never skipped as unchanged. Object identity is not modelled.
- Decoding.FieldNumberStep: a known id ≥ 16 whose wire type differs from the schema's leaves the switch with `break`. The value is not skipped, so the loop goes on reading at the value's bytes. This follows the code, not the usual protobuf rule of skipping such a value.
- RoundTrip.SerializeThenDeserialize: it covers only schemas whose fields are non-repeated varint scalars or enums with distinct ids and no preserved unknown fields. For the other field types the round trip does not hold as the code is written. A non-empty string, bytes, float or double value that ends the buffer cannot be read back, because of the `>=` test of `Bytes` (BufferStream.cs:61). RoundTrip.StringAtEndNotReadBack shows this for the string "a". Nested and repeated fields and packed framing are written and read by the model but not covered by the round trip.
- WriterProperties.PackedPrefixIsLength: it is proved for builtin elements with their standard wire type and fewer than 2^28 items. The uint32 wrap-around of `WireSize * Count` for larger lists is not covered.
- Proto.MaximumWireSize and Proto.WireSize sum with unbounded integers. The int32 overflow of `totalSize` on very large schemas is not modelled.
- Recursive (self-referencing) message schemas cannot be written as the finite `ProtoType` values used here.
- The parser's table from builtin names to wire types is not part of this model. `StandardWire` states the table's expected pairs where a lemma needs them.
- Lifecycle.PooledMessage.CopyTo computes every field's copy before storing any of them. The generated code stores field by field, so after an exception part of the target has already been replaced. The target is also required to be a different object.
- Lifecycle.ResetInstance: class submessages are reset before being nulled. Once nulled, that reset is not observable, so the model only nulls them.
- Lifecycle.ResetInstance: the game identifier builtins (`NetworkableId`, `ItemContainerId`, `ItemId`) have no OptionType. So ResetAndPoolField sends them to its class branch, `if (X != null) { X.ResetToPool(); X = null; }` (MessageSerializer.cs:379-385). That text has no meaning for the identifier value the model holds, so the model keeps the value.
- Lifecycle.ResetIsNew: it states that the game identifiers keep their values. This is the model's choice above, not what the emitted class branch says.
- Aliasing between submessages (a class held by two parents) is not modelled. Nested messages are values.
- The static `ResetToPool(instance)` of a struct message (MessageSerializer.cs:405) takes the struct by value. It resets a copy, so the caller's struct is unchanged. No member models that call. ResetInstance gives what the copy holds afterwards.
- Writer.OptionalCheck: the Ray test is the corrected reading (`||`). So Serialize writes a Ray with only one part set, which the emitted `&&` test of FieldSerializer.cs:282 drops. The test as written is the predicate Writer.RayCheckAsWritten, and the lemma WriterProperties.RayFromOriginDroppedAsWritten exhibits the dropped ray (see Findings).
- Writer.RepeatedField: a packed repeated field of message type, whose WireSize is -1, is written as the key, then one length prefix around the length-prefixed elements. The emitted code does not produce this framing. Each message element first runs `msField.SetLength(0)` (FieldSerializer.cs:493) on the buffer the `foreach` shares (FieldSerializer.cs:320-327), which drops the earlier elements. Its BytesWriter then appends the element's length and bytes to `msField` itself (FieldSerializer.cs:268-270). BytesWriter at FieldSerializer.cs:329 also declares `length<id>` a second time, so the emitted text would not compile. Packed is meant for primitives only (FieldSerializer.cs:42), and the model does not exclude this case.
- Writer.Items: in SerializeDelta, each message element of a repeated field is serialized in full, the corrected reading. The emitted code delta-serializes each element against itself (FieldSerializer.cs:496). That is modelled separately as DeltaElementAsWritten (see Findings).
- Copying.CopyElement: a pooled byte segment is copied from its `Offset`, the corrected reading. The emitted code copies from index 0 (MessageSerializer.cs:648). That is modelled separately as PooledCopyAsWritten (see Findings). The two agree on every segment ReadPooledBytes returns.
- Copying.CopyElement: the game identifiers are copied as values. Their missing OptionType sends them to the class branch of GenerateCopy (MessageSerializer.cs:673-686), whose `Copy()`/`CopyTo` calls have no meaning for the value the model holds.
- Copying.CopyItem: a struct list element is copied in full, the corrected reading. The emitted struct `Copy()` returns `default` (MessageSerializer.cs:596, 697-699). That is modelled separately as StructCopyAsWritten (see Findings).
- Lifecycle.PooledMessage.CopyTo: it stores CopyInto's result, so it carries the corrected copies of Copying.CopyElement and Copying.CopyItem above.
- Lifecycle.PooledMessage.Copy: the same corrected copy, into a new object.
- WriterProperties.DeltaElementEmptyAsWritten: it is proved only for element types whose fields are all non-repeated delta-comparable scalars. For other element types the delta against itself still writes every field that is not delta-comparable. The model also compares class submessages as distinct objects, though here both sides are the same object.
- WriterProperties.FullElementEmptyIffDefaults: it is proved only for element types whose fields are all non-repeated scalars, without preserved fields.
- Decoding: the generated reader's `while (true)` loop over the stream is modelled by the functions LoopStep and DecodeLoop over the bytes and a position. There is no imperative reader method, so the model does not capture the stream's position being updated in place as the reader goes.
- Decoding.ReadMessageField: a null read-only class field fails with NullReference before anything is read. The emitted code passes the null into `DeserializeLengthDelimited`, which fails only when it first touches the instance. An empty submessage with nothing to prepare would get through there.

## Findings

| source | as written | input that shows it | evidently intended | confidence | as-written member | corrected member |
|---|---|---|---|---|---|---|
| CodeGenerator/CodeGenerator/FieldSerializer.cs:280-283 | a Ray field is written only if `origin != default && direction != default` | a ray from the origin (0,0,0) with direction (0,1,0) | write the ray unless both parts are default (`\|\|`) | not executed | WriterProperties.RayFromOriginDroppedAsWritten | WriterProperties.RayOmittedIffUnset |
| CodeGenerator/CodeGenerator/FieldSerializer.cs:495-496 | a repeated message element is delta-serialized against `i.Replace("instance.", "previous.")`, which is the element itself | a repeated message element holding the int 5, in SerializeDelta | write the element in full | not executed | WriterProperties.DeltaElementLosesValue | WriterProperties.FullElementEmptyIffDefaults |
| CodeGenerator/CodeGenerator/MessageSerializer.cs:647-649 | a pooled segment is copied from index 0 of its array | the segment [2, 3] at offset 1 of [1, 2, 3] | copy from `Offset` | not executed | Copying.PooledCopyAsWrittenShifts | Copying.CopyIntoSame |
| CodeGenerator/CodeGenerator/MessageSerializer.cs:594-597 | a list of structs is copied by `item.Copy()`, and a struct's `Copy()` copies into a local `default` that it then returns unchanged | a list holding one struct whose field is 5 | each element's copy equals the element | not executed | Copying.StructElementCopyLost | Copying.CopyItemSame |
