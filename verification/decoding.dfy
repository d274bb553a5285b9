/**
 * What the deserializer the generator emits does
 * (MessageSerializer.cs's GenerateReader, FieldSerializer.cs's reader half),
 * as functions over the bytes of the stream and a position: the instance it
 * leaves and the position it stops at, or the exception it raises.
 */
module Decoding {
  import opened Common
  import opened Proto
  import opened Values
  import opened Buffers
  import WireFormat

  /**
   * Where the field loop stops: `Deserialize` runs to the end of the
   * stream; `DeserializeLengthDelimited` and `DeserializeLength` stop at a
   * limit, which they must meet exactly.
   */
  datatype Limit = ToEnd | Until(end: int)

  // ---------------------------------------------------------------------
  // Preparation (MessageSerializer.cs:169-204)

  /**
   * One field under `if (!isDelta)`: a null list becomes an empty one; a
   * field with a `default` option takes it; an optional enum without one
   * takes the enum's first member; anything else is left alone.
   */
  function PrepareSlot(f: Field, v: Value): (r: Value)
    ensures Fits(f, v) && (f.options.default.Some? && f.rule != Repeated ==> ElementFits(f, DefaultOf(f))) ==> Fits(f, r)
    ensures f.rule == Repeated ==> (r.List? && (v.List? ==> r == v))
    ensures f.rule != Repeated && f.options.default.Some? ==> r == DefaultOf(f)
  {
    if f.rule == Repeated then (if v.List? then v else List([]))
    else if f.options.default.Some? then DefaultOf(f)
    else if f.rule == Optional && f.protoType.Enum? && |f.protoType.members| > 0 then
      Int(f.protoType.members[0].value)
    else v
  }

  function Prepare(m: ProtoMessage, inst: Instance): (r: Instance)
    requires |inst.slots| == |m.fields|
    ensures |r.slots| == |m.fields| && r.preserved == inst.preserved
    ensures forall i :: 0 <= i < |m.fields| ==> r.slots[i] == PrepareSlot(m.fields[i], inst.slots[i])
  {
    inst.(slots := seq(|m.fields|, i requires 0 <= i < |m.fields| => PrepareSlot(m.fields[i], inst.slots[i])))
  }

  lemma {:induction false} PrepareFits(m: ProtoMessage, inst: Instance)
    requires SchemaFits(m) && InstanceFits(m, inst)
    ensures InstanceFits(m, Prepare(m, inst))
  {
    forall i | 0 <= i < |m.fields|
      ensures Fits(m.fields[i], Prepare(m, inst).slots[i])
    {
      assert m.fields[i] in m.fields;
    }
  }

  // ---------------------------------------------------------------------
  // Dispatch (MessageSerializer.cs:238-296)

  /** The case label of a field in the first-byte switch. */
  function LowLabel(f: Field): int
  {
    8 * f.id + Code(FieldWire(f))
  }

  /** The field whose first-byte case (ids below 16) matches `keyByte`. */
  function LowField(m: ProtoMessage, keyByte: byte, j: nat := 0): (r: Option<nat>)
    requires j <= |m.fields|
    ensures r.Some? ==> j <= r.value < |m.fields| && m.fields[r.value].id < 16 && LowLabel(m.fields[r.value]) == keyByte
    decreases |m.fields| - j
  {
    if j == |m.fields| then None
    else if m.fields[j].id < 16 && LowLabel(m.fields[j]) == keyByte then Some(j)
    else LowField(m, keyByte, j + 1)
  }

  /** The field with id 16 or more that the key's field number selects. */
  function HighField(m: ProtoMessage, id: int, j: nat := 0): (r: Option<nat>)
    requires j <= |m.fields|
    ensures r.Some? ==> j <= r.value < |m.fields| && m.fields[r.value].id >= 16 && m.fields[r.value].id == id
    decreases |m.fields| - j
  {
    if j == |m.fields| then None
    else if m.fields[j].id >= 16 && m.fields[j].id == id then Some(j)
    else HighField(m, id, j + 1)
  }

  /** The first-byte switch falls through exactly when no case from `j` on matches. */
  lemma {:induction false} LowFieldNone(m: ProtoMessage, keyByte: byte, j: nat)
    requires j <= |m.fields|
    ensures LowField(m, keyByte, j).None?
      <==> forall i :: j <= i < |m.fields| ==> !(m.fields[i].id < 16 && LowLabel(m.fields[i]) == keyByte)
    decreases |m.fields| - j
  {
    if j < |m.fields| {
      LowFieldNone(m, keyByte, j + 1);
    }
  }

  /** The field number switch falls through exactly when no field from `j` on has that id (16 or more). */
  lemma {:induction false} HighFieldNone(m: ProtoMessage, id: int, j: nat)
    requires j <= |m.fields|
    ensures HighField(m, id, j).None? <==> forall i :: j <= i < |m.fields| ==> !(m.fields[i].id >= 16 && m.fields[i].id == id)
    decreases |m.fields| - j
  {
    if j < |m.fields| {
      HighFieldNone(m, id, j + 1);
    }
  }

  // ---------------------------------------------------------------------
  // Values (FieldReaderPrimitive, FieldSerializer.cs:146-210)

  function ReadU32(b: seq<byte>, pos: nat): (r: Result<Read<uint32>>)
    requires pos <= |b|
    ensures r.Ok? ==> pos < r.value.next <= |b|
    ensures r.Ok? <==> WireFormat.ReadVarint(WireFormat.W32, b, pos, EndOfStream).Ok?
  {
    var n :- WireFormat.ReadVarint(WireFormat.W32, b, pos, EndOfStream);
    WireFormat.ReadVarintBound(WireFormat.W32, b, pos, EndOfStream);
    Ok(Read(n.value, n.next))
  }

  function ReadU64(b: seq<byte>, pos: nat): (r: Result<Read<uint64>>)
    requires pos <= |b|
    ensures r.Ok? ==> pos < r.value.next <= |b|
  {
    var n :- WireFormat.ReadVarint(WireFormat.W64, b, pos, EndOfStream);
    WireFormat.ReadVarintBound(WireFormat.W64, b, pos, EndOfStream);
    Ok(Read(n.value, n.next))
  }

  /**
   * One value of field `i`, as a new value: a message is read into a new
   * instance (`DeserializeLengthDelimited(stream)`), except a struct list
   * element, which is read into `default(T)` with the caller's `isDelta`.
   * Fixed-width integers go through a reader `br` the emitted code never
   * declares, and fail here.
   */
  function ReadElement(m: ProtoMessage, i: nat, b: seq<byte>, pos: nat, isDelta: bool): (r: Result<Read<Value>>)
    requires i < |m.fields| && pos <= |b| <= MAX_INT32 && SchemaFits(m)
    ensures r.Ok? ==> pos < r.value.next <= |b| && ElementFits(m.fields[i], r.value.value)
    decreases m, |b| - pos, 0
  {
    var f := m.fields[i];
    assert f in m.fields;
    match f.protoType
    case Enum(_, _, _, _, _, _) =>
      var u :- ReadU64(b, pos);
      Ok(Read(Int(AsInt32(Low32(u.value))), u.next))
    case Message(sub) =>
      var delta := f.rule == Repeated && IsStruct(sub) && isDelta;
      ZeroInstanceFits(sub);
      var x :- DecodeLengthDelimited(sub, b, pos, ZeroInstance(sub), delta);
      Ok(Read(Msg(Some(x.value)), x.next))
    case Builtin(_, _, _) => ReadBuiltin(f, b, pos)
  }

  /**
   * A value of a builtin type, read as the emitted code reads it. The
   * fixed-width integer types, and a builtin the generator does not know,
   * fail: for the former the emitted code calls a reader `br` it never
   * declares.
   */
  function ReadBuiltin(f: Field, b: seq<byte>, pos: nat): (r: Result<Read<Value>>)
    requires f.protoType.Builtin? && pos <= |b| <= MAX_INT32
    ensures r.Ok? ==> pos < r.value.next <= |b| && ElementFits(f, r.value.value)
  {
    match f.protoType.builtin
    case DoubleType => var w :- Window(b, pos, 8); Ok(Read(Raw(w.value), w.next))
    case FloatType => var w :- Window(b, pos, 4); Ok(Read(Raw(w.value), w.next))
    case Int32Type => var u :- ReadU64(b, pos); Ok(Read(Int(AsInt32(Low32(u.value))), u.next))
    case Int64Type => var u :- ReadU64(b, pos); Ok(Read(Int(AsInt64(u.value)), u.next))
    case UInt32Type => var u :- ReadU32(b, pos); Ok(Read(Int(u.value), u.next))
    case UInt64Type | NetworkableIdType | ItemContainerIdType | ItemIdType =>
      var u :- ReadU64(b, pos); Ok(Read(Int(u.value), u.next))
    case SInt32Type => var z :- WireFormat.ReadZigZag32(b, pos); Ok(Read(Int(z.value), z.next))
    case SInt64Type => var z :- WireFormat.ReadZigZag64(b, pos); Ok(Read(Int(z.value), z.next))
    case BoolType => var x :- WireFormat.ReadBool(b, pos); Ok(Read(Bool(x.value), x.next))
    case StringType => var s :- WireFormat.ReadStringBytes(b, pos); Ok(Read(Str(Some(s.value)), s.next))
    case BytesType =>
      if f.options.pooled then
        var s :- WireFormat.ReadPooledBytes(b, pos);
        Ok(Read(Pooled(Some(SegmentValue(s.value, 0, |s.value|))), s.next))
      else
        var s :- WireFormat.ReadBytes(b, pos); Ok(Read(Bytes(Some(s.value)), s.next))
    case _ => Err(NotSupported)
  }

  // ---------------------------------------------------------------------
  // Fields (FieldReader, FieldSerializer.cs:15-104)

  /**
   * A packed run: elements until the position reaches `end`, each added to
   * the list (a null list fails once an element has been read); a run that
   * overshoots `end` is rejected. Elements are read with no instance to
   * read into, so a message element is always a new one.
   */
  function PackedLoop(m: ProtoMessage, i: nat, b: seq<byte>, pos: nat, end: int, list: Value)
    : (r: Result<Read<Value>>)
    requires i < |m.fields| && m.fields[i].rule == Repeated && pos <= |b| <= MAX_INT32 && SchemaFits(m)
    requires Fits(m.fields[i], list)
    ensures r.Ok? ==> pos <= r.value.next <= |b| && Fits(m.fields[i], r.value.value)
    ensures r.Ok? ==> r.value.next == end || (pos >= end && r.value.next == pos)
    decreases m, |b| - pos, 1
  {
    if pos >= end then
      if pos != end then Err(PackedLengthMismatch) else Ok(Read(list, pos))
    else
      var e :- ReadElement(m, i, b, pos, false);
      if list.NullList? then Err(NullReference)
      else PackedLoop(m, i, b, e.next, end, List(list.items + [e.value]))
  }

  /** Reading field `i` into `inst`: the new instance and the position after the value. */
  function ReadField(m: ProtoMessage, i: nat, b: seq<byte>, pos: nat, inst: Instance, isDelta: bool)
    : (r: Result<Read<Instance>>)
    requires i < |m.fields| && pos <= |b| <= MAX_INT32 && SchemaFits(m) && InstanceFits(m, inst)
    ensures r.Ok? ==> pos <= r.value.next <= |b| && InstanceFits(m, r.value.value)
    ensures r.Ok? ==> r.value.value.preserved == inst.preserved
    decreases m, |b| - pos, 2
  {
    var f := m.fields[i];
    if f.rule == Repeated then ReadRepeated(m, i, b, pos, inst, isDelta)
    else if f.protoType.Message? then ReadMessageField(m, i, b, pos, inst, isDelta)
    else if f.options.readOnly then Err(InvalidOperation)
    else ReadSingle(m, i, b, pos, inst, isDelta)
  }

  /**
   * A repeated field: a packed run added to the list, or one element added
   * to it; a null list fails. An interface element type is not supported.
   */
  function ReadRepeated(m: ProtoMessage, i: nat, b: seq<byte>, pos: nat, inst: Instance, isDelta: bool)
    : (r: Result<Read<Instance>>)
    requires i < |m.fields| && m.fields[i].rule == Repeated
    requires pos <= |b| <= MAX_INT32 && SchemaFits(m) && InstanceFits(m, inst)
    ensures r.Ok? ==> pos <= r.value.next <= |b| && InstanceFits(m, r.value.value)
    ensures r.Ok? ==> r.value.value.preserved == inst.preserved
    decreases m, |b| - pos, 1
  {
    var f := m.fields[i];
    var v := inst.slots[i];
    assert Fits(f, v);
    if Options(f.protoType).optionType == Some("interface") then Err(NotSupported)
    else if f.options.packed then
      var n :- ReadU32(b, pos);
      var run :- PackedLoop(m, i, b, n.next, n.next + n.value, v);
      Ok(Read(inst.(slots := inst.slots[i := run.value]), run.next))
    else
      var e :- ReadElement(m, i, b, pos, isDelta);
      if v.NullList? then Err(NullReference)
      else Ok(Read(inst.(slots := inst.slots[i := List(v.items + [e.value])]), e.next))
  }

  /**
   * A single message field: read into the instance it holds when the field
   * is read-only, a struct or not null (a null there fails), else into a
   * new one; an interface type cannot be created.
   */
  function ReadMessageField(m: ProtoMessage, i: nat, b: seq<byte>, pos: nat, inst: Instance, isDelta: bool)
    : (r: Result<Read<Instance>>)
    requires i < |m.fields| && m.fields[i].rule != Repeated && m.fields[i].protoType.Message?
    requires pos <= |b| <= MAX_INT32 && SchemaFits(m) && InstanceFits(m, inst)
    ensures r.Ok? ==> pos <= r.value.next <= |b| && InstanceFits(m, r.value.value)
    ensures r.Ok? ==> r.value.value.preserved == inst.preserved
    decreases m, |b| - pos, 1
  {
    var f := m.fields[i];
    var t := f.protoType;
    var sub := t.msg;
    var v := inst.slots[i];
    assert Fits(f, v);
    assert f in m.fields;
    if f.options.readOnly || IsStruct(sub) || v.instance.Some? then
      if v.instance.None? then Err(NullReference)
      else
        var x :- DecodeLengthDelimited(sub, b, pos, v.instance.value, isDelta);
        Ok(Read(inst.(slots := inst.slots[i := Msg(Some(x.value))]), x.next))
    else if Options(t).optionType == Some("interface") then Err(InvalidOperation)
    else
      var e :- ReadElement(m, i, b, pos, isDelta);
      Ok(Read(inst.(slots := inst.slots[i := e.value]), e.next))
  }

  /** A single field of another type: the value read replaces the slot. */
  function ReadSingle(m: ProtoMessage, i: nat, b: seq<byte>, pos: nat, inst: Instance, isDelta: bool)
    : (r: Result<Read<Instance>>)
    requires i < |m.fields| && m.fields[i].rule != Repeated
    requires pos <= |b| <= MAX_INT32 && SchemaFits(m) && InstanceFits(m, inst)
    ensures r.Ok? ==> pos <= r.value.next <= |b| && InstanceFits(m, r.value.value)
    ensures r.Ok? ==> r.value.value.preserved == inst.preserved
    decreases m, |b| - pos, 1
  {
    var e :- ReadElement(m, i, b, pos, isDelta);
    Ok(Read(inst.(slots := inst.slots[i := e.value]), e.next))
  }

  // ---------------------------------------------------------------------
  // Messages (MessageSerializer.cs:137-302)

  /** The preserved list after `instance.PreservedFields.Add(kv)`, creating it when null. */
  function Preserve(inst: Instance, kv: KeyValue): (r: Instance)
    ensures r.slots == inst.slots
    ensures r.preserved == Some((if inst.preserved.Some? then inst.preserved.value else []) + [kv])
  {
    match inst.preserved
    case None => assert [] + [kv] == [kv]; inst.(preserved := Some([kv]))
    case Some(kvs) => inst.(preserved := Some(kvs + [kv]))
  }

  /**
   * The field loop: stop at the limit (exactly) or, for `Deserialize`, at
   * the end of the stream; otherwise dispatch on the key. A known field
   * with id 16 or more whose key carries another wire type is left as it
   * is, and the loop goes on right after the key.
   */
  function DecodeLoop(m: ProtoMessage, b: seq<byte>, pos: nat, limit: Limit, inst: Instance, isDelta: bool)
    : (r: Result<Read<Instance>>)
    requires pos <= |b| <= MAX_INT32 && SchemaFits(m) && InstanceFits(m, inst)
    ensures r.Ok? ==> pos <= r.value.next <= |b| && InstanceFits(m, r.value.value)
    ensures r.Ok? && limit.Until? ==> r.value.next == limit.end
    ensures r.Ok? && limit.ToEnd? ==> r.value.next == |b|
    decreases m, |b| - pos, 4
  {
    if limit.Until? && pos >= limit.end then
      if pos == limit.end then Ok(Read(inst, pos)) else Err(PastLimit)
    else if pos == |b| then
      if limit.ToEnd? then Ok(Read(inst, pos)) else Err(EndOfStream)
    else
      var x :- LoopStep(m, b, pos, inst, isDelta);
      DecodeLoop(m, b, x.next, limit, x.value, isDelta)
  }

  /**
   * One turn of the loop at a key: the field its first byte selects, else
   * what the full key selects.
   */
  function LoopStep(m: ProtoMessage, b: seq<byte>, pos: nat, inst: Instance, isDelta: bool)
    : (r: Result<Read<Instance>>)
    requires pos < |b| <= MAX_INT32 && SchemaFits(m) && InstanceFits(m, inst)
    ensures r.Ok? ==> pos < r.value.next <= |b| && InstanceFits(m, r.value.value)
    decreases m, |b| - pos, 3
  {
    match LowField(m, b[pos])
    case Some(i) => ReadField(m, i, b, pos + 1, inst, isDelta)
    case None => FieldNumberStep(m, b, pos, inst, isDelta)
  }

  /**
   * The turn of the loop when the first byte selects no field: the full
   * key, then the field with that id or, without one, the value skipped
   * (and kept, when unknown fields are preserved).
   */
  function FieldNumberStep(m: ProtoMessage, b: seq<byte>, pos: nat, inst: Instance, isDelta: bool)
    : (r: Result<Read<Instance>>)
    requires pos < |b| <= MAX_INT32 && SchemaFits(m) && InstanceFits(m, inst)
    ensures r.Ok? ==> pos < r.value.next <= |b| && InstanceFits(m, r.value.value)
    decreases m, |b| - pos, 2
  {
    var k :- WireFormat.ReadKeyAfter(b[pos], b, pos + 1);
    if k.value.field == 0 then Err(InvalidFieldId)
    else
      match HighField(m, k.value.field)
      case Some(i) =>
        if k.value.wireType != Code(FieldWire(m.fields[i])) then Ok(Read(inst, k.next))
        else ReadField(m, i, b, k.next, inst, isDelta)
      case None =>
        var e :- WireFormat.SkipKey(b, k.next, k.value);
        var kept := if m.preserveUnknown then Preserve(inst, KeyValue(k.value, b[k.next..e])) else inst;
        Ok(Read(kept, e))
  }

  /** The preparation, then the field loop. */
  function DecodeFrom(m: ProtoMessage, b: seq<byte>, pos: nat, limit: Limit, inst: Instance, isDelta: bool)
    : (r: Result<Read<Instance>>)
    requires pos <= |b| <= MAX_INT32 && SchemaFits(m) && InstanceFits(m, inst)
    ensures r.Ok? ==> pos <= r.value.next <= |b| && InstanceFits(m, r.value.value)
    ensures r.Ok? ==> r.value.next == (if limit.Until? then limit.end else |b|)
    decreases m, |b| - pos, 5
  {
    var ready := if isDelta then inst else Prepare(m, inst);
    PrepareFits(m, inst);
    DecodeLoop(m, b, pos, limit, ready, isDelta)
  }

  /** `Deserialize(stream, instance, isDelta)`: to the end of the stream. */
  function Deserialize(m: ProtoMessage, b: seq<byte>, pos: nat, inst: Instance, isDelta: bool)
    : (r: Result<Read<Instance>>)
    requires pos <= |b| <= MAX_INT32 && SchemaFits(m) && InstanceFits(m, inst)
    ensures r.Ok? ==> r.value.next == |b| && InstanceFits(m, r.value.value)
  {
    DecodeFrom(m, b, pos, ToEnd, inst, isDelta)
  }

  /** `DeserializeLengthDelimited`: the preparation, a 32-bit length, then that many bytes. */
  function DecodeLengthDelimited(m: ProtoMessage, b: seq<byte>, pos: nat, inst: Instance, isDelta: bool)
    : (r: Result<Read<Instance>>)
    requires pos <= |b| <= MAX_INT32 && SchemaFits(m) && InstanceFits(m, inst)
    ensures r.Ok? ==> pos < r.value.next <= |b| && InstanceFits(m, r.value.value)
    decreases m, |b| - pos, 5
  {
    var ready := if isDelta then inst else Prepare(m, inst);
    PrepareFits(m, inst);
    var n :- ReadU32(b, pos);
    DecodeLoop(m, b, n.next, Until(n.next + n.value), ready, isDelta)
  }

  /** `DeserializeLength(stream, length, ...)`: exactly `length` bytes. */
  function DeserializeLength(m: ProtoMessage, b: seq<byte>, pos: nat, length: int32, inst: Instance, isDelta: bool)
    : (r: Result<Read<Instance>>)
    requires pos <= |b| <= MAX_INT32 && SchemaFits(m) && InstanceFits(m, inst)
    ensures r.Ok? ==> r.value.next == pos + length && InstanceFits(m, r.value.value)
  {
    DecodeFrom(m, b, pos, Until(pos + length), inst, isDelta)
  }
}
