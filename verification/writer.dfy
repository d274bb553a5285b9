/**
 * What the serializer the generator emits writes for a message
 * (FieldSerializer.cs's writer half, MessageSerializer.cs's GenerateWriter):
 * the bytes `Serialize` and `SerializeDelta` put on their stream, or the
 * exception they raise. The emitted code writes to a growable stream, so
 * the bytes are given here as a sequence; the wire encodings are those of
 * WireFormat.
 *
 * Two tests are taken in their corrected reading: the Ray test
 * (`RayCheck`, where the emitted code has `RayCheckAsWritten`) and the
 * message elements of a repeated field in SerializeDelta, written in full
 * (where the emitted code writes `DeltaElementAsWritten`).
 */
module Writer {
  import opened Common
  import opened Proto
  import opened Values
  import WireFormat
  import Parser

  /** A plain `Serialize`, or `SerializeDelta` against `previous` (null is `None`). */
  datatype Mode = Full | Delta(previous: Option<Instance>)

  predicate ModeFits(m: ProtoMessage, mode: Mode)
  {
    mode.Delta? && mode.previous.Some? ==> InstanceFits(m, mode.previous.value)
  }

  // ---------------------------------------------------------------------
  // The generator's key writer (FieldSerializer.cs:216-243)

  /**
   * VarintWriter: the `WriteByte` constants it emits for a value known at
   * generation time, seven bits at a time, low group first.
   */
  method VarintWriter(value: uint32) returns (emitted: seq<byte>)
    ensures emitted == WireFormat.Varint(value)
  {
    var rest: nat := value;
    emitted := [];
    while true
      invariant emitted + WireFormat.Varint(rest) == WireFormat.Varint(value)
      decreases rest
    {
      var b := rest % 128;
      rest := rest / 128;
      if rest == 0 {
        emitted := emitted + [b];
        break;
      }
      emitted := emitted + [b + 128];
    }
  }

  /** KeyWriter: `((uint)id << 3) | (uint)wire`, emitted through VarintWriter. */
  method KeyWriter(id: int, wire: Wire) returns (emitted: seq<byte>)
    ensures emitted == WireFormat.KeyBytes(WireFormat.Key(Low32(id), Code(wire)))
    ensures 0 <= id < 0x2000_0000 ==> emitted == WireFormat.Varint(8 * id + Code(wire))
  {
    var key := WireFormat.Key(Low32(id), Code(wire));
    assert 0 <= id < 0x2000_0000 ==> key.field == id;
    emitted := VarintWriter(WireFormat.KeyCode(key));
  }

  /** The key bytes the emitted code writes for field `f` with wire type `w`. */
  function FieldKey(f: Field, w: Wire): seq<byte>
  {
    WireFormat.KeyBytes(WireFormat.Key(Low32(f.id), Code(w)))
  }

  // ---------------------------------------------------------------------
  // C#'s `==` on field values

  /**
   * The little-endian bits of a float (4 bytes) or double (8 bytes) are an
   * IEEE 754 NaN: every exponent bit set and a non-zero fraction.
   */
  predicate IsNaN(bits: seq<byte>)
  {
    if |bits| == 4 then
      bits[3] % 128 == 127 && bits[2] >= 128 && (bits[2] % 128 != 0 || bits[1] != 0 || bits[0] != 0)
    else if |bits| == 8 then
      bits[7] % 128 == 127 && bits[6] >= 0xF0
      && (bits[6] % 16 != 0 || bits[5] != 0 || bits[4] != 0 || bits[3] != 0
          || bits[2] != 0 || bits[1] != 0 || bits[0] != 0)
    else false
  }

  /** 0.0 or -0.0: every bit but the sign bit clear. */
  predicate IsZero(bits: seq<byte>)
  {
    |bits| > 0 && bits[|bits| - 1] % 128 == 0 && forall k :: 0 <= k < |bits| - 1 ==> bits[k] == 0
  }

  /** `==` on float and double: a NaN equals nothing, 0.0 equals -0.0, and otherwise the bits decide. */
  predicate FloatEquals(a: seq<byte>, b: seq<byte>)
  {
    !IsNaN(a) && !IsNaN(b) && (a == b || (IsZero(a) && IsZero(b)))
  }

  predicate IsFloat(t: ProtoType)
  {
    IsBuiltin(t, FloatType) || IsBuiltin(t, DoubleType)
  }

  /**
   * The emitted `==` on two values of type `t`: IEEE equality for float and
   * double; reference equality for a class message, where two non-null
   * objects are taken to be distinct, so only two nulls are equal; value
   * equality otherwise.
   */
  predicate SameValue(t: ProtoType, a: Value, b: Value)
  {
    if IsFloat(t) then a.Raw? && b.Raw? && FloatEquals(a.bits, b.bits)
    else if t.Message? && !IsStruct(t.msg) then IsNull(a) && IsNull(b)
    else a == b
  }

  // ---------------------------------------------------------------------
  // Field checks (FieldSerializer.cs:274-307)

  /** The exceptions the emitted serializer raises. */
  predicate WriterError(e: Error)
  {
    e == NullReference || e == ArgumentNull || e == NotImplemented || e == StringTooLong
  }

  /** `canDelta`: the type opts in, or is one of the listed builtins. */
  predicate CanDelta(t: ProtoType)
  {
    Options(t).deltaCompare
    || (t.Builtin? && (match t.builtin
                       case StringType | FloatType | Fixed32Type | Int32Type | UInt32Type | UInt64Type | DoubleType => true
                       case _ => false))
  }

  /** `canOptional`: not in SerializeDelta, and not an enum. */
  predicate CanOptional(mode: Mode, t: ProtoType)
  {
    mode.Full? && !t.Enum?
  }

  /** Some field of `inst` called `name` holds something other than its zero. */
  predicate MemberSet(m: ProtoMessage, inst: Instance, name: string)
  {
    exists j :: 0 <= j < |m.fields| && j < |inst.slots| && m.fields[j].csName == name
                && inst.slots[j] != ZeroValue(m.fields[j])
  }

  /**
   * The generated test for a Ray, as written: origin and direction must
   * both differ from their defaults.
   */
  predicate RayCheckAsWritten(t: ProtoType, v: Value)
  {
    t.Message? && v.Msg? && v.instance.Some?
    && MemberSet(t.msg, v.instance.value, "origin") && MemberSet(t.msg, v.instance.value, "direction")
  }

  /** The test `ray != default` stands for: either member differs from its default. */
  predicate RayCheck(t: ProtoType, v: Value)
  {
    t.Message? && v.Msg? && v.instance.Some?
    && (MemberSet(t.msg, v.instance.value, "origin") || MemberSet(t.msg, v.instance.value, "direction"))
  }

  /**
   * WriteOptionalFieldCheck: the value differs from `OptionDefault ??
   * default`; for a field of type Ray, the corrected member test.
   */
  predicate OptionalCheck(f: Field, v: Value)
  {
    if f.typeName == "Ray" then RayCheck(f.protoType, v) else !SameValue(f.protoType, v, DefaultOf(f))
  }

  /** `previous.X`: a null `previous` fails when it is dereferenced. */
  function PreviousSlot(m: ProtoMessage, i: nat, mode: Mode): (r: Result<Value>)
    requires i < |m.fields| && mode.Delta? && ModeFits(m, mode)
    ensures r.Err? <==> mode.previous.None?
    ensures r.Err? ==> r.error == NullReference
    ensures r.Ok? ==> Fits(m.fields[i], r.value)
  {
    match mode.previous
    case None => Err(NullReference)
    case Some(p) => Ok(p.slots[i])
  }

  /** The mode a nested message field is written in: `previous.X` in SerializeDelta. */
  function NestedMode(m: ProtoMessage, i: nat, mode: Mode): (r: Result<Mode>)
    requires i < |m.fields| && m.fields[i].rule != Repeated && m.fields[i].protoType.Message?
    requires ModeFits(m, mode)
    ensures r.Ok? ==> r.value.Delta? == mode.Delta? && ModeFits(m.fields[i].protoType.msg, r.value)
  {
    match mode
    case Full => Ok(Full)
    case Delta(prev) =>
      var p :- PreviousSlot(m, i, mode);
      assert ElementFits(m.fields[i], p);
      Ok(Delta(p.instance))
  }

  // ---------------------------------------------------------------------
  // One value (FieldWriterPrimitive, FieldSerializer.cs:483-542)

  /**
   * A message reached through a null reference: Serialize and
   * SerializeDelta dereference `instance` as soon as there is a field to
   * write or a trigger to call; Serialize (not SerializeDelta, which never
   * looks at it) also when there is a preserved list to look at.
   */
  function SerializeNull(m: ProtoMessage, delta: bool): (r: Result<seq<byte>>)
    ensures r.Ok? <==> |m.fields| == 0 && (delta || !m.preserveUnknown) && !m.options.triggers
    ensures r.Ok? ==> r.value == []
    ensures r.Err? ==> r.error == NullReference
  {
    if |m.fields| == 0 && (delta || !m.preserveUnknown) && !m.options.triggers then Ok([]) else Err(NullReference)
  }

  /**
   * The bytes of one value of field `f`, without its key; `nested` is the
   * mode a message value is serialized in.
   */
  function Element(f: Field, v: Value, nested: Mode): (r: Result<seq<byte>>)
    requires ElementFits(f, v)
    requires f.protoType.Message? ==> ModeFits(f.protoType.msg, nested)
    ensures r.Ok? ==> |r.value| >= 1
    ensures r.Err? ==> WriterError(r.error)
    decreases v, 0
  {
    match f.protoType
    case Enum(_, _, _, _, _, _) => Ok(WireFormat.Varint(Low64(v.n)))
    case Message(sub) =>
      var body :- (
        match v.instance
        case None => SerializeNull(sub, nested.Delta?)
        case Some(x) => if nested.Full? then Serialize(sub, x) else SerializeDelta(sub, x, nested.previous));
      Ok(WireFormat.LengthPrefixed(body))
    case Builtin(name, _, _) =>
      match name
      case DoubleType | FloatType => Ok(v.bits)
      case Fixed32Type | Fixed64Type | SFixed32Type | SFixed64Type => Err(NotImplemented)
      case Int32Type | Int64Type => Ok(WireFormat.Varint(Low64(v.n)))
      case UInt32Type | UInt64Type | NetworkableIdType | ItemContainerIdType | ItemIdType => Ok(WireFormat.Varint(v.n))
      case SInt32Type => Ok(WireFormat.Varint(WireFormat.ZigZag32(v.n)))
      case SInt64Type => Ok(WireFormat.Varint(WireFormat.ZigZag64(v.n)))
      case BoolType => Ok([WireFormat.BoolByte(v.b)])
      case StringType =>
        (match v.text
         case None => Err(NullReference)
         case Some(s) => if |s| > Parser.STATIC_BUFFER_SIZE then Err(StringTooLong) else Ok(WireFormat.LengthPrefixed(s)))
      case BytesType =>
        if f.options.pooled then
          (match v.segment
           case None => Ok(WireFormat.Varint(0))
           case Some(seg) => Ok(WireFormat.LengthPrefixed(SegmentContent(seg))))
        else
          (match v.content
           case None => Err(NullReference)
           case Some(a) => Ok(WireFormat.LengthPrefixed(a)))
      case OtherName(_) => Err(NotImplemented)
  }

  /** The key for the type's wire type, then the value. */
  function Emit(m: ProtoMessage, i: nat, v: Value, mode: Mode): (r: Result<seq<byte>>)
    requires i < |m.fields| && m.fields[i].rule != Repeated && Fits(m.fields[i], v) && ModeFits(m, mode)
    ensures r.Ok? ==> |r.value| > |FieldKey(m.fields[i], WireType(m.fields[i].protoType))| >= 1
    ensures r.Err? ==> WriterError(r.error)
    decreases v, 1
  {
    var f := m.fields[i];
    var body :- if f.protoType.Message? then (var nm :- NestedMode(m, i, mode); Element(f, v, nm))
                else Element(f, v, Full);
    Ok(FieldKey(f, WireType(f.protoType)) + body)
  }

  // ---------------------------------------------------------------------
  // One field (FieldWriter, FieldSerializer.cs:294-465)

  /**
   * The elements of a repeated field from `j` on. Each message element is
   * serialized in full, also in SerializeDelta: the corrected behaviour,
   * where the emitted code writes DeltaElementAsWritten.
   */
  function Items(f: Field, v: Value, j: nat, tagged: bool): (r: Result<seq<byte>>)
    requires v.List? && j <= |v.items| && Fits(f, v) && f.rule == Repeated
    ensures r.Ok? ==> |r.value| >= (if tagged then 2 * (|v.items| - j) else |v.items| - j)
    ensures r.Err? ==> WriterError(r.error)
    decreases v, 0, |v.items| - j
  {
    if j == |v.items| then Ok([])
    else
      assert v.items[j] in v.items;
      var e :- Element(f, v.items[j], Full);
      var rest :- Items(f, v, j + 1, tagged);
      Ok((if tagged then FieldKey(f, WireType(f.protoType)) else []) + e + rest)
  }

  /**
   * A repeated field: nothing when the list is null; packed, one key and
   * the elements behind a length (the constant `WireSize * Count` when the
   * type has a constant size); otherwise a key before every element.
   */
  function RepeatedField(f: Field, v: Value): (r: Result<seq<byte>>)
    requires f.rule == Repeated && Fits(f, v)
    ensures r == Ok([]) <==> v.NullList? || (v.List? && |v.items| == 0 && !f.options.packed)
    ensures r.Err? ==> WriterError(r.error)
    decreases v, 1
  {
    if v.NullList? then Ok([])
    else if f.options.packed then
      var body :- Items(f, v, 0, false);
      var size := WireSize(f.protoType);
      if size < 0 then Ok(FieldKey(f, LengthDelimited) + WireFormat.LengthPrefixed(body))
      else Ok(FieldKey(f, LengthDelimited) + WireFormat.Varint(Low32(size * |v.items|)) + body)
    else Items(f, v, 0, true)
  }

  /** An optional field (FieldSerializer.cs:357-426). */
  function OptionalField(m: ProtoMessage, i: nat, v: Value, mode: Mode): (r: Result<seq<byte>>)
    requires i < |m.fields| && m.fields[i].rule == Optional && Fits(m.fields[i], v) && ModeFits(m, mode)
    ensures r.Err? ==> WriterError(r.error)
    decreases v, 2
  {
    var f := m.fields[i];
    var t := f.protoType;
    if t.Message? || IsBuiltin(t, StringType) || IsBuiltin(t, BytesType) then
      if Nullable(t) && IsNull(v) then Ok([])
      else if !Nullable(t) && CanOptional(mode, t) && !OptionalCheck(f, v) then Ok([])
      else if mode.Delta? && CanDelta(t) then
        var p :- PreviousSlot(m, i, mode);
        if SameValue(t, v, p) then Ok([]) else Emit(m, i, v, mode)
      else Emit(m, i, v, mode)
    else if t.Enum? then
      if f.options.default.Some? && v == DefaultOf(f) then Ok([]) else Emit(m, i, v, mode)
    else if mode.Delta? && CanDelta(t) then
      var p :- PreviousSlot(m, i, mode);
      if SameValue(t, v, p) then Ok([]) else Emit(m, i, v, mode)
    else if CanOptional(mode, t) && !OptionalCheck(f, v) then Ok([])
    else Emit(m, i, v, mode)
  }

  /**
   * A required field (FieldSerializer.cs:428-463): a null reference is
   * refused, and a value equal to its default is still left out.
   */
  function RequiredField(m: ProtoMessage, i: nat, v: Value, mode: Mode): (r: Result<seq<byte>>)
    requires i < |m.fields| && m.fields[i].rule == Required && Fits(m.fields[i], v) && ModeFits(m, mode)
    ensures r.Err? ==> WriterError(r.error)
    decreases v, 3
  {
    var f := m.fields[i];
    var t := f.protoType;
    if mode.Delta? && CanDelta(t) then
      var p :- PreviousSlot(m, i, mode);
      if SameValue(t, v, p) then Ok([]) else RequiredValue(m, i, v, mode)
    else RequiredValue(m, i, v, mode)
  }

  function RequiredValue(m: ProtoMessage, i: nat, v: Value, mode: Mode): (r: Result<seq<byte>>)
    requires i < |m.fields| && m.fields[i].rule == Required && Fits(m.fields[i], v) && ModeFits(m, mode)
    ensures r.Err? ==> WriterError(r.error)
    decreases v, 2
  {
    var f := m.fields[i];
    var t := f.protoType;
    if (t.Message? && Options(t).optionType != Some("struct")) || IsBuiltin(t, StringType) || IsBuiltin(t, BytesType) then
      if IsNull(v) then Err(ArgumentNull) else Emit(m, i, v, mode)
    else if CanOptional(mode, t) && !OptionalCheck(f, v) then Ok([])
    else Emit(m, i, v, mode)
  }

  function WriteField(m: ProtoMessage, i: nat, inst: Instance, mode: Mode): (r: Result<seq<byte>>)
    requires i < |m.fields| && InstanceFits(m, inst) && ModeFits(m, mode)
    ensures r.Err? ==> WriterError(r.error)
    decreases inst, 1
  {
    var f := m.fields[i];
    var v := inst.slots[i];
    match f.rule
    case Repeated => RepeatedField(f, v)
    case Optional => OptionalField(m, i, v, mode)
    case Required => RequiredField(m, i, v, mode)
  }

  /** The fields from `i` on, in declaration order. */
  function WriteFields(m: ProtoMessage, i: nat, inst: Instance, mode: Mode): (r: Result<seq<byte>>)
    requires i <= |m.fields| && InstanceFits(m, inst) && ModeFits(m, mode)
    ensures r.Err? ==> WriterError(r.error)
    decreases inst, 2, |m.fields| - i
  {
    if i == |m.fields| then Ok([])
    else
      var a :- WriteField(m, i, inst, mode);
      var rest :- WriteFields(m, i + 1, inst, mode);
      Ok(a + rest)
  }

  // ---------------------------------------------------------------------
  // Messages (MessageSerializer.cs:488-569)

  /** The preserved unknown fields, each as its key and raw value. */
  function PreservedBytes(kvs: seq<KeyValue>): seq<byte>
  {
    if kvs == [] then [] else WireFormat.KeyBytes(kvs[0].key) + kvs[0].value + PreservedBytes(kvs[1..])
  }

  /** `Serialize`: every field, then the preserved unknown fields. */
  function Serialize(m: ProtoMessage, inst: Instance): (r: Result<seq<byte>>)
    requires InstanceFits(m, inst)
    ensures r.Err? ==> WriterError(r.error)
    decreases inst, 3
  {
    var body :- WriteFields(m, 0, inst, Full);
    Ok(body + if m.preserveUnknown && inst.preserved.Some? then PreservedBytes(inst.preserved.value) else [])
  }

  /** `SerializeDelta`: every field against `previous`; preserved fields are not written. */
  function SerializeDelta(m: ProtoMessage, inst: Instance, previous: Option<Instance>): (r: Result<seq<byte>>)
    requires InstanceFits(m, inst) && (previous.Some? ==> InstanceFits(m, previous.value))
    ensures r.Err? ==> WriterError(r.error)
    decreases inst, 3
  {
    WriteFields(m, 0, inst, Delta(previous))
  }
}
