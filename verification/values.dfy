/**
 * The values a generated message holds, field by field, and what the
 * emitted code takes as a field's "default".
 *
 * A generated class or struct is modelled as an `Instance`: one slot per
 * schema field, in field order, plus the list of preserved unknown fields.
 * A nested message is held by value; a class-typed slot may be null.
 */
module Values {
  import opened Common
  import opened Proto
  import WireFormat

  /** An `ArraySegment<byte>` whose `Array` is not null. */
  datatype SegmentValue = SegmentValue(data: seq<byte>, offset: int, count: int)

  predicate SegmentValid(s: SegmentValue)
  {
    0 <= s.offset && 0 <= s.count && s.offset + s.count <= |s.data|
  }

  /** The bytes a segment covers. */
  function SegmentContent(s: SegmentValue): (r: seq<byte>)
    requires SegmentValid(s)
    ensures |r| == s.count
  {
    s.data[s.offset..s.offset + s.count]
  }

  /** A preserved unknown field: its key and the raw bytes of its value. */
  datatype KeyValue = KeyValue(key: WireFormat.Key, value: seq<byte>)

  /**
   * The value of one field. Integers of every width, enums and the game
   * identifiers are `Int`; float and double are their little-endian bytes;
   * strings are their UTF-8 bytes; `None` and `NullList` are a C# null.
   */
  datatype Value =
    | Bool(b: bool)
    | Int(n: int)
    | Raw(bits: seq<byte>)
    | Str(text: Option<seq<byte>>)
    | Bytes(content: Option<seq<byte>>)
    | Pooled(segment: Option<SegmentValue>)
    | Msg(instance: Option<Instance>)
    | List(items: seq<Value>)
    | NullList

  /** A message object: its field slots and `PreservedFields`. */
  datatype Instance = Instance(slots: seq<Value>, preserved: Option<seq<KeyValue>>)

  predicate IsStruct(m: ProtoMessage)
  {
    m.options.optionType == Some("struct")
  }

  predicate InRange(n: int, lo: int, hi: int)
  {
    lo <= n < hi
  }

  // ---------------------------------------------------------------------
  // Typing: what the C# declarations of the generated fields allow

  /** A single value of the field's C# type. */
  predicate ElementFits(f: Field, v: Value)
    decreases v, 0
  {
    match f.protoType
    case Enum(_, _, _, _, _, _) => v.Int? && InRange(v.n, -TWO_31, TWO_31)
    case Message(sub) =>
      v.Msg? && (IsStruct(sub) ==> v.instance.Some?)
      && (v.instance.Some? ==> InstanceFits(sub, v.instance.value))
    case Builtin(name, _, _) =>
      match name
      case BoolType => v.Bool?
      case FloatType => v.Raw? && |v.bits| == 4
      case DoubleType => v.Raw? && |v.bits| == 8
      case Int32Type | SInt32Type | SFixed32Type => v.Int? && InRange(v.n, -TWO_31, TWO_31)
      case UInt32Type | Fixed32Type => v.Int? && InRange(v.n, 0, TWO_32)
      case Int64Type | SInt64Type | SFixed64Type => v.Int? && InRange(v.n, -TWO_63, TWO_63)
      case UInt64Type | Fixed64Type | NetworkableIdType | ItemContainerIdType | ItemIdType =>
        v.Int? && InRange(v.n, 0, TWO_64)
      case StringType => v.Str?
      case BytesType =>
        if f.options.pooled then v.Pooled? && (v.segment.Some? ==> SegmentValid(v.segment.value))
        else v.Bytes?
      case OtherName(_) => true
  }

  /** A field's value: a list (or null) of elements for a repeated field. */
  predicate Fits(f: Field, v: Value)
    decreases v, 1
  {
    if f.rule == Repeated then
      v.NullList? || (v.List? && forall x :: x in v.items ==> ElementFits(f, x))
    else ElementFits(f, v)
  }

  /** An instance of the message: one fitting slot per field. */
  predicate InstanceFits(m: ProtoMessage, inst: Instance)
    decreases inst, 2
  {
    |inst.slots| == |m.fields| && forall i :: 0 <= i < |m.fields| ==> Fits(m.fields[i], inst.slots[i])
  }

  // ---------------------------------------------------------------------
  // Defaults

  function Zeros(n: nat): (r: seq<byte>)
    ensures |r| == n && forall i :: 0 <= i < n ==> r[i] == 0
  {
    seq(n, _ => 0)
  }

  /**
   * `default(T)` for a field's C# type, which is also what a new object
   * holds: false, 0, null for references, an all-default struct.
   */
  function ZeroValue(f: Field): Value
    decreases f, 1
  {
    if f.rule == Repeated then NullList else ZeroElement(f)
  }

  function ZeroElement(f: Field): Value
    decreases f, 0
  {
    match f.protoType
    case Enum(_, _, _, _, _, _) => Int(0)
    case Message(sub) => if IsStruct(sub) then Msg(Some(ZeroInstance(sub))) else Msg(None)
    case Builtin(name, _, _) =>
      match name
      case BoolType => Bool(false)
      case FloatType => Raw(Zeros(4))
      case DoubleType => Raw(Zeros(8))
      case StringType => Str(None)
      case BytesType => if f.options.pooled then Pooled(None) else Bytes(None)
      case _ => Int(0)
  }

  /** A new instance, or `default(T)` of a struct: every slot at its zero value. */
  function ZeroInstance(m: ProtoMessage): (r: Instance)
    ensures |r.slots| == |m.fields|
    decreases m, 2
  {
    Instance(ZeroSlots(m, 0), None)
  }

  function ZeroSlots(m: ProtoMessage, i: nat): (r: seq<Value>)
    requires i <= |m.fields|
    ensures |r| == |m.fields| - i
    ensures forall j :: 0 <= j < |r| ==> r[j] == ZeroValue(m.fields[i + j])
    decreases m, 1, |m.fields| - i
  {
    if i == |m.fields| then [] else [ZeroValue(m.fields[i])] + ZeroSlots(m, i + 1)
  }

  /** The zero values are values of the declared types. */
  lemma {:induction false} ZeroInstanceFits(m: ProtoMessage)
    ensures InstanceFits(m, ZeroInstance(m))
    decreases m, 2
  {
    var z := ZeroInstance(m);
    forall i | 0 <= i < |m.fields|
      ensures Fits(m.fields[i], z.slots[i])
    {
      ZeroValueFits(m.fields[i]);
    }
  }

  lemma {:induction false} ZeroValueFits(f: Field)
    ensures Fits(f, ZeroValue(f))
    decreases f, 1
  {
    if f.rule != Repeated && f.protoType.Message? && IsStruct(f.protoType.msg) {
      ZeroInstanceFits(f.protoType.msg);
    }
  }

  /** The value of the member called `name`: the first one so called. */
  function MemberValue(members: seq<EnumMember>, name: string): (r: Option<int32>)
    ensures r.Some? <==> exists k :: 0 <= k < |members| && members[k].name == name
    ensures r.Some? ==> exists k :: 0 <= k < |members| && members[k] == EnumMember(name, r.value)
  {
    if members == [] then None
    else if members[0].name == name then Some(members[0].value)
    else
      var r := MemberValue(members[1..], name);
      assert forall k :: 1 <= k < |members| ==> members[k] == members[1..][k - 1];
      r
  }

  /**
   * The value a `default` option's text denotes for a field of type `t`.
   * A member name that no member of the enum carries does not compile;
   * the model then keeps the type's zero.
   */
  function Denote(t: ProtoType, lit: Literal): Value
  {
    match lit
    case LitInt(n) => Int(n)
    case LitBool(b) => Bool(b)
    case LitText(s) => Str(Some(s))
    case LitRaw(bits) => Raw(bits)
    case LitMember(name) =>
      if t.Enum? && MemberValue(t.members, name).Some? then Int(MemberValue(t.members, name).value)
      else Int(0)
  }

  /** `OptionDefault ?? default`: what a field is compared with to omit it. */
  function DefaultOf(f: Field): Value
  {
    match f.options.default
    case Some(lit) => Denote(f.protoType, lit)
    case None => ZeroElement(f)
  }

  /**
   * Every `default` option denotes a value of its field's type, here and in
   * every nested message type: `instance.X = <default>` compiles.
   */
  predicate SchemaFits(m: ProtoMessage)
    decreases m
  {
    forall f :: f in m.fields ==>
      (f.options.default.Some? ==> ElementFits(f, DefaultOf(f)))
      && (f.protoType.Message? ==> SchemaFits(f.protoType.msg))
  }

  /** A C# null in a reference-typed slot; for pooled bytes, a null `Array`. */
  predicate IsNull(v: Value)
  {
    (v.Str? && v.text.None?) || (v.Bytes? && v.content.None?)
    || (v.Pooled? && v.segment.None?) || (v.Msg? && v.instance.None?)
    || v.NullList?
  }
}
