/**
 * What the emitted writer promises about the bytes it puts on the stream:
 * the length in front of a packed field, which fields are left out (the
 * default and delta tests), and which null references are refused.
 */
module WriterProperties {
  import opened Common
  import opened Proto
  import opened Values
  import WireFormat
  import opened Writer

  // ---------------------------------------------------------------------
  // Packed fields (FieldSerializer.cs:311-342)

  /** A builtin with its standard wire type whose values all have one size. */
  predicate ConstantSizeBuiltin(t: ProtoType)
  {
    t.Builtin? && StandardWire(t.builtin, t.wire) && WireSize(t) >= 0
  }

  /** Each value of a constant-size builtin is written in exactly `WireSize` bytes. */
  lemma {:induction false} ElementSize(f: Field, v: Value)
    requires ConstantSizeBuiltin(f.protoType) && ElementFits(f, v)
    requires Element(f, v, Full).Ok?
    ensures |Element(f, v, Full).value| == WireSize(f.protoType)
  {
  }

  /** The untagged elements from `j` on take `WireSize` bytes each. */
  lemma {:induction false} ItemsSize(f: Field, v: Value, j: nat)
    requires f.rule == Repeated && v.List? && j <= |v.items| && Fits(f, v)
    requires ConstantSizeBuiltin(f.protoType)
    requires Items(f, v, j, false).Ok?
    ensures |Items(f, v, j, false).value| == WireSize(f.protoType) * (|v.items| - j)
    decreases |v.items| - j
  {
    if j < |v.items| {
      assert v.items[j] in v.items;
      ElementSize(f, v.items[j]);
      ItemsSize(f, v, j + 1);
      var s := WireSize(f.protoType);
      assert s * (|v.items| - j) == s + s * (|v.items| - (j + 1));
    }
  }

  /**
   * A packed field of builtin type is its LengthDelimited key and the
   * elements behind their own length: the constant `WireSize * Count` the
   * emitted code writes for a constant-size type is that length.
   */
  lemma {:induction false} PackedPrefixIsLength(f: Field, v: Value)
    requires f.rule == Repeated && f.options.packed && Fits(f, v) && v.List?
    requires f.protoType.Builtin? && StandardWire(f.protoType.builtin, f.protoType.wire)
    requires |v.items| < 0x1000_0000
    requires RepeatedField(f, v).Ok?
    ensures Items(f, v, 0, false).Ok?
    ensures RepeatedField(f, v).value
            == FieldKey(f, LengthDelimited) + WireFormat.LengthPrefixed(Items(f, v, 0, false).value)
  {
    var size := WireSize(f.protoType);
    if size >= 0 {
      ItemsSize(f, v, 0);
      assert size <= 8;
      assert 0 <= size * |v.items| <= 8 * |v.items|;
      assert Low32(size * |v.items|) == size * |v.items|;
    }
  }

  // ---------------------------------------------------------------------
  // Default omission and delta comparison (FieldSerializer.cs:274-307, 357-463)

  /** The key in front of every emitted value makes an emitted field non-empty. */
  lemma {:induction false} EmitNonEmpty(m: ProtoMessage, i: nat, v: Value, mode: Mode)
    requires i < |m.fields| && m.fields[i].rule != Repeated && Fits(m.fields[i], v) && ModeFits(m, mode)
    ensures Emit(m, i, v, mode) != Ok([])
  {
    var f := m.fields[i];
    assert |FieldKey(f, WireType(f.protoType))| >= 1;
  }

  /**
   * A numeric or bool builtin that the writer supports: not a fixed-width
   * integer, string or bytes, and so never null and never refused.
   */
  predicate ScalarType(t: ProtoType)
  {
    t.Builtin? &&
    match t.builtin
    case BoolType | FloatType | DoubleType | Int32Type | Int64Type | UInt32Type | UInt64Type
      | SInt32Type | SInt64Type | NetworkableIdType | ItemContainerIdType | ItemIdType => true
    case _ => false
  }

  predicate ScalarField(f: Field)
  {
    f.rule != Repeated && ScalarType(f.protoType) && f.typeName != "Ray"
  }

  /** A scalar field is always written: it has a key and an encoding that cannot fail. */
  lemma {:induction false} ScalarEmitOk(m: ProtoMessage, i: nat, v: Value, mode: Mode)
    requires i < |m.fields| && m.fields[i].rule != Repeated && ScalarType(m.fields[i].protoType)
    requires Fits(m.fields[i], v) && ModeFits(m, mode)
    ensures Emit(m, i, v, mode).Ok? && Emit(m, i, v, mode) != Ok([])
  {
    var f := m.fields[i];
    assert Element(f, v, Full).Ok?;
    EmitNonEmpty(m, i, v, mode);
  }

  /**
   * In Serialize, a scalar field, optional or required, is left out exactly
   * when it is `==` to `OptionDefault ?? default`.
   */
  lemma {:induction false} ScalarOmittedIffDefault(m: ProtoMessage, i: nat, inst: Instance)
    requires i < |m.fields| && InstanceFits(m, inst) && ScalarField(m.fields[i])
    ensures WriteField(m, i, inst, Full).Ok?
    ensures WriteField(m, i, inst, Full) == Ok([])
            <==> SameValue(m.fields[i].protoType, inst.slots[i], DefaultOf(m.fields[i]))
  {
    var f := m.fields[i];
    var v := inst.slots[i];
    ScalarEmitOk(m, i, v, Full);
    if f.rule == Optional {
      assert WriteField(m, i, inst, Full) == OptionalField(m, i, v, Full);
    } else {
      assert WriteField(m, i, inst, Full) == RequiredField(m, i, v, Full) == RequiredValue(m, i, v, Full);
    }
  }

  /**
   * In SerializeDelta against a `previous`, a scalar field is left out
   * exactly when its type is delta-comparable and it is `==` to the field
   * of `previous`; the default is not consulted.
   */
  lemma {:induction false} ScalarDeltaOmittedIffUnchanged(m: ProtoMessage, i: nat, inst: Instance, p: Instance)
    requires i < |m.fields| && InstanceFits(m, inst) && InstanceFits(m, p)
    requires m.fields[i].rule != Repeated && ScalarType(m.fields[i].protoType)
    ensures WriteField(m, i, inst, Delta(Some(p))).Ok?
    ensures WriteField(m, i, inst, Delta(Some(p))) == Ok([])
            <==> CanDelta(m.fields[i].protoType) && SameValue(m.fields[i].protoType, inst.slots[i], p.slots[i])
  {
    var f := m.fields[i];
    var v := inst.slots[i];
    var mode := Delta(Some(p));
    ScalarEmitOk(m, i, v, mode);
    if f.rule == Optional {
      assert WriteField(m, i, inst, mode) == OptionalField(m, i, v, mode);
    } else {
      assert WriteField(m, i, inst, mode) == RequiredField(m, i, v, mode);
      if !(CanDelta(f.protoType) && SameValue(f.protoType, v, p.slots[i])) {
        assert RequiredField(m, i, v, mode) == RequiredValue(m, i, v, mode);
      }
    }
  }

  /** A delta-comparable field read from a null `previous` is a NullReferenceException. */
  lemma {:induction false} DeltaWithoutPreviousFails(m: ProtoMessage, i: nat, inst: Instance)
    requires i < |m.fields| && InstanceFits(m, inst)
    requires m.fields[i].rule != Repeated && ScalarType(m.fields[i].protoType) && CanDelta(m.fields[i].protoType)
    ensures WriteField(m, i, inst, Delta(None)) == Err(NullReference)
  {
  }

  /**
   * An optional enum is left out only when it equals an explicit
   * `default`, and `previous` plays no part: it is written the same in
   * Serialize and SerializeDelta.
   */
  lemma {:induction false} EnumOmittedIffExplicitDefault(m: ProtoMessage, i: nat, v: Value, mode: Mode)
    requires i < |m.fields| && m.fields[i].rule == Optional && m.fields[i].protoType.Enum?
    requires Fits(m.fields[i], v) && ModeFits(m, mode)
    ensures OptionalField(m, i, v, mode) == OptionalField(m, i, v, Full)
    ensures OptionalField(m, i, v, mode).Ok?
    ensures OptionalField(m, i, v, mode) == Ok([])
            <==> m.fields[i].options.default.Some? && v == DefaultOf(m.fields[i])
  {
    EmitNonEmpty(m, i, v, mode);
  }

  /** A null string, bytes or class message is left out when optional. */
  lemma {:induction false} NullOptionalOmitted(m: ProtoMessage, i: nat, v: Value, mode: Mode)
    requires i < |m.fields| && m.fields[i].rule == Optional && Fits(m.fields[i], v) && ModeFits(m, mode)
    requires Nullable(m.fields[i].protoType) && IsNull(v)
    ensures OptionalField(m, i, v, mode) == Ok([])
  {
  }

  /**
   * A required string, bytes or class message that is null is refused with
   * ArgumentNullException, unless SerializeDelta found it unchanged; for
   * string and bytes that is the only cause of ArgumentNullException.
   */
  lemma {:induction false} RequiredNullRejected(m: ProtoMessage, i: nat, v: Value, mode: Mode)
    requires i < |m.fields| && m.fields[i].rule == Required && Fits(m.fields[i], v) && ModeFits(m, mode)
    requires var t := m.fields[i].protoType;
      (t.Message? && !IsStruct(t.msg)) || IsBuiltin(t, StringType) || IsBuiltin(t, BytesType)
    requires !(mode.Delta? && CanDelta(m.fields[i].protoType))
    ensures IsNull(v) ==> RequiredField(m, i, v, mode) == Err(ArgumentNull)
    ensures !m.fields[i].protoType.Message? ==> (RequiredField(m, i, v, mode) == Err(ArgumentNull) <==> IsNull(v))
  {
    var f := m.fields[i];
    assert RequiredField(m, i, v, mode) == RequiredValue(m, i, v, mode);
    if !IsNull(v) && !f.protoType.Message? {
      assert RequiredValue(m, i, v, mode) == Emit(m, i, v, mode);
      assert Element(f, v, Full) != Err(ArgumentNull);
    }
  }

  // ---------------------------------------------------------------------
  // Whole messages of scalar fields

  predicate AllScalar(m: ProtoMessage)
  {
    forall k :: 0 <= k < |m.fields| ==> ScalarField(m.fields[k])
  }

  predicate AllDeltaScalar(m: ProtoMessage)
  {
    forall k :: 0 <= k < |m.fields| ==>
      m.fields[k].rule != Repeated && ScalarType(m.fields[k].protoType) && CanDelta(m.fields[k].protoType)
  }

  /** Serialize writes no field of a scalar message exactly when every field is at its default. */
  lemma {:induction false} ScalarFieldsOmittedIffDefaults(m: ProtoMessage, j: nat, inst: Instance)
    requires AllScalar(m) && j <= |m.fields| && InstanceFits(m, inst)
    ensures WriteFields(m, j, inst, Full).Ok?
    ensures WriteFields(m, j, inst, Full) == Ok([])
            <==> forall k :: j <= k < |m.fields| ==> SameValue(m.fields[k].protoType, inst.slots[k], DefaultOf(m.fields[k]))
    decreases |m.fields| - j
  {
    if j < |m.fields| {
      ScalarOmittedIffDefault(m, j, inst);
      ScalarFieldsOmittedIffDefaults(m, j + 1, inst);
      var a := WriteField(m, j, inst, Full).value;
      var rest := WriteFields(m, j + 1, inst, Full).value;
      assert WriteFields(m, j, inst, Full) == Ok(a + rest);
      assert a + rest == [] <==> a == [] && rest == [] by {
        assert |a + rest| == |a| + |rest|;
      }
    }
  }

  /**
   * SerializeDelta writes no field of a delta-comparable scalar message
   * exactly when every field equals the one in `previous`.
   */
  lemma {:induction false} DeltaFieldsOmittedIffUnchanged(m: ProtoMessage, j: nat, inst: Instance, p: Instance)
    requires AllDeltaScalar(m) && j <= |m.fields| && InstanceFits(m, inst) && InstanceFits(m, p)
    ensures WriteFields(m, j, inst, Delta(Some(p))).Ok?
    ensures WriteFields(m, j, inst, Delta(Some(p))) == Ok([])
            <==> forall k :: j <= k < |m.fields| ==> SameValue(m.fields[k].protoType, inst.slots[k], p.slots[k])
    decreases |m.fields| - j
  {
    if j < |m.fields| {
      ScalarDeltaOmittedIffUnchanged(m, j, inst, p);
      DeltaFieldsOmittedIffUnchanged(m, j + 1, inst, p);
      var a := WriteField(m, j, inst, Delta(Some(p))).value;
      var rest := WriteFields(m, j + 1, inst, Delta(Some(p))).value;
      assert WriteFields(m, j, inst, Delta(Some(p))) == Ok(a + rest);
      assert a + rest == [] <==> a == [] && rest == [] by {
        assert |a + rest| == |a| + |rest|;
      }
    }
  }

  // ---------------------------------------------------------------------
  // The Ray test (FieldSerializer.cs:274-288)

  /**
   * Under the corrected test an optional Ray is left out of Serialize
   * exactly when neither its origin nor its direction is set.
   */
  lemma {:induction false} RayOmittedIffUnset(m: ProtoMessage, i: nat, v: Value)
    requires i < |m.fields| && m.fields[i].rule == Optional && m.fields[i].typeName == "Ray"
    requires m.fields[i].protoType.Message? && IsStruct(m.fields[i].protoType.msg)
    requires Fits(m.fields[i], v)
    ensures OptionalField(m, i, v, Full) == Ok([]) <==> !RayCheck(m.fields[i].protoType, v)
  {
    EmitNonEmpty(m, i, v, Full);
  }

  /** A three-float struct, as the game's vectors are declared. */
  function Vector3Type(): ProtoType
  {
    var opts := DEFAULT_TYPE_OPTIONS.(optionType := Some("struct"));
    var float := Builtin(FloatType, Fixed32, "float");
    Message(ProtoMessage("Vector3", "Vector3", opts, Collection("UnityEngine"), "unity",
      [NewField(Optional, "float", "x", "x", 1, float),
       NewField(Optional, "float", "y", "y", 2, float),
       NewField(Optional, "float", "z", "z", 3, float)], false))
  }

  function RayType(): ProtoType
  {
    var opts := DEFAULT_TYPE_OPTIONS.(optionType := Some("struct"));
    Message(ProtoMessage("Ray", "Ray", opts, Collection("UnityEngine"), "unity",
      [NewField(Optional, "Vector3", "origin", "origin", 1, Vector3Type()),
       NewField(Optional, "Vector3", "direction", "direction", 2, Vector3Type())], false))
  }

  /**
   * A ray cast from the world origin straight up: origin at its default,
   * direction (0, 1, 0). The test as written finds it unset, so the emitted
   * Serialize drops it, while it is not the default ray.
   */
  lemma {:induction false} RayFromOriginDroppedAsWritten()
    ensures var zero := Raw(Zeros(4));
      var one := Raw([0, 0, 0x80, 0x3F]);
      var origin := Msg(Some(Instance([zero, zero, zero], None)));
      var up := Msg(Some(Instance([zero, one, zero], None)));
      var ray := Msg(Some(Instance([origin, up], None)));
      !RayCheckAsWritten(RayType(), ray) && RayCheck(RayType(), ray)
  {
    var zero := Raw(Zeros(4));
    var one := Raw([0, 0, 0x80, 0x3F]);
    var origin := Msg(Some(Instance([zero, zero, zero], None)));
    var up := Msg(Some(Instance([zero, one, zero], None)));
    var ray := Instance([origin, up], None);
    var rm := RayType().msg;
    assert ZeroValue(rm.fields[0]) == origin by {
      assert ZeroSlots(Vector3Type().msg, 0) == [zero, zero, zero];
    }
    assert up != origin by {
      assert Zeros(4)[2] != [0, 0, 0x80, 0x3F][2];
      assert up.instance.value.slots[1] != origin.instance.value.slots[1];
    }
    assert !MemberSet(rm, ray, "origin");
    assert ray.slots[1] != ZeroValue(rm.fields[1]);
  }

  // ---------------------------------------------------------------------
  // Message elements of a repeated field in SerializeDelta (FieldSerializer.cs:494-495)

  /**
   * A message element of a repeated field as the emitted SerializeDelta
   * writes it: `previous.` is substituted for `instance.` in the element's
   * name `iN`, which has no such prefix, so the element is written as a
   * delta against itself.
   */
  function DeltaElementAsWritten(f: Field, x: Instance): (r: Result<seq<byte>>)
    requires f.protoType.Message? && InstanceFits(f.protoType.msg, x)
    ensures r.Ok? ==> |r.value| >= 1
  {
    Element(f, Msg(Some(x)), Delta(Some(x)))
  }

  /** A float or double field holding a NaN, the one scalar that is not `==` to itself. */
  predicate HoldsNaN(f: Field, v: Value)
  {
    IsFloat(f.protoType) && v.Raw? && IsNaN(v.bits)
  }

  /**
   * As written, an element of a delta-comparable scalar message type is
   * written as the empty message, whatever its fields hold, unless one of
   * them holds a NaN.
   */
  lemma {:induction false} DeltaElementEmptyAsWritten(f: Field, x: Instance)
    requires f.protoType.Message? && AllDeltaScalar(f.protoType.msg) && InstanceFits(f.protoType.msg, x)
    ensures DeltaElementAsWritten(f, x).Ok?
    ensures DeltaElementAsWritten(f, x) == Ok([0])
            <==> forall k :: 0 <= k < |x.slots| ==> !HoldsNaN(f.protoType.msg.fields[k], x.slots[k])
  {
    var sub := f.protoType.msg;
    DeltaFieldsOmittedIffUnchanged(sub, 0, x, x);
    var body := WriteFields(sub, 0, x, Delta(Some(x))).value;
    assert SerializeDelta(sub, x, Some(x)) == Ok(body);
    assert DeltaElementAsWritten(f, x) == Ok(WireFormat.LengthPrefixed(body));
    assert WireFormat.LengthPrefixed(body) == WireFormat.Varint(|body|) + body;
    if body == [] {
      assert WireFormat.LengthPrefixed(body) == [0];
    } else {
      assert |WireFormat.LengthPrefixed(body)| > 1;
    }
    assert |x.slots| == |sub.fields|;
    forall k | 0 <= k < |sub.fields|
      ensures SameValue(sub.fields[k].protoType, x.slots[k], x.slots[k]) <==> !HoldsNaN(sub.fields[k], x.slots[k])
    {
      assert ScalarType(sub.fields[k].protoType) && Fits(sub.fields[k], x.slots[k]);
      if x.slots[k].Raw? {
        FloatEqualsEquivalence(x.slots[k].bits, x.slots[k].bits, x.slots[k].bits);
      }
    }
  }

  /**
   * As corrected (Items serializes each element in full), an element of a
   * scalar message type is written as the empty message only when all of
   * its fields are `==` to their defaults.
   */
  lemma {:induction false} FullElementEmptyIffDefaults(f: Field, x: Instance)
    requires f.protoType.Message? && AllScalar(f.protoType.msg) && InstanceFits(f.protoType.msg, x)
    requires x.preserved.None?
    ensures Element(f, Msg(Some(x)), Full).Ok?
    ensures Element(f, Msg(Some(x)), Full) == Ok([0])
            <==> forall k :: 0 <= k < |x.slots| ==> SameValue(f.protoType.msg.fields[k].protoType, x.slots[k], DefaultOf(f.protoType.msg.fields[k]))
  {
    var sub := f.protoType.msg;
    ScalarFieldsOmittedIffDefaults(sub, 0, x);
    var body := WriteFields(sub, 0, x, Full).value;
    assert WriteFields(sub, 0, x, Full) == Ok(body);
    assert Serialize(sub, x) == Ok(body + []);
    assert body + [] == body;
    assert Element(f, Msg(Some(x)), Full) == Ok(WireFormat.LengthPrefixed(body));
    assert WireFormat.LengthPrefixed(body) == WireFormat.Varint(|body|) + body;
    assert |x.slots| == |sub.fields|;
    if body == [] {
      assert WireFormat.LengthPrefixed(body) == [0];
    } else {
      assert |WireFormat.LengthPrefixed(body)| > 1;
    }
    assert Element(f, Msg(Some(x)), Full) == Ok([0]) <==> body == [];
  }

  /** A list element `Inner { int32 x = 1 }` holding x = 5. */
  function InnerType(): ProtoType
  {
    var int32 := Builtin(Int32Type, Varint, "int");
    Message(ProtoMessage("Inner", "Inner", DEFAULT_TYPE_OPTIONS.(optionType := Some("class")),
      Collection("Game"), "game", [NewField(Optional, "int32", "x", "x", 1, int32)], false))
  }

  /**
   * The element Inner { x = 5 } of a repeated field: SerializeDelta as
   * written sends the empty message, which reads back as x = 0, where the
   * full element is not empty.
   */
  lemma {:induction false} DeltaElementLosesValue()
    ensures var f := NewField(Repeated, "Inner", "items", "items", 1, InnerType());
      var x := Instance([Int(5)], None);
      DeltaElementAsWritten(f, x) == Ok([0]) && Element(f, Msg(Some(x)), Full) != Ok([0])
  {
    var f := NewField(Repeated, "Inner", "items", "items", 1, InnerType());
    var x := Instance([Int(5)], None);
    assert InstanceFits(f.protoType.msg, x);
    DeltaElementEmptyAsWritten(f, x);
    FullElementEmptyIffDefaults(f, x);
    assert x.slots[0] != DefaultOf(f.protoType.msg.fields[0]);
  }
  // ---------------------------------------------------------------------
  // The emitted `!=` tests (FieldSerializer.cs:287, 380, 412, 431)

  /** Float `==` is an equivalence on the values that are not NaN, and a NaN equals nothing. */
  lemma {:induction false} FloatEqualsEquivalence(a: seq<byte>, b: seq<byte>, c: seq<byte>)
    ensures FloatEquals(a, a) <==> !IsNaN(a)
    ensures FloatEquals(a, b) ==> FloatEquals(b, a)
    ensures FloatEquals(a, b) && FloatEquals(b, c) ==> FloatEquals(a, c)
    ensures FloatEquals(a, b) && !IsZero(a) ==> a == b
  {
  }

  /**
   * The emitted `==` against value equality: it only ever adds the pair
   * 0.0, -0.0, and it fails on equal values exactly for a NaN (or a float
   * slot holding no bits) and for a non-null class reference.
   */
  lemma {:induction false} SameValueMeansEqual(t: ProtoType, a: Value, b: Value)
    requires t.Message? ==> a.Msg? && b.Msg?
    ensures SameValue(t, a, b) ==> a == b || (IsFloat(t) && a.Raw? && b.Raw? && IsZero(a.bits) && IsZero(b.bits))
    ensures a == b ==>
      (SameValue(t, a, b) <==>
        if IsFloat(t) then a.Raw? && !IsNaN(a.bits)
        else !(t.Message? && !IsStruct(t.msg)) || IsNull(a))
  {
    if IsFloat(t) && a.Raw? && b.Raw? {
      FloatEqualsEquivalence(a.bits, b.bits, b.bits);
    }
  }

  /** -0.0 is `==` to 0.0 though its bits differ; a quiet NaN is not `==` to itself. */
  lemma {:induction false} FloatEqualsExamples()
    ensures FloatEquals([0, 0, 0, 0], [0, 0, 0, 0x80]) && [0, 0, 0, 0] != [0, 0, 0, 0x80]
    ensures IsNaN([0, 0, 0xC0, 0x7F]) && !FloatEquals([0, 0, 0xC0, 0x7F], [0, 0, 0xC0, 0x7F])
  {
    assert IsZero([0, 0, 0, 0x80]) by {
      var z: seq<byte> := [0, 0, 0, 0x80];
      assert z[3] % 128 == 0;
      assert forall k :: 0 <= k < 3 ==> z[k] == 0;
    }
    assert IsZero([0, 0, 0, 0]) by {
      var z: seq<byte> := [0, 0, 0, 0];
      assert forall k :: 0 <= k < 3 ==> z[k] == 0;
    }
    var n: seq<byte> := [0, 0, 0xC0, 0x7F];
    assert n[3] % 128 == 127 && n[2] >= 128 && n[2] % 128 != 0;
  }

  /**
   * An optional float without a `default` option that holds -0.0 is left
   * out of Serialize: `instance.X != default` finds it equal to 0.0.
   */
  lemma {:induction false} NegativeZeroOmitted(m: ProtoMessage, i: nat, inst: Instance)
    requires i < |m.fields| && InstanceFits(m, inst) && ScalarField(m.fields[i])
    requires IsBuiltin(m.fields[i].protoType, FloatType) && m.fields[i].options.default.None?
    requires inst.slots[i] == Raw([0, 0, 0, 0x80])
    ensures WriteField(m, i, inst, Full) == Ok([])
  {
    ScalarOmittedIffDefault(m, i, inst);
    FloatEqualsExamples();
    assert DefaultOf(m.fields[i]) == Raw([0, 0, 0, 0]);
  }

  /**
   * A NaN in a delta-comparable float or double field is written by every
   * SerializeDelta, even against a `previous` holding the same bits.
   */
  lemma {:induction false} NaNAlwaysResent(m: ProtoMessage, i: nat, inst: Instance, p: Instance)
    requires i < |m.fields| && InstanceFits(m, inst) && InstanceFits(m, p)
    requires m.fields[i].rule != Repeated && IsFloat(m.fields[i].protoType)
    requires HoldsNaN(m.fields[i], inst.slots[i])
    ensures WriteField(m, i, inst, Delta(Some(p))).Ok? && WriteField(m, i, inst, Delta(Some(p))) != Ok([])
  {
    assert ScalarType(m.fields[i].protoType);
    ScalarDeltaOmittedIffUnchanged(m, i, inst, p);
  }

  /**
   * A required class field tested with `instance.X != previous.X` before
   * its null check: it is skipped exactly when it is null in both, and a
   * null that was not null in `previous` is refused.
   */
  lemma {:induction false} RequiredNullUnchangedSkipped(m: ProtoMessage, i: nat, inst: Instance, p: Instance)
    requires i < |m.fields| && InstanceFits(m, inst) && InstanceFits(m, p)
    requires m.fields[i].rule == Required && m.fields[i].protoType.Message?
    requires !IsStruct(m.fields[i].protoType.msg) && CanDelta(m.fields[i].protoType)
    ensures WriteField(m, i, inst, Delta(Some(p))) == Ok([]) <==> IsNull(inst.slots[i]) && IsNull(p.slots[i])
    ensures IsNull(inst.slots[i]) && !IsNull(p.slots[i]) ==> WriteField(m, i, inst, Delta(Some(p))) == Err(ArgumentNull)
  {
    var v := inst.slots[i];
    var mode := Delta(Some(p));
    assert WriteField(m, i, inst, mode) == RequiredField(m, i, v, mode);
    if !(IsNull(v) && IsNull(p.slots[i])) {
      assert RequiredField(m, i, v, mode) == RequiredValue(m, i, v, mode);
    }
  }
}
