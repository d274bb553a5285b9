/**
 * `Deserialize` undoes `Serialize` for messages whose fields each hold one
 * varint-coded scalar or enum: the bytes the emitted writer produces read
 * back, through the emitted reader, to the instance that was written.
 * Fields the writer leaves out because they hold their default come back
 * from the reader's preparation step.
 */
module RoundTrip {
  import opened Common
  import opened Proto
  import opened Values
  import opened Writer
  import opened Decoding
  import WireFormat

  /** A type written and read as one varint (or one bool byte). */
  predicate VarintScalar(t: ProtoType)
  {
    match t
    case Enum(_, _, _, _, _, _) => true
    case Message(_) => false
    case Builtin(name, _, _) =>
      match name
      case Int32Type | Int64Type | UInt32Type | UInt64Type | SInt32Type | SInt64Type | BoolType => true
      case NetworkableIdType | ItemContainerIdType | ItemIdType => true
      case _ => false
  }

  /**
   * A single scalar field that the reader can write to: an id that fits a
   * key, not packed, not read-only, and a type the writer does not mistake
   * for a string, bytes or `Ray` by its name.
   */
  predicate PlainField(f: Field)
  {
    f.rule != Repeated && VarintScalar(f.protoType) && 0 < f.id < 0x2000_0000
    && !f.options.packed && !f.options.readOnly && f.typeName != "Ray"
    && !IsBuiltin(f.protoType, StringType) && !IsBuiltin(f.protoType, BytesType)
  }

  /** The id of the field at position `i`. */
  function IdAt(m: ProtoMessage, i: nat): int
    requires i < |m.fields|
  {
    m.fields[i].id
  }

  /** The field at position `i` is plain. */
  predicate PlainAt(m: ProtoMessage, i: nat)
    requires i < |m.fields|
  {
    PlainField(m.fields[i])
  }

  /** The key the writer puts before field `j` of a plain schema. */
  function KeyOf(m: ProtoMessage, j: nat): (k: WireFormat.Key)
    requires PlainSchema(m) && j < |m.fields|
  {
    assert PlainAt(m, j);
    WireFormat.Key(m.fields[j].id, Code(WireType(m.fields[j].protoType)))
  }

  /** Plain fields with distinct ids, and no unknown fields kept. */
  predicate PlainSchema(m: ProtoMessage)
  {
    !m.preserveUnknown
    && (forall i :: 0 <= i < |m.fields| ==> PlainAt(m, i))
    && (forall i, j :: 0 <= i < j < |m.fields| ==> IdAt(m, i) != IdAt(m, j))
  }

  /** What a field of a new instance holds once the reader has prepared it. */
  function Ready(f: Field): Value
  {
    PrepareSlot(f, ZeroValue(f))
  }

  // ---------------------------------------------------------------------
  // Integer conversions

  /** `(int)` of the `ulong` an int32 is written as. */
  lemma {:induction false} Int32ThroughUInt64(n: int)
    requires -TWO_31 <= n < TWO_31
    ensures AsInt32(Low32(Low64(n))) == n
  {
    if n < 0 {
      assert Low64(n) == n + TWO_64;
      assert Low32(n + TWO_64) == n + TWO_32;
    }
  }

  /** `(long)` of the `ulong` an int64 is written as. */
  lemma {:induction false} Int64ThroughUInt64(n: int)
    requires -TWO_63 <= n < TWO_63
    ensures AsInt64(Low64(n)) == n
  {
    if n < 0 {
      assert Low64(n) == n + TWO_64;
    }
  }

  // ---------------------------------------------------------------------
  // One value

  /** The reader of a builtin varint type reads back what the writer wrote. */
  lemma {:induction false} BuiltinRoundTrip(f: Field, v: Value, e: seq<byte>, b: seq<byte>, pos: nat)
    requires f.protoType.Builtin? && VarintScalar(f.protoType) && ElementFits(f, v)
    requires Element(f, v, Full) == Ok(e)
    requires pos + |e| <= |b| <= MAX_INT32 && b[pos..pos + |e|] == e
    ensures ReadBuiltin(f, b, pos) == Ok(Read(v, pos + |e|))
  {
    match f.protoType.builtin
    case Int32Type => Int32RoundTrip(f, v, e, b, pos);
    case Int64Type => Int64RoundTrip(f, v, e, b, pos);
    case SInt32Type => SInt32RoundTrip(f, v, e, b, pos);
    case SInt64Type => SInt64RoundTrip(f, v, e, b, pos);
    case BoolType => BoolRoundTrip(f, v, e, b, pos);
    case UInt32Type => UInt32RoundTrip(f, v, e, b, pos);
    case _ => UInt64RoundTrip(f, v, e, b, pos);
  }

  /** int32 goes out as the 64-bit two's complement varint and comes back through `(int)`. */
  lemma {:induction false} Int32RoundTrip(f: Field, v: Value, e: seq<byte>, b: seq<byte>, pos: nat)
    requires f.protoType.Builtin? && f.protoType.builtin == Int32Type && ElementFits(f, v)
    requires Element(f, v, Full) == Ok(e)
    requires pos + |e| <= |b| <= MAX_INT32 && b[pos..pos + |e|] == e
    ensures ReadBuiltin(f, b, pos) == Ok(Read(v, pos + |e|))
  {
    assert e == WireFormat.Varint(Low64(v.n));
    WireFormat.ReadVarintOfEncoding(WireFormat.W64, b, pos, EndOfStream, Low64(v.n));
    Int32ThroughUInt64(v.n);
  }

  /** int64 goes out as the 64-bit two's complement varint. */
  lemma {:induction false} Int64RoundTrip(f: Field, v: Value, e: seq<byte>, b: seq<byte>, pos: nat)
    requires f.protoType.Builtin? && f.protoType.builtin == Int64Type && ElementFits(f, v)
    requires Element(f, v, Full) == Ok(e)
    requires pos + |e| <= |b| <= MAX_INT32 && b[pos..pos + |e|] == e
    ensures ReadBuiltin(f, b, pos) == Ok(Read(v, pos + |e|))
  {
    assert e == WireFormat.Varint(Low64(v.n));
    WireFormat.ReadVarintOfEncoding(WireFormat.W64, b, pos, EndOfStream, Low64(v.n));
    Int64ThroughUInt64(v.n);
  }

  /** sint32 goes out ZigZag-coded. */
  lemma {:induction false} SInt32RoundTrip(f: Field, v: Value, e: seq<byte>, b: seq<byte>, pos: nat)
    requires f.protoType.Builtin? && f.protoType.builtin == SInt32Type && ElementFits(f, v)
    requires Element(f, v, Full) == Ok(e)
    requires pos + |e| <= |b| <= MAX_INT32 && b[pos..pos + |e|] == e
    ensures ReadBuiltin(f, b, pos) == Ok(Read(v, pos + |e|))
  {
    assert e == WireFormat.Varint(WireFormat.ZigZag32(v.n));
    WireFormat.ZigZag32VarintRoundTrip(v.n, b, pos);
  }

  /** sint64 goes out ZigZag-coded. */
  lemma {:induction false} SInt64RoundTrip(f: Field, v: Value, e: seq<byte>, b: seq<byte>, pos: nat)
    requires f.protoType.Builtin? && f.protoType.builtin == SInt64Type && ElementFits(f, v)
    requires Element(f, v, Full) == Ok(e)
    requires pos + |e| <= |b| <= MAX_INT32 && b[pos..pos + |e|] == e
    ensures ReadBuiltin(f, b, pos) == Ok(Read(v, pos + |e|))
  {
    assert e == WireFormat.Varint(WireFormat.ZigZag64(v.n));
    WireFormat.ZigZag64VarintRoundTrip(v.n, b, pos);
  }

  /** A bool goes out as one byte, 0 or 1. */
  lemma {:induction false} BoolRoundTrip(f: Field, v: Value, e: seq<byte>, b: seq<byte>, pos: nat)
    requires f.protoType.Builtin? && f.protoType.builtin == BoolType && ElementFits(f, v)
    requires Element(f, v, Full) == Ok(e)
    requires pos + |e| <= |b| <= MAX_INT32 && b[pos..pos + |e|] == e
    ensures ReadBuiltin(f, b, pos) == Ok(Read(v, pos + |e|))
  {
    assert e == [WireFormat.BoolByte(v.b)];
    assert b[pos] == WireFormat.BoolByte(v.b);
  }

  /** uint32 goes out as its value, read back through the 32-bit reader. */
  lemma {:induction false} UInt32RoundTrip(f: Field, v: Value, e: seq<byte>, b: seq<byte>, pos: nat)
    requires f.protoType.Builtin? && f.protoType.builtin == UInt32Type && ElementFits(f, v)
    requires Element(f, v, Full) == Ok(e)
    requires pos + |e| <= |b| <= MAX_INT32 && b[pos..pos + |e|] == e
    ensures ReadBuiltin(f, b, pos) == Ok(Read(v, pos + |e|))
  {
    assert e == WireFormat.Varint(v.n);
    WireFormat.ReadVarintOfEncoding(WireFormat.W32, b, pos, EndOfStream, v.n);
  }

  /** uint64 and the game identifiers go out as their value. */
  lemma {:induction false} UInt64RoundTrip(f: Field, v: Value, e: seq<byte>, b: seq<byte>, pos: nat)
    requires f.protoType.Builtin? && (f.protoType.builtin == UInt64Type || IsIdName(f.protoType.builtin))
    requires ElementFits(f, v) && Element(f, v, Full) == Ok(e)
    requires pos + |e| <= |b| <= MAX_INT32 && b[pos..pos + |e|] == e
    ensures ReadBuiltin(f, b, pos) == Ok(Read(v, pos + |e|))
  {
    assert e == WireFormat.Varint(v.n);
    WireFormat.ReadVarintOfEncoding(WireFormat.W64, b, pos, EndOfStream, v.n);
  }

  /** The same for any field of a plain schema, enums included. */
  lemma {:induction false} ElementRoundTrip(m: ProtoMessage, i: nat, v: Value, e: seq<byte>, b: seq<byte>, pos: nat)
    requires SchemaFits(m) && i < |m.fields| && PlainAt(m, i) && ElementFits(m.fields[i], v)
    requires Element(m.fields[i], v, Full) == Ok(e)
    requires pos + |e| <= |b| <= MAX_INT32 && b[pos..pos + |e|] == e
    ensures ReadElement(m, i, b, pos, false) == Ok(Read(v, pos + |e|))
  {
    var f := m.fields[i];
    if f.protoType.Enum? {
      WireFormat.ReadVarintOfEncoding(WireFormat.W64, b, pos, EndOfStream, Low64(v.n));
      Int32ThroughUInt64(v.n);
    } else {
      BuiltinRoundTrip(f, v, e, b, pos);
    }
  }

  // ---------------------------------------------------------------------
  // One field

  /** A plain field's value is written as its key and its element, which the writer never refuses. */
  lemma {:induction false} PlainEmit(m: ProtoMessage, i: nat, v: Value)
    requires i < |m.fields| && PlainField(m.fields[i]) && Fits(m.fields[i], v)
    ensures Element(m.fields[i], v, Full).Ok?
    ensures Emit(m, i, v, Full) == Ok(FieldKey(m.fields[i], WireType(m.fields[i].protoType)) + Element(m.fields[i], v, Full).value)
  {
  }

  /**
   * The writer can leave the field out: anything but an enum, or an
   * optional enum with an explicit `default`. Any other enum is always
   * written, whatever it holds.
   */
  predicate Omittable(f: Field)
  {
    !f.protoType.Enum? || (f.rule == Optional && f.options.default.Some?)
  }

  /**
   * What the writer puts out for field `i`: nothing exactly when it may
   * leave the field out and the field holds its prepared value; otherwise
   * its key and its value.
   */
  lemma {:induction false} WrittenField(m: ProtoMessage, i: nat, x: Instance, a: seq<byte>)
    requires i < |m.fields| && PlainField(m.fields[i]) && InstanceFits(m, x)
    requires WriteField(m, i, x, Full) == Ok(a)
    ensures ElementFits(m.fields[i], x.slots[i])
    ensures a == [] <==> Omittable(m.fields[i]) && x.slots[i] == Ready(m.fields[i])
    ensures a != [] ==>
      Element(m.fields[i], x.slots[i], Full).Ok? &&
      a == FieldKey(m.fields[i], WireType(m.fields[i].protoType)) + Element(m.fields[i], x.slots[i], Full).value
  {
    var f := m.fields[i];
    var v := x.slots[i];
    assert Fits(f, v);
    PlainEmit(m, i, v);
    assert Omittable(f) ==> Ready(f) == DefaultOf(f);
    assert SameValue(f.protoType, v, DefaultOf(f)) <==> v == DefaultOf(f);
    if f.rule == Optional {
      assert WriteField(m, i, x, Full) == OptionalField(m, i, v, Full);
    } else {
      assert WriteField(m, i, x, Full) == RequiredField(m, i, v, Full) == RequiredValue(m, i, v, Full);
    }
  }

  /** The first byte of a key whose id is 16 or more has its high bit set. */
  lemma {:induction false} LongKeyFirstByte(k: WireFormat.Key)
    requires 16 <= k.field < 0x2000_0000
    ensures WireFormat.KeyBytes(k)[0] >= 128
  {
    assert WireFormat.KeyCode(k) >= 128;
  }

  /** A one-byte key of a field with id below 16 selects that field in the first-byte switch. */
  lemma {:induction false} DispatchLow(m: ProtoMessage, i: nat, kb: byte)
    requires PlainSchema(m) && i < |m.fields| && m.fields[i].id < 16 && kb == LowLabel(m.fields[i])
    ensures LowField(m, kb) == Some(i)
  {
    var r := LowField(m, kb);
    LowFieldNone(m, kb, 0);
    assert r.Some?;
    var g := m.fields[r.value];
    assert 8 * g.id + Code(FieldWire(g)) == 8 * m.fields[i].id + Code(FieldWire(m.fields[i]));
    assert IdAt(m, r.value) == IdAt(m, i);
  }

  /** A key whose first byte has its high bit set matches no case of the first-byte switch. */
  lemma {:induction false} NoLowField(m: ProtoMessage, kb: byte)
    requires PlainSchema(m) && kb >= 128
    ensures LowField(m, kb) == None
  {
    LowFieldNone(m, kb, 0);
    forall j | 0 <= j < |m.fields|
      ensures !(m.fields[j].id < 16 && LowLabel(m.fields[j]) == kb)
    {
      assert PlainAt(m, j);
    }
  }

  /** A field id of 16 or more selects that field in the second switch. */
  lemma {:induction false} DispatchHigh(m: ProtoMessage, i: nat)
    requires PlainSchema(m) && i < |m.fields| && m.fields[i].id >= 16
    ensures HighField(m, m.fields[i].id) == Some(i)
  {
    var r := HighField(m, m.fields[i].id);
    HighFieldNone(m, m.fields[i].id, 0);
    assert r.Some?;
    assert IdAt(m, r.value) == IdAt(m, i);
  }

  /** The key written for a field whose id fits in 29 bits. */
  lemma {:induction false} FieldKeyOf(f: Field, w: Wire)
    requires 0 <= f.id < 0x2000_0000
    ensures FieldKey(f, w) == WireFormat.KeyBytes(WireFormat.Key(f.id, Code(w)))
  {
    assert Low32(f.id) == f.id;
  }

  lemma {:induction false} DispatchShortKey(m: ProtoMessage, i: nat, b: seq<byte>, pos: nat, k: WireFormat.Key)
    requires PlainSchema(m) && i < |m.fields| && m.fields[i].id < 16
    requires k == KeyOf(m, i)
    requires pos + |WireFormat.KeyBytes(k)| <= |b| && b[pos..pos + |WireFormat.KeyBytes(k)|] == WireFormat.KeyBytes(k)
    ensures |WireFormat.KeyBytes(k)| == 1 && pos < |b| && LowField(m, b[pos]) == Some(i)
  {
    var f := m.fields[i];
    assert PlainAt(m, i);
    assert WireFormat.KeyCode(k) == LowLabel(f) < 128;
    assert WireFormat.KeyBytes(k) == [LowLabel(f) as byte];
    assert b[pos] == WireFormat.KeyBytes(k)[0];
    DispatchLow(m, i, b[pos]);
  }

  /**
   * What the loop meets at `pos` for field `j` of id 16 or more: a first
   * byte no case of the first switch takes, then the key of `j` with its
   * own wire type, ending at `start`.
   */
  predicate LongKeyAt(m: ProtoMessage, b: seq<byte>, pos: nat, j: nat, start: nat)
  {
    pos < |b| && start <= |b| && j < |m.fields|
    && LowField(m, b[pos]) == None
    && 0 < m.fields[j].id < 0x1_0000_0000
    && HighField(m, m.fields[j].id) == Some(j)
    && WireFormat.ReadKeyAfter(b[pos], b, pos + 1)
       == Ok(Read(WireFormat.Key(m.fields[j].id, Code(FieldWire(m.fields[j]))), start))
  }

  lemma {:induction false} DispatchLongKey(m: ProtoMessage, i: nat, b: seq<byte>, pos: nat, key: seq<byte>)
    requires PlainSchema(m) && i < |m.fields| && m.fields[i].id >= 16
    requires key == WireFormat.KeyBytes(KeyOf(m, i))
    requires pos + |key| <= |b| && b[pos..pos + |key|] == key
    ensures LongKeyAt(m, b, pos, i, pos + |key|)
  {
    var f := m.fields[i];
    var k := KeyOf(m, i);
    assert PlainAt(m, i);
    WireFormat.KeyRoundTripAfterFirstByte(k, b, pos);
    LongKeyFirstByte(k);
    assert b[pos] == WireFormat.KeyBytes(k)[0];
    NoLowField(m, b[pos]);
    DispatchHigh(m, i);
  }

  // ---------------------------------------------------------------------
  // The message

  /** The writer never fails on a field of a plain schema. */
  lemma {:induction false} PlainFieldWritten(m: ProtoMessage, i: nat, x: Instance)
    requires i < |m.fields| && PlainField(m.fields[i]) && InstanceFits(m, x)
    ensures WriteField(m, i, x, Full).Ok?
  {
    var f := m.fields[i];
    var v := x.slots[i];
    assert Fits(f, v);
    PlainEmit(m, i, v);
    if f.rule == Optional {
      assert WriteField(m, i, x, Full) == OptionalField(m, i, v, Full);
    } else {
      assert WriteField(m, i, x, Full) == RequiredField(m, i, v, Full) == RequiredValue(m, i, v, Full);
    }
  }

  lemma {:induction false} PlainFieldsWritten(m: ProtoMessage, j: nat, x: Instance)
    requires PlainSchema(m) && InstanceFits(m, x) && j <= |m.fields|
    ensures WriteFields(m, j, x, Full).Ok?
    decreases |m.fields| - j
  {
    if j < |m.fields| {
      assert PlainAt(m, j);
      PlainFieldWritten(m, j, x);
      PlainFieldsWritten(m, j + 1, x);
    }
  }

  /** `Serialize` succeeds on every instance of a plain schema. */
  lemma {:induction false} PlainSerializeSucceeds(m: ProtoMessage, x: Instance)
    requires PlainSchema(m) && InstanceFits(m, x)
    ensures Serialize(m, x).Ok?
  {
    PlainFieldsWritten(m, 0, x);
  }

  /** `b` from `pos` on is `p` followed by `q`. */
  lemma {:induction false} SplitAt(b: seq<byte>, pos: nat, p: seq<byte>, q: seq<byte>)
    requires pos <= |b| && b[pos..] == p + q
    ensures pos + |p| <= |b| && b[pos..pos + |p|] == p && b[pos + |p|..] == q
  {
    assert b[pos..pos + |p|] == (p + q)[..|p|];
    assert b[pos + |p|..] == (p + q)[|p|..];
  }

  /** The three consecutive pieces of `b[pos..]`, as slices of `b`. */
  lemma {:induction false} SplitThree(b: seq<byte>, pos: nat, t: seq<byte>, p: seq<byte>, q: seq<byte>, r: seq<byte>)
    requires pos <= |b| && b[pos..] == t && t == p + q + r
    ensures pos + |p| + |q| + |r| == |b|
    ensures b[pos..pos + |p|] == p && b[pos + |p|..pos + |p| + |q|] == q && b[pos + |p| + |q|..] == r
  {
    assert b[pos..] == p + (q + r);
    SplitAt(b, pos, p, q + r);
    SplitAt(b, pos + |p|, q, r);
    assert b[pos + |p|..pos + |p| + |q|] == b[pos + |p|..][..|q|];
  }

  /**
   * Half-way through the loop: the fields before `j` hold what was
   * written, the rest what the preparation put there.
   */
  predicate Between(m: ProtoMessage, x: Instance, j: nat, inst: Instance)
  {
    inst.preserved == None && |inst.slots| == |m.fields| && |x.slots| == |m.fields| && j <= |m.fields|
    && (forall k :: 0 <= k < j ==> inst.slots[k] == x.slots[k])
    && (forall k :: j <= k < |m.fields| ==> inst.slots[k] == Ready(m.fields[k]))
  }

  /** Reading field `j` moves the loop to `j + 1`. */
  lemma {:induction false} BetweenNext(m: ProtoMessage, x: Instance, j: nat, inst: Instance)
    requires Between(m, x, j, inst) && j < |m.fields|
    ensures Between(m, x, j + 1, inst.(slots := inst.slots[j := x.slots[j]]))
  {
  }

  /**
   * The field loop reads the fields from `j` on back: `inst` holds the
   * written values of the fields before `j` and the prepared values of
   * the rest, and the bytes from `pos` on are what the writer produced
   * for the fields from `j` on.
   */
  lemma {:induction false} FieldsRoundTrip(m: ProtoMessage, x: Instance, j: nat, b: seq<byte>, pos: nat,
                                           inst: Instance, tail: seq<byte>)
    requires PlainSchema(m) && SchemaFits(m) && InstanceFits(m, x) && InstanceFits(m, inst)
    requires j <= |m.fields| && WriteFields(m, j, x, Full) == Ok(tail)
    requires pos + |tail| == |b| <= MAX_INT32 && b[pos..] == tail
    requires Between(m, x, j, inst)
    ensures DecodeLoop(m, b, pos, ToEnd, inst, false) == Ok(Read(x.(preserved := None), |b|))
    decreases |m.fields| - j, 2
  {
    if j == |m.fields| {
      assert inst.slots == x.slots;
      assert inst == x.(preserved := None);
    } else {
      NextField(m, x, j, b, pos, inst, tail);
    }
  }

  /** Field `j` is either left out, and already holds its value, or read back. */
  lemma {:induction false} NextField(m: ProtoMessage, x: Instance, j: nat, b: seq<byte>, pos: nat,
                                     inst: Instance, tail: seq<byte>)
    requires PlainSchema(m) && SchemaFits(m) && InstanceFits(m, x) && InstanceFits(m, inst)
    requires j < |m.fields| && WriteFields(m, j, x, Full) == Ok(tail)
    requires pos + |tail| == |b| <= MAX_INT32 && b[pos..] == tail
    requires Between(m, x, j, inst)
    ensures DecodeLoop(m, b, pos, ToEnd, inst, false) == Ok(Read(x.(preserved := None), |b|))
    decreases |m.fields| - j, 1
  {
    var skipped, next, rest := FieldRead(m, x, j, b, pos, tail, inst);
    if skipped {
      assert PlainAt(m, j);
      WrittenField(m, j, x, []);
      assert Between(m, x, j + 1, inst);
      FieldsRoundTrip(m, x, j + 1, b, pos, inst, rest);
    } else {
      ReadBack(m, x, j, b, pos, inst, next, rest);
    }
  }

  /** Field `j` read back by one turn of the loop; the loop goes on with the fields after it. */
  lemma {:induction false} ReadBack(m: ProtoMessage, x: Instance, j: nat, b: seq<byte>, pos: nat,
                                    inst: Instance, next: nat, rest: seq<byte>)
    requires PlainSchema(m) && SchemaFits(m) && InstanceFits(m, x) && InstanceFits(m, inst)
    requires j < |m.fields| && WriteFields(m, j + 1, x, Full) == Ok(rest)
    requires pos < next && next + |rest| == |b| <= MAX_INT32 && b[next..] == rest
    requires LoopStep(m, b, pos, inst, false) == Ok(Read(inst.(slots := inst.slots[j := x.slots[j]]), next))
    requires Between(m, x, j, inst)
    ensures DecodeLoop(m, b, pos, ToEnd, inst, false) == Ok(Read(x.(preserved := None), |b|))
    decreases |m.fields| - j, 0
  {
    BetweenNext(m, x, j, inst);
    FieldsRoundTrip(m, x, j + 1, b, next, inst.(slots := inst.slots[j := x.slots[j]]), rest);
  }

  /**
   * Where the bytes the writer put out for field `j` end, and what the
   * loop makes of them: nothing when the field was left out, else one turn
   * that reads the key and stores the value in slot `j`.
   */
  lemma {:induction false} FieldRead(m: ProtoMessage, x: Instance, j: nat, b: seq<byte>, pos: nat, tail: seq<byte>, inst: Instance)
    returns (skipped: bool, next: nat, rest: seq<byte>)
    requires PlainSchema(m) && SchemaFits(m) && InstanceFits(m, x) && InstanceFits(m, inst)
    requires j < |m.fields| && WriteFields(m, j, x, Full) == Ok(tail)
    requires pos + |tail| == |b| <= MAX_INT32 && b[pos..] == tail
    ensures WriteFields(m, j + 1, x, Full) == Ok(rest)
    ensures pos <= next && next + |rest| == |b| && b[next..] == rest
    ensures skipped ==> next == pos && WriteField(m, j, x, Full) == Ok([])
    ensures !skipped ==>
      pos < next && LoopStep(m, b, pos, inst, false) == Ok(Read(inst.(slots := inst.slots[j := x.slots[j]]), next))
  {
    var key, e;
    skipped, key, e, rest := FieldBytes(m, x, j, b, pos, tail);
    next := pos + |key| + |e|;
    if !skipped {
      KeyElementStep(m, j, x.slots[j], b, pos, inst, key, e, next);
    }
  }

  /** The writer's bytes for field `j`, as consecutive slices of `b`. */
  lemma {:induction false} FieldBytes(m: ProtoMessage, x: Instance, j: nat, b: seq<byte>, pos: nat, tail: seq<byte>)
    returns (skipped: bool, key: seq<byte>, e: seq<byte>, rest: seq<byte>)
    requires PlainSchema(m) && InstanceFits(m, x)
    requires j < |m.fields| && WriteFields(m, j, x, Full) == Ok(tail)
    requires pos + |tail| == |b| && b[pos..] == tail
    ensures WriteFields(m, j + 1, x, Full) == Ok(rest) && ElementFits(m.fields[j], x.slots[j])
    ensures pos + |key| + |e| + |rest| == |b|
    ensures b[pos..pos + |key|] == key && b[pos + |key|..pos + |key| + |e|] == e && b[pos + |key| + |e|..] == rest
    ensures skipped ==> key == [] && e == [] && WriteField(m, j, x, Full) == Ok([])
    ensures !skipped ==> KeyThenElement(m, j, x.slots[j], b, pos, key, e)
  {
    skipped, key, e, rest := WrittenParts(m, x, j, tail);
    SplitThree(b, pos, tail, key, e, rest);
  }

  /** At `pos` in `b`: the key written for field `j`, then the bytes `e` the writer put out for `v`. */
  predicate KeyThenElement(m: ProtoMessage, j: nat, v: Value, b: seq<byte>, pos: nat, key: seq<byte>, e: seq<byte>)
    requires PlainSchema(m) && j < |m.fields| && ElementFits(m.fields[j], v)
  {
    && key == WireFormat.KeyBytes(KeyOf(m, j))
    && Element(m.fields[j], v, Full) == Ok(e)
    && pos + |key| + |e| <= |b|
    && b[pos..pos + |key|] == key && b[pos + |key|..pos + |key| + |e|] == e
  }

  /** A key written for field `j` and the value `v` written after it: one turn of the loop reads them into slot `j`. */
  lemma {:induction false} KeyElementStep(m: ProtoMessage, j: nat, v: Value, b: seq<byte>, pos: nat, inst: Instance,
                       key: seq<byte>, e: seq<byte>, next: nat)
    requires PlainSchema(m) && SchemaFits(m) && InstanceFits(m, inst) && j < |m.fields|
    requires ElementFits(m.fields[j], v)
    requires |b| <= MAX_INT32 && KeyThenElement(m, j, v, b, pos, key, e) && next == pos + |key| + |e|
    ensures pos < next
    ensures LoopStep(m, b, pos, inst, false) == Ok(Read(inst.(slots := inst.slots[j := v]), next))
  {
    assert PlainAt(m, j);
    ElementRoundTrip(m, j, v, e, b, pos + |key|);
    ReadPlainSlot(m, j, b, inst, pos + |key|, v, pos + |key| + |e|);
    KeyStep(m, j, b, pos, inst, key);
  }

  /**
   * The loop, on the key written for field `j`, reads that field from right
   * after the key: through the first-byte switch for an id below 16, else
   * through the field number read.
   */
  lemma {:induction false} KeyStep(m: ProtoMessage, j: nat, b: seq<byte>, pos: nat, inst: Instance, key: seq<byte>)
    requires PlainSchema(m) && SchemaFits(m) && InstanceFits(m, inst) && j < |m.fields|
    requires key == WireFormat.KeyBytes(KeyOf(m, j))
    requires pos + |key| <= |b| <= MAX_INT32 && b[pos..pos + |key|] == key
    ensures pos < pos + |key|
    ensures LoopStep(m, b, pos, inst, false) == ReadField(m, j, b, pos + |key|, inst, false)
  {
    if m.fields[j].id < 16 {
      ShortKeyStep(m, j, b, pos, inst, key);
    } else {
      LongKeyStep(m, j, b, pos, inst, key);
    }
  }

  lemma {:induction false} ShortKeyStep(m: ProtoMessage, j: nat, b: seq<byte>, pos: nat, inst: Instance, key: seq<byte>)
    requires PlainSchema(m) && SchemaFits(m) && InstanceFits(m, inst) && j < |m.fields| && m.fields[j].id < 16
    requires key == WireFormat.KeyBytes(KeyOf(m, j))
    requires pos + |key| <= |b| <= MAX_INT32 && b[pos..pos + |key|] == key
    ensures pos < pos + |key|
    ensures LoopStep(m, b, pos, inst, false) == ReadField(m, j, b, pos + |key|, inst, false)
  {
    DispatchShortKey(m, j, b, pos, KeyOf(m, j));
    LowStep(m, b, pos, inst, j);
  }

  lemma {:induction false} LongKeyStep(m: ProtoMessage, j: nat, b: seq<byte>, pos: nat, inst: Instance, key: seq<byte>)
    requires PlainSchema(m) && SchemaFits(m) && InstanceFits(m, inst) && j < |m.fields| && m.fields[j].id >= 16
    requires key == WireFormat.KeyBytes(KeyOf(m, j))
    requires pos + |key| <= |b| <= MAX_INT32 && b[pos..pos + |key|] == key
    ensures pos < pos + |key|
    ensures LoopStep(m, b, pos, inst, false) == ReadField(m, j, b, pos + |key|, inst, false)
  {
    DispatchLongKey(m, j, b, pos, key);
    LongKeyRead(m, b, pos, inst, j, pos + |key|);
  }

  /** The loop, on a one-byte key selecting field `j`, reads that field. */
  lemma {:induction false} LowStep(m: ProtoMessage, b: seq<byte>, pos: nat, inst: Instance, j: nat)
    requires pos < |b| <= MAX_INT32 && SchemaFits(m) && InstanceFits(m, inst) && j < |m.fields|
    requires LowField(m, b[pos]) == Some(j)
    ensures LoopStep(m, b, pos, inst, false) == ReadField(m, j, b, pos + 1, inst, false)
  {
  }

  /** The loop, on a longer key selecting field `j` with its own wire type, reads that field. */
  lemma {:induction false} LongKeyRead(m: ProtoMessage, b: seq<byte>, pos: nat, inst: Instance, j: nat, start: nat)
    requires |b| <= MAX_INT32 && SchemaFits(m) && InstanceFits(m, inst) && LongKeyAt(m, b, pos, j, start)
    ensures LoopStep(m, b, pos, inst, false) == ReadField(m, j, b, start, inst, false)
  {
    HighStep(m, b, pos, inst);
    NumberStep(m, b, pos, inst, j, start);
  }

  /** A first byte that selects no field sends the loop to the field number read. */
  lemma {:induction false} HighStep(m: ProtoMessage, b: seq<byte>, pos: nat, inst: Instance)
    requires pos < |b| <= MAX_INT32 && SchemaFits(m) && InstanceFits(m, inst)
    requires LowField(m, b[pos]) == None
    ensures LoopStep(m, b, pos, inst, false) == FieldNumberStep(m, b, pos, inst, false)
  {
  }

  /** A key naming field `j` with its own wire type makes the field number read read that field. */
  lemma {:induction false} NumberStep(m: ProtoMessage, b: seq<byte>, pos: nat, inst: Instance, j: nat, start: nat)
    requires pos < |b| <= MAX_INT32 && SchemaFits(m) && InstanceFits(m, inst) && j < |m.fields|
    requires 0 < m.fields[j].id < 0x1_0000_0000
    requires WireFormat.ReadKeyAfter(b[pos], b, pos + 1)
      == Ok(Read(WireFormat.Key(m.fields[j].id, Code(FieldWire(m.fields[j]))), start))
    requires HighField(m, m.fields[j].id) == Some(j)
    requires start <= |b|
    ensures FieldNumberStep(m, b, pos, inst, false) == ReadField(m, j, b, start, inst, false)
  {
  }

  /** Reading a plain field stores the value read in its slot. */
  lemma {:induction false} ReadPlainSlot(m: ProtoMessage, j: nat, b: seq<byte>, inst: Instance, start: nat, v: Value, next: nat)
    requires SchemaFits(m) && InstanceFits(m, inst) && j < |m.fields| && PlainAt(m, j)
    requires start <= |b| <= MAX_INT32
    requires ReadElement(m, j, b, start, false) == Ok(Read(v, next))
    ensures ReadField(m, j, b, start, inst, false) == Ok(Read(inst.(slots := inst.slots[j := v]), next))
  {
    assert ReadField(m, j, b, start, inst, false) == ReadSingle(m, j, b, start, inst, false);
  }

  /**
   * What the writer puts out for field `j` of a plain schema, followed by
   * what it puts out for the fields after `j`: nothing when the field
   * holds its prepared value, else the key and the value.
   */
  lemma {:induction false} WrittenParts(m: ProtoMessage, x: Instance, j: nat, tail: seq<byte>)
    returns (skipped: bool, key: seq<byte>, e: seq<byte>, rest: seq<byte>)
    requires PlainSchema(m) && InstanceFits(m, x)
    requires j < |m.fields| && WriteFields(m, j, x, Full) == Ok(tail)
    ensures tail == key + e + rest && WriteFields(m, j + 1, x, Full) == Ok(rest)
    ensures ElementFits(m.fields[j], x.slots[j])
    ensures skipped ==> key == [] && e == [] && WriteField(m, j, x, Full) == Ok([])
    ensures !skipped ==>
      key == WireFormat.KeyBytes(KeyOf(m, j))
      && Element(m.fields[j], x.slots[j], Full) == Ok(e)
  {
    assert PlainAt(m, j);
    PlainFieldWritten(m, j, x);
    var a := WriteField(m, j, x, Full).value;
    PlainFieldsWritten(m, j + 1, x);
    rest := WriteFields(m, j + 1, x, Full).value;
    assert tail == a + rest;
    var f := m.fields[j];
    assert PlainAt(m, j);
    WrittenField(m, j, x, a);
    skipped := a == [];
    if skipped {
      key, e := [], [];
    } else {
      FieldKeyOf(f, WireType(f.protoType));
      key := FieldKey(f, WireType(f.protoType));
      e := Element(f, x.slots[j], Full).value;
    }
  }

  /**
   * `Deserialize` of what `Serialize` wrote, into a new instance, gives the
   * instance back (with no preserved fields, as none are kept).
   */
  lemma {:induction false} SerializeThenDeserialize(m: ProtoMessage, x: Instance, enc: seq<byte>)
    requires PlainSchema(m) && SchemaFits(m) && InstanceFits(m, x)
    requires Serialize(m, x) == Ok(enc) && |enc| <= MAX_INT32
    ensures InstanceFits(m, ZeroInstance(m))
    ensures Deserialize(m, enc, 0, ZeroInstance(m), false) == Ok(Read(x.(preserved := None), |enc|))
  {
    ZeroInstanceFits(m);
    PrepareFits(m, ZeroInstance(m));
    var ready := Prepare(m, ZeroInstance(m));
    assert Between(m, x, 0, ready);
    PlainFieldsWritten(m, 0, x);
    assert enc == WriteFields(m, 0, x, Full).value;
    FieldsRoundTrip(m, x, 0, enc, 0, ready, enc);
  }
  // ---------------------------------------------------------------------
  // Beyond varint scalars: a value that ends the buffer

  /** `message Named { optional string s = 1; }` */
  function StringMessage(): ProtoMessage
  {
    var str := Builtin(StringType, LengthDelimited, "string");
    ProtoMessage("Named", "Named", DEFAULT_TYPE_OPTIONS.(optionType := Some("class")),
      Collection("Game"), "game", [NewField(Optional, "string", "s", "s", 1, str)], false)
  }

  /**
   * The string "a" is written as [10, 1, 97], and reading those bytes back
   * fails: the one-byte window of the payload ends exactly at the end of
   * the buffer, which `Bytes` refuses with its `>=` test.
   */
  lemma {:induction false} StringAtEndNotReadBack()
    ensures var m := StringMessage();
      var x := Instance([Str(Some([97]))], None);
      InstanceFits(m, x) && SchemaFits(m) && InstanceFits(m, ZeroInstance(m))
      && Serialize(m, x) == Ok([10, 1, 97])
      && Deserialize(m, [10, 1, 97], 0, ZeroInstance(m), false).Err?
  {
    StringWritten();
    StringNotRead();
  }

  /** The writer's bytes for the string "a" in field 1. */
  lemma {:induction false} StringWritten()
    ensures var m := StringMessage();
      var x := Instance([Str(Some([97]))], None);
      InstanceFits(m, x) && SchemaFits(m) && Serialize(m, x) == Ok([10, 1, 97])
  {
    var m := StringMessage();
    var x := Instance([Str(Some([97]))], None);
    var f := m.fields[0];
    assert WireFormat.Varint(1) == [1] && WireFormat.Varint(10) == [10];
    assert WireFormat.KeyCode(WireFormat.Key(Low32(1), Code(LengthDelimited))) == 10;
    assert FieldKey(f, WireType(f.protoType)) == [10];
    assert WireFormat.LengthPrefixed([97]) == [1, 97];
    assert f.protoType.Builtin? && f.protoType.builtin == StringType;
    assert Element(f, x.slots[0], Full) == Ok(WireFormat.LengthPrefixed([97]));
    assert [10] + [1, 97] == [10, 1, 97];
    assert Emit(m, 0, x.slots[0], Full) == Ok([10, 1, 97]);
    assert WriteField(m, 0, x, Full) == OptionalField(m, 0, x.slots[0], Full);
    assert WriteFields(m, 0, x, Full) == Ok([10, 1, 97] + []);
    var body := WriteFields(m, 0, x, Full).value;
    assert body == [10, 1, 97];
    assert Serialize(m, x) == Ok(body + []);
    assert body + [] == body;
  }

  /** Reading [10, 1, 97] into an empty instance of the same message stops with an error. */
  lemma {:induction false} StringNotRead()
    ensures var m := StringMessage();
      SchemaFits(m) && InstanceFits(m, ZeroInstance(m))
      && Deserialize(m, [10, 1, 97], 0, ZeroInstance(m), false).Err?
  {
    ZeroInstanceFits(StringMessage());
  }
}
