/**
 * What the emitted `CopyTo(instance)` and `Copy()` leave in the target
 * (MessageSerializer.cs, GenerateCopy): field by field, the value copied
 * from the source, or the exception raised.
 *
 * Two copies are taken in their corrected reading: a pooled segment is
 * copied from its `Offset` (the emitted code copies from index 0, see
 * PooledCopyAsWritten), and a struct list element is copied in full (the
 * emitted struct `Copy()` returns `default`, see StructCopyAsWritten). The
 * game identifier builtins are copied as values, where the emitted code
 * sends them to the class branch.
 *
 * Nested messages are values here, so copying into the target's existing
 * submessage object is copying into its value; that object keeps its own
 * `PreservedFields`, which CopyTo never touches.
 */
module Copying {
  import opened Common
  import opened Proto
  import opened Values

  // ---------------------------------------------------------------------
  // Pooled byte segments (MessageSerializer.cs:636-648)

  /**
   * The copy of a pooled segment: a rented buffer of `Count` bytes holding
   * the segment's bytes, offset 0 (the corrected reading, from `Offset`).
   */
  function PooledCopy(s: SegmentValue): (r: SegmentValue)
    requires SegmentValid(s)
    ensures SegmentValid(r) && r.offset == 0 && r.count == s.count
    ensures SegmentContent(r) == SegmentContent(s)
  {
    SegmentValue(SegmentContent(s), 0, s.count)
  }

  /**
   * The copy as written: `Array.Copy(Array, 0, buffer, 0, Count)` starts at
   * index 0 of the source array rather than at its `Offset`.
   */
  function PooledCopyAsWritten(s: SegmentValue): (r: SegmentValue)
    requires SegmentValid(s)
    ensures SegmentValid(r) && r.offset == 0 && r.count == s.count
    ensures SegmentContent(r) == s.data[..s.count]
  {
    SegmentValue(s.data[..s.count], 0, s.count)
  }

  /** A segment that does not start its array: the copy as written holds other bytes. */
  lemma {:induction false} PooledCopyAsWrittenShifts()
    ensures var s := SegmentValue([1, 2, 3], 1, 2);
      SegmentContent(s) == [2, 3] && SegmentContent(PooledCopyAsWritten(s)) == [1, 2]
  {
    var s := SegmentValue([1, 2, 3], 1, 2);
    assert s.data[1..3] == [2, 3];
    assert s.data[..2] == [1, 2];
  }

  /**
   * The two readings agree on a segment that starts its array, which is
   * every segment ReadPooledBytes returns.
   */
  lemma {:induction false} PooledCopyAgreesAtOffsetZero(s: SegmentValue)
    requires SegmentValid(s) && s.offset == 0
    ensures PooledCopyAsWritten(s) == PooledCopy(s)
  {
  }

  // ---------------------------------------------------------------------
  // Fields (MessageSerializer.cs:586-690)

  /**
   * One field's copy, for a field that is not repeated; `dst` is what the
   * target holds, which matters only for a class-typed message, copied into
   * the existing object or else into a new one (`Copy()`).
   */
  function CopyElement(f: Field, v: Value, dst: Value): (r: Result<Value>)
    requires ElementFits(f, v) && ElementFits(f, dst)
    decreases v, 1
  {
    match f.protoType
    case Builtin(name, _, _) =>
      if name == BytesType && f.options.pooled then
        (match v.segment
         case None => Ok(Pooled(None))
         case Some(s) => Ok(Pooled(Some(PooledCopy(s)))))
      else Ok(v)
    case Enum(_, _, _, _, _, _) => Ok(v)
    case Message(sub) =>
      if IsStruct(sub) then Ok(v)
      else
        match v.instance
        case None => Ok(Msg(None))
        case Some(x) =>
          var target := if dst.instance.Some? then dst.instance.value else ZeroInstance(sub);
          ZeroInstanceFits(sub);
          var c :- CopyInto(sub, x, target);
          Ok(Msg(Some(c)))
  }

  /**
   * One element of a repeated field: a message is `item.Copy()` (a null
   * element is a NullReferenceException), bytes are not implemented, and
   * anything else is the value itself.
   */
  function CopyItem(f: Field, item: Value): (r: Result<Value>)
    requires ElementFits(f, item)
    decreases item, 1
  {
    match f.protoType
    case Message(sub) =>
      (match item.instance
       case None => Err(NullReference)
       case Some(x) =>
         ZeroInstanceFits(sub);
         var c :- CopyInto(sub, x, ZeroInstance(sub));
         Ok(Msg(Some(c))))
    case Builtin(BytesType, _, _) => Err(NotImplemented)
    case _ => Ok(item)
  }

  /** The copies of the elements from `j` on, added one by one to the new list. */
  function CopyItems(f: Field, v: Value, j: nat): (r: Result<seq<Value>>)
    requires v.List? && j <= |v.items| && forall x :: x in v.items ==> ElementFits(f, x)
    ensures r.Ok? ==> |r.value| == |v.items| - j
    decreases v, 0, |v.items| - j
  {
    if j == |v.items| then Ok([])
    else
      assert v.items[j] in v.items;
      var c :- CopyItem(f, v.items[j]);
      var rest :- CopyItems(f, v, j + 1);
      Ok([c] + rest)
  }

  /** A field's copy: a repeated field gets a new list, or null for a null list. */
  function CopyField(f: Field, v: Value, dst: Value): (r: Result<Value>)
    requires Fits(f, v) && Fits(f, dst)
    decreases v, 2
  {
    if f.rule == Repeated then
      if v.NullList? then Ok(NullList)
      else
        var items :- CopyItems(f, v, 0);
        Ok(List(items))
    else CopyElement(f, v, dst)
  }

  /** The fields from `i` on, copied in declaration order. */
  function CopyFields(m: ProtoMessage, src: Instance, dst: Instance, i: nat): (r: Result<seq<Value>>)
    requires InstanceFits(m, src) && InstanceFits(m, dst) && i <= |m.fields|
    ensures r.Ok? ==> |r.value| == |m.fields| - i
    decreases src, 3, |m.fields| - i
  {
    if i == |m.fields| then Ok([])
    else
      var c :- CopyField(m.fields[i], src.slots[i], dst.slots[i]);
      var rest :- CopyFields(m, src, dst, i + 1);
      Ok([c] + rest)
  }

  /** `src.CopyTo(dst)`: every field copied; the target keeps its preserved fields. */
  function CopyInto(m: ProtoMessage, src: Instance, dst: Instance): (r: Result<Instance>)
    requires InstanceFits(m, src) && InstanceFits(m, dst)
    decreases src, 4
  {
    var slots :- CopyFields(m, src, dst, 0);
    Ok(Instance(slots, dst.preserved))
  }

  // ---------------------------------------------------------------------
  // What a copy holds

  /**
   * Two values hold the same content: equal, except that segments are
   * compared by the bytes they cover, and messages and lists element by
   * element (preserved fields aside).
   */
  predicate SameValue(a: Value, b: Value)
    decreases a, 1
  {
    a == b ||
    match a
    case Pooled(Some(s)) =>
      b.Pooled? && b.segment.Some? && SegmentValid(s) && SegmentValid(b.segment.value)
      && SegmentContent(s) == SegmentContent(b.segment.value)
    case Msg(Some(x)) => b.Msg? && b.instance.Some? && SameSlots(x.slots, b.instance.value.slots)
    case List(items) => b.List? && SameSlots(items, b.items)
    case _ => false
  }

  predicate SameSlots(xs: seq<Value>, ys: seq<Value>)
    decreases xs, 0
  {
    |xs| == |ys| && forall k :: 0 <= k < |xs| ==> SameValue(xs[k], ys[k])
  }

  /**
   * A successful copy fits the schema, holds the same content as the
   * source in every field, and keeps the target's preserved fields.
   */
  lemma {:induction false} CopyIntoSame(m: ProtoMessage, src: Instance, dst: Instance)
    requires InstanceFits(m, src) && InstanceFits(m, dst) && CopyInto(m, src, dst).Ok?
    ensures InstanceFits(m, CopyInto(m, src, dst).value)
    ensures SameSlots(src.slots, CopyInto(m, src, dst).value.slots)
    ensures CopyInto(m, src, dst).value.preserved == dst.preserved
    decreases src, 4
  {
    CopyFieldsSame(m, src, dst, 0);
    var s := CopyFields(m, src, dst, 0).value;
    assert CopyInto(m, src, dst).value == Instance(s, dst.preserved);
    forall k | 0 <= k < |m.fields|
      ensures Fits(m.fields[k], s[k]) && SameValue(src.slots[k], s[k])
    {
      assert s[k - 0] == s[k];
    }
  }

  lemma {:induction false} CopyFieldsSame(m: ProtoMessage, src: Instance, dst: Instance, i: nat)
    requires InstanceFits(m, src) && InstanceFits(m, dst) && i <= |m.fields|
    requires CopyFields(m, src, dst, i).Ok?
    ensures forall k :: i <= k < |m.fields| ==>
      Fits(m.fields[k], CopyFields(m, src, dst, i).value[k - i])
      && SameValue(src.slots[k], CopyFields(m, src, dst, i).value[k - i])
    decreases src, 3, |m.fields| - i
  {
    if i < |m.fields| {
      CopyFieldSame(m.fields[i], src.slots[i], dst.slots[i]);
      CopyFieldsSame(m, src, dst, i + 1);
    }
  }

  lemma {:induction false} CopyFieldSame(f: Field, v: Value, dst: Value)
    requires Fits(f, v) && Fits(f, dst) && CopyField(f, v, dst).Ok?
    ensures Fits(f, CopyField(f, v, dst).value) && SameValue(v, CopyField(f, v, dst).value)
    decreases v, 2
  {
    if f.rule == Repeated {
      if v.List? {
        CopyItemsSame(f, v, 0);
        var items := CopyItems(f, v, 0).value;
        assert v.items[0..] == v.items;
        forall x | x in items
          ensures ElementFits(f, x)
        {
          var k :| 0 <= k < |items| && items[k] == x;
        }
      }
    } else {
      CopyElementSame(f, v, dst);
    }
  }

  lemma {:induction false} CopyItemsSame(f: Field, v: Value, j: nat)
    requires v.List? && j <= |v.items| && forall x :: x in v.items ==> ElementFits(f, x)
    requires CopyItems(f, v, j).Ok?
    ensures forall k :: 0 <= k < |v.items| - j ==>
      ElementFits(f, CopyItems(f, v, j).value[k]) && SameValue(v.items[j + k], CopyItems(f, v, j).value[k])
    decreases v, 0, |v.items| - j
  {
    if j < |v.items| {
      assert v.items[j] in v.items;
      CopyItemSame(f, v.items[j]);
      CopyItemsSame(f, v, j + 1);
    }
  }

  lemma {:induction false} CopyItemSame(f: Field, item: Value)
    requires ElementFits(f, item) && CopyItem(f, item).Ok?
    ensures ElementFits(f, CopyItem(f, item).value) && SameValue(item, CopyItem(f, item).value)
    decreases item, 1
  {
    if f.protoType.Message? {
      var sub := f.protoType.msg;
      ZeroInstanceFits(sub);
      var c := CopyInto(sub, item.instance.value, ZeroInstance(sub)).value;
      assert CopyItem(f, item) == Ok(Msg(Some(c)));
      CopyIntoSame(sub, item.instance.value, ZeroInstance(sub));
    }
  }

  lemma {:induction false} CopyElementSame(f: Field, v: Value, dst: Value)
    requires ElementFits(f, v) && ElementFits(f, dst) && CopyElement(f, v, dst).Ok?
    ensures ElementFits(f, CopyElement(f, v, dst).value) && SameValue(v, CopyElement(f, v, dst).value)
    decreases v, 1
  {
    if f.protoType.Message? && !IsStruct(f.protoType.msg) && v.instance.Some? {
      var sub := f.protoType.msg;
      ZeroInstanceFits(sub);
      var target := if dst.instance.Some? then dst.instance.value else ZeroInstance(sub);
      var c := CopyInto(sub, v.instance.value, target).value;
      assert CopyElement(f, v, dst) == Ok(Msg(Some(c)));
      CopyIntoSame(sub, v.instance.value, target);
    }
  }

  /** Copying fails only on a null message element or a non-empty list of bytes. */
  lemma {:induction false} CopyItemsFailure(f: Field, v: Value)
    requires v.List? && forall x :: x in v.items ==> ElementFits(f, x)
    requires !f.protoType.Message?
    ensures CopyItems(f, v, 0).Err? <==> IsBuiltin(f.protoType, BytesType) && |v.items| > 0
    ensures CopyItems(f, v, 0).Err? ==> CopyItems(f, v, 0).error == NotImplemented
  {
    if |v.items| > 0 {
      assert v.items[0] in v.items;
      if !IsBuiltin(f.protoType, BytesType) {
        CopyItemsScalarOk(f, v, 0);
      } else {
        assert CopyItem(f, v.items[0]) == Err(NotImplemented);
      }
    }
  }

  lemma {:induction false} CopyItemsScalarOk(f: Field, v: Value, j: nat)
    requires v.List? && j <= |v.items| && forall x :: x in v.items ==> ElementFits(f, x)
    requires !f.protoType.Message? && !IsBuiltin(f.protoType, BytesType)
    ensures CopyItems(f, v, j) == Ok(v.items[j..])
    decreases |v.items| - j
  {
    if j < |v.items| {
      assert v.items[j] in v.items;
      assert CopyItem(f, v.items[j]) == Ok(v.items[j]);
      CopyItemsScalarOk(f, v, j + 1);
      assert v.items[j..] == [v.items[j]] + v.items[j + 1..];
      assert CopyItems(f, v, j) == Ok([v.items[j]] + v.items[j + 1..]);
    } else {
      assert v.items[j..] == [];
    }
  }

  // ---------------------------------------------------------------------
  // Struct elements (MessageSerializer.cs:592-596, 696-700)

  /**
   * `item.Copy()` as written, for a struct message type: GenerateCreateNew
   * makes `default(T)` and `CopyTo(newInstance)` receives a copy of that
   * struct, so the default is what Copy returns.
   */
  function StructCopyAsWritten(sub: ProtoMessage, x: Instance): (r: Instance)
    requires IsStruct(sub) && InstanceFits(sub, x)
    ensures InstanceFits(sub, r) && r.preserved.None?
  {
    ZeroInstanceFits(sub);
    ZeroInstance(sub)
  }

  function PointType(): ProtoType
  {
    var int32 := Builtin(Int32Type, Varint, "int");
    Message(ProtoMessage("Point", "Point", DEFAULT_TYPE_OPTIONS.(optionType := Some("struct")),
      Collection("Game"), "game", [NewField(Optional, "int32", "x", "x", 1, int32)], false))
  }

  /**
   * The element Point { x = 5 } of a repeated struct field: as written its
   * copy holds x = 0; the corrected CopyItem holds x = 5.
   */
  lemma {:induction false} StructElementCopyLost()
    ensures var f := NewField(Repeated, "Point", "points", "points", 1, PointType());
      var x := Instance([Int(5)], None);
      ElementFits(f, Msg(Some(x)))
      && !SameSlots(x.slots, StructCopyAsWritten(f.protoType.msg, x).slots)
      && CopyItem(f, Msg(Some(x))).Ok? && SameValue(Msg(Some(x)), CopyItem(f, Msg(Some(x))).value)
  {
    var f := NewField(Repeated, "Point", "points", "points", 1, PointType());
    var x := Instance([Int(5)], None);
    assert InstanceFits(f.protoType.msg, x);
    var z := StructCopyAsWritten(f.protoType.msg, x);
    assert z.slots == [Int(0)] by {
      assert ZeroSlots(f.protoType.msg, 0) == [Int(0)];
    }
    assert !SameValue(x.slots[0], z.slots[0]);
    ZeroInstanceFits(f.protoType.msg);
    var pm := f.protoType.msg;
    assert CopyField(pm.fields[0], x.slots[0], ZeroInstance(pm).slots[0]) == Ok(Int(5));
    assert CopyFields(f.protoType.msg, x, ZeroInstance(f.protoType.msg), 1) == Ok([]);
    assert CopyFields(pm, x, ZeroInstance(pm), 0) == Ok([Int(5)] + []);
    assert [Int(5)] + [] == [Int(5)];
    CopyItemSame(f, Msg(Some(x)));
  }
}
