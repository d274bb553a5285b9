/**
 * The pooling life cycle of a generated class message
 * (MessageSerializer.cs, GenerateReset and GenerateCopy): `ResetToPool`,
 * `Dispose`, `EnterPool`, `LeavePool`, `CopyTo` and `Copy`.
 *
 * A generated class is an object whose fields those methods assign, so it
 * is a class here. Its submessages, lists and arrays are held by value;
 * `Facepunch.Pool` and `ArrayPool` are a fresh allocation on `Get`/`Rent`
 * and nothing on `Free`/`Return`.
 */
module Lifecycle {
  import opened Common
  import opened Proto
  import opened Values
  import opened Copying

  // ---------------------------------------------------------------------
  // Reset (MessageSerializer.cs:309-441)

  /**
   * The builtins ResetAndPoolField does not name: the game identifiers and
   * any other builtin. They have no OptionType, so its default branch sends
   * them to the class case, `if (X != null) { X.ResetToPool(); X = null; }`,
   * which has no meaning for the value such a field holds; the model keeps
   * the value.
   */
  predicate KeptByReset(t: ProtoType)
  {
    t.Builtin? && (IsIdName(t.builtin) || t.builtin.OtherName?)
  }

  /**
   * ResetAndPoolField: false, "" for a string, 0 for numbers and enums,
   * null bytes (a default segment when pooled), `default(T)` for a struct,
   * null for a class message (after resetting it), and a repeated field's
   * list freed to null.
   */
  function ResetValue(f: Field, v: Value): (r: Value)
  {
    if f.rule == Repeated then NullList
    else
      match f.protoType
      case Enum(_, _, _, _, _, _) => Int(0)
      case Message(sub) => if IsStruct(sub) then Msg(Some(ZeroInstance(sub))) else Msg(None)
      case Builtin(name, _, _) =>
        match name
        case BoolType => Bool(false)
        case StringType => Str(Some([]))
        case BytesType => if f.options.pooled then Pooled(None) else Bytes(None)
        case FloatType => Raw(Zeros(4))
        case DoubleType => Raw(Zeros(8))
        case NetworkableIdType | ItemContainerIdType | ItemIdType | OtherName(_) => v
        case _ => Int(0)
  }

  /** The fields of `inst` after `ResetToPool`; `PreservedFields` is not touched. */
  function ResetInstance(m: ProtoMessage, inst: Instance): (r: Instance)
    requires |inst.slots| == |m.fields|
    ensures |r.slots| == |m.fields| && r.preserved == inst.preserved
    ensures forall k :: 0 <= k < |m.fields| ==> r.slots[k] == ResetValue(m.fields[k], inst.slots[k])
  {
    Instance(seq(|m.fields|, k requires 0 <= k < |m.fields| => ResetValue(m.fields[k], inst.slots[k])), inst.preserved)
  }

  /** A reset instance is still an instance of the message. */
  lemma {:induction false} ResetFits(m: ProtoMessage, inst: Instance)
    requires InstanceFits(m, inst)
    ensures InstanceFits(m, ResetInstance(m, inst))
  {
    var r := ResetInstance(m, inst);
    forall k | 0 <= k < |m.fields|
      ensures Fits(m.fields[k], r.slots[k])
    {
      var f := m.fields[k];
      if f.rule != Repeated && f.protoType.Message? && IsStruct(f.protoType.msg) {
        ZeroInstanceFits(f.protoType.msg);
      }
    }
  }

  /** Resetting twice is resetting once. */
  lemma {:induction false} ResetIdempotent(m: ProtoMessage, inst: Instance)
    requires |inst.slots| == |m.fields|
    ensures ResetInstance(m, ResetInstance(m, inst)) == ResetInstance(m, inst)
  {
    var r := ResetInstance(m, inst);
    var rr := ResetInstance(m, r);
    assert rr.slots == r.slots by {
      forall k | 0 <= k < |m.fields|
        ensures rr.slots[k] == r.slots[k]
      {
        assert rr.slots[k] == ResetValue(m.fields[k], ResetValue(m.fields[k], inst.slots[k]));
      }
    }
  }

  /**
   * A reset instance holds what a new one holds, except that a string is
   * "" rather than null and the builtins reset does not name keep their
   * values; the reset does not depend on what the other fields held.
   */
  lemma {:induction false} ResetIsNew(m: ProtoMessage, inst: Instance)
    requires |inst.slots| == |m.fields|
    ensures forall k :: 0 <= k < |m.fields| ==>
      var f := m.fields[k];
      ResetInstance(m, inst).slots[k]
        == if f.rule != Repeated && IsBuiltin(f.protoType, StringType) then Str(Some([]))
           else if f.rule != Repeated && KeptByReset(f.protoType) then inst.slots[k]
           else ZeroInstance(m).slots[k]
  {
    var r := ResetInstance(m, inst);
    var z := ZeroInstance(m);
    forall k | 0 <= k < |m.fields|
      ensures var f := m.fields[k];
        r.slots[k] == if f.rule != Repeated && IsBuiltin(f.protoType, StringType) then Str(Some([]))
                      else if f.rule != Repeated && KeptByReset(f.protoType) then inst.slots[k]
                      else z.slots[k]
    {
      var f := m.fields[k];
      assert z.slots[k] == ZeroSlots(m, 0)[k] == ZeroValue(m.fields[0 + k]);
      if f.rule != Repeated {
        assert ZeroValue(f) == ZeroElement(f);
      }
    }
  }

  // ---------------------------------------------------------------------
  // The pooled object (MessageSerializer.cs:405-471)

  /** What the life-cycle methods read and write: the fields and the two flags. */
  datatype PoolState = PoolState(inst: Instance, shouldPool: bool, disposed: bool)

  /** `ResetToPool()`: nothing when ShouldPool is false. */
  function ResetToPoolStep(m: ProtoMessage, s: PoolState): (r: PoolState)
    requires |s.inst.slots| == |m.fields|
    ensures r.shouldPool == s.shouldPool && r.disposed == s.disposed
  {
    if s.shouldPool then s.(inst := ResetInstance(m, s.inst)) else s
  }

  /**
   * `Dispose()`: an exception when ShouldPool is false, nothing when already
   * disposed, otherwise a reset and the disposed mark.
   */
  function DisposeStep(m: ProtoMessage, s: PoolState): (r: (Outcome, PoolState))
    requires |s.inst.slots| == |m.fields|
  {
    if !s.shouldPool then (Fail(NotPooled), s)
    else if s.disposed then (Pass, s)
    else (Pass, ResetToPoolStep(m, s).(disposed := true))
  }

  /**
   * Dispose fails exactly when the object is not poolable, and otherwise
   * leaves it disposed and reset; a second Dispose does nothing more.
   */
  lemma {:induction false} DisposeOnce(m: ProtoMessage, s: PoolState)
    requires |s.inst.slots| == |m.fields|
    ensures DisposeStep(m, s).0 == Fail(NotPooled) <==> !s.shouldPool
    ensures s.shouldPool ==> DisposeStep(m, s).1.disposed
    ensures s.shouldPool ==> DisposeStep(m, s).1.inst == ResetInstance(m, s.inst) || s.disposed
    ensures DisposeStep(m, DisposeStep(m, s).1) == (DisposeStep(m, s).0, DisposeStep(m, s).1)
  {
  }

  /**
   * After LeavePool an object taken back out of the pool is reset again by
   * its next Dispose, which a disposed object in the pool would skip.
   */
  lemma {:induction false} LeavePoolRearmsDispose(m: ProtoMessage, s: PoolState)
    requires |s.inst.slots| == |m.fields| && s.shouldPool
    ensures DisposeStep(m, s.(disposed := false)).1.inst == ResetInstance(m, s.inst)
    ensures DisposeStep(m, s.(disposed := true)).1.inst == s.inst
  {
  }

  /** A generated class message (its values, `PreservedFields`, `ShouldPool`, `_disposed`). */
  class PooledMessage {
    const schema: ProtoMessage
    var slots: seq<Value>
    var preserved: Option<seq<KeyValue>>
    var shouldPool: bool
    var disposed: bool

    function Contents(): Instance
      reads this
    {
      Instance(slots, preserved)
    }

    function State(): PoolState
      reads this
    {
      PoolState(Contents(), shouldPool, disposed)
    }

    /** A class message the generator writes ResetToPool and Copy for, holding an instance of it. */
    predicate Valid()
      reads this
    {
      !IsStruct(schema) && !schema.options.external && InstanceFits(schema, Contents())
    }

    /** A new object, as `Pool.Get<T>()` hands out: every field at its default. */
    constructor (m: ProtoMessage)
      requires !IsStruct(m) && !m.options.external
      ensures Valid() && schema == m
      ensures State() == PoolState(ZeroInstance(m), true, false)
    {
      schema := m;
      slots := ZeroInstance(m).slots;
      preserved := None;
      shouldPool := true;
      disposed := false;
      ZeroInstanceFits(m);
    }

    /** `ResetToPool()`: each field reset in declaration order, unless ShouldPool is false. */
    method ResetToPool()
      requires Valid()
      modifies this
      ensures Valid() && State() == ResetToPoolStep(schema, old(State()))
    {
      ResetFits(schema, Contents());
      if !shouldPool {
        return;
      }
      var i := 0;
      while i < |schema.fields|
        invariant 0 <= i <= |schema.fields| && |slots| == |schema.fields|
        invariant slots[..i] == ResetInstance(schema, old(Contents())).slots[..i]
        invariant slots[i..] == old(slots)[i..]
        invariant preserved == old(preserved) && shouldPool && disposed == old(disposed)
      {
        slots := slots[i := ResetValue(schema.fields[i], slots[i])];
        i := i + 1;
      }
      assert slots == slots[..i];
    }

    /** `Dispose()`. */
    method Dispose() returns (r: Outcome)
      requires Valid()
      modifies this
      ensures Valid() && (r, State()) == DisposeStep(schema, old(State()))
    {
      if !shouldPool {
        return Fail(NotPooled);
      }
      if disposed {
        return Pass;
      }
      ResetToPool();
      disposed := true;
      r := Pass;
    }

    /** `EnterPool()`: marked disposed, so a Dispose while pooled does nothing. */
    method EnterPool()
      modifies this
      ensures State() == old(State()).(disposed := true)
    {
      disposed := true;
    }

    /** `LeavePool()`: ready to be disposed again. */
    method LeavePool()
      modifies this
      ensures State() == old(State()).(disposed := false)
    {
      disposed := false;
    }

    /**
     * `CopyTo(instance)`: every field of this object copied, then the
     * copies stored in `target`; its flags and preserved fields stay.
     */
    method CopyTo(target: PooledMessage) returns (r: Outcome)
      requires Valid() && target.Valid() && target != this && target.schema == schema
      modifies target
      ensures r.Pass? <==> CopyInto(schema, Contents(), old(target.Contents())).Ok?
      ensures r.Pass? ==> target.Valid() && target.Contents() == CopyInto(schema, Contents(), old(target.Contents())).value
      ensures r.Fail? ==> r.error == CopyInto(schema, Contents(), old(target.Contents())).error
      ensures target.shouldPool == old(target.shouldPool) && target.disposed == old(target.disposed)
    {
      var dst := target.Contents();
      var copies := CopySlots(schema, Contents(), dst);
      if copies.Err? {
        return Fail(copies.error);
      }
      CopyIntoSame(schema, Contents(), dst);
      target.slots := copies.value;
      r := Pass;
    }

    /** `Copy()`: a new object from the pool, this one copied into it. */
    method Copy() returns (r: Outcome, copy: PooledMessage)
      requires Valid()
      ensures fresh(copy) && copy.schema == schema && copy.shouldPool && !copy.disposed
      ensures ZeroInstanceFitsOf(schema) && (r.Pass? <==> CopyInto(schema, Contents(), ZeroInstance(schema)).Ok?)
      ensures r.Pass? ==> copy.Valid() && copy.Contents() == CopyInto(schema, Contents(), ZeroInstance(schema)).value
    {
      copy := new PooledMessage(schema);
      r := CopyTo(copy);
    }
  }

  /** The new object's contents are an instance of the message (for Copy's contract). */
  predicate ZeroInstanceFitsOf(m: ProtoMessage)
  {
    InstanceFits(m, ZeroInstance(m))
  }

  /** `prefix` in front of a result's values; a failure stays as it is. */
  function Prepend(prefix: seq<Value>, r: Result<seq<Value>>): Result<seq<Value>>
  {
    if r.Ok? then Ok(prefix + r.value) else r
  }

  lemma {:induction false} PrependNothing(r: Result<seq<Value>>)
    ensures Prepend([], r) == r
  {
    if r.Ok? {
      assert [] + r.value == r.value;
    }
  }

  lemma {:induction false} PrependStep(prefix: seq<Value>, c: Value, r: Result<seq<Value>>)
    ensures Prepend(prefix, if r.Ok? then Ok([c] + r.value) else r) == Prepend(prefix + [c], r)
  {
    if r.Ok? {
      assert prefix + ([c] + r.value) == (prefix + [c]) + r.value;
    }
  }

  /** One more field copied: its copy joins the prefix. */
  lemma {:induction false} CopyFieldsStep(m: ProtoMessage, src: Instance, dst: Instance, i: nat, prefix: seq<Value>, c: Value)
    requires InstanceFits(m, src) && InstanceFits(m, dst) && i < |m.fields|
    requires CopyField(m.fields[i], src.slots[i], dst.slots[i]) == Ok(c)
    ensures Prepend(prefix, CopyFields(m, src, dst, i)) == Prepend(prefix + [c], CopyFields(m, src, dst, i + 1))
  {
    PrependStep(prefix, c, CopyFields(m, src, dst, i + 1));
  }

  /** A field whose copy throws ends the whole copy with that exception. */
  lemma {:induction false} CopyFieldsFail(m: ProtoMessage, src: Instance, dst: Instance, i: nat, prefix: seq<Value>, e: Error)
    requires InstanceFits(m, src) && InstanceFits(m, dst) && i < |m.fields|
    requires CopyField(m.fields[i], src.slots[i], dst.slots[i]) == Err(e)
    ensures Prepend(prefix, CopyFields(m, src, dst, i)) == Err(e)
  {
  }

  /** A non-null repeated field is copied as a fresh list of its copied items. */
  lemma {:induction false} CopyFieldOfList(f: Field, v: Value, dst: Value)
    requires Fits(f, v) && Fits(f, dst) && f.rule == Repeated && v.List?
    ensures forall x :: x in v.items ==> ElementFits(f, x)
    ensures var r := CopyItems(f, List(v.items), 0);
      CopyField(f, v, dst) == if r.Ok? then Ok(List(r.value)) else Err(r.error)
  {
    assert List(v.items) == v;
  }

  /** The fields of `src` copied one by one, in declaration order, stopping at the first exception. */
  method CopySlots(m: ProtoMessage, src: Instance, dst: Instance) returns (r: Result<seq<Value>>)
    requires InstanceFits(m, src) && InstanceFits(m, dst)
    ensures r == CopyFields(m, src, dst, 0)
  {
    var copies: seq<Value> := [];
    var i := 0;
    PrependNothing(CopyFields(m, src, dst, 0));
    while i < |m.fields|
      invariant 0 <= i <= |m.fields| && |copies| == i
      invariant CopyFields(m, src, dst, 0) == Prepend(copies, CopyFields(m, src, dst, i))
    {
      var f := m.fields[i];
      var c: Result<Value>;
      if f.rule == Repeated && src.slots[i].List? {
        var items := CopyList(f, src.slots[i].items);
        CopyFieldOfList(f, src.slots[i], dst.slots[i]);
        c := if items.Ok? then Ok(List(items.value)) else Err(items.error);
      } else {
        c := CopyField(f, src.slots[i], dst.slots[i]);
      }
      if c.Err? {
        CopyFieldsFail(m, src, dst, i, copies, c.error);
        return Err(c.error);
      }
      CopyFieldsStep(m, src, dst, i, copies, c.value);
      copies := copies + [c.value];
      i := i + 1;
    }
    assert CopyFields(m, src, dst, i) == Ok([]);
    assert copies + [] == copies;
    r := Ok(copies);
  }

  /**
   * A new list filled element by element, as `foreach (item in this.X)
   * instance.X.Add(copy)`: the copies, or the first exception.
   */
  method CopyList(f: Field, items: seq<Value>) returns (r: Result<seq<Value>>)
    requires forall x :: x in items ==> ElementFits(f, x)
    ensures r == CopyItems(f, List(items), 0)
  {
    var list: seq<Value> := [];
    var j := 0;
    PrependNothing(CopyItems(f, List(items), 0));
    while j < |items|
      invariant 0 <= j <= |items| && |list| == j
      invariant CopyItems(f, List(items), 0) == Prepend(list, CopyItems(f, List(items), j))
    {
      assert items[j] in items;
      var c := CopyItem(f, items[j]);
      if c.Err? {
        return Err(c.error);
      }
      var rest := CopyItems(f, List(items), j + 1);
      assert CopyItems(f, List(items), j) == if rest.Ok? then Ok([c.value] + rest.value) else rest;
      PrependStep(list, c.value, rest);
      list := list + [c.value];
      j := j + 1;
    }
    assert CopyItems(f, List(items), j) == Ok([]);
    assert list + [] == list;
    r := Ok(list);
  }
}
