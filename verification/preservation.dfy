/**
 * Unknown fields of a message with PreserveUnknown: the reader keeps each
 * record it has no field for as its key and its raw payload
 * (MessageSerializer.cs:285-290), and Serialize writes the kept records
 * back, key then payload, after the known fields (MessageSerializer.cs:531-537).
 * Without PreserveUnknown the record is skipped.
 */
module Preservation {
  import opened Common
  import opened Proto
  import opened Values
  import opened Writer
  import opened Decoding
  import WireFormat

  /** The preserved list, a null one read as empty. */
  function Kept(inst: Instance): seq<KeyValue>
  {
    if inst.preserved.Some? then inst.preserved.value else []
  }

  /** Concatenation regrouped. */
  lemma {:induction false} Regroup(a: seq<byte>, b: seq<byte>, c: seq<byte>)
    ensures a + b + c == a + (b + c)
  {
  }

  /** Writing one more kept record appends its key and payload. */
  lemma {:induction false} PreservedBytesAppend(kvs: seq<KeyValue>, kv: KeyValue)
    ensures PreservedBytes(kvs + [kv]) == PreservedBytes(kvs) + WireFormat.KeyBytes(kv.key) + kv.value
    decreases |kvs|
  {
    if kvs == [] {
      assert [] + [kv] == [kv] && [kv][1..] == [];
    } else {
      assert (kvs + [kv])[0] == kvs[0];
      assert (kvs + [kv])[1..] == kvs[1..] + [kv];
      PreservedBytesAppend(kvs[1..], kv);
    }
  }

  /**
   * One turn of the reader on a key that selects no field: the record up
   * to `e` is passed over and, with PreserveUnknown, appended to the kept
   * list as its key and the raw bytes after the key.
   */
  lemma {:induction false} UnknownFieldRead(m: ProtoMessage, b: seq<byte>, pos: nat, inst: Instance,
                                            k: Read<WireFormat.Key>, e: nat)
    requires pos < |b| <= MAX_INT32 && SchemaFits(m) && InstanceFits(m, inst)
    requires LowField(m, b[pos]).None?
    requires WireFormat.ReadKeyAfter(b[pos], b, pos + 1) == Ok(k)
    requires k.value.field != 0 && HighField(m, k.value.field).None?
    requires WireFormat.SkipKey(b, k.next, k.value) == Ok(e)
    ensures pos < k.next < e <= |b|
    ensures LoopStep(m, b, pos, inst, false)
            == Ok(Read(if m.preserveUnknown then Preserve(inst, KeyValue(k.value, b[k.next..e])) else inst, e))
  {
    assert LoopStep(m, b, pos, inst, false) == FieldNumberStep(m, b, pos, inst, false);
  }

  /**
   * A record kept from the bytes `b[pos..e]`, whose key `b[pos..next]` is
   * in its shortest form: the kept list then writes back as before
   * followed by exactly those bytes.
   */
  lemma {:induction false} KeptRecordBytes(b: seq<byte>, pos: nat, inst: Instance, k: Read<WireFormat.Key>, e: nat)
    requires pos <= k.next <= e <= |b| && b[pos..k.next] == WireFormat.KeyBytes(k.value)
    ensures PreservedBytes(Kept(Preserve(inst, KeyValue(k.value, b[k.next..e]))))
            == PreservedBytes(Kept(inst)) + b[pos..e]
  {
    PreservedBytesAppend(Kept(inst), KeyValue(k.value, b[k.next..e]));
    assert b[pos..e] == b[pos..k.next] + b[k.next..e];
    Regroup(PreservedBytes(Kept(inst)), b[pos..k.next], b[k.next..e]);
  }

  /**
   * Serialize writes the known fields, then, with PreserveUnknown, every
   * kept record in the order it was read.
   */
  lemma {:induction false} PreservedWrittenBack(m: ProtoMessage, x: Instance, body: seq<byte>)
    requires InstanceFits(m, x) && WriteFields(m, 0, x, Full) == Ok(body)
    ensures Serialize(m, x) == Ok(body + if m.preserveUnknown then PreservedBytes(Kept(x)) else [])
  {
    if !m.preserveUnknown || x.preserved.None? {
      assert PreservedBytes([]) == [];
    }
  }

  /** The field writers read the slots only: the kept records change nothing they write. */
  lemma {:induction false} FieldsIgnorePreserved(m: ProtoMessage, i: nat, x: Instance, y: Instance, mode: Mode)
    requires i <= |m.fields| && InstanceFits(m, x) && ModeFits(m, mode) && y.slots == x.slots
    ensures InstanceFits(m, y) && WriteFields(m, i, x, mode) == WriteFields(m, i, y, mode)
    decreases |m.fields| - i
  {
    if i < |m.fields| {
      assert WriteField(m, i, x, mode) == WriteField(m, i, y, mode);
      FieldsIgnorePreserved(m, i + 1, x, y, mode);
    }
  }

  /** SerializeDelta never writes the kept records. */
  lemma {:induction false} DeltaOmitsPreserved(m: ProtoMessage, x: Instance, previous: Option<Instance>)
    requires InstanceFits(m, x) && (previous.Some? ==> InstanceFits(m, previous.value))
    ensures InstanceFits(m, x.(preserved := None))
    ensures SerializeDelta(m, x, previous) == SerializeDelta(m, x.(preserved := None), previous)
  {
    FieldsIgnorePreserved(m, 0, x, x.(preserved := None), Delta(previous));
  }

  /**
   * A record the reader appends to the kept list comes back from Serialize
   * as its key and payload, after what the fields and the records kept
   * before it write. With UnknownFieldRead, a record read from a key in its
   * shortest form is written back as exactly the bytes that were read.
   */
  lemma {:induction false} KeptRecordWrittenBack(m: ProtoMessage, inst: Instance, kv: KeyValue, body: seq<byte>)
    requires InstanceFits(m, inst) && m.preserveUnknown && WriteFields(m, 0, inst, Full) == Ok(body)
    ensures InstanceFits(m, Preserve(inst, kv))
    ensures Serialize(m, Preserve(inst, kv))
            == Ok(body + PreservedBytes(Kept(inst)) + WireFormat.KeyBytes(kv.key) + kv.value)
  {
    var r := Preserve(inst, kv);
    FieldsIgnorePreserved(m, 0, inst, r, Full);
    PreservedWrittenBack(m, r, body);
    PreservedBytesAppend(Kept(inst), kv);
    var p, key := PreservedBytes(Kept(inst)), WireFormat.KeyBytes(kv.key);
    Regroup(body, p + key, kv.value);
    Regroup(body, p, key);
  }

  /**
   * A key read in a longer form than needed is kept as the key it stands
   * for and written back in its shortest form: [0x88, 0x00] reads as field
   * 1 with wire type 0, which is written back as [8].
   */
  lemma {:induction false} LongKeyWrittenShort()
    ensures WireFormat.ReadKeyAfter(0x88, [0x88, 0x00], 1) == Ok(Read(WireFormat.Key(1, 0), 2))
    ensures WireFormat.KeyBytes(WireFormat.Key(1, 0)) == [8]
  {
  }
}
