/**
 * The schema the generator works from: builtin, enum and message types,
 * their fields and options, and what the schema classes compute from them
 * (CodeGenerator/Proto/ProtoType.cs, ProtoBuiltin.cs, Field.cs,
 * ProtoMessage.cs).
 *
 * A schema is a value: a field holds its type, and a message type holds its
 * fields, so the types a message refers to form a finite tree.
 */
module Proto {
  import opened Common
  import WireFormat

  // ---------------------------------------------------------------------
  // Wire types and field rules

  /** The wire types a schema type can have (ProtocolParserKey.cs `Wire`). */
  datatype Wire = Varint | Fixed64 | LengthDelimited | Fixed32

  /** The number a key carries for the wire type. */
  function Code(w: Wire): WireFormat.WireCode
  {
    match w
    case Varint => WireFormat.VARINT
    case Fixed64 => WireFormat.FIXED64
    case LengthDelimited => WireFormat.LENGTH_DELIMITED
    case Fixed32 => WireFormat.FIXED32
  }

  /** The wire type a key's code names, if any. */
  function WireOf(c: WireFormat.WireCode): (r: Option<Wire>)
  {
    if c == WireFormat.VARINT then Some(Varint)
    else if c == WireFormat.FIXED64 then Some(Fixed64)
    else if c == WireFormat.LENGTH_DELIMITED then Some(LengthDelimited)
    else if c == WireFormat.FIXED32 then Some(Fixed32)
    else None
  }

  /** Codes and wire types correspond one to one. */
  lemma {:induction false} CodeRoundTrip(w: Wire, c: WireFormat.WireCode)
    ensures WireOf(Code(w)) == Some(w)
    ensures WireOf(c).Some? ==> Code(WireOf(c).value) == c
    ensures WireOf(c).None? <==> c !in {0, 1, 2, 5}
  {
  }

  datatype FieldRule = Required | Optional | Repeated

  // ---------------------------------------------------------------------
  // Builtin type names (ProtoBuiltin.cs)

  /**
   * The name a builtin type carries: one of ProtoBuiltin's constants, or
   * some other name (a builtin made for anything else, such as a group).
   */
  datatype BuiltinName =
    | DoubleType | FloatType | Int32Type | Int64Type | UInt32Type | UInt64Type
    | SInt32Type | SInt64Type | Fixed32Type | Fixed64Type | SFixed32Type | SFixed64Type
    | BoolType | StringType | BytesType
    | NetworkableIdType | ItemContainerIdType | ItemIdType
    | OtherName(text: string)

  /** The text of a builtin name, as the constants of ProtoBuiltin.cs spell it. */
  function BuiltinText(n: BuiltinName): string
  {
    match n
    case DoubleType => "double"
    case FloatType => "float"
    case Int32Type => "int32"
    case Int64Type => "int64"
    case UInt32Type => "uint32"
    case UInt64Type => "uint64"
    case SInt32Type => "sint32"
    case SInt64Type => "sint64"
    case Fixed32Type => "fixed32"
    case Fixed64Type => "fixed64"
    case SFixed32Type => "sfixed32"
    case SFixed64Type => "sfixed64"
    case BoolType => "bool"
    case StringType => "string"
    case BytesType => "bytes"
    case NetworkableIdType => "NetworkableId"
    case ItemContainerIdType => "ItemContainerId"
    case ItemIdType => "ItemId"
    case OtherName(text) => text
  }

  /** The three game identifier types, each a wrapper around a 64-bit value. */
  predicate IsIdName(name: BuiltinName)
  {
    name.NetworkableIdType? || name.ItemContainerIdType? || name.ItemIdType?
  }

  /**
   * `t.ProtoName == n`, for a builtin name `n`. Type references are
   * resolved to the builtin first, so only a builtin type carries such a name.
   */
  predicate IsBuiltin(t: ProtoType, n: BuiltinName)
  {
    t.Builtin? && t.builtin == n
  }

  // ---------------------------------------------------------------------
  // Types and their options

  /** The per-type options of ProtoType.cs. */
  datatype TypeOptions = TypeOptions(
    namespace: Option<string>,
    access: string,
    triggers: bool,
    external: bool,
    noPartials: bool,
    noInstancing: bool,
    deltaCompare: bool,
    optionType: Option<string>,
    baseClass: Option<string>)

  /** What the parameterless ProtoType constructor leaves in the options. */
  const DEFAULT_TYPE_OPTIONS: TypeOptions :=
    TypeOptions(None, "public", false, false, false, false, false, None, None)

  /**
   * Where a type is declared, for naming: a file-level collection with its
   * C# namespace, or a message with its own namespace option and C# type.
   */
  datatype Scope =
    | Collection(csNamespace: string)
    | Within(outer: Scope, namespace: Option<string>, csType: string)

  datatype EnumMember = EnumMember(name: string, value: int32)

  /**
   * A field's `default` option, as the value its text denotes: a number,
   * a bool, a string's UTF-8 bytes, a float's little-endian bytes, or the
   * name of an enum member.
   */
  datatype Literal =
    | LitInt(n: int)
    | LitBool(b: bool)
    | LitText(s: seq<byte>)
    | LitRaw(bits: seq<byte>)
    | LitMember(name: string)

  /** The per-field options of Field.cs. */
  datatype FieldOptions = FieldOptions(
    packed: bool,
    deprecated: bool,
    useReferences: bool,
    default: Option<Literal>,
    pooled: bool,
    uidClear: bool,
    access: string,
    codeType: Option<string>,
    external: bool,
    readOnly: bool)

  /** The initial values of Field.cs's option fields. */
  const DEFAULT_FIELD_OPTIONS: FieldOptions :=
    FieldOptions(false, false, true, None, false, false, "public", None, false, false)

  datatype ProtoType =
    | Builtin(builtin: BuiltinName, wire: Wire, csType: string)
    | Enum(name: string, csType: string, options: TypeOptions, scope: Scope, package: string,
           members: seq<EnumMember>)
    | Message(msg: ProtoMessage)

  datatype ProtoMessage = ProtoMessage(
    name: string,
    csType: string,
    options: TypeOptions,
    scope: Scope,
    package: string,
    fields: seq<Field>,
    preserveUnknown: bool)

  datatype Field = Field(
    rule: FieldRule,
    typeName: string,
    name: string,
    csName: string,
    id: int,
    options: FieldOptions,
    protoType: ProtoType)

  /** `ProtoName`. */
  function Name(t: ProtoType): string
  {
    match t
    case Builtin(name, _, _) => BuiltinText(name)
    case Enum(name, _, _, _, _, _) => name
    case Message(m) => m.name
  }

  /** The options a type carries; a builtin keeps the constructor's. */
  function Options(t: ProtoType): TypeOptions
  {
    match t
    case Builtin(_, _, _) => DEFAULT_TYPE_OPTIONS
    case Enum(_, _, o, _, _, _) => o
    case Message(m) => m.options
  }

  // ---------------------------------------------------------------------
  // Construction (ProtoType.cs:124-147, ProtoMessage.cs:57-61)

  /**
   * A message created under `parent` in `package`: both are required, and
   * the options start from the defaults with OptionType "class".
   */
  function NewMessage(parent: Option<Scope>, package: Option<string>, name: string, csType: string)
    : (r: Result<ProtoMessage>)
    ensures r.Err? <==> parent.None? || package.None?
    ensures r.Err? ==> r.error == ArgumentNull
    ensures r.Ok? ==> r.value.fields == [] && r.value.name == name && r.value.csType == csType
    ensures r.Ok? ==> r.value.scope == parent.value && r.value.package == package.value
    ensures r.Ok? ==> var o := r.value.options;
      o.namespace.None? && o.access == "public" && !o.triggers && !o.external
      && !o.noPartials && !o.noInstancing && o.optionType == Some("class")
  {
    if parent.None? || package.None? then Err(ArgumentNull)
    else Ok(ProtoMessage(name, csType, DEFAULT_TYPE_OPTIONS.(optionType := Some("class")),
                         parent.value, package.value, [], false))
  }

  /** An enum created under `parent` in `package`: the defaults, OptionType null. */
  function NewEnum(parent: Option<Scope>, package: Option<string>, name: string, csType: string)
    : (r: Result<ProtoType>)
    ensures r.Err? <==> parent.None? || package.None?
    ensures r.Err? ==> r.error == ArgumentNull
    ensures r.Ok? ==> r.value.Enum? && r.value.members == [] && Name(r.value) == name
    ensures r.Ok? ==> var o := Options(r.value);
      o.namespace.None? && o.access == "public" && !o.triggers && !o.external
      && !o.noPartials && !o.noInstancing && o.optionType.None?
  {
    if parent.None? || package.None? then Err(ArgumentNull)
    else Ok(Enum(name, csType, DEFAULT_TYPE_OPTIONS, parent.value, package.value, []))
  }

  /** A field as the parser creates it, before its options are read. */
  function NewField(rule: FieldRule, typeName: string, name: string, csName: string, id: int, t: ProtoType)
    : (f: Field)
    ensures !f.options.packed && !f.options.deprecated && !f.options.pooled && !f.options.uidClear
    ensures !f.options.external && !f.options.readOnly && f.options.useReferences
    ensures f.options.default.None? && f.options.codeType.None? && f.options.access == "public"
    ensures f.rule == rule && f.id == id && f.protoType == t && f.typeName == typeName && f.name == name
  {
    Field(rule, typeName, name, csName, id, DEFAULT_FIELD_OPTIONS, t)
  }

  // ---------------------------------------------------------------------
  // Naming (ProtoType.cs:30-55, ProtoBuiltin.cs:38-52, ProtoMessage.cs:27-55)

  /**
   * The C# namespace of a type declared in `parent` with namespace option
   * `ns`: the option if set; else the collection's namespace; else the
   * enclosing message's namespace and C# type joined by ".".
   */
  function NamespaceIn(ns: Option<string>, parent: Scope): string
    decreases parent
  {
    match ns
    case Some(n) => n
    case None =>
      match parent
      case Collection(c) => c
      case Within(outer, pns, pcs) => NamespaceIn(pns, outer) + "." + pcs
  }

  /** `FullCsType` from a namespace: "::" after "global", "." otherwise. */
  function Qualify(ns: string, csType: string): (r: string)
    ensures ns == "global" ==> r == ns + "::" + csType
    ensures ns != "global" ==> r == ns + "." + csType
  {
    if ns == "global" then ns + "::" + csType else ns + "." + csType
  }

  /** `CsNamespace`: a builtin has none and refuses to answer. */
  function CsNamespace(t: ProtoType): (r: Result<string>)
    ensures r.Err? <==> t.Builtin?
    ensures r.Err? ==> r.error == InvalidOperation
  {
    match t
    case Builtin(_, _, _) => Err(InvalidOperation)
    case Enum(_, _, o, scope, _, _) => Ok(NamespaceIn(o.namespace, scope))
    case Message(m) => Ok(NamespaceIn(m.options.namespace, m.scope))
  }

  function CsType(t: ProtoType): string
  {
    match t
    case Builtin(_, _, cs) => cs
    case Enum(_, cs, _, _, _, _) => cs
    case Message(m) => m.csType
  }

  /** `FullCsType`: a builtin's is its CsType; the others are qualified. */
  function FullCsType(t: ProtoType): (r: string)
    ensures t.Builtin? ==> r == CsType(t)
    ensures !t.Builtin? ==> r == Qualify(CsNamespace(t).value, CsType(t))
  {
    match CsNamespace(t)
    case Err(_) => CsType(t)
    case Ok(ns) => Qualify(ns, CsType(t))
  }

  /** Setting `CsType`: a builtin's cannot be reassigned. */
  function SetCsType(t: ProtoType, cs: string): (r: Result<ProtoType>)
    ensures r.Err? <==> t.Builtin?
    ensures r.Ok? ==> CsType(r.value) == cs && Name(r.value) == Name(t)
  {
    match t
    case Builtin(_, _, _) => Err(InvalidOperation)
    case Enum(n, _, o, s, p, ms) => Ok(Enum(n, cs, o, s, p, ms))
    case Message(m) => Ok(Message(m.(csType := cs)))
  }

  /**
   * A type declared inside a message without namespace options is named
   * after that message: its namespace is the message's full C# type, unless
   * the message sits in the "global" namespace, where the message is named
   * with "::" but the nested namespace is joined with ".".
   */
  lemma {:induction false} NestedNamespace(outer: Scope, pns: Option<string>, pcs: string)
    ensures var parentNs := NamespaceIn(pns, outer);
      var nested := NamespaceIn(None, Within(outer, pns, pcs));
      (parentNs != "global" ==> nested == Qualify(parentNs, pcs))
      && (parentNs == "global" ==> nested == "global." + pcs && nested != Qualify(parentNs, pcs))
  {
    var parentNs := NamespaceIn(pns, outer);
    if parentNs == "global" {
      assert ("global." + pcs)[6] == '.';
      assert Qualify(parentNs, pcs)[6] == ':';
    }
  }

  /** `SerializerType`: interfaces and no-partials types get a separate "Serialized" class. */
  function SerializerType(m: ProtoMessage): (r: string)
    ensures SeparateSerializer(m) <==> r == m.csType + "Serialized"
    ensures !SeparateSerializer(m) ==> r == m.csType
  {
    if SeparateSerializer(m) then m.csType + "Serialized" else m.csType
  }

  function FullSerializerType(m: ProtoMessage): (r: string)
    ensures SeparateSerializer(m) ==> r == FullCsType(Message(m)) + "Serialized"
    ensures !SeparateSerializer(m) ==> r == FullCsType(Message(m))
  {
    if SeparateSerializer(m) then FullCsType(Message(m)) + "Serialized" else FullCsType(Message(m))
  }

  predicate SeparateSerializer(m: ProtoMessage)
  {
    m.options.optionType == Some("interface") || m.options.noPartials
  }

  // ---------------------------------------------------------------------
  // Shape (ProtoType.cs:149-199, ProtoBuiltin.cs:54-101, ProtoMessage.cs:8-11)

  /** `WireType`: fixed for a builtin, Varint for an enum, LengthDelimited for a message. */
  function WireType(t: ProtoType): Wire
  {
    match t
    case Builtin(_, w, _) => w
    case Enum(_, _, _, _, _, _) => Varint
    case Message(_) => LengthDelimited
  }

  /** `Nullable`: the C# type of the value is a reference type. */
  predicate Nullable(t: ProtoType)
  {
    IsBuiltin(t, StringType) || IsBuiltin(t, BytesType)
    || (t.Message? && Options(t).optionType in {Some("class"), Some("interface")})
  }

  /** A new message is a class, so its values can be null. */
  lemma {:induction false} NewMessageIsNullable(parent: Option<Scope>, package: Option<string>, name: string, csType: string)
    requires NewMessage(parent, package, name, csType).Ok?
    ensures Nullable(Message(NewMessage(parent, package, name, csType).value))
  {
  }

  /** A struct message is never null. */
  lemma {:induction false} StructNotNullable(m: ProtoMessage)
    requires m.options.optionType == Some("struct")
    ensures !Nullable(Message(m))
  {
  }

  /** ProtoType's `WireSize`: the fixed widths, -1 for the others. */
  function BaseWireSize(w: Wire): (r: int)
    ensures r == 4 <==> w == Fixed32
    ensures r == 8 <==> w == Fixed64
    ensures r == -1 <==> w in {Varint, LengthDelimited}
  {
    match w
    case Fixed32 => 4
    case Fixed64 => 8
    case Varint => -1
    case LengthDelimited => -1
  }

  /** ProtoType's `MaximumWireSize`: 4, 8, 10 bytes, or -1 for LengthDelimited. */
  function BaseMaximumWireSize(w: Wire): (r: int)
    ensures r == 4 <==> w == Fixed32
    ensures r == 8 <==> w == Fixed64
    ensures r == 10 <==> w == Varint
    ensures r == -1 <==> w == LengthDelimited
  {
    match w
    case Fixed32 => 4
    case Fixed64 => 8
    case Varint => 10
    case LengthDelimited => -1
  }

  /** ProtoBuiltin's `MaximumWireSize` table. */
  function BuiltinMaximumWireSize(name: BuiltinName, w: Wire): int
  {
    match name
    case BoolType => 1
    case SFixed32Type | Fixed32Type | FloatType => 4
    case SFixed64Type | Fixed64Type | DoubleType => 8
    case Int32Type | SInt32Type | UInt32Type => 5
    case Int64Type | SInt64Type | UInt64Type | NetworkableIdType | ItemContainerIdType | ItemIdType => 10
    case StringType | BytesType => 512 * 1024
    case OtherName(_) => BaseMaximumWireSize(w)
  }


  /**
   * `WireSize`: the constant encoded size of a value of the type, or -1.
   * A message's is the sum of 2 + WireSize over its fields' types, or -1
   * as soon as one of them is -1.
   */
  function WireSize(t: ProtoType): int
    decreases t, 1
  {
    match t
    case Builtin(name, w, _) => if name == BoolType then 1 else BaseWireSize(w)
    case Enum(_, _, _, _, _, _) => BaseWireSize(Varint)
    case Message(m) => FieldsWireSize(m, 0)
  }

  /** The message sum from field `i` on. */
  function FieldsWireSize(m: ProtoMessage, i: nat): int
    requires i <= |m.fields|
    decreases m, 0, |m.fields| - i
  {
    if i == |m.fields| then 0
    else
      var s := WireSize(m.fields[i].protoType);
      var rest := FieldsWireSize(m, i + 1);
      if s < 0 || rest < 0 then -1 else 2 + s + rest
  }

  /**
   * `MaximumWireSize` as written: a builtin's table entry, 10 for an enum,
   * and for a message the sum of 2 + the field bound (512000 for a repeated
   * field). The message sum gives up with -1 only on a bound below -1.
   */
  function MaximumWireSize(t: ProtoType): int
    decreases t, 1
  {
    match t
    case Builtin(name, w, _) => BuiltinMaximumWireSize(name, w)
    case Enum(_, _, _, _, _, _) => BaseMaximumWireSize(Varint)
    case Message(m) => FieldsMaximumWireSize(m, 0)
  }

  /** The bound ProtoMessage.cs:108-110 uses for one field. */
  function FieldBound(f: Field): int
    decreases f, 2
  {
    if f.rule != Repeated then MaximumWireSize(f.protoType) else 512_000
  }

  function FieldsMaximumWireSize(m: ProtoMessage, i: nat): int
    requires i <= |m.fields|
    decreases m, 0, |m.fields| - i
  {
    if i == |m.fields| then 0
    else if GuardFires(m, i) then -1
    else 2 + FieldBound(m.fields[i]) + FieldsMaximumWireSize(m, i + 1)
  }

  /** The `typeSize < -1` test fails for some field from `i` on. */
  predicate GuardFires(m: ProtoMessage, i: nat)
    requires i <= |m.fields|
    decreases m, 0, |m.fields| - i, 0
  {
    exists j :: i <= j < |m.fields| && FieldBound(m.fields[j]) < -1
  }

  /** Every type's bound is -1 or more. */
  lemma {:induction false} MaximumWireSizeAtLeastMinusOne(t: ProtoType)
    ensures MaximumWireSize(t) >= -1
    decreases t, 1
  {
    if t.Message? {
      FieldsBoundNonNegative(t.msg, 0);
    }
  }

  lemma {:induction false} FieldsBoundNonNegative(m: ProtoMessage, i: nat)
    requires i <= |m.fields|
    ensures !GuardFires(m, i)
    ensures FieldsMaximumWireSize(m, i) >= |m.fields| - i
    decreases m, 0, |m.fields| - i
  {
    if i < |m.fields| {
      forall j | i <= j < |m.fields|
        ensures FieldBound(m.fields[j]) >= -1
      {
        MaximumWireSizeAtLeastMinusOne(m.fields[j].protoType);
      }
      FieldsBoundNonNegative(m, i + 1);
    }
  }

  /**
   * The guard of ProtoMessage.cs:111 never fires: every field adds 2 + its
   * bound, so a field whose bound is -1 ("unbounded") adds 1, and a message
   * with such a field still gets a finite bound.
   */
  lemma {:induction false} UnboundedFieldIsSummed(m: ProtoMessage, i: nat)
    requires i < |m.fields| && m.fields[i].rule != Repeated && MaximumWireSize(m.fields[i].protoType) == -1
    ensures MaximumWireSize(Message(m)) >= |m.fields| >= 1
  {
    FieldsBoundNonNegative(m, 0);
  }

  /** A concrete message whose only field has an unbounded type, and the bound it gets. */
  lemma {:induction false} UnboundedFieldExample()
    ensures var t := Builtin(OtherName("group"), LengthDelimited, "object");
      var f := NewField(Optional, "group", "g", "g", 1, t);
      var m := ProtoMessage("M", "M", DEFAULT_TYPE_OPTIONS, Collection("N"), "p", [f], false);
      MaximumWireSize(t) == -1 && MaximumWireSize(Message(m)) == 1
  {
    var t := Builtin(OtherName("group"), LengthDelimited, "object");
    var f := NewField(Optional, "group", "g", "g", 1, t);
    var m := ProtoMessage("M", "M", DEFAULT_TYPE_OPTIONS, Collection("N"), "p", [f], false);
    assert !GuardFires(m, 0) by { FieldsBoundNonNegative(m, 0); }
    assert FieldsMaximumWireSize(m, 1) == 0;
  }

  /**
   * The wire type protocol buffers assign to a builtin, which is what the
   * parser's table of builtins hands to ProtoBuiltin's constructor (that
   * table is not part of this model). The game identifiers are 64-bit
   * varints; a builtin of any other name has no standard wire type.
   */
  predicate StandardWire(name: BuiltinName, w: Wire)
  {
    match name
    case DoubleType | Fixed64Type | SFixed64Type => w == Fixed64
    case FloatType | Fixed32Type | SFixed32Type => w == Fixed32
    case StringType | BytesType => w == LengthDelimited
    case OtherName(_) => false
    case _ => w == Varint
  }

  /** A constant-size builtin's values also respect its bound. */
  lemma {:induction false} BuiltinSizeWithinBound(name: BuiltinName, w: Wire, cs: string)
    requires StandardWire(name, w) && WireSize(Builtin(name, w, cs)) >= 0
    ensures WireSize(Builtin(name, w, cs)) == MaximumWireSize(Builtin(name, w, cs))
  {
  }

  // ---------------------------------------------------------------------
  // Fields (Field.cs:52-62, 95-103, 112-115; ProtoMessage.cs:68-77)

  /** Field's `WireType`: a packed field is always LengthDelimited. */
  function FieldWire(f: Field): (w: Wire)
    ensures f.options.packed ==> w == LengthDelimited
    ensures !f.options.packed ==> w == WireType(f.protoType)
  {
    if f.options.packed then LengthDelimited else WireType(f.protoType)
  }

  /** Field's `IsUsingBinaryWriter`: the type is a fixed-width one. */
  predicate UsesBinaryWriter(f: Field)
  {
    WireType(f.protoType) == Fixed32 || WireType(f.protoType) == Fixed64
  }

  /** Only builtins are fixed-width, and those have a constant size. */
  lemma {:induction false} BinaryWriterHasConstantSize(f: Field)
    requires UsesBinaryWriter(f)
    ensures f.protoType.Builtin? && WireSize(f.protoType) >= 1
  {
  }

  function RuleName(r: FieldRule): string
  {
    match r
    case Required => "Required"
    case Optional => "Optional"
    case Repeated => "Repeated"
  }

  /** Field's `ToString`: "{Rule} {ProtoTypeName} {ProtoName} = {ID}". */
  function FieldText(f: Field): (s: string)
  {
    RuleName(f.rule) + " " + f.typeName + " " + f.name + " = " + Decimal(f.id)
  }

  /** The text ends with the id, which can be read back from it. */
  lemma {:induction false} FieldTextEndsWithId(f: Field)
    ensures var head := RuleName(f.rule) + " " + f.typeName + " " + f.name + " = ";
      |FieldText(f)| > |head| && FieldText(f)[..|head|] == head
      && ParseDecimal(FieldText(f)[|head|..]) == f.id
  {
    var head := RuleName(f.rule) + " " + f.typeName + " " + f.name + " = ";
    assert FieldText(f) == head + Decimal(f.id);
    assert FieldText(f)[|head|..] == Decimal(f.id);
    DecimalRoundTrip(f.id);
  }

  function DigitChar(d: nat): char
    requires d < 10
  {
    "0123456789"[d]
  }

  /** `int.ToString()`: decimal digits, with "-" in front of a negative number. */
  function Decimal(n: int): (s: string)
    ensures |s| > 0
  {
    if n < 0 then "-" + Digits(-n) else Digits(n)
  }

  function Digits(n: nat): (s: string)
    ensures |s| > 0
    decreases n
  {
    if n < 10 then [DigitChar(n)] else Digits(n / 10) + [DigitChar(n % 10)]
  }

  predicate IsDigit(c: char)
  {
    '0' <= c <= '9'
  }

  function ParseDigits(s: string): nat
    requires forall i :: 0 <= i < |s| ==> IsDigit(s[i])
  {
    if |s| == 0 then 0
    else
      assert IsDigit(s[|s| - 1]);
      10 * ParseDigits(s[..|s| - 1]) + ((s[|s| - 1] as int) - ('0' as int))
  }

  /** Reads a decimal integer back; anything not a digit makes it 0. */
  function ParseDecimal(s: string): int
  {
    if |s| > 0 && s[0] == '-' then
      if forall i :: 1 <= i < |s| ==> IsDigit(s[i]) then -(ParseDigits(s[1..]) as int) else 0
    else if forall i :: 0 <= i < |s| ==> IsDigit(s[i]) then ParseDigits(s) else 0
  }

  lemma {:induction false} DigitsRoundTrip(n: nat)
    ensures forall i :: 0 <= i < |Digits(n)| ==> IsDigit(Digits(n)[i])
    ensures ParseDigits(Digits(n)) == n
    decreases n
  {
    if n >= 10 {
      DigitsRoundTrip(n / 10);
      var s := Digits(n);
      assert s[..|s| - 1] == Digits(n / 10);
    }
  }

  lemma {:induction false} DecimalRoundTrip(n: int)
    ensures ParseDecimal(Decimal(n)) == n
  {
    var s := Decimal(n);
    if n < 0 {
      var d := Digits(-n);
      DigitsRoundTrip(-n);
      assert s == "-" + d && s[1..] == d;
      forall i | 1 <= i < |s|
        ensures IsDigit(s[i])
      {
        assert s[i] == d[i - 1];
      }
      assert ParseDecimal(s) == -(ParseDigits(d) as int);
    } else {
      DigitsRoundTrip(n);
      assert IsDigit(s[0]);
    }
  }

  // ---------------------------------------------------------------------
  // The message object: its fields and its size cache

  /**
   * A ProtoMessage as the generator holds it: the schema it describes and
   * the `_maxWireSizeCache` field that `MaximumWireSize` fills in.
   */
  class MessageNode {
    const message: ProtoMessage
    var maxWireSizeCache: Option<int>

    /** A cached bound is the bound of the message. */
    ghost predicate Valid()
      reads this
    {
      maxWireSizeCache.Some? ==> maxWireSizeCache.value == MaximumWireSize(Message(message))
    }

    constructor (message: ProtoMessage)
      ensures Valid() && this.message == message && maxWireSizeCache.None?
    {
      this.message := message;
      maxWireSizeCache := None;
    }

    /** ProtoMessage's `WireSize`: the loop returns -1 at the first variable-size field. */
    method GetWireSize() returns (r: int)
      ensures r == WireSize(Message(message))
    {
      var fields := message.fields;
      var total := 0;
      var i := 0;
      while i < |fields|
        invariant 0 <= i <= |fields|
        invariant forall j :: 0 <= j < i ==> WireSize(fields[j].protoType) >= 0
        invariant FieldsWireSize(message, 0) == if FieldsWireSize(message, i) < 0 then -1 else total + FieldsWireSize(message, i)
      {
        var size := WireSize(fields[i].protoType);
        if size < 0 {
          return -1;
        }
        total := total + 2 + size;
        i := i + 1;
      }
      r := total;
    }

    /**
     * ProtoMessage's `MaximumWireSize`: the cached result if there is one,
     * otherwise the loop's sum, which is then cached.
     */
    method GetMaximumWireSize() returns (r: int)
      requires Valid()
      modifies this
      ensures Valid()
      ensures r == MaximumWireSize(Message(message))
      ensures old(maxWireSizeCache).Some? ==> r == old(maxWireSizeCache).value
      ensures maxWireSizeCache == Some(r)
    {
      if maxWireSizeCache.Some? {
        return maxWireSizeCache.value;
      }
      var fields := message.fields;
      var total := 0;
      var i := 0;
      while i < |fields|
        invariant 0 <= i <= |fields|
        invariant GuardFires(message, 0) <==> GuardFires(message, i)
        invariant !GuardFires(message, 0) ==> FieldsMaximumWireSize(message, 0) == total + FieldsMaximumWireSize(message, i)
      {
        var typeSize := if fields[i].rule != Repeated then MaximumWireSize(fields[i].protoType) else 512_000;
        if typeSize < -1 {
          total := -1;
          break;
        }
        total := total + 2 + typeSize;
        i := i + 1;
      }
      maxWireSizeCache := Some(total);
      r := total;
    }

    /** ProtoMessage's `IsUsingBinaryWriter`: some field uses the binary writer. */
    method GetIsUsingBinaryWriter() returns (r: bool)
      ensures r <==> exists f :: f in message.fields && UsesBinaryWriter(f)
    {
      var fields := message.fields;
      var i := 0;
      while i < |fields|
        invariant 0 <= i <= |fields|
        invariant forall j :: 0 <= j < i ==> !UsesBinaryWriter(fields[j])
      {
        if UsesBinaryWriter(fields[i]) {
          return true;
        }
        i := i + 1;
      }
      return false;
    }
  }
}
