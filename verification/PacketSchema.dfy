/**
  Data-driven packet layouts (packet_schema.rs): the schema language, its validator, and what a
  schema prints and parses, as functions. `PacketCodec` holds the operations over a reader and a
  writer. The NBT constructors are not part of this model.
 */
module PacketSchema {
  import opened Wrappers
  import opened Bytes
  import opened Text
  import opened Codec

  const MAX_PACKET_SCHEMA_BYTES := 16 * 1024 * 1024
  const MAX_PACKETS := 4096
  const MAX_FIELDS_PER_PACKET := 256
  const MAX_FIELD_NESTING := 32
  const MAX_LIST_ITEMS := 1_048_576
  const MAX_ENUM_VALUES := 4096

  datatype NumberKind = NumI8 | NumU8 | NumI16 | NumU16 | NumI32 | NumU32 | NumI64 | NumU64 | BitsF32 | BitsF64 {
    function Width(): (w: nat) {
      match this
      case NumI8 | NumU8 => 1
      case NumI16 | NumU16 => 2
      case NumI32 | NumU32 | BitsF32 => 4
      case NumI64 | NumU64 | BitsF64 => 8
    }

    predicate Signed() {
      NumI8? || NumI16? || NumI32? || NumI64?
    }

    predicate Holds(value: int) {
      if Signed() then 0 <= 2 * value + Pow256(Width()) && 2 * value < Pow256(Width())
      else 0 <= value < Pow256(Width())
    }
  }

  datatype RawNumber = Number(kind: NumberKind, value: int)

  /** A fixed-width number together with its type; floats are held as their bits. */
  type Number = n: RawNumber | n.kind.Holds(n.value) witness Number(NumU8, 0)

  type Uuid = s: seq<byte> | |s| == 16 witness [0, 0, 0, 0, 0, 0, 0, 0, 0, 0, 0, 0, 0, 0, 0, 0]

  datatype FieldCodec =
    | BoolCodec
    | NumberCodec(kind: NumberKind)
    | VarIntCodec
    | VarLongCodec
    | StringCodec(limits: StringLimits)
    | IdentifierCodec(limits: StringLimits)
    | UuidCodec
    | PositionCodec
    | ByteArrayCodec(maxBytes: nat)
    | FixedBytesCodec(length: nat)
    | BitSetCodec(words: BitSetLimits)
    | ListCodec(maxItems: nat, element: FieldCodec)
    | OptionalCodec(value: FieldCodec)
    | EnumCodec(labels: map<i32, string>)
    | StructCodec(fields: seq<PacketField>)
    | ConditionalCodec(field: string, equals: bool, value: FieldCodec)
    | RemainingBytesCodec(maxBytes: nat)

  datatype PacketField = PacketField(name: string, codec: FieldCodec)

  datatype PacketValue =
    | BoolValue(b: bool)
    | NumberValue(n: Number)
    | VarIntValue(i: i32)
    | VarLongValue(l: i64)
    | StringValue(text: Utf8)
    | IdentifierValue(text: Utf8)
    | UuidValue(uuid: Uuid)
    | PositionValue(position: BlockPosition)
    | BytesValue(bytes: seq<byte>)
    | BitSetValue(bits: BitSet)
    | ListValue(items: seq<PacketValue>)
    | OptionalValue(content: Option<PacketValue>)
    | EnumValue(i: i32)
    | StructValue(fields: seq<NamedValue>)
    | Absent

  datatype NamedValue = NamedValue(name: string, value: PacketValue)

  datatype SchemaError =
    | UnsupportedSchemaVersion
    | InvalidSchema
    | NestingLimit
    | InvalidIdentifier
    | MissingCondition
    | ValueMismatch
    | TrailingBytes
    | UnknownPacket
    | UnsupportedPacket
    | CodecFailure(error: CodecError)

  type Decoded<+T> = Result<Parsed<T>, SchemaError>
  type Encoded = Result<seq<byte>, SchemaError>

  // ---- Validation ----

  predicate ValidFieldName(name: string) {
    && 0 < |name| <= 128
    && forall i :: 0 <= i < |name| ==> 'a' <= name[i] <= 'z' || '0' <= name[i] <= '9' || name[i] == '_'
  }

  predicate ValidStringLimits(limits: StringLimits) {
    limits.maxUtf16Units > 0 && 0 < limits.maxBytes <= MAX_PACKET_SCHEMA_BYTES
  }

  predicate ValidLabels(labels: map<i32, string>) {
    && 0 < |labels| <= MAX_ENUM_VALUES
    && (forall k :: k in labels ==> ValidFieldName(labels[k]))
    && (forall j, k :: j in labels && k in labels && labels[j] == labels[k] ==> j == k)
  }

  /** `names` and `bools` are the fields, and the bool fields, that come before `fields`. */
  predicate ValidFields(fields: seq<PacketField>, depth: nat, names: set<string>, bools: set<string>)
    decreases fields, 0
  {
    fields == [] ||
    var f := fields[0];
    && ValidFieldName(f.name)
    && f.name !in names
    && ValidCodec(f.codec, depth + 1, bools)
    && ValidFields(fields[1..], depth, names + {f.name}, if f.codec.BoolCodec? then bools + {f.name} else bools)
  }

  predicate ValidLayout(fields: seq<PacketField>, depth: nat)
    decreases fields, 1
  {
    && depth <= MAX_FIELD_NESTING
    && |fields| <= MAX_FIELDS_PER_PACKET
    && ValidFields(fields, depth, {}, {})
  }

  predicate ValidCodec(codec: FieldCodec, depth: nat, bools: set<string>)
    decreases codec, 0
  {
    && depth <= MAX_FIELD_NESTING
    && match codec
       case StringCodec(limits) => ValidStringLimits(limits)
       case IdentifierCodec(limits) => ValidStringLimits(limits)
       case ByteArrayCodec(max) => max <= MAX_PACKET_SCHEMA_BYTES
       case RemainingBytesCodec(max) => max <= MAX_PACKET_SCHEMA_BYTES
       case FixedBytesCodec(length) => length <= MAX_PACKET_SCHEMA_BYTES
       case BitSetCodec(w) => w.maxWords > 0 && w.maxBits > 0 && w.maxWords <= MAX_PACKET_SCHEMA_BYTES / 8
       case ListCodec(max, element) => max <= MAX_LIST_ITEMS && ValidCodec(element, depth + 1, {})
       case OptionalCodec(value) => ValidCodec(value, depth + 1, {})
       case EnumCodec(labels) => ValidLabels(labels)
       case StructCodec(fields) => ValidLayout(fields, depth + 1)
       case ConditionalCodec(field, _, value) => field in bools && ValidCodec(value, depth + 1, {})
       case _ => true
  }

  // ---- Conditions ----

  function FindField(values: seq<NamedValue>, name: string): Option<PacketValue> {
    if values == [] then None
    else if values[0].name == name then Some(values[0].value)
    else FindField(values[1..], name)
  }

  /** The first value of that name, which has to be a bool. */
  function PriorBool(values: seq<NamedValue>, name: string): Result<bool, SchemaError> {
    match FindField(values, name)
    case Some(BoolValue(b)) => Success(b)
    case _ => Failure(MissingCondition)
  }

  // ---- Scalars ----

  predicate IsScalar(codec: FieldCodec) {
    !(codec.ListCodec? || codec.OptionalCodec? || codec.StructCodec? || codec.ConditionalCodec?
      || codec.RemainingBytesCodec?)
  }

  function Lift<T>(parsed: Parse<T>, wrap: T -> PacketValue): Decoded<PacketValue> {
    match parsed
    case Success(p) => Success(Parsed(wrap(p.value), p.rest))
    case Failure(e) => Failure(CodecFailure(e))
  }

  function LiftPrint(printed: Print): Encoded {
    match printed
    case Success(b) => Success(b)
    case Failure(e) => Failure(CodecFailure(e))
  }

  function NumberFromBits(kind: NumberKind, bits: nat): (n: Number)
    requires bits < Pow256(kind.Width())
  {
    Number(kind, if kind.Signed() then Unwrap(bits, kind.Width()) else bits)
  }

  function NumberBits(n: Number): (bits: nat)
    ensures bits < Pow256(n.kind.Width())
  {
    Wrap(n.value, n.kind.Width())
  }

  function DecodeScalar(codec: FieldCodec, s: seq<byte>): Decoded<PacketValue>
    requires IsScalar(codec)
  {
    match codec
    case BoolCodec => Lift(ParseBool(s), b => BoolValue(b))
    case NumberCodec(kind) =>
      (match ParseUnsigned(s, kind.Width())
       case Success(p) => Success(Parsed(NumberValue(NumberFromBits(kind, p.value)), p.rest))
       case Failure(e) => Failure(CodecFailure(e)))
    case VarIntCodec => Lift(ParseVarInt(s), i => VarIntValue(i))
    case VarLongCodec => Lift(ParseVarLong(s), l => VarLongValue(l))
    case StringCodec(limits) => Lift(ParseString(s, limits), t => StringValue(t))
    case IdentifierCodec(limits) =>
      (match ParseString(s, limits)
       case Success(p) =>
         if IsIdentifier(p.value) then Success(Parsed(IdentifierValue(p.value), p.rest)) else Failure(InvalidIdentifier)
       case Failure(e) => Failure(CodecFailure(e)))
    case UuidCodec =>
      (match ParseBytes(s, 16)
       case Success(p) => Success(Parsed(UuidValue(p.value), p.rest))
       case Failure(e) => Failure(CodecFailure(e)))
    case PositionCodec => Lift(ParsePosition(s), p => PositionValue(p))
    case ByteArrayCodec(max) => Lift(ParseByteArray(s, max), b => BytesValue(b))
    case FixedBytesCodec(length) => Lift(ParseBytes(s, length), b => BytesValue(b))
    case BitSetCodec(words) => Lift(ParseBitSet(s, words), b => BitSetValue(b))
    case EnumCodec(labels) =>
      (match ParseVarInt(s)
       case Success(p) => if p.value in labels then Success(Parsed(EnumValue(p.value), p.rest))
         else Failure(ValueMismatch)
       case Failure(e) => Failure(CodecFailure(e)))
  }

  function EncodeScalar(codec: FieldCodec, value: PacketValue): Encoded
    requires IsScalar(codec)
  {
    match codec
    case BoolCodec => if value.BoolValue? then Success(PrintBool(value.b)) else Failure(ValueMismatch)
    case NumberCodec(kind) =>
      if value.NumberValue? && value.n.kind == kind then Success(ToBigEndian(NumberBits(value.n), kind.Width()))
      else Failure(ValueMismatch)
    case VarIntCodec => if value.VarIntValue? then Success(PrintVarInt(value.i)) else Failure(ValueMismatch)
    case VarLongCodec => if value.VarLongValue? then Success(PrintVarLong(value.l)) else Failure(ValueMismatch)
    case StringCodec(limits) =>
      if value.StringValue? then LiftPrint(PrintString(value.text, limits)) else Failure(ValueMismatch)
    case IdentifierCodec(limits) =>
      if !value.IdentifierValue? then Failure(ValueMismatch)
      else if !IsIdentifier(value.text) then Failure(InvalidIdentifier)
      else LiftPrint(PrintString(value.text, limits))
    case UuidCodec => if value.UuidValue? then Success(value.uuid) else Failure(ValueMismatch)
    case PositionCodec => if value.PositionValue? then LiftPrint(PrintPosition(value.position))
      else Failure(ValueMismatch)
    case ByteArrayCodec(max) =>
      if value.BytesValue? then LiftPrint(PrintByteArray(value.bytes, max)) else Failure(ValueMismatch)
    case FixedBytesCodec(length) =>
      if value.BytesValue? && |value.bytes| == length then Success(value.bytes) else Failure(ValueMismatch)
    case BitSetCodec(words) =>
      if value.BitSetValue? then LiftPrint(PrintBitSet(value.bits, words)) else Failure(ValueMismatch)
    case EnumCodec(labels) =>
      if value.EnumValue? && value.i in labels then Success(PrintVarInt(value.i)) else Failure(ValueMismatch)
  }

  // ---- Decoding ----

  function DecodeCount(s: seq<byte>, max: nat): Decoded<nat> {
    match ParseVarInt(s)
    case Failure(e) => Failure(CodecFailure(e))
    case Success(p) => if 0 <= p.value <= max then Success(Parsed(p.value, p.rest)) else Failure(ValueMismatch)
  }

  function DecodeValue(codec: FieldCodec, s: seq<byte>, prior: seq<NamedValue>, depth: nat): Decoded<PacketValue>
    decreases codec, 0
  {
    if depth > MAX_FIELD_NESTING then Failure(NestingLimit)
    else if IsScalar(codec) then DecodeScalar(codec, s)
    else
      match codec
      case ListCodec(max, element) =>
        var count :- DecodeCount(s, max);
        var items :- DecodeItems(element, count.value, count.rest, depth + 1);
        Success(Parsed(ListValue(items.value), items.rest))
      case OptionalCodec(inner) =>
        (match ParseBool(s)
         case Failure(e) => Failure(CodecFailure(e))
         case Success(p) =>
           if !p.value then Success(Parsed(OptionalValue(None), p.rest))
           else
             var v :- DecodeValue(inner, p.rest, [], depth + 1);
             Success(Parsed(OptionalValue(Some(v.value)), v.rest)))
      case StructCodec(fields) =>
        var values :- DecodeFields(fields, s, [], depth + 1);
        Success(Parsed(StructValue(values.value), values.rest))
      case ConditionalCodec(reference, equals, inner) =>
        var condition :- PriorBool(prior, reference);
        if condition == equals then DecodeValue(inner, s, [], depth + 1) else Success(Parsed(Absent, s))
      case RemainingBytesCodec(max) =>
        if |s| > max then Failure(ValueMismatch) else Success(Parsed(BytesValue(s), []))
  }

  function DecodeItems(element: FieldCodec, count: nat, s: seq<byte>, depth: nat): Decoded<seq<PacketValue>>
    decreases element, count
  {
    if count == 0 then Success(Parsed([], s))
    else
      var head :- DecodeValue(element, s, [], depth);
      var tail :- DecodeItems(element, count - 1, head.rest, depth);
      Success(Parsed([head.value] + tail.value, tail.rest))
  }

  /** The values of `fields`; `prior` holds the values already decoded in the same structure. */
  function DecodeFields(fields: seq<PacketField>, s: seq<byte>, prior: seq<NamedValue>,
      depth: nat): Decoded<seq<NamedValue>>
    decreases fields, 0
  {
    if fields == [] then Success(Parsed([], s))
    else
      var head :- DecodeValue(fields[0].codec, s, prior, depth + 1);
      var named := NamedValue(fields[0].name, head.value);
      var tail :- DecodeFields(fields[1..], head.rest, prior + [named], depth);
      Success(Parsed([named] + tail.value, tail.rest))
  }

  // ---- Encoding ----

  function EncodeCount(n: nat): Encoded {
    if n > I32_MAX then Failure(ValueMismatch) else Success(PrintVarInt(n))
  }

  function EncodeValue(codec: FieldCodec, value: PacketValue, all: seq<NamedValue>, depth: nat): Encoded
    decreases codec, 0
  {
    if depth > MAX_FIELD_NESTING then Failure(NestingLimit)
    else if IsScalar(codec) then EncodeScalar(codec, value)
    else
      match codec
      case ListCodec(max, element) =>
        if !value.ListValue? || |value.items| > max then Failure(ValueMismatch)
        else
          var count :- EncodeCount(|value.items|);
          var items :- EncodeItems(element, value.items, depth + 1);
          Success(count + items)
      case OptionalCodec(inner) =>
        if !value.OptionalValue? then Failure(ValueMismatch)
        else if value.content.None? then Success(PrintBool(false))
        else
          var content :- EncodeValue(inner, value.content.value, [], depth + 1);
          Success(PrintBool(true) + content)
      case StructCodec(fields) =>
        if !value.StructValue? then Failure(ValueMismatch)
        else EncodeLayout(fields, value.fields, depth + 1)
      case ConditionalCodec(reference, equals, inner) =>
        var condition :- PriorBool(all, reference);
        if condition == equals then EncodeValue(inner, value, [], depth + 1)
        else if value.Absent? then Success([])
        else Failure(ValueMismatch)
      case RemainingBytesCodec(max) =>
        if value.BytesValue? && |value.bytes| <= max then Success(value.bytes) else Failure(ValueMismatch)
  }

  function EncodeItems(element: FieldCodec, items: seq<PacketValue>, depth: nat): Encoded
    decreases element, |items|
  {
    if items == [] then Success([])
    else
      var head :- EncodeValue(element, items[0], [], depth);
      var tail :- EncodeItems(element, items[1..], depth);
      Success(head + tail)
  }

  /** Prints `values` against `fields`; `all` holds every value of the structure, later ones too. */
  function EncodeFields(fields: seq<PacketField>, values: seq<NamedValue>, all: seq<NamedValue>, depth: nat): Encoded
    requires |fields| == |values|
    decreases fields, 0
  {
    if fields == [] then Success([])
    else if fields[0].name != values[0].name then Failure(ValueMismatch)
    else
      var head :- EncodeValue(fields[0].codec, values[0].value, all, depth + 1);
      var tail :- EncodeFields(fields[1..], values[1..], all, depth);
      Success(head + tail)
  }

  function EncodeLayout(fields: seq<PacketField>, values: seq<NamedValue>, depth: nat): Encoded
    decreases fields, 1
  {
    if |fields| != |values| then Failure(ValueMismatch) else EncodeFields(fields, values, values, depth)
  }
}
