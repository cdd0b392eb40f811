/**
  The operations of packet_schema.rs over a reader and a writer, each proved against the function
  of module PacketSchema that says what it computes.
 */
module PacketCodec {
  import opened Wrappers
  import opened Bytes
  import opened Text
  import opened Codec
  import opened CodecIO
  import opened PacketSchema

  // ---- Validation ----

  method ValidateFields(fields: seq<PacketField>, depth: nat) returns (r: Result<(), SchemaError>)
    ensures r == if ValidLayout(fields, depth) then Success(()) else Failure(InvalidSchema)
    decreases fields, 1
  {
    if depth > MAX_FIELD_NESTING || |fields| > MAX_FIELDS_PER_PACKET {
      return Failure(InvalidSchema);
    }
    var names: set<string>, priorBools: set<string> := {}, {};
    for i := 0 to |fields|
      invariant ValidFields(fields, depth, {}, {}) == ValidFields(fields[i..], depth, names, priorBools)
    {
      var field := fields[i];
      assert fields[i..][0] == field && fields[i..][1..] == fields[i + 1..];
      if !ValidFieldName(field.name) || field.name in names {
        return Failure(InvalidSchema);
      }
      var _ :- ValidateCodec(field.codec, depth + 1, priorBools);
      names := names + {field.name};
      if field.codec == BoolCodec {
        priorBools := priorBools + {field.name};
      }
    }
    return Success(());
  }

  method ValidateCodec(codec: FieldCodec, depth: nat, priorBools: set<string>) returns (r: Result<(), SchemaError>)
    ensures r == if ValidCodec(codec, depth, priorBools) then Success(()) else Failure(InvalidSchema)
    decreases codec, 0
  {
    if depth > MAX_FIELD_NESTING {
      return Failure(InvalidSchema);
    }
    var accepted := true;
    match codec {
      case StringCodec(limits) => accepted := ValidStringLimits(limits);
      case IdentifierCodec(limits) => accepted := ValidStringLimits(limits);
      case ByteArrayCodec(max) => accepted := !(max > MAX_PACKET_SCHEMA_BYTES);
      case RemainingBytesCodec(max) => accepted := !(max > MAX_PACKET_SCHEMA_BYTES);
      case FixedBytesCodec(length) =>
        accepted := !(length > MAX_PACKET_SCHEMA_BYTES);
      case BitSetCodec(w) =>
        accepted := !(w.maxWords == 0 || w.maxBits == 0 || w.maxWords > MAX_PACKET_SCHEMA_BYTES / 8);
      case ListCodec(max, element) =>
        if max > MAX_LIST_ITEMS {
          return Failure(InvalidSchema);
        }
        r := ValidateCodec(element, depth + 1, {});
        return;
      case OptionalCodec(value) =>
        r := ValidateCodec(value, depth + 1, {});
        return;
      case EnumCodec(labels) =>
        accepted := ValidLabels(labels);
      case StructCodec(fields) =>
        r := ValidateFields(fields, depth + 1);
        return;
      case ConditionalCodec(field, _, value) =>
        if field !in priorBools {
          return Failure(InvalidSchema);
        }
        r := ValidateCodec(value, depth + 1, {});
        return;
      case _ =>
    }
    return if accepted then Success(()) else Failure(InvalidSchema);
  }

  // ---- Decoding ----

  /** `r` is the outcome `spec` prescribes, with `rest` left unread on success. */
  ghost predicate Decodes<T>(spec: Decoded<T>, r: Result<T, SchemaError>, rest: seq<byte>) {
    match spec
    case Success(p) => r == Success(p.value) && rest == p.rest
    case Failure(e) => r == Failure(e)
  }

  /** `spec` is what comes of `done` followed by what `rest` still decodes. */
  ghost predicate Follows<T>(spec: Decoded<seq<T>>, done: seq<T>, rest: Decoded<seq<T>>) {
    match rest
    case Success(p) => spec == Success(Parsed(done + p.value, p.rest))
    case Failure(e) => spec == Failure(e)
  }

  lemma FollowsNext<T>(spec: Decoded<seq<T>>, done: seq<T>, head: T, tail: Decoded<seq<T>>, rest: Decoded<seq<T>>)
    requires Follows(spec, done, rest)
    requires rest == match tail
                     case Success(p) => Success(Parsed([head] + p.value, p.rest))
                     case Failure(e) => Failure(e)
    ensures Follows(spec, done + [head], tail)
  {
    if tail.Success? { assert done + ([head] + tail.value.value) == (done + [head]) + tail.value.value; }
  }

  method ReadFields(fields: seq<PacketField>, reader: CodecReader, depth: nat)
      returns (r: Result<seq<NamedValue>, SchemaError>)
    requires reader.Valid()
    modifies reader
    ensures reader.Valid() && Decodes(DecodeFields(fields, old(reader.Unread()), [], depth), r, reader.Unread())
    decreases fields, 0
  {
    ghost var spec := DecodeFields(fields, reader.Unread(), [], depth);
    var values: seq<NamedValue> := [];
    assert spec.Success? ==> [] + spec.value.value == spec.value.value;
    assert fields[0..] == fields;
    for i := 0 to |fields|
      invariant reader.Valid()
      invariant Follows(spec, values, DecodeFields(fields[i..], reader.Unread(), values, depth))
    {
      var field := fields[i];
      ghost var here := DecodeFields(fields[i..], reader.Unread(), values, depth);
      assert fields[i..][0] == field && fields[i..][1..] == fields[i + 1..];
      var value :- ReadValue(field.codec, reader, values, depth + 1);
      var named := NamedValue(field.name, value);
      FollowsNext(spec, values, named, DecodeFields(fields[i + 1..], reader.Unread(), values + [named], depth), here);
      values := values + [named];
    }
    assert values + [] == values;
    return Success(values);
  }

  method ReadValue(codec: FieldCodec, reader: CodecReader, prior: seq<NamedValue>, depth: nat)
      returns (r: Result<PacketValue, SchemaError>)
    requires reader.Valid()
    modifies reader
    ensures reader.Valid() && Decodes(DecodeValue(codec, old(reader.Unread()), prior, depth), r, reader.Unread())
    decreases codec, 1
  {
    if depth > MAX_FIELD_NESTING {
      return Failure(NestingLimit);
    }
    match codec {
      case ListCodec(max, element) =>
        var count :- ReadCount(reader, max);
        var items :- ReadItems(element, count, reader, depth + 1);
        return Success(ListValue(items));
      case OptionalCodec(inner) =>
        var present := reader.ReadBool();
        if present.Failure? {
          return Failure(CodecFailure(present.error));
        }
        if !present.value {
          return Success(OptionalValue(None));
        }
        var value :- ReadValue(inner, reader, [], depth + 1);
        return Success(OptionalValue(Some(value)));
      case StructCodec(fields) =>
        var values :- ReadFields(fields, reader, depth + 1);
        return Success(StructValue(values));
      case ConditionalCodec(reference, equals, inner) =>
        var condition :- PriorBool(prior, reference);
        if condition != equals {
          return Success(Absent);
        }
        r := ReadValue(inner, reader, [], depth + 1);
      case RemainingBytesCodec(max) =>
        var remaining := reader.Remaining();
        if remaining > max {
          return Failure(ValueMismatch);
        }
        var bytes := reader.ReadRemaining();
        return Success(BytesValue(bytes));
      case _ =>
        r := ReadScalar(codec, reader);
    }
  }

  method ReadItems(element: FieldCodec, count: nat, reader: CodecReader, depth: nat)
      returns (r: Result<seq<PacketValue>, SchemaError>)
    requires reader.Valid()
    modifies reader
    ensures reader.Valid() && Decodes(DecodeItems(element, count, old(reader.Unread()), depth), r, reader.Unread())
    decreases element, 2
  {
    ghost var spec := DecodeItems(element, count, reader.Unread(), depth);
    var items: seq<PacketValue> := [];
    assert spec.Success? ==> [] + spec.value.value == spec.value.value;
    for i := 0 to count
      invariant reader.Valid()
      invariant Follows(spec, items, DecodeItems(element, count - i, reader.Unread(), depth))
    {
      ghost var here := DecodeItems(element, count - i, reader.Unread(), depth);
      var item :- ReadValue(element, reader, [], depth);
      FollowsNext(spec, items, item, DecodeItems(element, count - i - 1, reader.Unread(), depth), here);
      items := items + [item];
    }
    assert items + [] == items;
    return Success(items);
  }

  method ReadCount(reader: CodecReader, max: nat) returns (r: Result<nat, SchemaError>)
    requires reader.Valid()
    modifies reader
    ensures reader.Valid() && Decodes(DecodeCount(old(reader.Unread()), max), r, reader.Unread())
  {
    var value := reader.ReadVarInt();
    if value.Failure? {
      return Failure(CodecFailure(value.error));
    }
    if value.value < 0 || value.value > max {
      return Failure(ValueMismatch);
    }
    return Success(value.value);
  }

  function Wrap<T>(r: Result<T, CodecError>, wrap: T -> PacketValue): Result<PacketValue, SchemaError> {
    match r
    case Success(v) => Success(wrap(v))
    case Failure(e) => Failure(CodecFailure(e))
  }

  method ReadScalar(codec: FieldCodec, reader: CodecReader) returns (r: Result<PacketValue, SchemaError>)
    requires reader.Valid() && IsScalar(codec)
    modifies reader
    ensures reader.Valid() && Decodes(DecodeScalar(codec, old(reader.Unread())), r, reader.Unread())
  {
    match codec {
      case BoolCodec =>
        var v := reader.ReadBool();
        r := Wrap(v, b => BoolValue(b));
      case NumberCodec(kind) =>
        var v := reader.ReadUnsigned(kind.Width());
        r := if v.Success? then Success(NumberValue(NumberFromBits(kind, v.value))) else Failure(CodecFailure(v.error));
      case VarIntCodec =>
        var v := reader.ReadVarInt();
        r := Wrap(v, i => VarIntValue(i));
      case VarLongCodec =>
        var v := reader.ReadVarLong();
        r := Wrap(v, l => VarLongValue(l));
      case StringCodec(limits) =>
        var v := reader.ReadString(limits);
        r := Wrap(v, t => StringValue(t));
      case IdentifierCodec(limits) =>
        var v := reader.ReadString(limits);
        if v.Success? && !IsIdentifier(v.value) {
          return Failure(InvalidIdentifier);
        }
        r := Wrap(v, t => IdentifierValue(t));
      case UuidCodec =>
        var v := reader.ReadBytes(16);
        r := if v.Success? then Success(UuidValue(v.value)) else Failure(CodecFailure(v.error));
      case PositionCodec =>
        var v := reader.ReadBlockPosition();
        r := Wrap(v, p => PositionValue(p));
      case ByteArrayCodec(max) =>
        var v := reader.ReadByteArray(max);
        r := Wrap(v, b => BytesValue(b));
      case FixedBytesCodec(length) =>
        var v := reader.ReadBytes(length);
        r := Wrap(v, b => BytesValue(b));
      case BitSetCodec(words) =>
        var v := reader.ReadBitSet(words);
        r := Wrap(v, b => BitSetValue(b));
      case EnumCodec(labels) =>
        var v := reader.ReadVarInt();
        if v.Success? && v.value !in labels {
          return Failure(ValueMismatch);
        }
        r := Wrap(v, i => EnumValue(i));
    }
  }

  // ---- Encoding ----

  /** `r` and what was appended to `before` are as `spec` prescribes. */
  ghost predicate Encodes(spec: Encoded, r: Result<(), SchemaError>, before: seq<byte>, after: seq<byte>) {
    match spec
    case Success(bytes) => r == Success(()) && after == before + bytes
    case Failure(e) => r == Failure(e)
  }

  /** With `written` after `before`, what `rest` still prints completes `spec`. */
  ghost predicate Completes(spec: Encoded, before: seq<byte>, written: seq<byte>, rest: Encoded) {
    match rest
    case Success(bytes) => spec.Success? && before + spec.value == written + bytes
    case Failure(e) => spec == Failure(e)
  }

  lemma CompletesNext(spec: Encoded, before: seq<byte>, written: seq<byte>, head: seq<byte>, tail: Encoded,
      rest: Encoded)
    requires Completes(spec, before, written, rest)
    requires rest == match tail
                     case Success(bytes) => Success(head + bytes)
                     case Failure(e) => Failure(e)
    ensures Completes(spec, before, written + head, tail)
  {
    if tail.Success? { assert written + (head + tail.value) == (written + head) + tail.value; }
  }

  method WriteFields(fields: seq<PacketField>, values: seq<NamedValue>, writer: CodecWriter, depth: nat)
      returns (r: Result<(), SchemaError>)
    modifies writer
    ensures Encodes(EncodeLayout(fields, values, depth), r, old(writer.output), writer.output)
    decreases fields, 0
  {
    if |fields| != |values| {
      return Failure(ValueMismatch);
    }
    ghost var spec := EncodeFields(fields, values, values, depth);
    ghost var before := writer.output;
    assert fields[0..] == fields && values[0..] == values;
    for i := 0 to |fields|
      invariant Completes(spec, before, writer.output, EncodeFields(fields[i..], values[i..], values, depth))
    {
      var definition, value := fields[i], values[i];
      ghost var here := EncodeFields(fields[i..], values[i..], values, depth);
      ghost var written := writer.output;
      assert fields[i..][1..] == fields[i + 1..] && values[i..][1..] == values[i + 1..];
      if definition.name != value.name {
        return Failure(ValueMismatch);
      }
      var _ :- WriteValue(definition.codec, value.value, values, writer, depth + 1);
      CompletesNext(spec, before, written, EncodeValue(definition.codec, value.value, values, depth + 1).value,
        EncodeFields(fields[i + 1..], values[i + 1..], values, depth), here);
    }
    assert writer.output + [] == writer.output;
    return Success(());
  }

  method WriteValue(codec: FieldCodec, value: PacketValue, prior: seq<NamedValue>, writer: CodecWriter, depth: nat)
      returns (r: Result<(), SchemaError>)
    modifies writer
    ensures Encodes(EncodeValue(codec, value, prior, depth), r, old(writer.output), writer.output)
    decreases codec, 1
  {
    if depth > MAX_FIELD_NESTING {
      return Failure(NestingLimit);
    }
    ghost var before := writer.output;
    match codec {
      case ListCodec(max, element) =>
        if !value.ListValue? || |value.items| > max {
          return Failure(ValueMismatch);
        }
        if |value.items| > I32_MAX {
          return Failure(ValueMismatch);
        }
        writer.WriteVarInt(|value.items|);
        var _ :- WriteItems(element, value.items, writer, depth + 1);
        assert writer.output == before + EncodeValue(codec, value, prior, depth).value;
        return Success(());
      case OptionalCodec(inner) =>
        if !value.OptionalValue? {
          return Failure(ValueMismatch);
        }
        writer.WriteBool(value.content.Some?);
        if value.content.Some? {
          var _ :- WriteValue(inner, value.content.value, [], writer, depth + 1);
          assert writer.output == before + EncodeValue(codec, value, prior, depth).value;
        }
        return Success(());
      case StructCodec(fields) =>
        if !value.StructValue? {
          return Failure(ValueMismatch);
        }
        r := WriteFields(fields, value.fields, writer, depth + 1);
      case ConditionalCodec(reference, equals, inner) =>
        var condition :- PriorBool(prior, reference);
        if value.Absent? && condition != equals {
          return Success(());
        }
        if condition != equals {
          return Failure(ValueMismatch);
        }
        r := WriteValue(inner, value, [], writer, depth + 1);
      case RemainingBytesCodec(max) =>
        if !value.BytesValue? || |value.bytes| > max {
          return Failure(ValueMismatch);
        }
        writer.WriteBytes(value.bytes);
        return Success(());
      case _ =>
        r := WriteScalar(codec, value, writer);
    }
  }

  method WriteItems(element: FieldCodec, items: seq<PacketValue>, writer: CodecWriter, depth: nat)
      returns (r: Result<(), SchemaError>)
    modifies writer
    ensures Encodes(EncodeItems(element, items, depth), r, old(writer.output), writer.output)
    decreases element, 2
  {
    ghost var spec := EncodeItems(element, items, depth);
    ghost var before := writer.output;
    assert items[0..] == items;
    for i := 0 to |items|
      invariant Completes(spec, before, writer.output, EncodeItems(element, items[i..], depth))
    {
      ghost var here := EncodeItems(element, items[i..], depth);
      ghost var written := writer.output;
      assert items[i..][1..] == items[i + 1..];
      var _ :- WriteValue(element, items[i], [], writer, depth);
      CompletesNext(spec, before, written, EncodeValue(element, items[i], [], depth).value,
        EncodeItems(element, items[i + 1..], depth), here);
    }
    assert writer.output + [] == writer.output;
    return Success(());
  }

  function WrapError(r: Result<(), CodecError>): Result<(), SchemaError> {
    match r
    case Success(_) => Success(())
    case Failure(e) => Failure(CodecFailure(e))
  }

  method WriteScalar(codec: FieldCodec, value: PacketValue, writer: CodecWriter) returns (r: Result<(), SchemaError>)
    requires IsScalar(codec)
    modifies writer
    ensures Encodes(EncodeScalar(codec, value), r, old(writer.output), writer.output)
  {
    match (codec, value) {
      case (BoolCodec, BoolValue(b)) =>
        writer.WriteBool(b);
        r := Success(());
      case (NumberCodec(kind), NumberValue(n)) =>
        if n.kind != kind {
          return Failure(ValueMismatch);
        }
        writer.WriteUnsigned(NumberBits(n), kind.Width());
        r := Success(());
      case (VarIntCodec, VarIntValue(i)) =>
        writer.WriteVarInt(i);
        r := Success(());
      case (VarLongCodec, VarLongValue(l)) =>
        writer.WriteVarLong(l);
        r := Success(());
      case (StringCodec(limits), StringValue(text)) =>
        var w := writer.WriteString(text, limits);
        r := WrapError(w);
      case (IdentifierCodec(limits), IdentifierValue(text)) =>
        if !IsIdentifier(text) {
          return Failure(InvalidIdentifier);
        }
        var w := writer.WriteString(text, limits);
        r := WrapError(w);
      case (UuidCodec, UuidValue(uuid)) =>
        writer.WriteBytes(uuid);
        r := Success(());
      case (PositionCodec, PositionValue(p)) =>
        var w := writer.WriteBlockPosition(p);
        r := WrapError(w);
      case (ByteArrayCodec(max), BytesValue(bytes)) =>
        var w := writer.WriteByteArray(bytes, max);
        r := WrapError(w);
      case (FixedBytesCodec(length), BytesValue(bytes)) =>
        if |bytes| != length {
          return Failure(ValueMismatch);
        }
        writer.WriteBytes(bytes);
        r := Success(());
      case (BitSetCodec(words), BitSetValue(bits)) =>
        var w := writer.WriteBitSet(bits, words);
        r := WrapError(w);
      case (EnumCodec(labels), EnumValue(i)) =>
        if i !in labels {
          return Failure(ValueMismatch);
        }
        writer.WriteVarInt(i);
        r := Success(());
      case _ =>
        r := Failure(ValueMismatch);
    }
  }
}
