/**
  Printing and parsing undo each other for every validated layout, exactly when nothing follows a
  field that takes the remaining bytes.
 */
module SchemaRoundTrip {
  import opened Wrappers
  import opened Bytes
  import opened Codec
  import opened PacketSchema

  // ---- Scalars ----

  lemma NumberRoundTrip(n: Number)
    ensures NumberFromBits(n.kind, NumberBits(n)) == n
  {
    Pow256Values();
  }

  lemma NumberBitsRoundTrip(kind: NumberKind, bits: nat)
    requires bits < Pow256(kind.Width())
    ensures NumberFromBits(kind, bits).kind == kind && NumberBits(NumberFromBits(kind, bits)) == bits
  {
    Pow256Values();
  }

  lemma ScalarRoundTrip(codec: FieldCodec, value: PacketValue, t: seq<byte>)
    requires IsScalar(codec) && EncodeScalar(codec, value).Success?
    ensures DecodeScalar(codec, EncodeScalar(codec, value).value + t) == Success(Parsed(value, t))
  {
    var b := EncodeScalar(codec, value).value;
    match codec
    case BoolCodec =>
      assert (b + t)[1..] == t;
    case NumberCodec(kind) =>
      UnsignedRoundTrip(NumberBits(value.n), kind.Width(), t);
      NumberRoundTrip(value.n);
    case VarIntCodec => VarIntRoundTrip(value.i, t);
    case VarLongCodec => VarLongRoundTrip(value.l, t);
    case StringCodec(limits) => StringRoundTrip(value.text, limits, t);
    case IdentifierCodec(limits) => StringRoundTrip(value.text, limits, t);
    case UuidCodec => assert (b + t)[..16] == b && (b + t)[16..] == t;
    case PositionCodec =>
      Pow256Values();
      UnsignedRoundTrip(ToPacked(value.position), 8, t);
      PackRoundTrip(value.position);
    case ByteArrayCodec(max) => ByteArrayRoundTrip(value.bytes, max, t);
    case FixedBytesCodec(length) => assert (b + t)[..length] == b && (b + t)[length..] == t;
    case BitSetCodec(words) => BitSetRoundTrip(value.bits, words, t);
    case EnumCodec(_) => VarIntRoundTrip(value.i, t);
  }

  lemma ScalarShortens(codec: FieldCodec, s: seq<byte>)
    requires IsScalar(codec) && DecodeScalar(codec, s).Success?
    ensures var p := DecodeScalar(codec, s).value;
      && EncodeScalar(codec, p.value).Success?
      && |EncodeScalar(codec, p.value).value| <= |s| - |p.rest|
  {
    match codec
    case BoolCodec =>
    case NumberCodec(kind) =>
      var bits := ParseUnsigned(s, kind.Width()).value.value;
      NumberBitsRoundTrip(kind, bits);
    case VarIntCodec => VarIntShortens(s);
    case VarLongCodec => VarLongShortens(s);
    case StringCodec(limits) => StringShortens(s, limits);
    case IdentifierCodec(limits) => StringShortens(s, limits);
    case UuidCodec =>
    case PositionCodec =>
      Pow256Values();
      PackOnto(ParseUnsigned(s, 8).value.value);
    case ByteArrayCodec(max) => ByteArrayShortens(s, max);
    case FixedBytesCodec(_) =>
    case BitSetCodec(words) => BitSetShortens(s, words);
    case EnumCodec(_) => VarIntShortens(s);
  }

  // ---- Values that print to nothing, and fields that take what is left ----

  /** The value prints to no bytes at all. */
  predicate Silent(codec: FieldCodec, value: PacketValue)
    decreases codec
  {
    match codec
    case FixedBytesCodec(length) => length == 0
    case RemainingBytesCodec(_) => value == BytesValue([])
    case StructCodec(fields) => value.StructValue? && SilentFields(fields, value.fields)
    case ConditionalCodec(_, _, inner) => value.Absent? || Silent(inner, value)
    case _ => false
  }

  predicate SilentFields(fields: seq<PacketField>, values: seq<NamedValue>)
    decreases fields
  {
    && |fields| == |values|
    && (fields == [] || (Silent(fields[0].codec, values[0].value) && SilentFields(fields[1..], values[1..])))
  }

  predicate SilentItems(element: FieldCodec, items: seq<PacketValue>) {
    items == [] || (Silent(element, items[0]) && SilentItems(element, items[1..]))
  }

  /**
    Nothing is printed after any field that takes the remaining bytes; `last` says that nothing is
    printed after this value.
   */
  predicate Closed(codec: FieldCodec, value: PacketValue, last: bool)
    decreases codec, 0
  {
    match codec
    case RemainingBytesCodec(_) => last
    case ListCodec(_, element) => value.ListValue? ==> ClosedItems(element, value.items, last)
    case OptionalCodec(inner) => value.OptionalValue? && value.content.Some? ==>
      Closed(inner, value.content.value, last)
    case StructCodec(fields) => value.StructValue? ==> ClosedFields(fields, value.fields, last)
    case ConditionalCodec(_, _, inner) => value.Absent? || Closed(inner, value, last)
    case _ => true
  }

  predicate ClosedItems(element: FieldCodec, items: seq<PacketValue>, last: bool)
    decreases element, |items|
  {
    items == [] ||
    (&& Closed(element, items[0], last && SilentItems(element, items[1..]))
     && ClosedItems(element, items[1..], last))
  }

  predicate ClosedFields(fields: seq<PacketField>, values: seq<NamedValue>, last: bool)
    decreases fields, 0
  {
    |fields| == |values| ==>
      fields == [] ||
      (&& Closed(fields[0].codec, values[0].value, last && SilentFields(fields[1..], values[1..]))
       && ClosedFields(fields[1..], values[1..], last))
  }

  lemma {:induction false} SilentValue(codec: FieldCodec, value: PacketValue, all: seq<NamedValue>, depth: nat)
    requires EncodeValue(codec, value, all, depth).Success?
    ensures Silent(codec, value) <==> EncodeValue(codec, value, all, depth).value == []
    decreases codec, 0
  {
    match codec
    case StructCodec(fields) => SilentLayout(fields, value.fields, value.fields, depth + 1);
    case ConditionalCodec(reference, equals, inner) =>
      if PriorBool(all, reference).value == equals {
        SilentValue(inner, value, [], depth + 1);
        if value.Absent? { AbsentOnlyConditional(inner, [], depth + 1); }
      }
    case _ =>
      if IsScalar(codec) { SilentScalar(codec, value); }
  }

  lemma SilentScalar(codec: FieldCodec, value: PacketValue)
    requires IsScalar(codec) && EncodeScalar(codec, value).Success?
    ensures EncodeScalar(codec, value).value == [] <==> codec == FixedBytesCodec(0)
  {
  }

  /** With no values to refer to, `Absent` prints under no codec. */
  lemma AbsentOnlyConditional(codec: FieldCodec, all: seq<NamedValue>, depth: nat)
    requires all == []
    ensures !EncodeValue(codec, Absent, all, depth).Success?
  {
  }

  lemma {:induction false} SilentLayout(fields: seq<PacketField>, values: seq<NamedValue>, all: seq<NamedValue>,
      depth: nat)
    requires |fields| == |values| && EncodeFields(fields, values, all, depth).Success?
    ensures SilentFields(fields, values) <==> EncodeFields(fields, values, all, depth).value == []
    decreases fields, 0
  {
    if fields != [] {
      SilentValue(fields[0].codec, values[0].value, all, depth + 1);
      SilentLayout(fields[1..], values[1..], all, depth);
    }
  }

  lemma {:induction false} SilentList(element: FieldCodec, items: seq<PacketValue>, depth: nat)
    requires EncodeItems(element, items, depth).Success?
    ensures SilentItems(element, items) <==> EncodeItems(element, items, depth).value == []
    decreases |items|
  {
    if items != [] {
      SilentValue(element, items[0], [], depth);
      SilentList(element, items[1..], depth);
    }
  }

  // ---- Conditions: what encoding looks up everywhere, decoding finds among earlier values ----

  predicate HasField(values: seq<NamedValue>, name: string) {
    exists i :: 0 <= i < |values| && values[i].name == name
  }

  lemma {:induction false} FindFieldPrefix(values: seq<NamedValue>, later: seq<NamedValue>, name: string)
    requires HasField(values, name)
    ensures FindField(values + later, name) == FindField(values, name)
  {
    assert (values + later)[0] == values[0];
    if values[0].name != name {
      assert (values + later)[1..] == values[1..] + later;
      var i :| 0 <= i < |values| && values[i].name == name;
      assert values[1..][i - 1].name == name;
      FindFieldPrefix(values[1..], later, name);
    }
  }

  predicate Covers(prior: seq<NamedValue>, bools: set<string>) {
    forall name :: name in bools ==> HasField(prior, name)
  }

  lemma CoversNext(prior: seq<NamedValue>, bools: set<string>, v: NamedValue, isBool: bool)
    requires Covers(prior, bools)
    ensures Covers(prior + [v], if isBool then bools + {v.name} else bools)
  {
    var next := prior + [v];
    forall name | name in (if isBool then bools + {v.name} else bools)
      ensures HasField(next, name)
    {
      if name == v.name {
        assert next[|prior|].name == name;
      } else {
        var i :| 0 <= i < |prior| && prior[i].name == name;
        assert next[i].name == name;
      }
    }
  }

  // ---- The round trip ----

  /** Decoding `s` gives `value` and leaves `t` when `exact`, and otherwise never gives `value`. */
  predicate Returns<T(==)>(decoded: Decoded<T>, value: T, t: seq<byte>, exact: bool) {
    if exact then decoded == Success(Parsed(value, t))
    else decoded.Success? ==> decoded.value.value != value
  }

  /**
    For every codec, value, condition context and suffix: what was printed parses back to the
    value and leaves the suffix, if the value is closed before that suffix; if it is not, parsing
    never gives the value back.
   */
  lemma {:induction false} ValueRoundTrip(codec: FieldCodec, value: PacketValue,
      all: seq<NamedValue>, prior: seq<NamedValue>, bools: set<string>, depth: nat, t: seq<byte>)
    requires EncodeValue(codec, value, all, depth).Success?
    requires ValidCodec(codec, depth, bools)
    requires prior <= all && Covers(prior, bools)
    ensures Returns(DecodeValue(codec, EncodeValue(codec, value, all, depth).value + t, prior, depth),
                    value, t, Closed(codec, value, t == []))
    decreases codec, 0
  {
    match codec
    case ListCodec(_, element) =>
      ItemsRoundTrip(element, value.items, depth + 1, t);
      ListStep(codec, value, all, prior, depth, t);
    case OptionalCodec(inner) =>
      if value.content.Some? {
        ValueRoundTrip(inner, value.content.value, [], [], {}, depth + 1, t);
      }
      OptionalStep(codec, value, all, prior, depth, t);
    case StructCodec(fields) =>
      FieldsRoundTrip(fields, value.fields, value.fields, [], {}, {}, depth + 1, t);
    case ConditionalCodec(reference, equals, inner) =>
      ConditionAgrees(all, prior, reference);
      if PriorBool(all, reference).value == equals {
        if value.Absent? { AbsentOnlyConditional(inner, [], depth + 1); }
        ValueRoundTrip(inner, value, [], [], {}, depth + 1, t);
      } else {
        assert [] + t == t;
      }
    case RemainingBytesCodec(_) =>
      assert t == [] ==> value.bytes + t == value.bytes;
      assert t != [] ==> |value.bytes + t| > |value.bytes|;
    case _ =>
      ScalarRoundTrip(codec, value, t);
  }

  lemma ConditionAgrees(all: seq<NamedValue>, prior: seq<NamedValue>, reference: string)
    requires prior <= all && HasField(prior, reference)
    ensures PriorBool(prior, reference) == PriorBool(all, reference)
  {
    FindFieldPrefix(prior, all[|prior|..], reference);
    assert all == prior + all[|prior|..];
  }

  lemma ListStep(codec: FieldCodec, value: PacketValue, all: seq<NamedValue>, prior: seq<NamedValue>, depth: nat,
      t: seq<byte>)
    requires codec.ListCodec? && EncodeValue(codec, value, all, depth).Success?
    requires var items := EncodeItems(codec.element, value.items, depth + 1).value;
      Returns(DecodeItems(codec.element, |value.items|, items + t, depth + 1), value.items, t,
              ClosedItems(codec.element, value.items, t == []))
    ensures Returns(DecodeValue(codec, EncodeValue(codec, value, all, depth).value + t, prior, depth),
                    value, t, Closed(codec, value, t == []))
  {
    var items := EncodeItems(codec.element, value.items, depth + 1).value;
    var count := PrintVarInt(|value.items|);
    assert (count + items) + t == count + (items + t);
    VarIntRoundTrip(|value.items|, items + t);
  }

  lemma OptionalStep(codec: FieldCodec, value: PacketValue, all: seq<NamedValue>, prior: seq<NamedValue>, depth: nat,
      t: seq<byte>)
    requires codec.OptionalCodec? && EncodeValue(codec, value, all, depth).Success?
    requires value.content.Some? ==>
      Returns(DecodeValue(codec.value, EncodeValue(codec.value, value.content.value, [], depth + 1).value + t, [],
        depth + 1),
              value.content.value, t, Closed(codec.value, value.content.value, t == []))
    ensures Returns(DecodeValue(codec, EncodeValue(codec, value, all, depth).value + t, prior, depth),
                    value, t, Closed(codec, value, t == []))
  {
    var b := EncodeValue(codec, value, all, depth).value;
    if value.content.Some? {
      var content := EncodeValue(codec.value, value.content.value, [], depth + 1).value;
      assert (b + t)[1..] == content + t;
    } else {
      assert (b + t)[1..] == t;
    }
  }

  lemma {:induction false} ItemsRoundTrip(element: FieldCodec, items: seq<PacketValue>, depth: nat, t: seq<byte>)
    requires EncodeItems(element, items, depth).Success?
    requires ValidCodec(element, depth, {})
    ensures Returns(DecodeItems(element, |items|, EncodeItems(element, items, depth).value + t, depth),
                    items, t, ClosedItems(element, items, t == []))
    decreases element, |items|
  {
    if items == [] {
      assert [] + t == t;
    } else {
      ValueRoundTrip(element, items[0], [], [], {}, depth, EncodeItems(element, items[1..], depth).value + t);
      ItemsRoundTrip(element, items[1..], depth, t);
      JoinItems(element, items, depth, t);
    }
  }

  /** An item that comes back, before items that come back. */
  lemma JoinItems(element: FieldCodec, items: seq<PacketValue>, depth: nat, t: seq<byte>)
    requires items != [] && EncodeItems(element, items, depth).Success?
    requires var head, rest := EncodeValue(element, items[0], [], depth).value,
      EncodeItems(element, items[1..], depth).value + t;
      && Returns(DecodeValue(element, head + rest, [], depth), items[0], rest, Closed(element, items[0], rest == []))
      && Returns(DecodeItems(element, |items[1..]|, rest, depth), items[1..], t,
                 ClosedItems(element, items[1..], t == []))
    ensures Returns(DecodeItems(element, |items|, EncodeItems(element, items, depth).value + t, depth),
                    items, t, ClosedItems(element, items, t == []))
  {
    var head, tail := EncodeValue(element, items[0], [], depth).value, EncodeItems(element, items[1..], depth).value;
    assert (head + tail) + t == head + (tail + t);
    ClosedCons(element, items, depth, t);
    ConsItems(element, items, depth, head + (tail + t), tail + t, t,
      Closed(element, items[0], tail + t == []), ClosedItems(element, items[1..], t == []));
  }

  lemma ClosedCons(element: FieldCodec, items: seq<PacketValue>, depth: nat, t: seq<byte>)
    requires items != [] && EncodeItems(element, items[1..], depth).Success?
    ensures var tail := EncodeItems(element, items[1..], depth).value;
      ClosedItems(element, items, t == [])
      == (Closed(element, items[0], tail + t == []) && ClosedItems(element, items[1..], t == []))
  {
    var tail := EncodeItems(element, items[1..], depth).value;
    SilentList(element, items[1..], depth);
    assert tail + t == [] <==> t == [] && tail == [];
  }

  lemma ConsItems(element: FieldCodec, items: seq<PacketValue>, depth: nat, s: seq<byte>, mid: seq<byte>, t: seq<byte>,
      headExact: bool, tailExact: bool)
    requires items != []
    requires Returns(DecodeValue(element, s, [], depth), items[0], mid, headExact)
    requires Returns(DecodeItems(element, |items| - 1, mid, depth), items[1..], t, tailExact)
    ensures Returns(DecodeItems(element, |items|, s, depth), items, t, headExact && tailExact)
  {
    assert items == [items[0]] + items[1..];
    SplitsUniquely(items);
  }

  lemma SplitsUniquely<T>(values: seq<T>)
    requires values != []
    ensures forall head, rest :: [head] + rest == values ==> head == values[0] && rest == values[1..]
  {
    forall head, rest | [head] + rest == values
      ensures head == values[0] && rest == values[1..]
    {
      assert ([head] + rest)[0] == head && ([head] + rest)[1..] == rest;
    }
  }

  lemma {:induction false} FieldsRoundTrip(fields: seq<PacketField>, values: seq<NamedValue>,
      all: seq<NamedValue>, prior: seq<NamedValue>, names: set<string>, bools: set<string>, depth: nat, t: seq<byte>)
    requires |fields| == |values| && EncodeFields(fields, values, all, depth).Success?
    requires ValidFields(fields, depth, names, bools)
    requires all == prior + values && Covers(prior, bools)
    ensures Returns(DecodeFields(fields, EncodeFields(fields, values, all, depth).value + t, prior, depth),
                    values, t, ClosedFields(fields, values, t == []))
    decreases fields, 0
  {
    if fields == [] {
      assert [] + t == t;
    } else {
      var head := EncodeValue(fields[0].codec, values[0].value, all, depth + 1).value;
      var tail := EncodeFields(fields[1..], values[1..], all, depth).value;
      assert (head + tail) + t == head + (tail + t);
      SilentLayout(fields[1..], values[1..], all, depth);
      ValueRoundTrip(fields[0].codec, values[0].value, all, prior, bools, depth + 1, tail + t);
      CoversNext(prior, bools, values[0], fields[0].codec.BoolCodec?);
      assert all == (prior + [values[0]]) + values[1..];
      FieldsRoundTrip(fields[1..], values[1..], all, prior + [values[0]], names + {fields[0].name},
        if fields[0].codec.BoolCodec? then bools + {fields[0].name} else bools, depth, t);
      assert values == [values[0]] + values[1..];
      SplitsUniquely(values);
    }
  }
}
