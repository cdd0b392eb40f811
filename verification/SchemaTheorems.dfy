/**
  What a validated layout guarantees: which values survive printing and parsing, that parsing
  normalises, and that the validator's promises about nesting and conditions hold at run time.
 */
module SchemaTheorems {
  import opened Wrappers
  import opened Bytes
  import opened Codec
  import opened PacketSchema
  import opened SchemaRoundTrip

  // ---- Round trip ----

  /** Printed values of a validated layout parse back to themselves if and only if they are closed. */
  lemma RoundTrip(fields: seq<PacketField>, values: seq<NamedValue>)
    requires ValidLayout(fields, 0) && EncodeLayout(fields, values, 0).Success?
    ensures DecodeFields(fields, EncodeLayout(fields, values, 0).value, [], 0) == Success(Parsed(values, []))
       <==> ClosedFields(fields, values, true)
  {
    FieldsRoundTrip(fields, values, values, [], {}, {}, 0, []);
    var b := EncodeLayout(fields, values, 0).value;
    assert b + [] == b;
  }

  predicate NoRemaining(codec: FieldCodec)
    decreases codec
  {
    match codec
    case RemainingBytesCodec(_) => false
    case ListCodec(_, element) => NoRemaining(element)
    case OptionalCodec(inner) => NoRemaining(inner)
    case ConditionalCodec(_, _, inner) => NoRemaining(inner)
    case StructCodec(fields) => forall i :: 0 <= i < |fields| ==> NoRemaining(fields[i].codec)
    case _ => true
  }

  /** `RemainingBytes` occurs in final position only, possibly inside a final nested field. */
  predicate TailOnly(codec: FieldCodec)
    decreases codec, 0
  {
    match codec
    case RemainingBytesCodec(_) => true
    case OptionalCodec(inner) => TailOnly(inner)
    case ConditionalCodec(_, _, inner) => TailOnly(inner)
    case StructCodec(fields) => TailOnlyFields(fields)
    case _ => NoRemaining(codec)
  }

  predicate TailOnlyFields(fields: seq<PacketField>)
    decreases fields, 0
  {
    fields == [] ||
    (if |fields| == 1 then TailOnly(fields[0].codec) else NoRemaining(fields[0].codec) && TailOnlyFields(fields[1..]))
  }

  lemma {:induction false} NoRemainingClosed(codec: FieldCodec, value: PacketValue, last: bool)
    requires NoRemaining(codec)
    ensures Closed(codec, value, last)
    decreases codec, 0
  {
    match codec
    case ListCodec(_, element) => if value.ListValue? { NoRemainingItems(element, value.items, last); }
    case OptionalCodec(inner) =>
      if value.OptionalValue? && value.content.Some? { NoRemainingClosed(inner, value.content.value, last); }
    case ConditionalCodec(_, _, inner) => NoRemainingClosed(inner, value, last);
    case StructCodec(fields) => if value.StructValue? { NoRemainingFields(fields, value.fields, last); }
    case _ =>
  }

  lemma {:induction false} NoRemainingItems(element: FieldCodec, items: seq<PacketValue>, last: bool)
    requires NoRemaining(element)
    ensures ClosedItems(element, items, last)
    decreases element, |items|
  {
    if items != [] {
      NoRemainingClosed(element, items[0], last && SilentItems(element, items[1..]));
      NoRemainingItems(element, items[1..], last);
    }
  }

  lemma {:induction false} NoRemainingFields(fields: seq<PacketField>, values: seq<NamedValue>, last: bool)
    requires forall i :: 0 <= i < |fields| ==> NoRemaining(fields[i].codec)
    ensures ClosedFields(fields, values, last)
    decreases fields, 0
  {
    if |fields| == |values| && fields != [] {
      NoRemainingClosed(fields[0].codec, values[0].value, last && SilentFields(fields[1..], values[1..]));
      NoRemainingFields(fields[1..], values[1..], last);
    }
  }

  lemma {:induction false} TailOnlyClosed(codec: FieldCodec, value: PacketValue)
    requires TailOnly(codec)
    ensures Closed(codec, value, true)
    decreases codec, 0
  {
    match codec
    case RemainingBytesCodec(_) =>
    case OptionalCodec(inner) =>
      if value.OptionalValue? && value.content.Some? { TailOnlyClosed(inner, value.content.value); }
    case ConditionalCodec(_, _, inner) => TailOnlyClosed(inner, value);
    case StructCodec(fields) => if value.StructValue? { TailOnlyFieldsClosed(fields, value.fields); }
    case _ => NoRemainingClosed(codec, value, true);
  }

  lemma {:induction false} TailOnlyFieldsClosed(fields: seq<PacketField>, values: seq<NamedValue>)
    requires TailOnlyFields(fields)
    ensures ClosedFields(fields, values, true)
    decreases fields, 0
  {
    if |fields| == |values| && fields != [] {
      if |fields| == 1 {
        TailOnlyClosed(fields[0].codec, values[0].value);
      } else {
        NoRemainingClosed(fields[0].codec, values[0].value, SilentFields(fields[1..], values[1..]));
        TailOnlyFieldsClosed(fields[1..], values[1..]);
      }
    }
  }

  /** With `RemainingBytes` in final position only, whatever prints parses back to the same values. */
  lemma TailLayoutRoundTrip(fields: seq<PacketField>, values: seq<NamedValue>)
    requires ValidLayout(fields, 0) && TailOnlyFields(fields) && EncodeLayout(fields, values, 0).Success?
    ensures DecodeFields(fields, EncodeLayout(fields, values, 0).value, [], 0) == Success(Parsed(values, []))
  {
    RoundTrip(fields, values);
    TailOnlyFieldsClosed(fields, values);
  }

  /** The validator does accept a layout whose printed values do not parse back. */
  lemma RemainingBytesNotLast()
    ensures exists fields, values ::
      && ValidLayout(fields, 0) && EncodeLayout(fields, values, 0).Success?
      && DecodeFields(fields, EncodeLayout(fields, values, 0).value, [], 0) != Success(Parsed(values, []))
  {
    var body, tag := PacketField("a", RemainingBytesCodec(8)), PacketField("b", BoolCodec);
    var fields := [body, tag];
    var values := [NamedValue("a", BytesValue([])), NamedValue("b", BoolValue(true))];
    assert fields[1..] == [tag] && values[1..] == [values[1]] && [tag][1..] == [];
    assert tag.name[0] != body.name[0];
    assert ValidFieldName(tag.name);
    assert tag.name !in {} + {body.name};
    assert ValidCodec(tag.codec, 1, {});
    assert ValidFields([tag][1..], 0, {} + {body.name} + {tag.name}, {} + {tag.name});
    assert ValidFields([tag], 0, {} + {body.name}, {});
    assert ValidFields(fields, 0, {}, {});
    assert EncodeFields([tag], [values[1]], values, 0).Success?;
    assert EncodeFields(fields, values, values, 0).Success?;
    assert !SilentFields([tag], [values[1]]);
    assert !ClosedFields(fields, values, true);
    RoundTrip(fields, values);
  }

  // ---- Parsing normalises ----

  lemma {:induction false} ClosedWeakens(codec: FieldCodec, value: PacketValue)
    requires Closed(codec, value, false)
    ensures Closed(codec, value, true)
    decreases codec, 0
  {
    match codec
    case ListCodec(_, element) => if value.ListValue? { ClosedItemsWeakens(element, value.items); }
    case OptionalCodec(inner) =>
      if value.OptionalValue? && value.content.Some? { ClosedWeakens(inner, value.content.value); }
    case StructCodec(fields) => if value.StructValue? { ClosedFieldsWeakens(fields, value.fields); }
    case ConditionalCodec(_, _, inner) => if !value.Absent? { ClosedWeakens(inner, value); }
    case _ =>
  }

  lemma {:induction false} ClosedItemsWeakens(element: FieldCodec, items: seq<PacketValue>)
    requires ClosedItems(element, items, false)
    ensures ClosedItems(element, items, true)
    decreases element, |items|
  {
    if items != [] {
      ClosedWeakens(element, items[0]);
      ClosedItemsWeakens(element, items[1..]);
    }
  }

  lemma {:induction false} ClosedFieldsWeakens(fields: seq<PacketField>, values: seq<NamedValue>)
    requires ClosedFields(fields, values, false)
    ensures ClosedFields(fields, values, true)
    decreases fields, 0
  {
    if |fields| == |values| && fields != [] {
      ClosedWeakens(fields[0].codec, values[0].value);
      ClosedFieldsWeakens(fields[1..], values[1..]);
    }
  }

  /** Printed no longer than it was read, with nothing after a field that takes the rest. */
  predicate Renews(encoded: Encoded, consumed: int) {
    encoded.Success? && |encoded.value| <= consumed
  }

  /** The value decoded from `s` prints again, no longer than it was read, and is closed before what follows it. */
  predicate Prints(codec: FieldCodec, s: seq<byte>, all: seq<NamedValue>, prior: seq<NamedValue>, depth: nat)
    requires DecodeValue(codec, s, prior, depth).Success?
  {
    var p := DecodeValue(codec, s, prior, depth).value;
    Renews(EncodeValue(codec, p.value, all, depth), |s| - |p.rest|) && Closed(codec, p.value, p.rest == [])
  }

  lemma ListPrints(max: nat, element: FieldCodec, s: seq<byte>, all: seq<NamedValue>, prior: seq<NamedValue>,
      depth: nat)
    requires DecodeValue(ListCodec(max, element), s, prior, depth).Success?
    requires var count := DecodeCount(s, max).value;
      var p := DecodeItems(element, count.value, count.rest, depth + 1).value;
      && |p.value| == count.value
      && Renews(EncodeItems(element, p.value, depth + 1), |count.rest| - |p.rest|)
      && ClosedItems(element, p.value, p.rest == [])
    ensures Prints(ListCodec(max, element), s, all, prior, depth)
  {
    VarIntShortens(s);
  }

  lemma OptionalPrints(inner: FieldCodec, s: seq<byte>, all: seq<NamedValue>, prior: seq<NamedValue>, depth: nat)
    requires DecodeValue(OptionalCodec(inner), s, prior, depth).Success?
    requires ParseBool(s).value.value ==> Prints(inner, ParseBool(s).value.rest, [], [], depth + 1)
    ensures Prints(OptionalCodec(inner), s, all, prior, depth)
  {
  }

  lemma StructPrints(fields: seq<PacketField>, s: seq<byte>, all: seq<NamedValue>, prior: seq<NamedValue>, depth: nat)
    requires DecodeValue(StructCodec(fields), s, prior, depth).Success?
    requires var p := DecodeFields(fields, s, [], depth + 1).value;
      && |fields| == |p.value|
      && Renews(EncodeFields(fields, p.value, p.value, depth + 1), |s| - |p.rest|)
      && ClosedFields(fields, p.value, p.rest == [])
    ensures Prints(StructCodec(fields), s, all, prior, depth)
  {
  }

  lemma ConditionalPrints(reference: string, equals: bool, inner: FieldCodec, s: seq<byte>,
      all: seq<NamedValue>, prior: seq<NamedValue>, depth: nat)
    requires DecodeValue(ConditionalCodec(reference, equals, inner), s, prior, depth).Success?
    requires PriorBool(prior, reference) == PriorBool(all, reference)
    requires PriorBool(prior, reference).value == equals ==> Prints(inner, s, [], [], depth + 1)
    ensures Prints(ConditionalCodec(reference, equals, inner), s, all, prior, depth)
  {
  }

  lemma RemainingPrints(max: nat, s: seq<byte>, all: seq<NamedValue>, prior: seq<NamedValue>, depth: nat)
    requires DecodeValue(RemainingBytesCodec(max), s, prior, depth).Success?
    ensures Prints(RemainingBytesCodec(max), s, all, prior, depth)
  {
  }

  lemma ScalarPrints(codec: FieldCodec, s: seq<byte>, all: seq<NamedValue>, prior: seq<NamedValue>, depth: nat)
    requires IsScalar(codec) && DecodeValue(codec, s, prior, depth).Success?
    ensures Prints(codec, s, all, prior, depth)
  {
    ScalarShortens(codec, s);
  }

  lemma {:induction false} DecodedValuePrints(codec: FieldCodec, s: seq<byte>,
      all: seq<NamedValue>, prior: seq<NamedValue>, bools: set<string>, depth: nat)
    requires DecodeValue(codec, s, prior, depth).Success?
    requires ValidCodec(codec, depth, bools)
    requires prior <= all && Covers(prior, bools)
    ensures Prints(codec, s, all, prior, depth)
    decreases codec, 0
  {
    match codec
    case ListCodec(max, element) =>
      var count := DecodeCount(s, max).value;
      DecodedItemsPrint(element, count.value, count.rest, depth + 1);
      ListPrints(max, element, s, all, prior, depth);
    case OptionalCodec(inner) =>
      var flag := ParseBool(s).value;
      if flag.value { DecodedValuePrints(inner, flag.rest, [], [], {}, depth + 1); }
      OptionalPrints(inner, s, all, prior, depth);
    case StructCodec(fields) =>
      var values := DecodeFields(fields, s, [], depth + 1).value.value;
      assert [] + values == values;
      DecodedFieldsPrint(fields, s, values, [], {}, {}, depth + 1);
      StructPrints(fields, s, all, prior, depth);
    case ConditionalCodec(reference, equals, inner) =>
      ConditionAgrees(all, prior, reference);
      if PriorBool(prior, reference).value == equals { DecodedValuePrints(inner, s, [], [], {}, depth + 1); }
      ConditionalPrints(reference, equals, inner, s, all, prior, depth);
    case RemainingBytesCodec(max) => RemainingPrints(max, s, all, prior, depth);
    case _ => ScalarPrints(codec, s, all, prior, depth);
  }

  lemma {:induction false} DecodedItemsPrint(element: FieldCodec, count: nat, s: seq<byte>, depth: nat)
    requires DecodeItems(element, count, s, depth).Success?
    requires ValidCodec(element, depth, {})
    ensures var p := DecodeItems(element, count, s, depth).value;
      && |p.value| == count
      && Renews(EncodeItems(element, p.value, depth), |s| - |p.rest|)
      && ClosedItems(element, p.value, p.rest == [])
    decreases element, count
  {
    if count > 0 {
      var head := DecodeValue(element, s, [], depth).value;
      DecodedValuePrints(element, s, [], [], {}, depth);
      DecodedItemsPrint(element, count - 1, head.rest, depth);
      ConsPrints(element, count, s, depth);
    }
  }

  /** An item that prints again, before items that print again. */
  lemma ConsPrints(element: FieldCodec, count: nat, s: seq<byte>, depth: nat)
    requires count > 0 && DecodeItems(element, count, s, depth).Success? && Prints(element, s, [], [], depth)
    requires var head := DecodeValue(element, s, [], depth).value;
      var tail := DecodeItems(element, count - 1, head.rest, depth).value;
      && |tail.value| == count - 1
      && Renews(EncodeItems(element, tail.value, depth), |head.rest| - |tail.rest|)
      && ClosedItems(element, tail.value, tail.rest == [])
    ensures var p := DecodeItems(element, count, s, depth).value;
      && |p.value| == count
      && Renews(EncodeItems(element, p.value, depth), |s| - |p.rest|)
      && ClosedItems(element, p.value, p.rest == [])
  {
    var head := DecodeValue(element, s, [], depth).value;
    var tail := DecodeItems(element, count - 1, head.rest, depth).value;
    var items := DecodeItems(element, count, s, depth).value.value;
    assert items[0] == head.value && items[1..] == tail.value;
    SilentList(element, tail.value, depth);
    if head.rest != [] && tail.rest == [] { ClosedWeakens(element, head.value); }
  }

  lemma {:induction false} DecodedFieldsPrint(fields: seq<PacketField>, s: seq<byte>, values: seq<NamedValue>,
      prior: seq<NamedValue>, names: set<string>, bools: set<string>, depth: nat)
    requires DecodeFields(fields, s, prior, depth).Success?
      && DecodeFields(fields, s, prior, depth).value.value == values
    requires ValidFields(fields, depth, names, bools) && Covers(prior, bools)
    ensures |fields| == |values|
    ensures var p := DecodeFields(fields, s, prior, depth).value;
      && Renews(EncodeFields(fields, values, prior + values, depth), |s| - |p.rest|)
      && ClosedFields(fields, values, p.rest == [])
    decreases fields, 0
  {
    if fields != [] {
      var head := DecodeValue(fields[0].codec, s, prior, depth + 1).value;
      var all := prior + values;
      DecodedValuePrints(fields[0].codec, s, all, prior, bools, depth + 1);
      CoversNext(prior, bools, values[0], fields[0].codec.BoolCodec?);
      assert values[0] == NamedValue(fields[0].name, head.value);
      assert all == (prior + [values[0]]) + values[1..];
      DecodedFieldsPrint(fields[1..], head.rest, values[1..], prior + [values[0]], names + {fields[0].name},
        if fields[0].codec.BoolCodec? then bools + {fields[0].name} else bools, depth);
      SilentLayout(fields[1..], values[1..], all, depth);
      if head.rest != [] { ClosedOtherwise(fields[0].codec, head.value); }
    }
  }

  lemma ClosedOtherwise(codec: FieldCodec, value: PacketValue)
    requires Closed(codec, value, false)
    ensures forall last :: Closed(codec, value, last)
  {
    ClosedWeakens(codec, value);
  }

  /**
    Whatever a validated layout parses, it prints again: never longer than it was read, and parsing
    that gives the same values. Holds wherever `RemainingBytes` stands.
   */
  lemma ParsingNormalises(fields: seq<PacketField>, s: seq<byte>)
    requires ValidLayout(fields, 0)
    requires DecodeFields(fields, s, [], 0).Success? && DecodeFields(fields, s, [], 0).value.rest == []
    ensures var values := DecodeFields(fields, s, [], 0).value.value;
      && EncodeLayout(fields, values, 0).Success?
      && |EncodeLayout(fields, values, 0).value| <= |s|
      && DecodeFields(fields, EncodeLayout(fields, values, 0).value, [], 0) == Success(Parsed(values, []))
  {
    var values := DecodeFields(fields, s, [], 0).value.value;
    DecodedFieldsPrint(fields, s, values, [], {}, {}, 0);
    assert [] + values == values;
    RoundTrip(fields, values);
  }

  // ---- The validator rules out nesting and condition failures ----

  predicate SchemaFault(error: SchemaError) {
    error == NestingLimit || error == MissingCondition
  }

  /** Looking up each of `bools` among `values` finds a bool. */
  predicate KnownBools(values: seq<NamedValue>, bools: set<string>) {
    forall name :: name in bools ==> PriorBool(values, name).Success?
  }

  lemma {:induction false} FindFieldAppend(values: seq<NamedValue>, later: seq<NamedValue>, name: string)
    ensures FindField(values + later, name)
         == if FindField(values, name).Some? then FindField(values, name) else FindField(later, name)
  {
    if values == [] {
      assert values + later == later;
    } else {
      assert (values + later)[0] == values[0] && (values + later)[1..] == values[1..] + later;
      FindFieldAppend(values[1..], later, name);
    }
  }

  lemma {:induction false} FindFieldNamed(values: seq<NamedValue>, name: string)
    requires FindField(values, name).Some?
    ensures HasField(values, name)
  {
    if values[0].name == name {
      assert values[0].name == name;
    } else {
      FindFieldNamed(values[1..], name);
      var i :| 0 <= i < |values[1..]| && values[1..][i].name == name;
      assert values[i + 1].name == name;
    }
  }

  predicate Named(values: seq<NamedValue>, names: set<string>) {
    forall i :: 0 <= i < |values| ==> values[i].name in names
  }

  lemma KnownBoolsNext(prior: seq<NamedValue>, names: set<string>, bools: set<string>, v: NamedValue, isBool: bool)
    requires KnownBools(prior, bools) && Named(prior, names) && v.name !in names
    requires isBool ==> v.value.BoolValue?
    ensures KnownBools(prior + [v], if isBool then bools + {v.name} else bools)
    ensures Named(prior + [v], names + {v.name})
  {
    forall name | name in (if isBool then bools + {v.name} else bools)
      ensures PriorBool(prior + [v], name).Success?
    {
      FindFieldAppend(prior, [v], name);
      if FindField(prior, v.name).Some? { FindFieldNamed(prior, v.name); }
    }
  }

  lemma {:induction false} DecodeValueFaultFree(codec: FieldCodec, s: seq<byte>, prior: seq<NamedValue>,
      bools: set<string>, depth: nat)
    requires ValidCodec(codec, depth, bools) && KnownBools(prior, bools)
    ensures var r := DecodeValue(codec, s, prior, depth);
      && (r.Failure? ==> !SchemaFault(r.error))
      && (r.Success? && codec.BoolCodec? ==> r.value.value.BoolValue?)
    decreases codec, 0
  {
    match codec
    case ListCodec(max, element) =>
      var count := DecodeCount(s, max);
      if count.Success? { DecodeItemsFaultFree(element, count.value.value, count.value.rest, depth + 1); }
    case OptionalCodec(inner) =>
      var flag := ParseBool(s);
      if flag.Success? && flag.value.value { DecodeValueFaultFree(inner, flag.value.rest, [], {}, depth + 1); }
    case StructCodec(fields) => DecodeFieldsFaultFree(fields, s, [], {}, {}, depth + 1);
    case ConditionalCodec(_, _, inner) => DecodeValueFaultFree(inner, s, [], {}, depth + 1);
    case _ =>
  }

  lemma {:induction false} DecodeItemsFaultFree(element: FieldCodec, count: nat, s: seq<byte>, depth: nat)
    requires ValidCodec(element, depth, {})
    ensures var r := DecodeItems(element, count, s, depth); r.Failure? ==> !SchemaFault(r.error)
    decreases element, count
  {
    if count > 0 {
      DecodeValueFaultFree(element, s, [], {}, depth);
      var head := DecodeValue(element, s, [], depth);
      if head.Success? { DecodeItemsFaultFree(element, count - 1, head.value.rest, depth); }
    }
  }

  lemma {:induction false} DecodeFieldsFaultFree(fields: seq<PacketField>, s: seq<byte>, prior: seq<NamedValue>,
      names: set<string>, bools: set<string>, depth: nat)
    requires ValidFields(fields, depth, names, bools) && KnownBools(prior, bools) && Named(prior, names)
    ensures var r := DecodeFields(fields, s, prior, depth); r.Failure? ==> !SchemaFault(r.error)
    decreases fields, 0
  {
    if fields != [] {
      var f := fields[0];
      DecodeValueFaultFree(f.codec, s, prior, bools, depth + 1);
      var head := DecodeValue(f.codec, s, prior, depth + 1);
      if head.Success? {
        var named := NamedValue(f.name, head.value.value);
        KnownBoolsNext(prior, names, bools, named, f.codec.BoolCodec?);
        DecodeFieldsFaultFree(fields[1..], head.value.rest, prior + [named], names + {f.name},
          if f.codec.BoolCodec? then bools + {f.name} else bools, depth);
      }
    }
  }

  lemma {:induction false} EncodeValueFaultFree(codec: FieldCodec, value: PacketValue, all: seq<NamedValue>,
      bools: set<string>, depth: nat)
    requires ValidCodec(codec, depth, bools) && KnownBools(all, bools)
    ensures var r := EncodeValue(codec, value, all, depth);
      && (r.Failure? ==> !SchemaFault(r.error))
      && (r.Success? && codec.BoolCodec? ==> value.BoolValue?)
    decreases codec, 0
  {
    match codec
    case ListCodec(_, element) => if value.ListValue? { EncodeItemsFaultFree(element, value.items, depth + 1); }
    case OptionalCodec(inner) =>
      if value.OptionalValue? && value.content.Some? {
        EncodeValueFaultFree(inner, value.content.value, [], {}, depth + 1);
      }
    case StructCodec(fields) =>
      if value.StructValue? && |fields| == |value.fields| {
        EncodeFieldsFaultFree(fields, value.fields, value.fields, [], {}, {}, depth + 1);
      }
    case ConditionalCodec(_, _, inner) => EncodeValueFaultFree(inner, value, [], {}, depth + 1);
    case RemainingBytesCodec(_) =>
    case _ => EncodeScalarFaultFree(codec, value);
  }

  lemma EncodeScalarFaultFree(codec: FieldCodec, value: PacketValue)
    requires IsScalar(codec)
    ensures var r := EncodeScalar(codec, value);
      && (r.Failure? ==> !SchemaFault(r.error))
      && (r.Success? && codec.BoolCodec? ==> value.BoolValue?)
  {
  }

  lemma {:induction false} EncodeItemsFaultFree(element: FieldCodec, items: seq<PacketValue>, depth: nat)
    requires ValidCodec(element, depth, {})
    ensures var r := EncodeItems(element, items, depth); r.Failure? ==> !SchemaFault(r.error)
    decreases element, |items|
  {
    if items != [] {
      EncodeValueFaultFree(element, items[0], [], {}, depth);
      EncodeItemsFaultFree(element, items[1..], depth);
    }
  }

  lemma {:induction false} EncodeFieldsFaultFree(fields: seq<PacketField>, values: seq<NamedValue>,
      all: seq<NamedValue>, prior: seq<NamedValue>, names: set<string>, bools: set<string>, depth: nat)
    requires |fields| == |values| && all == prior + values
    requires ValidFields(fields, depth, names, bools) && KnownBools(prior, bools) && Named(prior, names)
    ensures var r := EncodeFields(fields, values, all, depth); r.Failure? ==> !SchemaFault(r.error)
    decreases fields, 0
  {
    if fields != [] && fields[0].name == values[0].name {
      var f := fields[0];
      forall name | name in bools ensures PriorBool(all, name).Success? { FindFieldAppend(prior, values, name); }
      EncodeValueFaultFree(f.codec, values[0].value, all, bools, depth + 1);
      if EncodeValue(f.codec, values[0].value, all, depth + 1).Success? {
        KnownBoolsNext(prior, names, bools, values[0], f.codec.BoolCodec?);
        assert all == (prior + [values[0]]) + values[1..];
        EncodeFieldsFaultFree(fields[1..], values[1..], all, prior + [values[0]], names + {f.name},
          if f.codec.BoolCodec? then bools + {f.name} else bools, depth);
      }
    }
  }

  /** On a validated layout no input whatever, and no values whatever, hit those two failures. */
  lemma ValidatorSound(fields: seq<PacketField>, s: seq<byte>, values: seq<NamedValue>)
    requires ValidLayout(fields, 0)
    ensures var d := DecodeFields(fields, s, [], 0); d.Failure? ==> !SchemaFault(d.error)
    ensures var e := EncodeLayout(fields, values, 0); e.Failure? ==> !SchemaFault(e.error)
  {
    DecodeFieldsFaultFree(fields, s, [], {}, {}, 0);
    if |fields| == |values| {
      assert [] + values == values;
      EncodeFieldsFaultFree(fields, values, values, [], {}, {}, 0);
    }
  }

  // ---- What the validator demands of a layout ----

  function BoolNames(fields: seq<PacketField>): set<string> {
    set f | f in fields && f.codec.BoolCodec? :: f.name
  }

  /** Field `i` has a name of its own, well formed, and a codec that refers to bools before it alone. */
  predicate FieldOk(fields: seq<PacketField>, i: nat, depth: nat, names: set<string>, bools: set<string>)
    requires i < |fields|
  {
    && ValidFieldName(fields[i].name) && fields[i].name !in names
    && (forall j :: 0 <= j < i ==> fields[j].name != fields[i].name)
    && ValidCodec(fields[i].codec, depth + 1, bools + BoolNames(fields[..i]))
  }

  lemma {:induction false} FieldsValid(fields: seq<PacketField>, depth: nat, names: set<string>, bools: set<string>)
    ensures ValidFields(fields, depth, names, bools)
       <==> forall i :: 0 <= i < |fields| ==> FieldOk(fields, i, depth, names, bools)
  {
    if fields != [] {
      var f, rest := fields[0], fields[1..];
      var nextNames, nextBools := names + {f.name}, if f.codec.BoolCodec? then bools + {f.name} else bools;
      FieldsValid(rest, depth, nextNames, nextBools);
      assert bools + BoolNames(fields[..0]) == bools;
      forall i | 0 <= i < |rest|
        ensures (FieldOk(fields, i + 1, depth, names, bools) <==> FieldOk(rest, i, depth, nextNames, nextBools))
      {
        BoolsShift(fields, i, bools);
        NamesShift(fields, i);
      }
      assert (forall i :: 0 <= i < |fields| ==> FieldOk(fields, i, depth, names, bools))
        <==> FieldOk(fields, 0, depth, names, bools)
             && forall i :: 0 <= i < |rest| ==> FieldOk(rest, i, depth, nextNames, nextBools) by {
        forall i | 0 < i < |fields|
          ensures FieldOk(fields, i, depth, names, bools) <==> FieldOk(rest, i - 1, depth, nextNames, nextBools)
        {
          assert FieldOk(fields, i - 1 + 1, depth, names, bools) == FieldOk(rest, i - 1, depth, nextNames, nextBools);
        }
      }
    }
  }

  lemma BoolsShift(fields: seq<PacketField>, i: nat, bools: set<string>)
    requires fields != [] && i < |fields[1..]|
    ensures var f := fields[0];
      bools + BoolNames(fields[..i + 1])
      == (if f.codec.BoolCodec? then bools + {f.name} else bools) + BoolNames(fields[1..][..i])
  {
    var f := fields[0];
    assert fields[..i + 1] == [f] + fields[1..][..i];
    forall name ensures name in BoolNames(fields[..i + 1])
      <==> (f.codec.BoolCodec? && name == f.name) || name in BoolNames(fields[1..][..i])
    {
      if g :| g in fields[1..][..i] && g.codec.BoolCodec? && g.name == name { assert g in fields[..i + 1]; }
      if f.codec.BoolCodec? && name == f.name { assert f in fields[..i + 1]; }
    }
  }

  lemma NamesShift(fields: seq<PacketField>, i: nat)
    requires fields != [] && i < |fields[1..]|
    ensures (forall j :: 0 <= j < i + 1 ==> fields[j].name != fields[i + 1].name)
       <==> && fields[1..][i].name != fields[0].name
            && forall j :: 0 <= j < i ==> fields[1..][j].name != fields[1..][i].name
  {
    if fields[1..][i].name != fields[0].name && forall j :: 0 <= j < i ==> fields[1..][j].name != fields[1..][i].name {
      forall j | 0 <= j < i + 1 ensures fields[j].name != fields[i + 1].name {
        if j > 0 { assert fields[j] == fields[1..][j - 1]; }
      }
    }
    if forall j :: 0 <= j < i + 1 ==> fields[j].name != fields[i + 1].name {
      forall j | 0 <= j < i ensures fields[1..][j].name != fields[1..][i].name {
        assert fields[j + 1] == fields[1..][j];
      }
    }
  }

  /**
    A layout is valid exactly if it is not nested too deep, has at most 256 fields, their names are
    well formed and pairwise distinct, and each codec is valid one level below, where it may refer to
    the bools that come before it.
   */
  lemma LayoutValid(fields: seq<PacketField>, depth: nat)
    ensures ValidLayout(fields, depth)
       <==> && depth <= 32 && |fields| <= 256
            && forall i :: 0 <= i < |fields| ==>
                 && ValidFieldName(fields[i].name)
                 && (forall j :: 0 <= j < i ==> fields[j].name != fields[i].name)
                 && ValidCodec(fields[i].codec, depth + 1, BoolNames(fields[..i]))
  {
    FieldsValid(fields, depth, {}, {});
    forall i | 0 <= i < |fields|
      ensures FieldOk(fields, i, depth, {}, {})
         <==> && ValidFieldName(fields[i].name)
              && (forall j :: 0 <= j < i ==> fields[j].name != fields[i].name)
              && ValidCodec(fields[i].codec, depth + 1, BoolNames(fields[..i]))
    {
      assert {} + BoolNames(fields[..i]) == BoolNames(fields[..i]);
    }
  }
}
