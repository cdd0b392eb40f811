/**
  The bytes of a packet, by its layout alone (packet_schema.rs): the encoder prints exactly the
  canonical form of its values, and the decoder accepts exactly the forms of the values it gives.
 */
module SchemaWire {
  import opened Wrappers
  import opened Bytes
  import opened Text
  import opened Codec
  import opened PacketSchema
  import opened WireForm
  import opened PacketRegistry

  // ---- Forms ----

  /** One, two, four or eight bytes by the kind, with the two's complement of a negative number. */
  predicate IsNumber(n: Number, b: seq<byte>) {
    && IsBigEndian(n.value, b)
    && match n.kind
       case NumI8 | NumU8 => |b| == 1
       case NumI16 | NumU16 => |b| == 2
       case NumI32 | NumU32 | BitsF32 => |b| == 4
       case NumI64 | NumU64 | BitsF64 => |b| == 8
  }

  ghost predicate IsScalarForm(form: Form, codec: FieldCodec, value: PacketValue, b: seq<byte>)
    requires IsScalar(codec)
  {
    match codec
    case BoolCodec => value.BoolValue? && IsBool(value.b, b, form)
    case NumberCodec(kind) => value.NumberValue? && value.n.kind == kind && IsNumber(value.n, b)
    case VarIntCodec => value.VarIntValue? && IsInt(value.i, b, form)
    case VarLongCodec => value.VarLongValue? && IsLong(value.l, b, form)
    case StringCodec(limits) => value.StringValue? && IsString(value.text, limits, b, form)
    case IdentifierCodec(limits) =>
      value.IdentifierValue? && IsIdentifier(value.text) && IsString(value.text, limits, b, form)
    case UuidCodec => value.UuidValue? && value.uuid == b
    case PositionCodec => value.PositionValue? && IsPosition(value.position, b)
    case ByteArrayCodec(max) => value.BytesValue? && |value.bytes| <= max && IsPrefixed(value.bytes, b, form)
    case FixedBytesCodec(length) => value == BytesValue(b) && |b| == length
    case BitSetCodec(limits) => value.BitSetValue? && IsBitSet(value.bits, limits, b, form)
    case EnumCodec(labels) => value.EnumValue? && value.i in labels && IsInt(value.i, b, form)
  }

  /** The first value of that name is this bool. */
  ghost predicate Condition(values: seq<NamedValue>, name: string, b: bool) {
    exists i :: 0 <= i < |values| && values[i] == NamedValue(name, BoolValue(b))
      && forall j :: 0 <= j < i ==> values[j].name != name
  }

  /**
    `b` is a form of the value. Conditions are looked up in `context`; `last` says that nothing
    follows, which only reading the remaining bytes needs.
   */
  ghost predicate IsForm(form: Form, codec: FieldCodec, value: PacketValue, context: seq<NamedValue>, depth: nat,
      b: seq<byte>, last: bool)
    decreases codec, 0
  {
    && depth <= MAX_FIELD_NESTING
    && if IsScalar(codec) then IsScalarForm(form, codec, value, b)
       else match codec
            case ListCodec(max, element) =>
              value.ListValue? && |value.items| <= max && |value.items| <= I32_MAX &&
              exists k: nat :: k <= |b|
                && IsInt(|value.items|, b[..k], form)
                && AreForms(form, element, value.items, depth + 1, b[k..], last)
            case OptionalCodec(inner) =>
              value.OptionalValue? && b != [] && IsBool(value.content.Some?, b[..1], form) &&
              if value.content.None? then b[1..] == []
              else IsForm(form, inner, value.content.value, [], depth + 1, b[1..], last)
            case StructCodec(fields) =>
              value.StructValue? && IsLayoutForm(form, fields, value.fields, depth + 1, b, last)
            case ConditionalCodec(reference, equals, inner) =>
              || (Condition(context, reference, equals) && IsForm(form, inner, value, [], depth + 1, b, last))
              || (Condition(context, reference, !equals) && value.Absent? && b == [])
            case RemainingBytesCodec(max) => value == BytesValue(b) && |b| <= max && (form.Accepted? ==> last)
  }

  /** One item after another. */
  ghost predicate AreForms(form: Form, element: FieldCodec, items: seq<PacketValue>, depth: nat, b: seq<byte>,
      last: bool)
    decreases element, |items|
  {
    if items == [] then b == []
    else
      exists k: nat :: k <= |b|
        && IsForm(form, element, items[0], [], depth, b[..k], last && b[k..] == [])
        && AreForms(form, element, items[1..], depth, b[k..], last)
  }

  /** One field after another; the decoder looks up conditions among earlier values, the encoder among all. */
  ghost predicate AreFieldForms(form: Form, fields: seq<PacketField>, values: seq<NamedValue>,
      context: seq<NamedValue>, depth: nat, b: seq<byte>, last: bool)
    decreases fields, 0
  {
    && |fields| == |values|
    && if fields == [] then b == []
       else
         && fields[0].name == values[0].name
         && exists k: nat :: k <= |b|
              && IsForm(form, fields[0].codec, values[0].value, context, depth + 1, b[..k], last && b[k..] == [])
              && AreFieldForms(form, fields[1..], values[1..],
                   if form.Canonical? then context else context + [values[0]], depth, b[k..], last)
  }

  ghost predicate IsLayoutForm(form: Form, fields: seq<PacketField>, values: seq<NamedValue>, depth: nat, b: seq<byte>,
      last: bool)
    decreases fields, 1
  {
    AreFieldForms(form, fields, values, if form.Canonical? then values else [], depth, b, last)
  }

  // ---- Scalars ----

  lemma NumberWidth(n: Number, b: seq<byte>)
    ensures IsNumber(n, b) <==> IsBigEndian(n.value, b) && |b| == n.kind.Width()
  {
  }

  lemma ScalarPrinted(codec: FieldCodec, value: PacketValue, b: seq<byte>)
    requires IsScalar(codec)
    ensures EncodeScalar(codec, value) == Success(b) <==> IsScalarForm(Canonical, codec, value, b)
  {
    match codec
    case BoolCodec => if value.BoolValue? { assert b == PrintBool(value.b) <==> IsBool(value.b, b, Canonical); }
    case NumberCodec(_) => if value.NumberValue? { NumberForm(value.n, b); }
    case VarIntCodec => if value.VarIntValue? { IntPrinted(value.i, b); }
    case VarLongCodec => if value.VarLongValue? { LongPrinted(value.l, b); }
    case StringCodec(limits) => if value.StringValue? { StringPrinted(value.text, limits, b); }
    case IdentifierCodec(limits) => if value.IdentifierValue? { StringPrinted(value.text, limits, b); }
    case PositionCodec => if value.PositionValue? { PositionPrinted(value.position, b); }
    case ByteArrayCodec(max) => if value.BytesValue? { ByteArrayPrinted(value.bytes, max, b); }
    case BitSetCodec(limits) => if value.BitSetValue? { CountedPrinted(value.bits, limits, b); }
    case EnumCodec(labels) => if value.EnumValue? { IntPrinted(value.i, b); }
    case _ =>
  }

  lemma NumberForm(n: Number, b: seq<byte>)
    ensures IsNumber(n, b) <==> |b| == n.kind.Width() && FromBigEndian(b) == NumberBits(n)
    ensures IsNumber(n, b) <==> b == ToBigEndian(NumberBits(n), n.kind.Width())
  {
    NumberWidth(n, b);
    if |b| == n.kind.Width() { BigEndianForm(n.value, NumberBits(n), b); }
  }

  lemma NumberOfBits(kind: NumberKind, bits: nat, n: Number)
    requires bits < Pow256(kind.Width())
    ensures NumberFromBits(kind, bits) == n <==> n.kind == kind && NumberBits(n) == bits
  {
    SchemaRoundTrip.NumberRoundTrip(n);
    SchemaRoundTrip.NumberBitsRoundTrip(kind, bits);
  }

  lemma NumberDecoded(kind: NumberKind, s: seq<byte>)
    ensures DecodeScalar(NumberCodec(kind), s)
         == if |s| < kind.Width() then Failure(CodecFailure(UnexpectedEnd))
            else Success(Parsed(NumberValue(NumberFromBits(kind, FromBigEndian(s[..kind.Width()]))), s[kind.Width()..]))
  {
  }

  lemma NumberRead(kind: NumberKind, s: seq<byte>, n: Number, t: seq<byte>)
    ensures DecodeScalar(NumberCodec(kind), s) == Success(Parsed(NumberValue(n), t))
       <==> Suffix(t, s) && n.kind == kind && IsNumber(n, Before(s, t))
  {
    var w := kind.Width();
    NumberDecoded(kind, s);
    if |s| >= w {
      NumberForm(n, s[..w]);
      NumberOfBits(kind, FromBigEndian(s[..w]), n);
      Splits(s, t, w);
    }
    if Suffix(t, s) { NumberWidth(n, Before(s, t)); }
  }

  lemma ScalarRead(codec: FieldCodec, s: seq<byte>, value: PacketValue, t: seq<byte>)
    requires IsScalar(codec)
    ensures DecodeScalar(codec, s) == Success(Parsed(value, t))
       <==> Suffix(t, s) && IsScalarForm(Accepted, codec, value, Before(s, t))
  {
    match codec
    case BoolCodec => if value.BoolValue? { BoolRead(s, value.b, t); }
    case NumberCodec(kind) => if value.NumberValue? { NumberRead(kind, s, value.n, t); }
    case VarIntCodec => if value.VarIntValue? { IntRead(s, value.i, t); }
    case VarLongCodec => if value.VarLongValue? { LongRead(s, value.l, t); }
    case StringCodec(limits) => if value.StringValue? { StringRead(s, limits, value.text, t); }
    case IdentifierCodec(limits) => if value.IdentifierValue? { StringRead(s, limits, value.text, t); }
    case UuidCodec => if |s| >= 16 { Splits(s, t, 16); }
    case PositionCodec => if value.PositionValue? { PositionRead(s, value.position, t); }
    case ByteArrayCodec(max) => if value.BytesValue? { ByteArrayRead(s, max, value.bytes, t); }
    case FixedBytesCodec(length) => if |s| >= length { Splits(s, t, length); }
    case BitSetCodec(limits) => if value.BitSetValue? { BitSetRead(s, limits, value.bits, t); }
    case EnumCodec(labels) => if value.EnumValue? { IntRead(s, value.i, t); }
  }

  // ---- Conditions ----

  lemma {:induction false} ConditionFound(values: seq<NamedValue>, name: string, b: bool)
    ensures PriorBool(values, name) == Success(b) <==> Condition(values, name, b)
  {
    if values != [] && values[0].name != name {
      ConditionFound(values[1..], name, b);
      if Condition(values, name, b) {
        var i :| 0 <= i < |values| && values[i] == NamedValue(name, BoolValue(b))
          && forall j :: 0 <= j < i ==> values[j].name != name;
        assert values[1..][i - 1] == values[i];
      }
      if Condition(values[1..], name, b) {
        var i :| 0 <= i < |values| - 1 && values[1..][i] == NamedValue(name, BoolValue(b))
          && forall j :: 0 <= j < i ==> values[1..][j].name != name;
        assert values[i + 1] == NamedValue(name, BoolValue(b));
        forall j | 0 <= j < i + 1 ensures values[j].name != name {
          if j > 0 { assert values[j] == values[1..][j - 1]; }
        }
      }
    }
  }

  // ---- What is printed ----

  /** The encoder gives `b` if and only if `b` is the canonical form of the value. */
  lemma {:induction false} Printed(codec: FieldCodec, value: PacketValue, all: seq<NamedValue>, depth: nat,
      b: seq<byte>, last: bool)
    ensures EncodeValue(codec, value, all, depth) == Success(b)
       <==> IsForm(Canonical, codec, value, all, depth, b, last)
    decreases codec, 1
  {
    match codec
    case ListCodec(_, _) => if value.ListValue? { ListPrinted(codec, value, all, depth, b, last); }
    case OptionalCodec(_) => if value.OptionalValue? { OptionalPrinted(codec, value, all, depth, b, last); }
    case StructCodec(fields) => if value.StructValue? { LayoutPrinted(fields, value.fields, depth + 1, b, last); }
    case ConditionalCodec(reference, equals, inner) =>
      ConditionFound(all, reference, true);
      ConditionFound(all, reference, false);
      Printed(inner, value, [], depth + 1, b, last);
    case RemainingBytesCodec(_) =>
    case _ => ScalarPrinted(codec, value, b);
  }

  lemma {:induction false} OptionalPrinted(codec: FieldCodec, value: PacketValue, all: seq<NamedValue>, depth: nat,
      b: seq<byte>, last: bool)
    requires codec.OptionalCodec? && value.OptionalValue?
    ensures EncodeValue(codec, value, all, depth) == Success(b)
       <==> IsForm(Canonical, codec, value, all, depth, b, last)
    decreases codec, 0
  {
    var flag := PrintBool(value.content.Some?);
    if b != [] {
      if value.content.Some? { Printed(codec.value, value.content.value, [], depth + 1, b[1..], last); }
      assert b == b[..1] + b[1..];
      assert b[..1] == flag <==> IsBool(value.content.Some?, b[..1], Canonical);
    }
    forall r: seq<byte> | b == flag + r ensures b[..1] == flag && b[1..] == r { }
    assert flag + [] == flag;
  }

  lemma {:induction false} ListPrinted(codec: FieldCodec, value: PacketValue, all: seq<NamedValue>, depth: nat,
      b: seq<byte>, last: bool)
    requires codec.ListCodec? && value.ListValue?
    ensures EncodeValue(codec, value, all, depth) == Success(b)
       <==> IsForm(Canonical, codec, value, all, depth, b, last)
    decreases codec, 0
  {
    var n, element := |value.items|, codec.element;
    if n <= I32_MAX {
      var prefix, items := PrintVarInt(n), EncodeItems(element, value.items, depth + 1);
      forall k: nat | k <= |b|
        ensures IsInt(n, b[..k], Canonical) <==> b[..k] == prefix
        ensures items == Success(b[k..]) <==> AreForms(Canonical, element, value.items, depth + 1, b[k..], last)
      {
        IntPrinted(n, b[..k]);
        ItemsPrinted(element, value.items, depth + 1, b[k..], last);
      }
      Joined(Success(prefix), items, b);
      if k: nat :| k <= |b| && prefix == b[..k] && items == Success(b[k..]) {
        assert IsInt(n, b[..k], Canonical) && AreForms(Canonical, element, value.items, depth + 1, b[k..], last);
      }
    }
  }

  lemma {:induction false} ItemsPrinted(element: FieldCodec, items: seq<PacketValue>, depth: nat, b: seq<byte>,
      last: bool)
    ensures EncodeItems(element, items, depth) == Success(b) <==> AreForms(Canonical, element, items, depth, b, last)
    decreases element, |items| + 2
  {
    if items != [] {
      forall k: nat | k <= |b|
        ensures EncodeValue(element, items[0], [], depth) == Success(b[..k])
           <==> IsForm(Canonical, element, items[0], [], depth, b[..k], last && b[k..] == [])
        ensures EncodeItems(element, items[1..], depth) == Success(b[k..])
           <==> AreForms(Canonical, element, items[1..], depth, b[k..], last)
      {
        Printed(element, items[0], [], depth, b[..k], last && b[k..] == []);
        ItemsPrinted(element, items[1..], depth, b[k..], last);
      }
      Joined(EncodeValue(element, items[0], [], depth), EncodeItems(element, items[1..], depth), b);
    }
  }

  /** Two parts printed one after another are `b` exactly if it splits into them. */
  lemma Joined(head: Encoded, tail: Encoded, b: seq<byte>)
    ensures head.Success? && tail.Success? && head.value + tail.value == b
       <==> exists k: nat :: k <= |b| && head == Success(b[..k]) && tail == Success(b[k..])
  {
    if head.Success? && tail.Success? && head.value + tail.value == b {
      var k := |head.value|;
      assert k <= |b| && head == Success(b[..k]) && tail == Success(b[k..]);
    }
    forall k: nat | k <= |b| ensures b[..k] + b[k..] == b { }
  }

  lemma {:induction false} FieldsPrinted(fields: seq<PacketField>, values: seq<NamedValue>, all: seq<NamedValue>,
      depth: nat, b: seq<byte>, last: bool)
    requires |fields| == |values|
    ensures EncodeFields(fields, values, all, depth) == Success(b)
       <==> AreFieldForms(Canonical, fields, values, all, depth, b, last)
    decreases fields, 0
  {
    if fields != [] {
      forall k: nat | k <= |b|
        ensures EncodeValue(fields[0].codec, values[0].value, all, depth + 1) == Success(b[..k])
           <==> IsForm(Canonical, fields[0].codec, values[0].value, all, depth + 1, b[..k], last && b[k..] == [])
        ensures EncodeFields(fields[1..], values[1..], all, depth) == Success(b[k..])
           <==> AreFieldForms(Canonical, fields[1..], values[1..], all, depth, b[k..], last)
      {
        Printed(fields[0].codec, values[0].value, all, depth + 1, b[..k], last && b[k..] == []);
        FieldsPrinted(fields[1..], values[1..], all, depth, b[k..], last);
      }
      Joined(EncodeValue(fields[0].codec, values[0].value, all, depth + 1),
        EncodeFields(fields[1..], values[1..], all, depth), b);
    }
  }

  lemma {:induction false} LayoutPrinted(fields: seq<PacketField>, values: seq<NamedValue>, depth: nat, b: seq<byte>,
      last: bool)
    ensures EncodeLayout(fields, values, depth) == Success(b)
       <==> IsLayoutForm(Canonical, fields, values, depth, b, last)
    decreases fields, 1
  {
    if |fields| == |values| { FieldsPrinted(fields, values, values, depth, b, last); }
  }

  // ---- What is read ----

  /** The decoder gives the value and leaves `t` if and only if what comes before `t` is an accepted form of it. */
  lemma {:induction false} Read(codec: FieldCodec, s: seq<byte>, prior: seq<NamedValue>, depth: nat,
      value: PacketValue, t: seq<byte>)
    ensures DecodeValue(codec, s, prior, depth) == Success(Parsed(value, t))
       <==> Suffix(t, s) && IsForm(Accepted, codec, value, prior, depth, Before(s, t), t == [])
    decreases codec, 1
  {
    match codec
    case ListCodec(_, _) => if value.ListValue? { ListRead(codec, s, prior, depth, value, t); }
    case OptionalCodec(_) => if value.OptionalValue? { OptionalRead(codec, s, prior, depth, value, t); }
    case StructCodec(fields) => if value.StructValue? { FieldsRead(fields, s, [], depth + 1, value.fields, t); }
    case ConditionalCodec(_, _, _) =>
      if depth <= MAX_FIELD_NESTING { ConditionalRead(codec, s, prior, depth, value, t); }
    case RemainingBytesCodec(_) => if t == [] { assert Before(s, t) == s; }
    case _ => ScalarRead(codec, s, value, t);
  }

  /** The decoder's condition, and what it decodes where that holds. */
  lemma ConditionalDecoded(codec: FieldCodec, s: seq<byte>, prior: seq<NamedValue>, depth: nat, value: PacketValue,
      t: seq<byte>)
    requires codec.ConditionalCodec? && depth <= MAX_FIELD_NESTING
    ensures DecodeValue(codec, s, prior, depth) == Success(Parsed(value, t))
       <==> || (Condition(prior, codec.field, codec.equals)
                && DecodeValue(codec.value, s, [], depth + 1) == Success(Parsed(value, t)))
            || (Condition(prior, codec.field, !codec.equals) && value.Absent? && t == s)
  {
    ConditionFound(prior, codec.field, codec.equals);
    ConditionFound(prior, codec.field, !codec.equals);
  }

  lemma {:induction false} ConditionalRead(codec: FieldCodec, s: seq<byte>, prior: seq<NamedValue>, depth: nat,
      value: PacketValue, t: seq<byte>)
    requires codec.ConditionalCodec? && depth <= MAX_FIELD_NESTING
    ensures DecodeValue(codec, s, prior, depth) == Success(Parsed(value, t))
       <==> Suffix(t, s) && IsForm(Accepted, codec, value, prior, depth, Before(s, t), t == [])
    decreases codec, 0
  {
    ConditionalDecoded(codec, s, prior, depth, value, t);
    Read(codec.value, s, [], depth + 1, value, t);
    assert t == s <==> Suffix(t, s) && Before(s, t) == [];
  }

  lemma {:induction false} ListRead(codec: FieldCodec, s: seq<byte>, prior: seq<NamedValue>, depth: nat,
      value: PacketValue, t: seq<byte>)
    requires codec.ListCodec? && value.ListValue?
    ensures DecodeValue(codec, s, prior, depth) == Success(Parsed(value, t))
       <==> Suffix(t, s) && IsForm(Accepted, codec, value, prior, depth, Before(s, t), t == [])
    decreases codec, 0
  {
    if DecodeValue(codec, s, prior, depth) == Success(Parsed(value, t)) {
      var count := DecodeCount(s, codec.maxItems).value;
      ItemsCounted(codec.element, count.value, count.rest, depth + 1);
      IntRead(s, count.value, count.rest);
      ItemsRead(codec.element, count.rest, depth + 1, value.items, t);
      TwoParts(s, count.rest, t);
    }
    if Suffix(t, s) && IsForm(Accepted, codec, value, prior, depth, Before(s, t), t == []) {
      var n, b := |value.items|, Before(s, t);
      var k: nat :| k <= |b| && IsInt(n, b[..k], Accepted)
        && AreForms(Accepted, codec.element, value.items, depth + 1, b[k..], t == []);
      SplitAt(s, t, k);
      IntRead(s, n, s[k..]);
      ItemsRead(codec.element, s[k..], depth + 1, value.items, t);
    }
  }

  lemma {:induction false} ItemsCounted(element: FieldCodec, count: nat, s: seq<byte>, depth: nat)
    requires DecodeItems(element, count, s, depth).Success?
    ensures |DecodeItems(element, count, s, depth).value.value| == count
  {
    if count > 0 { ItemsCounted(element, count - 1, DecodeValue(element, s, [], depth).value.rest, depth); }
  }

  /** A suffix of a suffix, and the parts in between. */
  lemma TwoParts(s: seq<byte>, r: seq<byte>, t: seq<byte>)
    requires Suffix(r, s) && Suffix(t, r)
    ensures Suffix(t, s)
    ensures var k := |s| - |r|; Before(s, t)[..k] == Before(s, r) && Before(s, t)[k..] == Before(r, t)
  {
  }

  lemma SplitAt(s: seq<byte>, t: seq<byte>, k: nat)
    requires Suffix(t, s) && k <= |Before(s, t)|
    ensures Suffix(s[k..], s) && Before(s, s[k..]) == Before(s, t)[..k]
    ensures Suffix(t, s[k..]) && Before(s[k..], t) == Before(s, t)[k..]
    ensures s[k..] == [] <==> t == [] && Before(s, t)[k..] == []
  {
  }

  lemma {:induction false} OptionalRead(codec: FieldCodec, s: seq<byte>, prior: seq<NamedValue>, depth: nat,
      value: PacketValue, t: seq<byte>)
    requires codec.OptionalCodec? && value.OptionalValue?
    ensures DecodeValue(codec, s, prior, depth) == Success(Parsed(value, t))
       <==> Suffix(t, s) && IsForm(Accepted, codec, value, prior, depth, Before(s, t), t == [])
    decreases codec, 0
  {
    if s != [] {
      var rest := s[1..];
      BoolRead(s, value.content.Some?, rest);
      AfterByte(s, t);
      if value.content.Some? { Read(codec.value, rest, [], depth + 1, value.content.value, t); }
    }
  }

  lemma AfterByte(s: seq<byte>, t: seq<byte>)
    requires s != []
    ensures Suffix(s[1..], s) && Before(s, s[1..]) == s[..1]
    ensures Suffix(t, s[1..]) <==> Suffix(t, s) && Before(s, t) != []
    ensures Suffix(t, s[1..]) ==> Before(s, t)[..1] == s[..1] && Before(s, t)[1..] == Before(s[1..], t)
    ensures s[1..] == t <==> Suffix(t, s[1..]) && Before(s[1..], t) == []
  {
    if Suffix(t, s[1..]) { TwoParts(s, s[1..], t); }
    if Suffix(t, s) && Before(s, t) != [] { SplitAt(s, t, 1); }
  }

  lemma JoinItems(element: FieldCodec, items: seq<PacketValue>, depth: nat, s: seq<byte>, r: seq<byte>, t: seq<byte>)
    requires items != [] && Suffix(r, s) && Suffix(t, r)
    requires IsForm(Accepted, element, items[0], [], depth, Before(s, r), r == [])
    requires AreForms(Accepted, element, items[1..], depth, Before(r, t), t == [])
    ensures Suffix(t, s) && AreForms(Accepted, element, items, depth, Before(s, t), t == [])
  {
    TwoParts(s, r, t);
    var k, b := |s| - |r|, Before(s, t);
    assert r == [] <==> t == [] && b[k..] == [];
    assert IsForm(Accepted, element, items[0], [], depth, b[..k], t == [] && b[k..] == []);
  }

  lemma SplitItems(element: FieldCodec, items: seq<PacketValue>, depth: nat, s: seq<byte>, t: seq<byte>)
      returns (r: seq<byte>)
    requires items != [] && Suffix(t, s) && AreForms(Accepted, element, items, depth, Before(s, t), t == [])
    ensures Suffix(r, s) && Suffix(t, r)
    ensures IsForm(Accepted, element, items[0], [], depth, Before(s, r), r == [])
    ensures AreForms(Accepted, element, items[1..], depth, Before(r, t), t == [])
  {
    var b := Before(s, t);
    var k: nat :| k <= |b| && IsForm(Accepted, element, items[0], [], depth, b[..k], t == [] && b[k..] == [])
      && AreForms(Accepted, element, items[1..], depth, b[k..], t == []);
    SplitAt(s, t, k);
    r := s[k..];
  }

  lemma ItemsStep(element: FieldCodec, s: seq<byte>, depth: nat, items: seq<PacketValue>, t: seq<byte>)
      returns (r: seq<byte>)
    requires items != [] && DecodeItems(element, |items|, s, depth) == Success(Parsed(items, t))
    ensures DecodeValue(element, s, [], depth) == Success(Parsed(items[0], r))
    ensures DecodeItems(element, |items[1..]|, r, depth) == Success(Parsed(items[1..], t))
  {
    var head := DecodeValue(element, s, [], depth).value;
    r := head.rest;
    var tail := DecodeItems(element, |items| - 1, r, depth);
    assert tail.Success? && items == [head.value] + tail.value.value && tail.value.rest == t;
    ConsParts(head.value, tail.value.value);
  }

  lemma ConsParts<T>(head: T, tail: seq<T>)
    ensures ([head] + tail)[0] == head && ([head] + tail)[1..] == tail
  {
  }

  lemma {:induction false} ItemsRead(element: FieldCodec, s: seq<byte>, depth: nat, items: seq<PacketValue>,
      t: seq<byte>)
    ensures DecodeItems(element, |items|, s, depth) == Success(Parsed(items, t))
       <==> Suffix(t, s) && AreForms(Accepted, element, items, depth, Before(s, t), t == [])
    decreases element, |items| + 2, 1
  {
    if items != [] {
      if DecodeItems(element, |items|, s, depth) == Success(Parsed(items, t)) {
        ItemsReadAreForms(element, s, depth, items, t);
      }
      if Suffix(t, s) && AreForms(Accepted, element, items, depth, Before(s, t), t == []) {
        var r := SplitItems(element, items, depth, s, t);
        FormsAreRead(element, s, depth, items, r, t);
      }
    }
  }

  lemma {:induction false} ItemsReadAreForms(element: FieldCodec, s: seq<byte>, depth: nat, items: seq<PacketValue>,
      t: seq<byte>)
    requires items != [] && DecodeItems(element, |items|, s, depth) == Success(Parsed(items, t))
    ensures Suffix(t, s) && AreForms(Accepted, element, items, depth, Before(s, t), t == [])
    decreases element, |items| + 2, 0
  {
    var r := ItemsStep(element, s, depth, items, t);
    Read(element, s, [], depth, items[0], r);
    ItemsRead(element, r, depth, items[1..], t);
    JoinItems(element, items, depth, s, r, t);
  }

  lemma {:induction false} FormsAreRead(element: FieldCodec, s: seq<byte>, depth: nat, items: seq<PacketValue>,
      r: seq<byte>, t: seq<byte>)
    requires items != [] && Suffix(r, s) && Suffix(t, r)
    requires IsForm(Accepted, element, items[0], [], depth, Before(s, r), r == [])
    requires AreForms(Accepted, element, items[1..], depth, Before(r, t), t == [])
    ensures DecodeItems(element, |items|, s, depth) == Success(Parsed(items, t))
    decreases element, |items| + 2, 0
  {
    FormsFollow(element, s, depth, items[0], items[1..], r, t);
    AllItems(element, s, depth, items, t);
  }

  lemma AllItems(element: FieldCodec, s: seq<byte>, depth: nat, items: seq<PacketValue>, t: seq<byte>)
    requires items != []
    requires DecodeItems(element, |items[1..]| + 1, s, depth) == Success(Parsed([items[0]] + items[1..], t))
    ensures DecodeItems(element, |items|, s, depth) == Success(Parsed(items, t))
  {
    assert items == [items[0]] + items[1..];
  }

  lemma {:induction false} FormsFollow(element: FieldCodec, s: seq<byte>, depth: nat, head: PacketValue,
      tail: seq<PacketValue>, r: seq<byte>, t: seq<byte>)
    requires Suffix(r, s) && IsForm(Accepted, element, head, [], depth, Before(s, r), r == [])
    requires Suffix(t, r) && AreForms(Accepted, element, tail, depth, Before(r, t), t == [])
    ensures DecodeItems(element, |tail| + 1, s, depth) == Success(Parsed([head] + tail, t))
    decreases element, |tail| + 2, 2
  {
    Read(element, s, [], depth, head, r);
    ItemsRead(element, r, depth, tail, t);
  }

  lemma JoinFields(fields: seq<PacketField>, values: seq<NamedValue>, prior: seq<NamedValue>, depth: nat,
      s: seq<byte>, r: seq<byte>, t: seq<byte>)
    requires fields != [] && values != [] && fields[0].name == values[0].name && Suffix(r, s) && Suffix(t, r)
    requires IsForm(Accepted, fields[0].codec, values[0].value, prior, depth + 1, Before(s, r), r == [])
    requires AreFieldForms(Accepted, fields[1..], values[1..], prior + [values[0]], depth, Before(r, t), t == [])
    ensures Suffix(t, s) && AreFieldForms(Accepted, fields, values, prior, depth, Before(s, t), t == [])
  {
    TwoParts(s, r, t);
    var k, b := |s| - |r|, Before(s, t);
    assert r == [] <==> t == [] && b[k..] == [];
    assert IsForm(Accepted, fields[0].codec, values[0].value, prior, depth + 1, b[..k], t == [] && b[k..] == []);
  }

  lemma SplitFields(fields: seq<PacketField>, values: seq<NamedValue>, prior: seq<NamedValue>, depth: nat,
      s: seq<byte>, t: seq<byte>)
      returns (r: seq<byte>)
    requires fields != [] && values != [] && Suffix(t, s)
    requires AreFieldForms(Accepted, fields, values, prior, depth, Before(s, t), t == [])
    ensures Suffix(r, s) && Suffix(t, r)
    ensures IsForm(Accepted, fields[0].codec, values[0].value, prior, depth + 1, Before(s, r), r == [])
    ensures AreFieldForms(Accepted, fields[1..], values[1..], prior + [values[0]], depth, Before(r, t), t == [])
  {
    var b := Before(s, t);
    var k: nat :| k <= |b|
      && IsForm(Accepted, fields[0].codec, values[0].value, prior, depth + 1, b[..k], t == [] && b[k..] == [])
      && AreFieldForms(Accepted, fields[1..], values[1..], prior + [values[0]], depth, b[k..], t == []);
    SplitAt(s, t, k);
    r := s[k..];
  }

  lemma FieldsStep(fields: seq<PacketField>, s: seq<byte>, prior: seq<NamedValue>, depth: nat,
      values: seq<NamedValue>, t: seq<byte>)
      returns (r: seq<byte>)
    requires fields != [] && DecodeFields(fields, s, prior, depth) == Success(Parsed(values, t))
    ensures values != [] && values[0].name == fields[0].name
    ensures DecodeValue(fields[0].codec, s, prior, depth + 1) == Success(Parsed(values[0].value, r))
    ensures DecodeFields(fields[1..], r, prior + [values[0]], depth) == Success(Parsed(values[1..], t))
  {
    var head := DecodeValue(fields[0].codec, s, prior, depth + 1).value;
    var named := NamedValue(fields[0].name, head.value);
    r := head.rest;
    ConsParts(named, DecodeFields(fields[1..], r, prior + [named], depth).value.value);
  }

  lemma {:induction false} FieldsRead(fields: seq<PacketField>, s: seq<byte>, prior: seq<NamedValue>, depth: nat,
      values: seq<NamedValue>, t: seq<byte>)
    ensures DecodeFields(fields, s, prior, depth) == Success(Parsed(values, t))
       <==> Suffix(t, s) && AreFieldForms(Accepted, fields, values, prior, depth, Before(s, t), t == [])
    decreases fields, 2, 1
  {
    if fields != [] {
      if DecodeFields(fields, s, prior, depth) == Success(Parsed(values, t)) {
        FieldsReadAreForms(fields, s, prior, depth, values, t);
      }
      if Suffix(t, s) && AreFieldForms(Accepted, fields, values, prior, depth, Before(s, t), t == []) {
        FieldFormsAreRead(fields, s, prior, depth, values, t);
      }
    }
  }

  lemma {:induction false} FieldsReadAreForms(fields: seq<PacketField>, s: seq<byte>, prior: seq<NamedValue>,
      depth: nat, values: seq<NamedValue>, t: seq<byte>)
    requires fields != [] && DecodeFields(fields, s, prior, depth) == Success(Parsed(values, t))
    ensures Suffix(t, s) && AreFieldForms(Accepted, fields, values, prior, depth, Before(s, t), t == [])
    decreases fields, 2, 0
  {
    var r := FieldsStep(fields, s, prior, depth, values, t);
    Read(fields[0].codec, s, prior, depth + 1, values[0].value, r);
    FieldsRead(fields[1..], r, prior + [values[0]], depth, values[1..], t);
    JoinFields(fields, values, prior, depth, s, r, t);
  }

  lemma {:induction false} FieldFormsAreRead(fields: seq<PacketField>, s: seq<byte>, prior: seq<NamedValue>,
      depth: nat, values: seq<NamedValue>, t: seq<byte>)
    requires fields != [] && Suffix(t, s)
    requires AreFieldForms(Accepted, fields, values, prior, depth, Before(s, t), t == [])
    ensures DecodeFields(fields, s, prior, depth) == Success(Parsed(values, t))
    decreases fields, 2, 0
  {
    var r := SplitFields(fields, values, prior, depth, s, t);
    Read(fields[0].codec, s, prior, depth + 1, values[0].value, r);
    FieldsRead(fields[1..], r, prior + [values[0]], depth, values[1..], t);
    assert values == [values[0]] + values[1..];
  }

  // ---- Packets ----

  /** A packet goes out as its ID and the canonical form of its fields, and as nothing else. */
  lemma PacketPrinted(registry: Registry, p: PacketDefinition, values: seq<NamedValue>, b: seq<byte>)
    requires registry.Valid() && p in registry.packets && p.layout.Layout?
    ensures EncodePacket(registry, p.state, p.direction, p.identity, values) == Success(b)
       <==> exists k: nat :: k <= |b| && IsInt(p.id, b[..k], Canonical)
              && IsLayoutForm(Canonical, p.layout.fields, values, 0, b[k..], true)
  {
    var id, body := PrintVarInt(p.id), EncodeLayout(p.layout.fields, values, 0);
    forall k: nat | k <= |b|
      ensures IsInt(p.id, b[..k], Canonical) <==> b[..k] == id
      ensures body == Success(b[k..]) <==> IsLayoutForm(Canonical, p.layout.fields, values, 0, b[k..], true)
    {
      IntPrinted(p.id, b[..k]);
      LayoutPrinted(p.layout.fields, values, 0, b[k..], true);
    }
    Joined(Success(id), body, b);
    if k: nat :| k <= |b| && id == b[..k] && body == Success(b[k..]) {
      assert IsInt(p.id, b[..k], Canonical) && IsLayoutForm(Canonical, p.layout.fields, values, 0, b[k..], true);
    }
  }

  /** A payload is taken as these fields if and only if it is an accepted form of them, to the last byte. */
  lemma PacketRead(registry: Registry, p: PacketDefinition, payload: seq<byte>, values: seq<NamedValue>)
    requires registry.Valid() && p in registry.packets && p.layout.Layout?
    ensures DecodePacket(registry, p.state, p.direction, p.id, payload) == Success(DecodedPacket(p, values))
       <==> IsLayoutForm(Accepted, p.layout.fields, values, 0, payload, true)
  {
    assert p.IdKey() in registry.byId;
    FieldsRead(p.layout.fields, payload, [], 0, values, []);
    assert Before(payload, []) == payload;
  }
}
