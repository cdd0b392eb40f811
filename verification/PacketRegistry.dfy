/** Packet lookup by ID and by identity, and whole packets on the wire (packet_schema.rs). */
module PacketRegistry {
  import opened Wrappers
  import opened Bytes
  import opened Text
  import opened Codec
  import opened CodecIO
  import opened PacketSchema
  import opened SchemaRoundTrip
  import opened SchemaTheorems
  import opened PacketCodec
  import opened Frames

  datatype ProtocolState = Handshake | Status | Login | Configuration | Play {
    function Rank(): nat {
      match this case Handshake => 0 case Status => 1 case Login => 2 case Configuration => 3 case Play => 4
    }
  }

  datatype PacketDirection = Serverbound | Clientbound {
    function Rank(): nat {
      if Serverbound? then 0 else 1
    }
  }

  datatype UnsupportedReason =
    | NoStructuralSourceEntry
    | AmbiguousIdentityMapping(detail: Utf8)
    | UnsupportedCodecConstruct(detail: Utf8)
    | UnsupportedConditionalConstruct(detail: Utf8)

  datatype PacketLayout = Unsupported(reason: UnsupportedReason) | Layout(fields: seq<PacketField>)

  datatype PacketDefinition = PacketDefinition(
    state: ProtocolState, direction: PacketDirection, identity: string, id: u32, layout: PacketLayout)
  {
    function IdKey(): (ProtocolState, PacketDirection, u32) {
      (state, direction, id)
    }

    function IdentityKey(): (ProtocolState, PacketDirection, string) {
      (state, direction, identity)
    }

    /**
      Definitions are sorted by state, direction, ID and identity. Equal IDs within a state and
      direction are refused anyway, so the order of identities decides nothing.
     */
    function SortKey(): nat {
      (2 * state.Rank() + direction.Rank()) * TWO32 + id
    }
  }

  predicate ValidText(text: Utf8, maxBytes: nat) {
    0 < |text| <= maxBytes && !HasControl(text)
  }

  predicate ValidPacket(p: PacketDefinition) {
    p.id <= I32_MAX && ValidAvailability(p.layout)
  }

  predicate ValidAvailability(layout: PacketLayout) {
    match layout
    case Layout(fields) => ValidLayout(fields, 0)
    case Unsupported(reason) => reason.NoStructuralSourceEntry? || ValidText(reason.detail, 128)
  }

  /** What `validate_artifact` demands of the packet list. */
  predicate ValidPackets(packets: seq<PacketDefinition>) {
    && |packets| <= MAX_PACKETS
    && (forall i :: 0 <= i < |packets| ==> ValidPacket(packets[i]))
    && (forall i, j :: 0 <= i < j < |packets| ==> packets[i].SortKey() < packets[j].SortKey())
    && (forall i, j :: 0 <= i < j < |packets| ==> packets[i].IdentityKey() != packets[j].IdentityKey())
  }

  datatype Registry = Registry(
    packets: seq<PacketDefinition>,
    byId: map<(ProtocolState, PacketDirection, u32), nat>,
    byIdentity: map<(ProtocolState, PacketDirection, string), nat>)
  {
    /** The packets are valid, and each is found under its ID and under its identity and nowhere else. */
    predicate Valid() {
      && ValidPackets(packets)
      && (forall key :: key in byId ==> byId[key] < |packets| && packets[byId[key]].IdKey() == key)
      && (forall key :: key in byIdentity ==>
            byIdentity[key] < |packets| && packets[byIdentity[key]].IdentityKey() == key)
      && (forall i :: 0 <= i < |packets| ==> packets[i].IdKey() in byId && byId[packets[i].IdKey()] == i)
      && (forall i :: 0 <= i < |packets| ==>
            packets[i].IdentityKey() in byIdentity && byIdentity[packets[i].IdentityKey()] == i)
    }
  }

  lemma SortKeyDeterminesId(p: PacketDefinition, q: PacketDefinition)
    ensures p.SortKey() == q.SortKey() <==> p.IdKey() == q.IdKey()
  {
  }

  method ValidateUnsupportedReason(reason: UnsupportedReason) returns (r: Result<(), SchemaError>)
    ensures r == if reason.NoStructuralSourceEntry? || ValidText(reason.detail, 128) then Success(())
      else Failure(InvalidSchema)
  {
    if reason.NoStructuralSourceEntry? {
      return Success(());
    }
    if reason.detail == [] || |reason.detail| > 128 || HasControl(reason.detail) {
      return Failure(InvalidSchema);
    }
    return Success(());
  }

  method ValidateLayout(layout: PacketLayout) returns (r: Result<(), SchemaError>)
    ensures r == if ValidAvailability(layout) then Success(()) else Failure(InvalidSchema)
  {
    match layout {
      case Layout(fields) => r := ValidateFields(fields, 0);
      case Unsupported(reason) => r := ValidateUnsupportedReason(reason);
    }
  }

  /** The first `n` packets, without cutting them off. */
  predicate ValidUpTo(packets: seq<PacketDefinition>, n: nat)
    requires n <= |packets|
  {
    && (forall i :: 0 <= i < n ==> ValidPacket(packets[i]))
    && (forall i, j :: 0 <= i < j < n ==> packets[i].SortKey() < packets[j].SortKey())
    && (forall i, j :: 0 <= i < j < n ==> packets[i].IdentityKey() != packets[j].IdentityKey())
  }

  lemma ValidSlice(packets: seq<PacketDefinition>, n: nat)
    requires n <= |packets| <= MAX_PACKETS
    ensures ValidPackets(packets[..n]) <==> ValidUpTo(packets, n)
  {
    assert forall i :: 0 <= i < n ==> packets[..n][i] == packets[i];
  }

  lemma OneMoreValid(packets: seq<PacketDefinition>, i: nat)
    requires i < |packets| && ValidUpTo(packets, i)
    ensures ValidUpTo(packets, i + 1)
       <==> && ValidPacket(packets[i])
            && (i > 0 ==> packets[i - 1].SortKey() < packets[i].SortKey())
            && forall k :: 0 <= k < i ==> packets[k].IdentityKey() != packets[i].IdentityKey()
  {
  }

  /** A valid list goes on being valid with a packet that is, sorts last and has an identity of its own. */
  lemma ValidPacketsMore(packets: seq<PacketDefinition>, i: nat)
    requires i < |packets| <= MAX_PACKETS && ValidPackets(packets[..i])
    ensures ValidPackets(packets[..i + 1])
       <==> && ValidPacket(packets[i])
            && (i > 0 ==> packets[i - 1].SortKey() < packets[i].SortKey())
            && forall k :: 0 <= k < i ==> packets[k].IdentityKey() != packets[i].IdentityKey()
    ensures !ValidPackets(packets[..i + 1]) ==> !ValidPackets(packets)
  {
    ValidSlice(packets, i);
    ValidSlice(packets, i + 1);
    OneMoreValid(packets, i);
    if ValidPackets(packets) { ValidPrefix(packets, i + 1); }
  }

  lemma ValidPrefix(packets: seq<PacketDefinition>, n: nat)
    requires ValidPackets(packets) && n <= |packets|
    ensures ValidPackets(packets[..n])
  {
  }

  method ValidatePackets(packets: seq<PacketDefinition>) returns (r: Result<(), SchemaError>)
    ensures r == if ValidPackets(packets) then Success(()) else Failure(InvalidSchema)
  {
    if |packets| > MAX_PACKETS {
      return Failure(InvalidSchema);
    }
    var identities: set<(ProtocolState, PacketDirection, string)> := {};
    for i := 0 to |packets|
      invariant ValidPackets(packets[..i])
      invariant identities == set k | 0 <= k < i :: packets[k].IdentityKey()
    {
      var packet := packets[i];
      ValidPacketsMore(packets, i);
      if i > 0 && packets[i - 1].SortKey() >= packet.SortKey() {
        return Failure(InvalidSchema);
      }
      if packet.id > I32_MAX {
        return Failure(InvalidSchema);
      }
      if packet.IdentityKey() in identities {
        return Failure(InvalidSchema);
      }
      identities := identities + {packet.IdentityKey()};
      var _ :- ValidateLayout(packet.layout);
    }
    assert packets[..|packets|] == packets;
    return Success(());
  }

  datatype Supplement = Supplement(source: Utf8, revision: Utf8, sourceSchema: Utf8, contentSha256: Utf8, license: Utf8)

  /** The versions of the game it was made for do not matter here. */
  datatype Artifact = Artifact(schemaVersion: u32, supplement: Option<Supplement>, packets: seq<PacketDefinition>)

  const CURRENT_SCHEMA_VERSION: u32 := 1

  predicate HexByte(b: byte) {
    0x30 <= b <= 0x39 || 0x41 <= b <= 0x46 || 0x61 <= b <= 0x66
  }

  predicate ValidSupplement(s: Supplement) {
    && (forall text :: text in [s.source, s.revision, s.sourceSchema, s.license] ==> ValidText(text, 512))
    && |s.contentSha256| == 64
    && (forall i :: 0 <= i < |s.contentSha256| ==> HexByte(s.contentSha256[i]))
  }

  predicate ValidArtifact(a: Artifact) {
    && a.schemaVersion == CURRENT_SCHEMA_VERSION
    && (a.supplement.Some? ==> ValidSupplement(a.supplement.value))
    && ValidPackets(a.packets)
  }

  method ValidateSupplement(s: Supplement) returns (r: Result<(), SchemaError>)
    ensures r == if ValidSupplement(s) then Success(()) else Failure(InvalidSchema)
  {
    var texts := [s.source, s.revision, s.sourceSchema, s.license];
    for i := 0 to |texts|
      invariant forall k :: 0 <= k < i ==> ValidText(texts[k], 512)
    {
      if texts[i] == [] || |texts[i]| > 512 || HasControl(texts[i]) {
        assert texts[i] in texts;
        return Failure(InvalidSchema);
      }
    }
    if |s.contentSha256| != 64 || exists i :: 0 <= i < |s.contentSha256| && !HexByte(s.contentSha256[i]) {
      return Failure(InvalidSchema);
    }
    return Success(());
  }

  method ValidateArtifact(artifact: Artifact) returns (r: Result<(), SchemaError>)
    ensures r.Success? <==> ValidArtifact(artifact)
    ensures r.Failure? ==>
      r.error == if artifact.schemaVersion != CURRENT_SCHEMA_VERSION then UnsupportedSchemaVersion else InvalidSchema
  {
    if artifact.schemaVersion != CURRENT_SCHEMA_VERSION {
      return Failure(UnsupportedSchemaVersion);
    }
    if artifact.supplement.Some? {
      var _ :- ValidateSupplement(artifact.supplement.value);
    }
    r := ValidatePackets(artifact.packets);
  }

  method New(artifact: Artifact) returns (r: Result<Registry, SchemaError>)
    ensures r.Success? <==> ValidArtifact(artifact)
    ensures r.Success? ==> r.value.Valid() && r.value.packets == artifact.packets
    ensures r.Failure? ==>
      r.error == if artifact.schemaVersion != CURRENT_SCHEMA_VERSION then UnsupportedSchemaVersion else InvalidSchema
  {
    var _ :- ValidateArtifact(artifact);
    var packets := artifact.packets;
    var byId: map<(ProtocolState, PacketDirection, u32), nat> := map[];
    var byIdentity: map<(ProtocolState, PacketDirection, string), nat> := map[];
    for i := 0 to |packets|
      invariant forall key :: key in byId ==> byId[key] < i && packets[byId[key]].IdKey() == key
      invariant forall key :: key in byIdentity ==> byIdentity[key] < i && packets[byIdentity[key]].IdentityKey() == key
      invariant forall k :: 0 <= k < i ==> packets[k].IdKey() in byId && byId[packets[k].IdKey()] == k
      invariant forall k :: 0 <= k < i ==>
        packets[k].IdentityKey() in byIdentity && byIdentity[packets[k].IdentityKey()] == k
    {
      forall k | 0 <= k < i ensures packets[k].IdKey() != packets[i].IdKey() {
        SortKeyDeterminesId(packets[k], packets[i]);
      }
      byId := byId[packets[i].IdKey() := i];
      byIdentity := byIdentity[packets[i].IdentityKey() := i];
    }
    return Success(Registry(packets, byId, byIdentity));
  }

  datatype DecodedPacket = DecodedPacket(definition: PacketDefinition, fields: seq<NamedValue>)

  function DecodePacket(registry: Registry, state: ProtocolState, direction: PacketDirection, id: u32,
      payload: seq<byte>)
      : Result<DecodedPacket, SchemaError>
    requires registry.Valid()
  {
    if (state, direction, id) !in registry.byId then Failure(UnknownPacket)
    else
      var definition := registry.packets[registry.byId[(state, direction, id)]];
      if definition.layout.Unsupported? then Failure(UnsupportedPacket)
      else
        var decoded :- DecodeFields(definition.layout.fields, payload, [], 0);
        if decoded.rest != [] then Failure(TrailingBytes) else Success(DecodedPacket(definition, decoded.value))
  }

  function EncodePacket(registry: Registry, state: ProtocolState, direction: PacketDirection, identity: string,
      values: seq<NamedValue>)
      : Encoded
    requires registry.Valid()
  {
    if (state, direction, identity) !in registry.byIdentity then Failure(InvalidSchema)
    else
      var definition := registry.packets[registry.byIdentity[(state, direction, identity)]];
      if definition.layout.Unsupported? then Failure(UnsupportedPacket)
      else
        var body :- EncodeLayout(definition.layout.fields, values, 0);
        Success(PrintVarInt(definition.id) + body)
  }

  method Decode(registry: Registry, state: ProtocolState, direction: PacketDirection, id: u32, payload: seq<byte>)
      returns (r: Result<DecodedPacket, SchemaError>)
    requires registry.Valid()
    ensures r == DecodePacket(registry, state, direction, id, payload)
  {
    if (state, direction, id) !in registry.byId {
      return Failure(UnknownPacket);
    }
    var definition := registry.packets[registry.byId[(state, direction, id)]];
    if definition.layout.Unsupported? {
      return Failure(UnsupportedPacket);
    }
    var reader := new CodecReader(payload);
    var fields :- ReadFields(definition.layout.fields, reader, 0);
    var remaining := reader.Remaining();
    if remaining != 0 {
      return Failure(TrailingBytes);
    }
    return Success(DecodedPacket(definition, fields));
  }

  method Encode(registry: Registry, state: ProtocolState, direction: PacketDirection, identity: string,
      values: seq<NamedValue>)
      returns (r: Result<seq<byte>, SchemaError>)
    requires registry.Valid()
    ensures r == EncodePacket(registry, state, direction, identity, values)
  {
    if (state, direction, identity) !in registry.byIdentity {
      return Failure(InvalidSchema);
    }
    var definition := registry.packets[registry.byIdentity[(state, direction, identity)]];
    if definition.layout.Unsupported? {
      return Failure(UnsupportedPacket);
    }
    var writer := new CodecWriter();
    writer.WriteVarInt(definition.id);
    assert writer.output == PrintVarInt(definition.id);
    var _ :- WriteFields(definition.layout.fields, values, writer, 0);
    return Success(writer.output);
  }

  /**
    A packet that encodes is split and decoded to the same definition and the same values if and
    only if nothing is printed after a field that takes the remaining bytes.
   */
  lemma PacketRoundTrip(registry: Registry, state: ProtocolState, direction: PacketDirection, identity: string,
      values: seq<NamedValue>)
    requires registry.Valid() && EncodePacket(registry, state, direction, identity, values).Success?
    ensures var bytes := EncodePacket(registry, state, direction, identity, values).value;
      var definition := registry.packets[registry.byIdentity[(state, direction, identity)]];
      && ParseVarInt(bytes).Success?
      && ParseVarInt(bytes).value.value == definition.id
      && definition.IdentityKey() == (state, direction, identity)
      && (var decoded := DecodePacket(registry, state, direction, definition.id, ParseVarInt(bytes).value.rest);
          decoded == Success(DecodedPacket(definition, values))
          <==> ClosedFields(definition.layout.fields, values, true))
      && (TailOnlyFields(definition.layout.fields) ==> ClosedFields(definition.layout.fields, values, true))
  {
    var definition := registry.packets[registry.byIdentity[(state, direction, identity)]];
    var body := EncodeLayout(definition.layout.fields, values, 0).value;
    VarIntRoundTrip(definition.id, body);
    assert definition.IdKey() == (state, direction, definition.id);
    RoundTrip(definition.layout.fields, values);
    if TailOnlyFields(definition.layout.fields) { TailOnlyFieldsClosed(definition.layout.fields, values); }
  }

  /** A packet that decodes encodes again, no longer than it came, and decodes to the same values. */
  lemma PacketNormalises(registry: Registry, state: ProtocolState, direction: PacketDirection, id: u32,
      payload: seq<byte>)
    requires registry.Valid() && DecodePacket(registry, state, direction, id, payload).Success?
    ensures var packet := DecodePacket(registry, state, direction, id, payload).value;
      var again := EncodePacket(registry, state, direction, packet.definition.identity, packet.fields);
      && again.Success?
      && |again.value| <= |PrintVarInt(id)| + |payload|
      && ParseVarInt(again.value).Success?
      && DecodePacket(registry, state, direction, id, ParseVarInt(again.value).value.rest) == Success(packet)
  {
    var packet := DecodePacket(registry, state, direction, id, payload).value;
    ParsingNormalises(packet.definition.layout.fields, payload);
    var body := EncodeLayout(packet.definition.layout.fields, packet.fields, 0).value;
    VarIntRoundTrip(id, body);
  }

  /** A registered packet never fails with the nesting limit or a missing condition, either way. */
  lemma PacketFaultFree(registry: Registry, p: PacketDefinition, payload: seq<byte>, values: seq<NamedValue>)
    requires registry.Valid() && p in registry.packets
    ensures var d := DecodePacket(registry, p.state, p.direction, p.id, payload); d.Failure? ==> !SchemaFault(d.error)
    ensures var e := EncodePacket(registry, p.state, p.direction, p.identity, values);
      e.Failure? ==> !SchemaFault(e.error)
  {
    if p.layout.Layout? { ValidatorSound(p.layout.fields, payload, values); }
  }
}
