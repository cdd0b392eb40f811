/**
  One direction of a connection end to end: what encode_outbound puts on the wire, delivered in
  arbitrary fragments through decryption, framing and decompression.
 */
module Link {
  import opened Wrappers
  import opened Bytes
  import opened Codec
  import opened Frames
  import opened Transport

  datatype Config = Config(cipher: StreamCipher, zlib: Zlib, limits: FrameLimits) {
    ghost predicate Valid() {
      limits.Valid() && Invertible(cipher) && Lossless(zlib)
    }
  }

  /** What the sender does, in order: packets, and the point from which packets are compressed. */
  datatype Item = Packet(body: seq<byte>) | Compress(threshold: nat)

  datatype State = State(
    sealing: Option<Register>, sendThreshold: Option<nat>, sent: seq<Item>,
    network: seq<byte>,
    opening: Option<Register>, recvThreshold: Option<nat>, pending: seq<byte>,
    handled: nat, delivered: seq<seq<byte>>, broken: bool)

  const IDLE := State(None, None, [], [], None, None, [], 0, [], false)

  datatype Event =
    | Send(body: seq<byte>)
    | SwitchSender(threshold: nat)
    | Encrypt(secret: Register)
    | Arrive(count: nat)
    | Take

  function WireBytes(c: Config, body: seq<byte>, threshold: Option<nat>): Result<seq<byte>, TransformError> {
    var framed :- FrameUp(body, c.limits.maxFrameSize);
    Outbound(c.zlib, framed, threshold, c.limits)
  }

  /** The empty body under threshold 0 does not survive compression. */
  predicate Sendable(body: seq<byte>, threshold: Option<nat>) {
    body != [] || threshold != Some(0)
  }

  /**
    A failed send and a refused fragment change nothing. The receiver switches compression on when
    it has handled every packet sent before the switch, whatever is already buffered. Encryption
    starts on both sides when nothing is under way.
   */
  function Step(c: Config, s: State, e: Event): State {
    match e
    case Send(body) =>
      var wire := WireBytes(c, body, s.sendThreshold);
      if wire.Failure? || !Sendable(body, s.sendThreshold) then s
      else
        var (next, sealed) := SealWith(c.cipher, s.sealing, wire.value);
        s.(sealing := next, sent := s.sent + [Packet(body)], network := s.network + sealed)
    case SwitchSender(threshold) =>
      s.(sendThreshold := Some(threshold), sent := s.sent + [Compress(threshold)])
    case Encrypt(secret) =>
      if s.network == [] && s.pending == [] then s.(sealing := Some(secret), opening := Some(secret)) else s
    case Arrive(count) =>
      if count > |s.network| || |s.pending| + count > c.limits.maxBufferedBytes then s
      else
        var (next, plain) := OpenWith(c.cipher, s.opening, s.network[..count]);
        s.(opening := next, pending := s.pending + plain, network := s.network[count..])
    case Take =>
      if s.handled < |s.sent| && s.sent[s.handled].Compress? then
        s.(recvThreshold := Some(s.sent[s.handled].threshold), handled := s.handled + 1)
      else
        match NextFrame(s.pending, c.limits.maxFrameSize)
        case NoFrame => s
        case BadFrame(_) => s.(broken := true)
        case Frame(payload, n) =>
          match DecodeBody(c.zlib, payload, s.recvThreshold, c.limits.maxFrameSize)
          case Failure(_) => s.(broken := true)
          case Success(body) => s.(pending := s.pending[n..], handled := s.handled + 1,
            delivered := s.delivered + [body])
  }

  function Run(c: Config, s: State, events: seq<Event>): State
    decreases |events|
  {
    if events == [] then s else Run(c, Step(c, s, events[0]), events[1..])
  }

  function Bodies(items: seq<Item>): seq<seq<byte>> {
    if items == [] then []
    else (if items[0].Packet? then [items[0].body] else []) + Bodies(items[1..])
  }

  function ThresholdAfter(items: seq<Item>, threshold: Option<nat>): Option<nat> {
    if items == [] then threshold
    else ThresholdAfter(items[1..], if items[0].Compress? then Some(items[0].threshold) else threshold)
  }

  predicate Transmissible(c: Config, items: seq<Item>, threshold: Option<nat>) {
    items == [] ||
    match items[0]
    case Packet(body) => WireBytes(c, body, threshold).Success? && Sendable(body, threshold)
      && Transmissible(c, items[1..], threshold)
    case Compress(t) => Transmissible(c, items[1..], Some(t))
  }

  /** The unencrypted bytes of items not yet handled. */
  function PlainBytes(c: Config, items: seq<Item>, threshold: Option<nat>): seq<byte>
    requires Transmissible(c, items, threshold)
  {
    if items == [] then []
    else
      match items[0]
      case Packet(body) => WireBytes(c, body, threshold).value + PlainBytes(c, items[1..], threshold)
      case Compress(t) => PlainBytes(c, items[1..], Some(t))
  }

  /**
    What is buffered, followed by what is on the network once opened, is exactly what the items not
    yet handled print to; the two ends agree on cipher register and threshold; nothing is lost,
    reordered or corrupted.
   */
  predicate Consistent(c: Config, s: State) {
    && !s.broken
    && s.handled <= |s.sent|
    && var todo := s.sent[s.handled..];
    && Transmissible(c, todo, s.recvThreshold)
    && s.sendThreshold == ThresholdAfter(todo, s.recvThreshold)
    && s.delivered == Bodies(s.sent[..s.handled])
    && OpenWith(c.cipher, s.opening, s.network).0 == s.sealing
    && s.pending + OpenWith(c.cipher, s.opening, s.network).1 == PlainBytes(c, todo, s.recvThreshold)
  }

  // ---- One packet ----

  lemma WireRoundTrip(c: Config, body: seq<byte>, threshold: Option<nat>, t: seq<byte>)
    requires c.Valid() && WireBytes(c, body, threshold).Success? && Sendable(body, threshold)
    ensures var wire := WireBytes(c, body, threshold).value;
      var front := NextFrame(wire + t, c.limits.maxFrameSize);
      && front.Frame? && front.bytes == |wire|
      && DecodeBody(c.zlib, front.body, threshold, c.limits.maxFrameSize) == Success(body)
  {
    var max := c.limits.maxFrameSize;
    var framed := FrameUp(body, max).value;
    FrameRoundTrip(body, max, []);
    assert framed + [] == framed;
    FrameRoundTrip(body, max, t);
    if threshold.Some? {
      CompressionRoundTrip(c.zlib, body, threshold.value, max);
      FrameRoundTrip(CompressedPayload(c.zlib, body, threshold.value).value, max, t);
    }
  }

  // ---- Items at the end, items at the front ----

  lemma {:induction false} SendOne(c: Config, items: seq<Item>, threshold: Option<nat>, item: Item)
    requires Transmissible(c, items, threshold)
    requires var t := ThresholdAfter(items, threshold);
      item.Packet? ==> WireBytes(c, item.body, t).Success? && Sendable(item.body, t)
    ensures Transmissible(c, items + [item], threshold)
    ensures ThresholdAfter(items + [item], threshold)
         == if item.Compress? then Some(item.threshold) else ThresholdAfter(items, threshold)
    ensures PlainBytes(c, items + [item], threshold)
         == PlainBytes(c, items, threshold)
            + if item.Packet? then WireBytes(c, item.body, ThresholdAfter(items, threshold)).value else []
  {
    if items == [] {
      assert [item][1..] == [] && [] + [item] == [item];
    } else {
      assert (items + [item])[1..] == items[1..] + [item];
      var next := if items[0].Compress? then Some(items[0].threshold) else threshold;
      SendOne(c, items[1..], next, item);
      Associate(
        if items[0].Packet? then WireBytes(c, items[0].body, threshold).value else [],
        PlainBytes(c, items[1..], next),
        if item.Packet? then WireBytes(c, item.body, ThresholdAfter(items, threshold)).value else []);
    }
  }

  lemma {:induction false} BodiesAppend(items: seq<Item>, item: Item)
    ensures Bodies(items + [item]) == Bodies(items) + if item.Packet? then [item.body] else []
  {
    if items == [] {
      assert [item][1..] == [] && [] + [item] == [item];
    } else {
      assert (items + [item])[1..] == items[1..] + [item];
      BodiesAppend(items[1..], item);
      Associate(
        if items[0].Packet? then [items[0].body] else [],
        Bodies(items[1..]),
        if item.Packet? then [item.body] else []);
    }
  }

  // ---- Each step ----

  lemma SendKeeps(c: Config, s: State, body: seq<byte>)
    requires c.Valid() && Consistent(c, s)
    ensures Consistent(c, Step(c, s, Send(body)))
  {
    var wire := WireBytes(c, body, s.sendThreshold);
    if wire.Success? && Sendable(body, s.sendThreshold) {
      var todo := s.sent[s.handled..];
      var next := Step(c, s, Send(body));
      assert next.sent[s.handled..] == todo + [Packet(body)] && next.sent[..s.handled] == s.sent[..s.handled];
      SendOne(c, todo, s.recvThreshold, Packet(body));
      SealedArrives(c, s, wire.value);
    }
  }

  /** Sealed bytes put on the network open to themselves behind everything already under way. */
  lemma SealedArrives(c: Config, s: State, wire: seq<byte>)
    requires c.Valid() && OpenWith(c.cipher, s.opening, s.network).0 == s.sealing
    ensures var (register, sealed) := SealWith(c.cipher, s.sealing, wire);
      var (reached, plain) := OpenWith(c.cipher, s.opening, s.network + sealed);
      reached == register && s.pending + plain == (s.pending + OpenWith(c.cipher, s.opening, s.network).1) + wire
  {
    OpenWithAppend(c.cipher, s.opening, s.network, SealWith(c.cipher, s.sealing, wire).1);
    OpenWithSealed(c.cipher, s.sealing, wire);
    Associate(s.pending, OpenWith(c.cipher, s.opening, s.network).1, wire);
  }

  lemma SwitchKeeps(c: Config, s: State, threshold: nat)
    requires Consistent(c, s)
    ensures Consistent(c, Step(c, s, SwitchSender(threshold)))
  {
    var todo := s.sent[s.handled..];
    SendOne(c, todo, s.recvThreshold, Compress(threshold));
    var next := Step(c, s, SwitchSender(threshold));
    assert next.sent[s.handled..] == todo + [Compress(threshold)] && next.sent[..s.handled] == s.sent[..s.handled];
    assert PlainBytes(c, todo, s.recvThreshold) + [] == PlainBytes(c, todo, s.recvThreshold);
  }

  lemma ArriveKeeps(c: Config, s: State, count: nat)
    requires Consistent(c, s)
    ensures Consistent(c, Step(c, s, Arrive(count)))
  {
    if count <= |s.network| && |s.pending| + count <= c.limits.maxBufferedBytes {
      var first, rest := s.network[..count], s.network[count..];
      assert first + rest == s.network;
      OpenWithAppend(c.cipher, s.opening, first, rest);
      var (mid, plain) := OpenWith(c.cipher, s.opening, first);
      assert (s.pending + plain) + OpenWith(c.cipher, mid, rest).1
        == s.pending + (plain + OpenWith(c.cipher, mid, rest).1);
    }
  }

  lemma TakeKeeps(c: Config, s: State)
    requires c.Valid() && Consistent(c, s)
    ensures Consistent(c, Step(c, s, Event.Take))
  {
    var max := c.limits.maxFrameSize;
    var todo := s.sent[s.handled..];
    var arriving := OpenWith(c.cipher, s.opening, s.network).1;
    var front := NextFrame(s.pending, max);
    if todo != [] {
      assert s.sent[..s.handled + 1] == s.sent[..s.handled] + [todo[0]] && s.sent[s.handled + 1..] == todo[1..];
      BodiesAppend(s.sent[..s.handled], todo[0]);
    }
    if todo != [] && todo[0].Compress? {
      assert Step(c, s, Event.Take).delivered + [] == s.delivered;
    } else if !front.NoFrame? {
      NextFrameExtends(s.pending, arriving, max);
      var wire := WireBytes(c, todo[0].body, s.recvThreshold).value;
      var later := PlainBytes(c, todo[1..], s.recvThreshold);
      WireRoundTrip(c, todo[0].body, s.recvThreshold, later);
      assert s.pending + arriving == wire + later;
      TakeFront(s.pending, arriving, wire, later);
    }
  }

  lemma TakeFront(pending: seq<byte>, arriving: seq<byte>, wire: seq<byte>, later: seq<byte>)
    requires pending + arriving == wire + later && |wire| <= |pending|
    ensures pending[|wire|..] + arriving == later
  {
    assert pending[|wire|..] + arriving == (pending + arriving)[|wire|..];
  }

  lemma StepKeeps(c: Config, s: State, e: Event)
    requires c.Valid() && Consistent(c, s)
    ensures Consistent(c, Step(c, s, e))
  {
    match e
    case Send(body) => SendKeeps(c, s, body);
    case SwitchSender(threshold) => SwitchKeeps(c, s, threshold);
    case Encrypt(_) =>
    case Arrive(count) => ArriveKeeps(c, s, count);
    case Take => TakeKeeps(c, s);
  }

  lemma {:induction false} RunKeeps(c: Config, s: State, events: seq<Event>)
    requires c.Valid() && Consistent(c, s)
    ensures Consistent(c, Run(c, s, events))
    decreases |events|
  {
    if events != [] {
      StepKeeps(c, s, events[0]);
      RunKeeps(c, Step(c, s, events[0]), events[1..]);
    }
  }

  /**
    In every run, whatever is sent, however it is cut up and whenever compression or encryption
    is switched on, the bodies delivered are the bodies sent, in order, as far as handled; and once
    nothing is on the network and a take finds nothing to do, every one has been delivered.
   */
  lemma DeliveredAsSent(c: Config, events: seq<Event>)
    requires c.Valid()
    ensures var end := Run(c, IDLE, events);
      && !end.broken
      && end.handled <= |end.sent|
      && end.delivered == Bodies(end.sent[..end.handled])
      && (end.network == [] && Step(c, end, Event.Take) == end ==>
            end.delivered == Bodies(end.sent) && end.pending == [])
  {
    assert Consistent(c, IDLE);
    RunKeeps(c, IDLE, events);
    var end := Run(c, IDLE, events);
    if end.network == [] && Step(c, end, Event.Take) == end {
      var todo := end.sent[end.handled..];
      var arriving := OpenWith(c.cipher, end.opening, end.network).1;
      assert end.pending + arriving == end.pending;
      if todo != [] && todo[0].Packet? {
        WireRoundTrip(c, todo[0].body, end.recvThreshold, PlainBytes(c, todo[1..], end.recvThreshold));
      }
      assert todo == [];
      assert end.sent[..end.handled] == end.sent;
    }
  }
}
