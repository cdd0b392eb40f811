/**
  Length-prefixed framing (frame.rs): the incremental decoder, and why fragmentation does not
  matter to it.
 */
module Frames {
  import opened Wrappers
  import opened Bytes
  import opened VarInts
  import opened Codec
  import opened CodecIO

  const MINECRAFT_MAX_FRAME_SIZE := 0x1F_FFFF
  const MAX_FRAME_LENGTH_PREFIX_BYTES := 3

  datatype FrameLimits = FrameLimits(maxFrameSize: nat, maxBufferedBytes: nat) {
    predicate Valid() {
      && maxFrameSize <= MINECRAFT_MAX_FRAME_SIZE
      && maxBufferedBytes >= maxFrameSize + MAX_FRAME_LENGTH_PREFIX_BYTES
    }

    static function New(maxFrameSize: nat, maxBufferedBytes: nat): (r: Result<FrameLimits, CodecError>)
      ensures r.Success? <==> FrameLimits(maxFrameSize, maxBufferedBytes).Valid()
      ensures r.Success? ==> r.value == FrameLimits(maxFrameSize, maxBufferedBytes)
    {
      if maxFrameSize > MINECRAFT_MAX_FRAME_SIZE then Failure(FrameTooLong)
      else if maxBufferedBytes < maxFrameSize + MAX_FRAME_LENGTH_PREFIX_BYTES then Failure(ValueOutOfRange)
      else Success(FrameLimits(maxFrameSize, maxBufferedBytes))
    }
  }

  /** What the front of the pending bytes holds. */
  datatype Front = NoFrame | BadFrame(error: CodecError) | Frame(body: seq<byte>, bytes: nat)

  function NextFrame(pending: seq<byte>, max: nat): (r: Front)
    ensures r.Frame? ==> 1 <= r.bytes <= |pending| && |r.body| <= max
  {
    match ReadVar(pending, 5)
    case NeedMore => NoFrame
    case Malformed => BadFrame(MalformedLengthPrefix(FrameLength))
    case Complete(v, prefix) =>
      var length := I32(v);
      if length < 0 then BadFrame(NegativeLength(FrameLength))
      else if prefix > MAX_FRAME_LENGTH_PREFIX_BYTES then BadFrame(MalformedLengthPrefix(FrameLength))
      else if length > max then BadFrame(FrameTooLong)
      else if |pending| < prefix + length then NoFrame
      else Frame(pending[prefix..prefix + length], prefix + length)
  }

  /** All the frames of a byte stream, what is left after them, and the error met, if any. */
  datatype Stream = Stream(bodies: seq<seq<byte>>, rest: seq<byte>, error: Option<CodecError>)

  function Drain(s: seq<byte>, max: nat): Stream
    decreases |s|
  {
    match NextFrame(s, max)
    case NoFrame => Stream([], s, None)
    case BadFrame(e) => Stream([], s, Some(e))
    case Frame(body, n) =>
      var later := Drain(s[n..], max);
      Stream([body] + later.bodies, later.rest, later.error)
  }

  /** A verdict once reached is not changed by the bytes that arrive after it. */
  lemma NextFrameExtends(s: seq<byte>, t: seq<byte>, max: nat)
    requires !NextFrame(s, max).NoFrame?
    ensures NextFrame(s + t, max) == NextFrame(s, max)
  {
    ReadVarExtends(s, 5, t);
    if NextFrame(s, max).Frame? {
      var n := NextFrame(s, max).bytes;
      var prefix := ReadVar(s, 5).bytes;
      assert (s + t)[prefix..n] == s[prefix..n];
    }
  }

  lemma DrainFrame(s: seq<byte>, max: nat)
    requires NextFrame(s, max).Frame?
    ensures var front, later := NextFrame(s, max), Drain(s[NextFrame(s, max).bytes..], max);
      Drain(s, max) == Stream([front.body] + later.bodies, later.rest, later.error)
  {
  }

  /** Where draining stops, the next verdict is that there is no frame, or the error met. */
  lemma {:induction false} DrainStops(s: seq<byte>, max: nat)
    ensures var d := Drain(s, max);
      NextFrame(d.rest, max) == if d.error.Some? then BadFrame(d.error.value) else NoFrame
    decreases |s|
  {
    if NextFrame(s, max).Frame? {
      DrainFrame(s, max);
      DrainStops(s[NextFrame(s, max).bytes..], max);
    }
  }

  /** `d` followed by what comes of `later`. */
  function Then(d: Stream, later: Stream): Stream {
    Stream(d.bodies + later.bodies, later.rest, later.error)
  }

  lemma ThenCons(body: seq<byte>, d: Stream, later: Stream)
    ensures var all := Then(d, later);
      Then(Stream([body] + d.bodies, d.rest, d.error), later) == Stream([body] + all.bodies, all.rest, all.error)
  {
    assert ([body] + d.bodies) + later.bodies == [body] + (d.bodies + later.bodies);
  }

  /** Draining early, then again when more has arrived, is draining once at the end. */
  lemma {:induction false} DrainAppend(s: seq<byte>, t: seq<byte>, max: nat)
    ensures Drain(s + t, max) == Then(Drain(s, max), Drain(Drain(s, max).rest + t, max))
    decreases |s|
  {
    match NextFrame(s, max)
    case Frame(body, n) =>
      NextFrameExtends(s, t, max);
      assert (s + t)[n..] == s[n..] + t;
      DrainAppend(s[n..], t, max);
      DrainFrame(s, max);
      DrainFrame(s + t, max);
      ThenCons(body, Drain(s[n..], max), Drain(Drain(s[n..], max).rest + t, max));
    case _ =>
      assert Drain(s, max).bodies == [] && Drain(s, max).rest == s;
  }

  // ---- Schedules of pushes and takes ----

  datatype Event = Push(bytes: seq<byte>) | Take

  /** The decoder's pending bytes, with everything accepted and everything given out so far. */
  datatype Session = Session(pending: seq<byte>, accepted: seq<byte>, emitted: seq<seq<byte>>,
      error: Option<CodecError>)

  const START := Session([], [], [], None)

  /** A push over the buffer bound is refused and changes nothing. */
  function Step(session: Session, event: Event, limits: FrameLimits): Session {
    match event
    case Push(bytes) =>
      if |session.pending| + |bytes| > limits.maxBufferedBytes then session
      else session.(pending := session.pending + bytes, accepted := session.accepted + bytes)
    case Take =>
      match NextFrame(session.pending, limits.maxFrameSize)
      case NoFrame => session
      case BadFrame(e) => session.(error := Some(e))
      case Frame(body, n) => session.(pending := session.pending[n..], emitted := session.emitted + [body])
  }

  function Run(session: Session, events: seq<Event>, limits: FrameLimits): Session
    decreases |events|
  {
    if events == [] then session else Run(Step(session, events[0], limits), events[1..], limits)
  }

  /** What was given out followed by what is still pending is what the accepted bytes hold. */
  predicate Faithful(session: Session, max: nat) {
    var now, all := Drain(session.pending, max), Drain(session.accepted, max);
    && session.emitted + now.bodies == all.bodies
    && now.rest == all.rest
    && now.error == all.error
    && (session.error.Some? ==> now.bodies == [] && now.error == session.error)
  }

  lemma StepKeepsFaithful(session: Session, event: Event, limits: FrameLimits)
    requires Faithful(session, limits.maxFrameSize)
    ensures Faithful(Step(session, event, limits), limits.maxFrameSize)
  {
    var max := limits.maxFrameSize;
    match event
    case Push(bytes) => PushKeepsFaithful(session, bytes, max);
    case Take =>
      var front := NextFrame(session.pending, max);
      if front.Frame? {
        DrainFrame(session.pending, max);
        var rest := Drain(session.pending[front.bytes..], max);
        assert session.emitted + ([front.body] + rest.bodies) == (session.emitted + [front.body]) + rest.bodies;
      }
  }

  lemma PushKeepsFaithful(session: Session, bytes: seq<byte>, max: nat)
    requires Faithful(session, max)
    ensures Faithful(session.(pending := session.pending + bytes, accepted := session.accepted + bytes), max)
  {
    DrainAppend(session.pending, bytes, max);
    DrainAppend(session.accepted, bytes, max);
    var now, all := Drain(session.pending, max), Drain(session.accepted, max);
    ThenKeeps(session.emitted, now, all, Drain(now.rest + bytes, max));
    if session.error.Some? { DrainErrorStays(session.pending, bytes, max); }
  }

  lemma ThenKeeps(emitted: seq<seq<byte>>, now: Stream, all: Stream, later: Stream)
    requires emitted + now.bodies == all.bodies
    ensures emitted + Then(now, later).bodies == Then(all, later).bodies
  {
    assert emitted + (now.bodies + later.bodies) == (emitted + now.bodies) + later.bodies;
  }

  lemma DrainErrorStays(s: seq<byte>, t: seq<byte>, max: nat)
    requires Drain(s, max).bodies == [] && Drain(s, max).error.Some?
    ensures Drain(s + t, max).bodies == [] && Drain(s + t, max).error == Drain(s, max).error
  {
    if NextFrame(s, max).Frame? { DrainFrame(s, max); }
    NextFrameExtends(s, t, max);
  }

  lemma {:induction false} RunKeepsFaithful(session: Session, events: seq<Event>, limits: FrameLimits)
    requires Faithful(session, limits.maxFrameSize)
    ensures Faithful(Run(session, events, limits), limits.maxFrameSize)
    decreases |events|
  {
    if events != [] {
      StepKeepsFaithful(session, events[0], limits);
      RunKeepsFaithful(Step(session, events[0], limits), events[1..], limits);
    }
  }

  /**
    Whatever the fragments and whatever the schedule, the frames given out are a prefix of the
    frames of the accepted bytes, all of them once a take finds no frame, and the error met then
    is the error of the accepted bytes.
   */
  lemma FragmentationIndependent(events: seq<Event>, limits: FrameLimits)
    ensures var end := Run(START, events, limits);
      var all := Drain(end.accepted, limits.maxFrameSize);
      && end.emitted <= all.bodies
      && (end.error.Some? ==> end.error == all.error && end.emitted == all.bodies)
      && (!NextFrame(end.pending, limits.maxFrameSize).Frame? ==>
           && end.emitted == all.bodies && end.pending == all.rest
           && all.error == Step(end, Take, limits).error)
  {
    assert Faithful(START, limits.maxFrameSize) by { assert NextFrame([], limits.maxFrameSize) == NoFrame; }
    RunKeepsFaithful(START, events, limits);
    var end := Run(START, events, limits);
    var now := Drain(end.pending, limits.maxFrameSize);
    if now.bodies == [] { assert end.emitted + now.bodies == end.emitted; }
  }

  // ---- Encoding ----

  function PrintFrame(body: seq<byte>, max: nat): Print {
    var effective := if max < MINECRAFT_MAX_FRAME_SIZE then max else MINECRAFT_MAX_FRAME_SIZE;
    if |body| > effective then Failure(FrameTooLong)
    else
      var prefix :- PrintLength(|body|);
      Success(prefix + body)
  }

  lemma FrameRoundTrip(body: seq<byte>, max: nat, t: seq<byte>)
    requires PrintFrame(body, max).Success?
    ensures NextFrame(PrintFrame(body, max).value + t, max) == Frame(body, |PrintFrame(body, max).value|)
  {
    var prefix := PrintVarInt(|body|);
    var s := prefix + body + t;
    assert s == prefix + (body + t);
    FramePrefix(|body|, body + t);
    assert s[|prefix|..|prefix| + |body|] == body;
  }

  lemma FramePrefix(length: nat, t: seq<byte>)
    requires length <= MINECRAFT_MAX_FRAME_SIZE
    ensures |PrintVarInt(length)| <= MAX_FRAME_LENGTH_PREFIX_BYTES
    ensures ReadVar(PrintVarInt(length) + t, 5) == Complete(length, |PrintVarInt(length)|)
  {
    Pow128Values();
    WriteVarLength(length, 3);
    WriteThenRead(length, 5, t);
  }

  function Concat(parts: seq<seq<byte>>): seq<byte> {
    if parts == [] then [] else parts[0] + Concat(parts[1..])
  }

  function PrintFrames(bodies: seq<seq<byte>>): seq<byte>
    requires forall i :: 0 <= i < |bodies| ==> |bodies[i]| <= MINECRAFT_MAX_FRAME_SIZE
  {
    if bodies == [] then [] else PrintFrame(bodies[0], MINECRAFT_MAX_FRAME_SIZE).value + PrintFrames(bodies[1..])
  }

  /** A stream of encoded frames, followed by anything, drains to exactly their bodies first. */
  lemma {:induction false} EncodedFramesDrain(bodies: seq<seq<byte>>, t: seq<byte>, max: nat)
    requires max <= MINECRAFT_MAX_FRAME_SIZE
    requires forall i :: 0 <= i < |bodies| ==> |bodies[i]| <= max
    ensures Drain(PrintFrames(bodies) + t, max) == Then(Stream(bodies, [], None), Drain(t, max))
  {
    if bodies == [] {
      assert PrintFrames(bodies) + t == t;
    } else {
      var head := PrintFrame(bodies[0], MINECRAFT_MAX_FRAME_SIZE).value;
      var later := PrintFrames(bodies[1..]) + t;
      assert PrintFrames(bodies) + t == head + later;
      EncodedFrameDrains(bodies[0], later, max);
      EncodedFramesDrain(bodies[1..], t, max);
      ThenCons(bodies[0], Stream(bodies[1..], [], None), Drain(t, max));
      assert bodies == [bodies[0]] + bodies[1..];
    }
  }

  lemma EncodedFrameDrains(body: seq<byte>, t: seq<byte>, max: nat)
    requires |body| <= max <= MINECRAFT_MAX_FRAME_SIZE
    ensures var d := Drain(t, max);
      Drain(PrintFrame(body, MINECRAFT_MAX_FRAME_SIZE).value + t, max) == Stream([body] + d.bodies, d.rest, d.error)
  {
    var head := PrintFrame(body, MINECRAFT_MAX_FRAME_SIZE).value;
    assert PrintFrame(body, max).value == head;
    FrameRoundTrip(body, max, t);
    assert (head + t)[|head|..] == t;
    DrainFrame(head + t, max);
  }

  // ---- Space ----

  /** When no frame is found, fewer than `max + 3` bytes wait, unless `max` is below 2. */
  lemma WaitingIsBounded(max: nat)
    ensures (forall pending :: NextFrame(pending, max) == NoFrame ==> |pending| < max + 3) <==> max >= 2
  {
    if max < 2 {
      var pending: seq<byte> := [128, 128, 128, 128];
      assert ReadVar(pending[4..], 1) == NeedMore;
      assert ReadVar(pending[3..], 2) == NeedMore by { assert pending[3..][1..] == pending[4..]; }
      assert ReadVar(pending[2..], 3) == NeedMore by { assert pending[2..][1..] == pending[3..]; }
      assert ReadVar(pending[1..], 4) == NeedMore by { assert pending[1..][1..] == pending[2..]; }
      assert NextFrame(pending, max) == NoFrame;
    }
  }

  // ---- The decoder ----

  const COMPACTION_OFFSET := 4096

  class FrameDecoder {
    const limits: FrameLimits
    var buffer: seq<byte>
    var readOffset: nat

    /** In particular the buffer never holds more than 4095 bytes beyond the configured bound. */
    ghost predicate Valid()
      reads this
    {
      && limits.Valid()
      && readOffset <= |buffer|
      && |buffer| - readOffset <= limits.maxBufferedBytes
      && |buffer| <= limits.maxBufferedBytes + (COMPACTION_OFFSET - 1)
    }

    function Pending(): (s: seq<byte>)
      requires Valid()
      reads this
    {
      buffer[readOffset..]
    }

    constructor (limits: FrameLimits)
      requires limits.Valid()
      ensures Valid() && Pending() == [] && this.limits == limits
    {
      this.limits := limits;
      buffer := [];
      readOffset := 0;
    }

    method CompactIfUseful()
      requires Valid()
      modifies this
      ensures Valid() && Pending() == old(Pending())
      ensures readOffset == 0 || (readOffset < COMPACTION_OFFSET && readOffset < |Pending()|)
    {
      if readOffset == 0 {
        return;
      }
      var remaining := |buffer| - readOffset;
      if readOffset >= COMPACTION_OFFSET || readOffset >= remaining {
        buffer := buffer[readOffset..] + buffer[remaining..];
        buffer := buffer[..remaining];
        readOffset := 0;
      }
    }

    /** Appends a fragment, or refuses it when the pending bytes would exceed the bound. */
    method Push(bytes: seq<byte>) returns (r: Result<(), CodecError>)
      requires Valid()
      modifies this
      ensures Valid()
      ensures r == if |old(Pending())| + |bytes| > limits.maxBufferedBytes then Failure(FrameBufferTooLong)
        else Success(())
      ensures Pending() == if r.Success? then old(Pending()) + bytes else old(Pending())
    {
      CompactIfUseful();
      var buffered := |buffer| - readOffset + |bytes|;
      if buffered > limits.maxBufferedBytes {
        return Failure(FrameBufferTooLong);
      }
      buffer := buffer + bytes;
      return Success(());
    }

    method Next() returns (r: Result<Option<seq<byte>>, CodecError>)
      requires Valid()
      modifies this
      ensures Valid()
      ensures match NextFrame(old(Pending()), limits.maxFrameSize)
              case NoFrame => r == Success(None) && Pending() == old(Pending())
              case BadFrame(e) => r == Failure(e) && Pending() == old(Pending())
              case Frame(body, n) => r == Success(Some(body)) && Pending() == old(Pending())[n..]
    {
      var pending := buffer[readOffset..];
      var frameLength, prefixBytes := 0, 0;
      var partial := DecodePartialVarInt(pending);
      match partial {
        case NeedMore => return Success(None);
        case Malformed => return Failure(MalformedLengthPrefix(FrameLength));
        case Complete(value, bytes) => frameLength, prefixBytes := I32(value), bytes;
      }
      if frameLength < 0 {
        return Failure(NegativeLength(FrameLength));
      }
      if prefixBytes > MAX_FRAME_LENGTH_PREFIX_BYTES {
        return Failure(MalformedLengthPrefix(FrameLength));
      }
      if frameLength > limits.maxFrameSize {
        return Failure(FrameTooLong);
      }
      var totalLength := prefixBytes + frameLength;
      if |pending| < totalLength {
        return Success(None);
      }
      var body := pending[prefixBytes..totalLength];
      assert buffer[readOffset + totalLength..] == pending[totalLength..];
      readOffset := readOffset + totalLength;
      if readOffset == |buffer| {
        buffer := [];
        readOffset := 0;
      }
      return Success(Some(body));
    }
  }

  /** The verdict of `ReadVar` on at most five bytes, with the value cut to 32 bits. */
  method DecodePartialVarInt(input: seq<byte>) returns (r: VarRead)
    ensures match ReadVar(input, 5)
            case Complete(v, k) => r == Complete(v % TWO32, k)
            case other => r == other
  {
    var result: nat := 0;
    ghost var low: nat := 0;
    CollectStart(input, 5);
    for index := 0 to if |input| < 5 then |input| else 5
      invariant Collected(input, 5, index, low) && result == low % TWO32
    {
      var b := input[index];
      CollectStep(input, 5, index, low);
      AccumulateStep(result, low, b, index, TWO32);
      result := Accumulate(result, b, index, TWO32);
      low := Advance(low, b, index);
      if b < 128 {
        return Complete(result, index + 1);
      }
    }
    return if |input| >= 5 then Malformed else NeedMore;
  }

  method EncodeFrame(body: seq<byte>, max: nat) returns (r: Result<seq<byte>, CodecError>)
    ensures r == PrintFrame(body, max)
  {
    var effective := if max < MINECRAFT_MAX_FRAME_SIZE then max else MINECRAFT_MAX_FRAME_SIZE;
    if |body| > effective {
      return Failure(FrameTooLong);
    }
    var writer := new CodecWriter();
    var _ :- writer.WriteLength(|body|);
    writer.WriteBytes(body);
    assert writer.output == PrintFrame(body, max).value;
    return Success(writer.output);
  }

  datatype RawPacket = RawPacket(id: i32, payload: seq<byte>)

  /** Separates the packet ID from the payload. */
  method SplitRawPacket(frame: seq<byte>) returns (r: Result<RawPacket, CodecError>)
    ensures match ParseVarInt(frame)
            case Success(p) => r == Success(RawPacket(p.value, p.rest))
            case Failure(e) => r == Failure(e)
  {
    var reader := new CodecReader(frame);
    var id :- reader.ReadVarInt();
    var payload := reader.ReadRemaining();
    return Success(RawPacket(id, payload));
  }
}
