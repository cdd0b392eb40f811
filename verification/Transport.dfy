/**
  Compression and encryption of framed packets (transforms.rs) and the read loop over them
  (connection.rs). Zlib (RFC 1950) and the block cipher are parameters.
 */
module Transport {
  import opened Wrappers
  import opened Bytes
  import opened Codec
  import opened CodecIO
  import opened Frames

  // ---- Stream cipher ----

  type Register = seq<byte>

  /** A byte-wise stateful cipher: each byte is mapped under a register that then moves on. */
  datatype StreamCipher = StreamCipher(seal: (Register, byte) -> (Register, byte),
      open: (Register, byte) -> (Register, byte))

  /** Opening undoes sealing and leaves the register where sealing left it. */
  ghost predicate Invertible(cipher: StreamCipher) {
    forall register: Register, b: byte :: cipher.open(register, cipher.seal(register, b).1)
      == (cipher.seal(register, b).0, b)
  }

  function Seal(cipher: StreamCipher, register: Register, bytes: seq<byte>): (Register, seq<byte>)
    decreases |bytes|
  {
    if bytes == [] then (register, [])
    else
      var (next, b) := cipher.seal(register, bytes[0]);
      var (last, rest) := Seal(cipher, next, bytes[1..]);
      (last, [b] + rest)
  }

  function Open(cipher: StreamCipher, register: Register, bytes: seq<byte>): (r: (Register, seq<byte>))
    ensures |r.1| == |bytes|
    decreases |bytes|
  {
    if bytes == [] then (register, [])
    else
      var (next, b) := cipher.open(register, bytes[0]);
      var (last, rest) := Open(cipher, next, bytes[1..]);
      (last, [b] + rest)
  }

  lemma {:induction false} OpenSealed(cipher: StreamCipher, register: Register, bytes: seq<byte>)
    requires Invertible(cipher)
    ensures Open(cipher, register, Seal(cipher, register, bytes).1) == (Seal(cipher, register, bytes).0, bytes)
    decreases |bytes|
  {
    if bytes != [] {
      var (next, b) := cipher.seal(register, bytes[0]);
      var rest := Seal(cipher, next, bytes[1..]).1;
      assert ([b] + rest)[1..] == rest;
      OpenSealed(cipher, next, bytes[1..]);
      assert [bytes[0]] + bytes[1..] == bytes;
    }
  }

  lemma {:induction false} OpenAppend(cipher: StreamCipher, register: Register, s: seq<byte>, t: seq<byte>)
    ensures var (mid, first) := Open(cipher, register, s);
      Open(cipher, register, s + t) == (Open(cipher, mid, t).0, first + Open(cipher, mid, t).1)
    decreases |s|
  {
    if s == [] {
      assert s + t == t && [] + Open(cipher, register, t).1 == Open(cipher, register, t).1;
    } else {
      var (next, b) := cipher.open(register, s[0]);
      assert (s + t)[1..] == s[1..] + t;
      OpenAppend(cipher, next, s[1..], t);
      var (mid, rest) := Open(cipher, next, s[1..]);
      assert ([b] + rest) + Open(cipher, mid, t).1 == [b] + (rest + Open(cipher, mid, t).1);
    }
  }

  /** Exclusive or of the low `n` bits. */
  function XorBits(a: nat, b: nat, n: nat): (r: nat) {
    if n == 0 then 0 else (a + b) % 2 + 2 * XorBits(a / 2, b / 2, n - 1)
  }

  lemma {:induction false} XorFits(a: nat, b: nat, n: nat)
    ensures XorBits(a, b, n) < Pow2(n)
  {
    if n > 0 { XorFits(a / 2, b / 2, n - 1); }
  }

  lemma {:induction false} XorTwice(a: nat, b: nat, n: nat)
    requires a < Pow2(n)
    ensures XorBits(XorBits(a, b, n), b, n) == a
  {
    if n > 0 {
      var low, high := (a + b) % 2, XorBits(a / 2, b / 2, n - 1);
      XorTwice(a / 2, b / 2, n - 1);
      LowBit(low, high, b);
      LowBitTwice(a, b);
    }
  }

  lemma LowBit(low: nat, high: nat, b: nat)
    requires low < 2
    ensures (low + 2 * high) / 2 == high && (low + 2 * high + b) % 2 == (low + b) % 2
  {
  }

  lemma LowBitTwice(a: nat, b: nat)
    ensures ((a + b) % 2 + b) % 2 == a % 2
  {
  }

  lemma Pow2Of8()
    ensures Pow2(8) == 256
  {
    assert Pow2(3) == 8;
    assert Pow2(6) == 64;
  }

  function Xor(a: byte, b: byte): byte {
    XorFits(a, b, 8);
    Pow2Of8();
    XorBits(a, b, 8)
  }

  /** Cipher feedback with 8-bit segments over any block function (section 6.3 of NIST SP 800-38A). */
  function Cfb8(block: Register -> byte): StreamCipher {
    StreamCipher(
      (register: Register, b: byte) => (Shift(register, Xor(b, block(register))), Xor(b, block(register))),
      (register: Register, b: byte) => (Shift(register, b), Xor(b, block(register))))
  }

  function Shift(register: Register, b: byte): Register {
    (if register == [] then [] else register[1..]) + [b]
  }

  lemma Cfb8Invertible(block: Register -> byte)
    ensures Invertible(Cfb8(block))
  {
    forall register: Register, b: byte
      ensures Cfb8(block).open(register, Cfb8(block).seal(register, b).1) == (Cfb8(block).seal(register, b).0, b)
    {
      Pow2Of8();
      XorTwice(b, block(register), 8);
    }
  }

  // ---- Compression ----

  datatype Inflated = Inflated(output: seq<byte>, complete: bool)

  datatype Zlib = Zlib(deflate: seq<byte> -> seq<byte>, inflate: seq<byte> -> Inflated)

  ghost predicate Lossless(zlib: Zlib) {
    forall body :: zlib.inflate(zlib.deflate(body)) == Inflated(body, true)
  }

  datatype TransformError =
    | InvalidOutboundFrame
    | InvalidCompressionThreshold
    | NegativeDecompressedLength
    | DecompressedTooLarge
    | DecompressedLengthMismatch
    | CompressedBelowThreshold
    | Compression
    | Framing(error: CodecError)

  function CompressedPayload(zlib: Zlib, body: seq<byte>, threshold: nat): Result<seq<byte>, TransformError> {
    if |body| < threshold then Success(PrintVarInt(0) + body)
    else if |body| > I32_MAX then Failure(DecompressedTooLarge)
    else Success(PrintVarInt(|body|) + zlib.deflate(body))
  }

  function FrameUp(payload: seq<byte>, max: nat): Result<seq<byte>, TransformError> {
    match PrintFrame(payload, max)
    case Success(frame) => Success(frame)
    case Failure(e) => Failure(Framing(e))
  }

  function EncodeCompressed(zlib: Zlib, body: seq<byte>, threshold: nat, max: nat): Result<seq<byte>, TransformError> {
    var payload :- CompressedPayload(zlib, body, threshold);
    FrameUp(payload, max)
  }

  /** Reading to the end of a decompressor cut off after `limit` bytes: later faults go unseen. */
  function ReadToEnd(inflated: Inflated, limit: nat): Option<seq<byte>> {
    if |inflated.output| >= limit then Some(inflated.output[..limit])
    else if inflated.complete then Some(inflated.output)
    else None
  }

  function DecodeCompressed(zlib: Zlib, payload: seq<byte>, threshold: nat, max: nat)
      : Result<seq<byte>, TransformError>
  {
    match ParseVarInt(payload)
    case Failure(e) => Failure(Framing(e))
    case Success(p) =>
      if p.value < 0 then Failure(NegativeDecompressedLength)
      else if p.value == 0 then
        if |p.rest| >= threshold then Failure(DecompressedLengthMismatch) else Success(p.rest)
      else if p.value > max then Failure(DecompressedTooLarge)
      else if p.value < threshold then Failure(CompressedBelowThreshold)
      else
        match ReadToEnd(zlib.inflate(p.rest), max + 1)
        case None => Failure(Compression)
        case Some(output) => if |output| != p.value then Failure(DecompressedLengthMismatch) else Success(output)
  }

  function DecodeBody(zlib: Zlib, body: seq<byte>, threshold: Option<nat>, max: nat)
      : Result<seq<byte>, TransformError>
  {
    match threshold
    case None => Success(body)
    case Some(t) => DecodeCompressed(zlib, body, t, max)
  }

  /**
    A compressed body is given back if and only if it is not the empty body under threshold 0,
    which is declared with the length that marks uncompressed data.
   */
  lemma CompressionRoundTrip(zlib: Zlib, body: seq<byte>, threshold: nat, max: nat)
    requires Lossless(zlib) && |body| <= max <= MINECRAFT_MAX_FRAME_SIZE
    ensures CompressedPayload(zlib, body, threshold).Success?
    ensures DecodeCompressed(zlib, CompressedPayload(zlib, body, threshold).value, threshold, max) == Success(body)
       <==> (body != [] || threshold > 0)
  {
    if |body| < threshold {
      VarIntRoundTrip(0, body);
    } else {
      VarIntRoundTrip(|body|, zlib.deflate(body));
      assert zlib.inflate(zlib.deflate(body)) == Inflated(body, true);
    }
  }

  // ---- The transforms of one connection ----

  /** The body of the only frame of `framed`. */
  function SingleFrame(framed: seq<byte>, limits: FrameLimits): Result<seq<byte>, TransformError> {
    if |framed| > limits.maxBufferedBytes then Failure(Framing(FrameBufferTooLong))
    else
      match NextFrame(framed, limits.maxFrameSize)
      case NoFrame => Failure(InvalidOutboundFrame)
      case BadFrame(e) => Failure(Framing(e))
      case Frame(body, n) => if n < |framed| then Failure(InvalidOutboundFrame) else Success(body)
  }

  /** The bytes put on the wire for a framed packet, before encryption. */
  function Outbound(zlib: Zlib, framed: seq<byte>, threshold: Option<nat>, limits: FrameLimits)
      : Result<seq<byte>, TransformError>
  {
    var body :- SingleFrame(framed, limits);
    match threshold
    case None => Success(framed)
    case Some(t) => EncodeCompressed(zlib, body, t, limits.maxFrameSize)
  }

  function SealWith(cipher: StreamCipher, register: Option<Register>, bytes: seq<byte>): (Option<Register>, seq<byte>) {
    match register
    case None => (None, bytes)
    case Some(r) => (Some(Seal(cipher, r, bytes).0), Seal(cipher, r, bytes).1)
  }

  function OpenWith(cipher: StreamCipher, register: Option<Register>,
      bytes: seq<byte>)
      : (r: (Option<Register>, seq<byte>))
    ensures |r.1| == |bytes|
  {
    match register
    case None => (None, bytes)
    case Some(r) => (Some(Open(cipher, r, bytes).0), Open(cipher, r, bytes).1)
  }

  lemma OpenWithSealed(cipher: StreamCipher, register: Option<Register>, bytes: seq<byte>)
    requires Invertible(cipher)
    ensures OpenWith(cipher, register, SealWith(cipher, register, bytes).1)
      == (SealWith(cipher, register, bytes).0, bytes)
  {
    if register.Some? { OpenSealed(cipher, register.value, bytes); }
  }

  lemma OpenWithAppend(cipher: StreamCipher, register: Option<Register>, s: seq<byte>, t: seq<byte>)
    ensures var (mid, first) := OpenWith(cipher, register, s);
      OpenWith(cipher, register, s + t) == (OpenWith(cipher, mid, t).0, first + OpenWith(cipher, mid, t).1)
  {
    if register.Some? { OpenAppend(cipher, register.value, s, t); }
  }

  class WireTransforms {
    const cipher: StreamCipher
    const zlib: Zlib
    const limits: FrameLimits
    var encryptor: Option<Register>
    var decryptor: Option<Register>
    var threshold: Option<nat>

    constructor (cipher: StreamCipher, zlib: Zlib, limits: FrameLimits)
      ensures this.cipher == cipher && this.zlib == zlib && this.limits == limits
      ensures encryptor == None && decryptor == None && threshold == None
    {
      this.cipher, this.zlib, this.limits := cipher, zlib, limits;
      encryptor, decryptor, threshold := None, None, None;
    }

    method EnableEncryption(secret: Register)
      requires |secret| == 16
      modifies this
      ensures encryptor == Some(secret) && decryptor == Some(secret) && threshold == old(threshold)
    {
      encryptor, decryptor := Some(secret), Some(secret);
    }

    method EnableCompression(value: i32) returns (r: Result<(), TransformError>)
      modifies this
      ensures r == if value < 0 then Failure(InvalidCompressionThreshold) else Success(())
      ensures threshold == if value < 0 then old(threshold) else Some(value)
      ensures encryptor == old(encryptor) && decryptor == old(decryptor)
    {
      if value < 0 {
        return Failure(InvalidCompressionThreshold);
      }
      threshold := Some(value);
      return Success(());
    }

    method DecryptInPlace(bytes: array<byte>)
      modifies this, bytes
      ensures (decryptor, bytes[..]) == OpenWith(cipher, old(decryptor), old(bytes[..]))
      ensures encryptor == old(encryptor) && threshold == old(threshold)
    {
      if decryptor.None? {
        return;
      }
      ghost var before := bytes[..];
      var register := decryptor.value;
      for i := 0 to bytes.Length
        invariant unchanged(this)
        invariant bytes[i..] == before[i..]
        invariant (register, bytes[..i]) == Open(cipher, old(decryptor).value, before[..i])
      {
        OpenAppend(cipher, old(decryptor).value, before[..i], [before[i]]);
        assert before[..i + 1] == before[..i] + [before[i]];
        assert bytes[i] == before[i] by { assert bytes[i..][0] == before[i..][0]; }
        var (next, b) := cipher.open(register, bytes[i]);
        OpenOne(cipher, register, bytes[i]);
        assert bytes[i + 1..] == before[i + 1..] by { assert bytes[i + 1..] == bytes[i..][1..]; }
        bytes[i] := b;
        register := next;
        assert bytes[..i + 1] == bytes[..i] + [b];
      }
      assert bytes[..bytes.Length] == bytes[..] && before[..bytes.Length] == before;
      decryptor := Some(register);
    }

    method EncodeOutbound(framed: seq<byte>) returns (r: Result<seq<byte>, TransformError>)
      requires limits.Valid()
      modifies this
      ensures match Outbound(zlib, framed, old(threshold), limits)
              case Success(wire) => (encryptor, r)
                == (SealWith(cipher, old(encryptor), wire).0, Success(SealWith(cipher, old(encryptor), wire).1))
              case Failure(e) => r == Failure(e) && encryptor == old(encryptor)
      ensures decryptor == old(decryptor) && threshold == old(threshold)
    {
      var body :- ExtractSingleFrame(framed, limits);
      var output := framed;
      if threshold.Some? {
        output :- CompressFrame(zlib, body, threshold.value, limits.maxFrameSize);
      }
      if encryptor.Some? {
        var (next, sealed) := Seal(cipher, encryptor.value, output);
        encryptor := Some(next);
        output := sealed;
      }
      return Success(output);
    }

    method DecodeFrameBody(body: seq<byte>) returns (r: Result<seq<byte>, TransformError>)
      ensures r == DecodeBody(zlib, body, threshold, limits.maxFrameSize)
    {
      if threshold.None? {
        return Success(body);
      }
      r := DecompressBody(zlib, body, threshold.value, limits.maxFrameSize);
    }
  }

  lemma OpenOne(cipher: StreamCipher, register: Register, b: byte)
    ensures Open(cipher, register, [b]) == (cipher.open(register, b).0, [cipher.open(register, b).1])
  {
    var (next, c) := cipher.open(register, b);
    assert [b][1..] == [] && [c] + [] == [c];
  }

  method ExtractSingleFrame(framed: seq<byte>, limits: FrameLimits) returns (r: Result<seq<byte>, TransformError>)
    requires limits.Valid()
    ensures r == SingleFrame(framed, limits)
  {
    var decoder := new FrameDecoder(limits);
    var pushed := decoder.Push(framed);
    if pushed.Failure? {
      return Failure(Framing(pushed.error));
    }
    assert decoder.Pending() == framed;
    var frame := decoder.Next();
    if frame.Failure? {
      return Failure(Framing(frame.error));
    }
    if frame.value.None? {
      return Failure(InvalidOutboundFrame);
    }
    if |decoder.Pending()| != 0 {
      return Failure(InvalidOutboundFrame);
    }
    return Success(frame.value.value);
  }

  method CompressFrame(zlib: Zlib, body: seq<byte>, threshold: nat, max: nat)
      returns (r: Result<seq<byte>, TransformError>)
    ensures r == EncodeCompressed(zlib, body, threshold, max)
  {
    var payload := new CodecWriter();
    if |body| >= threshold {
      if |body| > I32_MAX {
        return Failure(DecompressedTooLarge);
      }
      payload.WriteVarInt(|body|);
      payload.WriteBytes(zlib.deflate(body));
    } else {
      payload.WriteVarInt(0);
      payload.WriteBytes(body);
    }
    assert payload.output == CompressedPayload(zlib, body, threshold).value;
    var framed := EncodeFrame(payload.output, max);
    return if framed.Success? then Success(framed.value) else Failure(Framing(framed.error));
  }

  method DecompressBody(zlib: Zlib, payload: seq<byte>, threshold: nat, max: nat)
      returns (r: Result<seq<byte>, TransformError>)
    ensures r == DecodeCompressed(zlib, payload, threshold, max)
  {
    var reader := new CodecReader(payload);
    var declared := reader.ReadVarInt();
    if declared.Failure? {
      return Failure(Framing(declared.error));
    }
    if declared.value < 0 {
      return Failure(NegativeDecompressedLength);
    }
    var compressed := reader.ReadRemaining();
    if declared.value == 0 {
      if |compressed| >= threshold {
        return Failure(DecompressedLengthMismatch);
      }
      return Success(compressed);
    }
    if declared.value > max {
      return Failure(DecompressedTooLarge);
    }
    if declared.value < threshold {
      return Failure(CompressedBelowThreshold);
    }
    var output := ReadToEnd(zlib.inflate(compressed), max + 1);
    if output.None? {
      return Failure(Compression);
    }
    if |output.value| != declared.value {
      return Failure(DecompressedLengthMismatch);
    }
    return Success(output.value);
  }

  // ---- The read loop ----

  const READ_BUFFER_SIZE := 8192

  datatype ConnectionError = PrematureDisconnect(buffered: nat) | FramingFault(error: CodecError)
      | TransformFault(fault: TransformError)

  /** Everything a read depends on: the decoder's pending bytes, the cipher and the reads to come. */
  datatype Inbox = Inbox(pending: seq<byte>, register: Option<Register>, incoming: seq<seq<byte>>)

  /** Drain first; otherwise decrypt and buffer the next read; an empty read is the end. */
  function Receive(inbox: Inbox, cipher: StreamCipher, zlib: Zlib, threshold: Option<nat>, limits: FrameLimits)
      : (Result<seq<byte>, ConnectionError>, Inbox)
    decreases |inbox.incoming|
  {
    match NextFrame(inbox.pending, limits.maxFrameSize)
    case BadFrame(e) => (Failure(FramingFault(e)), inbox)
    case Frame(body, n) =>
      var left := inbox.(pending := inbox.pending[n..]);
      (match DecodeBody(zlib, body, threshold, limits.maxFrameSize)
       case Success(b) => (Success(b), left)
       case Failure(e) => (Failure(TransformFault(e)), left))
    case NoFrame =>
      if inbox.incoming == [] || inbox.incoming[0] == [] then
        (Failure(PrematureDisconnect(|inbox.pending|)),
          inbox.(incoming := if inbox.incoming == [] then [] else inbox.incoming[1..]))
      else
        var (register, plain) := OpenWith(cipher, inbox.register, inbox.incoming[0]);
        var read := Inbox(inbox.pending, register, inbox.incoming[1..]);
        if |inbox.pending| + |plain| > limits.maxBufferedBytes then (Failure(FramingFault(FrameBufferTooLong)), read)
        else Receive(read.(pending := inbox.pending + plain), cipher, zlib, threshold, limits)
  }

  /**
    With room for one frame and one read, the loop never hits the buffer bound, whatever arrives:
    each read finds fewer than `max + 3` bytes waiting.
   */
  lemma {:induction false} ReadLoopNeverOverflows(inbox: Inbox, cipher: StreamCipher, zlib: Zlib,
      threshold: Option<nat>, limits: FrameLimits)
    requires limits.maxFrameSize >= 2 && limits.maxBufferedBytes >= limits.maxFrameSize + 2 + READ_BUFFER_SIZE
    requires forall i :: 0 <= i < |inbox.incoming| ==> |inbox.incoming[i]| <= READ_BUFFER_SIZE
    ensures Receive(inbox, cipher, zlib, threshold, limits).0 != Failure(FramingFault(FrameBufferTooLong))
    decreases |inbox.incoming|
  {
    if NextFrame(inbox.pending, limits.maxFrameSize).NoFrame? && inbox.incoming != [] && inbox.incoming[0] != [] {
      WaitingIsBounded(limits.maxFrameSize);
      var (register, plain) := OpenWith(cipher, inbox.register, inbox.incoming[0]);
      ReadLoopNeverOverflows(Inbox(inbox.pending + plain, register, inbox.incoming[1..]), cipher, zlib, threshold,
        limits);
    }
  }

  class MinecraftConnection {
    const decoder: FrameDecoder
    const transforms: WireTransforms
    /** What the socket's reads are going to return. */
    var incoming: seq<seq<byte>>

    ghost predicate Valid()
      reads this, decoder, transforms
    {
      decoder.Valid() && decoder.limits == transforms.limits
    }

    ghost function Contents(): Inbox
      requires Valid()
      reads this, decoder, transforms
    {
      Inbox(decoder.Pending(), transforms.decryptor, incoming)
    }

    constructor (limits: FrameLimits, cipher: StreamCipher, zlib: Zlib, incoming: seq<seq<byte>>)
      requires limits.Valid()
      ensures Valid() && fresh(decoder) && fresh(transforms)
      ensures Contents() == Inbox([], None, incoming)
      ensures transforms.threshold == None && transforms.limits == limits
    {
      decoder := new FrameDecoder(limits);
      transforms := new WireTransforms(cipher, zlib, limits);
      this.incoming := incoming;
    }

    method ReadNextFrame() returns (r: Result<seq<byte>, ConnectionError>)
      requires Valid()
      modifies this, decoder, transforms
      ensures Valid()
      ensures (r, Contents())
        == Receive(old(Contents()), transforms.cipher, transforms.zlib, old(transforms.threshold), transforms.limits)
      ensures transforms.threshold == old(transforms.threshold) && transforms.encryptor == old(transforms.encryptor)
    {
      ghost var spec :=
        Receive(Contents(), transforms.cipher, transforms.zlib, transforms.threshold, transforms.limits);
      while true
        invariant Valid()
        invariant spec
          == Receive(Contents(), transforms.cipher, transforms.zlib, transforms.threshold, transforms.limits)
        invariant transforms.threshold == old(transforms.threshold) && transforms.encryptor == old(transforms.encryptor)
        decreases |incoming|
      {
        var frame := decoder.Next();
        if frame.Failure? {
          return Failure(FramingFault(frame.error));
        }
        if frame.value.Some? {
          var body := transforms.DecodeFrameBody(frame.value.value);
          return if body.Success? then Success(body.value) else Failure(TransformFault(body.error));
        }
        var read := if incoming == [] then [] else incoming[0];
        incoming := if incoming == [] then [] else incoming[1..];
        if read == [] {
          return Failure(PrematureDisconnect(|decoder.Pending()|));
        }
        var bytes := new byte[|read|](i requires 0 <= i < |read| => read[i]);
        assert bytes[..] == read;
        transforms.DecryptInPlace(bytes);
        var pushed := decoder.Push(bytes[..]);
        if pushed.Failure? {
          return Failure(FramingFault(pushed.error));
        }
      }
    }
  }
}
