/**
  The bytes of a connection (frame.rs, transforms.rs): frames, compressed payloads and the cipher
  stream as the protocol lays them out, independently of the functions that print and parse them.
 */
module LinkWire {
  import opened Wrappers
  import opened Bytes
  import opened VarInts
  import opened Codec
  import opened Frames
  import opened Transport
  import opened WireForm
  import Link

  // ---- Frames ----

  /** A length of at most three groups, no larger than allowed, and so many bytes. */
  predicate IsFrame(body: seq<byte>, b: seq<byte>, max: nat) {
    var k := |b| - |body|;
    k >= 0 && b[k..] == body && |body| <= max && IsGroups(b[..k], 3) && GroupSum(b[..k]) == |body|
  }

  lemma {:induction false} GroupSumBound(b: seq<byte>)
    ensures GroupSum(b) < Pow128(|b|)
  {
    if b != [] { GroupSumBound(b[1..]); }
  }

  /** The decoder finds a frame exactly where one stands at the front. */
  lemma FrameFound(s: seq<byte>, max: nat, body: seq<byte>, n: nat)
    ensures NextFrame(s, max) == Frame(body, n) <==> n <= |s| && IsFrame(body, s[..n], max)
  {
    if NextFrame(s, max) == Frame(body, n) {
      var k := n - |body|;
      assert ReadVar(s, 5).bytes == k && s[..n][..k] == s[..k] && s[..n][k..] == body;
      GroupsForm(s, 5, k);
      SmallSum(s[..k]);
    }
    if n <= |s| && IsFrame(body, s[..n], max) { FrameParses(s, max, body, n); }
  }

  lemma FrameParses(s: seq<byte>, max: nat, body: seq<byte>, n: nat)
    requires n <= |s| && IsFrame(body, s[..n], max)
    ensures NextFrame(s, max) == Frame(body, n)
  {
    var k := n - |body|;
    assert s[..n][..k] == s[..k] && s[..n][k..] == s[k..n];
    GroupsForm(s, 5, k);
    SmallSum(s[..k]);
  }

  /** Where the front of `s` holds a length: so many groups, at most five. */
  predicate HasLength(s: seq<byte>, k: nat) {
    k <= |s| && IsGroups(s[..k], 5)
  }

  /**
    A stream is refused exactly for five continued bytes, a negative length, a length of more than
    three bytes, or one beyond the largest frame, in this order.
   */
  lemma FrameRefused(s: seq<byte>, max: nat, e: CodecError)
    ensures NextFrame(s, max) == BadFrame(e)
       <==> || (|s| >= 5 && (forall i :: 0 <= i < 5 ==> s[i] >= 128) && e == MalformedLengthPrefix(FrameLength))
            || exists k: nat :: HasLength(s, k) &&
                 var length := GroupSum(s[..k]) % TWO32;
                 if length >= 0x8000_0000 then e == NegativeLength(FrameLength)
                 else if k > 3 then e == MalformedLengthPrefix(FrameLength)
                 else length > max && e == FrameTooLong
  {
    var r := ReadVar(s, 5);
    forall k: nat ensures r.Complete? && r.bytes == k <==> HasLength(s, k) { GroupsForm(s, 5, k); }
    if r.Complete? {
      GroupsForm(s, 5, r.bytes);
      assert HasLength(s, r.bytes);
    }
    Continued(s, 5);
  }

  lemma {:induction false} Continued(s: seq<byte>, left: nat)
    ensures ReadVar(s, left).Malformed? <==> |s| >= left && forall i :: 0 <= i < left ==> s[i] >= 128
  {
    if left > 0 && s != [] && s[0] >= 128 { Continued(s[1..], left - 1); }
  }

  lemma SmallSum(b: seq<byte>)
    requires |b| <= 3
    ensures GroupSum(b) < 0x20_0000 && I32(GroupSum(b)) == GroupSum(b)
  {
    GroupSumBound(b);
    assert Pow128(3) == 128 * 128 * 128 && Pow128(2) == 128 * 128 && Pow128(1) == 128 && Pow128(0) == 1;
  }

  /** A packet is framed as its length and itself. */
  lemma FramePrinted(body: seq<byte>, max: nat, b: seq<byte>)
    ensures PrintFrame(body, max) == Success(b)
       <==> |body| <= max && |body| <= MINECRAFT_MAX_FRAME_SIZE && IsPrefixed(body, b, Canonical)
  {
    if |body| <= max && |body| <= MINECRAFT_MAX_FRAME_SIZE { PrefixedPrinted(body, b); }
  }

  // ---- Compression ----

  /** From the threshold on the length and the deflated body; below it a zero and the body. */
  ghost predicate IsPayload(zlib: Zlib, body: seq<byte>, threshold: nat, payload: seq<byte>) {
    exists k: nat :: k <= |payload| &&
      if |body| >= threshold then
        |body| <= I32_MAX && IsInt(|body|, payload[..k], Canonical) && payload[k..] == zlib.deflate(body)
      else IsInt(0, payload[..k], Canonical) && payload[k..] == body
  }

  lemma PayloadPrinted(zlib: Zlib, body: seq<byte>, threshold: nat, payload: seq<byte>)
    ensures CompressedPayload(zlib, body, threshold) == Success(payload) <==> IsPayload(zlib, body, threshold, payload)
  {
    var n := if threshold <= |body| <= I32_MAX then |body| else 0;
    var prefix, rest := PrintVarInt(n), if |body| >= threshold then zlib.deflate(body) else body;
    forall k: nat | k <= |payload|
      ensures IsInt(n, payload[..k], Canonical) <==> payload[..k] == prefix
    {
      IntPrinted(n, payload[..k]);
    }
    if payload == prefix + rest {
      assert payload[..|prefix|] == prefix && payload[|prefix|..] == rest;
    }
    forall k: nat | k <= |payload| ensures payload == payload[..k] + payload[k..] { }
  }

  /**
    A payload is accepted as `body` exactly if it says 0 and holds the body, below the threshold, or
    gives the body's length, at least the threshold and at most the largest frame, and inflates to it.
   */
  ghost predicate AcceptsPayload(zlib: Zlib, body: seq<byte>, threshold: nat, max: nat, payload: seq<byte>) {
    exists k: nat :: k <= |payload| &&
      (|| (IsInt(0, payload[..k], Accepted) && payload[k..] == body && |body| < threshold)
       || (0 < |body| <= I32_MAX && IsInt(|body|, payload[..k], Accepted)
           && threshold <= |body| <= max && zlib.inflate(payload[k..]) == Inflated(body, true)))
  }

  lemma PayloadAccepted(zlib: Zlib, body: seq<byte>, threshold: nat, max: nat, payload: seq<byte>)
    ensures DecodeCompressed(zlib, payload, threshold, max) == Success(body)
       <==> AcceptsPayload(zlib, body, threshold, max, payload)
  {
    if DecodeCompressed(zlib, payload, threshold, max) == Success(body) {
      var p := ParseVarInt(payload).value;
      var k := |payload| - |p.rest|;
      IntRead(payload, p.value, p.rest);
      assert payload[k..] == p.rest && Before(payload, p.rest) == payload[..k];
    }
    if AcceptsPayload(zlib, body, threshold, max, payload) {
      var k: nat :| k <= |payload| &&
        (|| (IsInt(0, payload[..k], Accepted) && payload[k..] == body && |body| < threshold)
         || (0 < |body| <= I32_MAX && IsInt(|body|, payload[..k], Accepted)
             && threshold <= |body| <= max && zlib.inflate(payload[k..]) == Inflated(body, true)));
      var n := if IsInt(0, payload[..k], Accepted) then 0 else |body|;
      assert Before(payload, payload[k..]) == payload[..k];
      IntRead(payload, n, payload[k..]);
    }
  }

  /** A packet on the wire before encryption: framed as it is, or compressed and then framed. */
  ghost predicate IsWire(c: Link.Config, body: seq<byte>, threshold: Option<nat>, b: seq<byte>) {
    && |body| <= c.limits.maxFrameSize
    && match threshold
       case None => IsPrefixed(body, b, Canonical)
       case Some(t) =>
         exists payload ::
           && IsPayload(c.zlib, body, t, payload)
           && |payload| <= c.limits.maxFrameSize
           && IsPrefixed(payload, b, Canonical)
  }

  lemma WirePrinted(c: Link.Config, body: seq<byte>, threshold: Option<nat>, b: seq<byte>)
    requires c.limits.Valid()
    ensures Link.WireBytes(c, body, threshold) == Success(b) <==> IsWire(c, body, threshold, b)
  {
    var max := c.limits.maxFrameSize;
    if |body| <= max {
      var framed := PrintFrame(body, max).value;
      FramePrefix(|body|, []);
      FrameRoundTrip(body, max, []);
      assert framed + [] == framed && PrintVarInt(|body|) + [] == PrintVarInt(|body|);
      assert SingleFrame(framed, c.limits) == Success(body);
      FramePrinted(body, max, b);
      if threshold.Some? { CompressedPrinted(c, body, threshold.value, b); }
    }
  }

  lemma CompressedPrinted(c: Link.Config, body: seq<byte>, threshold: nat, b: seq<byte>)
    requires c.limits.Valid() && |body| <= c.limits.maxFrameSize
    ensures EncodeCompressed(c.zlib, body, threshold, c.limits.maxFrameSize) == Success(b)
       <==> IsWire(c, body, Some(threshold), b)
  {
    var max := c.limits.maxFrameSize;
    forall payload
      ensures CompressedPayload(c.zlib, body, threshold) == Success(payload)
         <==> IsPayload(c.zlib, body, threshold, payload)
    {
      PayloadPrinted(c.zlib, body, threshold, payload);
    }
    var printed := CompressedPayload(c.zlib, body, threshold);
    if printed.Success? { FramePrinted(printed.value, max, b); }
  }

  // ---- The cipher ----

  lemma {:induction false} XorBit(a: nat, b: nat, n: nat, j: nat)
    ensures BitOf(XorBits(a, b, n), j) <==> j < n && BitOf(a, j) != BitOf(b, j)
    decreases n
  {
    if n == 0 {
      ZeroHasNoBits(j);
    } else {
      LowBit((a + b) % 2, XorBits(a / 2, b / 2, n - 1), 0);
      if j == 0 {
        LowBitDiffers(a, b);
      } else {
        XorBit(a / 2, b / 2, n - 1, j - 1);
      }
    }
  }

  lemma LowBitDiffers(a: nat, b: nat)
    ensures (a + b) % 2 == 1 <==> (a % 2 == 1) != (b % 2 == 1)
  {
  }

  /** The register before byte `i`: the last bytes of the first register followed by the sealed bytes so far. */
  function RegisterAt(register: Register, cipherText: seq<byte>, i: nat): Register
    requires i <= |cipherText|
  {
    (register + cipherText[..i])[i..]
  }

  /** Bit by bit the one text is the other one, flipped where the block function of the register has a bit. */
  ghost predicate Masks(block: Register -> byte, register: Register, plain: seq<byte>, cipherText: seq<byte>) {
    && |plain| == |cipherText|
    && forall i, j: nat :: 0 <= i < |plain| ==>
         (BitOf(cipherText[i], j) <==>
          if j < 8 then BitOf(plain[i], j) != BitOf(block(RegisterAt(register, cipherText, i)), j) else false)
  }

  lemma {:induction false} SealedBits(block: Register -> byte, register: Register, plain: seq<byte>)
    requires register != []
    ensures var (next, sealed) := Seal(Cfb8(block), register, plain);
      Masks(block, register, plain, sealed) && next == RegisterAt(register, sealed, |sealed|)
    decreases |plain|
  {
    var (last, sealed) := Seal(Cfb8(block), register, plain);
    if plain != [] {
      var (next, b) := Cfb8(block).seal(register, plain[0]);
      var (end, rest) := Seal(Cfb8(block), next, plain[1..]);
      assert next == Shift(register, b);
      SealedBits(block, next, plain[1..]);
      forall i | 0 < i <= |sealed| ensures RegisterAt(register, sealed, i) == RegisterAt(next, rest, i - 1) {
        ShiftedRegister(register, b, rest, i);
      }
      forall i, j: nat | 0 <= i < |plain|
        ensures BitOf(sealed[i], j) <==>
          if j < 8 then BitOf(plain[i], j) != BitOf(block(RegisterAt(register, sealed, i)), j) else false
      {
        if i == 0 {
          assert RegisterAt(register, sealed, 0) == register;
          XorBit(plain[0], block(register), 8, j);
        } else {
          assert sealed[i] == rest[i - 1] && plain[i] == plain[1..][i - 1];
        }
      }
    }
  }

  lemma ShiftedRegister(register: Register, b: byte, rest: seq<byte>, i: nat)
    requires register != [] && 0 < i <= |rest| + 1
    ensures RegisterAt(register, [b] + rest, i) == RegisterAt(Shift(register, b), rest, i - 1)
  {
    assert ([b] + rest)[..i] == [b] + rest[..i - 1];
    assert register + ([b] + rest[..i - 1]) == [register[0]] + (Shift(register, b) + rest[..i - 1]);
  }

  lemma {:induction false} SealOpened(block: Register -> byte, register: Register, cipherText: seq<byte>)
    ensures var (next, plain) := Open(Cfb8(block), register, cipherText);
      Seal(Cfb8(block), register, plain) == (next, cipherText)
    decreases |cipherText|
  {
    if cipherText != [] {
      var (next, b) := Cfb8(block).open(register, cipherText[0]);
      var rest := Open(Cfb8(block), next, cipherText[1..]).1;
      assert ([b] + rest)[1..] == rest;
      Pow2Of8();
      XorTwice(cipherText[0], block(register), 8);
      assert Cfb8(block).seal(register, b) == (next, cipherText[0]);
      SealOpened(block, next, cipherText[1..]);
      assert [cipherText[0]] + cipherText[1..] == cipherText;
    }
  }

  /** What is opened, sealed or not by this program, stands in the same relation to the received text. */
  lemma OpenedBits(block: Register -> byte, register: Register, cipherText: seq<byte>)
    requires register != []
    ensures var (next, plain) := Open(Cfb8(block), register, cipherText);
      Masks(block, register, plain, cipherText) && next == RegisterAt(register, cipherText, |cipherText|)
  {
    SealOpened(block, register, cipherText);
    SealedBits(block, register, Open(Cfb8(block), register, cipherText).1);
  }
}
