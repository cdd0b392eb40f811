/** Signed chat: last-seen window, acknowledgements, message indices (secure_chat.rs). */
module SecureChat {
  import opened Wrappers
  import opened Bytes

  const SIGNATURE_BYTES := 256

  type Signature = s: seq<byte> | |s| == SIGNATURE_BYTES witness seq(SIGNATURE_BYTES, _ => 0)

  datatype ChatError =
    | Authentication
    | ExpiredCertificate
    | IncomingSequence
    | NumericRange
    | IncompatibleAcknowledgementWindow

  datatype Rules = Rules(chainVersion: i32, capacity: nat, threshold: i32)

  // ---- The window as a view of history ----

  /** A signed message as it was received, and whether it reached the display. */
  datatype Seen = Seen(signature: Signature, displayed: bool)

  function EntryOf(m: Seen): Option<Signature> {
    if m.displayed then Some(m.signature) else None
  }

  function Entries(history: seq<Seen>): (r: seq<Option<Signature>>)
    ensures |r| == |history|
  {
    seq(|history|, i requires 0 <= i < |history| => EntryOf(history[i]))
  }

  function Blanks(n: nat): (r: seq<Option<Signature>>)
    ensures |r| == n
  {
    seq(n, _ => None)
  }

  /** The last `capacity` entries of the history, blank before its beginning. */
  function Window(history: seq<Seen>, capacity: nat): (r: seq<Option<Signature>>)
    ensures |r| == capacity
  {
    (Blanks(capacity) + Entries(history))[|history|..]
  }

  /** A message repeating the signature just before it is not counted again. */
  function Extend(history: seq<Seen>, m: Seen): seq<Seen> {
    if history != [] && history[|history| - 1].signature == m.signature then history else history + [m]
  }

  lemma WindowSlides(history: seq<Seen>, m: Seen, capacity: nat)
    requires capacity > 0
    ensures Window(history + [m], capacity) == Window(history, capacity)[1..] + [EntryOf(m)]
  {
    var all := Blanks(capacity) + Entries(history);
    assert Entries(history + [m]) == Entries(history) + [EntryOf(m)];
    assert Blanks(capacity) + Entries(history + [m]) == all + [EntryOf(m)];
    assert (all + [EntryOf(m)])[|history| + 1..] == all[|history|..][1..] + [EntryOf(m)];
  }

  /** The newest message stands last; what was not displayed, and what is before the first, is blank. */
  lemma WindowShows(history: seq<Seen>, capacity: nat, i: nat)
    requires i < capacity
    ensures var k := |history| - capacity + i;
      Window(history, capacity)[i]
      == if k >= 0 && history[k].displayed then Some(history[k].signature) else None
  {
    assert Window(history, capacity)[i] == (Blanks(capacity) + Entries(history))[|history| + i];
  }

  // ---- Acknowledgement bits and checksum ----

  /** Signatures of the displayed entries, in order. */
  function Displayed(entries: seq<Option<Signature>>): (r: seq<Signature>)
    ensures |r| <= |entries|
  {
    if entries == [] then []
    else
      var last := entries[|entries| - 1];
      Displayed(entries[..|entries| - 1]) + if last.Some? then [last.value] else []
  }

  /** One signature for each displayed entry, in their order. */
  lemma {:induction false} DisplayedInOrder(a: seq<Option<Signature>>, b: seq<Option<Signature>>, s: Signature)
    ensures Displayed([]) == [] && Displayed([Some(s)]) == [s] && Displayed([None]) == []
    ensures Displayed(a + b) == Displayed(a) + Displayed(b)
    decreases |b|
  {
    var shown, blank := [Some(s)], Blanks(1);
    assert shown[..0] == [] && blank[..0] == [] && blank == [None] && [] + [s] == [s];
    if b == [] {
      assert a + b == a;
    } else {
      DisplayedInOrder(a, b[..|b| - 1], s);
      assert (a + b)[..|a + b| - 1] == a + b[..|b| - 1];
    }
  }

  /** `n | 1 << k`. */
  function WithBit(n: nat, k: nat): nat {
    if k == 0 then 2 * (n / 2) + 1 else 2 * WithBit(n / 2, k - 1) + n % 2
  }

  lemma {:induction false} WithBitFits(n: nat, k: nat, width: nat)
    requires k < width && n < Pow2(width)
    ensures WithBit(n, k) < Pow2(width)
  {
    if k > 0 { WithBitFits(n / 2, k - 1, width - 1); }
  }

  lemma BitFitsByte(n: byte, k: nat)
    requires k < 8
    ensures WithBit(n, k) < 256
  {
    assert Pow2(8) == 256 by { assert Pow2(4) == 16; }
    WithBitFits(n, k, 8);
  }

  /** Setting a bit changes that bit alone. */
  lemma {:induction false} WithBitAt(n: nat, k: nat, j: nat)
    ensures BitOf(WithBit(n, k), j) <==> j == k || BitOf(n, j)
  {
    if j > 0 && k > 0 { WithBitAt(n / 2, k - 1, j - 1); }
  }

  predicate Bit(bytes: seq<byte>, i: nat)
    requires i < 8 * |bytes|
  {
    BitOf(bytes[i / 8], i % 8)
  }

  /** `as i32` of the low 32 bits: Java's wrapping integer arithmetic. */
  function Hash31(previous: i32, next: int): i32 {
    I32(previous * 31 + next)
  }

  function SignedByte(b: byte): int {
    if b < 128 then b else b - 256
  }

  /** `Arrays.hashCode` of the signed bytes. */
  function ArrayHash(bytes: seq<byte>): i32 {
    if bytes == [] then 1 else Hash31(ArrayHash(bytes[..|bytes| - 1]), SignedByte(bytes[|bytes| - 1]))
  }

  /** `List.hashCode` of the array hashes. */
  function ListHash(signatures: seq<Signature>): i32 {
    if signatures == [] then 1
    else Hash31(ListHash(signatures[..|signatures| - 1]), ArrayHash(signatures[|signatures| - 1]))
  }

  function Checksum(signatures: seq<Signature>): (b: byte)
    ensures b != 0
  {
    var low := ListHash(signatures) % 256;
    if low == 0 then 1 else low
  }

  function Pow31(n: nat): nat {
    if n == 0 then 1 else 31 * Pow31(n - 1)
  }

  /** Each value with a power of 31, the last with 1. */
  function Weighted(values: seq<int>): int {
    if values == [] then 0 else values[0] * Pow31(|values| - 1) + Weighted(values[1..])
  }

  function SignedBytes(bytes: seq<byte>): seq<int> {
    seq(|bytes|, i requires 0 <= i < |bytes| => bytes[i] as int - if bytes[i] >= 128 then 256 else 0)
  }

  function ArrayHashes(signatures: seq<Signature>): seq<int> {
    seq(|signatures|, i requires 0 <= i < |signatures| => ArrayHash(signatures[i]))
  }

  lemma {:induction false} WeightedAppend(values: seq<int>, x: int)
    ensures Weighted(values + [x]) == 31 * Weighted(values) + x
  {
    if values == [] {
      assert [x][1..] == [] && [] + [x] == [x];
    } else {
      assert (values + [x])[1..] == values[1..] + [x];
      WeightedAppend(values[1..], x);
      TimesPower(values[0], |values|);
    }
  }

  lemma TimesPower(v: int, n: nat)
    requires n > 0
    ensures v * Pow31(n) == 31 * (v * Pow31(n - 1))
  {
    var p := Pow31(n - 1);
    assert Pow31(n) == 31 * p;
  }

  /** One more value makes the hash one step of Horner's rule. */
  lemma HashStep(h: i32, values: seq<int>, x: int)
    requires h % TWO32 == (Pow31(|values|) + Weighted(values)) % TWO32
    ensures Hash31(h, x) % TWO32 == (Pow31(|values| + 1) + Weighted(values + [x])) % TWO32
  {
    var p := Pow31(|values|) + Weighted(values);
    WeightedAppend(values, x);
    assert Pow31(|values| + 1) + Weighted(values + [x]) == 31 * p + x;
    Congruent31(h, p, x);
  }

  lemma Congruent31(h: int, p: int, x: int)
    requires h % TWO32 == p % TWO32
    ensures (h * 31 + x) % TWO32 == (31 * p + x) % TWO32
  {
    var k := (h - p) / TWO32;
    assert h == p + TWO32 * k;
    assert h * 31 + x == 31 * p + x + TWO32 * (31 * k);
  }

  /** The hashes are polynomials in 31 with leading coefficient 1, cut to 32 bits; bytes count with their sign. */
  lemma {:induction false} ArrayHashIsPolynomial(bytes: seq<byte>)
    ensures ArrayHash(bytes) % TWO32 == (Pow31(|bytes|) + Weighted(SignedBytes(bytes))) % TWO32
  {
    if bytes != [] {
      var init, last := bytes[..|bytes| - 1], bytes[|bytes| - 1];
      var x := last as int - if last >= 128 then 256 else 0;
      ArrayHashIsPolynomial(init);
      assert SignedBytes(bytes) == SignedBytes(init) + [x];
      HashStep(ArrayHash(init), SignedBytes(init), x);
    }
  }

  lemma {:induction false} ListHashIsPolynomial(signatures: seq<Signature>)
    ensures ListHash(signatures) % TWO32 == (Pow31(|signatures|) + Weighted(ArrayHashes(signatures))) % TWO32
  {
    if signatures != [] {
      var init, x := signatures[..|signatures| - 1], ArrayHash(signatures[|signatures| - 1]);
      ListHashIsPolynomial(init);
      assert ArrayHashes(signatures) == ArrayHashes(init) + [x];
      HashStep(ListHash(init), ArrayHashes(init), x);
    }
  }

  /** The checksum is the low byte of the polynomial of the list, or 1 where that is 0. */
  lemma ChecksumIsLowByte(signatures: seq<Signature>)
    ensures var low := (Pow31(|signatures|) + Weighted(ArrayHashes(signatures))) % 256;
      Checksum(signatures) == if low == 0 then 1 else low
  {
    ListHashIsPolynomial(signatures);
    LowByte(ListHash(signatures));
    LowByte(Pow31(|signatures|) + Weighted(ArrayHashes(signatures)));
  }

  lemma LowByte(a: int)
    ensures a % 256 == a % TWO32 % 256
  {
    var q, r := a / TWO32, a % TWO32;
    assert a == 256 * (0x100_0000 * q) + r;
  }

  method AcknowledgementChecksum(signatures: seq<Signature>) returns (checksum: byte)
    ensures checksum == Checksum(signatures)
  {
    var listHash: i32 := 1;
    for i := 0 to |signatures|
      invariant listHash == ListHash(signatures[..i])
    {
      var signature := signatures[i];
      var arrayHash: i32 := 1;
      for k := 0 to |signature|
        invariant arrayHash == ArrayHash(signature[..k])
      {
        assert signature[..k + 1][..k] == signature[..k];
        arrayHash := Hash31(arrayHash, SignedByte(signature[k]));
      }
      assert signature[..|signature|] == signature;
      assert signatures[..i + 1][..i] == signatures[..i];
      listHash := Hash31(listHash, arrayHash);
    }
    assert signatures[..|signatures|] == signatures;
    checksum := listHash % 256;
    if checksum == 0 {
      checksum := 1;
    }
  }

  datatype LastSeenUpdate = LastSeenUpdate(offset: i32, acknowledged: seq<byte>, checksum: byte)

  const ACKNOWLEDGED_ENTRIES := 20

  /** Bit `i` is set exactly when entry `i` is displayed; the bits beyond the window are clear. */
  predicate BitsMatch(acknowledged: seq<byte>, entries: seq<Option<Signature>>) {
    && |acknowledged| == 3
    && forall i: nat :: i < 24 ==> (Bit(acknowledged, i) <==> i < |entries| && entries[i].Some?)
  }

  /** The acknowledgement bytes, one `|=` per displayed entry. */
  function AcknowledgedBytes(entries: seq<Option<Signature>>): (r: seq<byte>)
    requires |entries| <= 24
    ensures |r| == 3
  {
    if entries == [] then [0, 0, 0]
    else
      var i := |entries| - 1;
      var before := AcknowledgedBytes(entries[..i]);
      if entries[i].None? then before
      else
        BitFitsByte(before[i / 8], i % 8);
        before[i / 8 := WithBit(before[i / 8], i % 8)]
  }

  lemma {:induction false} AcknowledgedBytesMatch(entries: seq<Option<Signature>>)
    requires |entries| <= 24
    ensures BitsMatch(AcknowledgedBytes(entries), entries)
  {
    if entries == [] {
      forall k: nat ensures !BitOf(0, k) { ZeroHasNoBits(k); }
    } else {
      var i := |entries| - 1;
      var before, after := AcknowledgedBytes(entries[..i]), AcknowledgedBytes(entries);
      AcknowledgedBytesMatch(entries[..i]);
      forall j: nat | j < 24 ensures Bit(after, j) <==> j < |entries| && entries[j].Some? {
        assert Bit(before, j) <==> j < i && entries[..i][j].Some?;
        WithBitAt(before[i / 8], i % 8, j % 8);
        assert j == i <==> j / 8 == i / 8 && j % 8 == i % 8;
      }
    }
  }

  // ---- The tracker as a value ----

  /** One more entry at the end; the oldest one, if any, falls out. */
  function Slide<T>(entries: seq<T>, entry: T): seq<T> {
    (if entries == [] then [] else entries[1..]) + [entry]
  }

  datatype Tracker = Tracker(entries: seq<Option<Signature>>, last: Option<Signature>, offset: i32)

  /** The tracker after a signed message; on overflow of the offset the window has moved already. */
  function Note(t: Tracker, m: Seen): (Tracker, Result<(), ChatError>) {
    if t.last == Some(m.signature) then (t, Success(()))
    else
      var moved := Tracker(Slide(t.entries, EntryOf(m)), Some(m.signature), t.offset);
      if t.offset == I32_MAX then (moved, Failure(NumericRange)) else (moved.(offset := t.offset + 1), Success(()))
  }

  function UpdateOf(t: Tracker): LastSeenUpdate
    requires |t.entries| == ACKNOWLEDGED_ENTRIES
  {
    LastSeenUpdate(t.offset, AcknowledgedBytes(t.entries), Checksum(Displayed(t.entries)))
  }

  /** The update to send and the signatures it acknowledges; making it clears the offset. */
  function Generate(t: Tracker): (Tracker, Result<(LastSeenUpdate, seq<Signature>), ChatError>) {
    if |t.entries| != ACKNOWLEDGED_ENTRIES then (t, Failure(IncompatibleAcknowledgementWindow))
    else if t.offset < 0 then (t.(offset := 0), Failure(NumericRange))
    else (t.(offset := 0), Success((UpdateOf(t), Displayed(t.entries))))
  }

  /** The loop over the window: a bit and a signature for each displayed entry. */
  method CollectDisplayed(entries: seq<Option<Signature>>) returns (acknowledged: seq<byte>, signatures: seq<Signature>)
    requires |entries| <= 24
    ensures acknowledged == AcknowledgedBytes(entries) && signatures == Displayed(entries)
  {
    acknowledged, signatures := [0, 0, 0], [];
    for i := 0 to |entries|
      invariant acknowledged == AcknowledgedBytes(entries[..i])
      invariant signatures == Displayed(entries[..i])
    {
      assert entries[..i + 1][..i] == entries[..i];
      if entries[i].Some? {
        BitFitsByte(acknowledged[i / 8], i % 8);
        acknowledged := acknowledged[i / 8 := WithBit(acknowledged[i / 8], i % 8)];
        signatures := signatures + [entries[i].value];
      }
    }
    assert entries[..|entries|] == entries;
  }

  class LastSeenTracker {
    var entries: seq<Option<Signature>>
    var lastAdded: Option<Signature>
    var offset: i32

    function Value(): Tracker
      reads this
    {
      Tracker(entries, lastAdded, offset)
    }

    constructor (capacity: nat)
      ensures Value() == Tracker(Blanks(capacity), None, 0)
    {
      entries := Blanks(capacity);
      lastAdded := None;
      offset := 0;
    }

    method Add(signature: Signature, displayed: bool) returns (r: Result<(), ChatError>)
      modifies this
      ensures (Value(), r) == Note(old(Value()), Seen(signature, displayed))
    {
      if lastAdded == Some(signature) {
        return Success(());
      }
      lastAdded := Some(signature);
      entries := if entries == [] then [] else entries[1..];
      entries := entries + [if displayed then Some(signature) else None];
      if offset == I32_MAX {
        return Failure(NumericRange);
      }
      offset := offset + 1;
      return Success(());
    }

    method TakeOffset() returns (taken: i32)
      modifies this
      ensures taken == old(offset) && Value() == old(Value()).(offset := 0)
    {
      taken := offset;
      offset := 0;
    }

    method GenerateUpdate() returns (r: Result<(LastSeenUpdate, seq<Signature>), ChatError>)
      modifies this
      ensures (Value(), r) == Generate(old(Value()))
    {
      if |entries| != ACKNOWLEDGED_ENTRIES {
        return Failure(IncompatibleAcknowledgementWindow);
      }
      var acknowledged, signatures := CollectDisplayed(entries);
      var checksum := AcknowledgementChecksum(signatures);
      var taken := TakeOffset();
      if taken < 0 {
        return Failure(NumericRange);
      }
      return Success((LastSeenUpdate(taken, acknowledged, checksum), signatures));
    }
  }

  // ---- What is signed ----

  type Uuid = s: seq<byte> | |s| == 16 witness seq(16, _ => 0)

  datatype SigningContext = SigningContext(
    chainVersion: i32, sender: Uuid, session: Uuid, messageIndex: i32,
    message: seq<byte>, timestampMillis: i64, salt: i64, lastSeen: seq<Signature>)

  /** Division that rounds toward zero. */
  function Seconds(millis: i64): i64 {
    if millis >= 0 then millis / 1000 else 0 - (0 - millis) / 1000
  }

  function Int32Bytes(value: i32): (s: seq<byte>)
    ensures |s| == 4
  {
    Pow256Values();
    ToBigEndian(Wrap(value, 4), 4)
  }

  function Int64Bytes(value: i64): (s: seq<byte>)
    ensures |s| == 8
  {
    Pow256Values();
    ToBigEndian(Wrap(value, 8), 8)
  }

  function Joined(signatures: seq<Signature>): seq<byte> {
    if signatures == [] then [] else signatures[0] + Joined(signatures[1..])
  }

  function LastSeenBytes(c: SigningContext): seq<byte>
    requires |c.lastSeen| <= I32_MAX
  {
    Int32Bytes(|c.lastSeen|) + Joined(c.lastSeen)
  }

  function MessageBytes(c: SigningContext): seq<byte>
    requires |c.message| <= I32_MAX && |c.lastSeen| <= I32_MAX
  {
    Int32Bytes(|c.message|) + (c.message + LastSeenBytes(c))
  }

  function SigningInput(c: SigningContext): Result<seq<byte>, ChatError> {
    if |c.message| > I32_MAX || |c.lastSeen| > I32_MAX then Failure(NumericRange)
    else
      Success(Int32Bytes(c.chainVersion) + (c.sender + (c.session + (Int32Bytes(c.messageIndex)
        + (Int64Bytes(c.salt) + (Int64Bytes(Seconds(c.timestampMillis)) + MessageBytes(c)))))))
  }

  lemma SplitEqual<T>(a: seq<T>, x: seq<T>, b: seq<T>, y: seq<T>)
    requires a + x == b + y && |a| == |b|
    ensures a == b && x == y
  {
    assert a == (a + x)[..|a|] && b == (b + y)[..|a|];
    assert x == (a + x)[|a|..] && y == (b + y)[|a|..];
  }

  lemma Int32BytesInjective(x: i32, y: i32)
    requires Int32Bytes(x) == Int32Bytes(y)
    ensures x == y
  {
    Pow256Values();
    BigEndianRoundTrip(Wrap(x, 4), 4);
    BigEndianRoundTrip(Wrap(y, 4), 4);
  }

  lemma Int64BytesInjective(x: i64, y: i64)
    requires Int64Bytes(x) == Int64Bytes(y)
    ensures x == y
  {
    Pow256Values();
    BigEndianRoundTrip(Wrap(x, 8), 8);
    BigEndianRoundTrip(Wrap(y, 8), 8);
  }

  lemma {:induction false} JoinedInjective(a: seq<Signature>, b: seq<Signature>)
    requires |a| == |b| && Joined(a) == Joined(b)
    ensures a == b
  {
    if a != [] {
      SplitEqual(a[0], Joined(a[1..]), b[0], Joined(b[1..]));
      JoinedInjective(a[1..], b[1..]);
      assert a == [a[0]] + a[1..] && b == [b[0]] + b[1..];
    }
  }

  lemma MessageBytesInjective(c: SigningContext, d: SigningContext)
    requires |c.message| <= I32_MAX && |c.lastSeen| <= I32_MAX && |d.message| <= I32_MAX && |d.lastSeen| <= I32_MAX
    requires MessageBytes(c) == MessageBytes(d)
    ensures c.message == d.message && c.lastSeen == d.lastSeen
  {
    SplitEqual(Int32Bytes(|c.message|), c.message + LastSeenBytes(c), Int32Bytes(|d.message|),
      d.message + LastSeenBytes(d));
    Int32BytesInjective(|c.message|, |d.message|);
    SplitEqual(c.message, LastSeenBytes(c), d.message, LastSeenBytes(d));
    SplitEqual(Int32Bytes(|c.lastSeen|), Joined(c.lastSeen), Int32Bytes(|d.lastSeen|), Joined(d.lastSeen));
    Int32BytesInjective(|c.lastSeen|, |d.lastSeen|);
    JoinedInjective(c.lastSeen, d.lastSeen);
  }

  function Magnitude(x: int): nat {
    if x < 0 then -x else x
  }

  /** `q` is the time in whole seconds, what is left of a second dropped, before the epoch as after it. */
  predicate WholeSeconds(millis: int, q: int) {
    && Magnitude(q) * 1000 <= Magnitude(millis) < (Magnitude(q) + 1) * 1000
    && (q > 0 ==> millis > 0) && (q < 0 ==> millis < 0)
  }

  lemma SecondsAreWhole(millis: i64, q: int)
    ensures WholeSeconds(millis, q) <==> q == Seconds(millis)
  {
  }

  ghost predicate SameSecond(millis: int, other: int) {
    exists q :: WholeSeconds(millis, q) && WholeSeconds(other, q)
  }

  lemma SameSeconds(millis: i64, other: i64)
    ensures SameSecond(millis, other) <==> Seconds(millis) == Seconds(other)
  {
    SecondsAreWhole(millis, Seconds(millis));
    SecondsAreWhole(other, Seconds(other));
    if q :| WholeSeconds(millis, q) && WholeSeconds(other, q) {
      SecondsAreWhole(millis, q);
      SecondsAreWhole(other, q);
    }
  }

  /** Signing inputs are equal if and only if the contexts are, except for times within the same whole second. */
  lemma SigningInputInjective(c: SigningContext, d: SigningContext)
    requires SigningInput(c).Success?
    ensures SigningInput(c) == SigningInput(d)
       <==> c == d.(timestampMillis := c.timestampMillis) && SameSecond(c.timestampMillis, d.timestampMillis)
  {
    SameSeconds(c.timestampMillis, d.timestampMillis);
    if SigningInput(c) == SigningInput(d) { EqualInputs(c, d); }
    if c == d.(timestampMillis := c.timestampMillis) && Seconds(c.timestampMillis) == Seconds(d.timestampMillis) {
      assert MessageBytes(c) == MessageBytes(d);
    }
  }

  lemma EqualInputs(c: SigningContext, d: SigningContext)
    requires SigningInput(c).Success? && SigningInput(c) == SigningInput(d)
    ensures c == d.(timestampMillis := c.timestampMillis)
    ensures Seconds(c.timestampMillis) == Seconds(d.timestampMillis)
  {
    var c6, d6 := Int64Bytes(Seconds(c.timestampMillis)) + MessageBytes(c),
      Int64Bytes(Seconds(d.timestampMillis)) + MessageBytes(d);
    var c5, d5 := Int64Bytes(c.salt) + c6, Int64Bytes(d.salt) + d6;
    var c4, d4 := Int32Bytes(c.messageIndex) + c5, Int32Bytes(d.messageIndex) + d5;
    var c3, d3 := c.session + c4, d.session + d4;
    SplitEqual(Int32Bytes(c.chainVersion), c.sender + c3, Int32Bytes(d.chainVersion), d.sender + d3);
    SplitEqual(c.sender, c3, d.sender, d3);
    SplitEqual(c.session, c4, d.session, d4);
    SplitEqual(Int32Bytes(c.messageIndex), c5, Int32Bytes(d.messageIndex), d5);
    SplitEqual(Int64Bytes(c.salt), c6, Int64Bytes(d.salt), d6);
    SplitEqual(Int64Bytes(Seconds(c.timestampMillis)), MessageBytes(c), Int64Bytes(Seconds(d.timestampMillis)),
      MessageBytes(d));
    Int32BytesInjective(c.chainVersion, d.chainVersion);
    Int32BytesInjective(c.messageIndex, d.messageIndex);
    Int64BytesInjective(c.salt, d.salt);
    Int64BytesInjective(Seconds(c.timestampMillis), Seconds(d.timestampMillis));
    MessageBytesInjective(c, d);
  }

  method BuildSigningInput(c: SigningContext) returns (r: Result<seq<byte>, ChatError>)
    ensures r == SigningInput(c)
  {
    if |c.message| > I32_MAX || |c.lastSeen| > I32_MAX {
      return Failure(NumericRange);
    }
    var input := Int32Bytes(c.chainVersion);
    input := input + c.sender;
    input := input + c.session;
    input := input + Int32Bytes(c.messageIndex);
    input := input + Int64Bytes(c.salt);
    input := input + Int64Bytes(Seconds(c.timestampMillis));
    input := input + Int32Bytes(|c.message|);
    input := input + c.message;
    input := input + Int32Bytes(|c.lastSeen|);
    ghost var head := input;
    assert head + Joined(c.lastSeen) == SigningInput(c).value;
    for i := 0 to |c.lastSeen|
      invariant input + Joined(c.lastSeen[i..]) == head + Joined(c.lastSeen)
    {
      assert c.lastSeen[i..][1..] == c.lastSeen[i + 1..];
      assert input + Joined(c.lastSeen[i..]) == (input + c.lastSeen[i]) + Joined(c.lastSeen[i + 1..]);
      input := input + c.lastSeen[i];
    }
    assert input + [] == input;
    return Success(input);
  }

  // ---- The session ----

  datatype Chat = Chat(tracker: Tracker, nextIncoming: i32, nextOutgoing: i32)

  function NewChat(capacity: nat): Chat {
    Chat(Tracker(Blanks(capacity), None, 0), 0, 0)
  }

  function Accept(c: Chat, index: i32, signature: Option<Signature>, displayed: bool): (Chat, Result<(), ChatError>) {
    if index != c.nextIncoming then (c, Failure(IncomingSequence))
    else if c.nextIncoming == I32_MAX then (c, Failure(NumericRange))
    else
      var advanced := c.(nextIncoming := c.nextIncoming + 1);
      if signature.None? then (advanced, Success(()))
      else
        var (tracker, r) := Note(c.tracker, Seen(signature.value, displayed));
        (advanced.(tracker := tracker), r)
  }

  function Standalone(c: Chat, threshold: i32): (Chat, Option<i32>) {
    if c.tracker.offset > threshold then (c.(tracker := c.tracker.(offset := 0)), Some(c.tracker.offset)) else (c, None)
  }

  datatype Outgoing = Outgoing(sender: Uuid, session: Uuid, message: seq<byte>, timestampMillis: i64, salt: i64)

  datatype Prepared = Prepared(signature: Signature, update: LastSeenUpdate)

  function Context(rules: Rules, index: i32, m: Outgoing, lastSeen: seq<Signature>): SigningContext {
    SigningContext(rules.chainVersion, m.sender, m.session, index, m.message, m.timestampMillis, m.salt, lastSeen)
  }

  /** `sign` stands for the certificate; an update, once generated, is spent even if signing fails. */
  function Prepare(c: Chat, rules: Rules, expired: bool, m: Outgoing, sign: seq<byte> -> Option<Signature>)
      : (Chat, Result<Prepared, ChatError>)
  {
    if expired then (c, Failure(ExpiredCertificate))
    else
      var (tracker, generated) := Generate(c.tracker);
      var spent := c.(tracker := tracker);
      match generated
      case Failure(e) => (spent, Failure(e))
      case Success((update, lastSeen)) =>
        match SigningInput(Context(rules, c.nextOutgoing, m, lastSeen))
        case Failure(e) => (spent, Failure(e))
        case Success(input) =>
          if sign(input).None? then (spent, Failure(Authentication))
          else if c.nextOutgoing == I32_MAX then (spent, Failure(NumericRange))
          else (spent.(nextOutgoing := c.nextOutgoing + 1), Success(Prepared(sign(input).value, update)))
  }

  class SecureChatSession {
    const rules: Rules
    var nextOutgoing: i32
    var nextIncoming: i32
    var lastSeen: LastSeenTracker

    function Value(): Chat
      reads this, lastSeen
    {
      Chat(lastSeen.Value(), nextIncoming, nextOutgoing)
    }

    constructor (rules: Rules)
      ensures Value() == NewChat(rules.capacity) && this.rules == rules && fresh(lastSeen)
    {
      this.rules := rules;
      nextOutgoing, nextIncoming := 0, 0;
      lastSeen := new LastSeenTracker(rules.capacity);
    }

    method Reset()
      modifies this
      ensures Value() == NewChat(rules.capacity) && fresh(lastSeen)
    {
      nextOutgoing, nextIncoming := 0, 0;
      lastSeen := new LastSeenTracker(rules.capacity);
    }

    method AcceptIncoming(index: i32, signature: Option<Signature>, displayed: bool) returns (r: Result<(), ChatError>)
      modifies this, lastSeen
      ensures (Value(), r) == Accept(old(Value()), index, signature, displayed) && lastSeen == old(lastSeen)
    {
      if index != nextIncoming {
        return Failure(IncomingSequence);
      }
      if nextIncoming == I32_MAX {
        return Failure(NumericRange);
      }
      nextIncoming := nextIncoming + 1;
      if signature.Some? {
        var _ :- lastSeen.Add(signature.value, displayed);
      }
      return Success(());
    }

    method StandaloneAcknowledgement() returns (count: Option<i32>)
      modifies this, lastSeen
      ensures (Value(), count) == Standalone(old(Value()), rules.threshold) && lastSeen == old(lastSeen)
    {
      if lastSeen.offset > rules.threshold {
        var taken := lastSeen.TakeOffset();
        return Some(taken);
      }
      return None;
    }

    method PrepareOutgoing(expired: bool, m: Outgoing, sign: seq<byte> -> Option<Signature>)
        returns (r: Result<Prepared, ChatError>)
      modifies this, lastSeen
      ensures (Value(), r) == Prepare(old(Value()), rules, expired, m, sign) && lastSeen == old(lastSeen)
    {
      if expired {
        return Failure(ExpiredCertificate);
      }
      var generated :- lastSeen.GenerateUpdate();
      var input :- BuildSigningInput(Context(rules, nextOutgoing, m, generated.1));
      var signature := sign(input);
      if signature.None? {
        return Failure(Authentication);
      }
      if nextOutgoing == I32_MAX {
        return Failure(NumericRange);
      }
      nextOutgoing := nextOutgoing + 1;
      return Success(Prepared(signature.value, generated.0));
    }
  }
}
