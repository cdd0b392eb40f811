/**
  Bounded primitive values on the wire (reader.rs, writer.rs, bitset.rs, position.rs): what each
  one is read as and printed as, and that the two undo each other.
 */
module Codec {
  import opened Wrappers
  import opened Bytes
  import opened VarInts
  import opened Text

  datatype LengthKind = StringLength | ByteArrayLength | BitSetLength | FrameLength

  datatype CodecError =
    | UnexpectedEnd
    | MalformedVarInt
    | MalformedVarLong
    | MalformedLengthPrefix(kind: LengthKind)
    | NegativeLength(kind: LengthKind)
    | ValueOutOfRange
    | InvalidUtf8
    | StringTooLong
    | EncodedStringTooLong
    | ByteArrayTooLong
    | BitSetTooManyWords
    | BitSetBitOutOfRange
    | FrameTooLong
    | FrameBufferTooLong
    | InvalidBlockPosition

  /** A value read from the front of a byte string, and what is left after it. */
  datatype Parsed<+T> = Parsed(value: T, rest: seq<byte>)
  type Parse<+T> = Result<Parsed<T>, CodecError>
  type Print = Result<seq<byte>, CodecError>

  // ---- Integers and lengths ----

  function ParseBytes(s: seq<byte>, n: nat): Parse<seq<byte>> {
    if n <= |s| then Success(Parsed(s[..n], s[n..])) else Failure(UnexpectedEnd)
  }

  function ParseUnsigned(s: seq<byte>, width: nat): Parse<nat> {
    var p :- ParseBytes(s, width);
    Success(Parsed(FromBigEndian(p.value), p.rest))
  }

  function ParseBool(s: seq<byte>): Parse<bool> {
    var p :- ParseBytes(s, 1);
    Success(Parsed(p.value[0] != 0, p.rest))
  }

  function PrintBool(b: bool): seq<byte> {
    [if b then 1 else 0]
  }

  function ParseVarInt(s: seq<byte>): Parse<i32> {
    match ReadVar(s, 5)
    case Complete(v, k) => Success(Parsed(I32(v), s[k..]))
    case NeedMore => Failure(UnexpectedEnd)
    case Malformed => Failure(MalformedVarInt)
  }

  function PrintVarInt(value: i32): seq<byte> {
    WriteVar(U32(value))
  }

  function ParseVarLong(s: seq<byte>): Parse<i64> {
    match ReadVar(s, 10)
    case Complete(v, k) => Success(Parsed(I64(v), s[k..]))
    case NeedMore => Failure(UnexpectedEnd)
    case Malformed => Failure(MalformedVarLong)
  }

  function PrintVarLong(value: i64): seq<byte> {
    WriteVar(U64(value))
  }

  function ParseLength(s: seq<byte>, kind: LengthKind): Parse<nat> {
    match ParseVarInt(s)
    case Failure(MalformedVarInt) => Failure(MalformedLengthPrefix(kind))
    case Failure(e) => Failure(e)
    case Success(p) => if p.value < 0 then Failure(NegativeLength(kind)) else Success(Parsed(p.value, p.rest))
  }

  function PrintLength(n: nat): Print {
    if n > I32_MAX then Failure(ValueOutOfRange) else Success(PrintVarInt(n))
  }

  lemma VarIntRoundTrip(value: i32, t: seq<byte>)
    ensures ParseVarInt(PrintVarInt(value) + t) == Success(Parsed(value, t))
  {
    Pow128Values();
    WriteThenRead(U32(value), 5, t);
    assert I32(U32(value)) == value;
  }

  lemma VarIntShortens(s: seq<byte>)
    requires ParseVarInt(s).Success?
    ensures |PrintVarInt(ParseVarInt(s).value.value)| <= |s| - |ParseVarInt(s).value.rest|
    ensures |PrintVarInt(ParseVarInt(s).value.value)| >= 1
  {
    var v := ReadVar(s, 5).value;
    assert U32(I32(v)) == v % TWO32 <= v;
    ReadThenWrite(s, 5, v % TWO32);
  }

  lemma VarLongRoundTrip(value: i64, t: seq<byte>)
    ensures ParseVarLong(PrintVarLong(value) + t) == Success(Parsed(value, t))
  {
    Pow128Values();
    WriteThenRead(U64(value), 10, t);
    assert I64(U64(value)) == value;
  }

  lemma VarLongShortens(s: seq<byte>)
    requires ParseVarLong(s).Success?
    ensures |PrintVarLong(ParseVarLong(s).value.value)| <= |s| - |ParseVarLong(s).value.rest|
  {
    var v := ReadVar(s, 10).value;
    assert U64(I64(v)) == v % TWO64 <= v;
    ReadThenWrite(s, 10, v % TWO64);
  }

  lemma LengthRoundTrip(n: nat, kind: LengthKind, t: seq<byte>)
    requires n <= I32_MAX
    ensures ParseLength(PrintVarInt(n) + t, kind) == Success(Parsed(n, t))
  {
    VarIntRoundTrip(n, t);
  }

  lemma UnsignedRoundTrip(value: nat, width: nat, t: seq<byte>)
    requires value < Pow256(width)
    ensures ParseUnsigned(ToBigEndian(value, width) + t, width) == Success(Parsed(value, t))
  {
    BigEndianRoundTrip(value, width);
    var s := ToBigEndian(value, width);
    assert (s + t)[..width] == s && (s + t)[width..] == t;
  }

  // ---- Length-prefixed bytes and text ----

  datatype StringLimits = StringLimits(maxUtf16Units: nat, maxBytes: nat) {
    /** The smaller of the configured byte cap and three bytes for each UTF-16 unit. */
    function MaxEncodedBytes(): nat {
      if 3 * maxUtf16Units < maxBytes then 3 * maxUtf16Units else maxBytes
    }
  }

  function ParseByteArray(s: seq<byte>, maxLength: nat): Parse<seq<byte>> {
    var p :- ParseLength(s, ByteArrayLength);
    if p.value > maxLength then Failure(ByteArrayTooLong) else ParseBytes(p.rest, p.value)
  }

  function PrintByteArray(value: seq<byte>, maxLength: nat): Print {
    if |value| > maxLength then Failure(ByteArrayTooLong)
    else
      var prefix :- PrintLength(|value|);
      Success(prefix + value)
  }

  function ParseString(s: seq<byte>, limits: StringLimits): Parse<Utf8> {
    var p :- ParseLength(s, StringLength);
    if p.value > limits.MaxEncodedBytes() then Failure(EncodedStringTooLong)
    else
      var text :- ParseBytes(p.rest, p.value);
      if !IsUtf8(text.value) then Failure(InvalidUtf8)
      else if Utf16Units(text.value) > limits.maxUtf16Units then Failure(StringTooLong)
      else Success(Parsed(text.value, text.rest))
  }

  function PrintString(value: Utf8, limits: StringLimits): Print {
    if Utf16Units(value) > limits.maxUtf16Units then Failure(StringTooLong)
    else if |value| > limits.MaxEncodedBytes() then Failure(EncodedStringTooLong)
    else
      var prefix :- PrintLength(|value|);
      Success(prefix + value)
  }

  lemma PrefixedBytesRoundTrip(value: seq<byte>, t: seq<byte>)
    requires |value| <= I32_MAX
    ensures forall kind :: ParseLength(PrintVarInt(|value|) + value + t, kind) == Success(Parsed(|value|, value + t))
    ensures ParseBytes(value + t, |value|) == Success(Parsed(value, t))
  {
    assert PrintVarInt(|value|) + value + t == PrintVarInt(|value|) + (value + t);
    forall kind {
      LengthRoundTrip(|value|, kind, value + t);
    }
  }

  lemma ByteArrayRoundTrip(value: seq<byte>, maxLength: nat, t: seq<byte>)
    requires PrintByteArray(value, maxLength).Success?
    ensures ParseByteArray(PrintByteArray(value, maxLength).value + t, maxLength) == Success(Parsed(value, t))
  {
    PrefixedBytesRoundTrip(value, t);
  }

  lemma StringRoundTrip(value: Utf8, limits: StringLimits, t: seq<byte>)
    requires PrintString(value, limits).Success?
    ensures ParseString(PrintString(value, limits).value + t, limits) == Success(Parsed(value, t))
  {
    PrefixedBytesRoundTrip(value, t);
  }

  lemma LengthShortens(s: seq<byte>, kind: LengthKind)
    requires ParseLength(s, kind).Success?
    ensures var p := ParseLength(s, kind).value;
      && PrintLength(p.value).Success?
      && |PrintLength(p.value).value| <= |s| - |p.rest|
  {
    VarIntShortens(s);
  }

  lemma ByteArrayShortens(s: seq<byte>, maxLength: nat)
    requires ParseByteArray(s, maxLength).Success?
    ensures var p := ParseByteArray(s, maxLength).value;
      && PrintByteArray(p.value, maxLength).Success?
      && |PrintByteArray(p.value, maxLength).value| <= |s| - |p.rest|
  {
    LengthShortens(s, ByteArrayLength);
  }

  lemma StringShortens(s: seq<byte>, limits: StringLimits)
    requires ParseString(s, limits).Success?
    ensures var p := ParseString(s, limits).value;
      && PrintString(p.value, limits).Success?
      && |PrintString(p.value, limits).value| <= |s| - |p.rest|
  {
    LengthShortens(s, StringLength);
  }

  // ---- Block positions ----

  datatype BlockPosition = BlockPosition(x: i32, y: i32, z: i32)

  predicate PositionInRange(p: BlockPosition) {
    && -0x200_0000 <= p.x < 0x200_0000
    && -0x200_0000 <= p.z < 0x200_0000
    && -0x800 <= p.y < 0x800
  }

  /** X:26, Z:26, Y:12 bits; the shifted fields do not overlap, so their union is their sum. */
  function ToPacked(p: BlockPosition): (v: u64) {
    (p.x % 0x400_0000) * 0x40_0000_0000 + (p.z % 0x400_0000) * 0x1000 + p.y % 0x1000
  }

  /** Two's-complement reading of the low bits of a word whose sign bit is worth `half`. */
  function SignExtend(value: nat, half: nat): int {
    if value < half then value else value - 2 * half
  }

  function FromPacked(v: u64): (p: BlockPosition) {
    BlockPosition(
      SignExtend(v / 0x40_0000_0000, 0x200_0000),
      SignExtend(v % 0x1000, 0x800),
      SignExtend(v / 0x1000 % 0x400_0000, 0x200_0000))
  }

  lemma PackRoundTrip(p: BlockPosition)
    requires PositionInRange(p)
    ensures FromPacked(ToPacked(p)) == p
  {
    var x, y, z := p.x % 0x400_0000, p.y % 0x1000, p.z % 0x400_0000;
    var v := ToPacked(p);
    assert v == x * 0x40_0000_0000 + z * 0x1000 + y;
    assert v / 0x40_0000_0000 == x;
    assert v / 0x1000 == x * 0x400_0000 + z;
  }

  lemma PackOnto(v: u64)
    ensures PositionInRange(FromPacked(v))
    ensures ToPacked(FromPacked(v)) == v
  {
    var p := FromPacked(v);
    assert p.x % 0x400_0000 == v / 0x40_0000_0000;
    assert p.z % 0x400_0000 == v / 0x1000 % 0x400_0000;
    assert p.y % 0x1000 == v % 0x1000;
    assert v / 0x1000 / 0x400_0000 == v / 0x40_0000_0000;
  }

  function ParsePosition(s: seq<byte>): Parse<BlockPosition> {
    var p :- ParseUnsigned(s, 8);
    Pow256Values();
    Success(Parsed(FromPacked(p.value), p.rest))
  }

  function PrintPosition(p: BlockPosition): Print {
    Pow256Values();
    if PositionInRange(p) then Success(ToBigEndian(ToPacked(p), 8)) else Failure(InvalidBlockPosition)
  }

  // ---- Bit sets ----

  /** Words of a `BitSet`; every constructor of the type removes trailing zero words. */
  type BitSet = words: seq<u64> | words == [] || words[|words| - 1] != 0 witness []

  datatype BitSetLimits = BitSetLimits(maxWords: nat, maxBits: nat) {
    function MaxEncodedWords(): nat {
      var byBits := (maxBits + 63) / 64;
      if byBits < maxWords then byBits else maxWords
    }
  }

  function StripZeros(words: seq<u64>): (r: BitSet)
    ensures r <= words
  {
    if words != [] && words[|words| - 1] == 0 then StripZeros(words[..|words| - 1]) else words
  }

  /** Number of binary digits of a word: 64 minus its leading zeros. */
  function BitLength(word: nat): nat {
    if word == 0 then 0 else 1 + BitLength(word / 2)
  }

  function HighestSetBit(words: seq<u64>): Option<nat> {
    if words == [] then None
    else if words[|words| - 1] == 0 then HighestSetBit(words[..|words| - 1])
    else Some(64 * (|words| - 1) + BitLength(words[|words| - 1]) - 1)
  }

  function ValidateWords(words: seq<u64>, limits: BitSetLimits): Result<(), CodecError> {
    if |words| > limits.MaxEncodedWords() then Failure(BitSetTooManyWords)
    else if HighestSetBit(words).Some? && HighestSetBit(words).value >= limits.maxBits then Failure(BitSetBitOutOfRange)
    else Success(())
  }

  function ParseWords(s: seq<byte>, n: nat): Parse<seq<u64>> {
    if n == 0 then Success(Parsed([], s))
    else
      var head :- ParseUnsigned(s, 8);
      var tail :- ParseWords(head.rest, n - 1);
      Pow256Values();
      Success(Parsed([head.value] + tail.value, tail.rest))
  }

  function PrintWords(words: seq<u64>): (b: seq<byte>)
    ensures |b| == 8 * |words|
  {
    if words == [] then []
    else
      Pow256Values();
      ToBigEndian(words[0], 8) + PrintWords(words[1..])
  }

  function ParseBitSet(s: seq<byte>, limits: BitSetLimits): Parse<BitSet> {
    var count :- ParseLength(s, BitSetLength);
    if count.value > limits.MaxEncodedWords() then Failure(BitSetTooManyWords)
    else
      var words :- ParseWords(count.rest, count.value);
      var _ :- ValidateWords(words.value, limits);
      Success(Parsed(StripZeros(words.value), words.rest))
  }

  function PrintBitSet(value: BitSet, limits: BitSetLimits): Print {
    var _ :- ValidateWords(value, limits);
    var count :- PrintLength(|value|);
    Success(count + PrintWords(value))
  }

  lemma {:induction false} WordsRoundTrip(words: seq<u64>, t: seq<byte>)
    ensures ParseWords(PrintWords(words) + t, |words|) == Success(Parsed(words, t))
  {
    if words == [] {
      assert PrintWords(words) + t == t;
    } else {
      Pow256Values();
      var rest := PrintWords(words[1..]);
      assert PrintWords(words) + t == ToBigEndian(words[0], 8) + (rest + t);
      UnsignedRoundTrip(words[0], 8, rest + t);
      WordsRoundTrip(words[1..], t);
      assert words == [words[0]] + words[1..];
    }
  }

  lemma BitSetRoundTrip(value: BitSet, limits: BitSetLimits, t: seq<byte>)
    requires PrintBitSet(value, limits).Success?
    ensures ParseBitSet(PrintBitSet(value, limits).value + t, limits) == Success(Parsed(value, t))
  {
    var words := PrintWords(value);
    assert PrintBitSet(value, limits).value + t == PrintVarInt(|value|) + (words + t);
    LengthRoundTrip(|value|, BitSetLength, words + t);
    WordsRoundTrip(value, t);
  }

  lemma {:induction false} ParseWordsLength(s: seq<byte>, n: nat)
    requires ParseWords(s, n).Success?
    ensures |ParseWords(s, n).value.value| == n
    ensures |s| - |ParseWords(s, n).value.rest| == 8 * n
  {
    if n > 0 { ParseWordsLength(ParseUnsigned(s, 8).value.rest, n - 1); }
  }

  lemma {:induction false} StripZerosKeepsHighest(words: seq<u64>)
    ensures HighestSetBit(StripZeros(words)) == HighestSetBit(words)
  {
    if words != [] && words[|words| - 1] == 0 { StripZerosKeepsHighest(words[..|words| - 1]); }
  }

  lemma BitSetShortens(s: seq<byte>, limits: BitSetLimits)
    requires ParseBitSet(s, limits).Success?
    ensures var p := ParseBitSet(s, limits).value;
      && PrintBitSet(p.value, limits).Success?
      && |PrintBitSet(p.value, limits).value| <= |s| - |p.rest|
  {
    var count := ParseLength(s, BitSetLength).value;
    var words := ParseWords(count.rest, count.value).value;
    ParseWordsLength(count.rest, count.value);
    LengthShortens(s, BitSetLength);
    StrippedPrints(words.value, limits);
  }

  /** Words without their trailing zeros print if they did, and no longer. */
  lemma StrippedPrints(words: seq<u64>, limits: BitSetLimits)
    requires |words| <= I32_MAX && ValidateWords(words, limits).Success? && |words| <= limits.MaxEncodedWords()
    ensures PrintBitSet(StripZeros(words), limits).Success?
    ensures |PrintBitSet(StripZeros(words), limits).value| <= |PrintVarInt(|words|)| + 8 * |words|
  {
    StripZerosKeepsHighest(words);
    PrintedBitSet(StripZeros(words), limits);
    PrintVarIntMonotone(|StripZeros(words)|, |words|);
  }

  lemma PrintedBitSet(value: BitSet, limits: BitSetLimits)
    requires |value| <= I32_MAX && ValidateWords(value, limits).Success?
    ensures PrintBitSet(value, limits).Success?
    ensures |PrintBitSet(value, limits).value| == |PrintVarInt(|value|)| + 8 * |value|
  {
  }

  lemma PrintVarIntMonotone(m: nat, n: nat)
    requires m <= n <= I32_MAX
    ensures |PrintVarInt(m)| <= |PrintVarInt(n)|
  {
    WriteVarMonotone(m, n);
  }

  lemma {:induction false} WriteVarMonotone(m: nat, n: nat)
    requires m <= n
    ensures |WriteVar(m)| <= |WriteVar(n)|
  {
    if m >= 128 { WriteVarMonotone(m / 128, n / 128); }
  }
}
