/**
  The bytes themselves, independently of the functions that print and parse them: what the protocol
  documents as a big-endian word, a VarInt, a length-prefixed string, a packed position and a bit set;
  and that the program prints exactly the canonical form of a value and accepts exactly its forms.
 */
module WireForm {
  import opened Wrappers
  import opened Bytes
  import opened VarInts
  import opened Text
  import opened Codec

  /** The one form in which a value is printed, or any form in which it is accepted. */
  datatype Form = Canonical | Accepted

  /** Digit `k` of a number in base 256, counted from the lowest; of a negative one, in two's complement. */
  function Digit256(v: int, k: nat): (d: byte)
    decreases k
  {
    if k == 0 then v % 256 else Digit256(v / 256, k - 1)
  }

  function Digit128(n: nat, k: nat): (d: nat)
    ensures d < 128
    decreases k
  {
    if k == 0 then n % 128 else Digit128(n / 128, k - 1)
  }

  /** Most significant byte first. */
  predicate IsBigEndian(v: int, b: seq<byte>) {
    forall i :: 0 <= i < |b| ==> b[i] == Digit256(v, |b| - 1 - i)
  }

  /** Seven bits a byte, least significant first, no byte to spare, the high bit set on all but the last. */
  predicate IsVarInt(n: nat, b: seq<byte>) {
    && |b| >= 1 && n < Pow128(|b|) && (|b| > 1 ==> n >= Pow128(|b| - 1))
    && forall i :: 0 <= i < |b| ==> b[i] == Digit128(n, i) + if i < |b| - 1 then 128 else 0
  }

  /** At most so many groups of seven bits, the high bit set on all but the last. */
  predicate IsGroups(b: seq<byte>, most: nat) {
    1 <= |b| <= most && b[|b| - 1] < 128 && forall i :: 0 <= i < |b| - 1 ==> b[i] >= 128
  }

  function GroupSum(b: seq<byte>): nat {
    if b == [] then 0 else b[0] % 128 + 128 * GroupSum(b[1..])
  }

  /** A signed integer stands for its two's complement; bits beyond the word are accepted and ignored. */
  predicate IsInt(value: i32, b: seq<byte>, form: Form) {
    match form
    case Canonical => IsVarInt(value % TWO32, b)
    case Accepted => IsGroups(b, 5) && GroupSum(b) % TWO32 == value % TWO32
  }

  predicate IsLong(value: i64, b: seq<byte>, form: Form) {
    match form
    case Canonical => IsVarInt(value % TWO64, b)
    case Accepted => IsGroups(b, 10) && GroupSum(b) % TWO64 == value % TWO64
  }

  /** A byte that is 1 or 0; any other byte is accepted as true. */
  predicate IsBool(value: bool, b: seq<byte>, form: Form) {
    |b| == 1 && if form.Canonical? then b[0] == if value then 1 else 0 else b[0] != 0 <==> value
  }

  /** The length, then the bytes. */
  predicate IsPrefixed(bytes: seq<byte>, b: seq<byte>, form: Form) {
    var k := |b| - |bytes|;
    k >= 0 && b[k..] == bytes && |bytes| <= I32_MAX && IsInt(|bytes|, b[..k], form)
  }

  predicate IsString(text: Utf8, limits: StringLimits, b: seq<byte>, form: Form) {
    && Utf16Units(text) <= limits.maxUtf16Units
    && |text| <= 3 * limits.maxUtf16Units && |text| <= limits.maxBytes
    && IsPrefixed(text, b, form)
  }

  /** 26 bits of x, 26 bits of z and 12 bits of y, in one word. */
  predicate IsPacked(p: BlockPosition, v: nat) {
    && v / 0x40_0000_0000 == p.x % 0x400_0000
    && v / 0x1000 % 0x400_0000 == p.z % 0x400_0000
    && v % 0x1000 == p.y % 0x1000
  }

  ghost predicate IsPosition(p: BlockPosition, b: seq<byte>) {
    PositionInRange(p) && |b| == 8 && exists v: u64 :: IsPacked(p, v) && IsBigEndian(v, b)
  }

  /** Bit `i` of the set is bit `i % 64` of word `i / 64`. */
  predicate IsSet(words: seq<u64>, i: nat) {
    i / 64 < |words| && BitOf(words[i / 64], i % 64)
  }

  /** Not more words than allowed, nor than the allowed bits take, and no bit beyond those. */
  ghost predicate Allowed(words: seq<u64>, limits: BitSetLimits) {
    && |words| <= limits.maxWords && 64 * |words| < limits.maxBits + 64
    && forall i: nat :: i >= limits.maxBits ==> !IsSet(words, i)
  }

  /** Eight bytes a word. */
  predicate IsWords(words: seq<u64>, b: seq<byte>) {
    && |b| == 8 * |words|
    && forall i :: 0 <= i < |words| ==> IsBigEndian(words[i], b[8 * i..8 * i + 8])
  }

  /** The count, then the words. */
  ghost predicate IsCounted(words: seq<u64>, limits: BitSetLimits, b: seq<byte>, form: Form) {
    var k := |b| - 8 * |words|;
    && Allowed(words, limits)
    && k >= 0 && |words| <= I32_MAX && IsInt(|words|, b[..k], form) && IsWords(words, b[k..])
  }

  /** Followed by nothing but zero words. */
  predicate Padded(words: seq<u64>, all: seq<u64>) {
    words <= all && forall i :: |words| <= i < |all| ==> all[i] == 0
  }

  /** Zero words at the end are accepted and dropped. */
  ghost predicate IsBitSet(words: BitSet, limits: BitSetLimits, b: seq<byte>, form: Form) {
    match form
    case Canonical => IsCounted(words, limits, b, form)
    case Accepted => exists all: seq<u64> :: Padded(words, all) && IsCounted(all, limits, b, form)
  }

  // ---- Parts of a byte string ----

  predicate Suffix(t: seq<byte>, s: seq<byte>) {
    |t| <= |s| && s[|s| - |t|..] == t
  }

  /** What comes before a suffix. */
  function Before(s: seq<byte>, t: seq<byte>): seq<byte>
    requires |t| <= |s|
  {
    s[..|s| - |t|]
  }

  /** Reading a prefix of `n` bytes leaves the rest. */
  lemma Splits(s: seq<byte>, t: seq<byte>, n: nat)
    requires n <= |s|
    ensures s[n..] == t ==> Suffix(t, s) && Before(s, t) == s[..n]
    ensures Suffix(t, s) && |Before(s, t)| == n ==> s[n..] == t
  {
  }

  // ---- Words ----

  /** The digits are those of the quotients by the powers of the base. */
  lemma {:induction false} DigitQuotients(v: int, n: nat, k: nat)
    ensures Digit256(v, k) == v / Pow256(k) % 256
    ensures Digit128(n, k) == n / Pow128(k) % 128
    decreases k
  {
    if k > 0 {
      DigitQuotients(v / 256, n / 128, k - 1);
      DivideTwice(v, 256, Pow256(k - 1));
      DivideTwice(n, 128, Pow128(k - 1));
    }
  }

  lemma DivideTwice(a: int, b: nat, c: nat)
    requires b > 0 && c > 0
    ensures b * c > 0 && a / b / c == a / (b * c)
  {
    var q, r := a / b, a % b;
    var q2, r2 := q / c, q % c;
    MultiplyOrder(b, r2, c - 1);
    MultiplyOrder(b, 0, r2);
    Distribute(b, c - 1);
    assert b * q == b * c * q2 + b * r2 by { assert q == c * q2 + r2; Spread(b, c, q2, r2); }
    MultiplyOrder(c, 1, b);
    QuotientIs(a, b * c, q2, b * r2 + r);
  }

  lemma Spread(b: int, c: int, x: int, y: int)
    ensures b * (c * x + y) == b * c * x + b * y
  {
  }

  /** The word that `to_be_bytes` is given, possibly lifted from a negative number, has the bytes of the number. */
  lemma {:induction false} BigEndianBytes(v: int, bits: nat, width: nat)
    requires bits < Pow256(width) && (bits == v || bits == v + Pow256(width))
    ensures IsBigEndian(v, ToBigEndian(bits, width))
    decreases width
  {
    if width > 0 {
      var b, init := ToBigEndian(bits, width), ToBigEndian(bits / 256, width - 1);
      assert Pow256(width) == 256 * Pow256(width - 1);
      BigEndianBytes(v / 256, bits / 256, width - 1);
      forall i | 0 <= i < width ensures b[i] == Digit256(v, width - 1 - i) {
        if i < width - 1 { assert b[i] == init[i]; }
      }
    }
  }

  lemma {:induction false} WordsBytes(words: seq<u64>)
    ensures IsWords(words, PrintWords(words))
  {
    if words != [] {
      var b, tail := PrintWords(words), PrintWords(words[1..]);
      Pow256Values();
      WordsBytes(words[1..]);
      BigEndianBytes(words[0], words[0], 8);
      forall i | 0 <= i < |words| ensures IsBigEndian(words[i], b[8 * i..8 * i + 8]) {
        if i > 0 {
          assert b[8 * i..8 * i + 8] == tail[8 * (i - 1)..8 * (i - 1) + 8];
        } else {
          assert b[0..8] == ToBigEndian(words[0], 8);
        }
      }
    }
  }

  // ---- VarInts ----

  lemma {:induction false} VarIntBytes(n: nat)
    ensures IsVarInt(n, WriteVar(n))
  {
    var b := WriteVar(n);
    assert Pow128(0) == 1 && Pow128(1) == 128;
    if n >= 128 {
      var tail := WriteVar(n / 128);
      VarIntBytes(n / 128);
      forall i | 0 <= i < |b| ensures b[i] == Digit128(n, i) + if i < |b| - 1 then 128 else 0 {
        if i > 0 { assert b[i] == tail[i - 1]; }
      }
    }
  }

  lemma VarIntForm(n: nat, b: seq<byte>)
    ensures IsVarInt(n, b) <==> b == WriteVar(n)
  {
    VarIntBytes(n);
    if IsVarInt(n, b) {
      WriteVarLength(n, |b|);
      if |b| > 1 { WriteVarLength(n, |b| - 1); }
      assert |b| == |WriteVar(n)|;
    }
  }

  /** Reading takes `k` bytes exactly when those are groups, and gives their sum. */
  lemma {:induction false} GroupsForm(s: seq<byte>, most: nat, k: nat)
    ensures var r := ReadVar(s, most);
      && (r.Complete? && r.bytes == k <==> k <= |s| && IsGroups(s[..k], most))
      && (r.Complete? && r.bytes == k ==> r.value == GroupSum(s[..k]))
  {
    if most > 0 && s != [] && 0 < k <= |s| {
      assert s[..k][0] == s[0];
      if s[0] < 128 {
        if k == 1 { assert s[..1][1..] == []; }
      } else if k > 1 {
        assert s[..k][1..] == s[1..][..k - 1];
        GroupsForm(s[1..], most - 1, k - 1);
        GroupsTail(s[..k], most);
      }
    }
  }

  lemma GroupsTail(b: seq<byte>, most: nat)
    requires |b| > 1 && most > 0
    ensures IsGroups(b, most) <==> b[0] >= 128 && IsGroups(b[1..], most - 1)
  {
    if b[0] >= 128 && IsGroups(b[1..], most - 1) {
      forall i | 0 <= i < |b| - 1 ensures b[i] >= 128 {
        if i > 0 { assert b[i] == b[1..][i - 1]; }
      }
    }
  }

  lemma IntPrinted(value: i32, b: seq<byte>)
    ensures IsInt(value, b, Canonical) <==> b == PrintVarInt(value)
  {
    VarIntForm(value % TWO32, b);
  }

  lemma LongPrinted(value: i64, b: seq<byte>)
    ensures IsLong(value, b, Canonical) <==> b == PrintVarLong(value)
  {
    VarIntForm(value % TWO64, b);
  }

  lemma IntRead(s: seq<byte>, value: i32, t: seq<byte>)
    ensures ParseVarInt(s) == Success(Parsed(value, t))
       <==> Suffix(t, s) && IsInt(value, Before(s, t), Accepted)
  {
    var r := ReadVar(s, 5);
    if r.Complete? {
      GroupsForm(s, 5, r.bytes);
      Splits(s, t, r.bytes);
    }
    if Suffix(t, s) && IsInt(value, Before(s, t), Accepted) {
      GroupsForm(s, 5, |s| - |t|);
    }
  }

  lemma LongRead(s: seq<byte>, value: i64, t: seq<byte>)
    ensures ParseVarLong(s) == Success(Parsed(value, t))
       <==> Suffix(t, s) && IsLong(value, Before(s, t), Accepted)
  {
    var r := ReadVar(s, 10);
    if r.Complete? {
      GroupsForm(s, 10, r.bytes);
      Splits(s, t, r.bytes);
    }
    if Suffix(t, s) && IsLong(value, Before(s, t), Accepted) {
      GroupsForm(s, 10, |s| - |t|);
    }
  }

  // ---- Limits of bit sets and strings ----

  lemma {:induction false} BitLengthBounds(word: nat)
    ensures word > 0 ==> BitOf(word, BitLength(word) - 1)
    ensures forall k: nat :: k >= BitLength(word) ==> !BitOf(word, k)
  {
    if word == 0 {
      forall k: nat ensures !BitOf(0, k) { ZeroHasNoBits(k); }
    } else {
      BitLengthBounds(word / 2);
      if word / 2 == 0 { assert word == 1; }
      forall k: nat | k >= BitLength(word) ensures !BitOf(word, k) { assert !BitOf(word / 2, k - 1); }
    }
  }

  lemma {:induction false} BitLengthOfWord(word: nat, width: nat)
    requires word < Pow2(width)
    ensures BitLength(word) <= width
  {
    if word > 0 { BitLengthOfWord(word / 2, width - 1); }
  }

  /** The highest set bit is set, and none above it. */
  lemma {:induction false} HighestIsHighest(words: seq<u64>)
    ensures match HighestSetBit(words)
            case None => forall i: nat :: !IsSet(words, i)
            case Some(h) => IsSet(words, h) && forall i: nat :: i > h ==> !IsSet(words, i)
  {
    if words != [] {
      var top := |words| - 1;
      var word := words[top];
      BitLengthBounds(word);
      assert Pow2(64) == TWO64 by { PowerOf64(); }
      BitLengthOfWord(word, 64);
      if word == 0 {
        HighestIsHighest(words[..top]);
        forall i: nat ensures IsSet(words, i) <==> IsSet(words[..top], i) { }
      } else {
        var h := 64 * top + BitLength(word) - 1;
        assert h / 64 == top && h % 64 == BitLength(word) - 1;
        forall i: nat | i > h ensures !IsSet(words, i) {
          if i / 64 == top { assert i % 64 >= BitLength(word); }
        }
      }
    }
  }

  lemma PowerOf64()
    ensures Pow2(64) == TWO64
  {
    assert Pow2(8) == 256 by { assert Pow2(4) == 16; }
    assert Pow2(16) == 0x1_0000 by { assert Pow2(12) == 0x1000; }
    assert Pow2(24) == 0x100_0000 by { assert Pow2(20) == 0x10_0000; }
    assert Pow2(32) == TWO32 by { assert Pow2(28) == 0x1000_0000; }
    assert Pow2(40) == 0x100_0000_0000 by { assert Pow2(36) == 0x10_0000_0000; }
    assert Pow2(48) == 0x1_0000_0000_0000 by { assert Pow2(44) == 0x1000_0000_0000; }
    assert Pow2(56) == 0x100_0000_0000_0000 by { assert Pow2(52) == 0x10_0000_0000_0000; }
    assert Pow2(60) == 0x1000_0000_0000_0000;
  }

  /** Words are refused exactly when there are too many, or a bit at or beyond the limit is set. */
  lemma RefusedWords(words: seq<u64>, limits: BitSetLimits)
    ensures ValidateWords(words, limits).Success?
       <==> Allowed(words, limits)
  {
    HighestIsHighest(words);
  }

  // ---- What is printed and what is read ----

  lemma BigEndianForm(v: int, bits: nat, b: seq<byte>)
    requires bits < Pow256(|b|) && (bits == v || bits == v + Pow256(|b|))
    ensures IsBigEndian(v, b) <==> b == ToBigEndian(bits, |b|)
    ensures IsBigEndian(v, b) <==> FromBigEndian(b) == bits
  {
    var printed := ToBigEndian(bits, |b|);
    BigEndianBytes(v, bits, |b|);
    if IsBigEndian(v, b) {
      forall i | 0 <= i < |b| ensures b[i] == printed[i] { }
    }
    assert IsBigEndian(v, b) <==> b == printed;
    BigEndianRoundTrip(bits, |b|);
    BigEndianOnto(b);
  }

  lemma BoolRead(s: seq<byte>, value: bool, t: seq<byte>)
    ensures ParseBool(s) == Success(Parsed(value, t)) <==> Suffix(t, s) && IsBool(value, Before(s, t), Accepted)
  {
    if |s| > 0 { Splits(s, t, 1); }
  }

  lemma LengthRead(s: seq<byte>, kind: LengthKind, n: nat, t: seq<byte>)
    ensures ParseLength(s, kind) == Success(Parsed(n, t))
       <==> Suffix(t, s) && n <= I32_MAX && IsInt(n, Before(s, t), Accepted)
  {
    if n <= I32_MAX { IntRead(s, n, t); }
  }

  lemma PrefixedPrinted(bytes: seq<byte>, b: seq<byte>)
    requires |bytes| <= I32_MAX
    ensures IsPrefixed(bytes, b, Canonical) <==> b == PrintVarInt(|bytes|) + bytes
  {
    var prefix, k := PrintVarInt(|bytes|), |b| - |bytes|;
    if k >= 0 { IntPrinted(|bytes|, b[..k]); }
    if b == prefix + bytes {
      assert k == |prefix| && b[..k] == prefix && b[k..] == bytes;
    }
    if IsPrefixed(bytes, b, Canonical) { assert b == b[..k] + b[k..]; }
  }

  /** Reading a length and then so many bytes takes exactly an accepted prefixed form. */
  lemma PrefixedRead(s: seq<byte>, kind: LengthKind, bytes: seq<byte>, t: seq<byte>)
    ensures (exists r :: ParseLength(s, kind) == Success(Parsed(|bytes|, r))
                         && ParseBytes(r, |bytes|) == Success(Parsed(bytes, t)))
       <==> Suffix(t, s) && IsPrefixed(bytes, Before(s, t), Accepted)
  {
    if r :| ParseLength(s, kind) == Success(Parsed(|bytes|, r)) && ParseBytes(r, |bytes|) == Success(Parsed(bytes, t)) {
      LengthRead(s, kind, |bytes|, r);
      PrefixedParts(s, bytes, t, r);
    }
    if Suffix(t, s) && IsPrefixed(bytes, Before(s, t), Accepted) {
      var k := |Before(s, t)| - |bytes|;
      RestOf(s, t, k);
      LengthRead(s, kind, |bytes|, s[k..]);
      assert s[k..][..|bytes|] == bytes && s[k..][|bytes|..] == t;
    }
  }

  /** What is left after a part of what comes before `t`. */
  lemma RestOf(s: seq<byte>, t: seq<byte>, k: nat)
    requires Suffix(t, s) && k <= |Before(s, t)|
    ensures Suffix(s[k..], s) && Before(s, s[k..]) == Before(s, t)[..k]
    ensures s[k..] == Before(s, t)[k..] + t
  {
  }

  lemma PrefixedParts(s: seq<byte>, bytes: seq<byte>, t: seq<byte>, r: seq<byte>)
    requires Suffix(r, s) && |bytes| <= |r| && r[..|bytes|] == bytes && r[|bytes|..] == t
    ensures Suffix(t, s) && |Before(s, t)| >= |bytes|
    ensures var b := Before(s, t); b[|b| - |bytes|..] == bytes && b[..|b| - |bytes|] == Before(s, r)
  {
    assert s == Before(s, r) + (bytes + t);
  }

  lemma StringPrinted(text: Utf8, limits: StringLimits, b: seq<byte>)
    ensures PrintString(text, limits) == Success(b) <==> IsString(text, limits, b, Canonical)
  {
    if |text| <= I32_MAX { PrefixedPrinted(text, b); }
  }

  lemma StringRead(s: seq<byte>, limits: StringLimits, text: Utf8, t: seq<byte>)
    ensures ParseString(s, limits) == Success(Parsed(text, t))
       <==> Suffix(t, s) && IsString(text, limits, Before(s, t), Accepted)
  {
    PrefixedRead(s, StringLength, text, t);
    if ParseString(s, limits) == Success(Parsed(text, t)) {
      var p := ParseLength(s, StringLength).value;
      assert |text| == p.value && ParseBytes(p.rest, |text|) == Success(Parsed(text, t));
      assert ParseLength(s, StringLength) == Success(Parsed(|text|, p.rest));
    }
  }

  lemma ByteArrayPrinted(bytes: seq<byte>, max: nat, b: seq<byte>)
    ensures PrintByteArray(bytes, max) == Success(b) <==> |bytes| <= max && IsPrefixed(bytes, b, Canonical)
  {
    if |bytes| <= I32_MAX { PrefixedPrinted(bytes, b); }
  }

  lemma ByteArrayRead(s: seq<byte>, max: nat, bytes: seq<byte>, t: seq<byte>)
    ensures ParseByteArray(s, max) == Success(Parsed(bytes, t))
       <==> Suffix(t, s) && |bytes| <= max && IsPrefixed(bytes, Before(s, t), Accepted)
  {
    PrefixedRead(s, ByteArrayLength, bytes, t);
    if ParseByteArray(s, max) == Success(Parsed(bytes, t)) {
      var p := ParseLength(s, ByteArrayLength).value;
      assert ParseLength(s, ByteArrayLength) == Success(Parsed(|bytes|, p.rest));
    }
  }

  lemma PackedFields(p: BlockPosition)
    ensures IsPacked(p, ToPacked(p))
  {
    var v, x, z, y := ToPacked(p), p.x % 0x400_0000, p.z % 0x400_0000, p.y % 0x1000;
    assert v == x * 0x40_0000_0000 + (z * 0x1000 + y) && z * 0x1000 + y < 0x40_0000_0000;
    assert v == (x * 0x400_0000 + z) * 0x1000 + y;
    assert v / 0x1000 == x * 0x400_0000 + z;
  }

  lemma PackedOnce(p: BlockPosition, v: u64)
    requires PositionInRange(p)
    ensures IsPacked(p, v) <==> v == ToPacked(p)
    ensures IsPacked(p, v) <==> FromPacked(v) == p
  {
    PackedFields(p);
    PackRoundTrip(p);
    if IsPacked(p, v) {
      assert v / 0x1000 / 0x400_0000 == v / 0x40_0000_0000;
      assert v == (v / 0x1000) * 0x1000 + v % 0x1000;
    }
    PackOnto(v);
  }

  lemma PositionForm(p: BlockPosition, b: seq<byte>)
    requires PositionInRange(p) && |b| == 8
    ensures IsPosition(p, b) <==> FromBigEndian(b) == ToPacked(p)
    ensures IsPosition(p, b) <==> b == ToBigEndian(ToPacked(p), 8)
  {
    Pow256Values();
    PackedOnce(p, ToPacked(p));
    BigEndianForm(ToPacked(p), ToPacked(p), b);
    if IsPosition(p, b) {
      var v: u64 :| IsPacked(p, v) && IsBigEndian(v, b);
      PackedOnce(p, v);
    }
  }

  lemma PositionPrinted(p: BlockPosition, b: seq<byte>)
    ensures PrintPosition(p) == Success(b) <==> IsPosition(p, b)
  {
    Pow256Values();
    if PositionInRange(p) && |b| == 8 { PositionForm(p, b); }
  }

  lemma PositionRead(s: seq<byte>, p: BlockPosition, t: seq<byte>)
    ensures ParsePosition(s) == Success(Parsed(p, t)) <==> Suffix(t, s) && IsPosition(p, Before(s, t))
  {
    Pow256Values();
    if |s| >= 8 {
      var v := FromBigEndian(s[..8]);
      Splits(s, t, 8);
      PackOnto(v);
      if PositionInRange(p) {
        PackedOnce(p, v);
        PositionForm(p, s[..8]);
      }
    }
  }

  lemma {:induction false} WordsForm(words: seq<u64>, b: seq<byte>)
    requires |b| == 8 * |words|
    ensures IsWords(words, b) <==> b == PrintWords(words)
  {
    WordsBytes(words);
    if IsWords(words, b) {
      var printed := PrintWords(words);
      forall i | 0 <= i < |b| ensures b[i] == printed[i] {
        var k, d := i / 8, i % 8;
        assert IsBigEndian(words[k], b[8 * k..8 * k + 8]) && IsBigEndian(words[k], printed[8 * k..8 * k + 8]);
        assert b[8 * k..8 * k + 8][d] == b[i] && printed[8 * k..8 * k + 8][d] == printed[i];
      }
    }
  }

  lemma {:induction false} ParseWordsOnto(s: seq<byte>, n: nat)
    requires ParseWords(s, n).Success?
    ensures var p := ParseWords(s, n).value; |p.value| == n && s == PrintWords(p.value) + p.rest
  {
    if n > 0 {
      var p := ParseWords(s, n).value;
      ParseWordsOnto(s[8..], n - 1);
      BigEndianOnto(s[..8]);
      assert p.value[1..] == ParseWords(s[8..], n - 1).value.value;
      assert s == s[..8] + s[8..];
    }
  }

  lemma CountedPrinted(words: BitSet, limits: BitSetLimits, b: seq<byte>)
    ensures PrintBitSet(words, limits) == Success(b) <==> IsCounted(words, limits, b, Canonical)
  {
    RefusedWords(words, limits);
    var prefix, k := PrintVarInt(if |words| <= I32_MAX then |words| else 0), |b| - 8 * |words|;
    if k >= 0 && |words| <= I32_MAX {
      IntPrinted(|words|, b[..k]);
      WordsForm(words, b[k..]);
      if b == prefix + PrintWords(words) {
        assert k == |prefix| && b[..k] == prefix && b[k..] == PrintWords(words);
      }
      if b[..k] == prefix && b[k..] == PrintWords(words) { assert b == b[..k] + b[k..]; }
    }
  }

  lemma {:induction false} StripsPadding(all: seq<u64>, words: BitSet)
    ensures StripZeros(all) == words <==> Padded(words, all)
  {
    if all != [] {
      var top := |all| - 1;
      if all[top] == 0 {
        StripsPadding(all[..top], words);
        if Padded(words, all) {
          assert |words| <= top;
          assert words <= all[..top] && forall i :: |words| <= i < top ==> all[..top][i] == all[i];
        }
      } else if Padded(words, all) {
        assert |words| == |all|;
      }
    }
  }

  lemma BitSetRead(s: seq<byte>, limits: BitSetLimits, words: BitSet, t: seq<byte>)
    ensures ParseBitSet(s, limits) == Success(Parsed(words, t))
       <==> Suffix(t, s) && IsBitSet(words, limits, Before(s, t), Accepted)
  {
    if ParseBitSet(s, limits) == Success(Parsed(words, t)) { BitSetParsed(s, limits, words, t); }
    if Suffix(t, s) && IsBitSet(words, limits, Before(s, t), Accepted) {
      var all: seq<u64> :| Padded(words, all) && IsCounted(all, limits, Before(s, t), Accepted);
      CountedParses(s, limits, all, t);
      StripsPadding(all, words);
    }
  }

  lemma BitSetParsed(s: seq<byte>, limits: BitSetLimits, words: BitSet, t: seq<byte>)
    requires ParseBitSet(s, limits) == Success(Parsed(words, t))
    ensures Suffix(t, s) && IsBitSet(words, limits, Before(s, t), Accepted)
  {
    var count := ParseLength(s, BitSetLength).value;
    var all := ParseWords(count.rest, count.value).value.value;
    LengthRead(s, BitSetLength, count.value, count.rest);
    ParseWordsOnto(count.rest, count.value);
    PrefixedParts(s, PrintWords(all), t, count.rest);
    WordsForm(all, PrintWords(all));
    RefusedWords(all, limits);
    StripsPadding(all, words);
    assert IsCounted(all, limits, Before(s, t), Accepted);
  }

  lemma CountedParses(s: seq<byte>, limits: BitSetLimits, all: seq<u64>, t: seq<byte>)
    requires Suffix(t, s) && IsCounted(all, limits, Before(s, t), Accepted)
    ensures ParseBitSet(s, limits) == Success(Parsed(StripZeros(all), t))
  {
    var k := |Before(s, t)| - 8 * |all|;
    RestOf(s, t, k);
    LengthRead(s, BitSetLength, |all|, s[k..]);
    WordsForm(all, Before(s, t)[k..]);
    WordsRoundTrip(all, t);
    RefusedWords(all, limits);
  }
}
