/**
  The cursor reader and the appending writer (reader.rs, writer.rs, varint.rs, bitset.rs), each
  operation proved against the function of module Codec that says what it reads or prints.
 */
module CodecIO {
  import opened Wrappers
  import opened Bytes
  import opened VarInts
  import opened Text
  import opened Codec

  /** `r` is the outcome the function `spec` prescribes, with `rest` left unread on success. */
  ghost predicate Reads<T>(spec: Parse<T>, r: Result<T, CodecError>, rest: seq<byte>) {
    match spec
    case Success(p) => r == Success(p.value) && rest == p.rest
    case Failure(e) => r == Failure(e)
  }

  /** One step of the accumulating loop: `result | group << 7 * index`, cut to the word. */
  function Accumulate(result: nat, b: byte, index: nat, modulus: nat): nat
    requires modulus == TWO32 || modulus == TWO64
  {
    (result + (b % 128) * Pow128(index)) % modulus
  }

  /** What the loop has established after `index` continuation bytes of `s`. */
  ghost predicate Collected(s: seq<byte>, groups: nat, index: nat, low: nat) {
    && index <= groups && index <= |s|
    && ReadVar(s, groups) == Shifted(low, index, ReadVar(s[index..], groups - index))
  }

  lemma CollectStart(s: seq<byte>, groups: nat)
    ensures Collected(s, groups, 0, 0)
  {
    assert s[0..] == s;
  }

  ghost function Advance(low: nat, b: byte, index: nat): nat {
    low + (b % 128) * Pow128(index)
  }

  lemma AccumulateStep(result: nat, low: nat, b: byte, index: nat, modulus: nat)
    requires (modulus == TWO32 || modulus == TWO64) && result == low % modulus
    ensures Accumulate(result, b, index, modulus) == Advance(low, b, index) % modulus
  {
    assert modulus > 0;
  }

  lemma CollectStep(s: seq<byte>, groups: nat, index: nat, low: nat)
    requires Collected(s, groups, index, low) && index < groups && index < |s|
    ensures s[index] < 128 ==> ReadVar(s, groups) == Complete(Advance(low, s[index], index), index + 1)
    ensures s[index] >= 128 ==> Collected(s, groups, index + 1, Advance(low, s[index], index))
  {
    var here := s[index..];
    assert here[1..] == s[index + 1..];
    var b := s[index];
    if b >= 128 {
      assert b % 128 == b - 128;
      ShiftedStep(low, index, here, groups - index);
    } else {
      assert b % 128 == b;
      ShiftedLast(low, index, here, groups - index);
    }
  }

  /** `spec` is what comes of `done` followed by what `rest` still reads. */
  ghost predicate Continues(spec: Parse<seq<u64>>, done: seq<u64>, rest: Parse<seq<u64>>) {
    match rest
    case Success(p) => spec == Success(Parsed(done + p.value, p.rest))
    case Failure(e) => spec == Failure(e)
  }

  class CodecReader {
    const input: seq<byte>
    var position: nat

    ghost predicate Valid()
      reads this
    {
      position <= |input|
    }

    ghost function Unread(): (s: seq<byte>)
      requires Valid()
      reads this
    {
      input[position..]
    }

    constructor (bytes: seq<byte>)
      ensures Valid() && Unread() == bytes
    {
      input := bytes;
      position := 0;
    }

    method Remaining() returns (n: nat)
      requires Valid()
      ensures n == |Unread()|
    {
      n := |input| - position;
    }

    method ReadRemaining() returns (bytes: seq<byte>)
      requires Valid()
      modifies this
      ensures Valid() && Unread() == []
      ensures bytes == old(Unread())
    {
      bytes := input[position..];
      position := |input|;
    }

    method ReadBytes(length: nat) returns (r: Result<seq<byte>, CodecError>)
      requires Valid()
      modifies this
      ensures Valid() && Reads(ParseBytes(old(Unread()), length), r, Unread())
      ensures r.Failure? ==> Unread() == old(Unread())
    {
      var end := position + length;
      if end > |input| {
        return Failure(UnexpectedEnd);
      }
      assert Unread()[..length] == input[position..end] && Unread()[length..] == input[end..];
      r := Success(input[position..end]);
      position := end;
    }

    method ReadU8() returns (r: Result<byte, CodecError>)
      requires Valid()
      modifies this
      ensures Valid()
      ensures old(Unread()) == [] ==> r == Failure(UnexpectedEnd)
      ensures old(Unread()) != [] ==> r == Success(old(Unread())[0]) && Unread() == old(Unread())[1..]
    {
      var bytes :- ReadBytes(1);
      return Success(bytes[0]);
    }

    method ReadUnsigned(width: nat) returns (r: Result<nat, CodecError>)
      requires Valid()
      modifies this
      ensures Valid() && Reads(ParseUnsigned(old(Unread()), width), r, Unread())
    {
      var bytes :- ReadBytes(width);
      return Success(FromBigEndian(bytes));
    }

    method ReadBool() returns (r: Result<bool, CodecError>)
      requires Valid()
      modifies this
      ensures Valid() && Reads(ParseBool(old(Unread())), r, Unread())
    {
      var b :- ReadU8();
      return Success(b != 0);
    }

    /**
      The loop of `read_var_int` and `read_var_long`. The bits or-ed in at each step lie above the
      bits already collected, so the union is a sum; bits beyond the word are lost.
     */
    method ReadGroups(groups: nat, modulus: nat) returns (r: VarRead)
      requires Valid() && (modulus == TWO32 || modulus == TWO64)
      modifies this
      ensures Valid()
      ensures var spec := ReadVar(old(Unread()), groups);
        match spec
        case Complete(v, k) => r == Complete(v % modulus, k) && Unread() == old(Unread())[k..]
        case other => r == other
    {
      ghost var s := Unread();
      ghost var low: nat := 0;
      var result: nat := 0;
      var index := 0;
      assert Collected(s, groups, 0, 0) by { CollectStart(s, groups); }
      while index < groups
        invariant Valid() && Collected(s, groups, index, low) && Unread() == s[index..]
        invariant result == low % modulus
      {
        var b := ReadU8();
        if b.Failure? {
          return NeedMore;
        }
        CollectStep(s, groups, index, low);
        AccumulateStep(result, low, b.value, index, modulus);
        result := Accumulate(result, b.value, index, modulus);
        low := Advance(low, b.value, index);
        index := index + 1;
        if b.value < 128 {
          return Complete(result, index);
        }
      }
      return Malformed;
    }

    method ReadVarInt() returns (r: Result<i32, CodecError>)
      requires Valid()
      modifies this
      ensures Valid() && Reads(ParseVarInt(old(Unread())), r, Unread())
    {
      var groups := ReadGroups(5, TWO32);
      match groups
      case Complete(v, _) => r := Success(I32(v));
      case NeedMore => r := Failure(UnexpectedEnd);
      case Malformed => r := Failure(MalformedVarInt);
    }

    method ReadVarLong() returns (r: Result<i64, CodecError>)
      requires Valid()
      modifies this
      ensures Valid() && Reads(ParseVarLong(old(Unread())), r, Unread())
    {
      var groups := ReadGroups(10, TWO64);
      match groups
      case Complete(v, _) => r := Success(I64(v));
      case NeedMore => r := Failure(UnexpectedEnd);
      case Malformed => r := Failure(MalformedVarLong);
    }

    method ReadLength(kind: LengthKind) returns (r: Result<nat, CodecError>)
      requires Valid()
      modifies this
      ensures Valid() && Reads(ParseLength(old(Unread()), kind), r, Unread())
    {
      var value := ReadVarInt();
      if value.Failure? {
        return Failure(if value.error == MalformedVarInt then MalformedLengthPrefix(kind) else value.error);
      }
      if value.value < 0 {
        return Failure(NegativeLength(kind));
      }
      return Success(value.value);
    }

    method ReadString(limits: StringLimits) returns (r: Result<Utf8, CodecError>)
      requires Valid()
      modifies this
      ensures Valid() && Reads(ParseString(old(Unread()), limits), r, Unread())
    {
      var length :- ReadLength(StringLength);
      if length > limits.MaxEncodedBytes() {
        return Failure(EncodedStringTooLong);
      }
      var bytes :- ReadBytes(length);
      if !IsUtf8(bytes) {
        return Failure(InvalidUtf8);
      }
      if Utf16Units(bytes) > limits.maxUtf16Units {
        return Failure(StringTooLong);
      }
      return Success(bytes);
    }

    method ReadByteArray(maxLength: nat) returns (r: Result<seq<byte>, CodecError>)
      requires Valid()
      modifies this
      ensures Valid() && Reads(ParseByteArray(old(Unread()), maxLength), r, Unread())
    {
      var length :- ReadLength(ByteArrayLength);
      if length > maxLength {
        return Failure(ByteArrayTooLong);
      }
      r := ReadBytes(length);
    }

    method ReadBlockPosition() returns (r: Result<BlockPosition, CodecError>)
      requires Valid()
      modifies this
      ensures Valid() && Reads(ParsePosition(old(Unread())), r, Unread())
    {
      var packed :- ReadUnsigned(8);
      Pow256Values();
      return Success(FromPacked(packed));
    }

    method ReadBitSet(limits: BitSetLimits) returns (r: Result<BitSet, CodecError>)
      requires Valid()
      modifies this
      ensures Valid() && Reads(ParseBitSet(old(Unread()), limits), r, Unread())
    {
      var count :- ReadLength(BitSetLength);
      if count > limits.MaxEncodedWords() {
        return Failure(BitSetTooManyWords);
      }
      var words :- ReadWords(count);
      var _ :- ValidateWords(words, limits);
      ghost var all := words;
      while words != [] && words[|words| - 1] == 0
        invariant StripZeros(words) == StripZeros(all)
      {
        words := words[..|words| - 1];
      }
      return Success(words);
    }

    /** The loop of `BitSet::decode`. */
    method ReadWords(count: nat) returns (r: Result<seq<u64>, CodecError>)
      requires Valid()
      modifies this
      ensures Valid() && Reads(ParseWords(old(Unread()), count), r, Unread())
    {
      ghost var spec := ParseWords(Unread(), count);
      var words: seq<u64> := [];
      assert spec.Success? ==> [] + spec.value.value == spec.value.value;
      for i := 0 to count
        invariant Valid()
        invariant Continues(spec, words, ParseWords(Unread(), count - i))
      {
        var word :- ReadUnsigned(8);
        Pow256Values();
        assert forall tail: seq<u64> :: words + ([word] + tail) == (words + [word]) + tail;
        words := words + [word];
      }
      assert words + [] == words;
      return Success(words);
    }
  }

  /** `r` and what was appended to `before` are as the function `spec` prescribes. */
  ghost predicate Writes(spec: Print, r: Result<(), CodecError>, before: seq<byte>, after: seq<byte>) {
    match spec
    case Success(bytes) => r == Success(()) && after == before + bytes
    case Failure(e) => r == Failure(e)
  }

  lemma NextWord(output: seq<byte>, words: seq<u64>, i: nat)
    requires i < |words| && words[i] < Pow256(8)
    ensures output + PrintWords(words[i..]) == (output + ToBigEndian(words[i], 8)) + PrintWords(words[i + 1..])
  {
    assert words[i..][1..] == words[i + 1..];
  }

  class CodecWriter {
    var output: seq<byte>

    constructor ()
      ensures output == []
    {
      output := [];
    }

    method WriteBytes(bytes: seq<byte>)
      modifies this
      ensures output == old(output) + bytes
    {
      output := output + bytes;
    }

    method WriteUnsigned(value: nat, width: nat)
      requires value < Pow256(width)
      modifies this
      ensures output == old(output) + ToBigEndian(value, width)
    {
      output := output + ToBigEndian(value, width);
    }

    method WriteBool(value: bool)
      modifies this
      ensures output == old(output) + PrintBool(value)
    {
      output := output + [if value then 1 else 0];
    }

    /** The loop of `write_var_int` and `write_var_long`. */
    method WriteGroups(value: nat)
      modifies this
      ensures output == old(output) + WriteVar(value)
    {
      var remaining := value;
      while remaining >= 128
        invariant output + WriteVar(remaining) == old(output) + WriteVar(value)
      {
        assert output + WriteVar(remaining) == (output + [remaining % 128 + 128]) + WriteVar(remaining / 128);
        output := output + [remaining % 128 + 128];
        remaining := remaining / 128;
      }
      output := output + [remaining];
    }

    method WriteVarInt(value: i32)
      modifies this
      ensures output == old(output) + PrintVarInt(value)
    {
      WriteGroups(U32(value));
    }

    method WriteVarLong(value: i64)
      modifies this
      ensures output == old(output) + PrintVarLong(value)
    {
      WriteGroups(U64(value));
    }

    method WriteLength(length: nat) returns (r: Result<(), CodecError>)
      modifies this
      ensures Writes(PrintLength(length), r, old(output), output)
      ensures r.Failure? ==> output == old(output)
    {
      if length > I32_MAX {
        return Failure(ValueOutOfRange);
      }
      WriteVarInt(length);
      return Success(());
    }

    method WriteString(value: Utf8, limits: StringLimits) returns (r: Result<(), CodecError>)
      modifies this
      ensures Writes(PrintString(value, limits), r, old(output), output)
      ensures r.Failure? ==> output == old(output)
    {
      if Utf16Units(value) > limits.maxUtf16Units {
        return Failure(StringTooLong);
      }
      if |value| > limits.MaxEncodedBytes() {
        return Failure(EncodedStringTooLong);
      }
      var _ :- WriteLength(|value|);
      WriteBytes(value);
      return Success(());
    }

    method WriteByteArray(value: seq<byte>, maxLength: nat) returns (r: Result<(), CodecError>)
      modifies this
      ensures Writes(PrintByteArray(value, maxLength), r, old(output), output)
      ensures r.Failure? ==> output == old(output)
    {
      if |value| > maxLength {
        return Failure(ByteArrayTooLong);
      }
      var _ :- WriteLength(|value|);
      WriteBytes(value);
      return Success(());
    }

    method WriteBlockPosition(p: BlockPosition) returns (r: Result<(), CodecError>)
      modifies this
      ensures Writes(PrintPosition(p), r, old(output), output)
      ensures r.Failure? ==> output == old(output)
    {
      if !PositionInRange(p) {
        return Failure(InvalidBlockPosition);
      }
      Pow256Values();
      WriteUnsigned(ToPacked(p), 8);
      return Success(());
    }

    method WriteBitSet(value: BitSet, limits: BitSetLimits) returns (r: Result<(), CodecError>)
      modifies this
      ensures Writes(PrintBitSet(value, limits), r, old(output), output)
      ensures r.Failure? ==> output == old(output)
    {
      var _ :- ValidateWords(value, limits);
      var _ :- WriteLength(|value|);
      ghost var start := output;
      assert start + PrintWords(value) == old(output) + (PrintVarInt(|value|) + PrintWords(value));
      for i := 0 to |value|
        invariant output + PrintWords(value[i..]) == start + PrintWords(value)
      {
        Pow256Values();
        NextWord(output, value, i);
        WriteUnsigned(value[i], 8);
      }
      return Success(());
    }
  }
}
