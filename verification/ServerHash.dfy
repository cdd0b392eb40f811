/** The signed hexadecimal text of a digest (online_crypto.rs). */
module ServerHash {
  import opened Bytes
  import opened WireForm

  /** The value of a big-endian two's-complement number of any length. */
  function TwosComplement(s: seq<byte>): int {
    if s != [] && s[0] >= 0x80 then FromBigEndian(s) - Pow256(|s|) else FromBigEndian(s)
  }

  lemma {:induction false} TopBit(s: seq<byte>)
    requires s != []
    ensures s[0] >= 0x80 <==> 2 * FromBigEndian(s) >= Pow256(|s|)
  {
    var init, last := s[..|s| - 1], s[|s| - 1];
    if init == [] {
      assert FromBigEndian(s) == last && Pow256(1) == 256;
    } else {
      var half := 128 * Pow256(|init| - 1);
      TopBit(init);
      assert Pow256(|init|) == 2 * half && Pow256(|s|) == 512 * half;
      assert FromBigEndian(s) == 256 * FromBigEndian(init) + last;
      StillHalf(FromBigEndian(init), half, last);
    }
  }

  lemma StillHalf(v: nat, half: nat, last: byte)
    ensures v >= half <==> 256 * v + last >= 256 * half
  {
  }

  /** The value is the one number of so many bits, with sign, that has these bytes as its digits. */
  lemma TwosComplementForm(s: seq<byte>, v: int)
    ensures v == TwosComplement(s) <==> 0 <= 2 * v + Pow256(|s|) && 2 * v < Pow256(|s|) && IsBigEndian(v, s)
  {
    if s != [] { TopBit(s); }
    if 0 <= 2 * v + Pow256(|s|) && 2 * v < Pow256(|s|) { BigEndianForm(v, Wrap(v, |s|), s); }
  }

  function HexDigit(d: nat): char
    requires d < 16
  {
    "0123456789abcdef"[d]
  }

  /** The shortest hexadecimal text of a natural number. */
  function Digits(n: nat): (text: string)
    ensures text != []
  {
    if n < 16 then [HexDigit(n)] else Digits(n / 16) + [HexDigit(n % 16)]
  }

  /** The text Java's `BigInteger.toString(16)` gives. */
  function SignedHex(value: int): string {
    if value < 0 then "-" + Digits(-value) else Digits(value)
  }

  function DigitValue(c: char): (d: nat)
    ensures d < 16
  {
    if '0' <= c <= '9' then c as int - '0' as int
    else if 'a' <= c <= 'f' then c as int - 'a' as int + 10
    else 0
  }

  function ParseDigits(text: string): nat {
    if text == [] then 0 else 16 * ParseDigits(text[..|text| - 1]) + DigitValue(text[|text| - 1])
  }

  function ParseSignedHex(text: string): int {
    if text != [] && text[0] == '-' then 0 - ParseDigits(text[1..]) else ParseDigits(text)
  }

  /** Digits read back as the number, and only the number 0 starts with the digit 0. */
  lemma {:induction false} DigitsRead(n: nat)
    ensures ParseDigits(Digits(n)) == n
    ensures Digits(n)[0] == '0' <==> n == 0
    ensures Digits(n)[0] != '-'
  {
    if n >= 16 {
      var text := Digits(n);
      assert text[..|text| - 1] == Digits(n / 16);
      DigitsRead(n / 16);
    } else {
      assert Digits(n)[..0] == [];
    }
  }

  /** Signed text reads back as the value; it is negative exactly when it starts with `-`. */
  lemma SignedHexReads(value: int)
    ensures ParseSignedHex(SignedHex(value)) == value
    ensures SignedHex(value)[0] == '-' <==> value < 0
    ensures value > 0 ==> SignedHex(value)[0] != '0'
    ensures value < 0 ==> SignedHex(value)[1] != '0'
  {
    var text := Digits(if value < 0 then -value else value);
    DigitsRead(if value < 0 then -value else value);
    if value < 0 {
      assert ("-" + text)[0] == '-' && ("-" + text)[1..] == text && ("-" + text)[1] == text[0];
    }
  }

  // ---- Big-endian numbers piece by piece ----

  /** `x` followed by `n` zero bytes. */
  function Scale(x: nat, n: nat): nat {
    if n == 0 then x else 256 * Scale(x, n - 1)
  }

  lemma {:induction false} ScaleAdds(x: nat, y: nat, n: nat)
    ensures Scale(x + y, n) == Scale(x, n) + Scale(y, n)
  {
    if n > 0 { ScaleAdds(x, y, n - 1); }
  }

  lemma {:induction false} ScaleUnits(n: nat)
    ensures Scale(0, n) == 0 && Scale(1, n) == Pow256(n) && Scale(256, n) == Pow256(n + 1)
  {
    if n > 0 { ScaleUnits(n - 1); }
  }

  lemma {:induction false} FromBigEndianAppend(a: seq<byte>, b: seq<byte>)
    ensures FromBigEndian(a + b) == Scale(FromBigEndian(a), |b|) + FromBigEndian(b)
  {
    if b == [] {
      assert a + b == a;
    } else {
      var init := b[..|b| - 1];
      assert (a + b)[..|a + b| - 1] == a + init;
      FromBigEndianAppend(a, init);
    }
  }

  predicate AllAre(s: seq<byte>, b: byte) {
    forall i :: 0 <= i < |s| ==> s[i] == b
  }

  lemma {:induction false} UniformValues(s: seq<byte>)
    ensures AllAre(s, 0) ==> FromBigEndian(s) == 0
    ensures AllAre(s, 255) ==> FromBigEndian(s) == Pow256(|s|) - 1
  {
    if s != [] { UniformValues(s[..|s| - 1]); }
  }

  predicate Inverse(s: seq<byte>, t: seq<byte>) {
    |s| == |t| && forall i :: 0 <= i < |s| ==> t[i] == 255 - s[i]
  }

  lemma {:induction false} InverseValue(s: seq<byte>, t: seq<byte>)
    requires Inverse(s, t)
    ensures FromBigEndian(t) == Pow256(|s|) - 1 - FromBigEndian(s)
  {
    if s != [] { InverseValue(s[..|s| - 1], t[..|t| - 1]); }
  }

  /** Adding one: the last byte below 255 grows, the 255s after it become 0. */
  lemma {:induction false} AddOneValue(s: seq<byte>, t: seq<byte>, i: nat)
    requires |s| == |t| && i < |s| && s[i] < 255
    requires t[..i] == s[..i] && t[i] == s[i] + 1
    requires forall j :: i < j < |s| ==> s[j] == 255 && t[j] == 0
    ensures FromBigEndian(t) == FromBigEndian(s) + 1
    decreases |s|
  {
    var x, y := s[..|s| - 1], t[..|t| - 1];
    if i < |s| - 1 {
      assert x[..i] == s[..i] && y[..i] == t[..i];
      AddOneValue(x, y, i);
    } else {
      assert x == s[..i] && y == t[..i];
    }
  }

  lemma SplitValue(s: seq<byte>, i: nat)
    requires i <= |s|
    ensures FromBigEndian(s) == Scale(FromBigEndian(s[..i]), |s| - i) + FromBigEndian(s[i..])
  {
    var a, b := s[..i], s[i..];
    assert a + b == s;
    FromBigEndianAppend(a, b);
  }

  /** The first byte decides whether a number lies in the upper half. */
  lemma FirstByteDecides(s: seq<byte>)
    requires s != []
    ensures s[0] >= 0x80 ==> 0 < Pow256(|s|) - FromBigEndian(s) <= FromBigEndian(s)
    ensures FromBigEndian(s) > 0 || s[0] == 0
  {
    SplitValue(s, 1);
    var n, first: nat := |s| - 1, s[0];
    assert s[..1][..0] == [];
    ScaleAdds(first, first, n);
    ScaleUnits(n);
    if first >= 0x80 { ScaleAdds(256, 2 * first - 256, n); }
    if first >= 1 { ScaleAdds(1, first - 1, n); }
  }

  /** Two more digits for one more byte. */
  lemma DigitsOfNextByte(n: nat, b: byte)
    requires n > 0
    ensures Digits(256 * n + b) == Digits(n) + [HexDigit(b / 16), HexDigit(b % 16)]
  {
    var m := 256 * n + b;
    assert m / 16 == 16 * n + b / 16 && m % 16 == b % 16;
    assert (m / 16) / 16 == n && (m / 16) % 16 == b / 16;
    assert Digits(m / 16) == Digits(n) + [HexDigit(b / 16)];
    assert (Digits(n) + [HexDigit(b / 16)]) + [HexDigit(b % 16)] == Digits(n) + [HexDigit(b / 16), HexDigit(b % 16)];
  }

  /** The loop that inverts every byte in place. */
  method InvertInPlace(magnitude: array<byte>)
    modifies magnitude
    ensures Inverse(old(magnitude[..]), magnitude[..])
  {
    for i := 0 to magnitude.Length
      invariant forall k :: 0 <= k < i ==> magnitude[k] == 255 - old(magnitude[k])
      invariant forall k :: i <= k < magnitude.Length ==> magnitude[k] == old(magnitude[k])
    {
      magnitude[i] := 255 - magnitude[i];
    }
  }

  /** The carry loop. It stops within the array unless every byte is 255. */
  method AddOneInPlace(magnitude: array<byte>)
    modifies magnitude
    ensures !AllAre(old(magnitude[..]), 255) ==> FromBigEndian(magnitude[..]) == FromBigEndian(old(magnitude[..])) + 1
    ensures AllAre(old(magnitude[..]), 255) ==> AllAre(magnitude[..], 0)
  {
    ghost var before := magnitude[..];
    var i := magnitude.Length;
    while i > 0
      invariant 0 <= i <= magnitude.Length
      invariant magnitude[..i] == before[..i]
      invariant AllAre(before[i..], 255) && AllAre(magnitude[i..], 0)
    {
      i := i - 1;
      assert magnitude[i] == before[i] by { assert magnitude[..i + 1][i] == before[..i + 1][i]; }
      assert before[i + 1..] == before[i..][1..];
      var carry := magnitude[i] == 255;
      var value: byte := if carry then 0 else magnitude[i] + 1;
      ghost var suffix := magnitude[i + 1..];
      magnitude[i] := value;
      assert magnitude[i + 1..] == suffix;
      if !carry {
        assert magnitude[..i] == before[..i];
        forall j | i < j < |before| ensures before[j] == 255 && magnitude[j] == 0 {
          assert before[i + 1..][j - i - 1] == before[j] && magnitude[i + 1..][j - i - 1] == magnitude[j];
        }
        AddOneValue(before, magnitude[..], i);
        return;
      }
    }
    assert before[0..] == before && magnitude[0..] == magnitude[..];
  }

  /** The digits of the bytes from the first non-zero one: no leading zero, then two per byte. */
  method HexText(bytes: seq<byte>) returns (text: string)
    requires bytes != [] && bytes[0] != 0
    ensures text == Digits(FromBigEndian(bytes))
  {
    var b := bytes[0];
    text := if b < 16 then [HexDigit(b)] else [HexDigit(b / 16), HexDigit(b % 16)];
    FirstByteText(bytes);
    for i := 1 to |bytes|
      invariant text == Digits(FromBigEndian(bytes[..i]))
    {
      NextByteText(bytes, i);
      text := text + [HexDigit(bytes[i] / 16), HexDigit(bytes[i] % 16)];
    }
    assert bytes[..|bytes|] == bytes;
  }

  /** The magnitude of the number, in place: inverted and incremented when it is negative. */
  method MakeMagnitude(magnitude: array<byte>, negative: bool)
    requires negative ==> magnitude.Length > 0 && magnitude[0] >= 0x80
    modifies magnitude
    ensures FromBigEndian(magnitude[..])
         == if negative then Pow256(magnitude.Length) - FromBigEndian(old(magnitude[..]))
           else FromBigEndian(old(magnitude[..]))
  {
    if negative {
      ghost var digest := magnitude[..];
      InvertInPlace(magnitude);
      InverseValue(digest, magnitude[..]);
      assert magnitude[..][0] != 255;
      AddOneInPlace(magnitude);
    }
  }

  method SignedTwosComplementHex(digest: seq<byte>) returns (output: string)
    ensures output == SignedHex(TwosComplement(digest))
  {
    var negative := digest != [] && digest[0] >= 0x80;
    var magnitude := new byte[|digest|](i requires 0 <= i < |digest| => digest[i]);
    assert magnitude[..] == digest;
    MakeMagnitude(magnitude, negative);
    if negative { FirstByteDecides(digest); }
    assert FromBigEndian(magnitude[..]) == if negative then -TwosComplement(digest) else TwosComplement(digest);
    var first := 0;
    while first < magnitude.Length && magnitude[first] == 0
      invariant first <= magnitude.Length && AllAre(magnitude[..first], 0)
    {
      first := first + 1;
    }
    DropZeros(magnitude[..], first);
    var bytes := magnitude[first..];
    if first == magnitude.Length {
      return "0";
    }
    FirstByteDecides(bytes);
    output := if negative then "-" else "";
    var text := HexText(bytes);
    output := output + text;
    assert "" + text == text;
  }

  lemma DropZeros(s: seq<byte>, k: nat)
    requires k <= |s| && AllAre(s[..k], 0)
    ensures FromBigEndian(s) == FromBigEndian(s[k..])
  {
    ghost var head := FromBigEndian(s[..k]);
    assert head == 0 by { UniformValues(s[..k]); }
    assert Scale(head, |s| - k) == 0 by { ScaleUnits(|s| - k); }
    SplitValue(s, k);
  }

  lemma FirstByteText(s: seq<byte>)
    requires s != []
    ensures Digits(FromBigEndian(s[..1])) == if s[0] < 16 then [HexDigit(s[0])]
      else [HexDigit(s[0] / 16), HexDigit(s[0] % 16)]
  {
    assert s[..1][..0] == [];
    assert FromBigEndian(s[..1]) == s[0];
    if s[0] >= 16 { assert Digits(s[0] / 16) == [HexDigit(s[0] / 16)]; }
  }

  lemma NextByteText(s: seq<byte>, k: nat)
    requires 0 < k < |s| && s[0] != 0
    ensures Digits(FromBigEndian(s[..k + 1]))
      == Digits(FromBigEndian(s[..k])) + [HexDigit(s[k] / 16), HexDigit(s[k] % 16)]
  {
    assert s[..k + 1][..k] == s[..k];
    FirstByteDecides(s[..k]);
    DigitsOfNextByte(FromBigEndian(s[..k]), s[k]);
  }
}
