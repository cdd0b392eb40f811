/**
  Text as code points (section 3.9 of the Unicode Standard): well-formed bytes are exactly the
  encodings of sequences of scalar values, and lengths and control characters are those of the values.
 */
module CodePoints {
  import opened Bytes
  import opened Text

  /** A code point that is not a surrogate. */
  type Scalar = c: int | 0 <= c < 0xD800 || 0xE000 <= c < 0x11_0000

  function Encode(c: Scalar): (b: seq<byte>)
    ensures 1 <= |b| <= 4
  {
    if c < 0x80 then [c]
    else if c < 0x800 then [0xC0 + c / 0x40, 0x80 + c % 0x40]
    else if c < 0x1_0000 then [0xE0 + c / 0x1000, 0x80 + c / 0x40 % 0x40, 0x80 + c % 0x40]
    else [0xF0 + c / 0x4_0000, 0x80 + c / 0x1000 % 0x40, 0x80 + c / 0x40 % 0x40, 0x80 + c % 0x40]
  }

  function EncodeAll(text: seq<Scalar>): seq<byte> {
    if text == [] then [] else Encode(text[0]) + EncodeAll(text[1..])
  }

  /** UTF-16 takes two units beyond the basic plane. */
  function UnitsOf(text: seq<Scalar>): nat {
    if text == [] then 0 else (if text[0] >= 0x1_0000 then 2 else 1) + UnitsOf(text[1..])
  }

  predicate IsControl(c: Scalar) {
    c < 0x20 || 0x7F <= c < 0xA0
  }

  lemma EncodedIsScalar(c: Scalar, t: seq<byte>)
    ensures ScalarLength(Encode(c) + t) == |Encode(c)|
    ensures |Encode(c)| == 4 <==> c >= 0x1_0000
    ensures IsControl(c) <==> var b := Encode(c); b[0] < 0x20 || b[0] == 0x7F || (b[0] == 0xC2 && b[1] < 0xA0)
  {
  }

  /** Three digits in base 64 and what stands before them. */
  lemma Digits64(top: nat, third: nat, second: nat, first: nat)
    requires third < 0x40 && second < 0x40 && first < 0x40
    ensures var c := 0x4_0000 * top + 0x1000 * third + 0x40 * second + first;
      c / 0x4_0000 == top && c / 0x1000 == 0x40 * top + third && c % 0x40 == first
      && c / 0x1000 % 0x40 == third && c / 0x40 % 0x40 == second && c / 0x40 == 0x1000 * top + 0x40 * third + second
  {
    var c := 0x4_0000 * top + 0x1000 * third + 0x40 * second + first;
    var q, r := 0x40 * top + third, 0x40 * second + first;
    Quotient(c, 0x4_0000, top, 0x1000 * third + r);
    Quotient(c, 0x1000, q, r);
    Quotient(c, 0x40, 0x40 * q + second, first);
    Quotient(q, 0x40, top, third);
    Quotient(0x40 * q + second, 0x40, q, second);
  }

  lemma Quotient(a: nat, d: nat, q: nat, r: nat)
    requires a == d * q + r && r < d
    ensures a / d == q && a % d == r
  {
    QuotientIs(a, d, q, r);
  }

  lemma ScalarIsEncoded(s: seq<byte>) returns (c: Scalar)
    requires ScalarLength(s) > 0
    ensures s[..ScalarLength(s)] == Encode(c)
  {
    var n := ScalarLength(s);
    if n == 1 {
      c := s[0];
    } else if n == 2 {
      var top: nat, first: nat := s[0] - 0xC0, s[1] - 0x80;
      Digits64(0, 0, top, first);
      c := 0x40 * top + first;
    } else if n == 3 {
      c := ThreeBytes(s);
    } else {
      c := FourBytes(s);
    }
  }

  lemma ThreeBytes(s: seq<byte>) returns (c: Scalar)
    requires ScalarLength(s) == 3
    ensures s[..3] == Encode(c)
  {
    var top: nat, second: nat, first: nat := s[0] - 0xE0, s[1] - 0x80, s[2] - 0x80;
    Digits64(0, top, second, first);
    c := 0x1000 * top + 0x40 * second + first;
  }

  lemma FourBytes(s: seq<byte>) returns (c: Scalar)
    requires ScalarLength(s) == 4
    ensures s[..4] == Encode(c)
  {
    var top: nat, third: nat, second: nat, first: nat := s[0] - 0xF0, s[1] - 0x80, s[2] - 0x80, s[3] - 0x80;
    Digits64(top, third, second, first);
    c := 0x4_0000 * top + 0x1000 * third + 0x40 * second + first;
  }

  lemma {:induction false} EncodedText(text: seq<Scalar>)
    ensures var s := EncodeAll(text);
      && IsUtf8(s) && Utf16Units(s) == UnitsOf(text)
      && (HasControl(s) <==> exists i :: 0 <= i < |text| && IsControl(text[i]))
  {
    if text != [] {
      var head, tail, s := Encode(text[0]), EncodeAll(text[1..]), EncodeAll(text);
      EncodedIsScalar(text[0], tail);
      assert s[|head|..] == tail && s[0] == head[0] && (|head| > 1 ==> s[1] == head[1]);
      EncodedText(text[1..]);
    }
  }

  lemma {:induction false} TextOf(s: Utf8) returns (text: seq<Scalar>)
    ensures EncodeAll(text) == s
    decreases |s|
  {
    if s == [] {
      text := [];
    } else {
      var n := ScalarLength(s);
      var c := ScalarIsEncoded(s);
      var rest := TextOf(s[n..]);
      text := [c] + rest;
      assert text[1..] == rest && s == s[..n] + s[n..];
    }
  }

  /**
    Bytes are well formed exactly if they encode a sequence of scalar values; their UTF-16 length is
    that of the sequence, and they hold a control character exactly if it does.
   */
  lemma Utf8IsEncoding(s: seq<byte>)
    ensures IsUtf8(s) <==> exists text :: EncodeAll(text) == s
    ensures forall text :: EncodeAll(text) == s ==>
      Utf16Units(s) == UnitsOf(text) && (HasControl(s) <==> exists i :: 0 <= i < |text| && IsControl(text[i]))
  {
    if IsUtf8(s) { var text := TextOf(s); }
    forall text | EncodeAll(text) == s
      ensures IsUtf8(s) && Utf16Units(s) == UnitsOf(text)
      ensures HasControl(s) <==> exists i :: 0 <= i < |text| && IsControl(text[i])
    {
      EncodedText(text);
    }
  }
}
