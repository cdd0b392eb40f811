/** Text as bytes: UTF-8 well-formedness, UTF-16 length and resource identifiers. */
module Text {
  import opened Bytes

  predicate InRange(s: seq<byte>, i: nat, low: byte, high: byte) {
    i < |s| && low <= s[i] <= high
  }

  /** Length of the well-formed sequence at the front, or 0 (Table 3-7 of the Unicode Standard). */
  function ScalarLength(s: seq<byte>): (n: nat)
    ensures n <= |s|
  {
    if InRange(s, 0, 0x00, 0x7F) then 1
    else if InRange(s, 0, 0xC2, 0xDF) && InRange(s, 1, 0x80, 0xBF) then 2
    else if InRange(s, 2, 0x80, 0xBF)
         && ((s[0] == 0xE0 && InRange(s, 1, 0xA0, 0xBF))
          || (InRange(s, 0, 0xE1, 0xEC) && InRange(s, 1, 0x80, 0xBF))
          || (s[0] == 0xED && InRange(s, 1, 0x80, 0x9F))
          || (InRange(s, 0, 0xEE, 0xEF) && InRange(s, 1, 0x80, 0xBF))) then 3
    else if InRange(s, 2, 0x80, 0xBF) && InRange(s, 3, 0x80, 0xBF)
         && ((s[0] == 0xF0 && InRange(s, 1, 0x90, 0xBF))
          || (InRange(s, 0, 0xF1, 0xF3) && InRange(s, 1, 0x80, 0xBF))
          || (s[0] == 0xF4 && InRange(s, 1, 0x80, 0x8F))) then 4
    else 0
  }

  predicate IsUtf8(s: seq<byte>)
    decreases |s|
  {
    s == [] || (ScalarLength(s) > 0 && IsUtf8(s[ScalarLength(s)..]))
  }

  /** Bytes of a Rust `String`. */
  type Utf8 = s: seq<byte> | IsUtf8(s) witness []

  function Utf16Units(s: seq<byte>): nat
    decreases |s|
  {
    if ScalarLength(s) == 0 then 0
    else (if ScalarLength(s) == 4 then 2 else 1) + Utf16Units(s[ScalarLength(s)..])
  }

  /** Some character is a control character (U+0000 to U+001F and U+007F to U+009F). */
  predicate HasControl(s: seq<byte>)
    decreases |s|
  {
    ScalarLength(s) > 0 &&
    (|| s[0] < 0x20 || s[0] == 0x7F
     || (s[0] == 0xC2 && s[1] < 0xA0)
     || HasControl(s[ScalarLength(s)..]))
  }

  const MAX_IDENTIFIER_BYTES := 256

  predicate NameByte(b: byte) {
    0x61 <= b <= 0x7A || 0x30 <= b <= 0x39 || b == 0x2E || b == 0x5F || b == 0x2D
  }

  /** Index of the first occurrence of `b`, or the length. */
  function Find(s: seq<byte>, b: byte): (i: nat)
    ensures i <= |s|
  {
    if s == [] || s[0] == b then 0 else 1 + Find(s[1..], b)
  }

  /** Every part between slashes is non-empty and neither `.` nor `..`. */
  predicate PathParts(path: seq<byte>)
    decreases |path|
  {
    var i := Find(path, 0x2F);
    path[..i] !in [[], [0x2E], [0x2E, 0x2E]] && (i == |path| || PathParts(path[i + 1..]))
  }

  /** From `a` to `b` the path has one of its parts: between two slashes, or an end and a slash, and without any. */
  predicate IsPart(path: seq<byte>, a: nat, b: nat) {
    && a <= b <= |path|
    && (a == 0 || path[a - 1] == 0x2F) && (b == |path| || path[b] == 0x2F)
    && forall k :: a <= k < b ==> path[k] != 0x2F
  }

  lemma {:induction false} FindFirst(s: seq<byte>, b: byte)
    ensures Find(s, b) < |s| ==> s[Find(s, b)] == b
    ensures forall k :: 0 <= k < Find(s, b) ==> s[k] != b
  {
    if s != [] && s[0] != b { FindFirst(s[1..], b); }
  }

  predicate BadPart(part: seq<byte>) {
    part == [] || part == [0x2E] || part == [0x2E, 0x2E]
  }

  ghost predicate GoodParts(path: seq<byte>) {
    forall a: nat, b: nat :: IsPart(path, a, b) ==> !BadPart(path[a..b])
  }

  /** Parts of the path after its first slash are the other parts of the path. */
  lemma LaterParts(path: seq<byte>, i: nat, a: nat, b: nat)
    requires i < |path| && path[i] == 0x2F && forall k :: 0 <= k < i ==> path[k] != 0x2F
    ensures IsPart(path, a, b) ==> (a == 0 && b == i) || (a > i && IsPart(path[i + 1..], a - i - 1, b - i - 1))
    ensures IsPart(path[i + 1..], a, b) ==>
      IsPart(path, a + i + 1, b + i + 1) && path[i + 1..][a..b] == path[a + i + 1..b + i + 1]
  {
    var rest := path[i + 1..];
    assert forall k :: i < k < |path| ==> path[k] == rest[k - i - 1];
  }

  /** The parts are good exactly if none of them, wherever it stands, is empty or one or two dots. */
  lemma {:induction false} PathPartsMeans(path: seq<byte>)
    ensures PathParts(path) <==> GoodParts(path)
    decreases |path|
  {
    var i := Find(path, 0x2F);
    FindFirst(path, 0x2F);
    assert IsPart(path, 0, i) && path[..i] == path[0..i];
    if i < |path| {
      var rest := path[i + 1..];
      PathPartsMeans(rest);
      forall a: nat, b: nat | IsPart(rest, a, b)
        ensures IsPart(path, a + i + 1, b + i + 1) && rest[a..b] == path[a + i + 1..b + i + 1]
      {
        LaterParts(path, i, a, b);
      }
      forall a: nat, b: nat | IsPart(path, a, b)
        ensures (a == 0 && b == i) || (a > i && IsPart(rest, a - i - 1, b - i - 1)
                                       && path[a..b] == rest[a - i - 1..b - i - 1])
      {
        LaterParts(path, i, a, b);
      }
    }
  }

  /** `MinecraftIdentifier::new` accepts exactly these strings. */
  predicate IsIdentifier(s: seq<byte>) {
    var i := Find(s, 0x3A);
    && 0 < i < |s| <= MAX_IDENTIFIER_BYTES
    && i + 1 < |s|
    && PathParts(s[i + 1..])
    && (forall k :: 0 <= k < i ==> NameByte(s[k]))
    && (forall k :: i < k < |s| ==> NameByte(s[k]) || s[k] == 0x2F)
  }

  predicate NameChar(c: char) {
    'a' <= c <= 'z' || '0' <= c <= '9' || c == '.' || c == '_' || c == '-'
  }

  /** A namespace and a path with a colon at `i` between them, neither empty, of these characters alone. */
  ghost predicate SplitsAt(s: seq<byte>, i: nat) {
    && 0 < i < |s| - 1 && |s| <= 256 && s[i] as char == ':'
    && (forall k :: 0 <= k < i ==> NameChar(s[k] as char))
    && (forall k :: i < k < |s| ==> NameChar(s[k] as char) || s[k] as char == '/')
    && GoodParts(s[i + 1..])
  }

  lemma IdentifierMeans(s: seq<byte>)
    ensures IsIdentifier(s) <==> exists i: nat :: SplitsAt(s, i)
  {
    var i := Find(s, 0x3A);
    FindFirst(s, 0x3A);
    forall k | 0 <= k < |s| ensures NameByte(s[k]) <==> NameChar(s[k] as char) { }
    if i < |s| { PathPartsMeans(s[i + 1..]); }
    if IsIdentifier(s) { assert SplitsAt(s, i); }
    if j: nat :| SplitsAt(s, j) {
      assert forall k :: 0 <= k < j ==> s[k] != 0x3A;
      assert i == j;
    }
  }
}
