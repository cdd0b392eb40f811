/** Bytes, machine integers and big-endian words, over unbounded arithmetic. */
module Bytes {

  type byte = x: int | 0 <= x < 256
  type i32 = x: int | -0x8000_0000 <= x < 0x8000_0000
  type i64 = x: int | -0x8000_0000_0000_0000 <= x < 0x8000_0000_0000_0000
  type u32 = x: int | 0 <= x < 0x1_0000_0000
  type u64 = x: int | 0 <= x < 0x1_0000_0000_0000_0000

  const I32_MAX: int := 0x7fff_ffff
  const TWO32: int := 0x1_0000_0000
  const TWO64: int := 0x1_0000_0000_0000_0000

  /** `value as u32` and `value as i32` of the program. */
  function U32(value: i32): (r: u32)
    ensures r % TWO32 == value % TWO32
  {
    value % TWO32
  }

  function I32(value: int): (r: i32)
    ensures r % TWO32 == value % TWO32
  {
    var low := value % TWO32;
    if low <= I32_MAX then low else low - TWO32
  }

  function U64(value: i64): (r: u64)
    ensures r % TWO64 == value % TWO64
  {
    value % TWO64
  }

  function I64(value: nat): (r: i64)
    ensures r % TWO64 == value % TWO64
  {
    var low := value % TWO64;
    if low < 0x8000_0000_0000_0000 then low else low - TWO64
  }

  function Pow256(n: nat): (p: nat)
    ensures p > 0
  {
    if n == 0 then 1 else 256 * Pow256(n - 1)
  }

  lemma Pow256Values()
    ensures Pow256(1) == 0x100 && Pow256(2) == 0x1_0000
    ensures Pow256(4) == TWO32 && Pow256(8) == TWO64
  {
    assert Pow256(3) == 256 * Pow256(2);
    assert Pow256(4) == 256 * Pow256(3);
    assert Pow256(5) == 256 * Pow256(4);
    assert Pow256(6) == 256 * Pow256(5);
    assert Pow256(7) == 256 * Pow256(6);
  }

  /** `to_be_bytes` of an unsigned word of `width` bytes. */
  function ToBigEndian(value: nat, width: nat): (s: seq<byte>)
    requires value < Pow256(width)
    ensures |s| == width
  {
    if width == 0 then [] else ToBigEndian(value / 256, width - 1) + [value % 256]
  }

  /** `from_be_bytes` of an unsigned word. */
  function FromBigEndian(s: seq<byte>): (v: nat)
    ensures v < Pow256(|s|)
  {
    if s == [] then 0 else FromBigEndian(s[..|s| - 1]) * 256 + s[|s| - 1]
  }

  lemma {:induction false} BigEndianRoundTrip(value: nat, width: nat)
    requires value < Pow256(width)
    ensures FromBigEndian(ToBigEndian(value, width)) == value
  {
    if width > 0 {
      var s := ToBigEndian(value, width);
      assert s[..|s| - 1] == ToBigEndian(value / 256, width - 1);
      BigEndianRoundTrip(value / 256, width - 1);
    }
  }

  lemma {:induction false} BigEndianOnto(s: seq<byte>)
    ensures ToBigEndian(FromBigEndian(s), |s|) == s
  {
    if s != [] {
      BigEndianOnto(s[..|s| - 1]);
      var v := FromBigEndian(s);
      assert v / 256 == FromBigEndian(s[..|s| - 1]) && v % 256 == s[|s| - 1];
    }
  }

  /** The unsigned word with the same bits as a signed one, and back. */
  function Wrap(value: int, width: nat): (bits: nat)
    requires 0 <= value + Pow256(width) && value < Pow256(width)
    ensures bits < Pow256(width)
  {
    if value < 0 then value + Pow256(width) else value
  }

  function Unwrap(bits: nat, width: nat): (value: int)
    requires bits < Pow256(width)
    ensures 0 <= 2 * value + Pow256(width) && 2 * value < Pow256(width)
  {
    if 2 * bits < Pow256(width) then bits else bits - Pow256(width)
  }

  lemma Associate<T>(a: seq<T>, b: seq<T>, c: seq<T>)
    ensures a + (b + c) == (a + b) + c
  {
  }

  function Pow2(n: nat): (p: nat)
    ensures p > 0
  {
    if n == 0 then 1 else 2 * Pow2(n - 1)
  }

  /** Binary digit `k`, counted from the lowest. */
  predicate BitOf(n: nat, k: nat) {
    if k == 0 then n % 2 == 1 else BitOf(n / 2, k - 1)
  }

  lemma {:induction false} ZeroHasNoBits(k: nat)
    ensures !BitOf(0, k)
  {
    if k > 0 { ZeroHasNoBits(k - 1); }
  }

  lemma MultiplyOrder(d: nat, x: int, y: int)
    requires x <= y
    ensures d * x <= d * y
  {
  }

  lemma Distribute(d: int, x: int)
    ensures d * (x + 1) == d * x + d
  {
  }

  lemma QuotientIs(a: int, d: nat, q: int, r: int)
    requires d > 0 && a == d * q + r && 0 <= r < d
    ensures a / d == q
  {
    var other := a / d;
    assert a == d * other + a % d;
    if other > q {
      MultiplyOrder(d, q + 1, other);
      Distribute(d, q);
    } else if other < q {
      MultiplyOrder(d, other + 1, q);
      Distribute(d, other);
    }
  }
}
