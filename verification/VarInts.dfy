/** Base-128 variable-length integers (varint.rs), as functions on byte strings. */
module VarInts {
  import opened Bytes

  /** What the first at most `left` groups of a byte string say. */
  datatype VarRead = Complete(value: nat, bytes: nat) | NeedMore | Malformed

  function ReadVar(s: seq<byte>, left: nat): (r: VarRead)
    ensures r.Complete? ==> 1 <= r.bytes <= left && r.bytes <= |s|
    ensures r.NeedMore? ==> |s| < left
    ensures r.Malformed? ==> |s| >= left
  {
    if left == 0 then Malformed
    else if s == [] then NeedMore
    else if s[0] < 128 then Complete(s[0], 1)
    else
      match ReadVar(s[1..], left - 1)
      case Complete(v, k) => Complete(s[0] - 128 + 128 * v, k + 1)
      case other => other
  }

  function WriteVar(n: nat): (s: seq<byte>)
    ensures |s| >= 1
  {
    if n < 128 then [n] else [n % 128 + 128] + WriteVar(n / 128)
  }

  function Pow128(n: nat): (p: nat)
    ensures p > 0
  {
    if n == 0 then 1 else 128 * Pow128(n - 1)
  }

  lemma Pow128Values()
    ensures Pow128(3) == 0x20_0000 && Pow128(5) > TWO32 && Pow128(10) > TWO64
  {
    assert Pow128(3) == 128 * Pow128(2);
    assert Pow128(4) == 128 * Pow128(3);
    assert Pow128(5) == 128 * Pow128(4);
    assert Pow128(6) == 128 * Pow128(5);
    assert Pow128(7) == 128 * Pow128(6);
    assert Pow128(8) == 128 * Pow128(7);
    assert Pow128(9) == 128 * Pow128(8);
  }

  /** A number is written in at most `k` groups exactly when it is below `128^k`. */
  lemma {:induction false} WriteVarLength(n: nat, k: nat)
    requires k >= 1
    ensures |WriteVar(n)| <= k <==> n < Pow128(k)
  {
    if n >= 128 {
      if k == 1 {
        assert Pow128(1) == 128;
      } else {
        WriteVarLength(n / 128, k - 1);
      }
    } else {
      assert Pow128(k) >= 128 by { Pow128AtLeast(k); }
    }
  }

  lemma {:induction false} Pow128AtLeast(k: nat)
    requires k >= 1
    ensures Pow128(k) >= 128
  {
    if k > 1 { Pow128AtLeast(k - 1); }
  }

  /** Reading back what was written gives the number and stops where it was written. */
  lemma {:induction false} WriteThenRead(n: nat, left: nat, t: seq<byte>)
    requires n < Pow128(left) && left >= 1
    ensures ReadVar(WriteVar(n) + t, left) == Complete(n, |WriteVar(n)|)
  {
    var s := WriteVar(n) + t;
    if n >= 128 {
      assert s[1..] == WriteVar(n / 128) + t;
      assert left > 1;
      WriteThenRead(n / 128, left - 1, t);
    }
  }

  /** The canonical form is the shortest one: overlong input never grows when rewritten. */
  lemma {:induction false} ReadThenWrite(s: seq<byte>, left: nat, smaller: nat)
    requires ReadVar(s, left).Complete?
    requires smaller <= ReadVar(s, left).value
    ensures |WriteVar(smaller)| <= ReadVar(s, left).bytes
    ensures ReadVar(s, left).value < Pow128(ReadVar(s, left).bytes)
  {
    if s[0] < 128 {
      assert Pow128(1) == 128;
    } else {
      var r := ReadVar(s[1..], left - 1);
      ReadThenWrite(s[1..], left - 1, smaller / 128);
      assert smaller / 128 <= r.value;
    }
  }

  /** More input never changes a verdict that was already reached. */
  lemma {:induction false} ReadVarExtends(s: seq<byte>, left: nat, t: seq<byte>)
    requires !ReadVar(s, left).NeedMore?
    ensures ReadVar(s + t, left) == ReadVar(s, left)
  {
    if left > 0 && s[0] >= 128 {
      assert (s + t)[1..] == s[1..] + t;
      ReadVarExtends(s[1..], left - 1, t);
    }
  }

  /**
    The accumulating loop of the program in terms of `ReadVar`: after `i` continuation bytes the
    verdict on the whole is the verdict on the rest, shifted and added to what was accumulated.
  */
  function Shifted(low: nat, i: nat, r: VarRead): VarRead {
    match r
    case Complete(v, k) => Complete(low + Pow128(i) * v, k + i)
    case other => other
  }

  lemma ShiftedStep(low: nat, i: nat, s: seq<byte>, left: nat)
    requires left > 0 && s != [] && s[0] >= 128
    ensures Shifted(low, i, ReadVar(s, left))
         == Shifted(low + (s[0] - 128) * Pow128(i), i + 1, ReadVar(s[1..], left - 1))
  {
    match ReadVar(s[1..], left - 1)
    case Complete(v, k) =>
      calc {
        Pow128(i) * (s[0] - 128 + 128 * v);
        (s[0] - 128) * Pow128(i) + (128 * Pow128(i)) * v;
      }
    case _ =>
  }

  lemma ShiftedLast(low: nat, i: nat, s: seq<byte>, left: nat)
    requires left > 0 && s != [] && s[0] < 128
    ensures Shifted(low, i, ReadVar(s, left)) == Complete(low + s[0] * Pow128(i), i + 1)
  {
    assert Pow128(i) * s[0] == s[0] * Pow128(i);
  }
}
