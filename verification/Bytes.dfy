/** Bytes, little-endian words and powers of two, shared by the storage models. */
module Bytes {
  type byte = x: int | 0 <= x < 256

  function Pow2(n: nat): (r: nat)
    ensures r >= 1
  {
    if n == 0 then 1 else 2 * Pow2(n - 1)
  }

  function Zeros(n: nat): (s: seq<byte>)
    ensures |s| == n
  {
    seq(n, _ => 0)
  }

  /** The 16-bit little-endian word at `p`. */
  function Le16(s: seq<byte>, p: nat): (w: nat)
    requires p + 1 < |s|
    ensures w < 0x10000
  {
    var hi: int := s[p + 1];
    s[p] + 256 * hi
  }

  lemma Pow2Monotone(a: nat, b: nat)
    requires a <= b
    ensures Pow2(a) <= Pow2(b)
  {
    if a < b { Pow2Monotone(a, b - 1); }
  }

  lemma {:induction false} Pow2Add(a: nat, b: nat)
    ensures Pow2(a + b) == Pow2(a) * Pow2(b)
  {
    if a != 0 {
      Pow2Add(a - 1, b);
      assert Pow2(a + b) == 2 * Pow2(a - 1 + b);
    }
  }

  /** A quotient and a remainder packed in one word come apart again. */
  lemma Unpack(high: nat, low: nat, d: nat)
    requires low < d
    ensures (high * d + low) / d == high
    ensures (high * d + low) % d == low
  {
    var w := high * d + low;
    var q, r := w / d, w % d;
    assert w == d * q + r;
    assert d * (high - q) == r - low;
    MultipleBelow(d, high - q);
  }

  /** No multiple of `d` but zero lies strictly between -d and d. */
  lemma MultipleBelow(d: int, k: int)
    requires -d < d * k < d
    ensures k == 0
  {
    assert k >= 1 ==> d * k >= d;
    assert k <= -1 ==> d * k <= -d;
  }
}
