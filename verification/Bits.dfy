/** Bitwise AND on naturals, enough to follow the mask arithmetic of the block cache. */
module Bits {

  type Byte = x: int | 0 <= x < 256

  function And(a: nat, b: nat): nat
    decreases a
  {
    if a == 0 || b == 0 then 0 else (if a % 2 == 1 && b % 2 == 1 then 1 else 0) + 2 * And(a / 2, b / 2)
  }

  ghost function Pow2(k: nat): (p: nat)
    ensures p >= 1
  {
    if k == 0 then 1 else 2 * Pow2(k - 1)
  }

  const ALL_ONES := 0xFFFF_FFFF

  /** `a & ~mask` on 32-bit operands. */
  function AndNot32(a: nat, mask: nat): nat
    requires mask <= ALL_ONES
  {
    And(a, ALL_ONES - mask)
  }

  lemma {:induction false} AndAtMost(a: nat, b: nat)
    ensures And(a, b) <= b
    decreases a
  {
    if a != 0 && b != 0 {
      AndAtMost(a / 2, b / 2);
      assert a % 2 == 0 || a % 2 == 1;
    }
  }

  /** A mask and its complement split a number without loss, whatever the mask is. */
  lemma {:induction false} AndSplits(a: nat, m: nat, k: nat)
    requires m < Pow2(k) && a < Pow2(k)
    ensures And(a, Pow2(k) - 1 - m) + And(a, m) == a
    decreases k
  {
    if k > 0 && a > 0 {
      var c := Pow2(k) - 1 - m;
      AndSplits(a / 2, m / 2, k - 1);
      assert c / 2 == Pow2(k - 1) - 1 - m / 2 && c % 2 == 1 - m % 2;
      AndUnfold(a, c);
      AndUnfold(a, m);
    }
  }

  lemma AndUnfold(a: nat, b: nat)
    ensures And(a, b) == (if a % 2 == 1 && b % 2 == 1 then 1 else 0) + 2 * And(a / 2, b / 2)
  {
    if a == 0 || b == 0 {
      assert And(a / 2, b / 2) == 0;
    } else {
    }
  }

  /** An all-ones mask of k bits keeps the remainder modulo 2^k. */
  lemma {:induction false} AndLowMask(a: nat, k: nat)
    ensures And(a, Pow2(k) - 1) == a % Pow2(k)
    decreases k
  {
    if k > 0 {
      AndLowMask(a / 2, k - 1);
      LowMaskHalves(a, Pow2(k - 1));
      ModDouble(a, Pow2(k - 1));
    }
  }

  lemma LowMaskHalves(a: nat, m: nat)
    requires m > 0
    ensures And(a, 2 * m - 1) == a % 2 + 2 * And(a / 2, m - 1)
  {
    AndUnfold(a, 2 * m - 1);
    assert (2 * m - 1) / 2 == m - 1;
  }

  lemma ModDouble(a: nat, m: nat)
    requires m > 0
    ensures a % (2 * m) == a % 2 + 2 * ((a / 2) % m)
  {
    var q, r := (a / 2) / m, (a / 2) % m;
    assert a == (2 * m) * q + (a % 2 + 2 * r) by {
      assert a / 2 == m * q + r;
    }
    DivModUnique(a, 2 * m, q, a % 2 + 2 * r);
  }

  lemma DivModUnique(a: int, d: int, q: int, r: int)
    requires d > 0 && 0 <= r < d && a == d * q + r
    ensures a / d == q && a % d == r
  {
    var q' := a / d;
    assert d * (q - q') == a % d - r;
    MulAtLeast(d, q - q');
  }

  lemma MulAtLeast(d: nat, n: int)
    ensures n >= 1 ==> d * n >= d
    ensures n <= -1 ==> d * n + d <= 0
  {
  }

  lemma Pow2Values()
    ensures Pow2(13) == 0x2000 && Pow2(32) == 0x1_0000_0000
  {
    assert Pow2(8) == 256;
    assert Pow2(16) == 0x1_0000;
    assert Pow2(24) == 0x100_0000;
  }

  /** Masking with the complement of `size - 1` yields a block start at most `size - 1` below
      the position; `size` need not be a power of two. */
  lemma BlockBaseBounds(pos: nat, size: nat)
    requires 0 < size <= ALL_ONES && pos <= ALL_ONES
    ensures AndNot32(pos, size - 1) <= pos < AndNot32(pos, size - 1) + size
  {
    hide Pow2;
    Pow2Values();
    AndSplits(pos, size - 1, 32);
    AndAtMost(pos, size - 1);
  }

  /** Clearing the low 13 bits rounds down to a multiple of 8192. */
  lemma AndNot32LowBits(v: nat)
    requires v <= ALL_ONES
    ensures AndNot32(v, 0x1FFF) == v - v % 0x2000
  {
    hide Pow2;
    Pow2Values();
    AndSplits(v, 0x1FFF, 32);
    AndLowMask(v, 13);
  }
}
