// Integer facts shared by the bit-reversal, the block tiling and the index arithmetic
// of the decimation drivers.
module Arith {

  /** 2^k. */
  function Pow2(k: nat): (r: nat)
    ensures r >= 1
  {
    if k == 0 then 1 else 2 * Pow2(k - 1)
  }

  /** 2^(a+b) == 2^a * 2^b */
  lemma {:induction false} Pow2Add(a: nat, b: nat)
    ensures Pow2(a + b) == Pow2(a) * Pow2(b)
  {
    if a > 0 {
      Pow2Add(a - 1, b);
      assert Pow2(a + b) == 2 * Pow2(a - 1 + b);
    }
  }

  lemma {:induction false} Pow2Monotonic(a: nat, b: nat)
    requires a <= b
    ensures Pow2(a) <= Pow2(b)
  {
    if a < b {
      Pow2Monotonic(a, b - 1);
    }
  }

  /** Euclidean division is determined by quotient and remainder. */
  lemma DivModUnique(x: int, d: int, q: int, r: int)
    requires d > 0 && 0 <= r < d && x == q * d + r
    ensures x / d == q && x % d == r
  {
    var q', r' := x / d, x % d;
    assert x == q' * d + r';
    assert (q' - q) * d == r - r';
    MulSign(q' - q, d);
  }

  lemma MulSign(a: int, p: int)
    requires p > 0
    ensures a >= 1 ==> a * p >= p
    ensures a <= -1 ==> a * p <= -p
  {
    if a >= 1 {
      MulAtLeast(a, p);
    } else if a <= -1 {
      MulAtLeast(-a, p);
      assert a * p == -((-a) * p);
    }
  }

  lemma MulAtLeast(a: int, p: int)
    requires a >= 1 && p >= 0
    ensures a * p >= p
  {
    assert a * p == (a - 1) * p + p;
    MulNonNegative(a - 1, p);
  }

  lemma MulNonNegative(a: int, b: int)
    requires a >= 0 && b >= 0
    ensures a * b >= 0
  {
  }

  /** count * p splits into (count - 1) * p and one more p. */
  lemma MulPredecessor(count: nat, p: nat)
    requires count >= 1
    ensures count * p == (count - 1) * p + p
  {
  }

  /**
   * `count` blocks of `size` cells each: count * size, written as a recursion so
   * that the block-tiling proofs need no nonlinear arithmetic.
   */
  function Blocks(count: nat, size: nat): nat
  {
    if count == 0 then 0 else Blocks(count - 1, size) + size
  }

  /** The last of `count` blocks starts at Blocks(count - 1, size). */
  lemma BlocksLast(count: nat, size: nat)
    requires count > 0
    ensures Blocks(count, size) == Blocks(count - 1, size) + size
  {
  }

  /** One more block adds one block's size. */
  lemma BlocksStep(count: nat, size: nat)
    ensures Blocks(count + 1, size) == Blocks(count, size) + size
  {
  }

  lemma {:induction false} BlocksIsProduct(count: nat, size: nat)
    ensures Blocks(count, size) == count * size
  {
    if count > 0 {
      BlocksIsProduct(count - 1, size);
      MulPredecessor(count, size);
    }
  }

  /** More blocks cover more cells; a block index below the count leaves room for its block. */
  lemma {:induction false} BlocksMonotonic(a: nat, b: nat, size: nat)
    requires a <= b
    ensures Blocks(a, size) <= Blocks(b, size)
  {
    if a < b {
      BlocksMonotonic(a, b - 1, size);
    }
  }

  /** With non-empty blocks, fewer blocks cover strictly fewer cells, and conversely. */
  lemma BlocksOrder(a: nat, b: nat, size: nat)
    requires size > 0
    ensures a < b <==> Blocks(a, size) < Blocks(b, size)
  {
    if a < b {
      BlocksMonotonic(a, b - 1, size);
    } else {
      BlocksMonotonic(b, a, size);
    }
  }

  /** The block that starts at Blocks(m, size) is block number m. */
  lemma BlocksDivide(m: nat, size: nat)
    requires size > 0
    ensures Blocks(m, size) / size == m
  {
    BlocksIsProduct(m, size);
    MulDivCancel(m, size);
  }

  lemma MulDivCancel(m: int, p: int)
    requires p > 0
    ensures (m * p) / p == m && (m * p) % p == 0
  {
    DivModUnique(m * p, p, m, 0);
  }

  lemma DivNonNegative(x: int, d: int)
    requires x >= 0 && d > 0
    ensures x / d >= 0
  {
    assert x == (x / d) * d + x % d;
    MulSign(x / d, d);
  }

  /** `x >> k` for a non-negative `x`: division by 2^k. */
  function Shr(x: nat, k: nat): nat
  {
    DivNonNegative(x, Pow2(k));
    x / Pow2(k)
  }

  /** `x << k`: multiplication by 2^k. */
  function Shl(x: nat, k: nat): nat
  {
    MulNonNegative(x, Pow2(k));
    x * Pow2(k)
  }

  /** Euclidean division by 2*q, computed by halving first and then dividing by q. */
  lemma HalveFirst(x: nat, q: nat)
    requires q > 0
    ensures x / (2 * q) == (x / 2) / q && x % (2 * q) == 2 * ((x / 2) % q) + x % 2
  {
    var h := x / 2;
    assert x == 2 * h + x % 2;
    assert h == (h / q) * q + h % q;
    assert x == (h / q) * (2 * q) + (2 * (h % q) + x % 2);
    DivModUnique(x, 2 * q, h / q, 2 * (h % q) + x % 2);
  }

  lemma DivHalveFirst(x: nat, q: nat)
    requires q > 0
    ensures x / (2 * q) == (x / 2) / q
  {
    HalveFirst(x, q);
  }

  lemma ModHalveFirst(x: nat, q: nat)
    requires q > 0
    ensures x % (2 * q) == 2 * ((x / 2) % q) + x % 2
  {
    HalveFirst(x, q);
  }

  /** Euclidean division by 2*q, computed by dividing by q first and then halving. */
  lemma HalveLast(x: nat, q: nat)
    requires q > 0
    ensures x / (2 * q) == (x / q) / 2 && x % (2 * q) == x % q + ((x / q) % 2) * q
  {
    var d := x / q;
    assert x == d * q + x % q;
    assert d == 2 * (d / 2) + d % 2;
    assert x == (d / 2) * (2 * q) + ((d % 2) * q + x % q);
    DivModUnique(x, 2 * q, d / 2, (d % 2) * q + x % q);
  }

  lemma DivHalveLast(x: nat, q: nat)
    requires q > 0
    ensures x / (2 * q) == (x / q) / 2
  {
    HalveLast(x, q);
  }

  lemma ModHalveLast(x: nat, q: nat)
    requires q > 0
    ensures x % (2 * q) == x % q + ((x / q) % 2) * q
  {
    HalveLast(x, q);
  }

  /** Shifting right by k + 1 is shifting the halved value right by k. */
  lemma ShrHalveFirst(x: nat, k: nat)
    ensures Shr(x, k + 1) == Shr(x / 2, k)
  {
    DivHalveFirst(x, Pow2(k));
  }

  /** Shifting right by k + 1 is shifting right by k and then halving. */
  lemma ShrHalveLast(x: nat, k: nat)
    ensures Shr(x, k + 1) == Shr(x, k) / 2
  {
    DivHalveLast(x, Pow2(k));
  }

  /** The low k + 1 bits of x are its low k bits plus bit k. */
  lemma ModPow2Last(x: nat, k: nat)
    ensures x % Pow2(k + 1) == x % Pow2(k) + (if Shr(x, k) % 2 == 1 then Pow2(k) else 0)
  {
    var q := Pow2(k);
    ModHalveLast(x, q);
    assert x % (2 * q) == x % q + ((x / q) % 2) * q;
  }

  /** The low k + 1 bits of x, halved, are the low k bits of x / 2; their parity is that of x. */
  lemma ModPow2First(x: nat, k: nat)
    ensures (x % Pow2(k + 1)) % 2 == x % 2
    ensures (x % Pow2(k + 1)) / 2 == (x / 2) % Pow2(k)
  {
    var q := Pow2(k);
    ModHalveFirst(x, q);
    var z := x % (2 * q);
    DivModUnique(z, 2, (x / 2) % q, x % 2);
  }

  /** 2^w >> b == 2^(w-b), and 2^w == 2^b * 2^(w-b). */
  lemma Pow2Shift(w: nat, b: nat)
    requires b <= w
    ensures Pow2(w) == Pow2(b) * Pow2(w - b)
    ensures Pow2(w) / Pow2(b) == Pow2(w - b)
  {
    Pow2Add(b, w - b);
    assert Pow2(w) == Pow2(w - b) * Pow2(b);
    MulDivCancel(Pow2(w - b), Pow2(b));
  }

  /** The widths fft.c works with: 2^12 == 4096, 2^15 == 32768, 2^16 == 65536. */
  lemma Pow2Values()
    ensures Pow2(12) == 4096 && Pow2(15) == 0x8000 && Pow2(16) == 0x1_0000
  {
    assert Pow2(2) == 4;
    Pow2Add(2, 2);
    Pow2Add(4, 4);
    Pow2Add(8, 4);
    Pow2Add(8, 8);
    assert Pow2(16) == 2 * Pow2(15);
  }
}
