/** Machine-word arithmetic used by the rings: powers of two, bitwise `&` with a
    mask, and the remainder facts that let 32-bit counters wrap. */
module Bits {

  const U32 := 0x1_0000_0000

  function Pow2(k: nat): (p: nat)
    ensures p >= 1
  {
    if k == 0 then 1 else 2 * Pow2(k - 1)
  }

  ghost predicate IsPow2(p: nat) {
    exists k: nat :: p == Pow2(k)
  }

  /** C's `a & b` on unsigned words, bit by bit. */
  function And(a: nat, b: nat): nat {
    if a == 0 || b == 0 then 0 else 2 * And(a / 2, b / 2) + (a % 2) * (b % 2)
  }

  /** Bit j of `a & b` is set exactly when it is set in a and in b. */
  lemma {:induction false} AndBits(a: nat, b: nat, j: nat)
    ensures Bit(And(a, b), j) <==> Bit(a, j) && Bit(b, j)
  {
    if a == 0 || b == 0 {
      NoBits(j);
    } else if j > 0 {
      AndBits(a / 2, b / 2, j - 1);
      Halves(And(a / 2, b / 2), a % 2 * (b % 2));
    } else {
      Halves(And(a / 2, b / 2), a % 2 * (b % 2));
    }
  }

  predicate Bit(a: nat, j: nat) {
    if j == 0 then a % 2 == 1 else Bit(a / 2, j - 1)
  }

  lemma {:induction false} NoBits(j: nat)
    ensures !Bit(0, j)
  {
    if j > 0 { NoBits(j - 1); }
  }

  lemma Halves(x: nat, r: nat)
    requires r < 2
    ensures (2 * x + r) / 2 == x && (2 * x + r) % 2 == r
  {}

  lemma ModUnique(a: int, m: int, q: int, r: int)
    requires 0 < m && 0 <= r < m && a == q * m + r
    ensures a / m == q && a % m == r
  {
    var d := q - a / m;
    MulSign(m, d);
    assert m * d == a % m - r by {
      assert a == m * (a / m) + a % m;
      assert m * d == m * q - m * (a / m);
    }
  }

  lemma MulSign(m: int, d: int)
    requires 0 < m
    ensures d >= 1 ==> m * d >= m
    ensures d <= -1 ==> m * d <= -m
  {}

  /** `x & (2^k - 1)` is the remainder by `2^k`: why a ring whose size is a power
      of two may index with a mask. */
  lemma {:induction false} AndMask(a: nat, k: nat)
    ensures And(a, Pow2(k) - 1) == Remainder(a, Pow2(k))
  {
    hide And, Remainder;
    if k == 0 {
      AndNothing(a);
    } else {
      AndMask(a / 2, k - 1);
      AndDouble(a, Pow2(k - 1));
    }
  }

  /** a % m, under a name that keeps it apart from other products. */
  function Remainder(a: nat, m: nat): nat
    requires m > 0
  {
    a % m
  }

  lemma AndNothing(a: nat)
    ensures And(a, 0) == Remainder(a, 1)
  {}

  lemma AndDouble(a: nat, m: nat)
    requires 0 < m && And(a / 2, m - 1) == Remainder(a / 2, m)
    ensures And(a, 2 * m - 1) == Remainder(a, 2 * m)
  {
    hide And;
    AndHalves(a, m);
    HalveMod(a, m);
  }

  lemma {:induction false} AndHalves(a: nat, m: nat)
    requires 0 < m
    ensures And(a, 2 * m - 1) == 2 * And(a / 2, m - 1) + a % 2
  {
    MaskHalves(m);
    assert And(0, m - 1) == 0;
  }

  lemma MaskHalves(m: nat)
    requires 0 < m
    ensures (2 * m - 1) / 2 == m - 1 && (2 * m - 1) % 2 == 1
  {}

  lemma HalveMod(a: nat, m: nat)
    requires 0 < m
    ensures a % (2 * m) == 2 * ((a / 2) % m) + a % 2
  {
    var q, r := (a / 2) / m, (a / 2) % m;
    assert a / 2 == q * m + r;
    assert q * (2 * m) == 2 * (q * m) by { MulAssoc(q, 2, m); }
    assert a == 2 * (a / 2) + a % 2;
    ModUnique(a, 2 * m, q, 2 * r + a % 2);
  }

  /** A shift by a multiple of the modulus does not change the remainder. */
  lemma ModShift(a: int, m: int, k: int)
    requires 0 < m
    ensures (a + k * m) % m == a % m
  {
    assert a == (a / m) * m + a % m;
    assert (a / m + k) * m == (a / m) * m + k * m;
    ModUnique(a + k * m, m, a / m + k, a % m);
  }

  lemma {:induction false} Pow2Split(j: nat, k: nat)
    requires j <= k
    ensures Pow2(k) == Pow2(j) * Pow2(k - j)
    decreases k
  {
    if j < k {
      Pow2Split(j, k - 1);
      assert Pow2(k - j) == 2 * Pow2(k - j - 1);
      assert Pow2(j) * (2 * Pow2(k - j - 1)) == 2 * (Pow2(j) * Pow2(k - j - 1));
    }
  }

  lemma {:induction false} Pow2Increases(j: nat, k: nat)
    requires j < k
    ensures Pow2(j) < Pow2(k)
    decreases k
  {
    if j < k - 1 { Pow2Increases(j, k - 1); }
  }

  lemma Pow2Of32()
    ensures Pow2(31) == 0x8000_0000 && Pow2(32) == U32
  {
    assert Pow2(8) == 256;
    Pow2Split(8, 16);
    Pow2Split(16, 32);
    assert Pow2(32) == 2 * Pow2(31);
  }

  /** Wrapping a counter at 2^32 before reducing it by a ring size that divides
      2^32 gives the same slot as reducing the unbounded counter. */
  lemma WrapThenMod(a: nat, k: nat)
    requires k <= 32
    ensures (a % U32) % Pow2(k) == a % Pow2(k)
  {
    Pow2Of32();
    Pow2Split(k, 32);
    ModOfMod(a, Pow2(k), Pow2(32 - k));
  }

  lemma ModOfMod(a: nat, m: nat, n: nat)
    requires 0 < m && 0 < n && 0 < m * n
    ensures (a % (m * n)) % m == a % m
  {
    var w, q := a % (m * n), a / (m * n);
    assert a == q * (m * n) + w;
    MulAssoc(q, n, m);
    ModShift(w, m, q * n);
  }

  lemma MulAssoc(a: int, b: int, c: int)
    ensures a * (b * c) == (a * b) * c
  {}

  /** Unsigned 32-bit subtraction recovers the distance between two counters
      that are less than 2^32 apart, wherever they wrap. */
  lemma WrapDifference(h: nat, t: nat)
    requires t <= h < t + U32
    ensures (h % U32 - t % U32) % U32 == h - t
  {
    var a, b := h / U32, t / U32;
    assert h % U32 - t % U32 == (h - t) + (b - a) * U32;
    ModShift(h - t, U32, b - a);
    ModUnique(h - t, U32, 0, h - t);
  }

  /** Two positions closer than the ring size fall on different slots. */
  lemma DistinctSlots(i: int, j: int, m: int)
    requires 0 < m && i < j < i + m
    ensures i % m != j % m
  {
    if i % m == j % m {
      assert i == m * (i / m) + i % m;
      assert j == m * (j / m) + j % m;
      assert j - i == m * (j / m - i / m);
      MulSign(m, j / m - i / m);
    }
  }
}
