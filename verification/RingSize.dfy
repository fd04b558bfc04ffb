/** The size both rings are rounded up to (src/tt_ring.c). */
module RingSize {
  import opened Bits

  /** p is the least power of two that is at least v. */
  ghost predicate LeastPow2(p: nat, v: nat) {
    && IsPow2(p)
    && v <= p
    && forall q: nat :: IsPow2(q) && v <= q ==> p <= q
  }

  /** The doubling loop. `p <<= 1` is a 32-bit shift; with v <= 2^31 the
      doubled value never reaches 2^32, so nothing is lost. */
  method NextPow2(v: nat) returns (p: nat)
    requires v <= 0x8000_0000
    ensures LeastPow2(p, v)
    ensures 1 <= p <= 0x8000_0000
  {
    p := 1;
    ghost var k: nat := 0;
    Pow2Of32();
    while p < v
      invariant p == Pow2(k) && k <= 31
      invariant forall j: nat :: j < k ==> Pow2(j) < v
      decreases 31 - k
    {
      if k < 31 { Doubling(k); }
      p := (2 * p) % U32;
      k := k + 1;
    }
    if k < 31 { Pow2Increases(k, 31); }
    forall q: nat | IsPow2(q) && v <= q ensures p <= q {
      var j: nat :| q == Pow2(j);
      if k < j { Pow2Increases(k, j); }
    }
  }

  lemma Doubling(k: nat)
    requires k < 31
    ensures 2 * Pow2(k) % U32 == 2 * Pow2(k) == Pow2(k + 1)
  {
    Pow2Of32();
    Pow2Increases(k, 31);
    ModUnique(2 * Pow2(k), U32, 0, 2 * Pow2(k));
  }

  /** The value of `p` after j rounds of the 32-bit doubling. */
  function Doubled(j: nat): nat {
    Pow2(j) % U32
  }

  /** The loop of NextPow2 reaches its exit exactly for arguments up to 2^31:
      beyond that the shifted bit falls off and every later p is 0. */
  lemma DoublingReaches(v: nat)
    ensures (exists j: nat :: v <= Doubled(j)) <==> v <= 0x8000_0000
  {
    Pow2Of32();
    if v <= 0x8000_0000 {
      assert v <= Doubled(31);
    }
    forall j: nat ensures Doubled(j) <= 0x8000_0000 {
      if j < 31 {
        Pow2Increases(j, 31);
      } else if j >= 32 {
        Pow2Split(32, j);
        ModUnique(Pow2(j), U32, Pow2(j - 32), 0);
      }
    }
  }

  /** A least power of two no larger than 2^31 divides 2^32. */
  lemma SizeExponent(p: nat) returns (k: nat)
    requires IsPow2(p) && p <= 0x8000_0000
    ensures p == Pow2(k) && k <= 31
  {
    k :| p == Pow2(k);
    Pow2Of32();
    if k > 31 { Pow2Increases(31, k); }
  }
}
