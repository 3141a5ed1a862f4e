/** The masks and shifts with which caches and the instruction window cut addresses into blocks. */
module BlockBits {
  import opened Arith
  import opened Bits
  import CacheSets
  import Window

  /** The lowest `k` bits masked away. */
  function Cleared(a: nat, k: nat): (r: nat) {
    Shl(Shr(a, k), k)
  }

  lemma ClearedIsMultiple(a: nat, k: nat)
    ensures Cleared(a, k) == (a / Pow2(k)) * Pow2(k)
  {
    ShiftIsQuotient(a, k);
    ShlIsProduct(Shr(a, k), k);
  }

  /** Two shifts in a row shift by the sum. */
  lemma {:induction false} ShrTwice(a: nat, j: nat, k: nat)
    ensures Shr(Shr(a, j), k) == Shr(a, j + k)
    decreases j
  {
    if j == 0 {
    } else {
      ShrTwice(a / 2, j - 1, k);
    }
  }

  /** Index, tag and aligned address of a cache with power-of-two sizes are these bits of the address. */
  lemma CacheIndexBits(g: CacheSets.Geometry, offset: nat, setBits: nat, addr: nat)
    requires g.Valid() && g.block == Pow2(offset) && g.sets == Pow2(setBits)
    ensures CacheSets.Index(g, addr) == And(Shr(addr, offset), Pow2(setBits) - 1)
    ensures CacheSets.Tag(g, addr) == Shr(addr, offset + setBits)
    ensures CacheSets.Align(g, addr) == Cleared(addr, offset)
  {
    ShiftIsQuotient(addr, offset);
    ShiftIsQuotient(Shr(addr, offset), setBits);
    MaskIsLow(Shr(addr, offset), setBits);
    ShrTwice(addr, offset, setBits);
    ClearedIsMultiple(addr, offset);
  }

  /** Masking the block offset away compares the blocks of two addresses. */
  lemma WindowMask(a: nat, b: nat, bits: nat)
    ensures Window.SameBlock(a, b, bits) <==> Cleared(a, bits) == Cleared(b, bits)
  {
    ClearedIsMultiple(a, bits);
    ClearedIsMultiple(b, bits);
    SameMultiple(a / Pow2(bits), b / Pow2(bits), Pow2(bits));
  }

  lemma SameMultiple(p: nat, q: nat, k: nat)
    requires 0 < k
    ensures p * k == q * k <==> p == q
  {
    Ordered(p, q, k);
    Ordered(q, p, k);
  }
}
