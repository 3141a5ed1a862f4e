/** Link tokens: how many flits a return carries, and how many returns a backlog takes. */
module Tokens {
  import opened Arith

  /** The power of two of the highest set bit; zero for zero. */
  function LeftmostBit(n: nat): (r: nat)
    ensures n == 0 <==> r == 0
    ensures r <= n
  {
    if n == 0 then 0 else Pow2(Log2(n))
  }

  /** `leftmostbit`: counts how often the value can be halved, then shifts a one back. */
  method ShiftToTop(n: nat) returns (r: nat)
    ensures r == LeftmostBit(n)
  {
    if n == 0 {
      return 0;
    }
    var val, k := n, 0;
    while val / 2 != 0
      invariant 0 < val && Log2(n) == k + Log2(val)
      decreases val
    {
      val := val / 2;
      k := k + 1;
    }
    r := 1;
    for i := 0 to k
      invariant r == Pow2(i)
    {
      r := r * 2;
    }
  }

  /** The number of one bits. */
  function Ones(n: nat): (c: nat) {
    if n == 0 then 0 else n % 2 + Ones(n / 2)
  }

  /** How many returns it takes to hand back `n` tokens when none arrive meanwhile. */
  function Returns(n: nat): (c: nat) {
    if n == 0 then 0 else 1 + Returns(n - LeftmostBit(n))
  }

  lemma {:induction false} TopBitIsOne(n: nat)
    requires 0 < n
    ensures Ones(n - LeftmostBit(n)) == Ones(n) - 1
  {
    if n > 1 {
      var m := n - LeftmostBit(n);
      TopBitIsOne(n / 2);
      assert m / 2 == n / 2 - LeftmostBit(n / 2) && m % 2 == n % 2;
    }
  }

  /** Each return takes off the highest one bit, so draining takes exactly as many returns as there are one bits. */
  lemma {:induction false} DrainTakesOnes(n: nat)
    ensures Returns(n) == Ones(n)
  {
    if n != 0 {
      TopBitIsOne(n);
      DrainTakesOnes(n - LeftmostBit(n));
    }
  }
}
