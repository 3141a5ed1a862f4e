/** Quotients and remainders by a variable divisor, and powers of two. */
module Arith {

  lemma {:induction false} Ordered(q: nat, p: nat, k: nat)
    ensures q < p ==> q * k + k <= p * k
    decreases p
  {
    if q < p {
      assert p * k == (p - 1) * k + k;
      Ordered(q, p - 1, k);
    }
  }

  /** A number has one quotient and one remainder. */
  lemma Unique(q: nat, m: nat, p: nat, n: nat, k: nat)
    requires m < k && n < k && q * k + m == p * k + n
    ensures q == p && m == n
  {
    Ordered(q, p, k);
    Ordered(p, q, k);
  }

  lemma Remainder(q: nat, m: nat, k: nat)
    requires m < k
    ensures (q * k + m) % k == m && (q * k + m) / k == q
  {
    var n := q * k + m;
    Unique(n / k, n % k, q, m, k);
  }

  lemma NextRemainder(n: nat, k: nat)
    requires 0 < k
    ensures (n % k + 1) % k == (n + 1) % k
  {
    var q, m := n / k, n % k;
    assert n == q * k + m;
    if m + 1 < k {
      Remainder(q, m + 1, k);
    } else {
      assert (q + 1) * k == q * k + k;
      Remainder(q + 1, 0, k);
    }
  }

  lemma SameRemainder(j: nat, k: nat, n: nat)
    requires 0 < n && j % n == k % n && j < k + n && k < j + n
    ensures j == k
  {
    Close(j / n, k / n, j % n, n);
  }

  lemma Close(q: nat, p: nat, m: nat, n: nat)
    requires q * n + m < p * n + m + n && p * n + m < q * n + m + n
    ensures q == p
  {
    Ordered(q, p, n);
    Ordered(p, q, n);
  }

  /** Place `j` steps on from `start`, going round `n` places. */
  function Spot(start: nat, j: nat, n: nat): (b: nat)
    requires 0 < n
    ensures b < n
  {
    (start + j) % n
  }

  lemma Wrap(start: nat, j: nat, n: nat)
    requires start < n && j <= n
    ensures Spot(start, j, n) == if start + j < n then start + j else start + j - n
  {
    if start + j < n {
      Remainder(0, start + j, n);
    } else {
      Remainder(1, start + j - n, n);
    }
  }

  /** `n` times `k`, by adding. */
  function Multiple(n: nat, k: nat): (r: nat) {
    if n == 0 then 0 else Multiple(n - 1, k) + k
  }

  lemma {:induction false} MultipleIsProduct(n: nat, k: nat)
    ensures Multiple(n, k) == n * k
    decreases n
  {
    if n == 0 {
    } else {
      MultipleIsProduct(n - 1, k);
      assert n * k == (n - 1) * k + k;
    }
  }

  function Pow2(k: nat): (r: nat)
    ensures 0 < r
  {
    if k == 0 then 1 else 2 * Pow2(k - 1)
  }

  /** How often a positive number can be halved. */
  function Log2(n: nat): (k: nat)
    requires 0 < n
    ensures Pow2(k) <= n < 2 * Pow2(k)
  {
    if n == 1 then 0 else 1 + Log2(n / 2)
  }
}
