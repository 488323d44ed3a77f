/** Powers of two. */
module Powers {

  function Pow2(n: nat): (p: nat)
    ensures p > 0
  {
    if n == 0 then 1 else 2 * Pow2(n - 1)
  }

  lemma Pow2Step(n: nat)
    requires n > 0
    ensures Pow2(n) == 2 * Pow2(n - 1)
  {
  }

  lemma {:induction false} Pow2Monotone(a: nat, b: nat)
    requires a <= b
    ensures Pow2(a) <= Pow2(b)
    ensures a < b ==> 2 * Pow2(a) <= Pow2(b)
    decreases b
  {
    if a < b {
      Pow2Monotone(a, b - 1);
    }
  }

  /** The least k with n <= 2^k. */
  function Depth(n: nat): (k: nat)
    requires n > 0
    ensures n <= Pow2(k)
    ensures k > 0 ==> Pow2(k - 1) < n
  {
    if n == 1 then 0 else 1 + Depth((n + 1) / 2)
  }

  /** The largest k with 2^k <= n. */
  function Log2(n: nat): (k: nat)
    requires n > 0
    ensures Pow2(k) <= n < 2 * Pow2(k)
  {
    if n == 1 then 0 else 1 + Log2(n / 2)
  }

  lemma DepthIs(n: nat, k: nat)
    requires 0 < n <= Pow2(k) && (k > 0 ==> Pow2(k - 1) < n)
    ensures Depth(n) == k
  {
    var d := Depth(n);
    if d < k {
      Pow2Monotone(d, k - 1);
    } else if k < d {
      Pow2Monotone(k, d - 1);
    }
  }

  lemma Log2Is(n: nat, k: nat)
    requires Pow2(k) <= n < 2 * Pow2(k)
    ensures Log2(n) == k
  {
    var d := Log2(n);
    if d < k {
      Pow2Monotone(d, k);
    } else if k < d {
      Pow2Monotone(k, d);
    }
  }
}
