/** Facts about products and remainders that the solver does not find by itself. */
module Arithmetic {

  lemma MulStep(a: nat, k: nat)
    ensures a * (k + 1) == a * k + a
  {
  }

  lemma MulMonotone(a: nat, i: nat, k: nat)
    requires i <= k
    ensures a * i <= a * k
  {
  }

  /** Adding a multiple of the modulus does not change a remainder. */
  lemma ModShift(x: int, k: int, n: nat)
    requires n > 0
    ensures (x + k * n) % n == x % n
  {
    var q := x / n;
    assert x + k * n == (q + k) * n + x % n;
    ModUnique(x + k * n, q + k, x % n, n);
  }

  lemma ModUnique(x: int, q: int, r: nat, n: nat)
    requires r < n && x == q * n + r
    ensures x % n == r
  {
    var d := x / n - q;
    assert n * d == r - x % n;
    if d > 0 {
      MulMonotone(n, 1, d);
    } else if d < 0 {
      MulMonotone(n, 1, -d);
    }
  }
}
