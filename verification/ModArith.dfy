/** Remainders by a variable modulus, kept away from the rest so that nonlinear terms stay out. */
module ModArith {

  lemma MulAtLeast(k: int, n: nat)
    requires k >= 1
    ensures k * n >= n
  {
  }

  lemma ModUnique(x: nat, q: int, r: nat, n: nat)
    requires n > 0 && r < n && x == q * n + r
    ensures x % n == r && x / n == q
  {
    var q', r' := x / n, x % n;
    assert x == q' * n + r';
    assert (q - q') * n == r' - r;
    if q > q' {
      MulAtLeast(q - q', n);
    } else if q < q' {
      assert (q' - q) * n == r - r';
      MulAtLeast(q' - q, n);
    }
  }

  /** Advancing a cyclic counter is advancing the number it counts. */
  lemma ModStep(x: nat, n: nat)
    requires n > 0
    ensures (x + 1) % n == if x % n == n - 1 then 0 else x % n + 1
    ensures (x % n + 1) % n == (x + 1) % n
  {
    var q, r := x / n, x % n;
    assert x == q * n + r;
    if r == n - 1 {
      assert x + 1 == (q + 1) * n + 0;
      ModUnique(x + 1, q + 1, 0, n);
      assert r + 1 == 1 * n + 0;
      ModUnique(r + 1, 1, 0, n);
    } else {
      ModUnique(x + 1, q, r + 1, n);
      assert r + 1 == 0 * n + (r + 1);
      ModUnique(r + 1, 0, r + 1, n);
    }
  }
}
