/** Facts about Euclidean remainder used by the rotating selection policies. */
module Modular {

  /** A quotient/remainder decomposition with the remainder in range is the one `/` and `%` give. */
  lemma DivModUnique(x: int, q: int, r: int, n: int)
    requires n > 0 && 0 <= r < n && x == q * n + r
    ensures x % n == r && x / n == q
  {
    var q', r' := x / n, x % n;
    assert x == q' * n + r';
    if q > q' {
      assert (q - q') * n >= n by { MulAtLeast(q - q', n); }
      assert false;
    } else if q < q' {
      assert (q' - q) * n >= n by { MulAtLeast(q' - q, n); }
      assert false;
    }
  }

  lemma MulAtLeast(k: int, n: int)
    requires k >= 1 && n > 0
    ensures k * n >= n
  {
  }

  /** Taking the remainder of a summand first does not change the remainder of the sum. */
  lemma ModAddLeft(a: int, b: int, n: int)
    requires n > 0
    ensures ((a % n) + b) % n == (a + b) % n
  {
    var q, r := (a + b) / n, (a + b) % n;
    assert a == (a / n) * n + a % n;
    assert (a % n) + b == (q - a / n) * n + r;
    DivModUnique((a % n) + b, q - a / n, r, n);
  }

  /**
   * Every index `idx` of a ring of size `n` is reached from `last` by a forward
   * distance in 1..n: the rotation `(last + k) % n` with k = 1..n visits all of them.
   */
  lemma RotationCovers(last: int, idx: int, n: int) returns (k: int)
    requires n > 0 && 0 <= idx < n
    ensures 1 <= k <= n && (last + k) % n == idx
  {
    var m := (idx - last - 1) % n;
    var q := (idx - last - 1) / n;
    assert idx - last - 1 == q * n + m;
    k := m + 1;
    assert last + k == (-q) * n + idx;
    DivModUnique(last + k, -q, idx, n);
  }
}
