/** Facts about `%` on integers that the carousel's wrap-around needs and the
    solver does not find unaided. Dafny's `%` with a positive modulus always
    yields 0 .. n-1, as JavaScript's `%` does on the non-negative operands
    the carousel gives it. */
module Modular {

  /** A positive multiple of a positive number is at least that number. */
  lemma MulAtLeast(k: int, n: int)
    requires k >= 1 && n > 0
    ensures k * n >= n
  {
  }

  /** Division with remainder is unique: any decomposition `q * n + r` with
      `0 <= r < n` gives the remainder. */
  lemma ModUnique(x: int, q: int, r: int, n: int)
    requires n > 0 && 0 <= r < n && x == q * n + r
    ensures x % n == r
  {
    var q', r' := x / n, x % n;
    assert x == q' * n + r';
    assert (q - q') * n == r' - r;
    if q > q' {
      MulAtLeast(q - q', n);
    } else if q < q' {
      MulAtLeast(q' - q, n);
    }
  }

  /** Reducing the left operand first does not change the remainder of a sum. */
  lemma ModAdd(x: int, y: int, n: int)
    requires n > 0
    ensures (x % n + y) % n == (x + y) % n
  {
    var q, r := x / n, x % n;
    assert x == q * n + r;
    var q2, r2 := (r + y) / n, (r + y) % n;
    assert r + y == q2 * n + r2;
    assert x + y == (q + q2) * n + r2;
    ModUnique(x + y, q + q2, r2, n);
  }

  /** A number in `0 .. n-1` is its own remainder. */
  lemma ModInRange(x: int, n: int)
    requires 0 <= x < n
    ensures x % n == x
  {
  }

  /** One modulus below `0 .. n-1` wraps back up. */
  lemma ModBelow(x: int, n: int)
    requires 0 <= x < n
    ensures (x - n) % n == x
  {
  }

  /** One modulus above `0 .. n-1` wraps back down. */
  lemma ModAbove(x: int, n: int)
    requires 0 <= x < n
    ensures (x + n) % n == x
  {
  }
}
