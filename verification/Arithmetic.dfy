/** Facts about quotients and remainders by a variable divisor. */
module Arithmetic {

  lemma MulAtLeast(d: int, n: nat)
    ensures d >= 1 ==> d * n >= n
    ensures d <= -1 ==> d * n + n <= 0
  {
    if d >= 1 {
      assert d * n == (d - 1) * n + n;
    } else if d <= -1 {
      assert d * n == (d + 1) * n - n;
    }
  }

  lemma Distribute(a: int, b: int, n: int)
    ensures (a - b) * n == a * n - b * n
    ensures (a + b) * n == a * n + b * n
  {
  }

  lemma Euclid(x: int, n: nat)
    requires n > 0
    ensures x == (x / n) * n + x % n && 0 <= x % n < n
  {
  }

  /** The quotient and the remainder are determined by their defining equation. */
  lemma DivideUnique(x: int, k: int, r: nat, n: nat)
    requires r < n && x == k * n + r
    ensures x / n == k && x % n == r
  {
    var q := x / n;
    var m := x % n;
    Euclid(x, n);
    Distribute(k, q, n);
    MulAtLeast(k - q, n);
  }

  /** Two numbers less than `n` apart with the same remainder are equal. */
  lemma SameRemainder(p: int, q: int, n: nat)
    requires n > 0 && p <= q < p + n && p % n == q % n
    ensures p == q
  {
    Euclid(p, n);
    Euclid(q, n);
    Distribute(q / n, p / n, n);
    MulAtLeast(q / n - p / n, n);
  }

  lemma AddMultiple(x: int, k: int, n: nat)
    requires n > 0
    ensures (x + k * n) % n == x % n
  {
    Euclid(x, n);
    Distribute(x / n, k, n);
    DivideUnique(x + k * n, x / n + k, x % n, n);
  }

  lemma NextRemainder(p: int, n: nat)
    requires n >= 2
    ensures (p + 1) % n == if p % n == n - 1 then 0 else p % n + 1
  {
    Euclid(p, n);
    if p % n == n - 1 {
      Distribute(p / n, 1, n);
      DivideUnique(p + 1, p / n + 1, 0, n);
    } else {
      DivideUnique(p + 1, p / n, p % n + 1, n);
    }
  }
}
