/** Multiples of a bundle size. */
module Multiples {
  lemma AtLeastOnce(d: int, n: int)
    requires 0 < n
    ensures 1 <= d ==> n <= d * n
    ensures d <= -1 ==> d * n <= -n
  {
    if 1 <= d {
      assert d * n == n + (d - 1) * n;
    } else if d <= -1 {
      assert d * n == -n + (d + 1) * n;
    }
  }

  lemma DivUnique(x: int, q: int, r: int, n: int)
    requires 0 < n && x == q * n + r && 0 <= r < n
    ensures x / n == q && x % n == r
  {
    var d := x / n - q;
    assert x == (x / n) * n + x % n;
    assert d * n == (x / n) * n - q * n;
    AtLeastOnce(d, n);
  }

  lemma NextMultiple(b: nat, n: nat)
    requires 0 < n
    ensures (b + n) % n == b % n && (b + n) / n == b / n + 1
  {
    assert b == (b / n) * n + b % n;
    assert (b / n + 1) * n == (b / n) * n + n;
    DivUnique(b + n, b / n + 1, b % n, n);
  }

  /** Within `n` steps no other number leaves the same remainder. */
  lemma SameResidue(b: nat, k: nat, n: nat)
    requires 0 < n && b <= k < b + n && b % n == k % n
    ensures k == b
  {
    assert b == (b / n) * n + b % n;
    assert k == (k / n) * n + k % n;
    AtLeastOnce(k / n - b / n, n);
    assert (k / n - b / n) * n == (k / n) * n - (b / n) * n;
  }

  /** No multiple lies strictly between two neighbouring multiples. */
  lemma BetweenMultiples(b: nat, x: nat, n: nat)
    requires 0 < n && b % n == 0 && x % n == 0 && b <= x < b + n
    ensures x == b
  {
    SameResidue(b, x, n);
  }

  /** The base of the bundle that `x` belongs to. */
  function ToBase(x: nat, n: nat): (b: nat)
    requires 0 < n
    ensures b % n == 0 && b <= x < b + n
  {
    DivUnique(x / n * n, x / n, 0, n);
    x / n * n
  }

  lemma PreviousMultiple(x: nat, n: nat)
    requires 0 < n <= x && x % n == 0
    ensures (x - n) % n == 0
  {
    NextMultiple(x - n, n);
  }
}
