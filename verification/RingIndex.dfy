/** Remainders, for the structures that address a fixed store with `index % size`. */
module RingIndex {
  lemma Distribute(n: int, a: int, b: int)
    ensures n * (a - b) == n * a - n * b
    ensures n * (a + b) == n * a + n * b
  {
  }

  lemma {:induction false} AtLeastOnce(n: nat, a: int)
    ensures a >= 1 ==> n * a >= n
    ensures a <= -1 ==> n * a <= 0 - n
  {
    Distribute(n, a, 1);
    Distribute(n, a, -1);
    if a >= 1 {
      NonNegative(n, a - 1);
    } else if a <= -1 {
      NonNegative(n, -1 - a);
      assert n * (-1 - a) == 0 - n - n * a;
    }
  }

  lemma NonNegative(n: nat, a: nat)
    ensures n * a >= 0
  {
  }

  /** Quotient and remainder are determined by the equation they satisfy. */
  lemma Unique(x: int, n: nat, q: int, r: int)
    requires 0 <= r < n && x == n * q + r
    ensures x % n == r && x / n == q
  {
    var q', r' := x / n, x % n;
    assert x == n * q' + r';
    Distribute(n, q, q');
    AtLeastOnce(n, q - q');
    assert q == q';
  }

  /** Two indices less than a full turn apart never share a slot. */
  lemma Apart(j: nat, d: nat, n: nat)
    requires 0 < d < n
    ensures j % n != (j + d) % n
  {
    if j % n == (j + d) % n {
      var a, b := j / n, (j + d) / n;
      assert j == n * a + j % n && j + d == n * b + j % n;
      Distribute(n, b, a);
      AtLeastOnce(n, b - a);
    }
  }

  lemma Next(j: nat, n: nat)
    requires 0 < n
    ensures (j % n + 1) % n == (j + 1) % n
  {
    var a, r := j / n, j % n;
    assert j == n * a + r;
    if r + 1 == n {
      Distribute(n, a, -1);
      Unique(j + 1, n, a + 1, 0);
      Unique(r + 1, n, 1, 0);
    } else {
      Unique(j + 1, n, a, r + 1);
      Unique(r + 1, n, 0, r + 1);
    }
  }

  lemma Turn(j: nat, n: nat)
    requires 0 < n
    ensures (j + n) % n == j % n
  {
    Distribute(n, j / n, 1);
    Unique(j + n, n, j / n + 1, j % n);
  }
}
