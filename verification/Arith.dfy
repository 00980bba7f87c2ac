/** Division and remainder by a variable. */
module Arith {

  lemma MulMonotone(n: nat, a: nat, b: nat)
    requires a <= b
    ensures n * a <= n * b
  {
  }

  /** The quotient is the only factor whose multiple brackets the dividend. */
  lemma DivUnique(x: nat, n: nat, q: nat)
    requires n > 0 && n * q <= x < n * (q + 1)
    ensures x / n == q
  {
    var p := x / n;
    assert n * p <= x < n * (p + 1);
    if p < q {
      MulMonotone(n, p + 1, q);
    } else if q < p {
      MulMonotone(n, q + 1, p);
    }
  }

  lemma ModUnique(x: nat, n: nat, q: nat, r: nat)
    requires x == n * q + r && r < n
    ensures x % n == r
  {
    DivUnique(x, n, q);
  }

  lemma ModMultiple(x: nat, k: nat, n: nat)
    requires n > 0
    ensures (x + n * k) % n == x % n
  {
    var q, r := x / n, x % n;
    assert x + n * k == n * (q + k) + r;
    ModUnique(x + n * k, n, q + k, r);
  }

  lemma ModAdd(p: nat, o: nat, n: nat)
    requires n > 0
    ensures (p % n + o) % n == (p + o) % n
  {
    var k, r := p / n, p % n;
    assert p + o == r + o + n * k;
    ModMultiple(r + o, k, n);
  }

  /** Less than `n` apart, two different numbers have different remainders. */
  lemma ModDistinct(p: nat, q: nat, n: nat)
    requires n > 0 && p < q < p + n
    ensures p % n != q % n
  {
    var a, r := p / n, p % n;
    var d := q - p;
    assert p == n * a + r;
    if r + d < n {
      ModUnique(q, n, a, r + d);
    } else {
      assert q == n * (a + 1) + (r + d - n);
      ModUnique(q, n, a + 1, r + d - n);
    }
  }
}
