/** Powers of two and trailing zeros, as the CTZ skip list uses them. */
module CtzBits {
  import opened Arith
  import opened CtzIndex

  /** Number of bits needed to write `n`. */
  function BitLen(n: nat): nat {
    if n == 0 then 0 else 1 + BitLen(n / 2)
  }

  /** lfs_npw2: the exponent of the smallest power of two that is at least `a`. */
  function Npw2(a: nat): nat
    requires a > 0
  {
    BitLen(a - 1)
  }

  lemma {:induction false} BitLenBounds(n: nat)
    requires n > 0
    ensures BitLen(n) > 0 && Pow2(BitLen(n) - 1) <= n < Pow2(BitLen(n))
  {
    if n > 1 {
      BitLenBounds(n / 2);
    }
  }

  lemma {:induction false} BitLenUnique(n: nat, k: nat)
    requires Pow2(k) <= n < Pow2(k + 1)
    ensures BitLen(n) == k + 1
    decreases k
  {
    if k > 0 {
      BitLenUnique(n / 2, k - 1);
    }
  }

  lemma {:induction false} BitLenMonotone(m: nat, n: nat)
    requires m <= n
    ensures BitLen(m) <= BitLen(n)
  {
    if m > 0 {
      BitLenMonotone(m / 2, n / 2);
    }
  }

  lemma {:induction false} BitLenBelow(m: nat, k: nat)
    requires m < Pow2(k)
    ensures BitLen(m) <= k
  {
    if m > 0 {
      BitLenBelow(m / 2, k - 1);
    }
  }

  /** A block whose index has `c` trailing zeros is at least 2^c blocks from the front. */
  lemma {:induction false} CtzReach(n: nat, k: nat)
    requires n > 0 && k <= Ctz(n)
    ensures Pow2(k) <= n
  {
    if k > 0 {
      CtzReach(n / 2, k - 1);
    }
  }

  /** Following a pointer that is not the longest one lands on a block with exactly that many zeros. */
  lemma {:induction false} CtzAfterShort(n: nat, k: nat)
    requires n > 0 && k < Ctz(n)
    ensures Pow2(k) < n && Ctz(n - Pow2(k)) == k
  {
    CtzReach(n, k + 1);
    if k > 0 {
      CtzAfterShort(n / 2, k - 1);
      assert (n - Pow2(k)) / 2 == n / 2 - Pow2(k - 1);
    }
  }

  /** Following the longest pointer lands on the first block or on one with more zeros. */
  lemma {:induction false} CtzAfterLongest(n: nat)
    requires n > 0
    ensures Pow2(Ctz(n)) <= n
    ensures Pow2(Ctz(n)) < n ==> Ctz(n - Pow2(Ctz(n))) > Ctz(n)
  {
    CtzReach(n, Ctz(n));
    if n % 2 == 0 {
      CtzAfterLongest(n / 2);
      assert (n - Pow2(Ctz(n))) / 2 == n / 2 - Pow2(Ctz(n / 2));
    }
  }

  lemma HalvesCompose(n: nat, p: nat)
    requires p > 0
    ensures n / 2 / p == n / (2 * p)
  {
    var q := n / (2 * p);
    assert 2 * p * q <= n < 2 * p * q + 2 * p;
    assert p * q <= n / 2 < p * (q + 1);
    DivBounds(n / 2, p, q);
  }

  lemma {:induction false} BitLenShift(n: nat, s: nat)
    requires n >= Pow2(s)
    ensures BitLen(n) == s + BitLen(n / Pow2(s)) && n / Pow2(s) > 0
  {
    if s > 0 {
      BitLenShift(n / 2, s - 1);
      HalvesCompose(n, Pow2(s - 1));
    }
  }

  /** Bitwise or. */
  function Or(a: nat, b: nat): nat {
    if a == 0 && b == 0 then 0 else 2 * Or(a / 2, b / 2) + if a % 2 == 1 || b % 2 == 1 then 1 else 0
  }

  /** Or of numbers without a common bit is their sum. */
  lemma {:induction false} OrAdds(r: nat, s: nat, k: nat)
    requires r % Pow2(k) == 0 && s < Pow2(k)
    ensures Or(r, s) == r + s
    decreases k, r
  {
    if k == 0 {
      OrZero(r);
    } else if r != 0 || s != 0 {
      var half := Pow2(k - 1);
      var q := r / Pow2(k);
      assert r == Pow2(k) * q == 2 * (half * q);
      assert r / 2 == half * q && r % 2 == 0;
      Multiple(half, q);
      OrAdds(r / 2, s / 2, k - 1);
    }
  }

  lemma {:induction false} OrZero(r: nat)
    ensures Or(r, 0) == r
  {
    if r > 0 {
      OrZero(r / 2);
    }
  }

  lemma Multiple(p: nat, q: nat)
    requires p > 0
    ensures p * q % p == 0
  {
    ModMultiple(0, q, p);
  }

  /** One line of the portable lfs_npw2: `s = (a > max) << k; a >>= s; r |= s`, where max is
      2^(2^k) - 1. The bits of r below 2^(k + 1) are still clear. */
  method ShiftDown(a: nat, r: nat, k: nat) returns (a': nat, r': nat)
    requires 0 < a < Pow2(2 * Pow2(k)) && r % Pow2(k + 1) == 0
    ensures 0 < a' < Pow2(Pow2(k)) && r' + BitLen(a') == r + BitLen(a) && r' % Pow2(k) == 0
  {
    hide Pow2, BitLen, Or;
    var width := Pow2(k);
    HigherMultiple(r, k);
    var s := 0;
    if a > Pow2(width) - 1 {
      s := width;
      BitLenShift(a, width);
      Pow2Sum(width, width);
      QuotientBelow(a, Pow2(width));
    }
    OrAdds(r, s, k + 1);
    ShiftZero(a);
    a', r' := a / Pow2(s), Or(r, s);
  }

  lemma ShiftZero(a: nat)
    ensures a / Pow2(0) == a
  {
  }

  /** What is a multiple of 2^(k + 1) is one of 2^k, and so is the sum with 2^k. */
  lemma HigherMultiple(r: nat, k: nat)
    requires r % Pow2(k + 1) == 0
    ensures r % Pow2(k) == 0 && (r + Pow2(k)) % Pow2(k) == 0 && Pow2(k) < Pow2(k + 1)
  {
    var p, q := Pow2(k), r / Pow2(k + 1);
    assert r == 2 * p * q == p * (2 * q);
    Multiple(p, 2 * q);
    assert r + p == p * (2 * q + 1);
    Multiple(p, 2 * q + 1);
  }

  lemma QuotientBelow(x: nat, p: nat)
    requires p > 0 && x < p * p
    ensures x / p < p
  {
    var q := x / p;
    assert p * q <= x;
    assert q >= p ==> p * q >= p * p;
  }

  lemma {:induction false} Pow2Sum(a: nat, b: nat)
    ensures Pow2(a + b) == Pow2(a) * Pow2(b)
  {
    if a > 0 {
      Pow2Sum(a - 1, b);
    }
  }

  /** The portable form of lfs_npw2 agrees with the intrinsic for every 32-bit argument above 1. */
  method PortableNpw2(a0: nat) returns (r: nat)
    requires 2 <= a0 && a0 - 1 < Pow2(32)
    ensures r == Npw2(a0)
  {
    hide Pow2, BitLen, Or;
    SmallPowers();
    var a := a0 - 1;
    r := 0;
    a, r := ShiftDown(a, r, 4);
    a, r := ShiftDown(a, r, 3);
    a, r := ShiftDown(a, r, 2);
    a, r := ShiftDown(a, r, 1);
    TwoBits(a);
    OrAdds(r, a / 2, 1);
    r := Or(r, a / 2) + 1;
  }

  lemma SmallPowers()
    ensures Pow2(0) == 1 && Pow2(1) == 2 && Pow2(2) == 4 && Pow2(3) == 8 && Pow2(4) == 16 && Pow2(5) == 32
  {
  }

  lemma TwoBits(a: nat)
    requires 0 < a < Pow2(2)
    ensures BitLen(a) == a / 2 + 1
  {
  }
}
