/** The closed form that turns a position in a CTZ skip-list file into a block index and an offset in that block. */
module CtzIndex {

  /** Number of trailing zero bits. */
  function Ctz(n: nat): (c: nat)
    requires n > 0
    decreases n
  {
    if n % 2 == 1 then 0 else 1 + Ctz(n / 2)
  }

  /** Number of one bits. */
  function Popc(n: nat): nat {
    if n == 0 then 0 else n % 2 + Popc(n / 2)
  }

  function Pow2(k: nat): (p: nat)
    ensures p > 0
  {
    if k == 0 then 1 else 2 * Pow2(k - 1)
  }

  lemma {:induction false} PopcStep(n: nat)
    requires n > 0
    ensures Popc(n) + Ctz(n) == Popc(n - 1) + 1
    decreases n
  {
    if n % 2 == 0 {
      PopcStep(n / 2);
      assert (n - 1) / 2 == n / 2 - 1;
    } else {
      assert (n - 1) / 2 == n / 2;
    }
  }

  lemma {:induction false} PopcBound(n: nat, k: nat)
    requires n < Pow2(k)
    ensures Popc(n) <= k
    decreases k
  {
    if n > 0 {
      PopcBound(n / 2, k - 1);
    }
  }

  /** Pointers stored in blocks 1 to n: block i holds Ctz(i) + 1 of them. */
  function PointersUpTo(n: nat): nat {
    if n == 0 then 0 else PointersUpTo(n - 1) + Ctz(n) + 1
  }

  /** The identity behind the closed form. */
  lemma {:induction false} PointersClosedForm(n: nat)
    ensures PointersUpTo(n) + Popc(n) == 2 * n
  {
    if n > 0 {
      PointersClosedForm(n - 1);
      PopcStep(n);
    }
  }

  /** Bytes of pointers at the front of block `i`. */
  function Header(i: nat): nat {
    if i == 0 then 0 else 4 * (Ctz(i) + 1)
  }

  /** Position in the file of the first data byte of block `i`: the recursive layout. */
  function Start(blockSize: nat, i: nat): int {
    if i == 0 then 0 else Start(blockSize, i - 1) + blockSize - Header(i - 1)
  }

  lemma {:induction false} StartClosedForm(blockSize: nat, i: nat)
    requires i > 0
    ensures Start(blockSize, i) == (blockSize - 8) * i + 8 + 4 * Popc(i - 1)
  {
    if i > 1 {
      StartClosedForm(blockSize, i - 1);
      PopcStep(i - 1);
    }
  }

  /** `pos` is byte `off` of block `i`: the recursive layout's answer. */
  ghost predicate Located(blockSize: nat, pos: nat, i: nat, off: int) {
    Start(blockSize, i) <= pos < Start(blockSize, i + 1) && off == pos - Start(blockSize, i) + Header(i)
  }

  /** The largest file is 2^31 - 1 bytes, so block indexes have at most 25 bits. */
  const FILE_MAX := 0x7FFF_FFFF

  lemma SmallIndex(blockSize: nat, i: nat)
    requires blockSize >= 128 && (blockSize - 8) * i <= FILE_MAX
    ensures i < Pow2(25)
  {
    assert 120 * i <= (blockSize - 8) * i;
    assert Pow2(25) == 0x200_0000 by {
      assert Pow2(5) == 32;
      assert Pow2(10) == 1024;
      assert Pow2(15) == 32768;
      assert Pow2(20) == 1048576;
    }
  }

  lemma SmallPopc(blockSize: nat, i: nat)
    requires blockSize >= 128 && (blockSize - 8) * i <= FILE_MAX
    ensures Popc(i) <= 25
  {
    SmallIndex(blockSize, i);
    PopcBound(i, 25);
  }

  /** The estimate from the position alone is the true block or the one after it. */
  lemma EstimateOffByOne(blockSize: nat, pos: nat, n: nat)
    requires blockSize >= 128 && pos <= FILE_MAX && Start(blockSize, n) <= pos < Start(blockSize, n + 1)
    ensures n <= pos / (blockSize - 8) <= n + 1
    ensures 8 + 4 * Popc(n) <= blockSize - 8
  {
    var b := blockSize - 8;
    StartClosedForm(blockSize, n + 1);
    if n > 0 {
      StartClosedForm(blockSize, n);
    }
    assert b * n <= pos;
    SmallPopc(blockSize, n);
    DivBounds(pos, b, n);
  }

  lemma DivBounds(x: nat, b: nat, n: nat)
    requires b > 0 && b * n <= x < b * (n + 1) + b
    ensures n <= x / b <= n + 1
    ensures x < b * (n + 1) ==> x / b == n
  {
    var q := x / b;
    assert b * q <= x < b * q + b;
    assert q < n ==> b * (q + 1) <= b * n;
    assert q > n + 1 ==> b * (n + 2) <= b * q;
    assert q > n ==> b * (n + 1) <= b * q;
  }

  /** Some block holds every position. */
  lemma {:induction false} BlockExists(blockSize: nat, pos: nat, n: nat) returns (i: nat)
    requires blockSize >= 128 && pos < Start(blockSize, n)
    ensures Start(blockSize, i) <= pos < Start(blockSize, i + 1)
  {
    if n > 0 && pos < Start(blockSize, n - 1) {
      i := BlockExists(blockSize, pos, n - 1);
    } else {
      i := n - 1;
    }
  }

  /** The corrected estimate is the true block: `m` is the numerator of the second division. */
  lemma CorrectedEstimate(blockSize: nat, pos: nat, n: nat)
    requires blockSize >= 128 && pos <= FILE_MAX && Start(blockSize, n) <= pos < Start(blockSize, n + 1)
    requires pos / (blockSize - 8) > 0
    ensures
      var m := pos - 4 * (Popc(pos / (blockSize - 8) - 1) + 2);
      m >= 0 && m / (blockSize - 8) == n
  {
    hide Popc, Start;
    var b := blockSize - 8;
    EstimateOffByOne(blockSize, pos, n);
    StartClosedForm(blockSize, n + 1);
    var m := pos - 4 * (Popc(pos / b - 1) + 2);
    if pos / b == n {
      StartClosedForm(blockSize, n);
      assert pos < b * (n + 1);
    } else {
      assert b * (n + 1) <= pos;
    }
    assert b * n <= m < b * (n + 1);
    DivBounds(m, b, n);
  }

  lemma OffsetClosedForm(blockSize: nat, pos: nat, n: nat)
    requires blockSize >= 128
    ensures pos - Start(blockSize, n) + Header(n) == pos - (blockSize - 8) * n - 4 * Popc(n)
  {
    if n > 0 {
      hide Popc, Start, Ctz;
      StartClosedForm(blockSize, n);
      PopcStep(n);
    }
  }

  lemma TrueBlock(blockSize: nat, pos: nat) returns (n: nat)
    requires blockSize >= 128 && pos <= FILE_MAX
    ensures Start(blockSize, n) <= pos < Start(blockSize, n + 1)
  {
    hide Popc, Start;
    StartClosedForm(blockSize, pos + 1);
    assert pos + 1 <= (blockSize - 8) * (pos + 1);
    n := BlockExists(blockSize, pos, pos + 1);
  }

  /** lfs_ctz_index: the block index, and the offset in the block that replaces `*off`. */
  function Index(blockSize: nat, pos: nat): (r: (int, int))
    requires blockSize >= 128 && pos <= FILE_MAX
  {
    var b := blockSize - 8;
    var estimate := pos / b;
    if estimate == 0 then (0, pos)
    else
      var i := (pos - 4 * (Popc(estimate - 1) + 2)) / b;
      (i, pos - b * i - 4 * Popc(if i < 0 then 0 else i))
  }

  /** The closed form agrees with the recursive layout for every position of the largest file, no
      subtraction in it goes below zero, and the offset is past the block's own pointers. */
  lemma IndexLocates(blockSize: nat, pos: nat)
    requires blockSize >= 128 && pos <= FILE_MAX
    ensures var (i, off) := Index(blockSize, pos);
      && i >= 0 && Located(blockSize, pos, i, off) && Header(i) <= off < blockSize
    ensures pos / (blockSize - 8) > 0 ==> 4 * (Popc(pos / (blockSize - 8) - 1) + 2) <= pos
  {
    hide Popc;
    var n := TrueBlock(blockSize, pos);
    OffsetClosedForm(blockSize, pos, n);
    EstimateOffByOne(blockSize, pos, n);
    if pos / (blockSize - 8) > 0 {
      CorrectedEstimate(blockSize, pos, n);
    }
  }

  /** The layout gives a position one place only. */
  lemma LocatedUnique(blockSize: nat, pos: nat, i: nat, off: int, j: nat, off': int)
    requires blockSize >= 128 && pos <= FILE_MAX
    requires Located(blockSize, pos, i, off) && Located(blockSize, pos, j, off')
    ensures i == j && off == off'
  {
    var b := blockSize - 8;
    EstimateOffByOne(blockSize, pos, i);
    EstimateOffByOne(blockSize, pos, j);
  }
}
