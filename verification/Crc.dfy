/** The two CRC-32 routines: bit by bit over stored messages, and nibble by nibble in littlefs. */
module Crc {

  const POLYNOMIAL: bv32 := 0xEDB88320

  /** A byte, widened as C widens it before it is xored into the register. */
  type Octet = b: bv32 | b <= 0xFF

  function Xor(a: bv32, b: bv32): bv32 {
    a ^ b
  }

  lemma XorAssociative(a: bv32, b: bv32, c: bv32)
    ensures Xor(Xor(a, b), c) == Xor(a, Xor(b, c))
  {
  }

  lemma XorCommutative(a: bv32, b: bv32)
    ensures Xor(a, b) == Xor(b, a)
  {
  }

  lemma XorSelf(a: bv32)
    ensures Xor(a, a) == 0 && Xor(a, 0) == a
  {
  }

  function Shr1(a: bv32): bv32 {
    a >> 1
  }

  predicate Odd(a: bv32) {
    a & 1 == 1
  }

  function Shr4(a: bv32): bv32 {
    a >> 4
  }

  function Low4(a: bv32): bv32 {
    a & 0xF
  }

  /** One round of the inner loop of crc32_bytes: the mask is all ones when the low bit is set. */
  function BitStep(c: bv32): bv32 {
    Xor(Shr1(c), if Odd(c) then POLYNOMIAL else 0)
  }

  function FourSteps(c: bv32): bv32 {
    BitStep(BitStep(BitStep(BitStep(c))))
  }

  function ByteStep(c: bv32, d: Octet): bv32 {
    FourSteps(FourSteps(Xor(c, d)))
  }

  /** rtable of lfs_crc */
  function Table(i: bv32): bv32 {
    if i == 0 then 0x00000000 else if i == 1 then 0x1db71064 else if i == 2 then 0x3b6e20c8
    else if i == 3 then 0x26d930ac else if i == 4 then 0x76dc4190 else if i == 5 then 0x6b6b51f4
    else if i == 6 then 0x4db26158 else if i == 7 then 0x5005713c else if i == 8 then 0xedb88320
    else if i == 9 then 0xf00f9344 else if i == 10 then 0xd6d6a3e8 else if i == 11 then 0xcb61b38c
    else if i == 12 then 0x9b64c2b0 else if i == 13 then 0x86d3d2d4 else if i == 14 then 0xa00ae278 else 0xbdbdf21c
  }

  function NibbleStep(c: bv32, n: bv32): bv32 {
    Xor(Shr4(c), Table(Low4(Xor(c, n))))
  }

  /** The register after the bytes of `data`: the meaning of both loops. */
  function Fold(c: bv32, data: seq<Octet>): bv32 {
    if data == [] then c else ByteStep(Fold(c, data[..|data| - 1]), data[|data| - 1])
  }

  // The shift step is linear over xor, so four steps split into a shift and a table entry

  function EightRounds(c: bv32): bv32 {
    FourSteps(FourSteps(c))
  }

  lemma BitStepLinear(a: bv32, b: bv32)
    ensures BitStep(Xor(a, b)) == Xor(BitStep(a), BitStep(b))
  {
    Shr1Linear(a, b);
    OddLinear(a, b);
    hide Xor, Shr1, Odd;
    var p, q := if Odd(a) then POLYNOMIAL else 0, if Odd(b) then POLYNOMIAL else 0;
    XorInterchange(Shr1(a), p, Shr1(b), q);
    XorSelf(POLYNOMIAL);
    XorSelf(0);
    XorCommutative(0, POLYNOMIAL);
  }

  lemma Shr1Linear(a: bv32, b: bv32)
    ensures Shr1(Xor(a, b)) == Xor(Shr1(a), Shr1(b))
  {
  }

  lemma OddLinear(a: bv32, b: bv32)
    ensures Odd(Xor(a, b)) <==> Odd(a) != Odd(b)
  {
  }

  lemma XorInterchange(a: bv32, p: bv32, b: bv32, q: bv32)
    ensures Xor(Xor(a, p), Xor(b, q)) == Xor(Xor(a, b), Xor(p, q))
  {
    hide Xor;
    XorAssociative(Xor(a, p), b, q);
    XorSwap(a, p, b);
    XorAssociative(Xor(a, b), p, q);
  }

  lemma FourStepsLinear(a: bv32, b: bv32)
    ensures FourSteps(Xor(a, b)) == Xor(FourSteps(a), FourSteps(b))
  {
    hide BitStep, Xor;
    BitStepLinear(a, b);
    BitStepLinear(BitStep(a), BitStep(b));
    BitStepLinear(BitStep(BitStep(a)), BitStep(BitStep(b)));
    BitStepLinear(BitStep(BitStep(BitStep(a))), BitStep(BitStep(BitStep(b))));
  }

  lemma FourStepsUndo(w: bv32)
    requires w < 0x1000_0000
    ensures FourSteps(w << 4) == w
  {
  }

  lemma RoundsUndo(w: bv32)
    requires w < 0x100_0000
    ensures EightRounds(w << 8) == w
  {
    FourStepsUndo(w << 4);
    assert (w << 4) << 4 == w << 8;
    FourStepsUndo(w);
  }

  lemma RoundsLinear(a: bv32, b: bv32)
    ensures EightRounds(Xor(a, b)) == Xor(EightRounds(a), EightRounds(b))
  {
    hide FourSteps, Xor;
    FourStepsLinear(a, b);
    FourStepsLinear(FourSteps(a), FourSteps(b));
  }

  lemma RoundsInjective(a: bv32, b: bv32)
    ensures EightRounds(a) == EightRounds(b) <==> a == b
  {
    hide FourSteps;
    FourStepsInjective(FourSteps(a), FourSteps(b));
    FourStepsInjective(a, b);
  }

  lemma TableEntry(i: bv32)
    requires i < 16
    ensures Table(i) == FourSteps(i)
  {
  }

  lemma NibbleSplit(c: bv32)
    ensures c == Xor(Shr4(c) << 4, Low4(c)) && Shr4(c) < 0x1000_0000 && Low4(c) < 16
  {
  }

  lemma TableIsFourSteps(c: bv32)
    ensures FourSteps(c) == Xor(Shr4(c), Table(Low4(c)))
  {
    NibbleSplit(c);
    hide FourSteps, Table, Xor, Shr4, Low4;
    FourStepsLinear(Shr4(c) << 4, Low4(c));
    FourStepsUndo(Shr4(c));
    TableEntry(Low4(c));
  }

  lemma ShiftXor(c: bv32, d: bv32)
    ensures Shr4(Xor(c, d)) == Xor(Shr4(c), Shr4(d))
  {
  }

  lemma XorSwap(a: bv32, b: bv32, c: bv32)
    ensures Xor(Xor(a, b), c) == Xor(Xor(a, c), b)
  {
    hide Xor;
    XorAssociative(a, b, c);
    XorAssociative(a, c, b);
    XorCommutative(b, c);
  }

  lemma HighNibbleGone(n: bv32, d: Octet)
    ensures Shr4(Xor(n, Shr4(d))) == Shr4(n)
  {
  }

  /** Two table look-ups do what eight single-bit rounds do. */
  lemma NibblesAreByte(c: bv32, d: Octet)
    ensures NibbleStep(NibbleStep(c, d), Shr4(d)) == ByteStep(c, d)
  {
    hide FourSteps, Table, Xor, Shr4, Low4;
    TableIsFourSteps(Xor(c, d));
    ShiftXor(c, d);
    XorSwap(Shr4(c), Shr4(d), Table(Low4(Xor(c, d))));
    TableIsFourSteps(Xor(NibbleStep(c, d), Shr4(d)));
    HighNibbleGone(NibbleStep(c, d), d);
  }

  /** crc32_bytes */
  method Crc32Bytes(data: seq<Octet>) returns (crc: bv32)
    ensures crc == !Fold(0xFFFF_FFFF, data)
  {
    hide BitStep, FourSteps, Xor;
    crc := 0xFFFF_FFFF;
    for i := 0 to |data|
      invariant crc == Fold(0xFFFF_FFFF, data[..i])
    {
      ghost var before := crc;
      crc := Xor(crc, data[i]);
      for bit := 0 to 8
        invariant crc == Steps(Xor(before, data[i]), bit)
      {
        crc := BitStep(crc);
      }
      EightSteps(Xor(before, data[i]));
      assert data[..i + 1][..i] == data[..i];
    }
    assert data[..|data|] == data;
    crc := !crc;
  }

  ghost function Steps(c: bv32, n: nat): bv32 {
    if n == 0 then c else BitStep(Steps(c, n - 1))
  }

  lemma EightSteps(c: bv32)
    ensures Steps(c, 8) == FourSteps(FourSteps(c))
  {
    hide BitStep;
    assert Steps(c, 1) == BitStep(c);
    assert Steps(c, 3) == BitStep(BitStep(Steps(c, 1)));
    assert Steps(c, 5) == BitStep(BitStep(Steps(c, 3)));
    assert Steps(c, 7) == BitStep(BitStep(Steps(c, 5)));
  }

  /** lfs_crc */
  method LfsCrc(crc0: bv32, data: seq<Octet>) returns (crc: bv32)
    ensures crc == Fold(crc0, data)
  {
    hide ByteStep, NibbleStep, Shr4;
    crc := crc0;
    for i := 0 to |data|
      invariant crc == Fold(crc0, data[..i])
    {
      assert data[..i + 1][..i] == data[..i];
      NibblesAreByte(crc, data[i]);
      crc := NibbleStep(crc, data[i]);
      crc := NibbleStep(crc, Shr4(data[i]));
    }
    assert data[..|data|] == data;
  }

  /** The two routines agree: the stored checksum is the complement of littlefs's from all ones. */
  method Agree(data: seq<Octet>) returns (stored: bv32, littlefs: bv32)
    ensures stored == !littlefs && littlefs == Fold(0xFFFF_FFFF, data)
  {
    stored := Crc32Bytes(data);
    littlefs := LfsCrc(0xFFFF_FFFF, data);
  }

  // What the checksum of a stored message detects

  lemma BitStepInjective(a: bv32, b: bv32)
    ensures BitStep(a) == BitStep(b) <==> a == b
  {
  }

  lemma FourStepsInjective(a: bv32, b: bv32)
    ensures FourSteps(a) == FourSteps(b) <==> a == b
  {
    hide BitStep;
    BitStepInjective(a, b);
    BitStepInjective(BitStep(a), BitStep(b));
    BitStepInjective(BitStep(BitStep(a)), BitStep(BitStep(b)));
    BitStepInjective(BitStep(BitStep(BitStep(a))), BitStep(BitStep(BitStep(b))));
  }

  lemma ByteStepInjective(a: bv32, c: Octet, b: bv32, d: Octet)
    ensures ByteStep(a, c) == ByteStep(b, d) <==> Xor(a, c) == Xor(b, d)
  {
    hide FourSteps, Xor;
    FourStepsInjective(FourSteps(Xor(a, c)), FourSteps(Xor(b, d)));
    FourStepsInjective(Xor(a, c), Xor(b, d));
  }

  lemma XorCancels(a: bv32, b: bv32, d: bv32)
    ensures Xor(a, d) == Xor(b, d) <==> a == b
  {
  }

  /** Registers that differ stay different while the same bytes go through. */
  lemma {:induction false} DifferenceStays(a: bv32, b: bv32, data: seq<Octet>)
    ensures Fold(a, data) == Fold(b, data) <==> a == b
  {
    if data != [] {
      hide ByteStep, Xor;
      var n := |data| - 1;
      DifferenceStays(a, b, data[..n]);
      ByteStepInjective(Fold(a, data[..n]), data[n], Fold(b, data[..n]), data[n]);
      XorCancels(Fold(a, data[..n]), Fold(b, data[..n]), data[n]);
    }
  }

  lemma {:induction false} FoldAppend(c: bv32, xs: seq<Octet>, ys: seq<Octet>)
    ensures Fold(c, xs + ys) == Fold(Fold(c, xs), ys)
  {
    if ys == [] {
      assert xs + ys == xs;
    } else {
      hide ByteStep;
      var n := |ys| - 1;
      FoldAppend(c, xs, ys[..n]);
      assert (xs + ys)[..|xs + ys| - 1] == xs + ys[..n];
    }
  }

  lemma ByteStepRounds(c: bv32, d: Octet)
    ensures ByteStep(c, d) == EightRounds(Xor(c, d))
  {
  }

  /** Flipping any bits of one byte changes the checksum. */
  lemma OneByteDetected(c: bv32, xs: seq<Octet>, d: Octet, e: Octet, ys: seq<Octet>)
    requires d != e
    ensures Fold(c, xs + [d] + ys) != Fold(c, xs + [e] + ys)
  {
    hide ByteStep, Xor;
    FoldAppend(c, xs + [d], ys);
    FoldAppend(c, xs + [e], ys);
    assert (xs + [d])[..|xs|] == xs && (xs + [e])[..|xs|] == xs;
    var r := Fold(c, xs);
    ByteStepInjective(r, d, r, e);
    XorCancels(d, e, r);
    XorCommutative(r, d);
    XorCommutative(r, e);
    DifferenceStays(ByteStep(r, d), ByteStep(r, e), ys);
  }

  function Shl8(w: bv32): bv32 {
    w << 8
  }

  predicate Fits24(w: bv32) {
    w < 0x100_0000
  }

  predicate Fits16(w: bv32) {
    w < 0x1_0000
  }

  predicate Fits8(w: bv32) {
    w <= 0xFF
  }

  lemma RoundsUndoShl8(w: bv32)
    requires Fits24(w)
    ensures EightRounds(Shl8(w)) == w
  {
    RoundsUndo(w);
  }

  /** The difference of two registers after one more byte each, and what it says about the one before. */
  lemma DifferenceBack(a: bv32, p: Octet, b: bv32, q: Octet, w: bv32)
    requires Xor(Xor(EightRounds(a), p), Xor(EightRounds(b), q)) == w && Fits24(Xor(w, Xor(p, q)))
    ensures Xor(a, b) == Shl8(Xor(w, Xor(p, q)))
  {
    hide EightRounds, Xor, Shl8, Fits24;
    XorInterchange(EightRounds(a), p, EightRounds(b), q);
    RoundsLinear(a, b);
    var r, e := EightRounds(Xor(a, b)), Xor(p, q);
    XorAssociative(r, e, e);
    XorSelf(e);
    XorSelf(r);
    RoundsUndoShl8(Xor(w, e));
    RoundsInjective(Xor(a, b), Shl8(Xor(w, e)));
  }

  lemma OctetDifference(p: Octet, q: Octet)
    ensures Fits8(Xor(p, q)) && Fits24(Xor(p, q)) && (Xor(p, q) == 0 <==> p == q)
  {
  }

  lemma Stacked8(high: bv32, low: bv32)
    requires Fits8(high) && Fits8(low)
    ensures Fits16(Xor(Shl8(high), low)) && Fits24(Xor(Shl8(high), low))
    ensures Xor(Shl8(high), low) == 0 <==> high == 0 && low == 0
  {
  }

  lemma Stacked16(high: bv32, low: bv32)
    requires Fits16(high) && Fits8(low)
    ensures Fits24(Xor(Shl8(high), low)) && (Xor(Shl8(high), low) == 0 <==> high == 0 && low == 0)
  {
  }

  lemma TooBigForAnOctet(w: bv32)
    requires Fits24(w) && Fits8(Shl8(w))
    ensures w == 0 && Shl8(w) == 0
  {
  }

  lemma FoldFour(c: bv32, p: seq<Octet>)
    requires |p| == 4
    ensures Fold(c, p) == ByteStep(ByteStep(ByteStep(ByteStep(c, p[0]), p[1]), p[2]), p[3])
  {
    hide ByteStep;
    assert p[..3][..2] == p[..2] && p[..2][..1] == p[..1] && p[..1][..0] == [];
    assert Fold(c, p[..1]) == ByteStep(c, p[0]);
    assert Fold(c, p[..2]) == ByteStep(Fold(c, p[..1]), p[1]);
    assert Fold(c, p[..3]) == ByteStep(Fold(c, p[..2]), p[2]);
  }

  /** No two registers that differ can be brought together by three bytes: four bytes of difference
      `e0` to `e3` cancel only if all are zero. */
  lemma NothingCancels(a: bv32, b: bv32, p: seq<Octet>, q: seq<Octet>)
    requires |p| == |q| == 3 && Fits8(Xor(a, b))
    requires
      var a1, b1 := Xor(EightRounds(a), p[0]), Xor(EightRounds(b), q[0]);
      var a2, b2 := Xor(EightRounds(a1), p[1]), Xor(EightRounds(b1), q[1]);
      Xor(EightRounds(a2), p[2]) == Xor(EightRounds(b2), q[2])
    ensures Xor(a, b) == 0 && p == q
  {
    hide EightRounds, Xor, Shl8, Fits8, Fits16, Fits24;
    var a1, b1 := Xor(EightRounds(a), p[0]), Xor(EightRounds(b), q[0]);
    var a2, b2 := Xor(EightRounds(a1), p[1]), Xor(EightRounds(b1), q[1]);
    var e1, e2, e3 := Xor(p[0], q[0]), Xor(p[1], q[1]), Xor(p[2], q[2]);
    OctetDifference(p[0], q[0]);
    OctetDifference(p[1], q[1]);
    OctetDifference(p[2], q[2]);
    XorSelf(Xor(EightRounds(a2), p[2]));
    XorCommutative(0, e3);
    XorSelf(e3);
    DifferenceBack(a2, p[2], b2, q[2], 0);
    Stacked8(e3, e2);
    DifferenceBack(a1, p[1], b1, q[1], Shl8(e3));
    var f2 := Xor(Shl8(e3), e2);
    Stacked16(f2, e1);
    DifferenceBack(a, p[0], b, q[0], Shl8(f2));
    TooBigForAnOctet(Xor(Shl8(f2), e1));
  }

  lemma FourBytesInjective(c: bv32, p: seq<Octet>, q: seq<Octet>)
    requires |p| == |q| == 4 && Fold(c, p) == Fold(c, q)
    ensures p == q
  {
    hide ByteStep, EightRounds, Xor, Fold, Fits8;
    FoldFour(c, p);
    FoldFour(c, q);
    var a0, b0 := Xor(c, p[0]), Xor(c, q[0]);
    ByteStepRounds(c, p[0]);
    ByteStepRounds(c, q[0]);
    var a1, b1 := Xor(EightRounds(a0), p[1]), Xor(EightRounds(b0), q[1]);
    ByteStepRounds(EightRounds(a0), p[1]);
    ByteStepRounds(EightRounds(b0), q[1]);
    var a2, b2 := Xor(EightRounds(a1), p[2]), Xor(EightRounds(b1), q[2]);
    ByteStepRounds(EightRounds(a1), p[2]);
    ByteStepRounds(EightRounds(b1), q[2]);
    ByteStepInjective(EightRounds(a2), p[3], EightRounds(b2), q[3]);
    OctetDifference(p[0], q[0]);
    SameStart(c, p[0], q[0]);
    NothingCancels(a0, b0, p[1..], q[1..]);
    assert p == [p[0]] + p[1..] && q == [q[0]] + q[1..];
  }

  lemma SameStart(c: bv32, p: Octet, q: Octet)
    ensures Xor(Xor(c, p), Xor(c, q)) == Xor(p, q)
  {
    hide Xor;
    XorInterchange(c, p, c, q);
    XorSelf(c);
    XorCommutative(0, Xor(p, q));
    XorSelf(Xor(p, q));
  }

  /** Any damage confined to four neighbouring bytes changes the checksum, so the record is not accepted. */
  lemma BurstDetected(c: bv32, xs: seq<Octet>, p: seq<Octet>, q: seq<Octet>, ys: seq<Octet>)
    requires |p| == |q| == 4 && p != q
    ensures Fold(c, xs + p + ys) != Fold(c, xs + q + ys)
  {
    hide Fold;
    FoldAppend(c, xs + p, ys);
    FoldAppend(c, xs + q, ys);
    FoldAppend(c, xs, p);
    FoldAppend(c, xs, q);
    if Fold(Fold(c, xs), p) == Fold(Fold(c, xs), q) {
      FourBytesInjective(Fold(c, xs), p, q);
    }
    DifferenceStays(Fold(Fold(c, xs), p), Fold(Fold(c, xs), q), ys);
  }
}
