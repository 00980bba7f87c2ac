/** Bits of a byte buffer. */
module Bitmap {

  function Mask(i: nat): bv8
    requires i < 8
  {
    1 << i
  }

  predicate IsSet(buffer: seq<bv8>, off: nat)
    requires off < 8 * |buffer|
  {
    (buffer[off / 8] & Mask(off % 8)) != 0
  }

  function Set(buffer: seq<bv8>, off: nat): (r: seq<bv8>)
    requires off < 8 * |buffer|
    ensures |r| == |buffer|
  {
    buffer[off / 8 := buffer[off / 8] | Mask(off % 8)]
  }

  lemma MasksDisjoint(i: nat, k: nat)
    requires i < 8 && k < 8
    ensures (Mask(i) & Mask(k)) != 0 <==> i == k
  {
    if i == 0 {} else if i == 1 {} else if i == 2 {} else if i == 3 {}
    else if i == 4 {} else if i == 5 {} else if i == 6 {} else {}
  }

  lemma OrDistributes(b: bv8, m: bv8, n: bv8)
    ensures (b | m) & n == (b & n) | (m & n)
  {
  }

  /** Setting one bit leaves all others as they were. */
  lemma SetOne(buffer: seq<bv8>, off: nat, j: nat)
    requires off < 8 * |buffer| && j < 8 * |buffer|
    ensures IsSet(Set(buffer, off), j) <==> j == off || IsSet(buffer, j)
  {
    if j / 8 == off / 8 {
      OrDistributes(buffer[off / 8], Mask(off % 8), Mask(j % 8));
      MasksDisjoint(off % 8, j % 8);
    }
  }

  lemma ClearAll(buffer: seq<bv8>, j: nat)
    requires j < 8 * |buffer| && forall i :: 0 <= i < |buffer| ==> buffer[i] == 0
    ensures !IsSet(buffer, j)
  {
  }
}

/** The lookahead block allocator of littlefs. */
module LfsAlloc {
  import opened Arith
  import opened Bitmap
  import opened LfsCodes

  /** Block `b` of the device as seen from a position that only ever grows. */
  function At(position: nat, blockCount: nat): (b: nat)
    requires blockCount > 0
    ensures b < blockCount
  {
    position % blockCount
  }

  /** The window offset that lfs_alloc_lookahead computes for a block. */
  function Offset(block: nat, start: nat, blockCount: nat): (o: nat)
    requires block < blockCount && start < blockCount
    ensures o < blockCount
  {
    At(block + blockCount - start, blockCount)
  }

  lemma AtAdd(p: nat, o: nat, n: nat)
    requires n > 0
    ensures At(At(p, n) + o, n) == At(p + o, n)
  {
    ModAdd(p, o, n);
  }

  lemma AtBlock(block: nat, n: nat)
    requires block < n
    ensures At(block + n, n) == block
  {
    ModUnique(block + n, n, 1, block);
  }

  lemma OffsetHits(block: nat, origin: nat, n: nat)
    requires block < n
    ensures At(origin + Offset(block, At(origin, n), n), n) == block
  {
    hide At;
    var start := At(origin, n);
    AtAdd(origin, Offset(block, start, n), n);
    AtAdd(block + n - start, start, n);
    AtBlock(block, n);
  }

  /** It is the one offset of the window whose position is that block. */
  lemma OffsetAt(block: nat, origin: nat, o: nat, n: nat)
    requires block < n && o < n
    ensures Offset(block, At(origin, n), n) == o <==> At(origin + o, n) == block
  {
    hide Offset;
    OffsetHits(block, origin, n);
    var off := Offset(block, At(origin, n), n);
    if off < o {
      ModDistinct(origin + off, origin + o, n);
    } else if o < off {
      ModDistinct(origin + o, origin + off, n);
    }
  }

  /** Bit `o` of the window is set exactly when the block there is one of `used`. */
  ghost predicate Marked(buffer: seq<bv8>, size: nat, origin: nat, blockCount: nat, used: set<nat>) {
    && blockCount > 0 && size <= 8 * |buffer|
    && forall o :: 0 <= o < size ==> (IsSet(buffer, o) <==> At(origin + o, blockCount) in used)
  }

  lemma MarkOne(buffer: seq<bv8>, size: nat, origin: nat, n: nat, used: set<nat>, block: nat)
    requires Marked(buffer, size, origin, n, used) && size <= n && block < n
    ensures
      var off := Offset(block, At(origin, n), n);
      Marked(if off < size then Set(buffer, off) else buffer, size, origin, n, used + {block})
  {
    hide At, Offset, IsSet, Set;
    var off := Offset(block, At(origin, n), n);
    var buffer' := if off < size then Set(buffer, off) else buffer;
    forall o | 0 <= o < size
      ensures off == o <==> At(origin + o, n) == block
      ensures IsSet(buffer', o) <==> o == off || IsSet(buffer, o)
    {
      OffsetAt(block, origin, o, n);
      if off < size {
        SetOne(buffer, off, o);
      }
    }
  }

  lemma MarkNone(buffer: seq<bv8>, size: nat, origin: nat, n: nat)
    requires n > 0 && size <= 8 * |buffer| && forall i :: 0 <= i < |buffer| ==> buffer[i] == 0
    ensures Marked(buffer, size, origin, n, {})
  {
    hide At, IsSet;
    forall o | 0 <= o < size
      ensures !IsSet(buffer, o)
    {
      ClearAll(buffer, o);
    }
  }

  /** What has happened, in positions that only grow: the window starts at `origin`, everything from
      `base`, the last checkpoint, on has been looked at, and `handedAt` has been handed out since. The
      window was marked from `tree`, under the checkpoint `scanBase`; `recentAt` has been handed out since that one. */
  datatype History = History(
    base: nat, origin: nat, handedAt: seq<nat>, scanBase: nat, recentAt: set<nat>, tree: set<nat>, passed: set<nat>,
    scans: nat) {
    ghost predicate Sound(next: nat, blockCount: nat) {
      && blockCount > 0
      && base <= origin + next <= base + blockCount && scanBase <= origin
      && (forall i :: 0 <= i < |handedAt| ==> base <= handedAt[i] < origin + next)
      && (forall i, j :: 0 <= i < j < |handedAt| ==> handedAt[i] < handedAt[j])
      && (forall p <- recentAt :: scanBase <= p < origin + next)
      && forall p :: base <= p < origin + next ==> p in handedAt || At(p, blockCount) in passed
    }

    /** The blocks handed out since the checkpoint, in order. */
    ghost function Handed(blockCount: nat): (r: seq<nat>)
      requires blockCount > 0
      ensures |r| == |handedAt| && forall i :: 0 <= i < |r| ==> r[i] == At(handedAt[i], blockCount)
    {
      seq(|handedAt|, i requires 0 <= i < |handedAt| => At(handedAt[i], blockCount))
    }

    /** The blocks handed out since the checkpoint under which the window was marked. */
    ghost function Recent(blockCount: nat): (r: set<nat>)
      requires blockCount > 0
    {
      set p <- recentAt :: At(p, blockCount)
    }

    /** The block at the window's cursor is not one handed out since either checkpoint. */
    lemma CursorIsFresh(next: nat, blockCount: nat)
      requires Sound(next, blockCount) && origin + next < base + blockCount && origin + next < scanBase + blockCount
      ensures At(origin + next, blockCount) !in Handed(blockCount)
      ensures At(origin + next, blockCount) !in Recent(blockCount)
    {
      hide At;
      forall i | 0 <= i < |handedAt|
        ensures At(handedAt[i], blockCount) != At(origin + next, blockCount)
      {
        AtDistinct(handedAt[i], origin + next, blockCount);
      }
      forall p <- recentAt
        ensures At(p, blockCount) != At(origin + next, blockCount)
      {
        AtDistinct(p, origin + next, blockCount);
      }
    }

    /** No block is handed out twice between two checkpoints. */
    lemma HandedOnce(next: nat, blockCount: nat, i: nat, j: nat)
      requires Sound(next, blockCount) && i < j < |handedAt|
      ensures Handed(blockCount)[i] != Handed(blockCount)[j]
    {
      hide At;
      AtDistinct(handedAt[i], handedAt[j], blockCount);
    }

    ghost function HandOut(next: nat): History {
      this.(handedAt := handedAt + [origin + next], recentAt := recentAt + {origin + next})
    }

    ghost function PassOver(next: nat, blockCount: nat): History
      requires blockCount > 0
    {
      this.(passed := passed + {At(origin + next, blockCount)})
    }

    lemma Advance(next: nat, blockCount: nat)
      requires Sound(next, blockCount) && origin + next < base + blockCount
      ensures HandOut(next).Sound(next + 1, blockCount)
      ensures HandOut(next).Handed(blockCount) == Handed(blockCount) + [At(origin + next, blockCount)]
      ensures PassOver(next, blockCount).Sound(next + 1, blockCount)
      ensures PassOver(next, blockCount).Handed(blockCount) == Handed(blockCount)
    {
      hide At;
      assert forall p :: p in handedAt ==> p in handedAt + [origin + next];
      assert origin + next in handedAt + [origin + next];
    }

    /** Once `blockCount` positions have been looked at, every block has been. */
    lemma AllLookedAt(next: nat, blockCount: nat, b: nat)
      requires Sound(next, blockCount) && origin + next == base + blockCount && b < blockCount
      ensures b in Handed(blockCount) || b in passed
    {
      hide At;
      var p := base + Offset(b, At(base, blockCount), blockCount);
      OffsetAt(b, base, p - base, blockCount);
      if p in handedAt {
        var i :| 0 <= i < |handedAt| && handedAt[i] == p;
        assert Handed(blockCount)[i] == b;
      }
    }
  }

  lemma AtDistinct(p: nat, q: nat, n: nat)
    requires n > 0 && p < q < p + n
    ensures At(p, n) != At(q, n)
  {
    ModDistinct(p, q, n);
  }

  ghost function Elements(s: seq<nat>): set<nat> {
    set b <- s
  }

  class Allocator {
    const blockCount: nat
    const buffer: array<bv8>
    var start: nat
    var size: nat
    var next: nat
    var ckpoint: nat
    ghost var history: History

    /** The window never reaches past what the checkpoint allows, so `ckpoint -= 1` cannot wrap. */
    ghost predicate Valid()
      reads this, buffer
    {
      && 0 < blockCount <= 0x8000_0000 && buffer.Length > 0
      && next <= size <= blockCount && size <= 8 * buffer.Length
      && size - next <= ckpoint <= blockCount
      && history.Sound(next, blockCount)
      && start == At(history.origin, blockCount)
      && history.base + blockCount == history.origin + next + ckpoint
      && history.origin + size <= history.scanBase + blockCount
      && Marked(buffer[..], size, history.origin, blockCount, history.tree)
    }

    /** The blocks handed out since the last checkpoint. */
    ghost function Handed(): seq<nat>
      requires Valid()
      reads this, buffer
    {
      history.Handed(blockCount)
    }

    /** As lfs_mount leaves it: nothing looked at yet. */
    constructor (blockCount: nat, lookaheadSize: nat, seed: nat)
      requires 0 < blockCount <= 0x8000_0000 && lookaheadSize > 0
      ensures Valid() && fresh(buffer) && this.blockCount == blockCount && buffer.Length == lookaheadSize
      ensures Handed() == [] && history.tree == {}
    {
      this.blockCount := blockCount;
      buffer := new bv8[lookaheadSize];
      start, size, next, ckpoint := seed % blockCount, 0, 0, blockCount;
      history := History(seed, seed, [], seed, {}, {}, {}, 0);
    }

    /** lfs_alloc_ckpoint: blocks handed out so far are in the tree or given up. */
    method Checkpoint()
      requires Valid()
      modifies `ckpoint, `history
      ensures Valid() && ckpoint == blockCount && Handed() == []
      ensures history.tree == old(history.tree) && history.passed == {} && history.recentAt == old(history.recentAt)
    {
      hide At, Marked;
      ckpoint := blockCount;
      history := history.(base := history.origin + next, handedAt := [], passed := {});
    }

    /** lfs_alloc_drop. */
    method Drop()
      requires Valid()
      modifies `ckpoint, `size, `next, `history
      ensures Valid() && size == 0 && ckpoint == blockCount && Handed() == [] && history.passed == {}
          && history.scans == old(history.scans)
    {
      hide At;
      size, next := 0, 0;
      ckpoint := blockCount;
      history := history.(base := history.origin, handedAt := [], scanBase := history.origin, recentAt := {},
          passed := {});
    }

    /** lfs_alloc_scan: the window moves past what has been looked at and is marked from the tree.
        `inUse` are the blocks lfs_fs_traverse_ reports and `err` its result. */
    method Scan(inUse: seq<nat>, err: int)
      requires Valid() && next == size && ckpoint > 0 && forall b <- inUse :: b < blockCount
      modifies `start, `size, `next, `ckpoint, `history, buffer
      ensures Valid() && next == 0 && history.scans == old(history.scans) + 1
      ensures err != 0 ==> size == 0 && ckpoint == blockCount && Handed() == [] && history.passed == {}
      ensures err == 0 ==>
                && 0 < size && ckpoint == old(ckpoint) && Handed() == old(Handed())
                && history.base == old(history.base) && history.passed == old(history.passed)
                && history.tree == Elements(inUse) && history.recentAt == Positions(old(history.handedAt))
    {
      hide At, History.Sound, Marked;
      start := Moved(start, next);
      MoveWindow(history, next, blockCount, Elements(inUse));
      history := Scanned(history, next, Elements(inUse));
      next := 0;
      size := if 8 * buffer.Length < ckpoint then 8 * buffer.Length else ckpoint;
      ClearBuffer();
      MarkAll(inUse);
      if err != 0 {
        Drop();
      }
    }

    /** `(start + next) % block_count`: the block under the window's cursor. */
    function Moved(start: nat, next: nat): (b: nat)
      requires blockCount > 0
      ensures b < blockCount
      ensures forall origin: nat :: start == At(origin, blockCount) ==> b == At(origin + next, blockCount)
    {
      assert forall origin: nat :: start == At(origin, blockCount) ==>
          At(start + next, blockCount) == At(origin + next, blockCount) by {
        forall origin: nat | start == At(origin, blockCount)
          ensures At(start + next, blockCount) == At(origin + next, blockCount)
        {
          ModAdd(origin, next, blockCount);
        }
      }
      (start + next) % blockCount
    }

    /** The callback lfs_alloc_lookahead on every block of the tree. */
    method MarkAll(inUse: seq<nat>)
      requires 0 < blockCount && size <= blockCount && start == At(history.origin, blockCount)
      requires Marked(buffer[..], size, history.origin, blockCount, {}) && forall b <- inUse :: b < blockCount
      modifies buffer
      ensures Marked(buffer[..], size, history.origin, blockCount, Elements(inUse))
    {
      hide At, Offset, IsSet, Set;
      for i := 0 to |inUse|
        invariant Marked(buffer[..], size, history.origin, blockCount, Elements(inUse[..i]))
      {
        assert inUse[i] in inUse;
        assert Elements(inUse[..i + 1]) == Elements(inUse[..i]) + {inUse[i]};
        MarkOne(buffer[..], size, history.origin, blockCount, Elements(inUse[..i]), inUse[i]);
        var off := Offset(inUse[i], start, blockCount);
        if off < size {
          SetBit(off);
        }
      }
      assert inUse[..|inUse|] == inUse;
    }

    method SetBit(off: nat)
      requires off < 8 * buffer.Length
      modifies buffer
      ensures buffer[..] == Set(old(buffer[..]), off)
    {
      buffer[off / 8] := buffer[off / 8] | Mask(off % 8);
    }

    method ClearBuffer()
      requires 0 < blockCount && size <= 8 * buffer.Length
      modifies buffer
      ensures Marked(buffer[..], size, history.origin, blockCount, {})
    {
      for i := 0 to buffer.Length
        invariant forall j :: 0 <= j < i ==> buffer[j] == 0
      {
        buffer[i] := 0;
      }
      MarkNone(buffer[..], size, history.origin, blockCount);
    }

    /** The bit under the window's cursor. */
    predicate Busy()
      requires next < 8 * buffer.Length
      reads `next, buffer
    {
      (buffer[next / 8] & Mask(next % 8)) != 0
    }

    lemma BusyIffInTree()
      requires Valid() && next < size
      ensures Busy() <==> At(history.origin + next, blockCount) in history.tree
    {
      hide At;
      assert Busy() == IsSet(buffer[..], next);
    }

    method PassOver()
      requires Valid() && next < size && Busy()
      modifies `next, `ckpoint, `history
      ensures Valid() && next == old(next) + 1 && ckpoint == old(ckpoint) - 1 && Handed() == old(Handed())
      ensures history.tree == old(history.tree) && history.Recent(blockCount) == old(history.Recent(blockCount))
      ensures history.passed <= old(history.passed) + history.tree && history.scans == old(history.scans)
    {
      hide At, Marked, History.Sound;
      BusyIffInTree();
      history.Advance(next, blockCount);
      history := history.PassOver(next, blockCount);
      next, ckpoint := next + 1, ckpoint - 1;
    }

    method Take() returns (block: nat)
      requires Valid() && next < size && !Busy()
      modifies `next, `ckpoint, `history
      ensures Valid() && next == old(next) + 1 && ckpoint == old(ckpoint) - 1
      ensures block < blockCount && Handed() == old(Handed()) + [block] && block !in old(Handed())
      ensures block !in history.tree && block !in old(history.Recent(blockCount))
      ensures history.passed == old(history.passed) && history.tree == old(history.tree)
          && history.scans == old(history.scans)
    {
      hide At, Marked, History.Sound;
      BusyIffInTree();
      history.CursorIsFresh(next, blockCount);
      history.Advance(next, blockCount);
      block := Moved(start, next);
      history := history.HandOut(next);
      next, ckpoint := next + 1, ckpoint - 1;
    }

    /** lfs_alloc. `inUse` are the blocks of the tree now, and `scanErr(k)` is the result of the k-th
        scan of this call. While a part of the window is left, the tree has grown since the scan only
        by blocks handed out since the checkpoint in force at that scan. A block that is handed out is neither in the
        tree nor handed out since the checkpoint, and
        NOSPC means that every block of the device was found in use by its scan or handed out. */
    method Alloc(inUse: seq<nat>, scanErr: nat -> int) returns (err: int, block: nat, ghost scans: nat)
      requires Valid() && forall b <- inUse :: b < blockCount
      requires next < size ==> forall b <- inUse :: b in history.tree || b in history.Recent(blockCount)
      modifies this, buffer
      ensures Valid()
      ensures err == 0 ==>
                && block < blockCount && block !in inUse && block !in old(Handed())
                && Handed() == old(Handed()) + [block]
      ensures err != 0 ==>
                || (err == ERR_NOSPC && Handed() == old(Handed()) && forall b :: 0 <= b < blockCount ==>
                    b in Handed() || b in history.passed)
                || (Handed() == [] && scans > 0 && scanErr(scans - 1) == err)
      ensures history.scans == old(history.scans) + scans && forall k :: 0 <= k < scans - 1 ==> scanErr(k) == 0
      ensures err == 0 ==> forall k :: 0 <= k < scans ==> scanErr(k) == 0
      ensures history.passed <= old(history.passed) + old(history.tree) + Elements(inUse)
    {
      hide At, Marked, History.Sound, History.Recent, History.Handed, Mask;
      var made := 0;
      scans, block := 0, 0;
      while true
        invariant Valid() && Handed() == old(Handed())
        invariant next < size ==> forall b <- inUse :: b in history.tree || b in history.Recent(blockCount)
        invariant history.passed + history.tree <= old(history.passed) + old(history.tree) + Elements(inUse)
        invariant scans == made && history.scans == old(history.scans) + scans && forall k :: 0 <= k < scans ==>
            scanErr(k) == 0
        decreases ckpoint - (size - next)
      {
        ghost var left := ckpoint - (size - next);
        while next < size
          invariant Valid() && Handed() == old(Handed())
          invariant next < size ==> forall b <- inUse :: b in history.tree || b in history.Recent(blockCount)
          invariant history.passed + history.tree <= old(history.passed) + old(history.tree) + Elements(inUse)
          invariant ckpoint - (size - next) == left && history.scans == old(history.scans) + scans
          decreases size - next
        {
          if !Busy() {
            block := Take();
            // eagerly find the next free block
            while next < size && Busy()
              invariant Valid() && Handed() == old(Handed()) + [block] && history.scans == old(history.scans) + scans
              invariant history.passed + history.tree <= old(history.passed) + old(history.tree) + Elements(inUse)
              decreases size - next
            {
              PassOver();
            }
            return 0, block, scans;
          }
          PassOver();
        }
        if ckpoint <= 0 {
          forall b | 0 <= b < blockCount
            ensures b in Handed() || b in history.passed
          {
            history.AllLookedAt(next, blockCount, b);
          }
          return ERR_NOSPC, 0, scans;
        }
        Scan(inUse, scanErr(made));
        scans := scans + 1;
        if scanErr(made) != 0 {
          return scanErr(made), 0, scans;
        }
        made := made + 1;
      }
    }
  }

  ghost function Positions(s: seq<nat>): set<nat> {
    set p <- s
  }

  /** The window moves past what was looked at; the checkpoint in force is now the one it is marked under. */
  ghost function Scanned(h: History, next: nat, tree: set<nat>): History {
    h.(origin := h.origin + next, scanBase := h.base, recentAt := Positions(h.handedAt), tree := tree,
        scans := h.scans + 1)
  }

  lemma MoveWindow(h: History, next: nat, n: nat, tree: set<nat>)
    requires h.Sound(next, n)
    ensures Scanned(h, next, tree).Sound(0, n)
    ensures Scanned(h, next, tree).Handed(n) == h.Handed(n)
  {
  }
}
