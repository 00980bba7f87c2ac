/** Searching, extending and traversing a file stored as a CTZ skip list on flash. */
module CtzList {
  import opened CText
  import opened LfsCodes
  import opened CtzIndex
  import opened CtzBits

  const BLOCK_NULL := 0xFFFF_FFFF

  /** Pointer `k` of every block leads 2^k blocks back. `blocks[i]` is the address of block `i`. */
  ghost predicate Linked(data: map<nat, seq<byte>>, blockSize: nat, blocks: seq<uint32>) {
    && (forall i :: 0 <= i < |blocks| ==> Present(data, blockSize, blocks[i]))
    && forall i :: 0 < i < |blocks| ==> LinkedBlock(data, blockSize, blocks, i)
  }

  ghost predicate Present(data: map<nat, seq<byte>>, blockSize: nat, block: nat) {
    block in data && |data[block]| == blockSize
  }

  ghost predicate LinkedBlock(data: map<nat, seq<byte>>, blockSize: nat, blocks: seq<uint32>, i: nat)
    requires 0 < i < |blocks|
  {
    && blocks[i] in data && |data[blocks[i]]| == blockSize && Header(i) <= blockSize
    && forall k :: 0 <= k <= Ctz(i) ==> Pow2(k) <= i && Points(data[blocks[i]], k, blocks[i - Pow2(k)])
  }

  ghost predicate Points(block: seq<byte>, k: nat, address: nat) {
    4 * k + 4 <= |block| && Word(block, 4 * k) == address
  }

  /** The longest jump that neither passes the target nor uses a pointer the block does not have. */
  function Skip(current: nat, target: nat): nat
    requires current > target
  {
    var byDistance := Npw2(current - target + 1) - 1;
    if byDistance < Ctz(current) then byDistance else Ctz(current)
  }

  /** Reads left until the target: one per bit of the distance, and before that one per level to climb. */
  ghost function ReadsLeft(current: nat, target: nat): nat
    requires current >= target
  {
    if current == target then 0
    else
      var bits := BitLen(current - target);
      if Ctz(current) + 1 < bits then 2 * bits - 1 - Ctz(current) else bits
  }

  lemma SkipSafe(current: nat, target: nat)
    requires current > target
    ensures Pow2(Skip(current, target)) <= current - target && Skip(current, target) <= Ctz(current)
  {
    var d := current - target;
    BitLenBounds(d);
    CtzReach(current, Skip(current, target));
    if Skip(current, target) < BitLen(d) - 1 {
      Pow2Monotone(Skip(current, target), BitLen(d) - 1);
    }
  }

  lemma {:induction false} Pow2Monotone(a: nat, b: nat)
    requires a <= b
    ensures Pow2(a) <= Pow2(b)
  {
    if a < b {
      Pow2Monotone(a, b - 1);
    }
  }

  /** Every jump uses up at least one of the reads that were left. */
  lemma SkipProgress(current: nat, target: nat)
    requires current > target
    ensures Pow2(Skip(current, target)) <= current - target
    ensures ReadsLeft(current - Pow2(Skip(current, target)), target) < ReadsLeft(current, target)
  {
    var d, s, c := current - target, Skip(current, target), Ctz(current);
    SkipSafe(current, target);
    BitLenBounds(d);
    var next := current - Pow2(s);
    var d' := next - target;
    if next > target {
      if s == c {
        CtzAfterLongest(current);
      } else {
        CtzAfterShort(current, s);
      }
      if s == BitLen(d) - 1 {
        BitLenBelow(d', s);
      } else {
        BitLenMonotone(d', d);
      }
    }
  }

  lemma ReadsLogarithmic(current: nat, target: nat)
    requires current >= target
    ensures ReadsLeft(current, target) <= 2 * BitLen(current)
  {
    BitLenMonotone(current - target, current);
  }

  lemma LinkedPointer(data: map<nat, seq<byte>>, blockSize: nat, blocks: seq<uint32>, i: nat, k: nat)
    requires Linked(data, blockSize, blocks) && 0 < i < |blocks| && k <= Ctz(i)
    ensures blocks[i] in data && |data[blocks[i]]| == blockSize && Pow2(k) <= i
    ensures Points(data[blocks[i]], k, blocks[i - Pow2(k)])
  {
    assert LinkedBlock(data, blockSize, blocks, i);
  }

  /** A file of `size` bytes takes exactly the blocks of `blocks`, by the recursive layout. */
  ghost predicate Spans(blockSize: nat, blocks: seq<uint32>, size: nat) {
    if size == 0 then blocks == []
    else blocks != [] && Start(blockSize, |blocks| - 1) < size <= Start(blockSize, |blocks|)
  }

  lemma LastBlock(blockSize: nat, blocks: seq<uint32>, size: nat)
    requires blockSize >= 128 && 0 < size <= FILE_MAX && Spans(blockSize, blocks, size)
    ensures Index(blockSize, size - 1).0 == |blocks| - 1
    ensures Located(blockSize, size - 1, |blocks| - 1, Index(blockSize, size - 1).1)
  {
    hide Index, Start, Header;
    IndexLocates(blockSize, size - 1);
    var n := |blocks| - 1;
    LocatedUnique(blockSize, size - 1, n, size - 1 - Start(blockSize, n) + Header(n),
      Index(blockSize, size - 1).0, Index(blockSize, size - 1).1);
  }

  /** Position `pos` is at `off` of `block`; a position past the end is sought in the last block. */
  ghost predicate Found(blockSize: nat, blocks: seq<uint32>, pos: nat, block: nat, off: int) {
    exists i: nat :: Located(blockSize, pos, i, off) && blocks != [] && block == if i < |blocks| then blocks[i]
        else blocks[|blocks| - 1]
  }

  /** The block device. `io(n)` is the result code of its n-th operation, 0 for success. */
  class Flash {
    const blockSize: nat
    const io: nat -> int
    var ops: nat
    var data: map<nat, seq<byte>>

    constructor (blockSize: nat, io: nat -> int, data: map<nat, seq<byte>>)
      ensures this.blockSize == blockSize && this.io == io && this.data == data && ops == 0
    {
      this.blockSize, this.io, this.data, ops := blockSize, io, data, 0;
    }

    /** An operation since number `start` reported this code. */
    ghost predicate Reported(start: nat, err: int)
      reads `ops
    {
      exists n :: start <= n < ops && io(n) == err
    }

    /** Different operations between the `start`-th and the `end`-th that reported corruption, in order. */
    ghost predicate Faults(faults: seq<nat>, start: nat, end: nat) {
      && (forall i :: 0 <= i < |faults| ==> start <= faults[i] < end && io(faults[i]) == ERR_CORRUPT)
      && forall i, j :: 0 <= i < j < |faults| ==> faults[i] < faults[j]
    }

    method ReadWord(block: nat, off: nat) returns (err: int, w: uint32)
      modifies `ops
      ensures ops == old(ops) + 1
      ensures err == 0 ==> block in data && off + 4 <= |data[block]| && w == Word(data[block], off)
      ensures block in data && off + 4 <= |data[block]| ==> err == io(old(ops))
    {
      err, w := io(ops), 0;
      ops := ops + 1;
      if block !in data || off + 4 > |data[block]| {
        err := ERR_CORRUPT;
      } else if err == 0 {
        w := Word(data[block], off);
      }
    }

    /** lfs_ctz_find: the block and offset of position `pos`, in at most 2 log n reads. */
    method Find(head: nat, size: nat, pos: nat, ghost blocks: seq<uint32>)
      returns (err: int, block: nat, off: int, ghost steps: nat)
      requires blockSize >= 128 && size <= FILE_MAX && pos <= FILE_MAX && Linked(data, blockSize, blocks)
      requires Spans(blockSize, blocks, size) && (size > 0 ==> blocks[|blocks| - 1] == head)
      modifies `ops
      ensures err == 0 && size == 0 ==> block == BLOCK_NULL && off == 0
      ensures err == 0 && size > 0 ==> Found(blockSize, blocks, pos, block, off)
      ensures ops == old(ops) + steps && steps <= 2 * BitLen(|blocks|)
      ensures err != 0 ==> Reported(old(ops), err)
    {
      hide Index, Ctz, Pow2, Linked, LinkedBlock, BitLen, Skip, ReadsLeft, Word, Located;
      steps, err := 0, 0;
      if size == 0 {
        return 0, BLOCK_NULL, 0, 0;
      }
      LastBlock(blockSize, blocks, size);
      IndexLocates(blockSize, pos);
      var current := Index(blockSize, size - 1).0;
      var target := Index(blockSize, pos).0;
      block, off := head, Index(blockSize, pos).1;
      ghost var left := if current > target then ReadsLeft(current, target) else 0;
      if current > target {
        ReadsLogarithmic(current, target);
        BitLenMonotone(current, |blocks|);
      }
      while current > target
        invariant 0 <= current < |blocks| && block == blocks[current]
        invariant current >= target || current == |blocks| - 1
        invariant ops == old(ops) + steps
        invariant current > target ==> steps + ReadsLeft(current, target) <= left
        invariant steps <= left
        decreases current
      {
        SkipSafe(current, target);
        SkipProgress(current, target);
        var skip := Skip(current, target);
        LinkedPointer(data, blockSize, blocks, current, skip);
        err, block := ReadWord(block, 4 * skip);
        steps := steps + 1;
        if err != 0 {
          return;
        }
        current := current - Pow2(skip);
      }
    }

    /** The one or two pointers at the front of a block, in one read. */
    method ReadHeads(block: nat, two: bool) returns (err: int, first: uint32, second: uint32)
      modifies `ops
      ensures ops == old(ops) + 1
      ensures block in data && (if two then 8 else 4) <= |data[block]| ==> err == io(old(ops))
      ensures err == 0 ==> block in data && 4 <= |data[block]| && first == Word(data[block], 0)
      ensures err == 0 && two ==> 8 <= |data[block]| && second == Word(data[block], 4)
    {
      err, first, second := io(ops), 0, 0;
      ops := ops + 1;
      if block !in data || |data[block]| < (if two then 8 else 4) {
        err := ERR_CORRUPT;
      } else if err == 0 {
        first := Word(data[block], 0);
        if two {
          second := Word(data[block], 4);
        }
      }
    }

    /** lfs_ctz_traverse with a callback whose n-th result is `cb(n)`: without an error every block is
        visited exactly once, last block first; an error is one that the device or the callback
        reported, and the visits so far are a prefix of that. */
    method Traverse(head: uint32, size: nat, cb: nat -> int, ghost blocks: seq<uint32>)
        returns (err: int, visited: seq<uint32>)
      requires blockSize >= 128 && size <= FILE_MAX && Linked(data, blockSize, blocks)
      requires Spans(blockSize, blocks, size) && (size > 0 ==> blocks[|blocks| - 1] == head)
      modifies `ops
      ensures err == 0 ==> visited == Reversed(blocks)
      ensures visited <= Reversed(blocks)
      ensures err != 0 ==> Reported(old(ops), err) || exists n :: 0 <= n < |visited| && cb(n) == err
    {
      hide Index, Linked, LinkedBlock, Word, Located, Ctz, Reversed;
      visited := [];
      ReversedEmpty();
      if size == 0 {
        return 0, [];
      }
      LastBlock(blockSize, blocks, size);
      var index, at := Index(blockSize, size - 1).0, head;
      assert blocks[..index + 1] == blocks;
      while true
        invariant 0 <= index < |blocks| && at == blocks[index]
        invariant visited + Reversed(blocks[..index + 1]) == Reversed(blocks)
        invariant ops >= old(ops)
        decreases index
      {
        ReversedFront(blocks, index);
        visited := visited + [at];
        err := cb(|visited| - 1);
        if err != 0 || index == 0 {
          assert blocks[..0] == [];
          return;
        }
        FrontPointers(data, blockSize, blocks, index);
        var count := 2 - index % 2;
        var first, second;
        err, first, second := ReadHeads(at, count == 2);
        if err != 0 {
          return;
        }
        if count == 2 {
          ReversedFront(blocks, index - 1);
          visited := visited + [first];
          err := cb(|visited| - 1);
          if err != 0 {
            return;
          }
          at := second;
        } else {
          at := first;
        }
        index := index - count;
      }
    }

    method Erase(block: nat) returns (err: int)
      modifies `ops, `data
      ensures ops == old(ops) + 1 && err == io(old(ops))
      ensures err == 0 ==> block in data && |data[block]| == blockSize
      ensures SameExcept(old(data), data, {block})
    {
      err := io(ops);
      ops := ops + 1;
      if err == 0 {
        data := data[block := seq(blockSize, _ => 0xFF)];
      }
    }

    method Prog(block: nat, off: nat, bytes: seq<byte>) returns (err: int)
      requires block in data && off + |bytes| <= |data[block]|
      modifies `ops, `data
      ensures ops == old(ops) + 1 && err == io(old(ops))
      ensures block in data && |data[block]| == |old(data)[block]|
      ensures err == 0 ==> data[block] == old(data)[block][..off] + bytes + old(data)[block][off + |bytes|..]
      ensures SameExcept(old(data), data, {block})
    {
      err := io(ops);
      ops := ops + 1;
      if err == 0 {
        data := data[block := data[block][..off] + bytes + data[block][off + |bytes|..]];
      }
    }

    method ReadByte(block: nat, off: nat) returns (err: int, b: byte)
      modifies `ops
      ensures ops == old(ops) + 1
      ensures block in data && off < |data[block]| ==> err == io(old(ops))
      ensures err == 0 ==> block in data && off < |data[block]| && b == data[block][off]
    {
      err, b := io(ops), 0;
      ops := ops + 1;
      if block !in data || off >= |data[block]| {
        err := ERR_CORRUPT;
      } else if err == 0 {
        b := data[block][off];
      }
    }

    /** Copies the first `count` bytes of an incomplete last block, pointers included. A failed
        read returns its code with `fatal`; only a failed prog may be retried on another block. */
    method CopyOut(head: nat, target: nat, count: nat) returns (err: int, fatal: bool)
      requires target in data && head in data && head != target && count <= |data[target]| && count <= |data[head]|
      modifies `ops, `data
      ensures ops >= old(ops) && (err != 0 ==> Reported(old(ops), err))
      ensures SameExcept(old(data), data, {target}) && target in data && |data[target]| == |old(data)[target]|
      ensures err == 0 && count > 0 ==>
          head in data && count <= |data[head]| && data[target][..count] == data[head][..count]
    {
      err, fatal := 0, false;
      for i := 0 to count
        invariant SameExcept(old(data), data, {target}) && target in data && |data[target]| == |old(data)[target]|
        invariant head in data && data[head] == old(data)[head] && data[target][..i] == data[head][..i]
            && ops >= old(ops)
      {
        ghost var before := data;
        var b;
        err, b := ReadByte(head, i);
        if err != 0 {
          return err, true;
        }
        err := Prog(target, i, [b]);
        if err != 0 {
          return err, false;
        }
        assert data[target][..i + 1] == before[target][..i] + [b];
        assert data[head][..i + 1] == data[head][..i] + [b];
      }
    }

    /** Writes the pointers of new block number `n`: pointer i + 1 is pointer i of the block that
        pointer i leads to. */
    method WritePointers(head: uint32, target: nat, n: nat, ghost blocks: seq<uint32>) returns (err: int, fatal: bool)
      requires Linked(data, blockSize, blocks) && 0 < n == |blocks| && head == blocks[n - 1]
      requires target in data && |data[target]| == blockSize && target !in blocks && Header(n) <= blockSize
      modifies `ops, `data
      ensures ops >= old(ops) && (err != 0 ==> Reported(old(ops), err))
      ensures SameExcept(old(data), data, {target}) && target in data && |data[target]| == blockSize
      ensures err == 0 ==> forall k :: 0 <= k <= Ctz(n) ==> Pow2(k) <= n && Points(data[target], k, blocks[n - Pow2(k)])
    {
      hide Ctz, Pow2, Linked, LinkedBlock, Word, Points;
      err, fatal := 0, false;
      var skips, nhead := Ctz(n) + 1, head;
      assert Pow2(0) == 1 by { PowZero(); }
      for i := 0 to skips
        invariant SameExcept(old(data), data, {target}) && target in data && |data[target]| == blockSize
            && ops >= old(ops)
        invariant i < skips ==> Pow2(i) <= n && nhead == blocks[n - Pow2(i)]
        invariant forall k :: 0 <= k < i ==> Pow2(k) <= n && Points(data[target], k, blocks[n - Pow2(k)])
      {
        ghost var before := data[target];
        err := Prog(target, 4 * i, WordBytes(nhead));
        if err != 0 {
          return err, false;
        }
        PointerWritten(before, i, nhead);
        forall k | 0 <= k < i
          ensures Points(data[target], k, blocks[n - Pow2(k)])
        {
          PointerKept(before, data[target], k, 4 * i, blocks[n - Pow2(k)]);
        }
        if i != skips - 1 {
          NextPointer(old(data), data, blockSize, blocks, n, i, target);
          err, nhead := ReadWord(nhead, 4 * i);
          if err != 0 {
            return err, true;
          }
        }
      }
    }

    /** lfs_ctz_extend. `alloc` are the blocks that lfs_alloc hands out, none of them in the file; a
        block that reports corruption is given up and the next one tried. On success the file with
        its last block copied out or a new one appended is a CTZ skip list again, and `off` is where
        byte number `size` goes. The blocks of the old file are never touched. The block taken is the
        first that reported no corruption; an error is one that the device reported, or NOSPC once
        every block of `alloc` reported corruption. */
    method Extend(head: uint32, size: nat, alloc: seq<uint32>, ghost blocks: seq<uint32>)
      returns (err: int, block: uint32, off: int, ghost faults: seq<nat>)
      requires blockSize >= 128 && size <= FILE_MAX && Linked(data, blockSize, blocks)
      requires Spans(blockSize, blocks, size) && (size > 0 ==> blocks[|blocks| - 1] == head)
      requires forall a <- alloc :: a !in blocks
      modifies `ops, `data
      ensures SameExcept(old(data), data, set a <- alloc) && Linked(data, blockSize, blocks)
      ensures Faults(faults, old(ops), ops) && |faults| <= |alloc|
      ensures err == 0 ==>
          |faults| < |alloc| && block == alloc[|faults|] && ExtendedTo(data, blockSize, blocks, size, block, off)
      ensures err != 0 ==> Reported(old(ops), err) || (err == ERR_NOSPC && |faults| == |alloc|)
    {
      hide Index, Ctz, Pow2, Linked, LinkedBlock, Start, Located, Header, Spans, ExtendedTo;
      block, off, err, faults := 0, 0, ERR_NOSPC, [];
      for i := 0 to |alloc|
        invariant SameExcept(old(data), data, set a <- alloc)
        invariant err == ERR_NOSPC && ops >= old(ops) && |faults| == i && Faults(faults, old(ops), ops)
      {
        block := alloc[i];
        assert block in alloc;
        LinkedUntouched(old(data), data, blockSize, blocks, set a <- alloc);
        var fatal;
        ghost var start := ops;
        err, fatal, off := TryExtend(head, size, block, blocks);
        if err == 0 || fatal || err != ERR_CORRUPT {
          LinkedUntouched(old(data), data, blockSize, blocks, set a <- alloc);
          return;
        }
        ghost var n :| start <= n < ops && io(n) == ERR_CORRUPT;
        faults := faults + [n];
        err := ERR_NOSPC;
      }
      LinkedUntouched(old(data), data, blockSize, blocks, set a <- alloc);
    }

    /** One round of lfs_ctz_extend, on block `target`. */
    method TryExtend(head: uint32, size: nat, target: uint32, ghost blocks: seq<uint32>)
        returns (err: int, fatal: bool, off: int)
      requires blockSize >= 128 && size <= FILE_MAX && Linked(data, blockSize, blocks)
      requires Spans(blockSize, blocks, size) && (size > 0 ==> blocks[|blocks| - 1] == head) && target !in blocks
      modifies `ops, `data
      ensures SameExcept(old(data), data, {target}) && ops >= old(ops) && (err != 0 ==> Reported(old(ops), err))
      ensures err == 0 ==> ExtendedTo(data, blockSize, blocks, size, target, off)
    {
      hide Index, Ctz, Pow2, Linked, LinkedBlock, Start, Located, Header, Spans, ExtendedTo, Points;
      fatal, off := false, 0;
      err := Erase(target);
      if err != 0 {
        return;
      }
      LinkedUntouched(old(data), data, blockSize, blocks, {target});
      if size == 0 {
        FirstBlock(data, blockSize, blocks, target);
        return;
      }
      LastBlock(blockSize, blocks, size);
      IndexLocates(blockSize, size - 1);
      var (index, at) := Index(blockSize, size - 1);
      EndOfBlock(blockSize, blocks, size, at);
      off := at + 1;
      LinkedHead(data, blockSize, blocks);
      if off != blockSize {
        err, fatal := CopyOut(head, target, off);
        if err == 0 {
          CopiedBlock(old(data), data, blockSize, blocks, size, target, off);
        }
        return;
      }
      HeaderFits(blockSize, |blocks|);
      err, fatal := WritePointers(head, target, index + 1, blocks);
      off := HeaderOf(index + 1);
      if err == 0 {
        AppendedBlock(old(data), data, blockSize, blocks, size, target);
      }
    }
  }

  /** Where the data of a new block starts: lfs_ctz(index) + 1 pointers of 4 bytes. */
  function HeaderOf(index: nat): (off: nat)
    requires index > 0
    ensures off == Header(index)
  {
    4 * (Ctz(index) + 1)
  }

  /** The blocks of the file once `block` is its last one. */
  ghost function NewBlocks(blockSize: nat, blocks: seq<uint32>, size: nat, block: uint32): seq<uint32> {
    if size == 0 || size == Start(blockSize, |blocks|) || blocks == [] then blocks + [block]
    else blocks[..|blocks| - 1] + [block]
  }

  /** `block` is ready to take byte number `size` at `off`, and holds all the bytes in front of it. */
  ghost predicate ExtendedTo(data: map<nat, seq<byte>>, blockSize: nat, blocks: seq<uint32>, size: nat, block: uint32,
      off: int) {
    var blocks' := NewBlocks(blockSize, blocks, size, block);
    && Linked(data, blockSize, blocks')
    && Located(blockSize, size, |blocks'| - 1, off)
    && block in data && |data[block]| == blockSize
    && (|blocks'| == |blocks| > 0 ==>
          && blocks[|blocks| - 1] in data && 0 <= off <= |data[blocks[|blocks| - 1]]| && off <= |data[block]|
          && data[block][..off] == data[blocks[|blocks| - 1]][..off])
  }

  /** Once bytes are written at `off`, the extended file is again one that Find, Traverse and Extend accept. */
  lemma ExtendedSpans(data: map<nat, seq<byte>>, blockSize: nat, blocks: seq<uint32>, size: nat, block: uint32,
      off: int, size': nat)
    requires ExtendedTo(data, blockSize, blocks, size, block, off)
    requires size < size' <= size + (blockSize - off)
    ensures Spans(blockSize, NewBlocks(blockSize, blocks, size, block), size')
    ensures Linked(data, blockSize, NewBlocks(blockSize, blocks, size, block))
  {
  }

  lemma FirstBlock(data: map<nat, seq<byte>>, blockSize: nat, blocks: seq<uint32>, target: uint32)
    requires blockSize >= 128 && Spans(blockSize, blocks, 0) && target in data && |data[target]| == blockSize
    ensures ExtendedTo(data, blockSize, blocks, 0, target, 0)
  {
    assert Start(blockSize, 1) == blockSize;
  }

  lemma LinkedUntouched(before: map<nat, seq<byte>>, data: map<nat, seq<byte>>, blockSize: nat, blocks: seq<uint32>,
      changed: set<nat>)
    requires Linked(before, blockSize, blocks) && SameExcept(before, data, changed)
        && forall b <- blocks :: b !in changed
    ensures Linked(data, blockSize, blocks)
  {
    forall i | 0 < i < |blocks|
      ensures LinkedBlock(data, blockSize, blocks, i)
    {
      assert LinkedBlock(before, blockSize, blocks, i);
      assert blocks[i] in blocks;
    }
    forall i | 0 <= i < |blocks|
      ensures Present(data, blockSize, blocks[i])
    {
      assert Present(before, blockSize, blocks[i]) && blocks[i] in blocks;
    }
  }

  lemma LinkedHead(data: map<nat, seq<byte>>, blockSize: nat, blocks: seq<uint32>)
    requires Linked(data, blockSize, blocks) && blocks != []
    ensures Present(data, blockSize, blocks[|blocks| - 1])
  {
  }

  /** Either the last block has room for byte number `size`, or that byte starts a new block. */
  lemma EndOfBlock(blockSize: nat, blocks: seq<uint32>, size: nat, at: int)
    requires 0 < size && blocks != [] && Located(blockSize, size - 1, |blocks| - 1, at)
    ensures at + 1 == blockSize <==> size == Start(blockSize, |blocks|)
    ensures at + 1 != blockSize ==> Located(blockSize, size, |blocks| - 1, at + 1)
  {
  }

  /** The pointers of the next block leave room for data. */
  lemma HeaderFits(blockSize: nat, m: nat)
    requires blockSize >= 128 && m > 0 && 0 <= Start(blockSize, m) <= FILE_MAX
    ensures Header(m) < blockSize
    ensures Located(blockSize, Start(blockSize, m), m, Header(m))
  {
    StartClosedForm(blockSize, m);
    SmallIndex(blockSize, m);
    CtzReach(m, Ctz(m));
    if Ctz(m) >= 25 {
      Pow2Monotone(25, Ctz(m));
    }
  }

  lemma CopiedBlock(before: map<nat, seq<byte>>, data: map<nat, seq<byte>>, blockSize: nat, blocks: seq<uint32>,
                    size: nat, target: uint32, count: nat)
    requires Linked(before, blockSize, blocks) && SameExcept(before, data, {target}) && target !in blocks
    requires 0 < size && blocks != [] && Located(blockSize, size - 1, |blocks| - 1, count - 1)
    requires count != blockSize && Header(|blocks| - 1) < count
    requires target in data && |data[target]| == blockSize && count <= blockSize
    requires blocks[|blocks| - 1] in data && count <= |data[blocks[|blocks| - 1]]|
    requires data[target][..count] == data[blocks[|blocks| - 1]][..count]
    ensures ExtendedTo(data, blockSize, blocks, size, target, count)
  {
    hide Located, Points;
    EndOfBlock(blockSize, blocks, size, count - 1);
    var n, blocks' := |blocks| - 1, NewBlocks(blockSize, blocks, size, target);
    LinkedUntouched(before, data, blockSize, blocks, {target});
    forall i | 0 < i < |blocks'|
      ensures LinkedBlock(data, blockSize, blocks', i)
    {
      assert LinkedBlock(data, blockSize, blocks, i);
      if i == n {
        forall k | 0 <= k <= Ctz(n)
          ensures Points(data[target], k, blocks[n - Pow2(k)])
        {
          PointerKept(data[blocks[n]], data[target], k, count, blocks[n - Pow2(k)]);
        }
      }
    }
  }

  lemma AppendedBlock(before: map<nat, seq<byte>>, data: map<nat, seq<byte>>, blockSize: nat, blocks: seq<uint32>,
      size: nat, target: uint32)
    requires Linked(before, blockSize, blocks) && SameExcept(before, data, {target}) && target !in blocks
    requires blockSize >= 128 && size <= FILE_MAX && blocks != [] && size == Start(blockSize, |blocks|)
    requires target in data && |data[target]| == blockSize
    requires var n := |blocks|;
             forall k :: 0 <= k <= Ctz(n) ==> Pow2(k) <= n && Points(data[target], k, blocks[n - Pow2(k)])
    ensures ExtendedTo(data, blockSize, blocks, size, target, Header(|blocks|))
  {
    hide Located, Points;
    HeaderFits(blockSize, |blocks|);
    var n, blocks' := |blocks|, NewBlocks(blockSize, blocks, size, target);
    LinkedUntouched(before, data, blockSize, blocks, {target});
    forall i | 0 < i < |blocks'|
      ensures LinkedBlock(data, blockSize, blocks', i)
    {
      if i < n {
        assert LinkedBlock(data, blockSize, blocks, i);
      }
    }
  }

  lemma PowZero()
    ensures Pow2(0) == 1
  {
  }

  lemma PointerWritten(block: seq<byte>, k: nat, address: uint32)
    requires 4 * k + 4 <= |block|
    ensures Points(block[..4 * k] + WordBytes(address) + block[4 * k + 4..], k, address)
  {
    var block' := block[..4 * k] + WordBytes(address) + block[4 * k + 4..];
    assert forall j :: 4 * k <= j < 4 * k + 4 ==> block'[j] == WordBytes(address)[j - 4 * k];
  }

  /** A pointer depends only on the bytes in front of the end of it. */
  lemma PointerKept(block: seq<byte>, block': seq<byte>, k: nat, count: nat, address: nat)
    requires Points(block, k, address) && 4 * k + 4 <= count <= |block| && count <= |block'|
        && block'[..count] == block[..count]
    ensures Points(block', k, address)
  {
    assert forall j :: 4 * k <= j < 4 * k + 4 ==> block'[j] == block'[..count][j] == block[j];
  }

  lemma NextPointer(before: map<nat, seq<byte>>, data: map<nat, seq<byte>>, blockSize: nat, blocks: seq<uint32>,
                    n: nat, i: nat, target: nat)
    requires Linked(before, blockSize, blocks) && 0 < n == |blocks| && i < Ctz(n)
    requires SameExcept(before, data, {target}) && target !in blocks
    ensures Pow2(i) < n && Pow2(i + 1) <= n && blocks[n - Pow2(i)] in data
    ensures Points(data[blocks[n - Pow2(i)]], i, blocks[n - Pow2(i + 1)])
  {
    CtzAfterShort(n, i);
    CtzReach(n, i + 1);
    LinkedPointer(before, blockSize, blocks, n - Pow2(i), i);
    assert blocks[n - Pow2(i)] in blocks;
  }

  /** Nothing but the blocks in `changed` is different. */
  ghost predicate SameExcept(before: map<nat, seq<byte>>, after: map<nat, seq<byte>>, changed: set<nat>) {
    && (forall b <- before :: b !in changed ==> b in after && after[b] == before[b])
    && forall b <- after :: b !in changed ==> b in before
  }

  ghost function Reversed(s: seq<uint32>): seq<uint32> {
    if s == [] then [] else [s[|s| - 1]] + Reversed(s[..|s| - 1])
  }

  lemma ReversedEmpty()
    ensures Reversed([]) == []
  {
  }

  lemma ReversedFront(blocks: seq<uint32>, i: nat)
    requires i < |blocks|
    ensures Reversed(blocks[..i + 1]) == [blocks[i]] + Reversed(blocks[..i])
  {
    assert blocks[..i + 1][..i] == blocks[..i];
  }

  /** Every block leads to the one before it, and an even block also to the one before that. */
  lemma FrontPointers(data: map<nat, seq<byte>>, blockSize: nat, blocks: seq<uint32>, i: nat)
    requires Linked(data, blockSize, blocks) && 0 < i < |blocks|
    ensures blocks[i] in data && Points(data[blocks[i]], 0, blocks[i - 1])
    ensures i % 2 == 0 ==> i >= 2 && Points(data[blocks[i]], 1, blocks[i - 2])
  {
    LinkedPointer(data, blockSize, blocks, i, 0);
    if i % 2 == 0 {
      LinkedPointer(data, blockSize, blocks, i, 1);
    }
  }
}
