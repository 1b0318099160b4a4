/** Shared-memory segments: size classes, the layout of a segment, and picking the next block to write. */
module Segment {
  import opened Modular

  const EXTRA_SIZE: nat := 1024 * 4
  const STATE_SIZE: nat := 1024
  const BLOCK_SIZE: nat := 1024
  const MESSAGE_INFO_SIZE: nat := 1024

  const K: nat := 1024
  const M: nat := 1024 * 1024

  const ID_SIZE: nat := 8
  const TRAILER_SIZE: nat := 2 * ID_SIZE + 8

  const TWO_TO_32: nat := 0x1_0000_0000

  // ---- size classes ----

  /** The sizes a message can be rounded up to. */
  const CLASSES: set<nat> := {16 * K, 128 * K, M, 8 * M, 16 * M, 32 * M}

  function Ceiling(size: nat): nat {
    if size <= 16 * K then 16 * K
    else if size <= 128 * K then 128 * K
    else if size <= M then M
    else if size <= 8 * M then 8 * M
    else if size <= 16 * M then 16 * M
    else 32 * M
  }

  function BlockBufSize(ceiling: nat): nat { ceiling + MESSAGE_INFO_SIZE }

  function BlockNum(ceiling: nat): nat {
    if ceiling == 16 * K then 512
    else if ceiling == 128 * K then 128
    else if ceiling == M then 64
    else if ceiling == 8 * M then 32
    else if ceiling == 16 * M then 16
    else if ceiling == 32 * M then 8
    else 0
  }

  /** Up to the largest class, the chosen class is the least that holds the message. */
  lemma CeilingIsLeast(size: nat)
    ensures Ceiling(size) in CLASSES
    ensures size <= 32 * M <==> size <= Ceiling(size)
    ensures forall c :: c in CLASSES && size <= c ==> Ceiling(size) <= c
  {
  }

  /** Rounding up again changes nothing, so a process that opens a segment computes the creator's
      numbers from the ceiling stored in it. */
  lemma OpenerAgrees(size: nat)
    ensures Ceiling(Ceiling(size)) == Ceiling(size)
    ensures BlockNum(Ceiling(size)) > 0 && TWO_TO_32 % BlockNum(Ceiling(size)) == 0
  {
    assert TWO_TO_32 == 8388608 * 512 == 33554432 * 128 == 67108864 * 64;
    assert TWO_TO_32 == 134217728 * 32 == 268435456 * 16 == 536870912 * 8;
  }

  /** The classes in bytes, with how many blocks a segment of the class has. */
  lemma BlocksOfClasses(size: nat)
    ensures BlockNum(Ceiling(size)) ==
      if size <= 16_384 then 512 else if size <= 131_072 then 128 else if size <= 1_048_576 then 64
      else if size <= 8_388_608 then 32 else if size <= 16_777_216 then 16 else 8
    ensures size <= 32 * M ==> size + 1024 <= BlockBufSize(Ceiling(size))
    ensures ManagedSize(Ceiling(size)) == 5120 + (2048 + Ceiling(size)) * BlockNum(Ceiling(size))
  {
  }

  class ShmConf {
    var ceiling: nat
    var bufSize: nat
    var blockNum: nat
    var managedSize: nat

    ghost predicate Valid() reads this {
      && ceiling in CLASSES
      && bufSize == BlockBufSize(ceiling) && blockNum == BlockNum(ceiling)
      && managedSize == ManagedSize(ceiling)
    }

    constructor (size: nat)
      ensures Valid() && ceiling == Ceiling(size)
    {
      new;
      Update(size);
    }

    method Update(size: nat)
      modifies this
      ensures Valid() && ceiling == Ceiling(size)
    {
      CeilingIsLeast(size);
      ceiling := Ceiling(size);
      bufSize := BlockBufSize(ceiling);
      blockNum := BlockNum(ceiling);
      managedSize := EXTRA_SIZE + STATE_SIZE + (BLOCK_SIZE + bufSize) * blockNum;
    }
  }

  // ---- layout ----

  function ManagedSize(ceiling: nat): nat {
    EXTRA_SIZE + STATE_SIZE + (BLOCK_SIZE + BlockBufSize(ceiling)) * BlockNum(ceiling)
  }

  /** A range of bytes of the segment. */
  datatype Extent = Extent(start: nat, size: nat)

  predicate Apart(a: Extent, b: Extent) {
    a.start + a.size <= b.start || b.start + b.size <= a.start
  }

  predicate Inside(a: Extent, total: nat) { a.start + a.size <= total }

  /** The i-th of equally large extents that follow each other. */
  function Nth(base: nat, size: nat, i: nat): Extent { Extent(base + i * size, size) }

  // The sizes of the two structures are the compiler's; these are the extents they lead to.
  function StateExtent(sizeofState: nat): Extent { Extent(0, sizeofState) }

  function BlockExtent(sizeofState: nat, sizeofBlock: nat, i: nat): Extent {
    Nth(sizeofState, sizeofBlock, i)
  }

  function BufExtent(sizeofState: nat, sizeofBlock: nat, ceiling: nat, i: nat): Extent {
    Nth(sizeofState + BlockNum(ceiling) * sizeofBlock, BlockBufSize(ceiling), i)
  }

  lemma Slices(size: nat, i: nat, j: nat)
    requires i < j
    ensures i * size + size <= j * size
  {
    MulDistributes(i, 1, size);
    MulAtMost(i + 1, j, size);
  }

  lemma MulAtMost(a: nat, b: nat, n: nat)
    requires a <= b
    ensures a * n <= b * n
  {
    MulDistributes(b, a, n);
    assert (b - a) * n >= 0;
  }

  /** State, block headers and block buffers are pairwise disjoint and inside the segment, for
      structures of at most the sizes the segment reserves. */
  lemma LayoutIsDisjoint(sizeofState: nat, sizeofBlock: nat, ceiling: nat, i: nat, j: nat)
    requires ceiling in CLASSES
    requires sizeofBlock <= BLOCK_SIZE && sizeofState <= STATE_SIZE + EXTRA_SIZE
    requires i < BlockNum(ceiling) && j < BlockNum(ceiling)
    ensures var state, block := StateExtent(sizeofState), BlockExtent(sizeofState, sizeofBlock, i);
            var buf := BufExtent(sizeofState, sizeofBlock, ceiling, i);
            && Apart(state, block) && Apart(state, buf)
            && Apart(BlockExtent(sizeofState, sizeofBlock, j), buf)
            && (i != j ==> Apart(block, BlockExtent(sizeofState, sizeofBlock, j)))
            && (i != j ==> Apart(buf, BufExtent(sizeofState, sizeofBlock, ceiling, j)))
            && Inside(state, ManagedSize(ceiling)) && Inside(block, ManagedSize(ceiling))
            && Inside(buf, ManagedSize(ceiling))
  {
    var n, size := BlockNum(ceiling), BlockBufSize(ceiling);
    var base := sizeofState + n * sizeofBlock;
    NthInside(sizeofState, sizeofBlock, n, i);
    NthInside(sizeofState, sizeofBlock, n, j);
    NthInside(base, size, n, i);
    if i != j {
      NthApart(sizeofState, sizeofBlock, i, j);
      NthApart(base, size, i, j);
    }
    Reserved(sizeofBlock, size, n);
  }

  lemma NthInside(base: nat, size: nat, n: nat, i: nat)
    requires i < n
    ensures base <= Nth(base, size, i).start && Inside(Nth(base, size, i), base + n * size)
  {
    Slices(size, i, n);
  }

  lemma NthApart(base: nat, size: nat, i: nat, j: nat)
    requires i != j
    ensures Apart(Nth(base, size, i), Nth(base, size, j))
  {
    if i < j { Slices(size, i, j); } else { Slices(size, j, i); }
  }

  lemma Reserved(sizeofBlock: nat, size: nat, n: nat)
    requires sizeofBlock <= BLOCK_SIZE
    ensures n * sizeofBlock + n * size <= (BLOCK_SIZE + size) * n
  {
    MulDistributes(BLOCK_SIZE, size, n);
    MulAtMost(sizeofBlock, BLOCK_SIZE, n);
    Commutes(n, sizeofBlock);
    Commutes(n, size);
  }

  lemma Commutes(a: nat, b: nat)
    ensures a * b == b * a
  {
  }

  /** A message and its trailer fit a buffer of the class chosen for it exactly up to this size. */
  lemma MessageAndTrailerFit(size: nat)
    ensures size + TRAILER_SIZE <= BlockBufSize(Ceiling(size)) <==> size <= 32 * M + MESSAGE_INFO_SIZE - TRAILER_SIZE
  {
    CeilingIsLeast(size);
  }

  // ---- the next block to write ----

  /** The k-th block tried when the 32-bit sequence number starts at next. */
  function Tried(next: nat, k: nat, n: nat): nat
    requires n > 0
  {
    (next + k) % TWO_TO_32 % n
  }

  lemma RemainderOfWrapped(x: nat, n: nat)
    requires n > 0 && TWO_TO_32 % n == 0
    ensures x % TWO_TO_32 % n == x % n
  {
    var q, r := x / TWO_TO_32, x % TWO_TO_32;
    var c := TWO_TO_32 / n;
    assert TWO_TO_32 == n * c == c * n;
    assert x == q * TWO_TO_32 + r;
    var q', r' := r / n, r % n;
    assert r == n * q' + r' == q' * n + r';
    Regroup(q, c, n);
    MulDistributes(q * c, q', n);
    QuotientUnique(x, n, q * c + q', r');
  }

  lemma Regroup(a: nat, b: nat, c: nat)
    ensures a * (b * c) == (a * b) * c
  {
  }

  /** n consecutive sequence numbers try every block once, even across the wrap of the number, when
      the number of blocks divides 2^32. */
  lemma EveryBlockIsTried(next: nat, n: nat, f: nat) returns (k: nat)
    requires n > 0 && TWO_TO_32 % n == 0 && f < n
    ensures k < n && Tried(next, k, n) == f
    ensures forall j :: 0 <= j < n && Tried(next, j, n) == f ==> j == k
  {
    var r := next % n;
    k := if f >= r then f - r else f + n - r;
    var q := next / n;
    assert next == n * q + r == q * n + r;
    MulDistributes(q, 1, n);
    if f >= r { QuotientUnique(next + k, n, q, f); } else { QuotientUnique(next + k, n, q + 1, f); }
    RemainderOfWrapped(next + k, n);
    forall j | 0 <= j < n && Tried(next, j, n) == f ensures j == k {
      if j < k { TriedTwice(next, j, k, n); }
      if k < j { TriedTwice(next, k, j, n); }
    }
  }

  lemma TriedTwice(next: nat, j: nat, k: nat, n: nat)
    requires n > 0 && TWO_TO_32 % n == 0 && j < k < j + n
    ensures Tried(next, j, n) != Tried(next, k, n)
  {
    RemainderOfWrapped(next + j, n);
    RemainderOfWrapped(next + k, n);
    DistinctSlots(next + j, next + k, n);
  }

  /** With three blocks the wrap tries block 0 twice running, and block 1 waits for the fourth try. */
  lemma UnevenBlocksAreSkipped()
    ensures var next := TWO_TO_32 - 2;
            && Tried(next, 0, 3) == 2 && Tried(next, 1, 3) == 0 && Tried(next, 2, 3) == 0 && Tried(next, 3, 3) == 1
  {
  }

  /** The part of a segment that a writer works on: its blocks' lock counters and the shared sequence
      number. */
  class Blocks {
    var locks: array<int>
    var next: nat

    ghost predicate Valid() reads this {
      locks.Length > 0 && TWO_TO_32 % locks.Length == 0 && next < TWO_TO_32
    }

    constructor (ceiling: nat)
      requires ceiling in CLASSES
      ensures Valid() && fresh(locks) && locks.Length == BlockNum(ceiling)
      ensures next == 0 && forall i :: 0 <= i < locks.Length ==> locks[i] == 0
    {
      assert Ceiling(ceiling) == ceiling;
      OpenerAgrees(ceiling);
      locks := new int[BlockNum(ceiling)](_ => 0);
      next := 0;
    }

    method FetchAddSeq(diff: nat) returns (before: nat)
      requires next < TWO_TO_32
      modifies this`next
      ensures before == old(next) && next == (old(next) + diff) % TWO_TO_32
    {
      before := next;
      next := (next + diff) % TWO_TO_32;
    }

    /** Takes the block if it is free, unless the weak compare-and-swap fails without cause. */
    method TryLockForWrite(i: nat, spurious: bool) returns (ok: bool)
      requires i < locks.Length
      modifies locks
      ensures ok <==> old(locks[i]) == 0 && !spurious
      ensures locks[i] == if ok then -1 else old(locks[i])
      ensures forall j :: 0 <= j < locks.Length && j != i ==> locks[j] == old(locks[j])
    {
      ok := !spurious && locks[i] == 0;
      if ok { locks[i] := -1; }
    }

    /** One try: the next sequence number picks the block. */
    method TryNextBlock(spurious: bool, ghost start: nat, ghost tries: nat) returns (index: nat, ok: bool)
      requires Valid() && next == (start + tries) % TWO_TO_32
      modifies this`next, locks
      ensures Valid() && locks == old(locks) && next == (start + tries + 1) % TWO_TO_32
      ensures index < locks.Length && index == Tried(start, tries, locks.Length)
      ensures ok <==> old(locks[index]) == 0 && !spurious
      ensures locks[index] == if ok then -1 else old(locks[index])
      ensures forall j :: 0 <= j < locks.Length && j != index ==> locks[j] == old(locks[j])
    {
      var s := FetchAddSeq(1);
      index := s % locks.Length;
      NextSeq(start, tries);
      ok := TryLockForWrite(index, spurious);
    }

    /** Without interference the search ends at the first block, in the order of the sequence number, that
        is free and whose try does not fail without cause, and locks just that block. It takes at most as
        many tries as there are blocks, counted from the try at which swaps stop failing without cause. */
    method GetNextWritableBlockIndex(spurious: nat -> bool, ghost calm: nat) returns (index: nat, ghost tries: nat)
      requires Valid() && exists f :: 0 <= f < locks.Length && locks[f] == 0
      requires forall k :: calm <= k ==> !spurious(k)
      modifies this`next, locks
      ensures Valid() && locks == old(locks) && index < locks.Length
      ensures 0 < tries <= calm + locks.Length && index == Tried(old(next), tries - 1, locks.Length)
      ensures !spurious(tries - 1)
      ensures forall k :: 0 <= k < tries - 1 ==> old(locks[Tried(next, k, locks.Length)]) != 0 || spurious(k)
      ensures old(locks[index]) == 0 && locks[index] == -1
      ensures forall j :: 0 <= j < locks.Length && j != index ==> locks[j] == old(locks[j])
      ensures next == (old(next) + tries) % TWO_TO_32
    {
      var n := locks.Length;
      ghost var f :| 0 <= f < n && locks[f] == 0;
      ghost var reach := EveryBlockIsTried(next + calm, n, f);
      reach := calm + reach;
      assert Tried(next, reach, n) == f;
      assert next == (next + 0) % TWO_TO_32;
      tries := 0;
      var attempt := 0;
      ghost var start := next;
      while true
        invariant locks == old(locks) && n == locks.Length && start < TWO_TO_32
        invariant attempt == tries <= reach && next == (start + tries) % TWO_TO_32
        invariant forall k :: 0 <= k < tries ==> locks[Tried(start, k, n)] != 0 || spurious(k)
        invariant forall j :: 0 <= j < n ==> locks[j] == old(locks[j])
        decreases reach - tries
      {
        var ok;
        index, ok := TryNextBlock(spurious(attempt), start, tries);
        tries := tries + 1;
        if ok { return; }
        attempt := attempt + 1;
      }
    }
  }

  lemma NextSeq(start: nat, k: nat)
    ensures ((start + k) % TWO_TO_32 + 1) % TWO_TO_32 == (start + k + 1) % TWO_TO_32
  {
  }

  /** A channel's segment as its writer sees it. */
  class Writer {
    var conf: ShmConf
    var blocks: Blocks

    ghost predicate Valid() reads this, conf, blocks {
      conf.Valid() && blocks.Valid() && blocks.locks.Length == conf.blockNum
    }

    constructor ()
      ensures Valid() && fresh(conf) && fresh(blocks) && fresh(blocks.locks) && conf.ceiling == 16 * K
      ensures forall i :: 0 <= i < blocks.locks.Length ==> blocks.locks[i] == 0
    {
      var c := new ShmConf(16 * K);
      conf := c;
      blocks := new Blocks(c.ceiling);
    }

    /** Picks a block for a message: the segment is made anew, with all blocks free, when the message
        is larger than its class. The block's buffer holds the message and its trailer exactly when
        the message is not larger than the largest class allows. */
    method AcquireBlockToWrite(size: nat, spurious: nat -> bool, ghost calm: nat) returns (index: nat)
      requires Valid() && forall k :: calm <= k ==> !spurious(k)
      requires size > conf.ceiling || exists f :: 0 <= f < blocks.locks.Length && blocks.locks[f] == 0
      modifies this, conf, blocks, blocks.locks
      ensures Valid() && index < conf.blockNum && blocks.locks[index] == -1
      ensures size > old(conf.ceiling) ==>
                conf.ceiling == Ceiling(size) && fresh(blocks) &&
                forall j :: 0 <= j < conf.blockNum && j != index ==> blocks.locks[j] == 0
      ensures size <= old(conf.ceiling) ==>
                conf.ceiling == old(conf.ceiling) && blocks == old(blocks) && blocks.locks == old(blocks.locks) &&
                old(blocks.locks[index]) == 0 &&
                forall j :: 0 <= j < conf.blockNum && j != index ==> blocks.locks[j] == old(blocks.locks[j])
      ensures size + TRAILER_SIZE <= conf.bufSize <==> size <= 32 * M + MESSAGE_INFO_SIZE - TRAILER_SIZE
    {
      CeilingIsLeast(size);
      if size > conf.ceiling {
        conf.Update(size);
        blocks := new Blocks(conf.ceiling);
        OpenerAgrees(size);
        assert blocks.locks[0] == 0;
      }
      ghost var tries;
      index, tries := blocks.GetNextWritableBlockIndex(spurious, calm);
    }
  }
}
