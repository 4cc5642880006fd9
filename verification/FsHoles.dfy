/** Slots that name no block although the size reaches them. Reading one takes a block: which one, and that files as
    the kernel and mkfs write them have none. */
module FsHoles {
  import opened Basics
  import opened Blocks
  import opened FsModel
  import opened FsSteps
  import opened Sealed

  // ------------------------------------------------------------------ the block that balloc takes

  /** The first clear bit, or the length if there is none. */
  ghost function FirstClear(bits: seq<bool>): (k: nat)
    ensures k <= |bits| && (forall i :: 0 <= i < k ==> bits[i]) && (k < |bits| ==> !bits[k])
  {
    if bits == [] || !bits[0] then 0 else
      var k := FirstClear(bits[1..]);
      assert forall i :: 0 < i < k + 1 ==> bits[i] == bits[1..][i - 1];
      k + 1
  }

  lemma FirstClearIs(bits: seq<bool>, k: nat)
    requires k < |bits| && !bits[k] && forall i :: 0 <= i < k ==> bits[i]
    ensures FirstClear(bits) == k
  {
  }

  /** Direct slot `t` of a file names the first free block, now used and zero. */
  ghost function Filled(s: Store, ino: nat, t: nat): Store
    requires Shape(s) && ino < |s.inodes| && t <= NDIRECT && FirstClear(s.bitmap) < |s.bitmap|
  {
    var k := FirstClear(s.bitmap);
    WithAddr(Allocated(s, k), ino, t, s.first + k)
  }

  /** What bmap does to the partition: nothing if the slot names a block; a direct slot takes the first free one. */
  ghost predicate Steps(f: Words, s: Store, s': Store, ino: nat, bn: nat) {
    && Shape(s) && ino < |s.inodes| && bn < MAXFILE
    && (AddrOf(f, s, ino, bn) != 0 ==> s' == s)
    && (AddrOf(f, s, ino, bn) == 0 && bn < NDIRECT ==>
          FirstClear(s.bitmap) < |s.bitmap| && s' == Filled(s, ino, bn))
  }

  ghost function Stepping(f: Words, s: Store, s': Store, ino: nat, bn: nat): Status {
    if forall k {:trigger Open(k)} :: k == 0 ==> Steps(f, s, s', ino, bn) then Sound else Broken
  }

  lemma StepStays(f: Words, s: Store, ino: nat, bn: nat)
    requires Shape(s) && ino < |s.inodes| && bn < NDIRECT && s.inodes[ino].addrs[bn] != 0
    ensures Stepping(f, s, s, ino, bn) == Sound
  {
    assert Steps(f, s, s, ino, bn);
  }

  lemma StepFills(f: Words, s: Store, ino: nat, bn: nat)
    requires Shape(s) && ino < |s.inodes| && bn < NDIRECT && s.inodes[ino].addrs[bn] == 0
    requires FirstClear(s.bitmap) < |s.bitmap|
    ensures Stepping(f, s, Filled(s, ino, bn), ino, bn) == Sound
  {
    assert Steps(f, s, Filled(s, ino, bn), ino, bn);
  }

  lemma StepEntry(f: Words, s: Store, s': Store, ino: nat, bn: nat, addr: nat, log: set<nat>)
    requires Mapping(f, s, s', ino, bn, addr, log) == Sound && NDIRECT <= bn && (log == {} ==> s' == s)
    ensures Stepping(f, s, s', ino, bn) == Sound
  {
    assert Open(0);
    assert Steps(f, s, s', ino, bn);
  }

  // ------------------------------------------------------------------ what a read takes

  /** What mapping blocks `lo` to `hi` passes to log_write. */
  ghost function MapCosts(f: Words, s: Store, s': Store, ino: nat, lo: nat, hi: nat): set<nat>
    requires Shape(s) && Shape(s') && ino < |s.inodes| && ino < |s'.inodes| && hi <= MAXFILE
    decreases hi
  {
    if hi <= lo then {} else MapCosts(f, s, s', ino, lo, hi - 1) + MapCost(f, s, s', ino, hi - 1)
  }

  lemma {:induction false} MapCostsKept(f: Words, s0: Store, s1: Store, s2: Store, ino: nat, lo: nat, hi: nat, bn: nat,
                                        addr: nat)
    requires Supplied(f, s0, s1, ino, lo, bn) && hi <= bn < MAXFILE && Shape(s2) && Mapped(f, s1, s2, ino, bn, addr)
    requires s2.first == s1.first
    ensures MapCosts(f, s0, s2, ino, lo, hi) == MapCosts(f, s0, s1, ino, lo, hi)
    decreases hi
  {
    if lo < hi {
      MapCostsKept(f, s0, s1, s2, ino, lo, hi - 1, bn, addr);
      assert AddrOf(f, s2, ino, hi - 1) == AddrOf(f, s1, ino, hi - 1);
    }
  }

  /** Nothing is passed to log_write exactly when every slot names a block. */
  lemma {:induction false} CostsNothing(f: Words, s: Store, s': Store, ino: nat, lo: nat, hi: nat)
    requires Shape(s) && Shape(s') && ino < |s.inodes| && ino < |s'.inodes| && hi <= MAXFILE
    ensures MapCosts(f, s, s', ino, lo, hi) == {} <==> Missing(f, s, ino, lo, hi) == 0
    decreases hi
  {
    if lo < hi {
      CostsNothing(f, s, s', ino, lo, hi - 1);
    }
  }

  /** Every slot names a block exactly when no block is needed. */
  lemma {:induction false} NoneNeeded(f: Words, s: Store, owner: map<nat, Ref>, ino: nat, lo: nat, hi: nat)
    requires Healthy(f, s, owner) == Sound && Shape(s) && ino < |s.inodes| && hi <= MAXFILE
    ensures Missing(f, s, ino, lo, hi) == 0 <==> NeedBlocks(f, s, ino, lo, hi) == 0
  {
    assert Open(0);
    if lo < hi && NDIRECT < hi && AddrOf(f, s, ino, IND) == 0 {
      assert !IsBlock(s, 0);
      assert AddrOf(f, s, ino, hi - 1) == 0;
    }
  }

  /** The last of the slots `lo` to `hi` that names no block. */
  ghost function HoleAt(f: Words, s: Store, ino: nat, lo: nat, hi: nat): (t: nat)
    requires Shape(s) && ino < |s.inodes| && hi <= MAXFILE
    ensures t <= hi
    decreases hi
  {
    if hi <= lo then hi else if AddrOf(f, s, ino, hi - 1) == 0 then hi - 1 else HoleAt(f, s, ino, lo, hi - 1)
  }

  /** Reading blocks `lo` to `hi` has made `s` of `s0` and passed `log` to log_write: nothing has changed where every
      slot names a block, and a single direct slot that names none now names the first free block. */
  ghost predicate Took(f: Words, s0: Store, s: Store, ino: nat, lo: nat, hi: nat, log: set<nat>) {
    && Shape(s0) && Shape(s) && ino < |s0.inodes| && ino < |s.inodes| && hi <= MAXFILE
    && log == MapCosts(f, s0, s, ino, lo, hi)
    && (Missing(f, s0, ino, lo, hi) == 0 ==> s == s0)
    && (Missing(f, s0, ino, lo, hi) == 1 && hi <= NDIRECT ==>
          FirstClear(s0.bitmap) < |s0.bitmap| && s == Filled(s0, ino, HoleAt(f, s0, ino, lo, hi)))
  }

  ghost function Taking(f: Words, s0: Store, s: Store, ino: nat, lo: nat, hi: nat, log: set<nat>): Status {
    if forall k {:trigger Open(k)} :: k == 0 ==> Took(f, s0, s, ino, lo, hi, log) then Sound else Broken
  }

  lemma TakeStart(f: Words, s: Store, ino: nat, lo: nat)
    requires Shape(s) && ino < |s.inodes| && lo <= MAXFILE
    ensures Taking(f, s, s, ino, lo, lo, {}) == Sound
  {
    assert Took(f, s, s, ino, lo, lo, {});
  }

  lemma TakeMore(f: Words, s0: Store, s1: Store, s2: Store, ino: nat, lo: nat, bn: nat, addr: nat, cost: set<nat>,
                 log: set<nat>, more: set<nat>)
    requires Taking(f, s0, s1, ino, lo, bn, log) == Sound && Paying(f, s0, s1, ino, lo, bn, cost) == Sound && lo <= bn
    requires Mapping(f, s1, s2, ino, bn, addr, more) == Sound && Stepping(f, s1, s2, ino, bn) == Sound
    ensures Taking(f, s0, s2, ino, lo, bn + 1, log + more) == Sound
  {
    assert Open(0);
    MapCostsKept(f, s0, s1, s2, ino, lo, bn, bn, addr);
    SuppliedMore(f, s0, s1, s2, ino, lo, bn, addr);
    assert AddrOf(f, s1, ino, bn) == AddrOf(f, s0, ino, bn);
    assert Took(f, s0, s2, ino, lo, bn + 1, log + more);
  }

  // ------------------------------------------------------------------ files without holes

  function Ceil(size: nat): nat {
    (size + BSIZE - 1) / BSIZE
  }

  /** How many blocks a file of this size takes, its indirect block included. */
  function BlocksFor(size: nat): nat {
    Ceil(size) + One(Ceil(size) > NDIRECT)
  }

  /** Exactly the slots in reach of the size name a block, and the indirect block is there if one of them needs it. */
  ghost predicate Snug(f: Words, s: Store, ino: nat) {
    && Shape(s) && ino < |s.inodes|
    && (forall t: nat :: t < MAXFILE ==> (AddrOf(f, s, ino, t) != 0 <==> t < Ceil(s.inodes[ino].size)))
    && (AddrOf(f, s, ino, IND) != 0 <==> Ceil(s.inodes[ino].size) > NDIRECT)
  }

  lemma {:induction false} MissingAbove(f: Words, s: Store, ino: nat, lo: nat, c: nat, hi: nat)
    requires Snug(f, s, ino) && c == Ceil(s.inodes[ino].size) && lo <= c <= hi <= MAXFILE
    ensures Missing(f, s, ino, lo, hi) == hi - c
    decreases hi
  {
    if c < hi {
      MissingAbove(f, s, ino, lo, c, hi - 1);
    } else {
      NoneMissing(f, s, ino, lo, hi);
    }
  }

  lemma SpanCeil(size: nat, n: nat)
    ensures size / BSIZE <= Ceil(size) <= size / BSIZE + 1 && Ceil(size) <= Ceil(size + n)
    ensures n > 0 ==> BlockEnd(size, n) == Ceil(size + n) && size / BSIZE < BlockEnd(size, n)
    ensures n == 0 ==> BlockEnd(size, n) == size / BSIZE
  {
  }

  /** Appending takes the difference. */
  lemma SnugNeed(f: Words, s: Store, ino: nat, n: nat)
    requires Snug(f, s, ino) && s.inodes[ino].size + n <= MAXFILE * BSIZE
    ensures var size := s.inodes[ino].size;
      && BlockEnd(size, n) <= MAXFILE
      && NeedBlocks(f, s, ino, size / BSIZE, BlockEnd(size, n)) + BlocksFor(size) == BlocksFor(size + n)
  {
    var size := s.inodes[ino].size;
    SpanCeil(size, n);
    if n > 0 {
      MissingAbove(f, s, ino, size / BSIZE, Ceil(size), BlockEnd(size, n));
    }
  }

  lemma BlocksForGrows(a: nat, b: nat)
    requires a <= b
    ensures BlocksFor(a) <= BlocksFor(b)
  {
  }

  lemma SnugAfter(f: Words, s0: Store, s1: Store, s2: Store, ino: nat, n: nat)
    requires Snug(f, s0, ino) && Supplied(f, s0, s1, ino, s0.inodes[ino].size / BSIZE, BlockEnd(s0.inodes[ino].size, n))
    requires s2 == WithSize(s1, ino, s0.inodes[ino].size + n)
    ensures Snug(f, s2, ino)
  {
    var size := s0.inodes[ino].size;
    SpanCeil(size, n);
    forall t: nat | t < SLOTS ensures Shape(s2) && AddrOf(f, s2, ino, t) == AddrOf(f, s1, ino, t) {
      WithSizeAddr(f, s1, ino, size + n, ino, t);
    }
  }

  lemma SnugElsewhere(f: Words, s0: Store, s1: Store, s2: Store, ino: nat, lo: nat, hi: nat, size: nat, i: nat)
    requires Snug(f, s0, i) && Supplied(f, s0, s1, ino, lo, hi) && i != ino && s2 == WithSize(s1, ino, size)
    requires s1.inodes[i].size == s0.inodes[i].size
    ensures Snug(f, s2, i)
  {
    forall t: nat | t < SLOTS ensures Shape(s2) && AddrOf(f, s2, i, t) == AddrOf(f, s0, i, t) {
      WithSizeAddr(f, s1, ino, size, i, t);
    }
  }

  /** Reading a file without holes takes no block. */
  lemma SnugReads(f: Words, s: Store, ino: nat, off: nat, m: nat)
    requires Snug(f, s, ino) && off + m <= s.inodes[ino].size <= MAXFILE * BSIZE
    ensures NeedBlocks(f, s, ino, off / BSIZE, BlockEnd(off, m)) == 0
  {
    var hi := BlockEnd(off, m);
    assert m > 0 ==> hi <= Ceil(s.inodes[ino].size);
    NoneMissing(f, s, ino, off / BSIZE, hi);
  }

  /** No file of the partition has a hole. */
  ghost predicate AllSnug(f: Words, s: Store) {
    Shape(s) && forall i: nat :: i < |s.inodes| ==> Snug(f, s, i) && s.inodes[i].size <= MAXFILE * BSIZE
  }

  ghost function Whole(f: Words, s: Store): Status {
    if forall k {:trigger Open(k)} :: k == 0 ==> AllSnug(f, s) then Sound else Broken
  }

  lemma WholeReads(f: Words, s: Store, ino: nat, off: nat, m: nat)
    requires Whole(f, s) == Sound && Shape(s) && ino < |s.inodes| && off + m <= s.inodes[ino].size <= MAXFILE * BSIZE
    ensures NeedBlocks(f, s, ino, off / BSIZE, BlockEnd(off, m)) == 0
  {
    assert Open(0);
    SnugReads(f, s, ino, off, m);
  }

  /** Writing makes no hole, because it starts within the file or at its end. */
  lemma WriteKeepsWhole(f: Words, s: Store, s': Store, ino: nat, off: nat, src: seq<byte>, log: set<nat>,
                        inodeBlock: nat)
    requires Whole(f, s) == Sound && WroteFile(f, s, s', ino, off, src, log, inodeBlock)
    ensures Whole(f, s') == Sound
  {
    assert Open(0);
    forall i: nat | i < |s'.inodes| ensures Snug(f, s', i) && s'.inodes[i].size <= MAXFILE * BSIZE {
      assert Snug(f, s, i);
      if i == ino {
        WriteKeepsSnug(f, s, s', ino, off, src, log, inodeBlock);
      } else {
        assert File(f, s', i) == File(f, s, i);
      }
    }
    assert AllSnug(f, s');
  }

  lemma WriteKeepsSnug(f: Words, s: Store, s': Store, ino: nat, off: nat, src: seq<byte>, log: set<nat>,
                       inodeBlock: nat)
    requires Snug(f, s, ino) && WroteFile(f, s, s', ino, off, src, log, inodeBlock)
    ensures Snug(f, s', ino)
  {
    var size, size' := s.inodes[ino].size, s'.inodes[ino].size;
    assert size' == |WriteInto(File(f, s, ino), off, src)| == Max(size, off + |src|);
    WriteCeil(size, off, |src|);
  }

  lemma WriteCeil(size: nat, off: nat, n: nat)
    requires off <= size
    ensures off / BSIZE <= Ceil(size)
    ensures Ceil(Max(size, off + n)) == Max(Ceil(size), if n == 0 then 0 else BlockEnd(off, n))
  {
  }

  /** Truncation makes none either. */
  lemma TruncateKeepsWhole(f: Words, s: Store, owner: map<nat, Ref>, ino: nat)
    requires Whole(f, s) == Sound && Healthy(f, s, owner) == Sound && ino < |s.inodes|
    ensures Whole(f, Truncated(s, owner, ino)) == Sound
  {
    assert Open(0);
    var s' := Truncated(s, owner, ino);
    forall i: nat | i < |s'.inodes| ensures Snug(f, s', i) && s'.inodes[i].size <= MAXFILE * BSIZE {
      assert Snug(f, s, i);
      forall t: nat | t < SLOTS ensures Shape(s') && AddrOf(f, s', i, t) == if i == ino then 0 else AddrOf(f, s, i, t) {
        assert t < NDIRECT ==> EmptyInode.addrs[t] == 0;
      }
    }
    assert AllSnug(f, s');
  }
}
