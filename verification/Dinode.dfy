/** Inodes on the disk (fs.h): 64 bytes each, eight to a block, from the superblock's inodestart on. Of an inode's
    sixteen words the third is the size and the last thirteen are the addresses. */
module Dinodes {
  import opened Blocks
  import opened FsHoles
  import opened FsModel
  import opened FsSteps
  import opened Sealed

  const IPB: nat := 8
  const DINODEWORDS: nat := 16

  // ------------------------------------------------------------------ one block

  /** Words `ws` stored one after the other. */
  function PutWords(f: Words, b: Block, at: nat, ws: seq<nat>): Block
    decreases |ws|
  {
    if ws == [] then b else PutWords(f, f.put(b, at, ws[0]), at + 1, ws[1..])
  }

  lemma {:induction false} WordsBack(f: Words, b: Block, at: nat, ws: seq<nat>, j: nat)
    requires WordsWork(f) && at + |ws| <= NINDIRECT && j < NINDIRECT
    requires forall i :: 0 <= i < |ws| ==> ws[i] < 0x1_0000_0000
    ensures f.get(PutWords(f, b, at, ws), j) == if at <= j < at + |ws| then ws[j - at] else f.get(b, j)
    decreases |ws|
  {
    if ws != [] {
      WordsBack(f, f.put(b, at, ws[0]), at + 1, ws[1..], j);
    }
  }

  predicate Storable(ip: Inode) {
    && |ip.addrs| == NDIRECT + 1 && ip.size < 0x1_0000_0000
    && forall x :: 0 <= x < |ip.addrs| ==> ip.addrs[x] < 0x1_0000_0000
  }

  /** `dip->size = ip->size; memmove(dip->addrs, ip->addrs, sizeof(ip->addrs))`, for the `k`-th inode of a block. */
  function PutDinode(f: Words, b: Block, k: nat, ip: Inode): Block {
    PutWords(f, b, DINODEWORDS * k + 2, [ip.size] + ip.addrs)
  }

  /** The same in the other direction. */
  function GetDinode(f: Words, b: Block, k: nat): Inode {
    Inode(seq<nat>(NDIRECT + 1, (x: nat) => f.get(b, DINODEWORDS * k + 3 + x)), f.get(b, DINODEWORDS * k + 2))
  }

  /** An inode is read as it was written, and its neighbours in the block as they were. */
  lemma DinodeBack(f: Words, b: Block, k: nat, ip: Inode, j: nat)
    requires WordsWork(f) && k < IPB && j < IPB && Storable(ip)
    ensures GetDinode(f, PutDinode(f, b, k, ip), j) == if j == k then ip else GetDinode(f, b, j)
  {
    var ws, r := [ip.size] + ip.addrs, PutDinode(f, b, k, ip);
    WordsBack(f, b, DINODEWORDS * k + 2, ws, DINODEWORDS * j + 2);
    var got, want := GetDinode(f, r, j).addrs, if j == k then ip.addrs else GetDinode(f, b, j).addrs;
    forall x | 0 <= x <= NDIRECT ensures got[x] == want[x] {
      WordsBack(f, b, DINODEWORDS * k + 2, ws, DINODEWORDS * j + 3 + x);
    }
    assert got == want;
  }

  /** Where it is in the block: the size in the third of its sixteen words and the addresses in the thirteen after it.
      The words before, with type, device numbers and link count, stay as they are. */
  lemma DinodeFormat(f: Words, b: Block, k: nat, ip: Inode, x: nat, j: nat)
    requires WordsWork(f) && k < IPB && Storable(ip) && x <= NDIRECT && j < WORDS && !(16 * k + 2 <= j < 16 * k + 16)
    ensures var r := PutDinode(f, b, k, ip);
      f.get(r, 16 * k + 2) == ip.size && f.get(r, 16 * k + 3 + x) == ip.addrs[x] && f.get(r, j) == f.get(b, j)
  {
    var ws := [ip.size] + ip.addrs;
    WordsBack(f, b, 16 * k + 2, ws, 16 * k + 2);
    WordsBack(f, b, 16 * k + 2, ws, 16 * k + 3 + x);
    WordsBack(f, b, 16 * k + 2, ws, j);
  }

  lemma ZeroDinode(f: Words, k: nat)
    requires WordsWork(f) && k < IPB
    ensures GetDinode(f, ZeroBlock(), k) == EmptyInode
  {
    var got := GetDinode(f, ZeroBlock(), k).addrs;
    forall x | 0 <= x <= NDIRECT ensures got[x] == 0 {
    }
    assert got == EmptyInode.addrs;
  }

  // ------------------------------------------------------------------ the inodes of a partition

  /** Inode `i` as the disk has it. */
  function OnDisk(f: Words, s: Store, start: nat, i: nat): Inode {
    if start + i / IPB < |s.blocks| then GetDinode(f, s.blocks[start + i / IPB], i % IPB) else EmptyInode
  }

  /** The inodes lie before the bitmap block. */
  predicate Room(s: Store, start: nat) {
    0 < s.first <= |s.blocks| && start + (|s.inodes| + IPB - 1) / IPB < s.first
  }

  /** One block before the data has been written. */
  function MetaWritten(s: Store, x: nat, v: Block): Store {
    if x < |s.blocks| then s.(blocks := s.blocks[x := v]) else s
  }

  /** `iupdate`: inode `ino` is copied to its block. */
  function Updated(f: Words, s: Store, start: nat, ino: nat): Store
    requires ino < |s.inodes| && Room(s, start)
  {
    var x := start + ino / IPB;
    MetaWritten(s, x, PutDinode(f, s.blocks[x], ino % IPB, s.inodes[ino]))
  }

  /** Then the disk has that inode as memory has it, and every other as it had it. */
  lemma UpdatedDisk(f: Words, s: Store, start: nat, ino: nat, i: nat)
    requires WordsWork(f) && ino < |s.inodes| && Room(s, start) && Storable(s.inodes[ino]) && i < |s.inodes|
    ensures OnDisk(f, Updated(f, s, start, ino), start, i) == if i == ino then s.inodes[i] else OnDisk(f, s, start, i)
  {
    var x := start + ino / IPB;
    assert i != ino && i / IPB == ino / IPB ==> i % IPB != ino % IPB;
    DinodeBack(f, s.blocks[x], ino % IPB, s.inodes[ino], i % IPB);
  }

  /** The disk has all inodes as memory has them. */
  ghost predicate AllOnDisk(f: Words, s: Store, start: nat) {
    forall i: nat :: i < |s.inodes| ==> OnDisk(f, s, start, i) == s.inodes[i]
  }

  ghost function Synced(f: Words, s: Store, start: nat): Status {
    if forall k {:trigger Open(k)} :: k == 0 ==> AllOnDisk(f, s, start) then Sound else Broken
  }

  /** If no file had a hole, the disk still has all inodes if it had them. */
  ghost predicate StaysSynced(f: Words, s: Store, s': Store, start: nat) {
    Whole(f, s) == Sound && Synced(f, s, start) == Sound ==> Synced(f, s', start) == Sound
  }

  /** The disk has inode `ino` as memory has it now if `written`, and all others as it had them. */
  ghost predicate OneWritten(f: Words, s: Store, s': Store, start: nat, ino: nat, written: bool) {
    && |s'.inodes| == |s.inodes|
    && forall i: nat :: i < |s.inodes| ==>
         OnDisk(f, s', start, i) == if i == ino && written then s'.inodes[i] else OnDisk(f, s, start, i)
  }

  ghost function Saving(f: Words, s: Store, s': Store, start: nat, ino: nat, written: bool): Status {
    if forall k {:trigger Open(k)} :: k == 0 ==> OneWritten(f, s, s', start, ino, written) then Sound else Broken
  }

  /** What is before the data decides what the disk has. */
  lemma HeadSaves(f: Words, s: Store, s': Store, start: nat, ino: nat)
    requires HeadKept(s, s') == Sound && Room(s, start) && |s'.inodes| == |s.inodes|
    ensures Saving(f, s, s', start, ino, false) == Sound && Room(s', start)
  {
    assert Open(0);
    forall i: nat | i < |s.inodes| ensures OnDisk(f, s', start, i) == OnDisk(f, s, start, i) {
      assert start + i / IPB < s.first;
    }
    assert OneWritten(f, s, s', start, ino, false);
  }

  /** Files grow or shrink in memory, then iupdate. */
  lemma UpdateSaves(f: Words, s: Store, s': Store, start: nat, ino: nat)
    requires Saving(f, s, s', start, ino, false) == Sound && Room(s', start) && ino < |s'.inodes|
    requires WordsWork(f) && Storable(s'.inodes[ino])
    ensures Saving(f, s, Updated(f, s', start, ino), start, ino, true) == Sound
  {
    assert Open(0);
    var r := Updated(f, s', start, ino);
    forall i: nat | i < |s.inodes|
      ensures OnDisk(f, r, start, i) == if i == ino then r.inodes[i] else OnDisk(f, s, start, i)
    {
      UpdatedDisk(f, s', start, ino, i);
    }
    assert OneWritten(f, s, r, start, ino, true);
  }

  /** If the disk had all inodes, it has them again exactly if the one that changed was written. */
  lemma SyncedThen(f: Words, s: Store, s': Store, start: nat, ino: nat, written: bool)
    requires Synced(f, s, start) == Sound && Saving(f, s, s', start, ino, written) == Sound && ino < |s.inodes|
    requires |s'.inodes| == |s.inodes| && forall i: nat :: i < |s.inodes| && i != ino ==> s'.inodes[i] == s.inodes[i]
    ensures Synced(f, s', start) == Sound <==> written || s'.inodes[ino] == s.inodes[ino]
  {
    assert Open(0);
    assert OnDisk(f, s', start, ino) == if written then s'.inodes[ino] else s.inodes[ino];
    if written || s'.inodes[ino] == s.inodes[ino] {
      assert AllOnDisk(f, s', start);
    }
  }

  // ------------------------------------------------------------------ files do not notice

  lemma MetaAddr(f: Words, s: Store, x: nat, v: Block, i: nat, t: nat)
    requires Shape(s) && x < s.first && i < |s.inodes| && t < SLOTS
    ensures Shape(MetaWritten(s, x, v)) && AddrOf(f, MetaWritten(s, x, v), i, t) == AddrOf(f, s, i, t)
  {
  }

  lemma MetaImage(f: Words, s: Store, owner: map<nat, Ref>, x: nat, v: Block, i: nat)
    requires WF(f, s, owner) && x < s.first && i < |s.inodes|
    ensures Shape(MetaWritten(s, x, v)) && Image(f, MetaWritten(s, x, v), i) == Image(f, s, i)
  {
    var s' := MetaWritten(s, x, v);
    forall k: nat | k < MAXFILE * BSIZE ensures Shape(s') && ByteAt(f, s', i, k) == ByteAt(f, s, i, k) {
      MetaAddr(f, s, x, v, i, k / BSIZE);
      assert AddrOf(f, s, i, k / BSIZE) != 0 ==> AddrOf(f, s, i, k / BSIZE) in owner;
    }
  }

  /** What stays the same. */
  ghost predicate MetaOnly(f: Words, s: Store, s': Store) {
    && Shape(s) && Shape(s') && s' == s.(blocks := s'.blocks)
    && (forall i: nat, t: nat :: i < |s.inodes| && t < SLOTS ==> AddrOf(f, s', i, t) == AddrOf(f, s, i, t))
    && forall i: nat :: i < |s.inodes| ==> Image(f, s', i) == Image(f, s, i)
  }

  ghost function Aside(f: Words, s: Store, s': Store): Status {
    if forall k {:trigger Open(k)} :: k == 0 ==> MetaOnly(f, s, s') then Sound else Broken
  }

  /** A block before the data may be written. */
  lemma MetaSound(f: Words, s: Store, owner: map<nat, Ref>, x: nat, v: Block)
    requires Healthy(f, s, owner) == Sound && x < s.first
    ensures Healthy(f, MetaWritten(s, x, v), owner) == Sound && Aside(f, s, MetaWritten(s, x, v)) == Sound
    ensures Shape(MetaWritten(s, x, v))
  {
    assert Open(0);
    var s' := MetaWritten(s, x, v);
    forall i: nat, t: nat | i < |s.inodes| && t < SLOTS ensures Shape(s') && AddrOf(f, s', i, t) == AddrOf(f, s, i, t) {
      MetaAddr(f, s, x, v, i, t);
    }
    forall i: nat | i < |s.inodes| ensures Shape(s') && Image(f, s', i) == Image(f, s, i) {
      MetaImage(f, s, owner, x, v, i);
    }
    assert Wholesome(f, s', owner);
    assert MetaOnly(f, s, s');
  }

  lemma {:induction false} AsideCost(f: Words, s0: Store, s1: Store, s2: Store, ino: nat, lo: nat, hi: nat)
    requires MetaOnly(f, s1, s2) && Shape(s0) && ino < |s0.inodes| && ino < |s1.inodes| && hi <= MAXFILE
    ensures RangeCost(f, s0, s2, ino, lo, hi) == RangeCost(f, s0, s1, ino, lo, hi)
    decreases hi
  {
    if lo < hi {
      AsideCost(f, s0, s1, s2, ino, lo, hi - 1);
    }
  }

  /** So a write stays the write it was. */
  lemma AsideWriting(f: Words, s0: Store, s1: Store, s2: Store, ino: nat, off: nat, src: seq<byte>, log: set<nat>,
                     inodeBlock: nat)
    requires Writing(f, s0, s1, ino, off, src, log, inodeBlock) == Sound && Aside(f, s1, s2) == Sound
    ensures Writing(f, s0, s2, ino, off, src, log, inodeBlock) == Sound
  {
    assert Open(0);
    AsideCost(f, s0, s1, s2, ino, off / BSIZE, BlockEnd(off, |src|));
    assert Supplied(f, s0, s2, ino, off / BSIZE, BlockEnd(off, |src|));
    assert WroteFile(f, s0, s2, ino, off, src, log, inodeBlock);
  }

  /** Nor does a file come to have a hole. */
  lemma AsideWhole(f: Words, s: Store, s': Store)
    requires Aside(f, s, s') == Sound && Whole(f, s) == Sound
    ensures Whole(f, s') == Sound
  {
    assert Open(0);
    forall i: nat | i < |s'.inodes| ensures Snug(f, s', i) && s'.inodes[i].size <= MAXFILE * BSIZE {
      assert Snug(f, s, i);
    }
    assert AllSnug(f, s');
  }

  lemma AsideSame(f: Words, s: Store)
    requires Shape(s)
    ensures Aside(f, s, s) == Sound
  {
    assert MetaOnly(f, s, s);
  }

  /** Every inode of a sound partition can be stored. */
  lemma HealthyStorable(f: Words, s: Store, owner: map<nat, Ref>, ino: nat)
    requires Healthy(f, s, owner) == Sound && ino < |s.inodes|
    ensures WordsWork(f) && Storable(s.inodes[ino])
  {
    assert Open(0);
    var ip := s.inodes[ino];
    forall x | 0 <= x < |ip.addrs| ensures ip.addrs[x] < 0x1_0000_0000 {
      var t := if x == NDIRECT then IND else x;
      assert AddrOf(f, s, ino, t) == ip.addrs[x];
      assert ip.addrs[x] != 0 ==> ip.addrs[x] in owner;
    }
  }

  lemma UpdateSound(f: Words, s: Store, owner: map<nat, Ref>, start: nat, ino: nat)
    requires Healthy(f, s, owner) == Sound && Room(s, start) && ino < |s.inodes|
    ensures var s' := Updated(f, s, start, ino);
      Shape(s') && Healthy(f, s', owner) == Sound && Aside(f, s, s') == Sound && Room(s', start)
  {
    assert start + ino / IPB < s.first;
    MetaSound(f, s, owner, start + ino / IPB, PutDinode(f, s.blocks[start + ino / IPB], ino % IPB, s.inodes[ino]));
  }

  // ------------------------------------------------------------------ whole operations

  /** Before `writei` sets the size, the disk has the inodes that it had. */
  lemma TurnSaves(f: Words, s0: Store, s1: Store, start: nat, ino: nat, src: seq<byte>, off: nat, tot: nat,
                  log: set<nat>, size: nat)
    requires Turn(f, s0, s1, ino, src, off, tot, log) && Room(s0, start) && ino < |s1.inodes|
    ensures Saving(f, s0, WithSize(s1, ino, size), start, ino, false) == Sound && Room(WithSize(s1, ino, size), start)
  {
    PaidHead(f, s0, s1, ino, off / BSIZE, BlockEnd(off, tot), log);
    SizeHead(s0, s1, ino, size);
    HeadSaves(f, s0, WithSize(s1, ino, size), start, ino);
  }

  lemma PaidHead(f: Words, s0: Store, s1: Store, ino: nat, lo: nat, hi: nat, log: set<nat>)
    requires Paying(f, s0, s1, ino, lo, hi, log) == Sound
    ensures HeadKept(s0, s1) == Sound && |s1.inodes| == |s0.inodes|
  {
    assert Open(0);
  }

  lemma SizeHead(s0: Store, s1: Store, ino: nat, size: nat)
    requires HeadKept(s0, s1) == Sound && ino < |s1.inodes|
    ensures HeadKept(s0, WithSize(s1, ino, size)) == Sound
  {
    assert Open(0);
    assert SameHead(s0, WithSize(s1, ino, size));
  }

  /** One of the slots `lo` to `hi` that are kept in the inode itself names no block, or the indirect block that they
      need is not there. */
  ghost predicate Lacks(f: Words, s: Store, ino: nat, lo: nat, hi: nat)
    requires Shape(s) && ino < |s.inodes|
  {
    || (exists t: nat :: lo <= t < hi && t < NDIRECT && AddrOf(f, s, ino, t) == 0)
    || (lo < hi && NDIRECT < hi && AddrOf(f, s, ino, IND) == 0)
  }

  /** Supplying those blocks changes the inode exactly then. */
  lemma SupplyChanges(f: Words, s: Store, s': Store, ino: nat, lo: nat, hi: nat)
    requires Supplied(f, s, s', ino, lo, hi) && s'.inodes[ino].size == s.inodes[ino].size
    ensures s'.inodes[ino] == s.inodes[ino] <==> !Lacks(f, s, ino, lo, hi)
  {
    if !Lacks(f, s, ino, lo, hi) {
      SameInode(f, s, s', ino);
    } else if s'.inodes[ino] == s.inodes[ino] {
      assert forall t: nat :: t < SLOTS && (t < NDIRECT || t == IND) ==> AddrOf(f, s', ino, t) == AddrOf(f, s, ino, t);
    }
  }

  /** A write changes no inode but its own. */
  lemma WriteInodes(f: Words, s: Store, s': Store, ino: nat, off: nat, src: seq<byte>, log: set<nat>, inodeBlock: nat)
    requires WroteFile(f, s, s', ino, off, src, log, inodeBlock)
    ensures |s'.inodes| == |s.inodes| && forall i: nat :: i < |s.inodes| && i != ino ==> s'.inodes[i] == s.inodes[i]
    ensures off + |src| <= s.inodes[ino].size ==>
      (s'.inodes[ino] == s.inodes[ino] <==> !Lacks(f, s, ino, off / BSIZE, BlockEnd(off, |src|)))
  {
    forall i: nat | i < |s.inodes| && i != ino ensures s'.inodes[i] == s.inodes[i] {
      SameInode(f, s, s', i);
    }
    if off + |src| <= s.inodes[ino].size {
      assert |WriteInto(File(f, s, ino), off, src)| == s.inodes[ino].size;
      SupplyChanges(f, s, s', ino, off / BSIZE, BlockEnd(off, |src|));
    }
  }

  lemma SameInode(f: Words, s: Store, s': Store, i: nat)
    requires Shape(s) && Shape(s') && i < |s.inodes| && i < |s'.inodes| && s'.inodes[i].size == s.inodes[i].size
    requires forall t: nat :: t < SLOTS && (t < NDIRECT || t == IND) ==> AddrOf(f, s', i, t) == AddrOf(f, s, i, t)
    ensures s'.inodes[i] == s.inodes[i]
  {
    var a, b := s'.inodes[i].addrs, s.inodes[i].addrs;
    forall x | 0 <= x <= NDIRECT ensures a[x] == b[x] {
      var t := if x == NDIRECT then IND else x;
      assert AddrOf(f, s', i, t) == AddrOf(f, s, i, t);
    }
    assert a == b;
  }

  /** So if the disk had all inodes it has them after a write exactly if the file has grown, when writei calls iupdate,
      or nothing was lacking. */
  lemma WriteSynced(f: Words, s: Store, s': Store, start: nat, ino: nat, off: nat, src: seq<byte>, log: set<nat>,
                    inodeBlock: nat)
    requires Synced(f, s, start) == Sound && WroteFile(f, s, s', ino, off, src, log, inodeBlock)
    requires Saving(f, s, s', start, ino, off + |src| > s.inodes[ino].size) == Sound
    ensures Synced(f, s', start) == Sound <==>
      off + |src| > s.inodes[ino].size || !Lacks(f, s, ino, off / BSIZE, BlockEnd(off, |src|))
  {
    WriteInodes(f, s, s', ino, off, src, log, inodeBlock);
    SyncedThen(f, s, s', start, ino, off + |src| > s.inodes[ino].size);
  }

  /** After a read, which never calls iupdate, exactly if nothing was lacking. */
  lemma ReadSynced(f: Words, s: Store, s': Store, start: nat, ino: nat, lo: nat, hi: nat, log: set<nat>)
    requires Synced(f, s, start) == Sound && Paying(f, s, s', ino, lo, hi, log) == Sound && SameImages(f, s, s')
    requires Room(s, start) && Shape(s) && ino < |s.inodes|
    ensures Saving(f, s, s', start, ino, false) == Sound
    ensures Synced(f, s', start) == Sound <==> !Lacks(f, s, ino, lo, hi)
  {
    PaidHead(f, s, s', ino, lo, hi, log);
    HeadSaves(f, s, s', start, ino);
    ReadInodes(f, s, s', ino, lo, hi, log);
    SyncedThen(f, s, s', start, ino, false);
  }

  lemma ReadInodes(f: Words, s: Store, s': Store, ino: nat, lo: nat, hi: nat, log: set<nat>)
    requires Paying(f, s, s', ino, lo, hi, log) == Sound && SameImages(f, s, s') && ino < |s.inodes|
    ensures |s'.inodes| == |s.inodes| && forall i: nat :: i < |s.inodes| && i != ino ==> s'.inodes[i] == s.inodes[i]
    ensures s'.inodes[ino] == s.inodes[ino] <==> !Lacks(f, s, ino, lo, hi)
  {
    assert Open(0);
    forall i: nat | i < |s.inodes| && i != ino ensures s'.inodes[i] == s.inodes[i] {
      SameInode(f, s, s', i);
    }
    SupplyChanges(f, s, s', ino, lo, hi);
  }

  /** A file without holes lacks nothing within its size. */
  lemma WholeLacksNothing(f: Words, s: Store, ino: nat, off: nat, n: nat)
    requires Whole(f, s) == Sound && Shape(s) && ino < |s.inodes| && off + n <= s.inodes[ino].size
    ensures !Lacks(f, s, ino, off / BSIZE, BlockEnd(off, n))
  {
    assert Open(0);
    assert Snug(f, s, ino);
    assert n > 0 ==> BlockEnd(off, n) <= Ceil(s.inodes[ino].size);
  }
}
