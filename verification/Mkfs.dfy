/** mkfs.c: the image it builds, as the kernel reads it. */
module MkfsLayout {
  import opened Blocks
  import opened Dinodes
  import opened LogBook

  const NINODES := 200
  const BPB := 4096              // bits to a block

  /** The blocks of a partition of `fssize` blocks from `offset` on, as init_partition lays them out:
      superblock, log, inodes, bitmap, data. */
  datatype Layout = Layout(offset: nat, fssize: nat) {
    function Nbitmap(): nat { fssize / BPB + 1 }
    function InodeBlocks(): nat { NINODES / IPB + 1 }
    function Nmeta(): nat { 1 + LOGSIZE + InodeBlocks() + Nbitmap() }
    function LogStart(): nat { offset + 1 }
    function InodeStart(): nat { LogStart() + LOGSIZE }
    function BmapStart(): nat { InodeStart() + InodeBlocks() }
    function DataStart(): nat { offset + Nmeta() }
    function End(): nat { offset + fssize }
  }

  /** Which part of a partition a block is in. */
  datatype Region = Super | LogRegion | Inodes | BitmapRegion | Data | Outside

  function RegionOf(l: Layout, b: nat): Region {
    if b < l.offset || l.End() <= b then Outside
    else if b < l.LogStart() then Super
    else if b < l.InodeStart() then LogRegion
    else if b < l.BmapStart() then Inodes
    else if b < l.DataStart() then BitmapRegion
    else Data
  }

  /** The partitions follow one another, the first after the kernel. */
  function Partition(start: nat, fssize: nat, k: nat): Layout {
    Layout(start + k * fssize, fssize)
  }

  /** No block is in two partitions. */
  lemma PartitionsApart(start: nat, fssize: nat, j: nat, k: nat, b: nat)
    requires RegionOf(Partition(start, fssize, j), b) != Outside && RegionOf(Partition(start, fssize, k), b) != Outside
    ensures j == k
  {
    if j < k {
      Apart(fssize, j, k);
    } else if k < j {
      Apart(fssize, k, j);
    }
  }

  lemma Apart(fssize: nat, j: nat, k: nat)
    requires j < k
    ensures j * fssize + fssize <= k * fssize
  {
    assert j * fssize + fssize == (j + 1) * fssize;
    MulUp(j + 1, k, fssize);
  }

  lemma MulUp(a: nat, b: nat, c: nat)
    requires a <= b
    ensures a * c <= b * c
  {
    assert b * c == a * c + (b - a) * c;
  }

  // ------------------------------------------------------------------ where the kernel looks

  /** The superblock in memory, with absolute block numbers. */
  datatype Superblock = Superblock(size: word, nblocks: word, ninodes: word, nlog: word, logstart: word,
    inodestart: word, bmapstart: word)

  /** 32-bit addition. */
  function Add(a: word, b: word): word {
    (a + b) % 0x1_0000_0000
  }

  function Sub(a: word, b: word): word {
    (a - b) % 0x1_0000_0000
  }

  /** The end of init_partition: the starts are made relative, and the superblock written as seven words. */
  function WriteSb(sb: Superblock, offset: word): Block {
    PutWord(PutWord(PutWord(PutWord(PutWord(PutWord(PutWord(ZeroBlock(),
      0, sb.size), 1, sb.nblocks), 2, sb.ninodes), 3, sb.nlog),
      4, Sub(sb.logstart, offset)), 5, Sub(sb.inodestart, offset)), 6, Sub(sb.bmapstart, offset))
  }

  /** `readsb`. */
  function ReadSb(b: Block, offset: word): Superblock {
    Superblock(GetWord(b, 0), GetWord(b, 1), GetWord(b, 2), GetWord(b, 3),
               Add(GetWord(b, 4), offset), Add(GetWord(b, 5), offset), Add(GetWord(b, 6), offset))
  }

  lemma AddSub(a: word, b: word)
    ensures Add(Sub(a, b), b) == a
  {
  }

  /** Seven words written one after the other can all be read back. */
  lemma Words7(z: Block, w0: word, w1: word, w2: word, w3: word, w4: word, w5: word, w6: word)
    ensures var b := PutWord(PutWord(PutWord(PutWord(PutWord(PutWord(PutWord(z, 0, w0), 1, w1), 2, w2), 3, w3), 4, w4),
      5, w5), 6, w6);
      GetWord(b, 0) == w0 && GetWord(b, 1) == w1 && GetWord(b, 2) == w2 && GetWord(b, 3) == w3 && GetWord(b, 4) == w4
        && GetWord(b, 5) == w5 && GetWord(b, 6) == w6
  {
    var b0 := PutWord(z, 0, w0);
    var b1 := PutWord(b0, 1, w1);
    var b2 := PutWord(b1, 2, w2);
    var b3 := PutWord(b2, 3, w3);
    var b4 := PutWord(b3, 4, w4);
    var b5 := PutWord(b4, 5, w5);
    PutGetWord(z, 0, w0);
    PutGetWord(b0, 1, w1);
    PutGetWord(b1, 2, w2);
    PutGetWord(b2, 3, w3);
    PutGetWord(b3, 4, w4);
    PutGetWord(b4, 5, w5);
    PutGetWord(b5, 6, w6);
  }

  /** The kernel reads back the superblock that mkfs had, absolute starts included. */
  lemma ReadsWhatWasWritten(sb: Superblock, offset: word)
    ensures ReadSb(WriteSb(sb, offset), offset) == sb
  {
    Words7(ZeroBlock(), sb.size, sb.nblocks, sb.ninodes, sb.nlog, Sub(sb.logstart, offset), Sub(sb.inodestart, offset),
      Sub(sb.bmapstart, offset));
    AddSub(sb.logstart, offset);
    AddSub(sb.inodestart, offset);
    AddSub(sb.bmapstart, offset);
  }

  /** The superblock of a partition. */
  function SbOf(l: Layout): Superblock
    requires l.Nmeta() <= l.fssize && l.End() + l.Nmeta() <= 0x1_0000_0000
  {
    Superblock(l.fssize, l.fssize - l.Nmeta(), NINODES, LOGSIZE, l.LogStart(), l.InodeStart(), l.BmapStart())
  }

  /** On the disk the starts are relative, so partitions of one size have the same superblock wherever they lie. */
  lemma SuperblocksAlike(l: Layout, offset: nat)
    requires l.Nmeta() <= l.fssize && l.End() + l.Nmeta() <= 0x1_0000_0000
    requires offset + l.fssize + l.Nmeta() <= 0x1_0000_0000
    ensures WriteSb(SbOf(l), l.offset) == WriteSb(SbOf(Layout(offset, l.fssize)), offset)
  {
    var m := Layout(offset, l.fssize);
    assert Sub(l.LogStart(), l.offset) == Sub(m.LogStart(), offset);
    assert Sub(l.InodeStart(), l.offset) == Sub(m.InodeStart(), offset);
    assert Sub(l.BmapStart(), l.offset) == Sub(m.BmapStart(), offset);
  }

  /** `IBLOCK`, `BBLOCK` and freeblock_offset. */
  function InodeBlock(sb: Superblock, i: nat): nat { i / IPB + sb.inodestart }
  function BitBlock(sb: Superblock, b: nat): nat { b / BPB + sb.bmapstart }
  function FreeblockOffset(sb: Superblock): nat { sb.bmapstart + 1 }

  /** The kernel finds inodes and bits where mkfs has put them. */
  lemma KernelFindsMetadata(l: Layout, i: nat, bit: nat, k: nat)
    requires l.Nmeta() <= l.fssize && l.End() + l.Nmeta() <= 0x1_0000_0000 && i < NINODES && bit < l.fssize
    requires k < LOGSIZE
    ensures RegionOf(l, InodeBlock(SbOf(l), i)) == Inodes
    ensures RegionOf(l, BitBlock(SbOf(l), bit)) == BitmapRegion
    ensures RegionOf(l, SbOf(l).logstart + k) == LogRegion
  {
    assert bit / BPB <= l.fssize / BPB;
  }

  /** The two agree on the first data block exactly when there is one bitmap block. */
  lemma FirstAgrees(l: Layout)
    requires l.Nmeta() <= l.fssize && l.End() + l.Nmeta() <= 0x1_0000_0000
    ensures FreeblockOffset(SbOf(l)) == l.DataStart() <==> l.fssize < BPB
  {
  }

  /** The block that balloc returns for a bit lies in the data region of its own partition exactly when the bit
      is below nblocks; but balloc looks at all bits below sb.size. */
  lemma StaysInside(l: Layout, bit: nat)
    requires l.Nmeta() <= l.fssize < BPB && l.End() + l.Nmeta() <= 0x1_0000_0000 && bit < SbOf(l).size
    ensures RegionOf(l, FreeblockOffset(SbOf(l)) + bit) == Data <==> bit < SbOf(l).nblocks
    ensures SbOf(l).nblocks < SbOf(l).size
  {
  }

  /** With 1000 blocks to a partition, bits 942 to 999 stand for blocks of the next one. */
  lemma Overhang(start: nat, k: nat)
    requires start + (k + 2) * 1000 + 1000 < 0x1_0000_0000
    ensures var l := Partition(start, 1000, k);
      l.Nmeta() == 58 && SbOf(l).nblocks == 942
      && RegionOf(l, FreeblockOffset(SbOf(l)) + 942) == Outside
      && RegionOf(Partition(start, 1000, k + 1), FreeblockOffset(SbOf(l)) + 942) == Super
  {
  }
}

/** What a partition that mkfs fills amounts to. */
module MkfsModel {
  import opened Basics
  import opened Blocks
  import opened Dinodes
  import opened DirModel
  import opened FsHoles
  import opened FsModel
  import opened FsSteps
  import opened Sealed

  /** A bitmap of `n` bits of which the first `k` are set. */
  function Marks(n: nat, k: nat): (r: seq<bool>)
    ensures |r| == n && forall i :: 0 <= i < n ==> r[i] == (i < k)
  {
    seq(n, i => i < k)
  }

  lemma MarksFirst(n: nat, k: nat)
    requires k < n
    ensures FirstClear(Marks(n, k)) == k
  {
    FirstClearIs(Marks(n, k), k);
  }

  lemma {:induction false} MarksClear(n: nat, k: nat)
    requires k <= n
    ensures Clear(Marks(n, k)) == n - k
    decreases k
  {
    if k == 0 {
      AllClear(Marks(n, 0));
    } else {
      MarksClear(n, k - 1);
      assert Marks(n, k) == Marks(n, k - 1)[k - 1 := true];
      ClearOne(Marks(n, k - 1), k - 1);
    }
  }

  /** A disk of at least `n` blocks. What lies past the real end is never touched. */
  function Padded(blocks: seq<Block>, n: nat): (r: seq<Block>)
    ensures |r| == Max(|blocks|, n) && forall i :: 0 <= i < |blocks| ==> r[i] == blocks[i]
  {
    if n <= |blocks| then blocks else blocks + seq(n - |blocks|, _ => ZeroBlock())
  }

  lemma PaddedUpdate(blocks: seq<Block>, n: nat, x: nat, b: Block)
    requires x < |blocks|
    ensures Padded(blocks[x := b], n) == Padded(blocks, n)[x := b]
  {
    var l, r := Padded(blocks[x := b], n), Padded(blocks, n)[x := b];
    forall i | 0 <= i < |l| ensures l[i] == r[i] {
    }
  }

  // ------------------------------------------------------------------ blocks taken in order

  /** The first `used` data blocks are used, each by one slot of one inode; the others of the `n` are zero. */
  ghost predicate MakerOk(f: Words, s: Store, owner: map<nat, Ref>, used: nat, n: nat) {
    && Wholesome(f, s, owner) && used <= n <= |s.bitmap| && s.bitmap == Marks(|s.bitmap|, used)
    && forall b :: s.first + used <= b < s.first + n ==> s.blocks[b] == ZeroBlock()
  }

  ghost function Making(f: Words, s: Store, owner: map<nat, Ref>, used: nat, n: nat): Status {
    if forall k {:trigger Open(k)} :: k == 0 ==> MakerOk(f, s, owner, used, n) then Sound else Broken
  }

  lemma MakingIsHealthy(f: Words, s: Store, owner: map<nat, Ref>, used: nat, n: nat)
    requires Making(f, s, owner, used, n) == Sound
    ensures Healthy(f, s, owner) == Sound && Shape(s) && used <= n <= |s.bitmap| && Clear(s.bitmap) == |s.bitmap| - used
  {
    assert Open(0);
    MarksClear(|s.bitmap|, used);
  }

  /** The indirect block is one of those taken. */
  lemma IndirectTaken(f: Words, s: Store, owner: map<nat, Ref>, used: nat, n: nat, ino: nat)
    requires Making(f, s, owner, used, n) == Sound && ino < |s.inodes|
    ensures |s.inodes[ino].addrs| == NDIRECT + 1 && s.inodes[ino].size <= MAXFILE * BSIZE
    ensures s.inodes[ino].addrs[NDIRECT] != 0 ==> s.first <= s.inodes[ino].addrs[NDIRECT] < s.first + used
  {
    MakingIsHealthy(f, s, owner, used, n);
    Inside(f, s, owner, ino);
    assert Open(0);
  }

  /** The next block's bit is clear, and the block is zero already. */
  lemma NextBlock(f: Words, s: Store, owner: map<nat, Ref>, used: nat, n: nat)
    requires MakerOk(f, s, owner, used, n) && used < n
    ensures !s.bitmap[used] && s.first + used < |s.blocks|
    ensures Allocated(s, used) == s.(bitmap := Marks(|s.bitmap|, used + 1))
  {
    assert s.bitmap[used := true] == Marks(|s.bitmap|, used + 1);
    assert s.blocks[s.first + used := ZeroBlock()] == s.blocks;
  }

  /** `din.addrs[x] = freeblock++`. */
  function TookAddr(s: Store, used: nat, ino: nat, x: nat): Store
    requires ino < |s.inodes| && x < |s.inodes[ino].addrs|
  {
    WithAddr(s.(bitmap := Marks(|s.bitmap|, used + 1)), ino, x, s.first + used)
  }

  lemma TakeNextAddr(f: Words, s: Store, owner: map<nat, Ref>, used: nat, n: nat, ino: nat, x: nat)
    requires Making(f, s, owner, used, n) == Sound && used < n && ino < |s.inodes| && x <= NDIRECT
    requires |s.inodes[ino].addrs| == NDIRECT + 1 && s.inodes[ino].addrs[x] == 0
    ensures var s', b := TookAddr(s, used, ino, x), s.first + used;
      && Making(f, s', owner[b := Slot(ino, SlotOfAddr(x))], used + 1, n) == Sound
      && Naming(f, s, s', ino, SlotOfAddr(x), b) == Sound && b != 0
  {
    assert Open(0);
    var s', b := TookAddr(s, used, ino, x), s.first + used;
    NextBlock(f, s, owner, used, n);
    TakeAddr(f, s, owner, used, ino, x);
    assert MakerOk(f, s', owner[b := Slot(ino, SlotOfAddr(x))], used + 1, n);
  }

  /** `indirect[j] = freeblock++`. */
  function TookEntry(f: Words, s: Store, used: nat, ind: nat, j: nat): Store
    requires ind < |s.blocks|
  {
    s.(bitmap := Marks(|s.bitmap|, used + 1), blocks := s.blocks[ind := f.put(s.blocks[ind], j, s.first + used)])
  }

  lemma TakeNextEntry(f: Words, s: Store, owner: map<nat, Ref>, used: nat, n: nat, ino: nat, j: nat)
    requires Making(f, s, owner, used, n) == Sound && used < n && ino < |s.inodes| && j < NINDIRECT
    requires |s.inodes[ino].addrs| == NDIRECT + 1
    requires s.inodes[ino].addrs[NDIRECT] != 0 && s.inodes[ino].addrs[NDIRECT] < |s.blocks|
    requires f.get(s.blocks[s.inodes[ino].addrs[NDIRECT]], j) == 0
    ensures var s', b := TookEntry(f, s, used, s.inodes[ino].addrs[NDIRECT], j), s.first + used;
      && Making(f, s', owner[b := Slot(ino, NDIRECT + j)], used + 1, n) == Sound
      && Naming(f, s, s', ino, NDIRECT + j, b) == Sound
  {
    var b := s.first + used;
    var s' := TookEntry(f, s, used, s.inodes[ino].addrs[NDIRECT], j);
    EntryIsNext(f, s, owner, used, n, ino, j);
    TakeEntry(f, s, owner, used, ino, j);
    EntryMade(f, s, owner, owner[b := Slot(ino, NDIRECT + j)], used, n, ino, j);
  }

  /** The next block is the first free one. */
  lemma EntryIsNext(f: Words, s: Store, owner: map<nat, Ref>, used: nat, n: nat, ino: nat, j: nat)
    requires Making(f, s, owner, used, n) == Sound && used < n && ino < |s.inodes| && j < NINDIRECT
    requires |s.inodes[ino].addrs| == NDIRECT + 1
    requires s.inodes[ino].addrs[NDIRECT] != 0 && s.inodes[ino].addrs[NDIRECT] < |s.blocks|
    ensures Shape(s) && used < |s.bitmap| && !s.bitmap[used] && Healthy(f, s, owner) == Sound
    ensures Shape(Allocated(s, used)) && s.inodes[ino].addrs[NDIRECT] < |Allocated(s, used).blocks|
    ensures TookEntry(f, s, used, s.inodes[ino].addrs[NDIRECT], j)
         == WithEntry(f, Allocated(s, used), ino, j, s.first + used)
    ensures s.first <= s.inodes[ino].addrs[NDIRECT] < s.first + used
  {
    MakingIsHealthy(f, s, owner, used, n);
    IndirectTaken(f, s, owner, used, n, ino);
    assert Open(0);
    NextBlock(f, s, owner, used, n);
  }

  lemma EntryMade(f: Words, s: Store, owner: map<nat, Ref>, owner': map<nat, Ref>, used: nat, n: nat, ino: nat, j: nat)
    requires Making(f, s, owner, used, n) == Sound && used < n && ino < |s.inodes| && j < NINDIRECT && Shape(s)
    requires s.first <= s.inodes[ino].addrs[NDIRECT] < s.first + used <= |s.blocks|
    requires var s' := TookEntry(f, s, used, s.inodes[ino].addrs[NDIRECT], j); Healthy(f, s', owner') == Sound
    ensures Making(f, TookEntry(f, s, used, s.inodes[ino].addrs[NDIRECT], j), owner', used + 1, n) == Sound
  {
    assert Open(0);
    assert MakerOk(f, TookEntry(f, s, used, s.inodes[ino].addrs[NDIRECT], j), owner', used + 1, n);
  }

  /** An entry of the indirect block that names nothing gets the next block. */
  lemma NextEntryTaken(f: Words, s0: Store, s1: Store, owner: map<nat, Ref>, used: nat, n: nat, ino: nat, bn: nat,
                       ind: nat)
    requires Making(f, s1, owner, used, n) == Sound && used < n && ino < |s1.inodes| && NDIRECT <= bn < MAXFILE
    requires Indirect(f, s0, s1, ino, ind) == Sound && |s1.inodes[ino].addrs| == NDIRECT + 1 && s0.first > 0
    requires s1.inodes[ino].addrs[NDIRECT] == ind && ind != 0 && ind < |s1.blocks|
    requires f.get(s1.blocks[ind], bn - NDIRECT) == 0
    ensures var s2, b := TookEntry(f, s1, used, ind, bn - NDIRECT), s1.first + used;
      && Making(f, s2, owner[b := Slot(ino, bn)], used + 1, n) == Sound
      && Mapping(f, s0, s2, ino, bn, b, {s0.first - 1, b, ind}) == Sound
  {
    MakingIsHealthy(f, s1, owner, used, n);
    TakeNextEntry(f, s1, owner, used, n, ino, bn - NDIRECT);
    EntrySupplied(f, s0, s1, TookEntry(f, s1, used, ind, bn - NDIRECT), owner, ino, bn, ind, s1.first + used);
  }

  /** Copying a piece into a data block, which is one of those taken. */
  lemma PutSound(f: Words, s0: Store, s1: Store, owner: map<nat, Ref>, used: nat, n: nat, ino: nat, bn: nat, lo: nat,
                 addr: nat, piece: seq<byte>, log: set<nat>)
    requires Making(f, s1, owner, used, n) == Sound && Mapping(f, s0, s1, ino, bn, addr, log) == Sound
    requires lo + |piece| <= BSIZE
    ensures addr < |s1.blocks| && s1.first <= addr < s1.first + used
    ensures Making(f, WithBytes(s1, addr, lo, piece), owner, used, n) == Sound
  {
    MakingIsHealthy(f, s1, owner, used, n);
    PieceSound(f, s0, s1, owner, ino, bn, lo, addr, piece, log);
    assert Open(0);
    assert AddrOf(f, s1, ino, bn) == addr && addr in owner;
    assert MakerOk(f, WithBytes(s1, addr, lo, piece), owner, used, n);
  }

  // ------------------------------------------------------------------ the files of a partition

  /** Inode `ino` is a file with these bytes, without holes, and zeros should it be made longer. */
  ghost predicate Holds(f: Words, s: Store, ino: nat, data: seq<byte>) {
    && Snug(f, s, ino) && |data| <= MAXFILE * BSIZE && s.inodes[ino].size == |data|
    && Image(f, s, ino) == data + ZeroBytes(MAXFILE * BSIZE - |data|)
  }

  function Content(files: seq<seq<byte>>, i: nat): seq<byte> {
    if i < |files| then files[i] else []
  }

  /** Inode `i` has the bytes `files[i]`; the other inodes are empty. */
  ghost predicate Have(f: Words, s: Store, files: seq<seq<byte>>) {
    |files| <= |s.inodes| && forall i :: 0 <= i < |s.inodes| ==> Holds(f, s, i, Content(files, i))
  }

  ghost function Built(f: Words, s: Store, files: seq<seq<byte>>): Status {
    if forall k {:trigger Open(k)} :: k == 0 ==> Have(f, s, files) then Sound else Broken
  }

  /** How many blocks the files take. */
  function TotalBlocks(files: seq<seq<byte>>): nat {
    if files == [] then 0 else TotalBlocks(files[..|files| - 1]) + BlocksFor(|files[|files| - 1]|)
  }

  lemma {:induction false} TotalUpdate(files: seq<seq<byte>>, i: nat, x: seq<byte>)
    requires i < |files|
    ensures TotalBlocks(files[i := x]) + BlocksFor(|files[i]|) == TotalBlocks(files) + BlocksFor(|x|)
    decreases |files|
  {
    var n := |files| - 1;
    if i < n {
      assert files[i := x][..n] == files[..n][i := x];
      TotalUpdate(files[..n], i, x);
    } else {
      assert files[i := x][..n] == files[..n];
    }
  }

  lemma TotalNew(files: seq<seq<byte>>)
    ensures TotalBlocks(files + [[]]) == TotalBlocks(files)
  {
    assert (files + [[]])[..|files|] == files;
  }

  /** The bytes of `src` that fit the largest file. */
  function Fitting(off: nat, src: seq<byte>): seq<byte>
    requires off <= MAXFILE * BSIZE
  {
    src[..Min(|src|, MAXFILE * BSIZE - off)]
  }

  /** The size is that of the file, and what it would take to add `n` bytes. */
  lemma BuiltSize(f: Words, s: Store, files: seq<seq<byte>>, ino: nat)
    requires Built(f, s, files) == Sound && ino < |files|
    ensures ino < |s.inodes| && Shape(s) && s.inodes[ino].size == |files[ino]| <= MAXFILE * BSIZE
  {
    assert Open(0);
    assert Holds(f, s, ino, Content(files, ino));
  }

  lemma BuiltNeed(f: Words, s: Store, files: seq<seq<byte>>, ino: nat, n: nat)
    requires Built(f, s, files) == Sound && ino < |files| && |files[ino]| + n <= MAXFILE * BSIZE
    ensures ino < |s.inodes| && Shape(s) && BlockEnd(|files[ino]|, n) <= MAXFILE
    ensures NeedBlocks(f, s, ino, |files[ino]| / BSIZE, BlockEnd(|files[ino]|, n)) + BlocksFor(|files[ino]|)
      == BlocksFor(|files[ino]| + n)
  {
    assert Open(0);
    assert Holds(f, s, ino, Content(files, ino));
    SnugNeed(f, s, ino, n);
  }

  /** The end of iappend: the file has grown by `src`, the others are as they were. */
  lemma AppendEnd(f: Words, s0: Store, s1: Store, owner: map<nat, Ref>, used: nat, n: nat, ino: nat, src: seq<byte>,
                  files: seq<seq<byte>>, log: set<nat>)
    requires Making(f, s1, owner, used, n) == Sound && Built(f, s0, files) == Sound && ino < |files|
    requires ino < |s1.inodes|
    requires |files[ino]| + |src| <= MAXFILE * BSIZE && Turn(f, s0, s1, ino, src, |files[ino]|, |src|, log)
    ensures var s2 := WithSize(s1, ino, |files[ino]| + |src|);
      Making(f, s2, owner, used, n) == Sound && Built(f, s2, files[ino := files[ino] + src]) == Sound
    ensures Clear(s1.bitmap) + BlocksFor(|files[ino]| + |src|) == Clear(s0.bitmap) + BlocksFor(|files[ino]|)
  {
    BuiltNeed(f, s0, files, ino, |src|);
    SizeMaking(f, s1, owner, used, n, ino, |files[ino]| + |src|);
    LastTurn(f, s0, s1, ino, src, |files[ino]|, log);
    AppendedBuilt(f, s0, s1, ino, src, files);
  }

  lemma AppendedBuilt(f: Words, s0: Store, s1: Store, ino: nat, src: seq<byte>, files: seq<seq<byte>>)
    requires Built(f, s0, files) == Sound && ino < |files| && |files[ino]| + |src| <= MAXFILE * BSIZE
    requires ino < |s0.inodes| && Wrote(f, s0, s1, ino, |files[ino]|, src)
    requires Supplied(f, s0, s1, ino, |files[ino]| / BSIZE, BlockEnd(|files[ino]|, |src|))
    ensures Built(f, WithSize(s1, ino, |files[ino]| + |src|), files[ino := files[ino] + src]) == Sound
  {
    var s2, files' := WithSize(s1, ino, |files[ino]| + |src|), files[ino := files[ino] + src];
    forall i | 0 <= i < |s2.inodes| ensures Holds(f, s2, i, Content(files', i)) {
      AppendedHolds(f, s0, s1, ino, src, files, i);
    }
    assert |files| <= |s0.inodes| by {
      assert Open(0);
    }
    assert Have(f, s2, files');
  }

  lemma AppendedHolds(f: Words, s0: Store, s1: Store, ino: nat, src: seq<byte>, files: seq<seq<byte>>, i: nat)
    requires Built(f, s0, files) == Sound && ino < |files| && |files[ino]| + |src| <= MAXFILE * BSIZE
    requires ino < |s0.inodes| && i < |s0.inodes| && Wrote(f, s0, s1, ino, |files[ino]|, src)
    requires Supplied(f, s0, s1, ino, |files[ino]| / BSIZE, BlockEnd(|files[ino]|, |src|))
    ensures Holds(f, WithSize(s1, ino, |files[ino]| + |src|), i, Content(files[ino := files[ino] + src], i))
  {
    var s2 := WithSize(s1, ino, |files[ino]| + |src|);
    BuiltHolds(f, s0, files, i);
    if i == ino {
      HoldsMore(f, s0, s1, s2, ino, files[ino], src);
    } else {
      HoldsStill(f, s0, s1, s2, ino, i, files[ino], src, Content(files, i));
    }
  }

  lemma BuiltHolds(f: Words, s: Store, files: seq<seq<byte>>, i: nat)
    requires Built(f, s, files) == Sound && i < |s.inodes|
    ensures Holds(f, s, i, Content(files, i))
  {
    assert Open(0);
  }

  lemma SizeMaking(f: Words, s: Store, owner: map<nat, Ref>, used: nat, n: nat, ino: nat, size: nat)
    requires Making(f, s, owner, used, n) == Sound && ino < |s.inodes| && size <= MAXFILE * BSIZE
    ensures Making(f, WithSize(s, ino, size), owner, used, n) == Sound
  {
    assert Open(0);
    WithSizeSound(f, s, owner, ino, size);
    assert MakerOk(f, WithSize(s, ino, size), owner, used, n);
  }

  lemma HoldsMore(f: Words, s0: Store, s1: Store, s2: Store, ino: nat, was: seq<byte>, src: seq<byte>)
    requires Holds(f, s0, ino, was) && |was| + |src| <= MAXFILE * BSIZE && Wrote(f, s0, s1, ino, |was|, src)
    requires Supplied(f, s0, s1, ino, |was| / BSIZE, BlockEnd(|was|, |src|)) && s2 == WithSize(s1, ino, |was| + |src|)
    ensures Holds(f, s2, ino, was + src)
  {
    SnugAfter(f, s0, s1, s2, ino, |src|);
    WithSizeImage(f, s1, ino, |was| + |src|, ino);
    OverlayZeros(was, src);
  }

  lemma HoldsStill(f: Words, s0: Store, s1: Store, s2: Store, ino: nat, i: nat, was: seq<byte>, src: seq<byte>,
                   data: seq<byte>)
    requires Holds(f, s0, i, data) && i != ino && Wrote(f, s0, s1, ino, |was|, src)
    requires s2 == WithSize(s1, ino, |was| + |src|)
    requires Supplied(f, s0, s1, ino, |was| / BSIZE, BlockEnd(|was|, |src|))
    ensures Holds(f, s2, i, data)
  {
    SnugElsewhere(f, s0, s1, s2, ino, |was| / BSIZE, BlockEnd(|was|, |src|), |was| + |src|, i);
    WithSizeImage(f, s1, ino, |was| + |src|, i);
  }

  lemma OverlayZeros(was: seq<byte>, data: seq<byte>)
    requires |was| + |data| <= MAXFILE * BSIZE
    ensures Overlay(was + ZeroBytes(MAXFILE * BSIZE - |was|), |was|, data)
         == (was + data) + ZeroBytes(MAXFILE * BSIZE - |was| - |data|)
  {
  }

  /** A new inode is an empty file. */
  lemma BuiltNew(f: Words, s: Store, files: seq<seq<byte>>)
    requires Built(f, s, files) == Sound && |files| < |s.inodes|
    ensures Built(f, s, files + [[]]) == Sound
  {
    assert Open(0);
    var files' := files + [[]];
    forall i | 0 <= i < |s.inodes| ensures Holds(f, s, i, Content(files', i)) {
      assert Holds(f, s, i, Content(files, i));
    }
    assert Have(f, s, files');
  }

  /** A zeroed partition. */
  lemma FreshSound(f: Words, s: Store, n: nat)
    requires WordsWork(f) && Shape(s) && n <= |s.bitmap| && s.bitmap == Marks(|s.bitmap|, 0) && |s.inodes| >= 1
    requires forall i :: 0 <= i < |s.inodes| ==> s.inodes[i] == EmptyInode
    requires forall b :: s.first <= b < s.first + n ==> s.blocks[b] == ZeroBlock()
    ensures Making(f, s, map[], 0, n) == Sound && Built(f, s, [[]]) == Sound
  {
    EmptyIsHealthy(f, s);
    assert MakerOk(f, s, map[], 0, n) by {
      assert Open(0);
    }
    forall i | 0 <= i < |s.inodes| ensures Holds(f, s, i, Content([[]], i)) {
      var a, b := Image(f, s, i), [] + ZeroBytes(MAXFILE * BSIZE);
      forall k | 0 <= k < |a| ensures a[k] == b[k] {
        assert AddrOf(f, s, i, k / BSIZE) == 0;
      }
      assert a == b;
    }
    assert Have(f, s, [[]]);
  }

  // ------------------------------------------------------------------ the root directory

  /** The root directory after the first `n` files. */
  function RootBytes(names: seq<seq<byte>>, n: nat): (d: seq<byte>)
    requires n <= |names|
    ensures |d| == 16 * (n + 2)
  {
    if n == 0 then Dirent(1, DOT) + Dirent(1, DOTDOT) else RootBytes(names, n - 1) + Dirent(n + 1, names[n - 1])
  }

  /** By inode number, what the partition holds after the first `n` files. */
  function FileSet(names: seq<seq<byte>>, data: seq<seq<byte>>, n: nat): seq<seq<byte>>
    requires n <= |names| == |data|
  {
    [[], RootBytes(names, n)] + data[..n]
  }

  /** Every file is small enough, and together with the root directory they take no more than `n` blocks. */
  ghost predicate FilesFit(names: seq<seq<byte>>, data: seq<seq<byte>>, n: nat)
    requires |names| == |data|
  {
    && (forall i :: 0 <= i < |data| ==> |data[i]| <= MAXFILE * BSIZE)
    && TotalBlocks(FileSet(names, data, |data|)) <= n
  }

  lemma FileSetNext(names: seq<seq<byte>>, data: seq<seq<byte>>, i: nat)
    requires i < |names| == |data|
    ensures var was, de := FileSet(names, data, i), Dirent(i + 2, names[i]);
      && |was| == i + 2 && FileSet(names, data, i + 1) == was[1 := was[1] + de] + [data[i]]
      && |was[1]| == 16 * (i + 2)
      && TotalBlocks(FileSet(names, data, i + 1)) == TotalBlocks(was[1 := was[1] + de]) + BlocksFor(|data[i]|)
      && TotalBlocks(was) <= TotalBlocks(was[1 := was[1] + de])
  {
    var was, de := FileSet(names, data, i), Dirent(i + 2, names[i]);
    var next := was[1 := was[1] + de] + [data[i]];
    assert data[..i + 1] == data[..i] + [data[i]];
    assert FileSet(names, data, i + 1) == next;
    assert next[..|next| - 1] == was[1 := was[1] + de];
    TotalUpdate(was, 1, was[1] + de);
    BlocksForGrows(|was[1]|, |was[1] + de|);
  }

  lemma {:induction false} TotalGrows(names: seq<seq<byte>>, data: seq<seq<byte>>, i: nat, n: nat)
    requires i <= n <= |names| == |data|
    ensures TotalBlocks(FileSet(names, data, i)) <= TotalBlocks(FileSet(names, data, n))
    decreases n
  {
    if i < n {
      TotalGrows(names, data, i, n - 1);
      FileSetNext(names, data, n - 1);
    }
  }

  lemma FileSetStart(names: seq<seq<byte>>, data: seq<seq<byte>>)
    requires |names| == |data|
    ensures var none: seq<seq<byte>> := [[], []]; var dot := none[1 := none[1] + Dirent(1, DOT)];
      dot[1 := dot[1] + Dirent(1, DOTDOT)] == FileSet(names, data, 0)
    ensures TotalBlocks([[], []]) == 0
    ensures var none: seq<seq<byte>> := [[], []]; TotalBlocks(none[1 := none[1] + Dirent(1, DOT)]) == 1
    ensures TotalBlocks(FileSet(names, data, 0)) == 1
  {
    var none: seq<seq<byte>> := [[], []];
    var empty: seq<byte> := [];
    assert empty + Dirent(1, DOT) == Dirent(1, DOT);
    assert none[..1] == [[]] && none[..1][..0] == [];
    assert TotalBlocks(none[..1][..0]) == 0;
    TotalUpdate(none, 1, none[1] + Dirent(1, DOT));
    var dot := none[1 := none[1] + Dirent(1, DOT)];
    TotalUpdate(dot, 1, dot[1] + Dirent(1, DOTDOT));
  }

  lemma LastTotal(files: seq<seq<byte>>, x: seq<byte>)
    ensures TotalBlocks(files + [x]) == TotalBlocks(files) + BlocksFor(|x|)
  {
    assert (files + [x])[..|files|] == files;
  }

  /** What of a file fits takes no more than the file. */
  lemma FitTotal(names: seq<seq<byte>>, data: seq<seq<byte>>, i: nat)
    requires i < |names| == |data|
    ensures var was := FileSet(names, data, i); var f1 := was[1 := was[1] + Dirent(|was|, names[i])];
      TotalBlocks(f1 + [Fitting(0, data[i])]) <= TotalBlocks(FileSet(names, data, i + 1))
  {
    FileSetNext(names, data, i);
    var was := FileSet(names, data, i);
    LastTotal(was[1 := was[1] + Dirent(|was|, names[i])], Fitting(0, data[i]));
    BlocksForGrows(|Fitting(0, data[i])|, |data[i]|);
  }

  /** The size of the root directory is one block more than its full blocks; what lies past its entries is
      zero, and only the blocks of its entries are there. The other files are as they were appended, without holes. */
  ghost predicate Rounded(f: Words, s: Store, files: seq<seq<byte>>) {
    && Shape(s) && 2 <= |files| <= |s.inodes|
    && (forall i: nat :: i < |s.inodes| ==> s.inodes[i].size <= MAXFILE * BSIZE && (i != 1 ==> Snug(f, s, i)))
    && (forall i :: 2 <= i < |files| ==> File(f, s, i) == files[i])
    && File(f, s, 1) == Seen(files, 1)
    && (forall t: nat :: t < MAXFILE ==> (AddrOf(f, s, 1, t) != 0 <==> t < Ceil(|files[1]|)))
    && (AddrOf(f, s, 1, IND) != 0 <==> Ceil(|files[1]|) > NDIRECT)
  }

  ghost function RootRounded(f: Words, s: Store, files: seq<seq<byte>>): Status {
    if forall k {:trigger Open(k)} :: k == 0 ==> Rounded(f, s, files) then Sound else Broken
  }

  lemma RoundRoot(f: Words, s: Store, owner: map<nat, Ref>, used: nat, n: nat, files: seq<seq<byte>>)
    requires Making(f, s, owner, used, n) == Sound && Built(f, s, files) == Sound && 2 <= |files|
    requires |files[1]| < 40 * BSIZE
    ensures |s.inodes| >= 2 && s.inodes[1].size == |files[1]|
    ensures var s' := WithSize(s, 1, (|files[1]| / BSIZE + 1) * BSIZE);
      Making(f, s', owner, used, n) == Sound && RootRounded(f, s', files) == Sound
  {
    var size := (|files[1]| / BSIZE + 1) * BSIZE;
    BuiltSize(f, s, files, 1);
    SizeMaking(f, s, owner, used, n, 1, size);
    var s' := WithSize(s, 1, size);
    forall i: nat | i < |s'.inodes|
      ensures s'.inodes[i].size <= MAXFILE * BSIZE && (i != 1 ==> Snug(f, s', i))
      ensures 2 <= i < |files| ==> File(f, s', i) == files[i]
    {
      BuiltHolds(f, s, files, i);
      WithSizeImage(f, s, 1, size, i);
      if i != 1 {
        SizeSnug(f, s, 1, size, i);
      }
    }
    RoundedRoot(f, s, files, size);
    assert |files| <= |s.inodes| by {
      assert Open(0);
    }
    assert Rounded(f, s', files);
  }

  lemma RoundedRoot(f: Words, s: Store, files: seq<seq<byte>>, size: nat)
    requires Built(f, s, files) == Sound && 2 <= |files| && |files[1]| < size <= MAXFILE * BSIZE && |s.inodes| >= 2
    ensures Shape(s) && Shape(WithSize(s, 1, size)) && WithSize(s, 1, size).inodes[1].size <= MAXFILE * BSIZE
    ensures File(f, WithSize(s, 1, size), 1) == files[1] + ZeroBytes(size - |files[1]|)
    ensures forall t: nat :: t < MAXFILE ==> (AddrOf(f, WithSize(s, 1, size), 1, t) != 0 <==> t < Ceil(|files[1]|))
    ensures AddrOf(f, WithSize(s, 1, size), 1, IND) != 0 <==> Ceil(|files[1]|) > NDIRECT
  {
    BuiltHolds(f, s, files, 1);
    WithSizeImage(f, s, 1, size, 1);
    forall t: nat | t < SLOTS
      ensures Shape(WithSize(s, 1, size)) && AddrOf(f, WithSize(s, 1, size), 1, t) == AddrOf(f, s, 1, t)
    {
      WithSizeAddr(f, s, 1, size, 1, t);
    }
  }

  lemma SizeSnug(f: Words, s: Store, ino: nat, size: nat, i: nat)
    requires Snug(f, s, i) && ino < |s.inodes| && i != ino
    ensures Snug(f, WithSize(s, ino, size), i)
  {
    forall t: nat | t < SLOTS
      ensures Shape(WithSize(s, ino, size)) && AddrOf(f, WithSize(s, ino, size), i, t) == AddrOf(f, s, i, t)
    {
      WithSizeAddr(f, s, ino, size, i, t);
    }
  }

  /** What a file of the partition reads as: the root directory is padded with zeros. */
  function Seen(files: seq<seq<byte>>, ino: nat): seq<byte>
    requires 1 <= ino < |files|
  {
    if ino == 1 then files[1] + ZeroBytes((|files[1]| / BSIZE + 1) * BSIZE - |files[1]|) else files[ino]
  }

  /** A read of `m` bytes at `off` that reaches the block past the entries of a root directory that fills its blocks. */
  predicate PastRoot(files: seq<seq<byte>>, ino: nat, off: nat, m: nat)
    requires 2 <= |files|
  {
    ino == 1 && |files[1]| % BSIZE == 0 && m > 0 && off + m > |files[1]|
  }

  /** Only such a read takes a block, and it takes one. */
  lemma SeenReads(f: Words, s: Store, files: seq<seq<byte>>, ino: nat, off: nat, m: nat)
    requires RootRounded(f, s, files) == Sound && 1 <= ino < |files| && off + m <= |Seen(files, ino)|
    requires |files[1]| < NDIRECT * BSIZE
    ensures Shape(s) && ino < |s.inodes| && s.inodes[ino].size == |Seen(files, ino)| <= MAXFILE * BSIZE
    ensures File(f, s, ino) == Seen(files, ino)
    ensures var lo, hi := off / BSIZE, BlockEnd(off, m);
      && NeedBlocks(f, s, ino, lo, hi) == One(PastRoot(files, ino, off, m))
      && (PastRoot(files, ino, off, m) ==>
            hi <= NDIRECT && Missing(f, s, 1, lo, hi) == 1 && HoleAt(f, s, 1, lo, hi) == |files[1]| / BSIZE)
  {
    assert Open(0);
    assert |File(f, s, ino)| == s.inodes[ino].size;
    if ino == 1 {
      RootReads(f, s, files, off, m);
    } else {
      SnugReads(f, s, ino, off, m);
    }
  }

  lemma RootReads(f: Words, s: Store, files: seq<seq<byte>>, off: nat, m: nat)
    requires Rounded(f, s, files) && |files[1]| < NDIRECT * BSIZE && off + m <= (|files[1]| / BSIZE + 1) * BSIZE
    ensures var lo, hi := off / BSIZE, BlockEnd(off, m);
      && hi <= MAXFILE && NeedBlocks(f, s, 1, lo, hi) == One(PastRoot(files, 1, off, m))
      && (PastRoot(files, 1, off, m) ==>
            hi <= NDIRECT && Missing(f, s, 1, lo, hi) == 1 && HoleAt(f, s, 1, lo, hi) == |files[1]| / BSIZE)
  {
    var lo, hi, c := off / BSIZE, BlockEnd(off, m), |files[1]| / BSIZE;
    RootSpan(|files[1]|, off, m);
    if PastRoot(files, 1, off, m) {
      NoneMissing(f, s, 1, lo, c);
      assert AddrOf(f, s, 1, c) == 0;
    } else {
      NoneMissing(f, s, 1, lo, hi);
    }
  }

  lemma RootSpan(size: nat, off: nat, m: nat)
    requires size < NDIRECT * BSIZE && off + m <= (size / BSIZE + 1) * BSIZE
    ensures var lo, hi, c := off / BSIZE, BlockEnd(off, m), size / BSIZE;
      && (m > 0 ==> hi <= c + 1 <= NDIRECT)
      && (m == 0 ==> hi == lo <= c + 1)
      && (size % BSIZE == 0 && m > 0 && off + m > size ==> hi == c + 1 && lo <= c && Ceil(size) == c)
      && (!(size % BSIZE == 0 && m > 0 && off + m > size) ==> hi <= Ceil(size) || hi <= lo)
  {
  }

  /** The files have no hole exactly when the entries of the root directory do not fill its blocks. */
  lemma RootWhole(f: Words, s: Store, files: seq<seq<byte>>)
    requires RootRounded(f, s, files) == Sound && 2 <= |files| && |files[1]| < NDIRECT * BSIZE
    ensures Whole(f, s) == Sound <==> |files[1]| % BSIZE != 0
  {
    assert Open(0);
    var size := (|files[1]| / BSIZE + 1) * BSIZE;
    assert |File(f, s, 1)| == s.inodes[1].size == size;
    assert Ceil(size) == |files[1]| / BSIZE + 1;
    if |files[1]| % BSIZE != 0 {
      assert Snug(f, s, 1);
      assert AllSnug(f, s);
    } else {
      var t := |files[1]| / BSIZE;
      assert AddrOf(f, s, 1, t) == 0 && t < Ceil(size) && !Snug(f, s, 1);
      assert !AllSnug(f, s);
    }
  }

  // ------------------------------------------------------------------ blocks before the data

  /** Writing a block before the first data block changes no file. */
  lemma MetaWrite(f: Words, s: Store, owner: map<nat, Ref>, used: nat, n: nat, files: seq<seq<byte>>, x: nat, v: Block)
    requires Making(f, s, owner, used, n) == Sound && RootRounded(f, s, files) == Sound && x < s.first
    ensures Making(f, MetaWritten(s, x, v), owner, used, n) == Sound
    ensures RootRounded(f, MetaWritten(s, x, v), files) == Sound
  {
    var s' := MetaWritten(s, x, v);
    MetaSame(f, s, owner, used, n, x, v);
    assert Open(0);
    assert Wholesome(f, s', owner);
    assert MakerOk(f, s', owner, used, n);
    forall i: nat | i < |s'.inodes| ensures i != 1 ==> Snug(f, s', i) {
    }
    assert Rounded(f, s', files);
  }

  lemma MetaSame(f: Words, s: Store, owner: map<nat, Ref>, used: nat, n: nat, x: nat, v: Block)
    requires Making(f, s, owner, used, n) == Sound && x < s.first
    ensures Healthy(f, MetaWritten(s, x, v), owner) == Sound && MetaOnly(f, s, MetaWritten(s, x, v))
  {
    MakingIsHealthy(f, s, owner, used, n);
    MetaSound(f, s, owner, x, v);
    assert Open(0);
  }

  /** Nor does it make anything of the state of the making. */
  lemma AsideMaking(f: Words, s: Store, owner: map<nat, Ref>, used: nat, n: nat, x: nat, v: Block)
    requires Making(f, s, owner, used, n) == Sound && x < s.first
    ensures Making(f, MetaWritten(s, x, v), owner, used, n) == Sound
  {
    MetaSame(f, s, owner, used, n, x, v);
    assert Open(0);
    assert MakerOk(f, MetaWritten(s, x, v), owner, used, n);
  }

  lemma AsideBuilt(f: Words, s: Store, s': Store, files: seq<seq<byte>>)
    requires Built(f, s, files) == Sound && Aside(f, s, s') == Sound
    ensures Built(f, s', files) == Sound
  {
    assert Open(0);
    forall i | 0 <= i < |s'.inodes| ensures Holds(f, s', i, Content(files, i)) {
      assert Holds(f, s, i, Content(files, i));
    }
    assert Have(f, s', files);
  }

  lemma AsideRounded(f: Words, s: Store, s': Store, files: seq<seq<byte>>)
    requires RootRounded(f, s, files) == Sound && Aside(f, s, s') == Sound
    ensures RootRounded(f, s', files) == Sound
  {
    assert Open(0);
    forall i: nat | i < |s'.inodes| ensures i != 1 ==> Snug(f, s', i) {
    }
    assert Rounded(f, s', files);
  }

  // ------------------------------------------------------------------ the inodes on the disk

  /** A partition of zeros has empty inodes. */
  lemma FreshSynced(f: Words, s: Store, start: nat)
    requires WordsWork(f) && Room(s, start) && forall i :: 0 <= i < |s.inodes| ==> s.inodes[i] == EmptyInode
    requires forall b :: start <= b < s.first ==> s.blocks[b] == ZeroBlock()
    ensures Synced(f, s, start) == Sound
  {
    forall i: nat | i < |s.inodes| ensures OnDisk(f, s, start, i) == s.inodes[i] {
      assert start + i / IPB < s.first;
      ZeroDinode(f, i % IPB);
    }
    assert AllOnDisk(f, s, start);
  }

  lemma WinodeSound(f: Words, s: Store, owner: map<nat, Ref>, used: nat, n: nat, blocks: seq<Block>, size: nat,
                    start: nat, inum: nat, buf: Block)
    requires Making(f, s, owner, used, n) == Sound && s.blocks == Padded(blocks, size) && inum < |s.inodes|
    requires Room(s, start) && start + inum / IPB < |blocks|
    requires buf == PutDinode(f, blocks[start + inum / IPB], inum % IPB, s.inodes[inum])
    ensures var s' := s.(blocks := Padded(blocks[start + inum / IPB := buf], size));
      && s' == Updated(f, s, start, inum) && Making(f, s', owner, used, n) == Sound && Aside(f, s, s') == Sound
  {
    var bn := start + inum / IPB;
    assert bn < s.first;
    MakingIsHealthy(f, s, owner, used, n);
    PaddedUpdate(blocks, size, bn, buf);
    UpdateSound(f, s, owner, start, inum);
    AsideMaking(f, s, owner, used, n, bn, buf);
  }

  /** One inode has changed since the disk had them all; once it is written the disk has them all again. */
  lemma WrittenSynced(f: Words, s0: Store, s: Store, owner: map<nat, Ref>, start: nat, ino: nat)
    requires Synced(f, s0, start) == Sound && Saving(f, s0, s, start, ino, false) == Sound
    requires Healthy(f, s, owner) == Sound && Room(s, start) && ino < |s.inodes| == |s0.inodes|
    requires forall i: nat :: i < |s.inodes| && i != ino ==> s.inodes[i] == s0.inodes[i]
    ensures Synced(f, Updated(f, s, start, ino), start) == Sound
  {
    HealthyStorable(f, s, owner, ino);
    UpdateSaves(f, s0, s, start, ino);
    SyncedThen(f, s0, Updated(f, s, start, ino), start, ino, true);
  }

  /** `iappend` changes one inode. */
  lemma AppendSynced(f: Words, s0: Store, s1: Store, owner: map<nat, Ref>, start: nat, ino: nat, src: seq<byte>,
                     off: nat, log: set<nat>, size: nat)
    requires Synced(f, s0, start) == Sound && Room(s0, start) && Turn(f, s0, s1, ino, src, off, |src|, log)
    requires ino < |s1.inodes| && Healthy(f, WithSize(s1, ino, size), owner) == Sound
    ensures Room(WithSize(s1, ino, size), start)
    ensures Synced(f, Updated(f, WithSize(s1, ino, size), start, ino), start) == Sound
  {
    TurnSaves(f, s0, s1, start, ino, src, off, |src|, log, size);
    TurnInodes(f, s0, s1, ino, src, off, log);
    WrittenSynced(f, s0, WithSize(s1, ino, size), owner, start, ino);
  }

  lemma TurnInodes(f: Words, s0: Store, s1: Store, ino: nat, src: seq<byte>, off: nat, log: set<nat>)
    requires Turn(f, s0, s1, ino, src, off, |src|, log)
    ensures |s1.inodes| == |s0.inodes| && forall i: nat :: i < |s1.inodes| && i != ino ==> s1.inodes[i] == s0.inodes[i]
  {
    assert Open(0);
    forall i: nat | i < |s1.inodes| && i != ino ensures s1.inodes[i] == s0.inodes[i] {
      SameInode(f, s0, s1, i);
    }
  }

  /** A change of size does too. */
  lemma SizeSynced(f: Words, s: Store, owner: map<nat, Ref>, start: nat, ino: nat, size: nat)
    requires Synced(f, s, start) == Sound && Room(s, start) && ino < |s.inodes|
    requires Healthy(f, WithSize(s, ino, size), owner) == Sound
    ensures Synced(f, Updated(f, WithSize(s, ino, size), start, ino), start) == Sound
  {
    HeadSame(s);
    SizeHead(s, s, ino, size);
    HeadSaves(f, s, WithSize(s, ino, size), start, ino);
    WrittenSynced(f, s, WithSize(s, ino, size), owner, start, ino);
  }

  /** Blocks before the inodes and after them may be written. */
  lemma OutsideSynced(f: Words, s: Store, start: nat, x: nat, v: Block)
    requires Synced(f, s, start) == Sound && !(start <= x < start + (|s.inodes| + IPB - 1) / IPB)
    ensures Synced(f, MetaWritten(s, x, v), start) == Sound
  {
    assert Open(0);
    var s' := MetaWritten(s, x, v);
    forall i: nat | i < |s.inodes| ensures OnDisk(f, s', start, i) == s'.inodes[i] {
      assert OnDisk(f, s, start, i) == s.inodes[i];
      assert start + i / IPB != x;
    }
    assert AllOnDisk(f, s', start);
  }

  // ------------------------------------------------------------------ buffers

  /** A file that has grown by one buffer. */
  lemma Chunk(files: seq<seq<byte>>, inum: nat, data: seq<byte>, at: nat, next: nat)
    requires inum < |files| && at <= next <= |data|
    ensures var sofar := files[inum := files[inum] + data[..at]];
      sofar[inum := sofar[inum] + data[at..next]] == files[inum := files[inum] + data[..next]]
    ensures files[inum := files[inum] + data[..0]] == files
  {
    assert files[inum] + data[..0] == files[inum];
    assert (files[inum] + data[..at]) + data[at..next] == files[inum] + data[..next];
  }

  lemma ChunkTotal(files: seq<seq<byte>>, inum: nat, data: seq<byte>, at: nat)
    requires inum < |files| && at <= |data|
    ensures TotalBlocks(files[inum := files[inum] + data[..at]]) <= TotalBlocks(files[inum := files[inum] + data])
  {
    TotalUpdate(files, inum, files[inum] + data[..at]);
    TotalUpdate(files, inum, files[inum] + data);
    BlocksForGrows(|files[inum] + data[..at]|, |files[inum] + data|);
  }

  lemma NewLast(files: seq<seq<byte>>, de: seq<byte>, data: seq<byte>)
    requires 2 <= |files|
    ensures var f1 := files + [[]]; var f2 := f1[1 := f1[1] + de];
      && f2[|files| := f2[|files|] + data] == files[1 := files[1] + de] + [data]
      && TotalBlocks(f2) == TotalBlocks(files[1 := files[1] + de]) && |f2[1]| == |files[1]| + |de| && |f2[|files|]| == 0
  {
    var none: seq<byte> := [];
    assert none + data == data;
    var f1 := files + [[]];
    var f2 := f1[1 := f1[1] + de];
    assert f2 == files[1 := files[1] + de] + [[]];
    TotalNew(files[1 := files[1] + de]);
  }

  /** An empty file has an empty inode. */
  lemma EmptyFile(f: Words, s: Store, files: seq<seq<byte>>, i: nat)
    requires Built(f, s, files) == Sound && |files| <= i < |s.inodes|
    ensures s.inodes[i] == EmptyInode
  {
    BuiltHolds(f, s, files, i);
    var a := s.inodes[i].addrs;
    forall x | 0 <= x < |a| ensures a[x] == EmptyInode.addrs[x] {
      assert AddrOf(f, s, i, if x < NDIRECT then x else IND) == 0;
    }
    assert a == EmptyInode.addrs;
  }

  /** Too few blocks for the next slot, of `n`: too few for the file. */
  lemma AppendShort(f: Words, s0: Store, s: Store, ino: nat, cap: seq<byte>, tot: nat, files: seq<seq<byte>>,
                    log: set<nat>, n: nat, spare: nat)
    requires Built(f, s0, files) == Sound && ino < |files| && |files[ino]| + |cap| <= MAXFILE * BSIZE && tot < |cap|
    requires Turn(f, s0, s, ino, cap, |files[ino]|, tot, log) && Shape(s) && ino < |s.inodes|
    requires Clear(s.bitmap) < SlotNeed(f, s, ino, PieceAt(|files[ino]|, tot, |cap|).bn) + spare
    requires Clear(s0.bitmap) + TotalBlocks(files) == n + spare
    ensures TotalBlocks(files[ino := files[ino] + cap]) > n
  {
    TooFew(f, s0, s, ino, |files[ino]|, tot, |cap|, log, spare);
    BuiltNeed(f, s0, files, ino, |cap|);
    TotalUpdate(files, ino, files[ino] + cap);
  }

  /** All of them written: the total is what is used. */
  lemma AppendPaid(f: Words, s0: Store, s: Store, ino: nat, cap: seq<byte>, files: seq<seq<byte>>, log: set<nat>)
    requires Built(f, s0, files) == Sound && ino < |files| && |files[ino]| + |cap| <= MAXFILE * BSIZE
    requires Turn(f, s0, s, ino, cap, |files[ino]|, |cap|, log)
    ensures TotalBlocks(files[ino := files[ino] + cap]) + Clear(s.bitmap) == TotalBlocks(files) + Clear(s0.bitmap)
  {
    LastTurn(f, s0, s, ino, cap, |files[ino]|, log);
    BuiltNeed(f, s0, files, ino, |cap|);
    TotalUpdate(files, ino, files[ino] + cap);
  }

  /** Where the loop of iappend is. */
  lemma TurnAt(off: nat, tot: nat, src: seq<byte>)
    requires off <= MAXFILE * BSIZE && tot < |src| && tot <= |Fitting(off, src)|
    requires Aligned(off, tot, |Fitting(off, src)|)
    ensures (off + tot) / BSIZE >= MAXFILE <==> tot == |Fitting(off, src)|
    ensures (off + tot) / BSIZE < MAXFILE ==>
      var p, fbn := PieceAt(off, tot, |Fitting(off, src)|), (off + tot) / BSIZE;
      && p.bn == fbn && p.lo == off + tot - fbn * BSIZE && p.len == Min(|src| - tot, (fbn + 1) * BSIZE - (off + tot))
      && Fitting(off, src)[tot..tot + p.len] == src[tot..tot + p.len]
  {
  }

  /** `Fitting` a buffer at a time. */
  lemma FittingMore(off: nat, data: seq<byte>, at: nat, next: nat)
    requires off + at <= MAXFILE * BSIZE && at <= next <= |data|
    ensures data[..at] + Fitting(off + at, data[at..next])
      == Fitting(off, data)[..at + |Fitting(off + at, data[at..next])|]
    ensures off + next > MAXFILE * BSIZE ==> data[..at] + Fitting(off + at, data[at..next]) == Fitting(off, data)
  {
  }

  /** A buffer that does not go in: the file does not either. */
  lemma BufferShort(files: seq<seq<byte>>, inum: nat, data: seq<byte>, at: nat, next: nat)
    requires inum < |files| && |files[inum]| + at <= MAXFILE * BSIZE && at <= next <= |data|
    ensures var sofar, fit := files[inum := files[inum] + data[..at]], Fitting(|files[inum]|, data);
      var part := sofar[inum := sofar[inum] + Fitting(|files[inum]| + at, data[at..next])];
      && TotalBlocks(part) <= TotalBlocks(files[inum := files[inum] + fit])
      && (|files[inum]| + next > MAXFILE * BSIZE ==> TotalBlocks(part) == TotalBlocks(files[inum := files[inum] + fit]))
  {
    var sofar, fit := files[inum := files[inum] + data[..at]], Fitting(|files[inum]|, data);
    var more := Fitting(|files[inum]| + at, data[at..next]);
    FittingMore(|files[inum]|, data, at, next);
    assert sofar[inum] + more == files[inum] + fit[..at + |more|];
    assert sofar[inum := sofar[inum] + more] == files[inum := files[inum] + fit[..at + |more|]];
    ChunkTotal(files, inum, fit, at + |more|);
    assert |files[inum]| + next > MAXFILE * BSIZE ==> fit[..at + |more|] == fit;
  }
}

/** mkfs.c: filling a partition with files, block by block. */
module Mkfs {
  import opened Basics
  import opened Blocks
  import opened Dinodes
  import opened DirModel
  import opened FileWrite
  import opened Fs
  import opened FsHoles
  import opened FsModel
  import opened FsSteps
  import opened MkfsLayout
  import opened MkfsModel
  import opened Sealed
  import Bitmap

  datatype Outcome = Appended
    | TooBig       // assert(fbn < MAXFILE)
    | Overflow     // past the end of the partition, which mkfs does not check
    | Unmarked     // assert(used < BSIZE*8)

  class Maker {
    const words: Words
    const l: Layout
    var blocks: seq<Block>
    var inodes: seq<Inode>
    var freeblock: nat
    var freeinode: nat
    ghost var owner: map<nat, Ref>

    ghost function Used(): nat
      reads this
    {
      if freeblock < l.DataStart() then 0 else freeblock - l.DataStart()
    }

    /** The blocks of the data region. */
    function Nblocks(): nat {
      if l.fssize < l.Nmeta() then 0 else l.fssize - l.Nmeta()
    }

    /** What the kernel will find: its bitmap has a bit for each of sb.size blocks. */
    ghost function Snap(): Store
      reads this
    {
      Store(l.DataStart(), Marks(l.fssize, Used()), Padded(blocks, l.DataStart() + l.fssize), inodes)
    }

    ghost predicate Valid()
      reads this
    {
      && l.Nmeta() <= l.fssize && l.DataStart() <= freeblock && l.End() <= |blocks|
      && Making(words, Snap(), owner, Used(), Nblocks()) == Sound
    }

    /** These are the files, they account for every block used, and the disk has every inode. */
    ghost predicate Contains(files: seq<seq<byte>>)
      reads this
    {
      && Valid() && Built(words, Snap(), files) == Sound && |files| == freeinode <= |inodes| == NINODES
      && Used() == TotalBlocks(files) && Synced(words, Snap(), l.InodeStart()) == Sound
    }

    /** The start of init_partition: the partition's blocks are zeroed, and with them its inodes. */
    constructor (words: Words, disk: seq<Block>, l: Layout)
      requires WordsWork(words) && l.Nmeta() <= l.fssize && l.End() <= |disk| <= 0x1_0000_0000
      requires l.DataStart() + l.fssize <= 0x1_0000_0000
      ensures Contains([[]]) && this.words == words && this.l == l && |blocks| == |disk|
      ensures forall b :: 0 <= b < |disk| && !(l.offset <= b < l.End()) ==> blocks[b] == disk[b]
    {
      this.words, this.l := words, l;
      inodes, freeblock, freeinode, owner := seq(NINODES, _ => EmptyInode), l.DataStart(), 1, map[];
      blocks := disk;
      new;
      for i := l.offset to l.End()
        invariant |blocks| == |disk| && inodes == seq(NINODES, _ => EmptyInode)
        invariant freeblock == l.DataStart() && freeinode == 1 && owner == map[]
        invariant forall b :: l.offset <= b < i ==> blocks[b] == ZeroBlock()
        invariant forall b :: 0 <= b < |disk| && !(l.offset <= b < i) ==> blocks[b] == disk[b]
      {
        blocks := blocks[i := ZeroBlock()];
      }
      FreshSound(words, Snap(), Nblocks());
      FreshSynced(words, Snap(), l.InodeStart());
    }

    /** `winode`. */
    method Winode(inum: nat)
      requires Valid() && inum < |inodes| == NINODES
      modifies this`blocks
      ensures Valid() && Room(old(Snap()), l.InodeStart())
      ensures Snap() == Updated(words, old(Snap()), l.InodeStart(), inum)
      ensures Aside(words, old(Snap()), Snap()) == Sound
    {
      var bn := inum / IPB + l.InodeStart();
      var buf := PutDinode(words, blocks[bn], inum % IPB, inodes[inum]);
      WinodeSound(words, Snap(), owner, Used(), Nblocks(), blocks, l.DataStart() + l.fssize, l.InodeStart(), inum, buf);
      blocks := blocks[bn := buf];
    }

    /** `ialloc`. */
    method Ialloc(ghost files: seq<seq<byte>>) returns (inum: nat)
      requires Contains(files) && freeinode < |inodes|
      modifies this`blocks, this`freeinode, this`inodes
      ensures inum == old(freeinode) && Contains(files + [[]])
    {
      ghost var s := Snap();
      MakingIsHealthy(words, s, owner, Used(), Nblocks());
      EmptyFile(words, Snap(), files, freeinode);
      BuiltNew(words, Snap(), files);
      TotalNew(files);
      inum := freeinode;
      freeinode := freeinode + 1;
      inodes := inodes[inum := EmptyInode];
      assert inodes == old(inodes) && Snap() == s;
      Winode(inum);
      assert WithSize(s, inum, 0) == s;
      SizeSynced(words, s, owner, l.InodeStart(), inum, 0);
      AsideBuilt(words, s, Snap(), files + [[]]);
    }

    /** `din.addrs[x] = xint(freeblock++)`, if there is no block yet. */
    method NeedAddr(ino: nat, x: nat) returns (ok: bool, b: nat)
      requires Valid() && ino < |inodes| && x <= NDIRECT && |inodes[ino].addrs| == NDIRECT + 1
      modifies this`inodes, this`freeblock, this`owner
      ensures Valid() && |inodes| == |old(inodes)| && |inodes[ino].addrs| == NDIRECT + 1
      ensures ok <==> old(inodes[ino].addrs[x]) != 0 || old(Used()) < Nblocks()
      ensures ok ==> b != 0 && inodes[ino].addrs[x] == b
      ensures ok && old(inodes[ino].addrs[x]) != 0 ==> Snap() == old(Snap()) && owner == old(owner)
      ensures ok && old(inodes[ino].addrs[x]) == 0 ==>
        Naming(words, old(Snap()), Snap(), ino, SlotOfAddr(x), b) == Sound
      ensures !ok ==> Snap() == old(Snap())
    {
      b := inodes[ino].addrs[x];
      if b != 0 {
        return true, b;
      }
      if freeblock - l.DataStart() >= Nblocks() {
        return false, 0;
      }
      TakeNextAddr(words, Snap(), owner, Used(), Nblocks(), ino, x);
      b := freeblock;
      inodes := inodes[ino := inodes[ino].(addrs := inodes[ino].addrs[x := b])];
      owner := owner[b := Slot(ino, SlotOfAddr(x))];
      freeblock := freeblock + 1;
      assert Snap() == TookAddr(old(Snap()), old(Used()), ino, x);
      ok := true;
    }

    /** `indirect[j] = xint(freeblock++)`, if there is no block yet. `s0` is what there was before the indirect
        block was seen to. */
    method NeedEntry(ino: nat, ind: nat, bn: nat, ghost s0: Store) returns (ok: bool, b: nat, ghost log: set<nat>)
      requires Valid() && ino < |inodes| && NDIRECT <= bn < MAXFILE && Shape(s0) && ino < |s0.inodes|
      requires Indirect(words, s0, Snap(), ino, ind) == Sound && |inodes[ino].addrs| == NDIRECT + 1
      requires inodes[ino].addrs[NDIRECT] == ind && ind != 0
      modifies this`blocks, this`freeblock, this`owner
      ensures Valid()
      ensures ok ==> Mapping(words, s0, Snap(), ino, bn, b, log) == Sound
      ensures !ok ==> Clear(s0.bitmap) < SlotNeed(words, s0, ino, bn) + l.Nmeta()
    {
      ghost var s1 := Snap();
      MakingIsHealthy(words, s1, owner, Used(), Nblocks());
      IndirectTaken(words, s1, owner, Used(), Nblocks(), ino);
      var j := bn - NDIRECT;
      b := words.get(blocks[ind], j);
      if b != 0 {
        EntryThere(words, s0, s1, owner, ino, bn, ind, b);
        return true, b, {};
      }
      if freeblock - l.DataStart() >= Nblocks() {
        EntryShort(words, s0, s1, owner, ino, bn, ind, l.Nmeta());
        return false, 0, {};
      }
      b, log := AssignEntry(ino, ind, bn, s0);
      ok := true;
    }

    /** `indirect[j] = xint(freeblock++)`. */
    method AssignEntry(ino: nat, ind: nat, bn: nat, ghost s0: Store) returns (b: nat, ghost log: set<nat>)
      requires Valid() && ino < |inodes| && NDIRECT <= bn < MAXFILE && s0.first > 0 && Used() < Nblocks()
      requires Indirect(words, s0, Snap(), ino, ind) == Sound && |inodes[ino].addrs| == NDIRECT + 1
      requires inodes[ino].addrs[NDIRECT] == ind && ind != 0 && ind < |blocks|
      requires words.get(blocks[ind], bn - NDIRECT) == 0
      modifies this`blocks, this`freeblock, this`owner
      ensures Valid() && Mapping(words, s0, Snap(), ino, bn, b, log) == Sound
    {
      ghost var s1 := Snap();
      NextEntryTaken(words, s0, s1, owner, Used(), Nblocks(), ino, bn, ind);
      b := freeblock;
      var v := words.put(blocks[ind], bn - NDIRECT, b);
      PaddedUpdate(blocks, l.DataStart() + l.fssize, ind, v);
      blocks := blocks[ind := v];
      owner := owner[b := Slot(ino, bn)];
      freeblock := freeblock + 1;
      assert Snap() == TookEntry(words, s1, old(Used()), ind, bn - NDIRECT);
      log := {s0.first - 1, b, ind};
    }

    /** The block for block `fbn` of the file. */
    method NeedBlock(ino: nat, fbn: nat) returns (ok: bool, x: nat, ghost log: set<nat>)
      requires Valid() && ino < |inodes| && fbn < MAXFILE && Shape(Snap())
      modifies this`blocks, this`inodes, this`freeblock, this`owner
      ensures Valid() && |inodes| == |old(inodes)|
      ensures ok ==> Mapping(words, old(Snap()), Snap(), ino, fbn, x, log) == Sound
      ensures !ok ==> Clear(old(Snap()).bitmap) < SlotNeed(words, old(Snap()), ino, fbn) + l.Nmeta()
    {
      ghost var s0, o0 := Snap(), owner;
      MakingIsHealthy(words, s0, o0, Used(), Nblocks());
      IndirectTaken(words, s0, o0, Used(), Nblocks(), ino);
      if fbn < NDIRECT {
        ok, x := NeedAddr(ino, fbn);
        if !ok {
          DirectShort(words, s0, ino, fbn, fbn, l.Nmeta());
          log := {};
        } else if s0.inodes[ino].addrs[fbn] != 0 {
          MappedAlready(words, s0, o0, ino, fbn);
          log := {};
        } else {
          NamedMaps(words, s0, Snap(), ino, fbn, x);
          log := {s0.first - 1, x};
        }
      } else {
        var ind;
        ok, ind := NeedAddr(ino, NDIRECT);
        if !ok {
          DirectShort(words, s0, ino, NDIRECT, fbn, l.Nmeta());
          return false, 0, {};
        }
        if s0.inodes[ino].addrs[NDIRECT] != 0 {
          IndirectThere(words, s0, o0, ino);
        } else {
          IndirectSupplied(words, s0, Snap(), ino, ind);
        }
        ok, x, log := NeedEntry(ino, ind, fbn, s0);
      }
    }

    /** `rsect(x, buf); bcopy(...); wsect(x, buf)` for block `fbn` of the file, from byte `lo` of the block on. */
    method PutPiece(ino: nat, fbn: nat, lo: nat, piece: seq<byte>) returns (ok: bool, x: nat, ghost log: set<nat>)
      requires Valid() && ino < |inodes| && fbn < MAXFILE && lo + |piece| <= BSIZE && Shape(Snap())
      modifies this`blocks, this`inodes, this`freeblock, this`owner
      ensures Valid() && |inodes| == |old(inodes)|
      ensures ok ==> Overlaid(words, old(Snap()), Snap(), ino, fbn * BSIZE + lo, piece) == Sound
      ensures ok ==> Charging(words, old(Snap()), Snap(), ino, fbn, x, log) == Sound
      ensures !ok ==> Clear(old(Snap()).bitmap) < SlotNeed(words, old(Snap()), ino, fbn) + l.Nmeta()
    {
      ghost var s0 := Snap();
      ok, x, log := NeedBlock(ino, fbn);
      if ok {
        ghost var s1 := Snap();
        MakingIsHealthy(words, s1, owner, Used(), Nblocks());
        PieceSound(words, s0, s1, owner, ino, fbn, lo, x, piece, log);
        PutSound(words, s0, s1, owner, Used(), Nblocks(), ino, fbn, lo, x, piece, log);
        PaddedUpdate(blocks, l.DataStart() + l.fssize, x, Splice(blocks[x], lo, piece));
        blocks := blocks[x := Splice(blocks[x], lo, piece)];
        log := log + {x};
        assert Snap() == WithBytes(s1, x, lo, piece);
      }
    }

    /** The body of the loop of `iappend`, at `tot` of the bytes. `s0` is what there was before the loop. */
    method AppendTurn(ino: nat, src: seq<byte>, off: nat, tot: nat, ghost s0: Store, ghost sofar: set<nat>,
                      ghost files: seq<seq<byte>>)
      returns (r: Outcome, tot': nat, ghost log: set<nat>)
      requires Valid() && ino < |inodes| && tot < |src| && ino < |files| && |files[ino]| == off <= MAXFILE * BSIZE
      requires Turn(words, s0, Snap(), ino, Fitting(off, src), off, tot, sofar) && Built(words, s0, files) == Sound
      requires Clear(s0.bitmap) + TotalBlocks(files) == l.fssize
      modifies this`blocks, this`inodes, this`freeblock, this`owner
      ensures Valid() && |inodes| == |old(inodes)|
      ensures r.Overflow? ==> TotalBlocks(files[ino := files[ino] + Fitting(off, src)]) > Nblocks()
      ensures !r.Unmarked?
      ensures r.TooBig? ==> tot' == tot == |Fitting(off, src)| && Snap() == old(Snap()) && log == sofar
      ensures r.Appended? ==> tot < tot' && Turn(words, s0, Snap(), ino, Fitting(off, src), off, tot', log)
    {
      ghost var s1, cap, more := Snap(), Fitting(off, src), {};
      MakingIsHealthy(words, s1, owner, Used(), Nblocks());
      TurnAt(off, tot, src);
      var at := off + tot;
      var fbn := at / BSIZE;
      if fbn >= MAXFILE {
        return TooBig, tot, sofar;
      }
      var n1 := Min(|src| - tot, (fbn + 1) * BSIZE - at);
      var lo := at - fbn * BSIZE;
      tot' := tot + n1;
      assert fbn * BSIZE + lo == off + tot && cap[tot..tot'] == src[tot..tot'];
      var ok, x;
      ok, x, more := PutPiece(ino, fbn, lo, src[tot..tot']);
      log := sofar + more;
      if ok {
        NextTurn(words, s0, s1, Snap(), ino, cap, off, tot, tot', x, sofar, more);
        r := Appended;
      } else {
        AppendShort(words, s0, s1, ino, cap, tot, files, sofar, Nblocks(), l.Nmeta());
        r := Overflow;
      }
    }

    /** The loop of `iappend`. */
    method AppendBlocks(ino: nat, src: seq<byte>, off: nat, ghost files: seq<seq<byte>>)
      returns (r: Outcome, ghost log: set<nat>)
      requires Contains(files) && ino < |files| && |files[ino]| == off <= MAXFILE * BSIZE
      modifies this`blocks, this`inodes, this`freeblock, this`owner
      ensures Valid() && |inodes| == |old(inodes)|
      ensures r.Overflow? ==> TotalBlocks(files[ino := files[ino] + Fitting(off, src)]) > Nblocks()
      ensures r.TooBig? ==> |Fitting(off, src)| < |src|
      ensures !r.Unmarked?
      ensures r.Appended? ==> Fitting(off, src) == src
      ensures !r.Overflow? ==> Turn(words, old(Snap()), Snap(), ino, Fitting(off, src), off, |Fitting(off, src)|, log)
    {
      ghost var s0, cap := Snap(), Fitting(off, src);
      MakingIsHealthy(words, s0, owner, Used(), Nblocks());
      FirstTurn(words, s0, ino, cap, off);
      var tot := 0;
      r, log := Appended, {};
      while tot < |src|
        invariant Valid() && |inodes| == |old(inodes)| && 0 <= tot <= |cap| && r == Appended
        invariant Turn(words, s0, Snap(), ino, cap, off, tot, log)
      {
        r, tot, log := AppendTurn(ino, src, off, tot, s0, log, files);
        if !r.Appended? {
          return;
        }
      }
    }

    /** `iappend`. It stops at the largest file size, or where the partition ends, whichever comes first. */
    method Iappend(ino: nat, src: seq<byte>, ghost files: seq<seq<byte>>) returns (r: Outcome)
      requires Contains(files) && ino < |files|
      modifies this`blocks, this`inodes, this`freeblock, this`owner
      ensures |files[ino]| <= MAXFILE * BSIZE
      ensures r.Overflow? <==> TotalBlocks(files[ino := files[ino] + Fitting(|files[ino]|, src)]) > Nblocks()
      ensures r.TooBig? <==> !r.Overflow? && |files[ino]| + |src| > MAXFILE * BSIZE
      ensures !r.Unmarked?
      ensures r.Appended? ==> Contains(files[ino := files[ino] + src])
    {
      ghost var s0, log := Snap(), {};
      MakingIsHealthy(words, s0, owner, Used(), Nblocks());
      assert Room(s0, l.InodeStart());
      BuiltSize(words, s0, files, ino);
      var off := inodes[ino].size;
      r, log := AppendBlocks(ino, src, off, files);
      if !r.Overflow? {
        MakingIsHealthy(words, Snap(), owner, Used(), Nblocks());
        AppendPaid(words, s0, Snap(), ino, Fitting(off, src), files, log);
        if r.Appended? {
          SetSize(ino, src, off, s0, files, log);
        }
      }
    }

    /** The end of `iappend`. */
    method SetSize(ino: nat, src: seq<byte>, off: nat, ghost s0: Store, ghost files: seq<seq<byte>>,
                   ghost log: set<nat>)
      requires Valid() && |files| == freeinode <= |inodes| == NINODES && ino < |files|
      requires Built(words, s0, files) == Sound
      requires |files[ino]| == off && off + |src| <= MAXFILE * BSIZE
      requires Turn(words, s0, Snap(), ino, src, off, |src|, log)
      requires Used() == TotalBlocks(files[ino := files[ino] + src])
      requires Synced(words, s0, l.InodeStart()) == Sound && Room(s0, l.InodeStart())
      modifies this`blocks, this`inodes
      ensures Contains(files[ino := files[ino] + src])
    {
      ghost var s1 := Snap();
      AppendEnd(words, s0, s1, owner, Used(), Nblocks(), ino, src, files, log);
      inodes := inodes[ino := inodes[ino].(size := off + |src|)];
      ghost var s2 := Snap();
      assert s2 == WithSize(s1, ino, off + |src|);
      MakingIsHealthy(words, s2, owner, Used(), Nblocks());
      AppendSynced(words, s0, s1, owner, l.InodeStart(), ino, src, off, log, off + |src|);
      Winode(ino);
      AsideBuilt(words, s2, Snap(), files[ino := files[ino] + src]);
    }

    /** Copying a file in, a buffer at a time, as root_handler does. */
    method CopyIn(inum: nat, data: seq<byte>, ghost files: seq<seq<byte>>) returns (r: Outcome)
      requires Contains(files) && inum < |files|
      modifies this`blocks, this`inodes, this`freeblock, this`owner
      ensures |files[inum]| <= MAXFILE * BSIZE
      ensures r.Overflow? <==> TotalBlocks(files[inum := files[inum] + Fitting(|files[inum]|, data)]) > Nblocks()
      ensures r.TooBig? <==> !r.Overflow? && |files[inum]| + |data| > MAXFILE * BSIZE
      ensures !r.Unmarked?
      ensures r.Appended? ==> Contains(files[inum := files[inum] + data])
    {
      BuiltSize(words, Snap(), files, inum);
      var at := 0;
      r := Appended;
      Chunk(files, inum, data, 0, 0);
      while at < |data|
        invariant at <= |data| && r == Appended && |files[inum]| + at <= MAXFILE * BSIZE
        invariant Contains(files[inum := files[inum] + data[..at]])
      {
        var next := if |data| - at < BSIZE then |data| else at + BSIZE;
        ghost var sofar := files[inum := files[inum] + data[..at]];
        r := Iappend(inum, data[at..next], sofar);
        BufferShort(files, inum, data, at, next);
        if !r.Appended? {
          return;
        }
        Chunk(files, inum, data, at, next);
        at := next;
      }
      assert data[..at] == data && Fitting(|files[inum]|, data) == data;
      MakingIsHealthy(words, Snap(), owner, Used(), Nblocks());
    }

    /** One turn of the loop of root_handler: an inode, an entry in the root directory, the contents. */
    method AddFile(name: seq<byte>, data: seq<byte>, ghost files: seq<seq<byte>>) returns (r: Outcome)
      requires Contains(files) && 2 <= freeinode < NINODES && |files[1]| + 16 <= MAXFILE * BSIZE
      modifies this`blocks, this`inodes, this`freeblock, this`freeinode, this`owner
      ensures var f1 := files[1 := files[1] + Dirent(|files|, name)];
        && (r.Overflow? <==> TotalBlocks(f1 + [Fitting(0, data)]) > Nblocks())
        && (r.TooBig? <==> !r.Overflow? && |data| > MAXFILE * BSIZE)
        && !r.Unmarked?
        && (r.Appended? ==> Contains(f1 + [data]))
    {
      var inum := Ialloc(files);
      var de := Dirent(inum, name);
      NewLast(files, de, data);
      NewLast(files, de, Fitting(0, data));
      LastTotal(files[1 := files[1] + de], Fitting(0, data));
      ghost var f1 := files + [[]];
      ghost var f2 := f1[1 := f1[1] + de];
      assert Fitting(|f1[1]|, de) == de;
      r := CopyIn(1, de, f1);
      if !r.Appended? {
        return;
      }
      r := CopyIn(inum, data, f2);
    }

    /** The root directory with its first two entries. */
    method MakeRoot(names: seq<seq<byte>>, data: seq<seq<byte>>) returns (r: Outcome)
      requires Contains([[]]) && |names| == |data|
      modifies this`blocks, this`inodes, this`freeblock, this`freeinode, this`owner
      ensures !r.TooBig? && !r.Unmarked? && (r.Appended? <==> 1 <= Nblocks())
      ensures r.Appended? ==> Contains(FileSet(names, data, 0))
    {
      ghost var f0: seq<seq<byte>> := [[], []];
      assert [[]] + [[]] == f0;
      FileSetStart(names, data);
      var root := Ialloc([[]]);
      assert Fitting(|f0[1]|, Dirent(1, DOT)) == Dirent(1, DOT);
      r := Iappend(root, Dirent(1, DOT), f0);
      if !r.Appended? {
        return;
      }
      ghost var f1 := f0[1 := f0[1] + Dirent(1, DOT)];
      assert Fitting(|f1[1]|, Dirent(1, DOTDOT)) == Dirent(1, DOTDOT);
      r := Iappend(root, Dirent(1, DOTDOT), f1);
    }

    /** File `i`. */
    method AddNext(names: seq<seq<byte>>, data: seq<seq<byte>>, i: nat) returns (r: Outcome)
      requires i < |names| == |data| && |data| + 2 <= NINODES && Contains(FileSet(names, data, i))
      modifies this`blocks, this`inodes, this`freeblock, this`freeinode, this`owner
      ensures r.Overflow? ==> TotalBlocks(FileSet(names, data, |data|)) > Nblocks()
      ensures r.TooBig? ==> |data[i]| > MAXFILE * BSIZE
      ensures !r.Unmarked?
      ensures r.Appended? ==> |data[i]| <= MAXFILE * BSIZE && Contains(FileSet(names, data, i + 1))
    {
      FileSetNext(names, data, i);
      FitTotal(names, data, i);
      TotalGrows(names, data, i + 1, |data|);
      r := AddFile(names[i], data[i], FileSet(names, data, i));
    }

    /** `root_handler`. */
    method AddFiles(names: seq<seq<byte>>, data: seq<seq<byte>>) returns (r: Outcome)
      requires |names| == |data| && |data| + 2 <= NINODES && Contains(FileSet(names, data, 0))
      modifies this`blocks, this`inodes, this`freeblock, this`freeinode, this`owner
      ensures !r.Unmarked? && (r.Appended? <==> FilesFit(names, data, Nblocks()))
      ensures r.TooBig? ==> exists i :: 0 <= i < |data| && |data[i]| > MAXFILE * BSIZE
      ensures r.Overflow? ==> TotalBlocks(FileSet(names, data, |data|)) > Nblocks()
      ensures r.Appended? ==> Contains(FileSet(names, data, |data|))
    {
      r := Appended;
      for i := 0 to |names|
        invariant Contains(FileSet(names, data, i)) && r == Appended
        invariant forall k :: 0 <= k < i ==> |data[k]| <= MAXFILE * BSIZE
      {
        r := AddNext(names, data, i);
        if !r.Appended? {
          return;
        }
      }
      MakingIsHealthy(words, Snap(), owner, Used(), Nblocks());
    }

    /** `init_partition`: the root directory, then the files, the bitmap block and the superblock. All goes in exactly
        when every file is small enough, together with the root directory they take no more blocks than the partition
        has, and the bits of those fit the bitmap block. */
    method InitPartition(names: seq<seq<byte>>, data: seq<seq<byte>>) returns (r: Outcome)
      requires Contains([[]]) && |names| == |data| && |data| + 2 <= NINODES
      modifies this`blocks, this`inodes, this`freeblock, this`freeinode, this`owner
      ensures var total := TotalBlocks(FileSet(names, data, |data|));
        && (r.Appended? <==> FilesFit(names, data, Nblocks()) && total < 8 * BSIZE)
        && (r.Unmarked? <==> FilesFit(names, data, Nblocks()) && total >= 8 * BSIZE)
        && (r.TooBig? ==> exists i :: 0 <= i < |data| && |data[i]| > MAXFILE * BSIZE)
        && (r.Overflow? ==> total > Nblocks())
      ensures r.Appended? ==> Finished(FileSet(names, data, |data|))
    {
      FileSetStart(names, data);
      TotalGrows(names, data, 0, |data|);
      r := MakeRoot(names, data);
      if !r.Appended? {
        return;
      }
      r := AddFiles(names, data);
      if !r.Appended? {
        return;
      }
      RoundUp(FileSet(names, data, |data|));
      var ok := WriteBitmap(FileSet(names, data, |data|));
      if !ok {
        return Unmarked;
      }
      WriteSuperblock(FileSet(names, data, |data|));
    }

    /** What init_partition leaves: the files, and a superblock and a bitmap block that say where they are. */
    ghost predicate Complete(files: seq<seq<byte>>)
      reads this
    {
      && Rounds(files) && Marked() && |blocks| <= 0x1_0000_0000
      && blocks[l.offset] == WriteSb(SbOf(l), l.offset)
    }

    ghost function Completion(files: seq<seq<byte>>): Status
      reads this
    {
      if forall k {:trigger Open(k)} :: k == 0 ==> Complete(files) then Sound else Broken
    }

    ghost predicate Finished(files: seq<seq<byte>>)
      reads this
    {
      Completion(files) == Sound
    }

    lemma FinishedIs(files: seq<seq<byte>>)
      requires Finished(files)
      ensures Complete(files)
    {
      assert Open(0);
    }

    ghost predicate Rounds(files: seq<seq<byte>>)
      reads this
    {
      && Valid() && l.End() + l.Nmeta() <= 0x1_0000_0000 && RootRounded(words, Snap(), files) == Sound
      && Used() == TotalBlocks(files) && |inodes| == NINODES && Synced(words, Snap(), l.InodeStart()) == Sound
    }

    /** The bitmap block has a bit set for each block used. */
    ghost predicate Marked()
      reads this
      requires Valid()
    {
      Bitmap.Bits(Bitmap.FromBlock(blocks[l.BmapStart()]), 8 * BSIZE) == Marks(8 * BSIZE, Used())
    }

    /** The size of the root directory is made a multiple of the block size. */
    method RoundUp(ghost files: seq<seq<byte>>)
      requires Contains(files) && 2 <= |files| && |files[1]| < 40 * BSIZE
      modifies this`blocks, this`inodes
      ensures Rounds(files)
    {
      ghost var s := Snap();
      MakingIsHealthy(words, s, owner, Used(), Nblocks());
      RoundRoot(words, s, owner, Used(), Nblocks(), files);
      var off := inodes[1].size;
      off := (off / BSIZE + 1) * BSIZE;
      inodes := inodes[1 := inodes[1].(size := off)];
      ghost var s1 := Snap();
      assert s1 == WithSize(s, 1, off);
      MakingIsHealthy(words, s1, owner, Used(), Nblocks());
      SizeSynced(words, s, owner, l.InodeStart(), 1, off);
      Winode(1);
      AsideRounded(words, s1, Snap(), files);
    }

    /** `balloc`: the bitmap block. mkfs insists on fewer than 4096 blocks used. */
    method WriteBitmap(ghost files: seq<seq<byte>>) returns (ok: bool)
      requires Rounds(files)
      modifies this`blocks
      ensures ok <==> Used() < 8 * BSIZE
      ensures ok ==> Rounds(files) && Marked()
    {
      if freeblock - l.DataStart() >= 8 * BSIZE {
        return false;
      }
      var data := new bv8[BSIZE](_ => 0);
      Bitmap.MarkUsed(data, freeblock - l.DataStart());
      Bitmap.FromToBlock(data[..]);
      Wsect(l.BmapStart(), Bitmap.ToBlock(data[..]), files);
      assert Bitmap.Bits(data[..], 8 * BSIZE) == Marks(8 * BSIZE, Used());
      ok := true;
    }

    method WriteSuperblock(ghost files: seq<seq<byte>>)
      requires Rounds(files) && Marked()
      modifies this`blocks
      ensures Finished(files)
    {
      MakingIsHealthy(words, Snap(), owner, Used(), Nblocks());
      Wsect(l.offset, WriteSb(SbOf(l), l.offset), files);
      assert Complete(files);
    }

    /** `wsect`, of a block before the data and not among the inodes. */
    method Wsect(x: nat, v: Block, ghost files: seq<seq<byte>>)
      requires Rounds(files) && x < l.DataStart() && !(l.InodeStart() <= x < l.BmapStart())
      modifies this`blocks
      ensures Rounds(files) && blocks == old(blocks)[x := v]
    {
      MetaWrite(words, Snap(), owner, Used(), Nblocks(), files, x, v);
      OutsideSynced(words, Snap(), l.InodeStart(), x, v);
      PaddedUpdate(blocks, l.DataStart() + l.fssize, x, v);
      ghost var s := Snap();
      blocks := blocks[x := v];
      assert Snap() == MetaWritten(s, x, v);
    }
  }

  /** The kernel mounts the partition at `offset`: it reads the superblock, and where that says, the bitmap block and
      the inodes. It finds them as mkfs had them. */
  method Mount(m: Maker, offset: nat, ghost files: seq<seq<byte>>) returns (p: Partition)
    requires m.Finished(files) && m.l.fssize < BPB && offset == m.l.offset
    ensures fresh(p) && p.Valid() && p.Snapshot() == m.Snap() && p.words == m.words
    ensures p.inodestart == m.l.InodeStart() && p.first == m.l.DataStart()
    ensures Synced(p.words, p.Snapshot(), p.inodestart) == Sound
  {
    m.FinishedIs(files);
    ReadsWhatWasWritten(SbOf(m.l), m.l.offset);
    FirstAgrees(m.l);
    var sb := ReadSb(m.blocks[offset], offset);
    var first := FreeblockOffset(sb);
    var bits := Bitmap.Bits(Bitmap.FromBlock(m.blocks[sb.bmapstart]), sb.size);
    var inodes := ReadInodes(m.words, m.blocks, sb);
    var s := Store(first, bits, Padded(m.blocks, first + sb.size), inodes);
    SameMarks(Bitmap.FromBlock(m.blocks[m.l.BmapStart()]), m.l.fssize, m.Used());
    InodesFound(m.words, m.Snap(), m.blocks, m.l);
    assert s == m.Snap();
    MakingIsHealthy(m.words, s, m.owner, m.Used(), m.Nblocks());
    p := new Partition(m.words, sb.inodestart, s, m.owner);
  }

  /** The inodes as `ilock` reads them, each from its `IBLOCK`. */
  function ReadInodes(f: Words, blocks: seq<Block>, sb: Superblock): (inodes: seq<Inode>)
    ensures |inodes| == sb.ninodes
  {
    seq(sb.ninodes, (i: nat) =>
      if InodeBlock(sb, i) < |blocks| then GetDinode(f, blocks[InodeBlock(sb, i)], i % IPB) else EmptyInode)
  }

  lemma InodesFound(f: Words, s: Store, blocks: seq<Block>, l: Layout)
    requires Synced(f, s, l.InodeStart()) == Sound && |s.inodes| == NINODES && l.Nmeta() <= l.fssize
    requires l.End() + l.Nmeta() <= 0x1_0000_0000 && l.End() <= |blocks| <= |s.blocks|
    requires forall b :: 0 <= b < |blocks| ==> s.blocks[b] == blocks[b]
    ensures ReadInodes(f, blocks, SbOf(l)) == s.inodes
  {
    assert Open(0);
    var inodes := ReadInodes(f, blocks, SbOf(l));
    forall i: nat | i < NINODES ensures inodes[i] == s.inodes[i] {
      assert InodeBlock(SbOf(l), i) == l.InodeStart() + i / IPB < l.End();
      assert OnDisk(f, s, l.InodeStart(), i) == s.inodes[i];
    }
  }

  /** On a mounted partition the kernel writes an inode to the block where mkfs wrote it, which is among the blocks for
      inodes; two inodes share it exactly if they are of the same eight. */
  lemma KernelWritesThere(p: Partition, l: Layout, i: nat, j: nat)
    requires l.Nmeta() <= l.fssize && l.End() + l.Nmeta() <= 0x1_0000_0000 && p.inodestart == l.InodeStart()
    requires i < NINODES && j < NINODES
    ensures p.InodeBlock(i) == InodeBlock(SbOf(l), i) && RegionOf(l, p.InodeBlock(i)) == Inodes
    ensures p.InodeBlock(i) == p.InodeBlock(j) <==> i / IPB == j / IPB
  {
    KernelFindsMetadata(l, i, 0, 0);
  }

  lemma SameMarks(data: seq<bv8>, n: nat, used: nat)
    requires |data| == BSIZE && n <= 8 * BSIZE && Bitmap.Bits(data, 8 * BSIZE) == Marks(8 * BSIZE, used)
    ensures Bitmap.Bits(data, n) == Marks(n, used)
  {
    forall i | 0 <= i < n ensures Bitmap.Bits(data, n)[i] == Marks(n, used)[i] {
      assert Bitmap.Bits(data, 8 * BSIZE)[i] == Bitmap.IsSet(data, i);
    }
  }

  /** A read of `m` bytes at `off` from a root directory with `count` files that reaches past its entries, when those
      fill its blocks: 32 to a block, two of them for the directory itself and its parent. */
  predicate PastEntries(count: nat, ino: nat, off: nat, m: nat) {
    ino == 1 && (count + 2) % 32 == 0 && m > 0 && off + m > 16 * (count + 2)
  }

  /** What the kernel finds in file `ino`: its bytes, and whether reading `m` of them at `off` takes a block. */
  ghost predicate Finds(f: Words, s: Store, ino: nat, c: seq<byte>, off: nat, m: nat, hole: bool, t: nat) {
    && Shape(s) && ino < |s.inodes| && s.inodes[ino].size == |c| <= MAXFILE * BSIZE && File(f, s, ino) == c
    && off + m <= |c| && One(hole) <= Clear(s.bitmap)
    && NeedBlocks(f, s, ino, off / BSIZE, BlockEnd(off, m)) == One(hole)
    && (hole ==>
          && BlockEnd(off, m) <= NDIRECT && Missing(f, s, ino, off / BSIZE, BlockEnd(off, m)) == 1
          && HoleAt(f, s, ino, off / BSIZE, BlockEnd(off, m)) == t)
  }

  ghost function Finding(f: Words, s: Store, ino: nat, c: seq<byte>, off: nat, m: nat, hole: bool, t: nat): Status {
    if forall k {:trigger Open(k)} :: k == 0 ==> Finds(f, s, ino, c, off, m, hole, t) then Sound else Broken
  }

  /** Direct slot `t` of file `ino` was given the first free block. */
  ghost predicate Plugged(s: Store, s': Store, ino: nat, t: nat, log: set<nat>) {
    && Shape(s) && ino < |s.inodes| && t <= NDIRECT && FirstClear(s.bitmap) < |s.bitmap| && s' == Filled(s, ino, t)
    && log == {s.first - 1, s.first + FirstClear(s.bitmap)}
  }

  ghost function Plugging(s: Store, s': Store, ino: nat, t: nat, log: set<nat>): Status {
    if forall k {:trigger Open(k)} :: k == 0 ==> Plugged(s, s', ino, t, log) then Sound else Broken
  }

  lemma {:induction false} FoundFile(m: Store, f: Words, owner: map<nat, Ref>, used: nat, n: nat, names: seq<seq<byte>>,
                                     data: seq<seq<byte>>, ino: nat, off: nat, len: nat)
    requires |names| == |data| && |data| + 2 <= NINODES && 1 <= ino < |data| + 2 && used < |m.bitmap|
    requires RootRounded(f, m, FileSet(names, data, |data|)) == Sound && Making(f, m, owner, used, n) == Sound
    requires off + len <= |Seen(FileSet(names, data, |data|), ino)|
    ensures Finding(f, m, ino, Seen(FileSet(names, data, |data|), ino), off, len, PastEntries(|names|, ino, off, len),
                    (|names| + 2) / 32) == Sound
  {
    var files := FileSet(names, data, |data|);
    RootCount(names, data, ino, off, len);
    SeenReads(f, m, files, ino, off, len);
    MakingIsHealthy(f, m, owner, used, n);
    assert Finds(f, m, ino, Seen(files, ino), off, len, PastEntries(|names|, ino, off, len), (|names| + 2) / 32);
  }

  lemma RootCount(names: seq<seq<byte>>, data: seq<seq<byte>>, ino: nat, off: nat, m: nat)
    requires |names| == |data| && |data| + 2 <= NINODES
    ensures var files := FileSet(names, data, |data|);
      && |files[1]| == 16 * (|names| + 2) < NDIRECT * BSIZE
      && (PastRoot(files, ino, off, m) <==> PastEntries(|names|, ino, off, m))
      && |files[1]| / BSIZE == (|names| + 2) / 32
  {
  }

  /** readi, on a file that was found so. */
  method ReadFound(p: Partition, ghost c: seq<byte>, ino: nat, off: nat, n: nat, ghost hole: bool, ghost t: nat)
    returns (r: Io, bytes: seq<byte>, log: set<nat>)
    requires p.Valid() && ino < |p.inodes| && p.inodes[ino].size == |c| && off < 0x1_0000_0000 && n < 0x1_0000_0000
    requires off <= |c| ==> Finding(p.words, p.Snapshot(), ino, c, off, Min(n, |c| - off), hole, t) == Sound
    modifies p
    ensures p.Valid()
    ensures r.Refused? <==> off > |c| || off + n >= 0x1_0000_0000
    ensures !r.Refused? ==> r == Done(Min(n, |c| - off)) && bytes == c[off..off + r.n]
    ensures log != {} <==> r.Done? && hole
    ensures log == {} ==> p.Snapshot() == old(p.Snapshot())
    ensures log != {} ==> Plugging(old(p.Snapshot()), p.Snapshot(), ino, t, log) == Sound
    ensures Synced(p.words, old(p.Snapshot()), p.inodestart) == Sound ==>
      (Synced(p.words, p.Snapshot(), p.inodestart) == Sound <==> log == {})
  {
    ghost var s := p.Snapshot();
    if off <= |c| {
      FoundNeed(p.words, s, ino, c, off, Min(n, |c| - off), hole, t);
      FoundLacks(p.words, s, ino, c, off, Min(n, |c| - off), hole, t);
    }
    r, bytes, log := p.ReadI(ino, off, n);
    if log != {} {
      OneHole(p.words, s, p.Snapshot(), ino, c, off, Min(n, |c| - off), hole, t, log);
    }
  }

  lemma FoundNeed(f: Words, s: Store, ino: nat, c: seq<byte>, off: nat, m: nat, hole: bool, t: nat)
    requires Finding(f, s, ino, c, off, m, hole, t) == Sound
    ensures Shape(s) && ino < |s.inodes| && s.inodes[ino].size == |c| <= MAXFILE * BSIZE && File(f, s, ino) == c
    ensures off + m <= |c| && NeedBlocks(f, s, ino, off / BSIZE, BlockEnd(off, m)) == One(hole) <= Clear(s.bitmap)
  {
    assert Open(0);
  }

  /** The inode lacks a block exactly where there is a hole. */
  lemma FoundLacks(f: Words, s: Store, ino: nat, c: seq<byte>, off: nat, m: nat, hole: bool, t: nat)
    requires Finding(f, s, ino, c, off, m, hole, t) == Sound
    ensures Shape(s) && ino < |s.inodes| && (Lacks(f, s, ino, off / BSIZE, BlockEnd(off, m)) <==> hole)
  {
    assert Open(0);
    NothingMissing(f, s, ino, off / BSIZE, BlockEnd(off, m));
  }

  lemma {:induction false} NothingMissing(f: Words, s: Store, ino: nat, lo: nat, hi: nat)
    requires Shape(s) && ino < |s.inodes| && hi <= MAXFILE
    ensures Missing(f, s, ino, lo, hi) == 0 <==> forall t: nat :: lo <= t < hi ==> AddrOf(f, s, ino, t) != 0
    decreases hi
  {
    if lo < hi {
      NothingMissing(f, s, ino, lo, hi - 1);
    }
  }

  /** What a read that meets one hole passes to log_write. */
  lemma OneHole(f: Words, s0: Store, s: Store, ino: nat, c: seq<byte>, off: nat, m: nat, hole: bool, t: nat,
                log: set<nat>)
    requires Finding(f, s0, ino, c, off, m, hole, t) == Sound && hole
    requires Took(f, s0, s, ino, off / BSIZE, BlockEnd(off, m), log)
    ensures Plugging(s0, s, ino, t, log) == Sound
  {
    assert Open(0);
    HoleCost(f, s0, s, ino, off / BSIZE, BlockEnd(off, m));
    assert Plugged(s0, s, ino, t, log);
  }

  lemma {:induction false} HoleCost(f: Words, s0: Store, s: Store, ino: nat, lo: nat, hi: nat)
    requires Shape(s0) && Shape(s) && ino < |s0.inodes| && ino < |s.inodes| && hi <= NDIRECT
    requires Missing(f, s0, ino, lo, hi) == 1
    ensures lo <= HoleAt(f, s0, ino, lo, hi) < hi
    ensures MapCosts(f, s0, s, ino, lo, hi) == {s.first - 1, AddrOf(f, s, ino, HoleAt(f, s0, ino, lo, hi))}
    decreases hi
  {
    if AddrOf(f, s0, ino, hi - 1) == 0 {
      CostsNothing(f, s0, s, ino, lo, hi - 1);
    } else {
      HoleCost(f, s0, s, ino, lo, hi - 1);
    }
  }

  /** The kernel reads from every file what mkfs put in. It changes nothing and passes nothing to log_write, except
      when it reads past the entries of a root directory that fills its blocks: then it takes the first block that mkfs
      has not used, and does not tell the disk's inode. */
  method KernelReads(m: Maker, ghost names: seq<seq<byte>>, ghost data: seq<seq<byte>>, ino: nat, off: nat, n: nat)
    returns (p: Partition, r: Io, bytes: seq<byte>, log: set<nat>)
    requires |names| == |data| && |data| + 2 <= NINODES && m.Finished(FileSet(names, data, |data|)) && m.l.fssize < BPB
    requires 1 <= ino < |data| + 2 && off < 0x1_0000_0000 && n < 0x1_0000_0000
    ensures fresh(p) && p.Valid()
    ensures var c := Seen(FileSet(names, data, |data|), ino);
      && (r.Refused? <==> off > |c| || off + n >= 0x1_0000_0000)
      && (!r.Refused? ==> r == Done(Min(n, |c| - off)) && bytes == c[off..off + r.n])
    ensures log != {} <==> r.Done? && PastEntries(|names|, ino, off, r.n)
    ensures log == {} ==> p.Snapshot() == m.Snap()
    ensures log != {} ==> Plugging(m.Snap(), p.Snapshot(), ino, (|names| + 2) / 32, log) == Sound
    ensures Synced(p.words, p.Snapshot(), p.inodestart) == Sound <==> log == {}
  {
    ghost var files, c := FileSet(names, data, |data|), Seen(FileSet(names, data, |data|), ino);
    ghost var hole := false;
    p := Mount(m, m.l.offset, files);
    m.FinishedIs(files);
    MakingIsHealthy(m.words, m.Snap(), m.owner, m.Used(), m.Nblocks());
    FoundFile(m.Snap(), m.words, m.owner, m.Used(), m.Nblocks(), names, data, ino, 0, 0);
    FoundNeed(m.words, m.Snap(), ino, c, 0, 0, PastEntries(|names|, ino, 0, 0), (|names| + 2) / 32);
    if off <= |c| {
      hole := PastEntries(|names|, ino, off, Min(n, |c| - off));
      FoundFile(m.Snap(), m.words, m.owner, m.Used(), m.Nblocks(), names, data, ino, off, Min(n, |c| - off));
    }
    r, bytes, log := ReadFound(p, c, ino, off, n, hole, (|names| + 2) / 32);
  }

  /** No file has a hole unless the entries of the root directory fill its blocks; and then, as writei and itrunc make
      none, no read ever takes a block. */
  lemma ImageIsWhole(m: Maker, names: seq<seq<byte>>, data: seq<seq<byte>>)
    requires |names| == |data| && |data| + 2 <= NINODES && m.Finished(FileSet(names, data, |data|))
    ensures Whole(m.words, m.Snap()) == Sound <==> (|names| + 2) % 32 != 0
  {
    m.FinishedIs(FileSet(names, data, |data|));
    RootCount(names, data, 1, 0, 0);
    RootWhole(m.words, m.Snap(), FileSet(names, data, |data|));
  }

  /** Where that block lies: in the partition unless mkfs has filled it, and zeroed. */
  lemma PluggedWith(m: Store, l: Layout, used: nat, s: Store, ino: nat, t: nat, log: set<nat>)
    requires l.Nmeta() <= l.fssize < BPB && used <= l.fssize - l.Nmeta() && m.bitmap == Marks(l.fssize, used)
    requires m.first == l.DataStart() && Plugging(m, s, ino, t, log) == Sound
    ensures var b := l.DataStart() + used;
      && log == {l.DataStart() - 1, b} && b < |s.blocks| && s.blocks[b] == ZeroBlock()
      && (RegionOf(l, b) == Data <==> used < l.fssize - l.Nmeta())
      && (used == l.fssize - l.Nmeta() ==> b == l.End() && RegionOf(Layout(l.End(), l.fssize), b) == Super)
  {
    assert Open(0);
    MarksFirst(l.fssize, used);
  }

  /** `fileread` on the root directory of a new partition, by a process that has just opened it: the kernel panics
      exactly when the read reaches past the entries of a directory that fills its blocks and no operation is in
      progress. */
  method ListRoot(m: Maker, ghost names: seq<seq<byte>>, ghost data: seq<seq<byte>>, n: nat, outstanding: nat)
    returns (r: ReadResult)
    requires |names| == |data| && |data| + 2 <= NINODES && m.Finished(FileSet(names, data, |data|)) && m.l.fssize < BPB
    requires n < 0x8000_0000
    ensures var c := Seen(FileSet(names, data, |data|), 1);
      && (r.Crashes? <==> outstanding == 0 && PastEntries(|names|, 1, 0, Min(n, |c|)))
      && (!r.Crashes? ==> r == Got(c[..Min(n, |c|)]))
  {
    ghost var files, c := FileSet(names, data, |data|), Seen(FileSet(names, data, |data|), 1);
    var p := Mount(m, m.l.offset, files);
    m.FinishedIs(files);
    MakingIsHealthy(m.words, m.Snap(), m.owner, m.Used(), m.Nblocks());
    FoundFile(m.Snap(), m.words, m.owner, m.Used(), m.Nblocks(), names, data, 1, 0, Min(n, |c|));
    r := ListFound(p, c, n, outstanding, PastEntries(|names|, 1, 0, Min(n, |c|)), (|names| + 2) / 32);
  }

  method ListFound(p: Partition, ghost c: seq<byte>, n: nat, outstanding: nat, ghost hole: bool, ghost t: nat)
    returns (r: ReadResult)
    requires p.Valid() && p.inodestart < p.first - 1 && n < 0x8000_0000
    requires Finding(p.words, p.Snapshot(), 1, c, 0, Min(n, |c|), hole, t) == Sound
    modifies p
    ensures r.Crashes? <==> outstanding == 0 && hole
    ensures !r.Crashes? ==> r == Got(c[..Min(n, |c|)])
  {
    FoundNeed(p.words, p.Snapshot(), 1, c, 0, Min(n, |c|), hole, t);
    var f := new OpenFile(p, 1);
    r := f.Read(n, outstanding);
  }

  lemma {:induction false} EmptyTotal(names: seq<seq<byte>>, data: seq<seq<byte>>, i: nat)
    requires i <= |names| == |data| && forall k :: 0 <= k < |data| ==> data[k] == []
    ensures TotalBlocks(FileSet(names, data, i)) == BlocksFor(16 * (i + 2))
    decreases i
  {
    if i == 0 {
      FileSetStart(names, data);
    } else {
      EmptyTotal(names, data, i - 1);
      FileSetNext(names, data, i - 1);
      var was := FileSet(names, data, i - 1);
      TotalUpdate(was, 1, was[1] + Dirent(i + 1, names[i - 1]));
    }
  }

  /** mkfs, for one partition. */
  method Make(words: Words, disk: seq<Block>, l: Layout, names: seq<seq<byte>>, data: seq<seq<byte>>)
    returns (m: Maker, made: Outcome)
    requires WordsWork(words) && l.Nmeta() <= l.fssize < BPB && l.End() <= |disk| <= 0x1_0000_0000
    requires l.End() + l.Nmeta() <= 0x1_0000_0000 && |names| == |data| && |data| + 2 <= NINODES
    ensures fresh(m) && m.l == l && m.words == words
    ensures made.Appended? <==> FilesFit(names, data, l.fssize - l.Nmeta())
    ensures made.Appended? ==> m.Finished(FileSet(names, data, |data|))
  {
    m := new Maker(words, disk, l);
    made := m.InitPartition(names, data);
  }

  lemma SeenFile(names: seq<seq<byte>>, data: seq<seq<byte>>, i: nat)
    requires i < |names| == |data|
    ensures Seen(FileSet(names, data, |data|), i + 2) == data[i]
  {
  }

  /** From the files to the kernel: what is put into a new partition is what is read from it. */
  method MakeThenRead(words: Words, disk: seq<Block>, l: Layout, names: seq<seq<byte>>, data: seq<seq<byte>>,
                      i: nat, off: nat, n: nat)
    returns (made: Outcome, r: Io, bytes: seq<byte>)
    requires WordsWork(words) && l.Nmeta() <= l.fssize < BPB && l.End() <= |disk| <= 0x1_0000_0000
    requires l.End() + l.Nmeta() <= 0x1_0000_0000 && i < |names| == |data| && |data| + 2 <= NINODES
    requires off <= |data[i]| && off + n < 0x1_0000_0000
    ensures made.Appended? <==> FilesFit(names, data, l.fssize - l.Nmeta())
    ensures made.Appended? ==> r == Done(Min(n, |data[i]| - off)) && bytes == data[i][off..off + r.n]
  {
    var m;
    m, made := Make(words, disk, l, names, data);
    r, bytes := Refused, [];
    if made.Appended? {
      SeenFile(names, data, i);
      var p, log;
      p, r, bytes, log := KernelReads(m, names, data, i + 2, off, n);
    }
  }

  /** Thirty empty files and their directory fill a partition with one data block. */
  predicate Thirty(names: seq<seq<byte>>, data: seq<seq<byte>>) {
    |names| == |data| == 30 && forall k :: 0 <= k < 30 ==> data[k] == []
  }

  lemma ThirtyFit(names: seq<seq<byte>>, data: seq<seq<byte>>)
    requires Thirty(names, data)
    ensures FilesFit(names, data, 1) && TotalBlocks(FileSet(names, data, |data|)) == 1
    ensures |Seen(FileSet(names, data, |data|), 1)| == 1024
  {
    EmptyTotal(names, data, 30);
  }

  method MakeThirty(words: Words, disk: seq<Block>, l: Layout, names: seq<seq<byte>>, data: seq<seq<byte>>)
    returns (m: Maker)
    requires WordsWork(words) && l.fssize == 59 && l.End() <= |disk| <= 0x1_0000_0000
    requires l.End() + l.Nmeta() <= 0x1_0000_0000 && Thirty(names, data)
    ensures fresh(m) && m.l == l && m.Finished(FileSet(names, data, |data|)) && m.Used() == 1
  {
    ThirtyFit(names, data);
    var made;
    m, made := Make(words, disk, l, names, data);
    m.FinishedIs(FileSet(names, data, |data|));
  }

  /** `ls` on it panics. */
  method ListThirty(words: Words, disk: seq<Block>, l: Layout, names: seq<seq<byte>>, data: seq<seq<byte>>)
    returns (r: ReadResult)
    requires WordsWork(words) && l.fssize == 59 && l.End() <= |disk| <= 0x1_0000_0000
    requires l.End() + l.Nmeta() <= 0x1_0000_0000 && Thirty(names, data)
    ensures r == Crashes
  {
    var m := MakeThirty(words, disk, l, names, data);
    ThirtyFit(names, data);
    assert PastEntries(|names|, 1, 0, Min(1024, |Seen(FileSet(names, data, |data|), 1)|));
    r := ListRoot(m, names, data, 1024, 0);
  }

  /** Within an operation, reading its root directory wipes the superblock of the next partition. */
  method WipeNext(words: Words, disk: seq<Block>, l: Layout, names: seq<seq<byte>>, data: seq<seq<byte>>)
    returns (p: Partition, r: Io)
    requires WordsWork(words) && l.fssize == 59 && l.End() < |disk| <= 0x1_0000_0000
    requires l.End() + l.Nmeta() <= 0x1_0000_0000 && Thirty(names, data)
    ensures r == Done(16) && l.End() < |p.blocks| && p.blocks[l.End()] == ZeroBlock()
    ensures RegionOf(Layout(l.End(), l.fssize), l.End()) == Super
  {
    var m := MakeThirty(words, disk, l, names, data);
    ThirtyFit(names, data);
    var bytes, log;
    p, r, bytes, log := KernelReads(m, names, data, 1, 512, 16);
    PluggedWith(m.Snap(), l, 1, p.Snapshot(), 1, 1, log);
  }
}
