/** What a partition of the file system means (fs.c): which block each slot of an inode names, who
    owns each block, and the bytes of every file. Slot `bn` of an inode names block `bn` of the
    file, kept in the inode itself (the first 12) or in its indirect block; slot 140 names the
    indirect block. */
module FsModel {
  import opened Blocks

  const NDIRECT: nat := 12
  const NINDIRECT: nat := 128
  const MAXFILE: nat := 140
  const IND: nat := 140
  const SLOTS: nat := 141

  datatype Inode = Inode(addrs: seq<nat>, size: nat)

  /** How the words of an indirect block are kept in its bytes. */
  datatype Words = Words(get: (Block, nat) -> nat, put: (Block, nat, nat) -> Block)

  ghost predicate WordsWork(f: Words) {
    && (forall b: Block, i: nat, w: nat, j: nat ::
          i < NINDIRECT && j < NINDIRECT && w < 0x1_0000_0000 ==>
            f.get(f.put(b, i, w), j) == if i == j then w else f.get(b, j))
    && forall i: nat :: i < NINDIRECT ==> f.get(ZeroBlock(), i) == 0
  }

  function ByteWords(): Words {
    Words((b: Block, i: nat) => if i < WORDS then GetWord(b, i) else 0,
          (b: Block, i: nat, w: nat) => if i < WORDS && w < 0x1_0000_0000 then PutWord(b, i, w) else b)
  }

  lemma ByteWordsWork()
    ensures WordsWork(ByteWords())
  {
    forall b: Block, i: nat, w: nat, j: nat | i < NINDIRECT && j < NINDIRECT && w < 0x1_0000_0000
      ensures ByteWords().get(ByteWords().put(b, i, w), j) == if i == j then w else ByteWords().get(b, j)
    {
      PutGetWord(b, i, w);
    }
    forall i: nat | i < NINDIRECT ensures ByteWords().get(ZeroBlock(), i) == 0 {
      ZeroWord(i);
    }
  }

  /** `first` is freeblock_offset: block `first + i` belongs to bit `i` of the bitmap. */
  datatype Store = Store(first: nat, bitmap: seq<bool>, blocks: seq<Block>, inodes: seq<Inode>)

  /** Who a used block belongs to: a slot of an inode, or nobody yet. */
  datatype Ref = Slot(ino: nat, slot: nat) | Loose

  ghost predicate Shape(s: Store) {
    && s.first > 0
    && s.first + |s.bitmap| <= |s.blocks|
    && |s.blocks| <= 0x1_0000_0000
    && forall i :: 0 <= i < |s.inodes| ==> |s.inodes[i].addrs| == NDIRECT + 1
  }

  predicate IsBlock(s: Store, b: nat) {
    s.first <= b < s.first + |s.bitmap|
  }

  /** The block a slot names; 0 for none. */
  ghost function AddrOf(f: Words, s: Store, ino: nat, slot: nat): nat
    requires Shape(s) && ino < |s.inodes| && slot < SLOTS
  {
    var ip := s.inodes[ino];
    if slot == IND then ip.addrs[NDIRECT]
    else if slot < NDIRECT then ip.addrs[slot]
    else if IsBlock(s, ip.addrs[NDIRECT]) then f.get(s.blocks[ip.addrs[NDIRECT]], slot - NDIRECT)
    else 0
  }

  /** Block ownership: used blocks and references are in one-to-one correspondence. */
  ghost predicate Owns(f: Words, s: Store, owner: map<nat, Ref>)
    requires Shape(s)
  {
    && (forall b: nat :: b in owner <==> IsBlock(s, b) && s.bitmap[b - s.first])
    && (forall b :: b in owner && owner[b].Slot? ==>
          owner[b].ino < |s.inodes| && owner[b].slot < SLOTS && AddrOf(f, s, owner[b].ino, owner[b].slot) == b)
    && (forall ino: nat, slot: nat :: ino < |s.inodes| && slot < SLOTS && AddrOf(f, s, ino, slot) != 0 ==>
          AddrOf(f, s, ino, slot) in owner && owner[AddrOf(f, s, ino, slot)] == Slot(ino, slot))
  }

  ghost predicate NoLoose(owner: map<nat, Ref>) {
    forall b :: b in owner ==> owner[b].Slot?
  }

  ghost predicate WF(f: Words, s: Store, owner: map<nat, Ref>) {
    WordsWork(f) && Shape(s) && Owns(f, s, owner)
  }

  // ------------------------------------------------------------------ file contents

  /** Byte `k` of a file; blocks never allocated read as zeros. */
  ghost function ByteAt(f: Words, s: Store, ino: nat, k: nat): byte
    requires Shape(s) && ino < |s.inodes| && k < MAXFILE * BSIZE
  {
    var b := AddrOf(f, s, ino, k / BSIZE);
    if b < |s.blocks| && b != 0 then s.blocks[b][k % BSIZE] else 0
  }

  ghost predicate SameFiles(f: Words, s: Store, s': Store) {
    && Shape(s) && Shape(s') && |s.inodes| == |s'.inodes|
    && (forall i :: 0 <= i < |s.inodes| ==> s'.inodes[i].size == s.inodes[i].size)
    && forall i: nat, k: nat :: i < |s.inodes| && k < MAXFILE * BSIZE ==> ByteAt(f, s', i, k) == ByteAt(f, s, i, k)
  }

  // ------------------------------------------------------------------ allocation

  /** No slot names a block whose bit is clear. */
  lemma FreeIsUnnamed(f: Words, s: Store, owner: map<nat, Ref>, b: nat, ino: nat, slot: nat)
    requires WF(f, s, owner) && IsBlock(s, b) && !s.bitmap[b - s.first]
    requires ino < |s.inodes| && slot < SLOTS
    ensures AddrOf(f, s, ino, slot) != b
  {
  }

  /** Two slots never name the same block. */
  lemma NamedOnce(f: Words, s: Store, owner: map<nat, Ref>, i1: nat, s1: nat, i2: nat, s2: nat)
    requires WF(f, s, owner) && i1 < |s.inodes| && s1 < SLOTS && i2 < |s.inodes| && s2 < SLOTS
    requires AddrOf(f, s, i1, s1) == AddrOf(f, s, i2, s2) != 0
    ensures i1 == i2 && s1 == s2
  {
    assert owner[AddrOf(f, s, i1, s1)] == Slot(i1, s1);
  }

  /** `balloc`: the bit is set and the block zeroed. */
  function Allocated(s: Store, i: nat): Store
    requires i < |s.bitmap| && s.first + i < |s.blocks|
  {
    s.(bitmap := s.bitmap[i := true], blocks := s.blocks[s.first + i := ZeroBlock()])
  }

  lemma AllocatedAddr(f: Words, s: Store, owner: map<nat, Ref>, i: nat, ino: nat, slot: nat)
    requires WF(f, s, owner) && i < |s.bitmap| && !s.bitmap[i] && ino < |s.inodes| && slot < SLOTS
    ensures Shape(Allocated(s, i)) && AddrOf(f, Allocated(s, i), ino, slot) == AddrOf(f, s, ino, slot)
  {
    FreeIsUnnamed(f, s, owner, s.first + i, ino, IND);
  }

  lemma AllocatedSound(f: Words, s: Store, owner: map<nat, Ref>, i: nat)
    requires WF(f, s, owner) && i < |s.bitmap| && !s.bitmap[i]
    ensures WF(f, Allocated(s, i), owner[s.first + i := Loose])
    ensures SameFiles(f, s, Allocated(s, i))
  {
    var s', b := Allocated(s, i), s.first + i;
    forall ino: nat, slot: nat | ino < |s.inodes| && slot < SLOTS
      ensures AddrOf(f, s', ino, slot) == AddrOf(f, s, ino, slot) != b
    {
      AllocatedAddr(f, s, owner, i, ino, slot);
      FreeIsUnnamed(f, s, owner, b, ino, slot);
    }
  }

  /** The slot that `addrs[x]` is. */
  function SlotOfAddr(x: nat): nat {
    if x == NDIRECT then IND else x
  }

  /** `ip->addrs[x] = b`. */
  function WithAddr(s: Store, ino: nat, x: nat, b: nat): Store
    requires ino < |s.inodes| && x < |s.inodes[ino].addrs|
  {
    s.(inodes := s.inodes[ino := s.inodes[ino].(addrs := s.inodes[ino].addrs[x := b])])
  }

  /** A fresh zero block for a slot kept in the inode. */
  ghost predicate MayAttach(f: Words, s: Store, owner: map<nat, Ref>, ino: nat, slot: nat, b: nat) {
    && WF(f, s, owner) && ino < |s.inodes| && slot < SLOTS && AddrOf(f, s, ino, slot) == 0
    && b in owner && owner[b] == Loose && s.blocks[b] == ZeroBlock()
  }

  lemma WithAddrAddr(f: Words, s: Store, owner: map<nat, Ref>, ino: nat, x: nat, b: nat, i: nat, t: nat)
    requires x <= NDIRECT && MayAttach(f, s, owner, ino, SlotOfAddr(x), b)
    requires i < |s.inodes| && t < SLOTS
    ensures Shape(WithAddr(s, ino, x, b))
    ensures AddrOf(f, WithAddr(s, ino, x, b), i, t) == if (i, t) == (ino, SlotOfAddr(x)) then b else AddrOf(f, s, i, t)
  {
    var s' := WithAddr(s, ino, x, b);
    assert s'.inodes[i].addrs == if i == ino then s.inodes[i].addrs[x := b] else s.inodes[i].addrs;
  }

  lemma WithAddrSound(f: Words, s: Store, owner: map<nat, Ref>, ino: nat, x: nat, b: nat)
    requires x <= NDIRECT && MayAttach(f, s, owner, ino, SlotOfAddr(x), b)
    ensures WF(f, WithAddr(s, ino, x, b), owner[b := Slot(ino, SlotOfAddr(x))])
    ensures SameFiles(f, s, WithAddr(s, ino, x, b))
  {
    var s', slot := WithAddr(s, ino, x, b), SlotOfAddr(x);
    AttachSound(f, s, s', owner, ino, slot, b) by {
      forall i: nat, t: nat | i < |s.inodes| && t < SLOTS
        ensures AddrOf(f, s', i, t) == if (i, t) == (ino, slot) then b else AddrOf(f, s, i, t)
      {
        WithAddrAddr(f, s, owner, ino, x, b, i, t);
      }
    }
  }

  /** Naming a fresh zero block in a slot that named none keeps ownership and every file. */
  lemma AttachSound(f: Words, s: Store, s': Store, owner: map<nat, Ref>, ino: nat, slot: nat, b: nat)
    requires MayAttach(f, s, owner, ino, slot, b)
    requires Shape(s') && s'.first == s.first && s'.bitmap == s.bitmap && |s'.inodes| == |s.inodes|
    requires |s'.blocks| == |s.blocks|
    requires forall c: nat :: c < |s.blocks| && (c in owner ==> owner[c] != Slot(ino, IND)) ==>
      s'.blocks[c] == s.blocks[c]
    requires forall i :: 0 <= i < |s.inodes| ==> s'.inodes[i].size == s.inodes[i].size
    requires forall i: nat, t: nat :: i < |s.inodes| && t < SLOTS ==>
      AddrOf(f, s', i, t) == if (i, t) == (ino, slot) then b else AddrOf(f, s, i, t)
    ensures WF(f, s', owner[b := Slot(ino, slot)])
    ensures SameFiles(f, s, s')
  {
    var owner' := owner[b := Slot(ino, slot)];
    forall i: nat, t: nat | i < |s.inodes| && t < SLOTS && AddrOf(f, s', i, t) != 0
      ensures AddrOf(f, s', i, t) in owner' && owner'[AddrOf(f, s', i, t)] == Slot(i, t)
    {
    }
    forall i: nat, k: nat | i < |s.inodes| && k < MAXFILE * BSIZE ensures ByteAt(f, s', i, k) == ByteAt(f, s, i, k) {
      AttachByte(f, s, s', owner, ino, slot, b, i, k);
    }
  }

  lemma AttachByte(f: Words, s: Store, s': Store, owner: map<nat, Ref>, ino: nat, slot: nat, b: nat, i: nat, k: nat)
    requires MayAttach(f, s, owner, ino, slot, b) && i < |s.inodes| && k < MAXFILE * BSIZE
    requires Shape(s') && |s'.inodes| == |s.inodes| && |s'.blocks| == |s.blocks|
    requires forall c: nat :: c < |s.blocks| && (c in owner ==> owner[c] != Slot(ino, IND)) ==>
      s'.blocks[c] == s.blocks[c]
    requires var t := k / BSIZE; AddrOf(f, s', i, t) == if (i, t) == (ino, slot) then b else AddrOf(f, s, i, t)
    ensures ByteAt(f, s', i, k) == ByteAt(f, s, i, k)
  {
    var t := k / BSIZE;
    var c := AddrOf(f, s, i, t);
    if (i, t) != (ino, slot) && c != 0 {
      assert owner[c] == Slot(i, t);
    }
  }

  /** `a[j] = b` in the indirect block of `ino`. */
  ghost function WithEntry(f: Words, s: Store, ino: nat, j: nat, b: nat): Store
    requires Shape(s) && ino < |s.inodes| && s.inodes[ino].addrs[NDIRECT] < |s.blocks|
  {
    var ind := s.inodes[ino].addrs[NDIRECT];
    s.(blocks := s.blocks[ind := f.put(s.blocks[ind], j, b)])
  }

  lemma WithEntrySound(f: Words, s: Store, owner: map<nat, Ref>, ino: nat, j: nat, b: nat)
    requires j < NINDIRECT && MayAttach(f, s, owner, ino, NDIRECT + j, b) && s.inodes[ino].addrs[NDIRECT] != 0
    ensures s.inodes[ino].addrs[NDIRECT] < |s.blocks|
    ensures WF(f, WithEntry(f, s, ino, j, b), owner[b := Slot(ino, NDIRECT + j)])
    ensures SameFiles(f, s, WithEntry(f, s, ino, j, b))
  {
    var ind, slot := AddrOf(f, s, ino, IND), NDIRECT + j;
    assert owner[ind] == Slot(ino, IND);
    var s' := WithEntry(f, s, ino, j, b);
    AttachSound(f, s, s', owner, ino, slot, b) by {
      forall i: nat, t: nat | i < |s.inodes| && t < SLOTS
        ensures AddrOf(f, s', i, t) == if (i, t) == (ino, slot) then b else AddrOf(f, s, i, t)
      {
        WithEntryAddr(f, s, owner, ino, j, b, i, t);
      }
    }
  }

  lemma WithEntryAddr(f: Words, s: Store, owner: map<nat, Ref>, ino: nat, j: nat, b: nat, i: nat, t: nat)
    requires j < NINDIRECT && MayAttach(f, s, owner, ino, NDIRECT + j, b) && s.inodes[ino].addrs[NDIRECT] != 0
    requires i < |s.inodes| && t < SLOTS
    ensures s.inodes[ino].addrs[NDIRECT] < |s.blocks| && Shape(WithEntry(f, s, ino, j, b))
    ensures AddrOf(f, WithEntry(f, s, ino, j, b), i, t)
      == if (i, t) == (ino, NDIRECT + j) then b else AddrOf(f, s, i, t)
  {
    var ind := AddrOf(f, s, ino, IND);
    assert owner[ind] == Slot(ino, IND);
    var ind2 := AddrOf(f, s, i, IND);
    if ind2 != 0 {
      assert owner[ind2] == Slot(i, IND);
    }
  }

  // ------------------------------------------------------------------ writing data

  /** `src` copied over the bytes of block `b` from `lo` on. */
  function Splice(b: Block, lo: nat, src: seq<byte>): Block
    requires lo + |src| <= BSIZE
  {
    b[..lo] + src + b[lo + |src|..]
  }

  function WithBytes(s: Store, b: nat, lo: nat, src: seq<byte>): Store
    requires b < |s.blocks| && lo + |src| <= BSIZE
  {
    s.(blocks := s.blocks[b := Splice(s.blocks[b], lo, src)])
  }

  /** Writing into a data block changes exactly those bytes of exactly that file. */
  lemma WithBytesSound(f: Words, s: Store, owner: map<nat, Ref>, ino: nat, bn: nat, lo: nat, src: seq<byte>)
    requires WF(f, s, owner) && ino < |s.inodes| && bn < MAXFILE && lo + |src| <= BSIZE
    requires AddrOf(f, s, ino, bn) != 0
    ensures AddrOf(f, s, ino, bn) < |s.blocks|
    ensures var s' := WithBytes(s, AddrOf(f, s, ino, bn), lo, src);
      && WF(f, s', owner)
      && (forall i: nat, t: nat :: i < |s.inodes| && t < SLOTS ==> AddrOf(f, s', i, t) == AddrOf(f, s, i, t))
      && forall i: nat, k: nat :: i < |s.inodes| && k < MAXFILE * BSIZE ==>
           ByteAt(f, s', i, k) == if i == ino && bn * BSIZE + lo <= k < bn * BSIZE + lo + |src|
                                  then src[k - bn * BSIZE - lo] else ByteAt(f, s, i, k)
  {
    var b := AddrOf(f, s, ino, bn);
    assert owner[b] == Slot(ino, bn);
    var s' := WithBytes(s, b, lo, src);
    forall i: nat, t: nat | i < |s.inodes| && t < SLOTS ensures AddrOf(f, s', i, t) == AddrOf(f, s, i, t) {
      WithBytesAddr(f, s, owner, b, lo, src, i, t);
    }
    forall i: nat, k: nat | i < |s.inodes| && k < MAXFILE * BSIZE
      ensures ByteAt(f, s', i, k) == if i == ino && bn * BSIZE + lo <= k < bn * BSIZE + lo + |src|
                                     then src[k - bn * BSIZE - lo] else ByteAt(f, s, i, k)
    {
      WithBytesByte(f, s, owner, ino, bn, lo, src, i, k);
    }
  }

  lemma WithBytesAddr(f: Words, s: Store, owner: map<nat, Ref>, b: nat, lo: nat, src: seq<byte>, i: nat, t: nat)
    requires WF(f, s, owner) && b in owner && owner[b].Slot? && owner[b].slot != IND && lo + |src| <= BSIZE
    requires i < |s.inodes| && t < SLOTS
    ensures b < |s.blocks| && Shape(WithBytes(s, b, lo, src))
    ensures AddrOf(f, WithBytes(s, b, lo, src), i, t) == AddrOf(f, s, i, t)
  {
    var ind := AddrOf(f, s, i, IND);
    if ind != 0 {
      assert owner[ind] == Slot(i, IND);
    }
  }

  lemma WithBytesByte(f: Words, s: Store, owner: map<nat, Ref>, ino: nat, bn: nat, lo: nat, src: seq<byte>, i: nat,
                      k: nat)
    requires WF(f, s, owner) && ino < |s.inodes| && bn < MAXFILE && lo + |src| <= BSIZE
    requires AddrOf(f, s, ino, bn) != 0 && AddrOf(f, s, ino, bn) in owner
    requires i < |s.inodes| && k < MAXFILE * BSIZE
    requires Shape(WithBytes(s, AddrOf(f, s, ino, bn), lo, src))
    requires AddrOf(f, WithBytes(s, AddrOf(f, s, ino, bn), lo, src), i, k / BSIZE) == AddrOf(f, s, i, k / BSIZE)
    ensures ByteAt(f, WithBytes(s, AddrOf(f, s, ino, bn), lo, src), i, k)
         == if i == ino
           && bn * BSIZE + lo <= k < bn * BSIZE + lo + |src| then src[k - bn * BSIZE - lo] else ByteAt(f, s, i, k)
  {
    var b, c := AddrOf(f, s, ino, bn), AddrOf(f, s, i, k / BSIZE);
    if c == b {
      NamedOnce(f, s, owner, i, k / BSIZE, ino, bn);
      assert k / BSIZE == bn;
    } else if i == ino {
      assert k / BSIZE != bn;
    }
  }

  // ------------------------------------------------------------------ truncation

  ghost predicate OwnedBy(owner: map<nat, Ref>, b: nat, ino: nat, n: nat) {
    b in owner && owner[b].Slot? && owner[b].ino == ino && owner[b].slot < n
  }

  /** The bitmap with the bits of the blocks in the first `n` slots of `ino` cleared; `k` bits of it. */
  ghost function CutBits(s: Store, owner: map<nat, Ref>, ino: nat, n: nat, k: nat): (r: seq<bool>)
    requires k <= |s.bitmap|
    ensures |r| == k
  {
    if k == 0 then [] else
      CutBits(s, owner, ino, n, k - 1) + [s.bitmap[k - 1] && !OwnedBy(owner, s.first + k - 1, ino, n)]
  }

  ghost function Cut(s: Store, owner: map<nat, Ref>, ino: nat, n: nat): (r: seq<bool>)
    ensures |r| == |s.bitmap|
  {
    CutBits(s, owner, ino, n, |s.bitmap|)
  }

  lemma {:induction false} CutBitAt(s: Store, owner: map<nat, Ref>, ino: nat, n: nat, k: nat, i: nat)
    requires i < k <= |s.bitmap|
    ensures CutBits(s, owner, ino, n, k)[i] <==> s.bitmap[i] && !OwnedBy(owner, s.first + i, ino, n)
  {
    if i < k - 1 {
      CutBitAt(s, owner, ino, n, k - 1, i);
    }
  }

  lemma CutAt(f: Words, s: Store, owner: map<nat, Ref>, ino: nat, t: nat, i: nat)
    requires WF(f, s, owner) && ino < |s.inodes| && t < SLOTS && i < |s.bitmap|
    ensures s.first + i != AddrOf(f, s, ino, t) ==> Cut(s, owner, ino, t)[i] == Cut(s, owner, ino, t + 1)[i]
    ensures s.first + i == AddrOf(f, s, ino, t) ==> Cut(s, owner, ino, t)[i] && !Cut(s, owner, ino, t + 1)[i]
  {
    var b := s.first + i;
    CutBitAt(s, owner, ino, t, |s.bitmap|, i);
    CutBitAt(s, owner, ino, t + 1, |s.bitmap|, i);
    if b == AddrOf(f, s, ino, t) {
      assert owner[b] == Slot(ino, t);
    } else if OwnedBy(owner, b, ino, t + 1) {
      assert AddrOf(f, s, owner[b].ino, owner[b].slot) == b;
    }
  }

  /** Freeing one more block: its bit is still set, and clearing it is cutting one more slot. */
  lemma CutOne(f: Words, s: Store, owner: map<nat, Ref>, ino: nat, t: nat, b: nat)
    requires WF(f, s, owner) && ino < |s.inodes| && t < SLOTS && b == AddrOf(f, s, ino, t)
    ensures b == 0 ==> Cut(s, owner, ino, t + 1) == Cut(s, owner, ino, t)
    ensures b != 0 ==>
      && IsBlock(s, b)
      && Cut(s, owner, ino, t)[b - s.first]
      && Cut(s, owner, ino, t)[b - s.first := false] == Cut(s, owner, ino, t + 1)
  {
    if b != 0 {
      assert b in owner;
      CutAt(f, s, owner, ino, t, b - s.first);
    }
    var c := if b == 0 then Cut(s, owner, ino, t) else Cut(s, owner, ino, t)[b - s.first := false];
    var c' := Cut(s, owner, ino, t + 1);
    forall i | 0 <= i < |c| ensures c[i] == c'[i] {
      CutAt(f, s, owner, ino, t, i);
    }
  }

  const EmptyInode: Inode := Inode([0, 0, 0, 0, 0, 0, 0, 0, 0, 0, 0, 0, 0], 0)

  /** What `itrunc` leaves: the file is empty and its blocks, no others, are free. */
  ghost function Truncated(s: Store, owner: map<nat, Ref>, ino: nat): Store
    requires ino < |s.inodes|
  {
    s.(bitmap := Cut(s, owner, ino, SLOTS), inodes := s.inodes[ino := EmptyInode])
  }

  ghost function OwnersLeft(owner: map<nat, Ref>, ino: nat): map<nat, Ref> {
    map b | b in owner && !(owner[b].Slot? && owner[b].ino == ino) :: owner[b]
  }

  lemma TruncatedAddr(f: Words, s: Store, owner: map<nat, Ref>, ino: nat, i: nat, t: nat)
    requires WF(f, s, owner) && ino < |s.inodes| && i < |s.inodes| && t < SLOTS
    ensures Shape(Truncated(s, owner, ino))
    ensures AddrOf(f, Truncated(s, owner, ino), i, t) == if i == ino then 0 else AddrOf(f, s, i, t)
  {
  }

  lemma TruncatedByte(f: Words, s: Store, owner: map<nat, Ref>, ino: nat, i: nat, k: nat)
    requires WF(f, s, owner) && ino < |s.inodes| && i < |s.inodes| && k < MAXFILE * BSIZE
    ensures Shape(Truncated(s, owner, ino))
    ensures ByteAt(f, Truncated(s, owner, ino), i, k) == if i == ino then 0 else ByteAt(f, s, i, k)
  {
    TruncatedAddr(f, s, owner, ino, i, k / BSIZE);
  }

  lemma TruncatedOwner(f: Words, s: Store, owner: map<nat, Ref>, ino: nat, b: nat)
    requires WF(f, s, owner) && ino < |s.inodes|
    ensures var s' := Truncated(s, owner, ino);
      b in OwnersLeft(owner, ino) <==> IsBlock(s', b) && s'.bitmap[b - s'.first]
  {
    var s' := Truncated(s, owner, ino);
    if IsBlock(s, b) {
      CutBitAt(s, owner, ino, SLOTS, |s.bitmap|, b - s.first);
    }
  }

  /** The file is empty; every other file has its size and its bytes. */
  lemma TruncatedSound(f: Words, s: Store, owner: map<nat, Ref>, ino: nat)
    requires WF(f, s, owner) && ino < |s.inodes|
    ensures var s' := Truncated(s, owner, ino);
      && WF(f, s', OwnersLeft(owner, ino)) && s'.inodes[ino].size == 0
      && (forall i: nat :: i < |s.inodes| && i != ino ==> s'.inodes[i].size == s.inodes[i].size)
      && forall i: nat, k: nat :: i < |s.inodes| && k < MAXFILE * BSIZE ==>
           ByteAt(f, s', i, k) == if i == ino then 0 else ByteAt(f, s, i, k)
  {
    TruncatedOwnership(f, s, owner, ino);
    forall i: nat, k: nat | i < |s.inodes| && k < MAXFILE * BSIZE
      ensures ByteAt(f, Truncated(s, owner, ino), i, k) == if i == ino then 0 else ByteAt(f, s, i, k)
    {
      TruncatedByte(f, s, owner, ino, i, k);
    }
  }

  lemma TruncatedOwnership(f: Words, s: Store, owner: map<nat, Ref>, ino: nat)
    requires WF(f, s, owner) && ino < |s.inodes|
    ensures WF(f, Truncated(s, owner, ino), OwnersLeft(owner, ino))
  {
    var s', left := Truncated(s, owner, ino), OwnersLeft(owner, ino);
    TruncatedAddr(f, s, owner, ino, ino, 0);
    forall b: nat ensures b in left <==> IsBlock(s', b) && s'.bitmap[b - s'.first] {
      TruncatedOwner(f, s, owner, ino, b);
    }
    forall b | b in left && left[b].Slot?
      ensures left[b].ino < |s'.inodes| && left[b].slot < SLOTS && AddrOf(f, s', left[b].ino, left[b].slot) == b
    {
      TruncatedAddr(f, s, owner, ino, owner[b].ino, owner[b].slot);
    }
    forall i: nat, t: nat | i < |s'.inodes| && t < SLOTS && AddrOf(f, s', i, t) != 0
      ensures AddrOf(f, s', i, t) in left && left[AddrOf(f, s', i, t)] == Slot(i, t)
    {
      TruncatedAddr(f, s, owner, ino, i, t);
    }
  }
}
