/** The steps by which the routines of fs.c change a partition: naming a block in a slot, copying bytes into it, setting
    a size. For each, what it keeps, what it passes to log_write and how many free blocks it takes. */
module FsSteps {
  import opened Blocks
  import opened FsModel
  import opened Sealed
  import Bitmap

  /** The blocks before the data are as they were. */
  ghost predicate SameHead(s: Store, s': Store) {
    s'.first == s.first && |s'.blocks| == |s.blocks| && forall b :: 0 <= b < s.first && b < |s.blocks| ==>
      s'.blocks[b] == s.blocks[b]
  }

  ghost function HeadKept(s: Store, s': Store): Status {
    if forall k {:trigger Open(k)} :: k == 0 ==> SameHead(s, s') then Sound else Broken
  }

  lemma HeadTrans(s0: Store, s1: Store, s2: Store)
    requires HeadKept(s0, s1) == Sound && HeadKept(s1, s2) == Sound
    ensures HeadKept(s0, s2) == Sound
  {
    assert Open(0);
    assert SameHead(s0, s2);
  }

  lemma HeadSame(s: Store)
    ensures HeadKept(s, s) == Sound
  {
    assert SameHead(s, s);
  }

  /** `s'` names `b` in one slot and otherwise what `s` names. */
  ghost predicate Names(f: Words, s: Store, s': Store, ino: nat, slot: nat, b: nat)
    requires Shape(s) && Shape(s')
  {
    && |s'.inodes| == |s.inodes|
    && forall i: nat, t: nat :: i < |s.inodes| && t < SLOTS ==>
         AddrOf(f, s', i, t) == if (i, t) == (ino, slot) then b else AddrOf(f, s, i, t)
  }

  lemma AllocThenAddr(f: Words, s: Store, owner: map<nat, Ref>, ino: nat, x: nat, n: nat)
    requires WF(f, s, owner) && NoLoose(owner) && ino < |s.inodes| && x <= NDIRECT && s.inodes[ino].addrs[x] == 0
    requires n < |s.bitmap| && !s.bitmap[n]
    ensures var s1, b, slot := Allocated(s, n), s.first + n, SlotOfAddr(x);
      var s2, owner2 := WithAddr(s1, ino, x, b), owner[b := Loose][b := Slot(ino, slot)];
      WF(f, s2, owner2) && NoLoose(owner2) && SameFiles(f, s, s2) && Names(f, s, s2, ino, slot, b)
  {
    var s1, b, slot := Allocated(s, n), s.first + n, SlotOfAddr(x);
    AllocatedSound(f, s, owner, n);
    AllocatedAddr(f, s, owner, n, ino, slot);
    WithAddrSound(f, s1, owner[b := Loose], ino, x, b);
    AllocAddrNames(f, s, owner, ino, x, n);
  }

  lemma AllocAddrNames(f: Words, s: Store, owner: map<nat, Ref>, ino: nat, x: nat, n: nat)
    requires WF(f, s, owner) && ino < |s.inodes| && x <= NDIRECT && s.inodes[ino].addrs[x] == 0 && n < |s.bitmap|
    requires !s.bitmap[n]
    ensures var b := s.first + n; var s2 := WithAddr(Allocated(s, n), ino, x, b);
      Shape(s2) && Names(f, s, s2, ino, SlotOfAddr(x), b)
  {
    var s1, b, slot := Allocated(s, n), s.first + n, SlotOfAddr(x);
    AllocatedSound(f, s, owner, n);
    AllocatedAddr(f, s, owner, n, ino, slot);
    var s2 := WithAddr(s1, ino, x, b);
    forall i: nat, t: nat | i < |s.inodes| && t < SLOTS
      ensures Shape(s2) && AddrOf(f, s2, i, t) == if (i, t) == (ino, slot) then b else AddrOf(f, s, i, t)
    {
      AllocatedAddr(f, s, owner, n, i, t);
      WithAddrAddr(f, s1, owner[b := Loose], ino, x, b, i, t);
    }
    WithAddrAddr(f, s1, owner[b := Loose], ino, x, b, ino, 0);
  }

  lemma AllocThenEntry(f: Words, s: Store, owner: map<nat, Ref>, ino: nat, j: nat, n: nat)
    requires WF(f, s, owner) && NoLoose(owner) && ino < |s.inodes| && j < NINDIRECT
    requires s.inodes[ino].addrs[NDIRECT] != 0 && AddrOf(f, s, ino, NDIRECT + j) == 0
    requires n < |s.bitmap| && !s.bitmap[n]
    ensures var s1, b, slot := Allocated(s, n), s.first + n, NDIRECT + j;
      && s1.inodes[ino].addrs[NDIRECT] < |s1.blocks|
      && Shape(s1)
      && var s2, owner2 := WithEntry(f, s1, ino, j, b), owner[b := Loose][b := Slot(ino, slot)];
         WF(f, s2, owner2) && NoLoose(owner2) && SameFiles(f, s, s2) && Names(f, s, s2, ino, slot, b)
  {
    var s1, b, slot := Allocated(s, n), s.first + n, NDIRECT + j;
    AllocatedSound(f, s, owner, n);
    AllocatedAddr(f, s, owner, n, ino, slot);
    WithEntrySound(f, s1, owner[b := Loose], ino, j, b);
    var s2 := WithEntry(f, s1, ino, j, b);
    forall i: nat, t: nat | i < |s.inodes| && t < SLOTS
      ensures AddrOf(f, s2, i, t) == if (i, t) == (ino, slot) then b else AddrOf(f, s, i, t)
    {
      AllocatedAddr(f, s, owner, n, i, t);
      WithEntryAddr(f, s1, owner[b := Loose], ino, j, b, i, t);
    }
  }

  /** After `bmap`: slot `bn` names `addr`; no other slot of any inode changed, except that the
      indirect block may have been supplied. */
  ghost predicate Mapped(f: Words, s: Store, s': Store, ino: nat, bn: nat, addr: nat)
    requires Shape(s) && Shape(s') && ino < |s.inodes| && bn < MAXFILE
  {
    && |s'.inodes| == |s.inodes|
    && addr != 0 && AddrOf(f, s', ino, bn) == addr
    && (AddrOf(f, s, ino, bn) != 0 ==> addr == AddrOf(f, s, ino, bn))
    && (forall i: nat, t: nat :: i < |s.inodes| && t < SLOTS && (i != ino || (t != bn && t != IND)) ==>
          AddrOf(f, s', i, t) == AddrOf(f, s, i, t))
    && (bn >= NDIRECT ==> AddrOf(f, s', ino, IND) != 0)
    && (bn < NDIRECT || AddrOf(f, s, ino, IND) != 0 ==> AddrOf(f, s', ino, IND) == AddrOf(f, s, ino, IND))
  }

  /** What `bmap` passes to log_write: nothing if the block was there; otherwise the bitmap block, the
      new block, and the indirect block that records it. */
  ghost function MapCost(f: Words, s: Store, s': Store, ino: nat, bn: nat): set<nat>
    requires Shape(s) && Shape(s') && ino < |s.inodes| && ino < |s'.inodes| && bn < MAXFILE
  {
    if AddrOf(f, s, ino, bn) != 0 then {}
    else if bn < NDIRECT then {s'.first - 1, AddrOf(f, s', ino, bn)}
    else {s'.first - 1, AddrOf(f, s', ino, bn), AddrOf(f, s', ino, IND)}
  }

  lemma SameFilesTrans(f: Words, s0: Store, s1: Store, s2: Store)
    requires SameFiles(f, s0, s1) && SameFiles(f, s1, s2)
    ensures SameFiles(f, s0, s2)
  {
  }

  /** The indirect block was there, or it alone was supplied. */
  ghost predicate HasIndirect(f: Words, s: Store, s': Store, ino: nat, ind: nat)
    requires Shape(s) && Shape(s') && ino < |s.inodes|
  {
    if AddrOf(f, s, ino, IND) != 0 then s' == s && ind == AddrOf(f, s, ino, IND) else Names(f, s, s', ino, IND, ind)
  }

  /** With the indirect block there, entries read as before; one that is not 0 needs no more. */
  lemma BeforeEntry(f: Words, s0: Store, s1: Store, ino: nat, bn: nat, ind: nat)
    requires Shape(s0) && Shape(s1) && ino < |s0.inodes| && ino < |s1.inodes| && NDIRECT <= bn < MAXFILE
    requires ind != 0 && ind == s1.inodes[ino].addrs[NDIRECT] && HasIndirect(f, s0, s1, ino, ind)
    ensures AddrOf(f, s1, ino, IND) == ind
    ensures AddrOf(f, s1, ino, bn) == AddrOf(f, s0, ino, bn)
    ensures AddrOf(f, s1, ino, bn) != 0 ==> Mapped(f, s0, s1, ino, bn, AddrOf(f, s1, ino, bn))
  {
  }

  /** Supplying the indirect block first, then an entry of it. */
  lemma MappedByTwo(f: Words, s0: Store, s1: Store, s2: Store, ino: nat, bn: nat, ind: nat, b: nat)
    requires Shape(s0) && Shape(s1) && Shape(s2) && ino < |s0.inodes| && NDIRECT <= bn < MAXFILE && ind != 0
    requires HasIndirect(f, s0, s1, ino, ind) && Names(f, s1, s2, ino, bn, b) && b != 0
    requires AddrOf(f, s0, ino, bn) == 0
    ensures Mapped(f, s0, s2, ino, bn, b) && AddrOf(f, s2, ino, IND) == ind
  {
  }

  // ------------------------------------------------------------------ free blocks

  function One(b: bool): nat {
    if b then 1 else 0
  }

  /** How many bits are clear. */
  ghost function Clear(bits: seq<bool>): nat {
    multiset(bits)[false]
  }

  lemma ClearOne(bits: seq<bool>, i: nat)
    requires i < |bits| && !bits[i]
    ensures Clear(bits) == Clear(bits[i := true]) + 1
  {
  }

  lemma FullIsClear(bits: seq<bool>)
    ensures Bitmap.Full(bits) <==> Clear(bits) == 0
  {
    if Clear(bits) != 0 {
      assert false in multiset(bits);
      assert false in bits;
    }
  }

  /** How many blocks `bmap` takes for a slot: none, one, or one more for the indirect block. */
  ghost function SlotNeed(f: Words, s: Store, ino: nat, bn: nat): nat
    requires Shape(s) && ino < |s.inodes| && bn < MAXFILE
  {
    if AddrOf(f, s, ino, bn) != 0 then 0 else if bn < NDIRECT || AddrOf(f, s, ino, IND) != 0 then 1 else 2
  }

  /** How many of the slots `lo` to `hi` name no block. */
  ghost function Missing(f: Words, s: Store, ino: nat, lo: nat, hi: nat): nat
    requires Shape(s) && ino < |s.inodes| && hi <= MAXFILE
    decreases hi
  {
    if hi <= lo then 0 else Missing(f, s, ino, lo, hi - 1) + One(AddrOf(f, s, ino, hi - 1) == 0)
  }

  /** How many blocks it takes to supply the slots `lo` to `hi`. */
  ghost function NeedBlocks(f: Words, s: Store, ino: nat, lo: nat, hi: nat): nat
    requires Shape(s) && ino < |s.inodes| && hi <= MAXFILE
  {
    Missing(f, s, ino, lo, hi) + One(lo < hi && NDIRECT < hi && AddrOf(f, s, ino, IND) == 0)
  }

  /** With the slots before it supplied, the next slot takes what the range still lacks. */
  lemma NextSlot(f: Words, s0: Store, s1: Store, ino: nat, lo: nat, bn: nat)
    requires Supplied(f, s0, s1, ino, lo, bn) && lo <= bn < MAXFILE
    ensures NeedBlocks(f, s0, ino, lo, bn + 1) == NeedBlocks(f, s0, ino, lo, bn) + SlotNeed(f, s1, ino, bn)
  {
    assert AddrOf(f, s1, ino, bn) == AddrOf(f, s0, ino, bn);
  }

  lemma {:induction false} NeedGrows(f: Words, s: Store, ino: nat, lo: nat, a: nat, b: nat)
    requires Shape(s) && ino < |s.inodes| && lo < a <= b <= MAXFILE
    ensures NeedBlocks(f, s, ino, lo, a) <= NeedBlocks(f, s, ino, lo, b)
    decreases b
  {
    if a < b {
      NeedGrows(f, s, ino, lo, a, b - 1);
    }
  }

  // ------------------------------------------------------------------ a sound partition

  /** Every used block is named by exactly one slot, every named block is used, every file fits. */
  ghost predicate Wholesome(f: Words, s: Store, owner: map<nat, Ref>) {
    WF(f, s, owner) && NoLoose(owner) && forall i :: 0 <= i < |s.inodes| ==> s.inodes[i].size <= MAXFILE * BSIZE
  }

  ghost function Healthy(f: Words, s: Store, owner: map<nat, Ref>): Status {
    if forall k {:trigger Open(k)} :: k == 0 ==> Wholesome(f, s, owner) then Sound else Broken
  }

  /** What the code looks at in an inode. */
  lemma Inside(f: Words, s: Store, owner: map<nat, Ref>, ino: nat)
    requires Healthy(f, s, owner) == Sound && ino < |s.inodes|
    ensures Shape(s) && |s.inodes[ino].addrs| == NDIRECT + 1 && s.inodes[ino].size <= MAXFILE * BSIZE
    ensures var ind := s.inodes[ino].addrs[NDIRECT]; ind != 0 ==>
      ind in owner && IsBlock(s, ind) && s.bitmap[ind - s.first]
  {
    assert Open(0);
    assert AddrOf(f, s, ino, IND) == s.inodes[ino].addrs[NDIRECT];
  }

  // ------------------------------------------------------------------ a block for a slot

  /** One slot has a new block, no file has changed, and one bit fewer is clear. */
  ghost predicate Named(f: Words, s: Store, s': Store, ino: nat, slot: nat, b: nat) {
    && Shape(s) && Shape(s') && SameFiles(f, s, s') && Names(f, s, s', ino, slot, b) && s'.first == s.first && b != 0
    && HeadKept(s, s') == Sound && Clear(s.bitmap) == Clear(s'.bitmap) + 1
  }

  ghost function Naming(f: Words, s: Store, s': Store, ino: nat, slot: nat, b: nat): Status {
    if forall k {:trigger Open(k)} :: k == 0 ==> Named(f, s, s', ino, slot, b) then Sound else Broken
  }

  /** `addrs[x] = balloc()`, where bit `n` is clear. */
  lemma TakeAddr(f: Words, s: Store, owner: map<nat, Ref>, n: nat, ino: nat, x: nat)
    requires Healthy(f, s, owner) == Sound && n < |s.bitmap| && !s.bitmap[n] && ino < |s.inodes| && x <= NDIRECT
    requires |s.inodes[ino].addrs| == NDIRECT + 1 && s.inodes[ino].addrs[x] == 0 && s.first + n < |s.blocks|
    ensures var b, s' := s.first + n, WithAddr(Allocated(s, n), ino, x, s.first + n);
      && Healthy(f, s', owner[b := Slot(ino, SlotOfAddr(x))]) == Sound
      && Naming(f, s, s', ino, SlotOfAddr(x), b) == Sound
  {
    assert Open(0);
    var b, s' := s.first + n, WithAddr(Allocated(s, n), ino, x, s.first + n);
    AllocThenAddr(f, s, owner, ino, x, n);
    ClearOne(s.bitmap, n);
    assert owner[b := Loose][b := Slot(ino, SlotOfAddr(x))] == owner[b := Slot(ino, SlotOfAddr(x))];
    assert SameHead(s, s');
    assert Named(f, s, s', ino, SlotOfAddr(x), b);
    assert Wholesome(f, s', owner[b := Slot(ino, SlotOfAddr(x))]);
  }

  /** `a[j] = balloc()` in the indirect block. */
  lemma TakeEntry(f: Words, s: Store, owner: map<nat, Ref>, n: nat, ino: nat, j: nat)
    requires Healthy(f, s, owner) == Sound && n < |s.bitmap| && !s.bitmap[n] && ino < |s.inodes| && j < NINDIRECT
    requires Shape(s) && s.inodes[ino].addrs[NDIRECT] != 0 && s.inodes[ino].addrs[NDIRECT] < |s.blocks|
    requires f.get(s.blocks[s.inodes[ino].addrs[NDIRECT]], j) == 0
    ensures Shape(Allocated(s, n))
    ensures var b, s' := s.first + n, WithEntry(f, Allocated(s, n), ino, j, s.first + n);
      && Healthy(f, s', owner[b := Slot(ino, NDIRECT + j)]) == Sound
      && Naming(f, s, s', ino, NDIRECT + j, b) == Sound
      && s.inodes[ino].addrs[NDIRECT] != b
  {
    assert Open(0);
    var ind, b := s.inodes[ino].addrs[NDIRECT], s.first + n;
    assert AddrOf(f, s, ino, IND) == ind && ind in owner;
    AllocThenEntry(f, s, owner, ino, j, n);
    var s' := WithEntry(f, Allocated(s, n), ino, j, b);
    ClearOne(s.bitmap, n);
    assert owner[b := Loose][b := Slot(ino, NDIRECT + j)] == owner[b := Slot(ino, NDIRECT + j)];
    assert SameHead(s, s');
    assert Named(f, s, s', ino, NDIRECT + j, b);
    assert Wholesome(f, s', owner[b := Slot(ino, NDIRECT + j)]);
  }

  // ------------------------------------------------------------------ bmap

  /** Slot `bn` names `addr`: no file has changed, `log` is what was passed to log_write, and as many bits
      fewer are clear as the slot needed. */
  ghost predicate MapsTo(f: Words, s0: Store, s: Store, ino: nat, bn: nat, addr: nat, log: set<nat>) {
    && Shape(s0) && Shape(s) && s.first == s0.first && SameFiles(f, s0, s) && ino < |s0.inodes| && bn < MAXFILE
    && Mapped(f, s0, s, ino, bn, addr) && log == MapCost(f, s0, s, ino, bn) && HeadKept(s0, s) == Sound
    && Clear(s.bitmap) + SlotNeed(f, s0, ino, bn) == Clear(s0.bitmap)
  }

  ghost function Mapping(f: Words, s0: Store, s: Store, ino: nat, bn: nat, addr: nat, log: set<nat>): Status {
    if forall k {:trigger Open(k)} :: k == 0 ==> MapsTo(f, s0, s, ino, bn, addr, log) then Sound else Broken
  }

  lemma MappedAlready(f: Words, s: Store, owner: map<nat, Ref>, ino: nat, bn: nat)
    requires Healthy(f, s, owner) == Sound && ino < |s.inodes| && bn < NDIRECT && |s.inodes[ino].addrs| == NDIRECT + 1
    requires s.inodes[ino].addrs[bn] != 0
    ensures Mapping(f, s, s, ino, bn, s.inodes[ino].addrs[bn], {}) == Sound
  {
    assert Open(0);
    HeadSame(s);
    assert MapsTo(f, s, s, ino, bn, s.inodes[ino].addrs[bn], {});
  }

  lemma NamedMaps(f: Words, s: Store, s': Store, ino: nat, bn: nat, addr: nat)
    requires Naming(f, s, s', ino, bn, addr) == Sound && ino < |s.inodes| && bn < NDIRECT && s.first > 0
    requires |s.inodes[ino].addrs| == NDIRECT + 1 && s.inodes[ino].addrs[bn] == 0
    ensures Mapping(f, s, s', ino, bn, addr, {s.first - 1, addr}) == Sound
  {
    assert Open(0);
    assert MapsTo(f, s, s', ino, bn, addr, {s.first - 1, addr});
  }

  /** A slot kept in the inode that finds no block, when `spare` of the free ones may not be used. */
  lemma DirectShort(f: Words, s: Store, ino: nat, x: nat, bn: nat, spare: nat)
    requires Shape(s) && ino < |s.inodes| && x <= NDIRECT && s.inodes[ino].addrs[x] == 0 && Clear(s.bitmap) <= spare
    requires bn < MAXFILE && if bn < NDIRECT then x == bn else x == NDIRECT
    ensures Clear(s.bitmap) < SlotNeed(f, s, ino, bn) + spare
  {
    assert AddrOf(f, s, ino, bn) == 0;
  }

  /** The indirect block is there, or was just supplied. */
  ghost predicate WithIndirect(f: Words, s0: Store, s: Store, ino: nat, ind: nat) {
    && Shape(s0) && Shape(s) && s.first == s0.first && SameFiles(f, s0, s) && ino < |s0.inodes| && ind != 0
    && HasIndirect(f, s0, s, ino, ind) && s.inodes[ino].addrs[NDIRECT] == ind && HeadKept(s0, s) == Sound
    && Clear(s0.bitmap) == Clear(s.bitmap) + One(AddrOf(f, s0, ino, IND) == 0)
  }

  ghost function Indirect(f: Words, s0: Store, s: Store, ino: nat, ind: nat): Status {
    if forall k {:trigger Open(k)} :: k == 0 ==> WithIndirect(f, s0, s, ino, ind) then Sound else Broken
  }

  lemma IndirectThere(f: Words, s: Store, owner: map<nat, Ref>, ino: nat)
    requires Healthy(f, s, owner) == Sound && ino < |s.inodes| && |s.inodes[ino].addrs| == NDIRECT + 1
    requires s.inodes[ino].addrs[NDIRECT] != 0
    ensures Indirect(f, s, s, ino, s.inodes[ino].addrs[NDIRECT]) == Sound
  {
    assert Open(0);
    HeadSame(s);
    assert WithIndirect(f, s, s, ino, s.inodes[ino].addrs[NDIRECT]);
  }

  lemma IndirectSupplied(f: Words, s0: Store, s: Store, ino: nat, ind: nat)
    requires Naming(f, s0, s, ino, IND, ind) == Sound && ino < |s0.inodes|
    requires |s0.inodes[ino].addrs| == NDIRECT + 1 && s0.inodes[ino].addrs[NDIRECT] == 0
    ensures Indirect(f, s0, s, ino, ind) == Sound
  {
    assert Open(0);
    assert AddrOf(f, s0, ino, IND) == 0 && AddrOf(f, s, ino, IND) == ind;
    assert WithIndirect(f, s0, s, ino, ind);
  }

  lemma EntryThere(f: Words, s0: Store, s: Store, owner: map<nat, Ref>, ino: nat, bn: nat, ind: nat, addr: nat)
    requires Healthy(f, s, owner) == Sound && Indirect(f, s0, s, ino, ind) == Sound && NDIRECT <= bn < MAXFILE
    requires ind < |s.blocks| && f.get(s.blocks[ind], bn - NDIRECT) == addr && addr != 0 && ino < |s.inodes|
    ensures s == s0 && Mapping(f, s0, s, ino, bn, addr, {}) == Sound
  {
    assert Open(0);
    assert AddrOf(f, s, ino, IND) in owner;
    BeforeEntry(f, s0, s, ino, bn, ind);
    assert AddrOf(f, s0, ino, bn) == addr;
    assert MapsTo(f, s0, s, ino, bn, addr, {});
  }

  lemma EntrySupplied(f: Words, s0: Store, s1: Store, s2: Store, owner: map<nat, Ref>, ino: nat, bn: nat, ind: nat,
                      addr: nat)
    requires Healthy(f, s1, owner) == Sound && Indirect(f, s0, s1, ino, ind) == Sound && NDIRECT <= bn < MAXFILE
    requires ind < |s1.blocks| && f.get(s1.blocks[ind], bn - NDIRECT) == 0 && ino < |s1.inodes|
    requires Naming(f, s1, s2, ino, bn, addr) == Sound && s0.first > 0
    ensures Mapping(f, s0, s2, ino, bn, addr, {s0.first - 1, addr, ind}) == Sound
  {
    assert Open(0);
    assert AddrOf(f, s1, ino, IND) in owner;
    BeforeEntry(f, s0, s1, ino, bn, ind);
    assert AddrOf(f, s1, ino, bn) == 0;
    MappedByTwo(f, s0, s1, s2, ino, bn, ind, addr);
    SameFilesTrans(f, s0, s1, s2);
    HeadTrans(s0, s1, s2);
    assert MapsTo(f, s0, s2, ino, bn, addr, {s0.first - 1, addr, ind});
  }

  /** An entry that finds no block, perhaps because the indirect block took the last. */
  lemma EntryShort(f: Words, s0: Store, s: Store, owner: map<nat, Ref>, ino: nat, bn: nat, ind: nat, spare: nat)
    requires Healthy(f, s, owner) == Sound && Indirect(f, s0, s, ino, ind) == Sound && NDIRECT <= bn < MAXFILE
    requires ind < |s.blocks| && f.get(s.blocks[ind], bn - NDIRECT) == 0 && Clear(s.bitmap) <= spare && ino < |s.inodes|
    ensures Shape(s0) && ino < |s0.inodes| && Clear(s0.bitmap) < SlotNeed(f, s0, ino, bn) + spare
  {
    assert Open(0);
    assert AddrOf(f, s, ino, IND) in owner;
    BeforeEntry(f, s0, s, ino, bn, ind);
  }

  /** Without an indirect block there is nothing past the direct slots. */
  lemma {:induction false} CutRest(f: Words, s: Store, owner: map<nat, Ref>, ino: nat, n: nat)
    requires WF(f, s, owner) && ino < |s.inodes| && s.inodes[ino].addrs[NDIRECT] == 0 && NDIRECT <= n <= SLOTS
    ensures Cut(s, owner, ino, n) == Cut(s, owner, ino, NDIRECT)
    decreases n
  {
    if n > NDIRECT {
      CutRest(f, s, owner, ino, n - 1);
      CutOne(f, s, owner, ino, n - 1, 0);
    }
  }

  /** An inode with its first `n` direct addresses zeroed. */
  function Cleared(ip: Inode, n: nat): (r: Inode)
    requires n <= NDIRECT < |ip.addrs|
    ensures |r.addrs| == |ip.addrs| && r.size == ip.size
    ensures forall i :: 0 <= i < |ip.addrs| ==> r.addrs[i] == if i < n then 0 else ip.addrs[i]
  {
    if n == 0 then ip else Cleared(ip, n - 1).(addrs := Cleared(ip, n - 1).addrs[n - 1 := 0])
  }

  lemma {:induction false} CutNothing(s: Store, owner: map<nat, Ref>, ino: nat, k: nat)
    requires k <= |s.bitmap|
    ensures CutBits(s, owner, ino, 0, k) == s.bitmap[..k]
  {
    if k > 0 {
      CutNothing(s, owner, ino, k - 1);
    }
  }

  lemma SliceJoin(img: seq<byte>, off: nat, tot: nat, tot': nat)
    requires tot <= tot' && off + tot' <= |img|
    ensures img[off..off + tot] + img[off + tot..off + tot'] == img[off..off + tot']
  {
  }

  /** Every file has its old size and content. */
  ghost predicate SameImages(f: Words, s: Store, s': Store) {
    && Shape(s) && Shape(s') && |s'.inodes| == |s.inodes|
    && (forall i :: 0 <= i < |s.inodes| ==> s'.inodes[i].size == s.inodes[i].size)
    && forall i: nat :: i < |s.inodes| ==> Image(f, s', i) == Image(f, s, i)
  }

  lemma SameImagesTrans(f: Words, s0: Store, s1: Store, s2: Store)
    requires SameImages(f, s0, s1) && SameImages(f, s1, s2)
    ensures SameImages(f, s0, s2)
  {
  }

  lemma SameFilesImages(f: Words, s: Store, s': Store)
    requires SameFiles(f, s, s')
    ensures SameImages(f, s, s')
  {
    forall i: nat | i < |s.inodes| ensures Image(f, s', i) == Image(f, s, i) {
      forall k | 0 <= k < MAXFILE * BSIZE ensures Image(f, s', i)[k] == Image(f, s, i)[k] {
      }
    }
  }

  lemma PieceOfImage(f: Words, s: Store, owner: map<nat, Ref>, ino: nat, bn: nat, lo: nat, m: nat, addr: nat)
    requires WF(f, s, owner) && ino < |s.inodes| && bn < MAXFILE && lo + m <= BSIZE
    requires addr != 0 && AddrOf(f, s, ino, bn) == addr
    ensures addr < |s.blocks|
    ensures s.blocks[addr][lo..lo + m] == Image(f, s, ino)[bn * BSIZE + lo..bn * BSIZE + lo + m]
  {
    assert addr in owner;
    var off := bn * BSIZE + lo;
    var a, b := s.blocks[addr][lo..lo + m], Image(f, s, ino)[off..off + m];
    forall k | 0 <= k < m ensures a[k] == b[k] {
      assert (off + k) / BSIZE == bn && (off + k) % BSIZE == lo + k;
    }
  }

  /** The content of a file. */
  ghost function File(f: Words, s: Store, ino: nat): (c: seq<byte>)
    requires Shape(s) && ino < |s.inodes| && s.inodes[ino].size <= MAXFILE * BSIZE
    ensures |c| == s.inodes[ino].size
  {
    Image(f, s, ino)[..s.inodes[ino].size]
  }

  /** Writing `src` at `off`, as a write to a byte sequence. */
  function WriteInto(file: seq<byte>, off: nat, src: seq<byte>): seq<byte>
    requires off <= |file|
  {
    file[..off] + src + if off + |src| <= |file| then file[off + |src|..] else []
  }

  /** Every file but `ino` has its old size and content. */
  ghost predicate OthersSame(f: Words, s: Store, s': Store, ino: nat) {
    && Shape(s) && Shape(s') && |s'.inodes| == |s.inodes|
    && forall i: nat :: i < |s.inodes| && i != ino ==>
         s'.inodes[i].size == s.inodes[i].size && Image(f, s', i) == Image(f, s, i)
  }

  /** What `writei` passes to log_write: the data blocks and their mapping, and the inode if the file
      has grown. */
  ghost function WriteCost(f: Words, s: Store, s': Store, ino: nat, off: nat, n: nat, inodeBlock: nat): set<nat>
    requires Shape(s) && Shape(s') && ino < |s.inodes| && ino < |s'.inodes| && off + n <= MAXFILE * BSIZE
  {
    RangeCost(f, s, s', ino, off / BSIZE, BlockEnd(off, n)) + if off + n > s.inodes[ino].size then {inodeBlock} else {}
  }

  /** `ip->size = size`. */
  function WithSize(s: Store, ino: nat, size: nat): Store
    requires ino < |s.inodes|
  {
    s.(inodes := s.inodes[ino := s.inodes[ino].(size := size)])
  }

  lemma WithSizeAddr(f: Words, s: Store, ino: nat, size: nat, i: nat, t: nat)
    requires Shape(s) && ino < |s.inodes| && i < |s.inodes| && t < SLOTS
    ensures Shape(WithSize(s, ino, size))
    ensures AddrOf(f, WithSize(s, ino, size), i, t) == AddrOf(f, s, i, t)
  {
  }

  lemma WithSizeImage(f: Words, s: Store, ino: nat, size: nat, i: nat)
    requires Shape(s) && ino < |s.inodes| && i < |s.inodes|
    ensures Shape(WithSize(s, ino, size))
    ensures Image(f, WithSize(s, ino, size), i) == Image(f, s, i)
  {
    var a, b := Image(f, WithSize(s, ino, size), i), Image(f, s, i);
    forall k | 0 <= k < |a| ensures a[k] == b[k] {
      WithSizeAddr(f, s, ino, size, i, k / BSIZE);
    }
  }

  lemma WithSizeSound(f: Words, s: Store, owner: map<nat, Ref>, ino: nat, size: nat)
    requires WF(f, s, owner) && ino < |s.inodes|
    ensures WF(f, WithSize(s, ino, size), owner)
  {
    forall i: nat, t: nat | i < |s.inodes| && t < SLOTS
      ensures Shape(WithSize(s, ino, size)) && AddrOf(f, WithSize(s, ino, size), i, t) == AddrOf(f, s, i, t)
    {
      WithSizeAddr(f, s, ino, size, i, t);
    }
    assert Shape(WithSize(s, ino, size));
  }

  lemma {:induction false} WithSizeCost(f: Words, s0: Store, s: Store, ino: nat, size: nat, lo: nat, hi: nat)
    requires Shape(s0) && Shape(s) && ino < |s0.inodes| && ino < |s.inodes| && hi <= MAXFILE
    ensures Shape(WithSize(s, ino, size))
    ensures RangeCost(f, s0, WithSize(s, ino, size), ino, lo, hi) == RangeCost(f, s0, s, ino, lo, hi)
    decreases hi
  {
    WithSizeAddr(f, s, ino, size, ino, IND);
    if lo < hi {
      WithSizeCost(f, s0, s, ino, size, lo, hi - 1);
      WithSizeAddr(f, s, ino, size, ino, hi - 1);
    }
  }

  /** The size `writei` leaves. */
  function NewSize(size: nat, off: nat, n: nat): nat {
    if n > 0 && off + n > size then off + n else size
  }

  lemma OverlayIsWrite(img: seq<byte>, size: nat, off: nat, src: seq<byte>)
    requires off <= size <= |img| && off + |src| <= |img|
    ensures Overlay(img, off, src)[..NewSize(size, off, |src|)] == WriteInto(img[..size], off, src)
  {
  }

  lemma GrowSound(f: Words, s0: Store, s1: Store, owner: map<nat, Ref>, ino: nat, off: nat, src: seq<byte>)
    requires WF(f, s1, owner) && Wrote(f, s0, s1, ino, off, src)
    requires Supplied(f, s0, s1, ino, off / BSIZE, BlockEnd(off, |src|))
    requires off <= s0.inodes[ino].size <= MAXFILE * BSIZE
    ensures var s2 := WithSize(s1, ino, NewSize(s0.inodes[ino].size, off, |src|));
      && WF(f, s2, owner)
      && File(f, s2, ino) == WriteInto(File(f, s0, ino), off, src)
      && OthersSame(f, s0, s2, ino)
      && Supplied(f, s0, s2, ino, off / BSIZE, BlockEnd(off, |src|))
      && RangeCost(f, s0, s2, ino, off / BSIZE, BlockEnd(off, |src|))
          == RangeCost(f, s0, s1, ino, off / BSIZE, BlockEnd(off, |src|))
  {
    var size := NewSize(s0.inodes[ino].size, off, |src|);
    WithSizeSound(f, s1, owner, ino, size);
    WithSizeImage(f, s1, ino, size, ino);
    OverlayIsWrite(Image(f, s0, ino), s0.inodes[ino].size, off, src);
    forall i: nat | i < |s0.inodes| && i != ino ensures Image(f, WithSize(s1, ino, size), i) == Image(f, s0, i) {
      WithSizeImage(f, s1, ino, size, i);
    }
    WithSizeCost(f, s0, s1, ino, size, off / BSIZE, BlockEnd(off, |src|));
    WithSizeSupplied(f, s0, s1, ino, size, off / BSIZE, BlockEnd(off, |src|));
  }

  lemma WithSizeSupplied(f: Words, s0: Store, s: Store, ino: nat, size: nat, lo: nat, hi: nat)
    requires Supplied(f, s0, s, ino, lo, hi)
    ensures Supplied(f, s0, WithSize(s, ino, size), ino, lo, hi)
  {
    forall t: nat | t < SLOTS
      ensures Shape(WithSize(s, ino, size)) && AddrOf(f, WithSize(s, ino, size), ino, t) == AddrOf(f, s, ino, t)
    {
      WithSizeAddr(f, s, ino, size, ino, t);
    }
    WithSizeAddr(f, s, ino, size, ino, IND);
  }

  ghost function Overlaid(f: Words, s: Store, s': Store, ino: nat, off: nat, data: seq<byte>): Status {
    if forall k {:trigger Open(k)} :: k == 0 ==> Wrote(f, s, s', ino, off, data) then Sound else Broken
  }

  /** Blocks `lo` to `hi` have been supplied, and nothing before the data has changed: `log` is what that took, and as
      many bits fewer are clear as were needed. */
  ghost predicate PaidFor(f: Words, s0: Store, s: Store, ino: nat, lo: nat, hi: nat, log: set<nat>) {
    && Spent(f, s0, s, ino, lo, hi, log) && HeadKept(s0, s) == Sound
    && Clear(s.bitmap) + NeedBlocks(f, s0, ino, lo, hi) == Clear(s0.bitmap)
  }

  ghost function Paying(f: Words, s0: Store, s: Store, ino: nat, lo: nat, hi: nat, log: set<nat>): Status {
    if forall k {:trigger Open(k)} :: k == 0 ==> PaidFor(f, s0, s, ino, lo, hi, log) then Sound else Broken
  }

  /** The first `tot` bytes of `src` have been written at `off`, and `log` is what that took. */
  ghost predicate Turn(f: Words, s0: Store, s: Store, ino: nat, src: seq<byte>, off: nat, tot: nat, log: set<nat>) {
    && tot <= |src| && Aligned(off, tot, |src|)
    && Overlaid(f, s0, s, ino, off, src[..tot]) == Sound
    && Paying(f, s0, s, ino, off / BSIZE, BlockEnd(off, tot), log) == Sound
  }

  lemma FirstTurn(f: Words, s: Store, ino: nat, src: seq<byte>, off: nat)
    requires Shape(s) && ino < |s.inodes| && off + |src| <= MAXFILE * BSIZE
    ensures Turn(f, s, s, ino, src, off, 0, {})
  {
    assert Overlay(Image(f, s, ino), off, src[..0]) == Image(f, s, ino);
    assert Wrote(f, s, s, ino, off, src[..0]);
    HeadSame(s);
    assert PaidFor(f, s, s, ino, off / BSIZE, off / BSIZE, {});
  }

  lemma LastTurn(f: Words, s0: Store, s: Store, ino: nat, src: seq<byte>, off: nat, log: set<nat>)
    requires Turn(f, s0, s, ino, src, off, |src|, log)
    ensures Wrote(f, s0, s, ino, off, src) && PaidFor(f, s0, s, ino, off / BSIZE, BlockEnd(off, |src|), log)
  {
    assert Open(0);
    assert src[..|src|] == src;
  }

  lemma NextTurn(f: Words, s0: Store, s1: Store, s2: Store, ino: nat, src: seq<byte>, off: nat, tot: nat, tot': nat,
                 addr: nat, sofar: set<nat>, more: set<nat>)
    requires tot < |src| && Turn(f, s0, s1, ino, src, off, tot, sofar)
    requires off + |src| <= MAXFILE * BSIZE && tot' == tot + PieceAt(off, tot, |src|).len
    requires var p := PieceAt(off, tot, |src|);
      Overlaid(f, s1, s2, ino, off + tot, src[tot..tot']) == Sound
        && Charging(f, s1, s2, ino, p.bn, addr, more) == Sound
    ensures Turn(f, s0, s2, ino, src, off, tot', sofar + more)
  {
    OverlaidMore(f, s0, s1, s2, ino, off, src, tot, tot');
    PayMore(f, s0, s1, s2, ino, off / BSIZE, PieceAt(off, tot, |src|).bn, addr, sofar, more);
  }

  lemma OverlaidMore(f: Words, s0: Store, s1: Store, s2: Store, ino: nat, off: nat, src: seq<byte>, tot: nat, tot': nat)
    requires tot <= tot' <= |src|
    requires Overlaid(f, s0, s1, ino, off, src[..tot]) == Sound
    requires Overlaid(f, s1, s2, ino, off + tot, src[tot..tot']) == Sound
    ensures Overlaid(f, s0, s2, ino, off, src[..tot']) == Sound
  {
    assert Open(0);
    WroteTurn(f, s0, s1, s2, ino, off, src, tot, tot');
  }

  lemma PayMore(f: Words, s0: Store, s1: Store, s2: Store, ino: nat, lo: nat, bn: nat, addr: nat, log: set<nat>,
                more: set<nat>)
    requires Paying(f, s0, s1, ino, lo, bn, log) == Sound && lo <= bn
    requires Charging(f, s1, s2, ino, bn, addr, more) == Sound
    ensures Paying(f, s0, s2, ino, lo, bn + 1, log + more) == Sound
  {
    assert Open(0);
    NextSlot(f, s0, s1, ino, lo, bn);
    SpentMore(f, s0, s1, s2, ino, lo, bn, addr, log, more);
    HeadTrans(s0, s1, s2);
    assert PaidFor(f, s0, s2, ino, lo, bn + 1, log + more);
  }

  /** A slot that finds too few free blocks, when `spare` of them may not be used: then there are too few for the whole
      range. */
  lemma TooFew(f: Words, s0: Store, s: Store, ino: nat, off: nat, tot: nat, n: nat, log: set<nat>, spare: nat)
    requires tot < n && Aligned(off, tot, n) && off + n <= MAXFILE * BSIZE && Shape(s) && ino < |s.inodes|
    requires Paying(f, s0, s, ino, off / BSIZE, BlockEnd(off, tot), log) == Sound
    requires Clear(s.bitmap) < SlotNeed(f, s, ino, PieceAt(off, tot, n).bn) + spare
    ensures Shape(s0) && ino < |s0.inodes|
    ensures Clear(s0.bitmap) < NeedBlocks(f, s0, ino, off / BSIZE, BlockEnd(off, n)) + spare
  {
    assert Open(0);
    var p := PieceAt(off, tot, n);
    NextSlot(f, s0, s, ino, off / BSIZE, p.bn);
    EndGrows(off, tot + p.len, n);
    NeedGrows(f, s0, ino, off / BSIZE, p.bn + 1, BlockEnd(off, n));
  }

  lemma EndGrows(off: nat, a: nat, b: nat)
    requires a <= b
    ensures BlockEnd(off, a) <= BlockEnd(off, b)
  {
  }

  lemma WroteTurn(f: Words, s0: Store, s1: Store, s2: Store, ino: nat, off: nat, src: seq<byte>, tot: nat, tot': nat)
    requires tot <= tot' <= |src|
    requires Wrote(f, s0, s1, ino, off, src[..tot]) && Wrote(f, s1, s2, ino, off + tot, src[tot..tot'])
    ensures Wrote(f, s0, s2, ino, off, src[..tot'])
  {
    WroteMore(f, s0, s1, s2, ino, off, src[..tot], src[tot..tot']);
    assert src[..tot] + src[tot..tot'] == src[..tot'];
  }

  /** One past the last block that the first `n` bytes from `off` on reach. */
  function BlockEnd(off: nat, n: nat): (r: nat)
    ensures r >= off / BSIZE
  {
    if n == 0 then off / BSIZE else (off + n - 1) / BSIZE + 1
  }

  /** The part of a transfer that one turn of the loop handles. */
  datatype Piece = Piece(bn: nat, lo: nat, len: nat)

  /** `off/BSIZE`, `off%BSIZE` and `min(n - tot, BSIZE - off%BSIZE)`, with `off` advanced by `tot`. */
  function PieceAt(off: nat, tot: nat, n: nat): (p: Piece)
    requires tot < n && Aligned(off, tot, n)
    ensures 0 < p.len && tot + p.len <= n && p.lo + p.len <= BSIZE
    ensures p.bn * BSIZE + p.lo == off + tot
    ensures Aligned(off, tot + p.len, n)
    ensures p.bn == BlockEnd(off, tot) && BlockEnd(off, tot + p.len) == p.bn + 1
    ensures off + n <= MAXFILE * BSIZE ==> p.bn < MAXFILE
  {
    var room := BSIZE - (off + tot) % BSIZE;
    Piece((off + tot) / BSIZE, (off + tot) % BSIZE, if n - tot < room then n - tot else room)
  }

  /** The loop is at its start, at its end, or at a block boundary. */
  predicate Aligned(off: nat, tot: nat, n: nat) {
    tot == n || tot == 0 || (off + tot) % BSIZE == 0
  }

  /** Blocks `lo` to `hi` of the file are there now; the others are as they were. */
  ghost predicate Supplied(f: Words, s: Store, s': Store, ino: nat, lo: nat, hi: nat) {
    && Shape(s) && Shape(s') && s'.first == s.first && |s.inodes| == |s'.inodes| && ino < |s.inodes| && hi <= MAXFILE
    && (forall t: nat :: lo <= t < hi ==> AddrOf(f, s', ino, t) != 0)
    && (forall t: nat :: t < MAXFILE && (t < lo || hi <= t) ==> AddrOf(f, s', ino, t) == AddrOf(f, s, ino, t))
    && (hi > NDIRECT && lo < hi ==> AddrOf(f, s', ino, IND) != 0)
    && (hi <= NDIRECT || hi <= lo ==> AddrOf(f, s', ino, IND) == AddrOf(f, s, ino, IND))
    && (forall i: nat, t: nat :: i < |s.inodes| && i != ino && t < SLOTS ==> AddrOf(f, s', i, t) == AddrOf(f, s, i, t))
    && (forall t: nat :: t < SLOTS && AddrOf(f, s, ino, t) != 0 ==> AddrOf(f, s', ino, t) == AddrOf(f, s, ino, t))
  }

  /** What writing blocks `lo` to `hi` passes to log_write: each data block, and what mapping it took. */
  ghost function RangeCost(f: Words, s: Store, s': Store, ino: nat, lo: nat, hi: nat): set<nat>
    requires Shape(s) && Shape(s') && ino < |s.inodes| && ino < |s'.inodes| && hi <= MAXFILE
    decreases hi
  {
    if hi <= lo then {} else
      RangeCost(f, s, s', ino, lo, hi - 1) + MapCost(f, s, s', ino, hi - 1) + {AddrOf(f, s', ino, hi - 1)}
  }

  lemma {:induction false} RangeCostKept(f: Words, s0: Store, s1: Store, s2: Store, ino: nat, lo: nat, hi: nat, bn: nat,
                                         addr: nat)
    requires Supplied(f, s0, s1, ino, lo, bn) && hi <= bn < MAXFILE && Shape(s2) && Mapped(f, s1, s2, ino, bn, addr)
    requires s2.first == s1.first
    ensures RangeCost(f, s0, s2, ino, lo, hi) == RangeCost(f, s0, s1, ino, lo, hi)
    decreases hi
  {
    if lo < hi {
      RangeCostKept(f, s0, s1, s2, ino, lo, hi - 1, bn, addr);
      assert AddrOf(f, s2, ino, hi - 1) == AddrOf(f, s1, ino, hi - 1);
    }
  }

  /** Blocks `lo` to `hi` are there, and `log` is what it took. */
  ghost predicate Spent(f: Words, s0: Store, s: Store, ino: nat, lo: nat, hi: nat, log: set<nat>) {
    Supplied(f, s0, s, ino, lo, hi) && log == RangeCost(f, s0, s, ino, lo, hi)
  }

  lemma SuppliedMore(f: Words, s0: Store, s1: Store, s2: Store, ino: nat, lo: nat, bn: nat, addr: nat)
    requires Supplied(f, s0, s1, ino, lo, bn) && lo <= bn < MAXFILE && Shape(s2) && Mapped(f, s1, s2, ino, bn, addr)
    requires s2.first == s1.first
    ensures Supplied(f, s0, s2, ino, lo, bn + 1)
    ensures MapCost(f, s1, s2, ino, bn) == MapCost(f, s0, s2, ino, bn)
  {
  }

  lemma SpentMore(f: Words, s0: Store, s1: Store, s2: Store, ino: nat, lo: nat, bn: nat, addr: nat, log: set<nat>,
                  more: set<nat>)
    requires Spent(f, s0, s1, ino, lo, bn, log) && lo <= bn < MAXFILE && Shape(s2) && Mapped(f, s1, s2, ino, bn, addr)
    requires s2.first == s1.first && more == MapCost(f, s1, s2, ino, bn) + {addr}
    ensures Spent(f, s0, s2, ino, lo, bn + 1, log + more)
  {
    RangeCostKept(f, s0, s1, s2, ino, lo, bn, bn, addr);
    SuppliedMore(f, s0, s1, s2, ino, lo, bn, addr);
    CostStep(log, MapCost(f, s0, s2, ino, bn), addr);
  }

  lemma CostStep(log: set<nat>, cost: set<nat>, addr: nat)
    ensures log + (cost + {addr}) == log + cost + {addr}
  {
  }

  /** `data` has been written at `off` of file `ino`, and nothing else has changed in any file. */
  ghost predicate Written(f: Words, s: Store, s': Store, ino: nat, off: nat, data: seq<byte>) {
    && Shape(s) && Shape(s') && |s'.inodes| == |s.inodes|
    && (forall i :: 0 <= i < |s.inodes| ==> s'.inodes[i].size == s.inodes[i].size)
    && forall i: nat, k: nat :: i < |s.inodes| && k < MAXFILE * BSIZE ==>
         ByteAt(f, s', i, k) == if i == ino && off <= k < off + |data| then data[k - off] else ByteAt(f, s, i, k)
  }

  /** Block `bn` of the file is `addr`, passed to log_write with what mapping it took. */
  ghost predicate Charged(f: Words, s: Store, s': Store, ino: nat, bn: nat, addr: nat, log: set<nat>) {
    && Shape(s) && Shape(s') && ino < |s.inodes| && bn < MAXFILE && s'.first == s.first
    && Mapped(f, s, s', ino, bn, addr) && log == MapCost(f, s, s', ino, bn) + {addr} && HeadKept(s, s') == Sound
    && Clear(s'.bitmap) + SlotNeed(f, s, ino, bn) == Clear(s.bitmap)
  }

  ghost function Charging(f: Words, s: Store, s': Store, ino: nat, bn: nat, addr: nat, log: set<nat>): Status {
    if forall k {:trigger Open(k)} :: k == 0 ==> Charged(f, s, s', ino, bn, addr, log) then Sound else Broken
  }

  /** Copying a piece into a mapped block. */
  lemma PieceSound(f: Words, s0: Store, s1: Store, owner: map<nat, Ref>, ino: nat, bn: nat, lo: nat, addr: nat,
                   piece: seq<byte>, log: set<nat>)
    requires Healthy(f, s1, owner) == Sound && Mapping(f, s0, s1, ino, bn, addr, log) == Sound && lo + |piece| <= BSIZE
    ensures addr < |s1.blocks|
    ensures Healthy(f, WithBytes(s1, addr, lo, piece), owner) == Sound
    ensures Overlaid(f, s0, WithBytes(s1, addr, lo, piece), ino, bn * BSIZE + lo, piece) == Sound
    ensures Charging(f, s0, WithBytes(s1, addr, lo, piece), ino, bn, addr, log + {addr}) == Sound
  {
    assert Open(0);
    var s2 := WithBytes(s1, addr, lo, piece);
    WithBytesSound(f, s1, owner, ino, bn, lo, piece);
    assert Wholesome(f, s2, owner);
    PieceWrote(f, s0, s1, s2, owner, ino, bn, lo, addr, piece);
    assert SameHead(s1, s2);
    HeadTrans(s0, s1, s2);
    assert Charged(f, s0, s2, ino, bn, addr, log + {addr});
  }

  lemma PieceWrote(f: Words, s0: Store, s1: Store, s2: Store, owner: map<nat, Ref>, ino: nat, bn: nat, lo: nat,
                   addr: nat, piece: seq<byte>)
    requires WF(f, s1, owner) && SameFiles(f, s0, s1) && ino < |s1.inodes| && bn < MAXFILE && lo + |piece| <= BSIZE
    requires Mapped(f, s0, s1, ino, bn, addr) && addr < |s1.blocks| && s2 == WithBytes(s1, addr, lo, piece)
    ensures Wrote(f, s0, s2, ino, bn * BSIZE + lo, piece)
    ensures Mapped(f, s0, s2, ino, bn, addr) && MapCost(f, s0, s2, ino, bn) == MapCost(f, s0, s1, ino, bn)
  {
    WithBytesSound(f, s1, owner, ino, bn, lo, piece);
    WrittenIsWrote(f, s0, s2, ino, bn * BSIZE + lo, piece);
  }

  /** All bytes a file could have; those past its size included. */
  ghost function Image(f: Words, s: Store, ino: nat): (r: seq<byte>)
    requires Shape(s) && ino < |s.inodes|
    ensures |r| == MAXFILE * BSIZE
  {
    seq(MAXFILE * BSIZE, k requires 0 <= k < MAXFILE * BSIZE => ByteAt(f, s, ino, k))
  }

  /** `data` laid over `img` from `off` on. */
  function Overlay(img: seq<byte>, off: nat, data: seq<byte>): (r: seq<byte>)
    requires off + |data| <= |img|
    ensures |r| == |img|
  {
    img[..off] + data + img[off + |data|..]
  }

  lemma OverlayTwice(img: seq<byte>, off: nat, a: seq<byte>, b: seq<byte>)
    requires off + |a| + |b| <= |img|
    ensures Overlay(Overlay(img, off, a), off + |a|, b) == Overlay(img, off, a + b)
  {
  }

  /** `data` has been written at `off` of file `ino`, and no other byte of any file has changed. */
  ghost predicate Wrote(f: Words, s: Store, s': Store, ino: nat, off: nat, data: seq<byte>) {
    && Shape(s) && Shape(s') && |s'.inodes| == |s.inodes| && ino < |s.inodes| && off + |data| <= MAXFILE * BSIZE
    && (forall i :: 0 <= i < |s.inodes| ==> s'.inodes[i].size == s.inodes[i].size)
    && Image(f, s', ino) == Overlay(Image(f, s, ino), off, data)
    && forall i: nat :: i < |s.inodes| && i != ino ==> Image(f, s', i) == Image(f, s, i)
  }

  lemma WrittenIsWrote(f: Words, s: Store, s': Store, ino: nat, off: nat, data: seq<byte>)
    requires Written(f, s, s', ino, off, data) && ino < |s.inodes| && off + |data| <= MAXFILE * BSIZE
    ensures Wrote(f, s, s', ino, off, data)
  {
    var r, want := Image(f, s', ino), Overlay(Image(f, s, ino), off, data);
    forall k | 0 <= k < |r| ensures r[k] == want[k] {
    }
    assert r == want;
    forall i: nat | i < |s.inodes| && i != ino ensures Image(f, s', i) == Image(f, s, i) {
      forall k | 0 <= k < MAXFILE * BSIZE ensures Image(f, s', i)[k] == Image(f, s, i)[k] {
      }
    }
  }

  lemma WroteMore(f: Words, s0: Store, s1: Store, s2: Store, ino: nat, off: nat, a: seq<byte>, b: seq<byte>)
    requires Wrote(f, s0, s1, ino, off, a) && Wrote(f, s1, s2, ino, off + |a|, b)
    ensures Wrote(f, s0, s2, ino, off, a + b)
  {
    OverlayTwice(Image(f, s0, ino), off, a, b);
  }


  // ------------------------------------------------------------------ whole operations

  /** `src` is in file `ino` at `off`, every other file is as it was, the blocks in reach are there, `log` is what
      was passed to log_write, and as many bits fewer are clear as blocks were lacking. */
  ghost predicate WroteFile(f: Words, s: Store, s': Store, ino: nat, off: nat, src: seq<byte>, log: set<nat>,
                            inodeBlock: nat)
  {
    && Shape(s) && Shape(s') && ino < |s.inodes| && ino < |s'.inodes| && off + |src| <= MAXFILE * BSIZE
    && off <= s.inodes[ino].size <= MAXFILE * BSIZE && s'.inodes[ino].size <= MAXFILE * BSIZE
    && File(f, s', ino) == WriteInto(File(f, s, ino), off, src)
    && OthersSame(f, s, s', ino)
    && Supplied(f, s, s', ino, off / BSIZE, BlockEnd(off, |src|))
    && log == WriteCost(f, s, s', ino, off, |src|, inodeBlock)
    && Clear(s'.bitmap) + NeedBlocks(f, s, ino, off / BSIZE, BlockEnd(off, |src|)) == Clear(s.bitmap)
  }

  ghost function Writing(f: Words, s: Store, s': Store, ino: nat, off: nat, src: seq<byte>, log: set<nat>,
                         inodeBlock: nat): Status
  {
    if forall k {:trigger Open(k)} :: k == 0 ==>
      WroteFile(f, s, s', ino, off, src, log, inodeBlock) then Sound else Broken
  }

  /** The end of `writei`: the size, and the inode if it changed. */
  lemma WriteEnd(f: Words, s0: Store, s1: Store, owner: map<nat, Ref>, ino: nat, off: nat, src: seq<byte>,
                 log: set<nat>, inodeBlock: nat)
    requires Healthy(f, s1, owner) == Sound && Turn(f, s0, s1, ino, src, off, |src|, log)
    requires Shape(s0) && ino < |s0.inodes| && ino < |s1.inodes| && off <= s0.inodes[ino].size <= MAXFILE * BSIZE
    ensures var size := s0.inodes[ino].size;
      var s2 := WithSize(s1, ino, NewSize(size, off, |src|));
      && s1.inodes[ino].size == size && off + |src| <= MAXFILE * BSIZE
      && Healthy(f, s2, owner) == Sound
      && Writing(f, s0, s2, ino, off, src, log + (if off + |src| > size then {inodeBlock} else {}), inodeBlock) == Sound
  {
    assert Open(0);
    LastTurn(f, s0, s1, ino, src, off, log);
    GrowSound(f, s0, s1, owner, ino, off, src);
    var size := s0.inodes[ino].size;
    var s2 := WithSize(s1, ino, NewSize(size, off, |src|));
    assert Wholesome(f, s2, owner);
    assert WroteFile(f, s0, s2, ino, off, src, log + (if off + |src| > size then {inodeBlock} else {}), inodeBlock);
  }

  ghost function Unchanged(f: Words, s: Store, s': Store): Status {
    if forall k {:trigger Open(k)} :: k == 0 ==> SameImages(f, s, s') then Sound else Broken
  }

  /** `data` is `tot` bytes of the file from `off` on. */
  ghost function Slice(f: Words, s: Store, ino: nat, off: nat, tot: nat, data: seq<byte>): Status {
    if forall k {:trigger Open(k)} :: k == 0 ==>
      Shape(s) && ino < |s.inodes| && off + tot <= MAXFILE * BSIZE && data == Image(f, s, ino)[off..off + tot]
    then Sound else Broken
  }

  /** The first `tot` bytes from `off` on have been read; no file has changed, and the blocks in reach have been
      supplied. */
  ghost predicate ReadSoFar(f: Words, s0: Store, s: Store, ino: nat, off: nat, tot: nat, data: seq<byte>, log: set<nat>)
  {
    && Unchanged(f, s0, s) == Sound && Slice(f, s0, ino, off, tot, data) == Sound
    && Paying(f, s0, s, ino, off / BSIZE, BlockEnd(off, tot), log) == Sound
  }

  lemma ReadStart(f: Words, s: Store, ino: nat, off: nat)
    requires Shape(s) && ino < |s.inodes| && off <= MAXFILE * BSIZE
    ensures ReadSoFar(f, s, s, ino, off, 0, [], {})
  {
    assert SameImages(f, s, s);
    HeadSame(s);
    assert PaidFor(f, s, s, ino, off / BSIZE, off / BSIZE, {});
  }

  /** A turn of the loop of `readi`: the slot is mapped and a piece copied out. */
  lemma ReadNext(f: Words, s0: Store, s1: Store, s2: Store, owner: map<nat, Ref>, ino: nat, off: nat, n: nat, tot: nat,
                 data: seq<byte>, addr: nat, sofar: set<nat>, log: set<nat>)
    requires tot < n && Aligned(off, tot, n) && off + n <= MAXFILE * BSIZE && Healthy(f, s2, owner) == Sound
    requires ReadSoFar(f, s0, s1, ino, off, tot, data, sofar)
    requires Mapping(f, s1, s2, ino, PieceAt(off, tot, n).bn, addr, log) == Sound
    ensures var p := PieceAt(off, tot, n);
      && addr < |s2.blocks|
      && ReadSoFar(f, s0, s2, ino, off, tot + p.len, data + s2.blocks[addr][p.lo..p.lo + p.len], sofar + (log + {addr}))
  {
    var p := PieceAt(off, tot, n);
    MappingCharges(f, s1, s2, ino, p.bn, addr, log);
    PayMore(f, s0, s1, s2, ino, off / BSIZE, p.bn, addr, sofar, log + {addr});
    StillUnchanged(f, s0, s1, s2, ino, p.bn, addr, log);
    SliceMore(f, s0, s2, owner, ino, off, n, tot, data, addr);
  }

  lemma MappingCharges(f: Words, s1: Store, s2: Store, ino: nat, bn: nat, addr: nat, log: set<nat>)
    requires Mapping(f, s1, s2, ino, bn, addr, log) == Sound
    ensures Charging(f, s1, s2, ino, bn, addr, log + {addr}) == Sound && Names1(f, s2, ino, bn, addr) == Sound
  {
    assert Open(0);
    assert Charged(f, s1, s2, ino, bn, addr, log + {addr});
  }

  ghost function Names1(f: Words, s: Store, ino: nat, bn: nat, addr: nat): Status {
    if forall k {:trigger Open(k)} :: k == 0 ==>
      Shape(s) && ino < |s.inodes| && bn < MAXFILE && addr != 0 && AddrOf(f, s, ino, bn) == addr
    then Sound else Broken
  }

  lemma StillUnchanged(f: Words, s0: Store, s1: Store, s2: Store, ino: nat, bn: nat, addr: nat, log: set<nat>)
    requires Unchanged(f, s0, s1) == Sound && Mapping(f, s1, s2, ino, bn, addr, log) == Sound
    ensures Unchanged(f, s0, s2) == Sound
  {
    assert Open(0);
    SameFilesImages(f, s1, s2);
    SameImagesTrans(f, s0, s1, s2);
  }

  lemma SliceMore(f: Words, s0: Store, s2: Store, owner: map<nat, Ref>, ino: nat, off: nat, n: nat, tot: nat,
                  data: seq<byte>, addr: nat)
    requires tot < n && Aligned(off, tot, n) && off + n <= MAXFILE * BSIZE && Healthy(f, s2, owner) == Sound
    requires Unchanged(f, s0, s2) == Sound && Slice(f, s0, ino, off, tot, data) == Sound
    requires Names1(f, s2, ino, PieceAt(off, tot, n).bn, addr) == Sound
    ensures var p := PieceAt(off, tot, n);
      && addr < |s2.blocks|
      && Slice(f, s0, ino, off, tot + p.len, data + s2.blocks[addr][p.lo..p.lo + p.len]) == Sound
  {
    var p := PieceAt(off, tot, n);
    PieceIsSlice(f, s2, owner, ino, p.bn, p.lo, p.len, addr);
    SlicesJoin(f, s0, s2, ino, off, tot, p.len, data, s2.blocks[addr][p.lo..p.lo + p.len]);
  }

  lemma PieceIsSlice(f: Words, s: Store, owner: map<nat, Ref>, ino: nat, bn: nat, lo: nat, m: nat, addr: nat)
    requires Healthy(f, s, owner) == Sound && Names1(f, s, ino, bn, addr) == Sound && lo + m <= BSIZE
    ensures addr < |s.blocks| && Slice(f, s, ino, bn * BSIZE + lo, m, s.blocks[addr][lo..lo + m]) == Sound
  {
    assert Open(0);
    PieceOfImage(f, s, owner, ino, bn, lo, m, addr);
  }

  lemma SlicesJoin(f: Words, s0: Store, s2: Store, ino: nat, off: nat, tot: nat, m: nat, data: seq<byte>,
                   piece: seq<byte>)
    requires Unchanged(f, s0, s2) == Sound
    requires Slice(f, s0, ino, off, tot, data) == Sound && Slice(f, s2, ino, off + tot, m, piece) == Sound
    ensures Slice(f, s0, ino, off, tot + m, data + piece) == Sound
  {
    assert Open(0);
    SliceJoin(Image(f, s0, ino), off, tot, tot + m);
  }

  /** `itrunc` leaves an empty file and every other file as it was. */
  lemma TruncatedFiles(f: Words, s: Store, owner: map<nat, Ref>, ino: nat)
    requires Healthy(f, s, owner) == Sound && ino < |s.inodes|
    ensures var s' := Truncated(s, owner, ino);
      && Healthy(f, s', OwnersLeft(owner, ino)) == Sound && Shape(s) && Shape(s')
      && s'.inodes[ino].size == 0 && File(f, s', ino) == [] && OthersSame(f, s, s', ino)
  {
    assert Open(0);
    TruncatedSound(f, s, owner, ino);
    var s' := Truncated(s, owner, ino);
    forall i: nat | i < |s.inodes| && i != ino ensures Image(f, s', i) == Image(f, s, i) {
      forall k | 0 <= k < MAXFILE * BSIZE ensures Image(f, s', i)[k] == Image(f, s, i)[k] {
      }
    }
    assert Wholesome(f, s', OwnersLeft(owner, ino));
  }

  // ------------------------------------------------------------------ one write after another

  /** Blocks `lo` to `hi` have been supplied since `s0`, and as many bits fewer are clear as were needed. */
  ghost predicate Furnished(f: Words, s0: Store, s: Store, ino: nat, lo: nat, hi: nat) {
    Supplied(f, s0, s, ino, lo, hi) && Clear(s.bitmap) + NeedBlocks(f, s0, ino, lo, hi) == Clear(s0.bitmap)
  }

  ghost function Furnishing(f: Words, s0: Store, s: Store, ino: nat, lo: nat, hi: nat): Status {
    if forall k {:trigger Open(k)} :: k == 0 ==> Furnished(f, s0, s, ino, lo, hi) then Sound else Broken
  }

  /** After a first range, a second that begins in it or right after it lacks what the whole lacks beyond the
      first. */
  lemma {:induction false} MissingSplits(f: Words, s0: Store, s1: Store, ino: nat, lo: nat, mid: nat, a: nat, hi: nat)
    requires Supplied(f, s0, s1, ino, lo, mid) && lo <= a <= mid <= hi <= MAXFILE
    ensures Missing(f, s0, ino, lo, hi) == Missing(f, s0, ino, lo, mid) + Missing(f, s1, ino, a, hi)
    decreases hi
  {
    if hi > mid {
      MissingSplits(f, s0, s1, ino, lo, mid, a, hi - 1);
    } else {
      NoneMissing(f, s1, ino, a, hi);
    }
  }

  lemma {:induction false} NoneMissing(f: Words, s: Store, ino: nat, lo: nat, hi: nat)
    requires Shape(s) && ino < |s.inodes| && hi <= MAXFILE
    requires forall t: nat :: lo <= t < hi ==> AddrOf(f, s, ino, t) != 0
    ensures Missing(f, s, ino, lo, hi) == 0
    decreases hi
  {
    if lo < hi {
      NoneMissing(f, s, ino, lo, hi - 1);
    }
  }

  lemma NeedSplits(f: Words, s0: Store, s1: Store, ino: nat, lo: nat, mid: nat, a: nat, hi: nat)
    requires Supplied(f, s0, s1, ino, lo, mid) && lo <= a <= mid <= hi <= MAXFILE
    ensures NeedBlocks(f, s0, ino, lo, hi) == NeedBlocks(f, s0, ino, lo, mid) + NeedBlocks(f, s1, ino, a, hi)
  {
    MissingSplits(f, s0, s1, ino, lo, mid, a, hi);
  }

  lemma FurnishMore(f: Words, s0: Store, s1: Store, s2: Store, ino: nat, lo: nat, mid: nat, a: nat, hi: nat)
    requires Furnishing(f, s0, s1, ino, lo, mid) == Sound && Furnishing(f, s1, s2, ino, a, hi) == Sound
    requires lo <= a <= mid <= hi
    ensures Furnishing(f, s0, s2, ino, lo, hi) == Sound
  {
    assert Open(0);
    NeedSplits(f, s0, s1, ino, lo, mid, a, hi);
    assert Supplied(f, s0, s2, ino, lo, hi);
  }

  lemma FurnishShort(f: Words, s0: Store, s1: Store, ino: nat, lo: nat, mid: nat, a: nat, hi: nat, end: nat)
    requires Furnishing(f, s0, s1, ino, lo, mid) == Sound && lo <= a <= mid <= hi <= end <= MAXFILE && lo < hi
    requires Shape(s1) && ino < |s1.inodes| && Clear(s1.bitmap) < NeedBlocks(f, s1, ino, a, hi)
    ensures Shape(s0) && ino < |s0.inodes| && Clear(s0.bitmap) < NeedBlocks(f, s0, ino, lo, end)
  {
    assert Open(0);
    NeedSplits(f, s0, s1, ino, lo, mid, a, hi);
    NeedGrows(f, s0, ino, lo, hi, end);
  }

  lemma {:induction false} MissingAtMost(f: Words, s: Store, ino: nat, lo: nat, hi: nat)
    requires Shape(s) && ino < |s.inodes| && lo <= hi <= MAXFILE
    ensures Missing(f, s, ino, lo, hi) <= hi - lo
    decreases hi
  {
    if lo < hi {
      MissingAtMost(f, s, ino, lo, hi - 1);
    }
  }

  lemma NeedAtMost(f: Words, s: Store, ino: nat, lo: nat, hi: nat)
    requires Shape(s) && ino < |s.inodes| && lo <= hi <= MAXFILE
    ensures NeedBlocks(f, s, ino, lo, hi) <= hi - lo + 1
  {
    MissingAtMost(f, s, ino, lo, hi);
  }

  lemma {:induction false} AllClear(bits: seq<bool>)
    requires forall i :: 0 <= i < |bits| ==> !bits[i]
    ensures Clear(bits) == |bits|
  {
    if bits != [] {
      AllClear(bits[..|bits| - 1]);
      assert bits == bits[..|bits| - 1] + [bits[|bits| - 1]];
    }
  }

  /** A partition without files. */
  lemma EmptyIsHealthy(f: Words, s: Store)
    requires WordsWork(f) && Shape(s) && (forall i :: 0 <= i < |s.bitmap| ==> !s.bitmap[i])
    requires forall i :: 0 <= i < |s.inodes| ==> s.inodes[i] == EmptyInode
    ensures Healthy(f, s, map[]) == Sound
    ensures forall i: nat, t: nat :: i < |s.inodes| && t < SLOTS ==> AddrOf(f, s, i, t) == 0
  {
    forall i: nat, t: nat | i < |s.inodes| && t < SLOTS ensures AddrOf(f, s, i, t) == 0 {
    }
    assert Wholesome(f, s, map[]);
  }
}
