/** fs.c as code: the block allocator, the block map, and reading, writing and truncating inodes of
    one partition, all updated in place. Each method also returns, as `log`, the blocks it has passed to log_write, so
    that what an operation costs the log can be stated. Panics are those of balloc and bmap; log_write has its own. */
module Fs {
  import opened Basics
  import opened Blocks
  import opened Dinodes
  import opened FsHoles
  import opened FsModel
  import opened FsSteps
  import opened Sealed
  import Bitmap

  datatype Io =
    | Done(n: nat)
    | Refused          // the call returns -1
    | Panicked         // "balloc: out of blocks"

  class Partition {
    const words: Words
    const first: nat           // freeblock_offset: one past the bitmap block
    const inodestart: nat
    var bitmap: seq<bool>      // the bits of the one bitmap block, up to sb.size
    var blocks: seq<Block>
    var inodes: seq<Inode>
    ghost var owner: map<nat, Ref>

    ghost function Snapshot(): Store
      reads this
    {
      Store(first, bitmap, blocks, inodes)
    }

    /** Every file fits, every used block is named by exactly one slot, every named block is used, and the inodes lie
        before the bitmap block. */
    ghost predicate Valid()
      reads this
    {
      && Shape(Snapshot()) && Healthy(words, Snapshot(), owner) == Sound && |bitmap| <= 8 * BSIZE
      && Room(Snapshot(), inodestart)
    }

    /** A partition as it is found on the disk. */
    constructor (words: Words, inodestart: nat, s: Store, ghost owner: map<nat, Ref>)
      requires Shape(s) && Healthy(words, s, owner) == Sound && |s.bitmap| <= 8 * BSIZE && Room(s, inodestart)
      ensures Valid() && Snapshot() == s && this.words == words && this.inodestart == inodestart
    {
      this.words, first, this.inodestart := words, s.first, inodestart;
      bitmap, blocks, inodes, this.owner := s.bitmap, s.blocks, s.inodes, owner;
    }

    /** `IBLOCK`: the block that holds inode `ino`. */
    function InodeBlock(ino: nat): nat {
      ino / IPB + inodestart
    }

    /** `iupdate`: the inode is copied into its block, between its neighbours. */
    method Iupdate(ino: nat)
      requires Valid() && ino < |inodes|
      modifies this`blocks
      ensures Valid() && Snapshot() == Updated(words, old(Snapshot()), inodestart, ino)
      ensures Aside(words, old(Snapshot()), Snapshot()) == Sound
      ensures OneWritten(words, old(Snapshot()), Snapshot(), inodestart, ino, true)
    {
      ghost var s := Snapshot();
      UpdateSound(words, s, owner, inodestart, ino);
      UpdateWrites(words, s, owner, inodestart, ino);
      var x := InodeBlock(ino);
      blocks := blocks[x := PutDinode(words, blocks[x], ino % IPB, inodes[ino])];
    }

    // ---------------------------------------------------------------- blocks

    method Balloc() returns (ok: bool, b: nat, log: set<nat>)
      requires 0 < first && first + |bitmap| <= |blocks|
      modifies this`bitmap, this`blocks
      ensures ok <==> !Bitmap.Full(old(bitmap))
      ensures ok ==>
        && first <= b < first + |old(bitmap)|
        && b - first == FirstClear(old(bitmap)) && !old(bitmap)[b - first]
        && Snapshot() == Allocated(old(Snapshot()), b - first)
        && log == {first - 1, b}
      ensures !ok ==> Snapshot() == old(Snapshot())
    {
      var bi := 0;
      while bi < |bitmap|
        invariant 0 <= bi <= |bitmap|
        invariant forall i :: 0 <= i < bi ==> bitmap[i]
      {
        if !bitmap[bi] {
          FirstClearIs(bitmap, bi);
          bitmap := bitmap[bi := true];
          blocks := blocks[first + bi := ZeroBlock()];
          return true, first + bi, {first - 1, first + bi};
        }
        bi := bi + 1;
      }
      return false, 0, {};
    }

    /** `bfree`; false stands for its panic, "freeing free block". */
    method Bfree(b: nat) returns (ok: bool, ghost log: set<nat>)
      requires first > 0 && first <= b < first + |bitmap|
      modifies this`bitmap
      ensures ok == old(bitmap)[b - first]
      ensures ok ==> bitmap == old(bitmap)[b - first := false] && log == {first - 1}
      ensures !ok ==> bitmap == old(bitmap)
    {
      if !bitmap[b - first] {
        return false, {};
      }
      bitmap := bitmap[b - first := false];
      return true, {first - 1};
    }

    // ---------------------------------------------------------------- the block map

    /** `if(ip->addrs[x] == 0) ip->addrs[x] = balloc()`. */
    method NeedAddr(ino: nat, x: nat) returns (ok: bool, b: nat, log: set<nat>)
      requires Valid() && ino < |inodes| && x <= NDIRECT
      modifies this`bitmap, this`blocks, this`inodes, this`owner
      ensures Valid() && |inodes| == |old(inodes)|
      ensures ok <==> old(inodes[ino].addrs[x]) != 0 || !Bitmap.Full(old(bitmap))
      ensures ok ==> b != 0 && inodes[ino].addrs[x] == b
      ensures ok && old(inodes[ino].addrs[x]) != 0 ==> Snapshot() == old(Snapshot()) && owner == old(owner) && log == {}
      ensures ok && old(inodes[ino].addrs[x]) == 0 ==>
        Naming(words, old(Snapshot()), Snapshot(), ino, SlotOfAddr(x), b) == Sound && log == {first - 1, b}
      ensures ok && old(inodes[ino].addrs[x]) == 0 ==>
        FirstClear(old(bitmap)) < |old(bitmap)| && Snapshot() == Filled(old(Snapshot()), ino, x)
      ensures !ok ==> Snapshot() == old(Snapshot())
    {
      b := inodes[ino].addrs[x];
      if b != 0 {
        return true, b, {};
      }
      ok, b, log := Balloc();
      if ok {
        TakeAddr(words, old(Snapshot()), old(owner), b - first, ino, x);
        inodes := inodes[ino := inodes[ino].(addrs := inodes[ino].addrs[x := b])];
        owner := owner[b := Slot(ino, SlotOfAddr(x))];
        assert Snapshot() == WithAddr(Allocated(old(Snapshot()), b - first), ino, x, b);
      }
    }

    /** `if(a[j] == 0) { a[j] = balloc(); log_write(bp); }` in the indirect block `ind`. `s0` is the partition before
        that was seen to, `cost` what that passed to log_write. */
    method NeedEntry(ino: nat, ind: nat, bn: nat, ghost s0: Store, cost: set<nat>)
      returns (ok: bool, b: nat, log: set<nat>)
      requires Valid() && ino < |inodes| && NDIRECT <= bn < MAXFILE && Shape(s0) && ino < |s0.inodes|
      requires s0.first == first
      requires Indirect(words, s0, Snapshot(), ino, ind) == Sound && inodes[ino].addrs[NDIRECT] == ind && ind != 0
      requires if Snapshot() == s0 then cost == {} else cost == {first - 1, ind}
      modifies this`bitmap, this`blocks, this`owner
      ensures Valid()
      ensures ok ==> Mapping(words, s0, Snapshot(), ino, bn, b, log) == Sound && (log == {} ==> Snapshot() == s0)
      ensures !ok ==> Clear(s0.bitmap) < SlotNeed(words, s0, ino, bn)
    {
      ghost var s1, o1 := Snapshot(), owner;
      Inside(words, s1, owner, ino);
      var j := bn - NDIRECT;
      b := words.get(blocks[ind], j);
      if b != 0 {
        EntryThere(words, s0, s1, owner, ino, bn, ind, b);
        return true, b, {};
      }
      ok, b, log := Balloc();
      if !ok {
        FullIsClear(s1.bitmap);
        EntryShort(words, s0, s1, owner, ino, bn, ind, 0);
        return;
      }
      TakeEntry(words, s1, o1, b - first, ino, j);
      blocks := blocks[ind := words.put(blocks[ind], j, b)];
      owner := owner[b := Slot(ino, bn)];
      log := cost + log + {ind};
      assert Snapshot() == WithEntry(words, Allocated(s1, b - first), ino, j, b);
      EntrySupplied(words, s0, s1, Snapshot(), o1, ino, bn, ind, b);
      assert log == {first - 1, b, ind};
    }

    /** `bmap`; false stands for its two panics, "bmap: out of range" and that of balloc. */
    method Bmap(ino: nat, bn: nat) returns (ok: bool, addr: nat, log: set<nat>)
      requires Valid() && ino < |inodes|
      modifies this`bitmap, this`blocks, this`inodes, this`owner
      ensures Valid()
      ensures ok <==> bn < MAXFILE && SlotNeed(words, old(Snapshot()), ino, bn) <= Clear(old(bitmap))
      ensures ok ==> Mapping(words, old(Snapshot()), Snapshot(), ino, bn, addr, log) == Sound
      ensures ok ==> Stepping(words, old(Snapshot()), Snapshot(), ino, bn) == Sound
    {
      if bn < NDIRECT {
        ok, addr, log := BmapDirect(ino, bn);
      } else if bn - NDIRECT < NINDIRECT {
        ok, addr, log := BmapIndirect(ino, bn);
      } else {
        return false, 0, {};
      }
      if ok {
        Enough(words, old(Snapshot()), Snapshot(), ino, bn, addr, log);
      }
    }

    /** The first case of `bmap`. */
    method BmapDirect(ino: nat, bn: nat) returns (ok: bool, addr: nat, log: set<nat>)
      requires Valid() && ino < |inodes| && bn < NDIRECT
      modifies this`bitmap, this`blocks, this`inodes, this`owner
      ensures Valid()
      ensures ok ==> Mapping(words, old(Snapshot()), Snapshot(), ino, bn, addr, log) == Sound
      ensures ok ==> Stepping(words, old(Snapshot()), Snapshot(), ino, bn) == Sound
      ensures !ok ==> Clear(old(bitmap)) < SlotNeed(words, old(Snapshot()), ino, bn)
    {
      ghost var s0, o0 := Snapshot(), owner;
      ok, addr, log := NeedAddr(ino, bn);
      if !ok {
        FullIsClear(s0.bitmap);
        DirectShort(words, s0, ino, bn, bn, 0);
      } else if s0.inodes[ino].addrs[bn] != 0 {
        MappedAlready(words, s0, o0, ino, bn);
        StepStays(words, s0, ino, bn);
      } else {
        NamedMaps(words, s0, Snapshot(), ino, bn, addr);
        StepFills(words, s0, ino, bn);
      }
    }

    /** The second case of `bmap`. */
    method BmapIndirect(ino: nat, bn: nat) returns (ok: bool, addr: nat, log: set<nat>)
      requires Valid() && ino < |inodes| && NDIRECT <= bn < MAXFILE
      modifies this`bitmap, this`blocks, this`inodes, this`owner
      ensures Valid()
      ensures ok ==> Mapping(words, old(Snapshot()), Snapshot(), ino, bn, addr, log) == Sound
      ensures ok ==> Stepping(words, old(Snapshot()), Snapshot(), ino, bn) == Sound
      ensures !ok ==> Clear(old(bitmap)) < SlotNeed(words, old(Snapshot()), ino, bn)
    {
      ghost var s0, o0 := Snapshot(), owner;
      var ind;
      ok, ind, log := NeedAddr(ino, NDIRECT);
      if !ok {
        FullIsClear(s0.bitmap);
        DirectShort(words, s0, ino, NDIRECT, bn, 0);
        return false, 0, {};
      }
      if s0.inodes[ino].addrs[NDIRECT] != 0 {
        IndirectThere(words, s0, o0, ino);
      } else {
        IndirectSupplied(words, s0, Snapshot(), ino, ind);
      }
      ok, addr, log := NeedEntry(ino, ind, bn, s0, log);
      if ok {
        StepEntry(words, s0, Snapshot(), ino, bn, addr, log);
      }
    }

    // ---------------------------------------------------------------- writing

    /** `piece` written into block `bn` of the file, from byte `lo` of the block on. */
    method PutPiece(ino: nat, bn: nat, lo: nat, piece: seq<byte>) returns (ok: bool, addr: nat, ghost log: set<nat>)
      requires Valid() && ino < |inodes| && bn < MAXFILE && lo + |piece| <= BSIZE
      modifies this`bitmap, this`blocks, this`inodes, this`owner
      ensures Valid()
      ensures ok ==> Overlaid(words, old(Snapshot()), Snapshot(), ino, bn * BSIZE + lo, piece) == Sound
      ensures ok ==> Charging(words, old(Snapshot()), Snapshot(), ino, bn, addr, log) == Sound
      ensures !ok ==> Clear(old(bitmap)) < SlotNeed(words, old(Snapshot()), ino, bn)
    {
      ghost var s0 := Snapshot();
      ok, addr, log := Bmap(ino, bn);
      if ok {
        ghost var s1 := Snapshot();
        PieceSound(words, s0, s1, owner, ino, bn, lo, addr, piece, log);
        blocks := blocks[addr := Splice(blocks[addr], lo, piece)];
        log := log + {addr};
        assert Snapshot() == WithBytes(s1, addr, lo, piece);
      }
    }

    /** The body of the loop in `writei`, at `tot` bytes. */
    method WriteTurn(ino: nat, src: seq<byte>, off: nat, tot: nat, ghost s0: Store, ghost sofar: set<nat>)
      returns (ok: bool, tot': nat, ghost log: set<nat>)
      requires Valid() && ino < |inodes| && off + |src| <= MAXFILE * BSIZE && tot < |src| && Shape(s0)
      requires ino < |s0.inodes|
      requires Turn(words, s0, Snapshot(), ino, src, off, tot, sofar)
      modifies this`bitmap, this`blocks, this`inodes, this`owner
      ensures Valid()
      ensures ok ==> tot < tot' <= |src| && ino < |inodes| && Turn(words, s0, Snapshot(), ino, src, off, tot', log)
      ensures !ok ==> Clear(s0.bitmap) < NeedBlocks(words, s0, ino, off / BSIZE, BlockEnd(off, |src|))
    {
      var p := PieceAt(off, tot, |src|);
      tot' := tot + p.len;
      ghost var s1, more := Snapshot(), {};
      var addr;
      ok, addr, more := PutPiece(ino, p.bn, p.lo, src[tot..tot']);
      log := sofar + more;
      if ok {
        NextTurn(words, s0, s1, Snapshot(), ino, src, off, tot, tot', addr, sofar, more);
        PaidInode(words, s0, Snapshot(), ino, off / BSIZE, BlockEnd(off, tot'), log);
      } else {
        TooFew(words, s0, s1, ino, off, tot, |src|, sofar, 0);
      }
    }

    /** The loop of `writei`. */
    method WriteBlocks(ino: nat, src: seq<byte>, off: nat) returns (ok: bool, ghost log: set<nat>)
      requires Valid() && ino < |inodes| && off + |src| <= MAXFILE * BSIZE
      modifies this`bitmap, this`blocks, this`inodes, this`owner
      ensures Valid()
      ensures ok ==> Turn(words, old(Snapshot()), Snapshot(), ino, src, off, |src|, log) && ino < |inodes|
      ensures !ok ==> Clear(old(bitmap)) < NeedBlocks(words, old(Snapshot()), ino, off / BSIZE, BlockEnd(off, |src|))
    {
      ghost var s0 := Snapshot();
      var tot := 0;
      ok, log := true, {};
      FirstTurn(words, s0, ino, src, off);
      while tot < |src|
        invariant Valid() && ino < |inodes| && 0 <= tot <= |src| && ok
        invariant Turn(words, s0, Snapshot(), ino, src, off, tot, log)
      {
        ok, tot, log := WriteTurn(ino, src, off, tot, s0, log);
        if !ok {
          return;
        }
      }
    }

    /** `if(n > 0 && off > ip->size) { ip->size = off; iupdate(ip); }`; `s0` is the partition before the write. */
    method SetSize(ino: nat, off: nat, n: nat, ghost s0: Store) returns (ghost log: set<nat>)
      requires Valid() && ino < |inodes| && off <= inodes[ino].size
      requires var s2 := WithSize(Snapshot(), ino, NewSize(inodes[ino].size, off, n));
        && Healthy(words, s2, owner) == Sound && Room(s2, inodestart)
        && Saving(words, s0, s2, inodestart, ino, false) == Sound
      modifies this`inodes, this`blocks
      ensures Valid() && |inodes| == |old(inodes)|
      ensures var s2 := WithSize(old(Snapshot()), ino, NewSize(old(inodes[ino].size), off, n));
        Aside(words, s2, Snapshot()) == Sound
      ensures Saving(words, s0, Snapshot(), inodestart, ino, off + n > old(inodes[ino].size)) == Sound
      ensures log == if off + n > old(inodes[ino].size) then {InodeBlock(ino)} else {}
    {
      log := {};
      ghost var s1 := Snapshot();
      SizeShape(s1, ino, NewSize(inodes[ino].size, off, n));
      if n > 0 && off + n > inodes[ino].size {
        inodes := inodes[ino := inodes[ino].(size := off + n)];
        ghost var s2 := Snapshot();
        HealthyStorable(words, s2, owner, ino);
        UpdateSaves(words, s0, s2, inodestart, ino);
        Iupdate(ino);
        log := {InodeBlock(ino)};
      } else {
        assert inodes == inodes[ino := inodes[ino].(size := inodes[ino].size)];
        AsideSame(words, s1);
      }
    }

    /** `writei` past its checks. */
    method WriteAccepted(ino: nat, src: seq<byte>, off: nat) returns (r: Io, ghost log: set<nat>)
      requires Valid() && ino < |inodes| && off <= inodes[ino].size && off + |src| <= MAXFILE * BSIZE
      modifies this`bitmap, this`blocks, this`inodes, this`owner
      ensures Valid() && !r.Refused?
      ensures r.Panicked? ==>
        Clear(old(bitmap)) < NeedBlocks(words, old(Snapshot()), ino, off / BSIZE, BlockEnd(off, |src|))
      ensures r.Done? ==>
        r.n == |src| && Writing(words, old(Snapshot()), Snapshot(), ino, off, src, log, InodeBlock(ino)) == Sound
      ensures r.Done? ==>
        Saving(words, old(Snapshot()), Snapshot(), inodestart, ino, off + |src| > old(inodes[ino].size)) == Sound
    {
      ghost var s0 := Snapshot();
      Inside(words, s0, owner, ino);
      var ok;
      ok, log := WriteBlocks(ino, src, off);
      if !ok {
        return Panicked, {};
      }
      ghost var s1 := Snapshot();
      WriteEnd(words, s0, s1, owner, ino, off, src, log, InodeBlock(ino));
      ghost var size := NewSize(s0.inodes[ino].size, off, |src|);
      TurnSaves(words, s0, s1, inodestart, ino, src, off, |src|, log, size);
      ghost var more := SetSize(ino, off, |src|, s0);
      log := log + more;
      AsideWriting(words, s0, WithSize(s1, ino, size), Snapshot(), ino, off, src, log, InodeBlock(ino));
      r := Done(|src|);
    }

    /** `writei` on a regular file: the file becomes its old prefix, then `src`, then what `src` did
        not reach of its old suffix; every other file is as before. It panics exactly when the blocks that its range
        lacks are more than are free. The inode is copied to its block, and no other, if the file has grown; so the
        disk still has every inode as it is exactly if it has grown or the inode names every block it needs. */
    method WriteI(ino: nat, src: seq<byte>, off: nat) returns (r: Io, ghost log: set<nat>)
      requires Valid() && ino < |inodes| && off < 0x1_0000_0000 && |src| < 0x1_0000_0000
      modifies this`bitmap, this`blocks, this`inodes, this`owner
      ensures Valid() && (!r.Panicked? ==> |inodes| == |old(inodes)|)
      ensures r.Refused? <==> off > old(inodes[ino].size) || off + |src| > MAXFILE * BSIZE
      ensures r.Refused? ==> Snapshot() == old(Snapshot()) && log == {}
      ensures !r.Refused? ==>
        (r.Panicked? <==>
          Clear(old(bitmap)) < NeedBlocks(words, old(Snapshot()), ino, off / BSIZE, BlockEnd(off, |src|)))
      ensures r.Done? ==>
        r.n == |src| && WroteFile(words, old(Snapshot()), Snapshot(), ino, off, src, log, InodeBlock(ino))
      ensures r.Done? && Whole(words, old(Snapshot())) == Sound ==> Whole(words, Snapshot()) == Sound
      ensures r.Done? ==>
        OneWritten(words, old(Snapshot()), Snapshot(), inodestart, ino, off + |src| > old(inodes[ino].size))
      ensures r.Done? && Synced(words, old(Snapshot()), inodestart) == Sound ==>
        (Synced(words, Snapshot(), inodestart) == Sound <==>
          off + |src| > old(inodes[ino].size)
          || !Lacks(words, old(Snapshot()), ino, off / BSIZE, BlockEnd(off, |src|)))
    {
      ghost var s0 := Snapshot();
      if off > inodes[ino].size || (off + |src|) % 0x1_0000_0000 < off {
        Inside(words, s0, owner, ino);
        return Refused, {};
      }
      if off + |src| > MAXFILE * BSIZE {
        return Refused, {};
      }
      r, log := WriteAccepted(ino, src, off);
      if r.Done? {
        WritingIs(words, s0, Snapshot(), ino, off, src, log, InodeBlock(ino));
        if Whole(words, s0) == Sound {
          WriteKeepsWhole(words, s0, Snapshot(), ino, off, src, log, InodeBlock(ino));
        }
        SavingIs(words, s0, Snapshot(), inodestart, ino, off + |src| > s0.inodes[ino].size);
        if Synced(words, s0, inodestart) == Sound {
          WriteSynced(words, s0, Snapshot(), inodestart, ino, off, src, log, InodeBlock(ino));
        }
      }
    }

    // ---------------------------------------------------------------- reading

    /** The body of the loop in `readi`, at `tot` bytes; `cost` is what a write would have passed to log_write. */
    method ReadTurn(ino: nat, off: nat, n: nat, tot: nat, sofar: seq<byte>, passed: set<nat>, ghost s0: Store,
                    ghost cost: set<nat>)
      returns (ok: bool, tot': nat, data: seq<byte>, log: set<nat>, ghost cost': set<nat>)
      requires Valid() && ino < |inodes| && off + n <= MAXFILE * BSIZE && Shape(s0) && ino < |s0.inodes|
      requires tot < n && Aligned(off, tot, n) && ReadSoFar(words, s0, Snapshot(), ino, off, tot, sofar, cost)
      requires Taking(words, s0, Snapshot(), ino, off / BSIZE, BlockEnd(off, tot), passed) == Sound
      modifies this`bitmap, this`blocks, this`inodes, this`owner
      ensures Valid()
      ensures ok ==> tot < tot' <= n && Aligned(off, tot', n) && ino < |inodes|
      ensures ok ==> ReadSoFar(words, s0, Snapshot(), ino, off, tot', data, cost')
      ensures ok ==> Taking(words, s0, Snapshot(), ino, off / BSIZE, BlockEnd(off, tot'), log) == Sound
      ensures !ok ==> Clear(s0.bitmap) < NeedBlocks(words, s0, ino, off / BSIZE, BlockEnd(off, n))
    {
      var p := PieceAt(off, tot, n);
      ghost var s1 := Snapshot();
      var addr;
      ok, addr, log := Bmap(ino, p.bn);
      tot', data, cost' := tot + p.len, sofar, {};
      if ok {
        ReadNext(words, s0, s1, Snapshot(), owner, ino, off, n, tot, sofar, addr, cost, log);
        TakeMore(words, s0, s1, Snapshot(), ino, off / BSIZE, p.bn, addr, cost, passed, log);
        data := data + blocks[addr][p.lo..p.lo + p.len];
        cost' := cost + (log + {addr});
        log := passed + log;
        PaidInode(words, s0, Snapshot(), ino, off / BSIZE, BlockEnd(off, tot'), cost');
      } else {
        TooFew(words, s0, s1, ino, off, tot, n, cost, 0);
      }
    }

    /** The loop of `readi`. */
    method ReadBlocks(ino: nat, off: nat, n: nat)
      returns (ok: bool, data: seq<byte>, log: set<nat>, ghost cost: set<nat>)
      requires Valid() && ino < |inodes| && off + n <= MAXFILE * BSIZE
      modifies this`bitmap, this`blocks, this`inodes, this`owner
      ensures Valid()
      ensures ok ==> ReadSoFar(words, old(Snapshot()), Snapshot(), ino, off, n, data, cost) && ino < |inodes|
      ensures ok ==> Taking(words, old(Snapshot()), Snapshot(), ino, off / BSIZE, BlockEnd(off, n), log) == Sound
      ensures !ok ==> Clear(old(bitmap)) < NeedBlocks(words, old(Snapshot()), ino, off / BSIZE, BlockEnd(off, n))
    {
      ghost var s0 := Snapshot();
      var tot := 0;
      ok, data, log, cost := true, [], {}, {};
      ReadStart(words, s0, ino, off);
      TakeStart(words, s0, ino, off / BSIZE);
      while tot < n
        invariant Valid() && ino < |inodes| && 0 <= tot <= n && Aligned(off, tot, n) && ok
        invariant ReadSoFar(words, s0, Snapshot(), ino, off, tot, data, cost)
        invariant Taking(words, s0, Snapshot(), ino, off / BSIZE, BlockEnd(off, tot), log) == Sound
      {
        ok, tot, data, log, cost := ReadTurn(ino, off, n, tot, data, log, s0, cost);
        if !ok {
          return;
        }
      }
    }

    /** `readi` on a regular file: exactly the slice of the file that is there; no file changes, even
        where a block never written has to be supplied. It panics exactly when such blocks are more than are free. It
        passes nothing to log_write, and changes nothing, exactly when every slot in the slice names a block. */
    method ReadI(ino: nat, off: nat, n: nat) returns (r: Io, data: seq<byte>, log: set<nat>)
      requires Valid() && ino < |inodes| && off < 0x1_0000_0000 && n < 0x1_0000_0000
      modifies this`bitmap, this`blocks, this`inodes, this`owner
      ensures Valid()
      ensures r.Refused? <==> off > old(inodes[ino].size) || off + n >= 0x1_0000_0000
      ensures r.Refused? ==> Snapshot() == old(Snapshot()) && log == {}
      ensures !r.Refused? ==> old(inodes[ino].size) <= MAXFILE * BSIZE
      ensures !r.Refused? ==>
        var m := Min(n, old(inodes[ino].size) - off);
        r.Panicked? <==> Clear(old(bitmap)) < NeedBlocks(words, old(Snapshot()), ino, off / BSIZE, BlockEnd(off, m))
      ensures r.Done? ==> r.n == |data| == Min(n, old(inodes[ino].size) - off)
      ensures r.Done? ==> data == old(File(words, Snapshot(), ino))[off..off + r.n]
      ensures r.Done? ==> SameImages(words, old(Snapshot()), Snapshot())
      ensures r.Done? ==> Took(words, old(Snapshot()), Snapshot(), ino, off / BSIZE, BlockEnd(off, r.n), log)
      ensures r.Done? ==>
        (log == {} <==> NeedBlocks(words, old(Snapshot()), ino, off / BSIZE, BlockEnd(off, r.n)) == 0)
      ensures log == {} ==> r.Panicked? || Snapshot() == old(Snapshot())
      ensures r.Done? ==> Furnishing(words, old(Snapshot()), Snapshot(), ino, off / BSIZE, BlockEnd(off, r.n)) == Sound
      ensures r.Done? ==> Saving(words, old(Snapshot()), Snapshot(), inodestart, ino, false) == Sound
      ensures r.Done? && Synced(words, old(Snapshot()), inodestart) == Sound ==>
        (Synced(words, Snapshot(), inodestart) == Sound <==>
          !Lacks(words, old(Snapshot()), ino, off / BSIZE, BlockEnd(off, r.n)))
    {
      ghost var s0, o0 := Snapshot(), owner;
      Inside(words, s0, owner, ino);
      if off > inodes[ino].size || (off + n) % 0x1_0000_0000 < off {
        return Refused, [], {};
      }
      var m := if off + n > inodes[ino].size then inodes[ino].size - off else n;
      var ok;
      ghost var cost;
      ok, data, log, cost := ReadBlocks(ino, off, m);
      if !ok {
        return Panicked, [], {};
      }
      ReadDone(words, s0, Snapshot(), ino, off, m, data, cost);
      TakeDone(words, s0, Snapshot(), o0, ino, off, m, log);
      PaidFurnishes(words, s0, Snapshot(), ino, off / BSIZE, BlockEnd(off, m), cost);
      PaidHead(words, s0, Snapshot(), ino, off / BSIZE, BlockEnd(off, m), cost);
      HeadSaves(words, s0, Snapshot(), inodestart, ino);
      if Synced(words, s0, inodestart) == Sound {
        ReadSynced(words, s0, Snapshot(), inodestart, ino, off / BSIZE, BlockEnd(off, m), cost);
      }
      r := Done(m);
    }

    // ---------------------------------------------------------------- truncation

    /** `if(b) bfree(b)`, where `b` is what slot `t` names and the slots before it have been freed: the
        bit is still set, so the panic is out of reach. */
    method FreeSlot(b: nat, ghost s0: Store, ghost ino: nat, ghost t: nat)
      requires WF(words, s0, owner) && s0.first == first && ino < |s0.inodes| && t < SLOTS
      requires b == AddrOf(words, s0, ino, t) && bitmap == Cut(s0, owner, ino, t)
      modifies this`bitmap
      ensures bitmap == Cut(s0, owner, ino, t + 1)
    {
      CutOne(words, s0, owner, ino, t, b);
      if b != 0 {
        var ok;
        ghost var log;
        ok, log := Bfree(b);
        assert ok;
      }
    }

    /** The first loop of `itrunc`. */
    method FreeDirect(ino: nat, ghost s0: Store)
      requires WF(words, s0, owner) && s0 == Snapshot() && ino < |s0.inodes|
      modifies this`bitmap, this`inodes
      ensures bitmap == Cut(s0, owner, ino, NDIRECT)
      ensures inodes == s0.inodes[ino := Cleared(s0.inodes[ino], NDIRECT)]
    {
      CutNothing(s0, owner, ino, |bitmap|);
      var i := 0;
      while i < NDIRECT
        invariant 0 <= i <= NDIRECT
        invariant bitmap == Cut(s0, owner, ino, i)
        invariant inodes == s0.inodes[ino := Cleared(s0.inodes[ino], i)]
      {
        FreeSlot(inodes[ino].addrs[i], s0, ino, i);
        if inodes[ino].addrs[i] != 0 {
          inodes := inodes[ino := inodes[ino].(addrs := inodes[ino].addrs[i := 0])];
        } else {
          assert inodes[ino].addrs[i := 0] == inodes[ino].addrs;
        }
        i := i + 1;
      }
    }

    /** The second loop of `itrunc`. */
    method FreeEntries(ino: nat, ind: nat, ghost s0: Store)
      requires WF(words, s0, owner) && s0.first == first && s0.blocks == blocks && ino < |s0.inodes|
      requires ind == s0.inodes[ino].addrs[NDIRECT] != 0
      requires bitmap == Cut(s0, owner, ino, NDIRECT)
      modifies this`bitmap
      ensures bitmap == Cut(s0, owner, ino, IND)
    {
      assert AddrOf(words, s0, ino, IND) == ind;
      var j := 0;
      while j < NINDIRECT
        invariant 0 <= j <= NINDIRECT
        invariant bitmap == Cut(s0, owner, ino, NDIRECT + j)
      {
        FreeSlot(words.get(blocks[ind], j), s0, ino, NDIRECT + j);
        j := j + 1;
      }
    }

    /** `itrunc`: the file is empty, exactly the blocks it owned are free again, and every other file is as it was. It
        needs no error result: "freeing free block" is never reached. */
    method Itrunc(ino: nat)
      requires Valid() && ino < |inodes|
      modifies this`bitmap, this`blocks, this`inodes, this`owner
      ensures Valid() && owner == OwnersLeft(old(owner), ino)
      ensures Snapshot() == Updated(words, Truncated(old(Snapshot()), old(owner), ino), inodestart, ino)
      ensures inodes[ino].size == 0 && File(words, Snapshot(), ino) == []
      ensures OthersSame(words, old(Snapshot()), Snapshot(), ino)
      ensures Whole(words, old(Snapshot())) == Sound ==> Whole(words, Snapshot()) == Sound
      ensures OneWritten(words, old(Snapshot()), Snapshot(), inodestart, ino, true)
      ensures Synced(words, old(Snapshot()), inodestart) == Sound ==> Synced(words, Snapshot(), inodestart) == Sound
    {
      ghost var s0, o0 := Snapshot(), owner;
      FreeAllSlots(ino);
      ghost var s1 := Snapshot();
      TruncatedFiles(words, s0, owner, ino);
      if Whole(words, s0) == Sound {
        TruncateKeepsWhole(words, s0, owner, ino);
      }
      owner := OwnersLeft(owner, ino);
      Iupdate(ino);
      TruncateEnd(words, s0, s1, Snapshot(), o0, inodestart, ino);
    }

    method FreeAllSlots(ino: nat)
      requires Valid() && ino < |inodes|
      modifies this`bitmap, this`inodes
      ensures Snapshot() == Truncated(old(Snapshot()), owner, ino)
    {
      ghost var s0 := Snapshot();
      assert Open(0);
      FreeDirect(ino, s0);
      var ind := inodes[ino].addrs[NDIRECT];
      if ind != 0 {
        FreeEntries(ino, ind, s0);
        FreeSlot(ind, s0, ino, IND);
      } else {
        CutRest(words, s0, owner, ino, SLOTS);
      }
      inodes := inodes[ino := inodes[ino].(addrs := inodes[ino].addrs[NDIRECT := 0], size := 0)];
      assert inodes[ino].addrs == EmptyInode.addrs;
    }
  }

  lemma Enough(f: Words, s0: Store, s: Store, ino: nat, bn: nat, addr: nat, log: set<nat>)
    requires Mapping(f, s0, s, ino, bn, addr, log) == Sound
    ensures Shape(s0) && ino < |s0.inodes| && bn < MAXFILE && SlotNeed(f, s0, ino, bn) <= Clear(s0.bitmap)
  {
    assert Open(0);
  }

  lemma PaidInode(f: Words, s0: Store, s: Store, ino: nat, lo: nat, hi: nat, log: set<nat>)
    requires Paying(f, s0, s, ino, lo, hi, log) == Sound
    ensures ino < |s.inodes|
  {
    assert Open(0);
  }

  lemma UpdateWrites(f: Words, s: Store, owner: map<nat, Ref>, start: nat, ino: nat)
    requires Healthy(f, s, owner) == Sound && Room(s, start) && ino < |s.inodes|
    ensures OneWritten(f, s, Updated(f, s, start, ino), start, ino, true)
  {
    HealthyStorable(f, s, owner, ino);
    forall i: nat | i < |s.inodes|
      ensures OnDisk(f, Updated(f, s, start, ino), start, i) == if i == ino then s.inodes[i] else OnDisk(f, s, start, i)
    {
      UpdatedDisk(f, s, start, ino, i);
    }
  }

  lemma SavingIs(f: Words, s: Store, s': Store, start: nat, ino: nat, written: bool)
    requires Saving(f, s, s', start, ino, written) == Sound
    ensures OneWritten(f, s, s', start, ino, written)
  {
    assert Open(0);
  }

  lemma PaidFurnishes(f: Words, s0: Store, s: Store, ino: nat, lo: nat, hi: nat, log: set<nat>)
    requires Paying(f, s0, s, ino, lo, hi, log) == Sound
    ensures Furnishing(f, s0, s, ino, lo, hi) == Sound
  {
    assert Open(0);
    assert Furnished(f, s0, s, ino, lo, hi);
  }

  /** The end of `itrunc`. */
  lemma TruncateEnd(f: Words, s0: Store, s1: Store, s2: Store, owner: map<nat, Ref>, start: nat, ino: nat)
    requires Shape(s0) && ino < |s0.inodes| && s1 == Truncated(s0, owner, ino) && Aside(f, s1, s2) == Sound
    requires OneWritten(f, s1, s2, start, ino, true) && Shape(s1) && OthersSame(f, s0, s1, ino)
    ensures Shape(s2) && s2.inodes == s1.inodes && File(f, s2, ino) == [] && OthersSame(f, s0, s2, ino)
    ensures Whole(f, s1) == Sound ==> Whole(f, s2) == Sound
    ensures OneWritten(f, s0, s2, start, ino, true)
    ensures Synced(f, s0, start) == Sound ==> Synced(f, s2, start) == Sound
  {
    assert Open(0);
    assert s1.blocks == s0.blocks;
    forall i: nat | i < |s0.inodes| && i != ino ensures OnDisk(f, s1, start, i) == OnDisk(f, s0, start, i) {
    }
    if Whole(f, s1) == Sound {
      AsideWhole(f, s1, s2);
    }
    if Synced(f, s0, start) == Sound {
      assert AllOnDisk(f, s2, start);
    }
  }

  lemma WritingIs(f: Words, s: Store, s': Store, ino: nat, off: nat, src: seq<byte>, log: set<nat>, inodeBlock: nat)
    requires Writing(f, s, s', ino, off, src, log, inodeBlock) == Sound
    ensures WroteFile(f, s, s', ino, off, src, log, inodeBlock)
  {
    assert Open(0);
  }

  lemma SizeShape(s: Store, ino: nat, size: nat)
    requires Shape(s) && ino < |s.inodes|
    ensures Shape(WithSize(s, ino, size))
  {
  }

  /** What has been read is the slice of the file. */
  lemma ReadDone(f: Words, s0: Store, s: Store, ino: nat, off: nat, m: nat, data: seq<byte>, log: set<nat>)
    requires ReadSoFar(f, s0, s, ino, off, m, data, log) && Shape(s0) && ino < |s0.inodes|
    requires off + m <= s0.inodes[ino].size <= MAXFILE * BSIZE
    ensures |data| == m && data == File(f, s0, ino)[off..off + m] && SameImages(f, s0, s)
    ensures NeedBlocks(f, s0, ino, off / BSIZE, BlockEnd(off, m)) <= Clear(s0.bitmap)
  {
    assert Open(0);
    var img, size := Image(f, s0, ino), s0.inodes[ino].size;
    assert img[off..off + m] == img[..size][off..off + m];
  }

  lemma TakeDone(f: Words, s0: Store, s: Store, owner: map<nat, Ref>, ino: nat, off: nat, m: nat, log: set<nat>)
    requires Taking(f, s0, s, ino, off / BSIZE, BlockEnd(off, m), log) == Sound && Healthy(f, s0, owner) == Sound
    ensures Took(f, s0, s, ino, off / BSIZE, BlockEnd(off, m), log)
    ensures log == {} <==> NeedBlocks(f, s0, ino, off / BSIZE, BlockEnd(off, m)) == 0
    ensures log == {} ==> s == s0
  {
    assert Open(0);
    CostsNothing(f, s0, s, ino, off / BSIZE, BlockEnd(off, m));
    NoneNeeded(f, s0, owner, ino, off / BSIZE, BlockEnd(off, m));
  }
}
