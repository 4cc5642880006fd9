/** file.c, `filewrite` on an inode: a write cut into chunks that are meant to fit the log; and `fileread`. */
module FileWrite {
  import opened Basics
  import opened Blocks
  import opened Dinodes
  import opened FsHoles
  import opened FsModel
  import opened FsSteps
  import opened Fs
  import opened Sealed
  import LogBook

  // ------------------------------------------------------------------ what a write costs the log

  /** Some block in the range had to be supplied. */
  ghost predicate AnyNew(f: Words, s: Store, ino: nat, lo: nat, hi: nat)
    requires Shape(s) && ino < |s.inodes| && hi <= MAXFILE
  {
    exists t: nat :: lo <= t < hi && AddrOf(f, s, ino, t) == 0
  }

  /** The data blocks of the range. */
  ghost function Addrs(f: Words, s: Store, ino: nat, lo: nat, hi: nat): (r: set<nat>)
    requires Shape(s) && ino < |s.inodes| && hi <= MAXFILE
    decreases hi
  {
    if hi <= lo then {} else Addrs(f, s, ino, lo, hi - 1) + {AddrOf(f, s, ino, hi - 1)}
  }

  lemma {:induction false} AddrsAre(f: Words, s: Store, ino: nat, lo: nat, hi: nat, b: nat)
    requires Shape(s) && ino < |s.inodes| && hi <= MAXFILE
    ensures b in Addrs(f, s, ino, lo, hi) <==> exists t: nat :: lo <= t < hi && AddrOf(f, s, ino, t) == b
    decreases hi
  {
    if lo < hi {
      AddrsAre(f, s, ino, lo, hi - 1, b);
    }
  }

  lemma {:induction false} AddrsCount(f: Words, s: Store, owner: map<nat, Ref>, ino: nat, lo: nat, hi: nat)
    requires WF(f, s, owner) && ino < |s.inodes| && lo <= hi <= MAXFILE
    requires forall t: nat :: lo <= t < hi ==> AddrOf(f, s, ino, t) != 0
    ensures |Addrs(f, s, ino, lo, hi)| == hi - lo
    decreases hi
  {
    if lo < hi {
      AddrsCount(f, s, owner, ino, lo, hi - 1);
      var b := AddrOf(f, s, ino, hi - 1);
      AddrsAre(f, s, ino, lo, hi - 1, b);
      assert b !in Addrs(f, s, ino, lo, hi - 1);
    }
  }

  /** The blocks that record where new blocks are: the bitmap, and the indirect block. */
  ghost function Records(f: Words, s: Store, s': Store, ino: nat, lo: nat, hi: nat): set<nat>
    requires Shape(s) && Shape(s') && ino < |s.inodes| && ino < |s'.inodes| && hi <= MAXFILE
  {
    (if AnyNew(f, s, ino, lo, hi) then {s'.first - 1} else {})
    + if AnyNew(f, s, ino, Max(lo, NDIRECT), hi) then {AddrOf(f, s', ino, IND)} else {}
  }

  lemma {:induction false} RangeCostIs(f: Words, s: Store, s': Store, ino: nat, lo: nat, hi: nat)
    requires Shape(s) && Shape(s') && ino < |s.inodes| && ino < |s'.inodes| && lo <= hi <= MAXFILE
    ensures RangeCost(f, s, s', ino, lo, hi) == Addrs(f, s', ino, lo, hi) + Records(f, s, s', ino, lo, hi)
    decreases hi
  {
    if lo < hi {
      RangeCostIs(f, s, s', ino, lo, hi - 1);
      AnyNewStep(f, s, ino, lo, hi);
      AnyNewStep(f, s, ino, Max(lo, NDIRECT), hi);
    }
  }

  lemma AnyNewStep(f: Words, s: Store, ino: nat, lo: nat, hi: nat)
    requires Shape(s) && ino < |s.inodes| && 0 < hi <= MAXFILE
    ensures AnyNew(f, s, ino, lo, hi) <==>
      AnyNew(f, s, ino, lo, hi - 1) || (lo <= hi - 1 && AddrOf(f, s, ino, hi - 1) == 0)
  {
  }

  /** The exact number of distinct blocks one `writei` passes to log_write: its data blocks, the
      bitmap if a block was allocated, the indirect block if one of its entries was filled, and the
      inode if the file grew. */
  lemma WriteCostCount(f: Words, s: Store, s': Store, owner: map<nat, Ref>, ino: nat, off: nat, n: nat, inodeBlock: nat)
    requires Shape(s) && WF(f, s', owner) && ino < |s.inodes| && ino < |s'.inodes| && off + n <= MAXFILE * BSIZE
    requires Supplied(f, s, s', ino, off / BSIZE, BlockEnd(off, n)) && inodeBlock < s'.first - 1
    ensures var lo, hi := off / BSIZE, BlockEnd(off, n);
      |WriteCost(f, s, s', ino, off, n, inodeBlock)| == hi - lo + One(AnyNew(f, s, ino, lo, hi))
        + One(AnyNew(f, s, ino, Max(lo, NDIRECT), hi)) + One(off + n > s.inodes[ino].size)
  {
    var lo, hi := off / BSIZE, BlockEnd(off, n);
    RangeCostCount(f, s, s', owner, ino, lo, hi, inodeBlock);
    AddOne(RangeCost(f, s, s', ino, lo, hi), off + n > s.inodes[ino].size, inodeBlock);
  }

  lemma {:induction false} RangeCostCount(f: Words, s: Store, s': Store, owner: map<nat, Ref>, ino: nat, lo: nat,
                                          hi: nat, low: nat)
    requires Shape(s) && WF(f, s', owner) && ino < |s.inodes| && ino < |s'.inodes| && lo <= hi <= MAXFILE
    requires Supplied(f, s, s', ino, lo, hi) && low < s'.first - 1
    ensures |RangeCost(f, s, s', ino, lo, hi)|
         == hi - lo + One(AnyNew(f, s, ino, lo, hi)) + One(AnyNew(f, s, ino, Max(lo, NDIRECT), hi))
    ensures low !in RangeCost(f, s, s', ino, lo, hi)
  {
    RangeCostIs(f, s, s', ino, lo, hi);
    AddrsCount(f, s', owner, ino, lo, hi);
    AddrsApart(f, s', owner, ino, lo, hi);
    IndirectIsThere(f, s, s', owner, ino, lo, hi);
    CountApart(Addrs(f, s', ino, lo, hi), AnyNew(f, s, ino, lo, hi), s'.first - 1,
               AnyNew(f, s, ino, Max(lo, NDIRECT), hi), AddrOf(f, s', ino, IND));
  }

  lemma AddOne(a: set<nat>, b: bool, x: nat)
    requires b ==> x !in a
    ensures |a + if b then {x} else {}| == |a| + One(b)
  {
    if b {
      assert |a + {x}| == |a| + 1;
    } else {
      assert a + {} == a;
    }
  }

  lemma CountApart(data: set<nat>, b1: bool, x1: nat, b2: bool, x2: nat)
    requires x1 !in data && (b2 ==> x2 !in data && x2 != x1)
    ensures |data + ((if b1 then {x1} else {}) + if b2 then {x2} else {})| == |data| + One(b1) + One(b2)
  {
    var a: set<nat> := if b1 then {x1} else {};
    var b: set<nat> := if b2 then {x2} else {};
    AddOne(data, b1, x1);
    assert b2 ==> x2 !in data + a;
    AddOne(data + a, b2, x2);
    Regroup(data, a, b);
  }

  lemma Regroup(a: set<nat>, b: set<nat>, c: set<nat>)
    ensures a + (b + c) == a + b + c
  {
  }

  lemma IndirectIsThere(f: Words, s: Store, s': Store, owner: map<nat, Ref>, ino: nat, lo: nat, hi: nat)
    requires Shape(s) && WF(f, s', owner) && ino < |s.inodes| && ino < |s'.inodes| && hi <= MAXFILE
    requires Supplied(f, s, s', ino, lo, hi)
    ensures AnyNew(f, s, ino, Max(lo, NDIRECT), hi) ==>
      IsBlock(s', AddrOf(f, s', ino, IND)) && AddrOf(f, s', ino, IND) != 0
  {
  }

  /** Data blocks are in the data area and are not the indirect block. */
  lemma AddrsApart(f: Words, s: Store, owner: map<nat, Ref>, ino: nat, lo: nat, hi: nat)
    requires WF(f, s, owner) && ino < |s.inodes| && hi <= MAXFILE
    requires forall t: nat :: lo <= t < hi ==> AddrOf(f, s, ino, t) != 0
    ensures forall b :: b in Addrs(f, s, ino, lo, hi) ==> IsBlock(s, b) && (b == AddrOf(f, s, ino, IND) ==> b == 0)
  {
    forall b | b in Addrs(f, s, ino, lo, hi) ensures IsBlock(s, b) && (b == AddrOf(f, s, ino, IND) ==> b == 0) {
      AddrsAre(f, s, ino, lo, hi, b);
      var t: nat :| lo <= t < hi && AddrOf(f, s, ino, t) == b;
      assert b in owner;
      if b == AddrOf(f, s, ino, IND) {
        NamedOnce(f, s, owner, ino, t, ino, IND);
      }
    }
  }

  /** `((LogBook.LOGSIZE-1-1-2) / 2) * 512`. */
  const MAXCHUNK: nat := (LogBook.LOGSIZE - 1 - 1 - 2) / 2 * 512

  lemma ChunkSpan(off: nat, n: nat)
    requires n <= MAXCHUNK
    ensures BlockEnd(off, n) - off / BSIZE <= 14
    ensures BlockEnd(off, n) - off / BSIZE == 14 <==> off % BSIZE + n > MAXCHUNK
  {
  }

  /** A chunk never costs the log more than 17 blocks, and it costs 17 exactly when it reaches 14
      blocks, fills an entry of the indirect block, and makes the file grow. */
  lemma ChunkCost(f: Words, s: Store, s': Store, owner: map<nat, Ref>, ino: nat, off: nat, n: nat, inodeBlock: nat)
    requires Shape(s) && WF(f, s', owner) && ino < |s.inodes| && ino < |s'.inodes| && off + n <= MAXFILE * BSIZE
    requires Supplied(f, s, s', ino, off / BSIZE, BlockEnd(off, n)) && inodeBlock < s'.first - 1
    requires n <= MAXCHUNK
    ensures |WriteCost(f, s, s', ino, off, n, inodeBlock)| <= 17
    ensures |WriteCost(f, s, s', ino, off, n, inodeBlock)| == 17 <==>
      && off % BSIZE + n > MAXCHUNK
      && AnyNew(f, s, ino, Max(off / BSIZE, NDIRECT), BlockEnd(off, n))
      && off + n > s.inodes[ino].size
  {
    WriteCostCount(f, s, s', owner, ino, off, n, inodeBlock);
    ChunkSpan(off, n);
    var lo, hi := off / BSIZE, BlockEnd(off, n);
    if AnyNew(f, s, ino, Max(lo, NDIRECT), hi) {
      var t: nat :| Max(lo, NDIRECT) <= t < hi && AddrOf(f, s, ino, t) == 0;
      assert lo <= t < hi;
    }
  }

  // ------------------------------------------------------------------ the loop

  /** A chunk logs more than the log reserves for an operation exactly when it spans more bytes than the blocks that are
      left once the bitmap, the indirect block and the inode are counted. */
  lemma ChunkExceeds(f: Words, s: Store, s': Store, owner: map<nat, Ref>, ino: nat, off: nat, n: nat, inodeBlock: nat)
    requires Shape(s) && WF(f, s', owner) && ino < |s.inodes| && ino < |s'.inodes| && off + n <= MAXFILE * BSIZE
    requires n > 0
    requires Supplied(f, s, s', ino, off / BSIZE, BlockEnd(off, n)) && inodeBlock < s'.first - 1
    ensures var lo, hi := off / BSIZE, BlockEnd(off, n);
      var extra := One(AnyNew(f, s, ino, lo, hi)) + One(AnyNew(f, s, ino, Max(lo, NDIRECT), hi))
        + One(off + n > s.inodes[ino].size);
      |WriteCost(f, s, s', ino, off, n, inodeBlock)| > LogBook.MAXOPBLOCKS <==>
        off % BSIZE + n > (LogBook.MAXOPBLOCKS - extra) * BSIZE
  {
    WriteCostCount(f, s, s', owner, ino, off, n, inodeBlock);
    SpanOf(off, n);
  }

  lemma SpanOf(off: nat, n: nat)
    requires n > 0
    ensures forall k: int :: BlockEnd(off, n) - off / BSIZE > k <==> off % BSIZE + n > k * BSIZE
  {
  }

  lemma ChunkIsSmall(f: Words, s: Store, s': Store, owner: map<nat, Ref>, ino: nat, off: nat, chunk: seq<byte>,
                     log: set<nat>, inodeBlock: nat)
    requires Healthy(f, s', owner) == Sound && |chunk| <= MAXCHUNK && inodeBlock < s'.first - 1
    requires Writing(f, s, s', ino, off, chunk, log, inodeBlock) == Sound
    ensures |log| <= 17
  {
    assert Open(0);
    ChunkCost(f, s, s', owner, ino, off, |chunk|, inodeBlock);
  }

  /** Two chunk-sized operations that the log of 30 blocks admits while it is empty: one has logged 17 blocks, the other
      12 and is about to log one more, and log_write panics. */
  lemma ChunksOverrunLog()
    ensures var b := LogBook.TwoOps(30, 17, 12);
      && LogBook.Reachable(b, 17) && LogBook.TooBig(b)
      && 0 in b.active && |b.active[0]| == 17 && 1 in b.active && |b.active[1]| == 12
  {
    LogBook.TwoOpsOverrun(30, 17, 12, 17);
  }


  lemma WriteIntoTwice(file: seq<byte>, off: nat, a: seq<byte>, b: seq<byte>)
    requires off <= |file|
    ensures off + |a| <= |WriteInto(file, off, a)|
    ensures WriteInto(WriteInto(file, off, a), off + |a|, b) == WriteInto(file, off, a + b)
  {
    var once := WriteInto(file, off, a);
    assert once[..off + |a|] == file[..off] + a;
  }

  datatype WriteResult =
    | All                 // returns n
    | Stopped(done: nat)  // returns -1 with `done` bytes in the file
    | Panic

  datatype ReadResult =
    | Got(data: seq<byte>)
    | Fails               // returns -1
    | Crashes             // "balloc: out of blocks" or "log_write outside of trans"

  lemma KeptSize(f: Words, s: Store, s': Store, ino: nat)
    requires SameImages(f, s, s') && ino < |s.inodes|
    ensures ino < |s'.inodes| && s'.inodes[ino].size == s.inodes[ino].size
  {
  }

  /** How many bytes are written before a chunk is refused: none past the end of the file, all if they fit the
      largest file, otherwise the chunks that do. */
  function Accepted(size: nat, off: nat, n: nat): nat
    requires size <= MAXFILE * BSIZE
  {
    if off > size then 0
    else if off + n <= MAXFILE * BSIZE then n
    else (MAXFILE * BSIZE - off) / MAXCHUNK * MAXCHUNK
  }

  /** How many blocks writing `n` bytes at `off` takes. */
  ghost function WriteNeed(f: Words, s: Store, ino: nat, off: nat, n: nat): nat
    requires Shape(s) && ino < |s.inodes| && (n > 0 ==> off + n <= MAXFILE * BSIZE)
  {
    if n == 0 then 0 else NeedBlocks(f, s, ino, off / BSIZE, BlockEnd(off, n))
  }

  /** The next chunk is refused exactly where the accepted bytes end. */
  lemma AcceptedChunk(size: nat, off: nat, n: nat, j: nat)
    requires size <= MAXFILE * BSIZE && j * MAXCHUNK < n && j * MAXCHUNK <= Accepted(size, off, n)
    ensures var i, n1, k := j * MAXCHUNK, Min(MAXCHUNK, n - j * MAXCHUNK), Accepted(size, off, n);
      && (off > size || off + i + n1 > MAXFILE * BSIZE <==> i == k)
      && (i != k ==> i + n1 <= k && (i + n1 == n || n1 == MAXCHUNK))
      && k <= n && (k > 0 ==> off + k <= MAXFILE * BSIZE)
  {
    AcceptedFits(size, off, n);
    if off <= size && off + n > MAXFILE * BSIZE {
      var room := MAXFILE * BSIZE - off;
      WholeChunks(room, n, j, room / MAXCHUNK);
    }
  }

  /** `j` chunks are done of the `q` that fit. */
  lemma WholeChunks(room: nat, n: nat, j: nat, q: nat)
    requires q * MAXCHUNK <= room < (q + 1) * MAXCHUNK && n > room && j * MAXCHUNK <= q * MAXCHUNK && j * MAXCHUNK < n
    ensures var n1 := Min(MAXCHUNK, n - j * MAXCHUNK);
      && (j * MAXCHUNK + n1 > room <==> j * MAXCHUNK == q * MAXCHUNK)
      && (j * MAXCHUNK != q * MAXCHUNK ==> n1 == MAXCHUNK && j * MAXCHUNK + n1 <= q * MAXCHUNK)
  {
    assert j <= q;
  }

  /** All bytes are accepted exactly if there are none, or they start within the file and fit the largest one. Of those
      that do not fit, as many chunks are accepted as do. */
  lemma AcceptedIs(size: nat, off: nat, n: nat)
    requires size <= MAXFILE * BSIZE
    ensures Accepted(size, off, n) == n <==> n == 0 || (off <= size && off + n <= MAXFILE * BSIZE)
    ensures off <= size && off + n > MAXFILE * BSIZE ==>
      var k := Accepted(size, off, n); k % MAXCHUNK == 0 && off + k <= MAXFILE * BSIZE < off + k + MAXCHUNK
  {
    if off <= size && off + n > MAXFILE * BSIZE {
      var q := (MAXFILE * BSIZE - off) / MAXCHUNK;
      assert q * MAXCHUNK % MAXCHUNK == 0;
    }
  }

  lemma AcceptedFits(size: nat, off: nat, n: nat)
    requires size <= MAXFILE * BSIZE
    ensures Accepted(size, off, n) <= n
    ensures Accepted(size, off, n) > 0 ==> off + Accepted(size, off, n) <= MAXFILE * BSIZE
  {
  }

  class OpenFile {
    const fs: Partition
    const ino: nat
    var off: nat

    constructor (fs: Partition, ino: nat)
      ensures this.fs == fs && this.ino == ino && off == 0
    {
      this.fs, this.ino, off := fs, ino, 0;
    }

    ghost predicate Valid()
      reads this, fs
    {
      && fs.Valid() && ino < |fs.inodes| && fs.inodes[ino].size <= MAXFILE * BSIZE
      && off < 0x1_0000_0000
    }

    ghost function Bytes(): seq<byte>
      reads this, fs
      requires Valid()
    {
      File(fs.words, fs.Snapshot(), ino)
    }

    /** begin_op, writei of one chunk, end_op. */
    method WriteChunk(chunk: seq<byte>) returns (r: Io, ghost log: set<nat>)
      requires Valid() && |chunk| <= MAXCHUNK
      modifies this, fs
      ensures fs.Valid() && (!r.Panicked? ==> Valid())
      ensures r.Refused? <==> old(off) > |old(Bytes())| || old(off) + |chunk| > MAXFILE * BSIZE
      ensures r.Refused? ==> fs.Snapshot() == old(fs.Snapshot()) && off == old(off)
      ensures !r.Refused? ==> (r.Panicked? <==>
        Clear(old(fs.bitmap)) < NeedBlocks(fs.words, old(fs.Snapshot()), ino, old(off) / BSIZE,
          BlockEnd(old(off), |chunk|)))
      ensures r.Done? ==> r.n == |chunk| && off == old(off) + |chunk| && |log| <= 17
      ensures r.Done? ==>
        Writing(fs.words, old(fs.Snapshot()), fs.Snapshot(), ino, old(off), chunk, log, fs.InodeBlock(ino)) == Sound
      ensures !r.Panicked? && Whole(fs.words, old(fs.Snapshot())) == Sound ==> Whole(fs.words, fs.Snapshot()) == Sound
      ensures !r.Panicked? ==> StaysSynced(fs.words, old(fs.Snapshot()), fs.Snapshot(), fs.inodestart)
    {
      ghost var s0 := fs.Snapshot();
      r, log := fs.WriteI(ino, chunk, off);
      if r.Done? {
        ChunkIsSmall(fs.words, s0, fs.Snapshot(), fs.owner, ino, off, chunk, log, fs.InodeBlock(ino));
        if Whole(fs.words, s0) == Sound && off + |chunk| <= s0.inodes[ino].size {
          WholeLacksNothing(fs.words, s0, ino, off, |chunk|);
        }
        if r.n > 0 {
          off := off + r.n;
        }
      }
    }

    /** The body of the loop in `filewrite`, at `i` bytes; `s0` and `off0` are from its start. */
    method WriteTurn(data: seq<byte>, i: nat, ghost j: nat, ghost off0: nat, ghost s0: Store) returns (res: Io, i': nat)
      requires Valid() && Shape(s0) && ino < |s0.inodes| && s0.inodes[ino].size <= MAXFILE * BSIZE
      requires i < |data| && i == j * MAXCHUNK && i <= Accepted(s0.inodes[ino].size, off0, |data|)
      requires Chunked(fs.words, s0, fs.Snapshot(), ino, off0, data, i, off)
      modifies this, fs
      ensures var k := Accepted(s0.inodes[ino].size, off0, |data|);
        && (res.Refused? <==> i == k)
        && (k > 0 ==> off0 + k <= MAXFILE * BSIZE)
        && (res.Panicked? ==> k > 0 && Clear(s0.bitmap) < WriteNeed(fs.words, s0, ino, off0, k))
        && (res.Done? ==> i < i' <= k <= |data| && (i' == |data| || i' == (j + 1) * MAXCHUNK))
      ensures !res.Panicked? ==>
        Valid() && Chunked(fs.words, s0, fs.Snapshot(), ino, off0, data, if res.Done? then i' else i, off)
      ensures !res.Panicked? && Whole(fs.words, old(fs.Snapshot())) == Sound ==> Whole(fs.words, fs.Snapshot()) == Sound
      ensures !res.Panicked? ==> StaysSynced(fs.words, old(fs.Snapshot()), fs.Snapshot(), fs.inodestart)
    {
      var n1 := if |data| - i > MAXCHUNK then MAXCHUNK else |data| - i;
      i' := i + n1;
      ghost var s1, off1, log := fs.Snapshot(), off, {};
      ChunkedSize(fs.words, s0, s1, ino, off0, data, i, off1);
      AcceptedChunk(s0.inodes[ino].size, off0, |data|, j);
      res, log := WriteChunk(data[i..i']);
      if res.Done? {
        ChunkedMore(fs.words, s0, s1, fs.Snapshot(), ino, off0, data, i, i', log, fs.InodeBlock(ino));
      } else if res.Panicked? {
        ChunkedShort(fs.words, s0, s1, ino, off0, data, i, i', Accepted(s0.inodes[ino].size, off0, |data|));
      }
    }

    /** `filewrite`. It panics exactly when the blocks that the accepted bytes lack are more than are free. Otherwise
        the effect is that of one contiguous write of the accepted bytes, and no other file changes. */
    method Write(data: seq<byte>) returns (r: WriteResult)
      requires Valid() && |data| < 0x8000_0000
      modifies this, fs
      ensures var k := Accepted(|old(Bytes())|, old(off), |data|);
        && k <= |data| && (k > 0 ==> old(off) + k <= MAXFILE * BSIZE)
        && (r.Panic? <==> Clear(old(fs.bitmap)) < WriteNeed(fs.words, old(fs.Snapshot()), ino, old(off), k))
        && (!r.Panic? ==>
              && r == (if k == |data| then All else Stopped(k)) && Valid() && off == old(off) + k
              && Bytes() == (if k == 0 then old(Bytes()) else WriteInto(old(Bytes()), old(off), data[..k]))
              && OthersSame(fs.words, old(fs.Snapshot()), fs.Snapshot(), ino))
      ensures !r.Panic? ==>
        (r.All? <==> |data| == 0 || (old(off) <= |old(Bytes())| && old(off) + |data| <= MAXFILE * BSIZE))
      ensures !r.Panic? && Whole(fs.words, old(fs.Snapshot())) == Sound ==> Whole(fs.words, fs.Snapshot()) == Sound
      ensures !r.Panic? ==> StaysSynced(fs.words, old(fs.Snapshot()), fs.Snapshot(), fs.inodestart)
    {
      ghost var s0, off0 := fs.Snapshot(), off;
      ghost var k := Accepted(s0.inodes[ino].size, off0, |data|);
      AcceptedFits(s0.inodes[ino].size, off0, |data|);
      AcceptedIs(s0.inodes[ino].size, off0, |data|);
      ChunkedStart(fs.words, s0, ino, off0, data);
      var i := 0;
      ghost var j := 0;
      while i < |data|
        invariant 0 <= i <= k && Valid() && (i == |data| || i == j * MAXCHUNK)
        invariant Chunked(fs.words, s0, fs.Snapshot(), ino, off0, data, i, off)
        invariant Whole(fs.words, s0) == Sound ==> Whole(fs.words, fs.Snapshot()) == Sound
        invariant StaysSynced(fs.words, s0, fs.Snapshot(), fs.inodestart)
      {
        var res;
        var was := i;
        res, i := WriteTurn(data, was, j, off0, s0);
        j := j + 1;
        if res.Panicked? {
          return Panic;
        }
        if res.Refused? {
          ChunkedEnd(fs.words, s0, fs.Snapshot(), ino, off0, data, was, off);
          return Stopped(was);
        }
      }
      ChunkedEnd(fs.words, s0, fs.Snapshot(), ino, off0, data, i, off);
      r := All;
    }

    /** `fileread`, while `outstanding` operations are in progress. It calls readi without begin_op, so where a slot in
        the slice names no block and no other operation is in progress, log_write panics. A file without holes is read
        without touching anything. */
    method Read(n: nat, outstanding: nat) returns (r: ReadResult)
      requires Valid() && n < 0x8000_0000
      modifies this, fs
      ensures r.Fails? <==> old(off) > |old(Bytes())| || old(off) + n >= 0x1_0000_0000
      ensures r.Fails? ==> Valid() && off == old(off) && fs.Snapshot() == old(fs.Snapshot())
      ensures !r.Fails? ==>
        var m := Min(n, |old(Bytes())| - old(off));
        var need := NeedBlocks(fs.words, old(fs.Snapshot()), ino, old(off) / BSIZE, BlockEnd(old(off), m));
        && (r.Crashes? <==> need > Clear(old(fs.bitmap)) || (need > 0 && outstanding == 0))
        && (r.Got? ==>
              && Valid() && r.data == old(Bytes())[old(off)..old(off) + m] && off == old(off) + m
              && SameImages(fs.words, old(fs.Snapshot()), fs.Snapshot())
              && (need == 0 ==> fs.Snapshot() == old(fs.Snapshot())))
      ensures Whole(fs.words, old(fs.Snapshot())) == Sound ==> !r.Crashes? && fs.Snapshot() == old(fs.Snapshot())
    {
      ghost var s0 := fs.Snapshot();
      var io, data, log := fs.ReadI(ino, off, n);
      if !io.Refused? && Whole(fs.words, s0) == Sound {
        WholeReads(fs.words, s0, ino, off, Min(n, s0.inodes[ino].size - off));
      }
      match io {
        case Refused => r := Fails;
        case Panicked => r := Crashes;
        case Done(m) =>
          if log != {} && outstanding == 0 {
            return Crashes;
          }
          KeptSize(fs.words, s0, fs.Snapshot(), ino);
          if m > 0 {
            off := off + m;
          }
          r := Got(data);
      }
    }
  }

  /** The first `i` bytes of `data` are in the file at `off0`, and no other file has changed. */
  ghost predicate Part(f: Words, s0: Store, s: Store, ino: nat, off0: nat, data: seq<byte>, i: nat) {
    && Shape(s0) && Shape(s) && ino < |s0.inodes| && ino < |s.inodes| && i <= |data|
    && s0.inodes[ino].size <= MAXFILE * BSIZE && s.inodes[ino].size <= MAXFILE * BSIZE && OthersSame(f, s0, s, ino)
    && (i == 0 ==> File(f, s, ino) == File(f, s0, ino))
    && (i > 0 ==> off0 <= s0.inodes[ino].size && File(f, s, ino) == WriteInto(File(f, s0, ino), off0, data[..i]))
  }

  ghost function Parted(f: Words, s0: Store, s: Store, ino: nat, off0: nat, data: seq<byte>, i: nat): Status {
    if forall k {:trigger Open(k)} :: k == 0 ==> Part(f, s0, s, ino, off0, data, i) then Sound else Broken
  }

  /** The loop has written `i` bytes, supplying the blocks that they reach. */
  ghost predicate Chunked(f: Words, s0: Store, s: Store, ino: nat, off0: nat, data: seq<byte>, i: nat, off: nat) {
    && off == off0 + i && Parted(f, s0, s, ino, off0, data, i) == Sound
    && (if i == 0 then s == s0 else Furnishing(f, s0, s, ino, off0 / BSIZE, BlockEnd(off0, i)) == Sound)
  }

  lemma ChunkedStart(f: Words, s: Store, ino: nat, off0: nat, data: seq<byte>)
    requires Shape(s) && ino < |s.inodes| && s.inodes[ino].size <= MAXFILE * BSIZE
    ensures Chunked(f, s, s, ino, off0, data, 0, off0)
  {
    assert Part(f, s, s, ino, off0, data, 0);
  }

  lemma ChunkedSize(f: Words, s0: Store, s: Store, ino: nat, off0: nat, data: seq<byte>, i: nat, off: nat)
    requires Chunked(f, s0, s, ino, off0, data, i, off) && Shape(s0) && ino < |s0.inodes|
    ensures ino < |s.inodes| && s.inodes[ino].size <= MAXFILE * BSIZE
    ensures off <= s.inodes[ino].size <==> off0 <= s0.inodes[ino].size
    ensures i > 0 ==> off0 <= s0.inodes[ino].size
  {
    assert Open(0);
    assert |File(f, s, ino)| == s.inodes[ino].size;
  }

  lemma ChunkedMore(f: Words, s0: Store, s1: Store, s2: Store, ino: nat, off0: nat, data: seq<byte>, i: nat, i': nat,
                    log: set<nat>, inodeBlock: nat)
    requires Chunked(f, s0, s1, ino, off0, data, i, off0 + i) && i < i' <= |data|
    requires Writing(f, s1, s2, ino, off0 + i, data[i..i'], log, inodeBlock) == Sound
    ensures Chunked(f, s0, s2, ino, off0, data, i', off0 + i')
    ensures ino < |s2.inodes| && s2.inodes[ino].size <= MAXFILE * BSIZE
  {
    PartMore(f, s0, s1, s2, ino, off0, data, i, i', log, inodeBlock);
    WritingFurnishes(f, s1, s2, ino, off0 + i, data[i..i'], log, inodeBlock);
    EndsMeet(off0, i, i');
    if i > 0 {
      FurnishMore(f, s0, s1, s2, ino, off0 / BSIZE, BlockEnd(off0, i), (off0 + i) / BSIZE, BlockEnd(off0, i'));
    }
  }

  /** A range that goes on where another ended. */
  lemma EndsMeet(off: nat, i: nat, i': nat)
    requires i < i'
    ensures BlockEnd(off + i, i' - i) == BlockEnd(off, i')
    ensures i > 0 ==> off / BSIZE <= (off + i) / BSIZE <= BlockEnd(off, i) <= BlockEnd(off, i')
    ensures off / BSIZE < BlockEnd(off, i')
  {
  }

  lemma WritingFurnishes(f: Words, s: Store, s': Store, ino: nat, off: nat, src: seq<byte>, log: set<nat>,
                         inodeBlock: nat)
    requires Writing(f, s, s', ino, off, src, log, inodeBlock) == Sound
    ensures Furnishing(f, s, s', ino, off / BSIZE, BlockEnd(off, |src|)) == Sound
  {
    assert Open(0);
    assert Furnished(f, s, s', ino, off / BSIZE, BlockEnd(off, |src|));
  }

  lemma PartMore(f: Words, s0: Store, s1: Store, s2: Store, ino: nat, off0: nat, data: seq<byte>, i: nat, i': nat,
                 log: set<nat>, inodeBlock: nat)
    requires Parted(f, s0, s1, ino, off0, data, i) == Sound && i < i' <= |data|
    requires Writing(f, s1, s2, ino, off0 + i, data[i..i'], log, inodeBlock) == Sound
    ensures Parted(f, s0, s2, ino, off0, data, i') == Sound && ino < |s2.inodes|
    ensures s2.inodes[ino].size <= MAXFILE * BSIZE
  {
    assert Open(0);
    OthersSameTrans(f, s0, s1, s2, ino);
    assert |File(f, s1, ino)| == s1.inodes[ino].size && |File(f, s0, ino)| == s0.inodes[ino].size;
    FilesJoin(File(f, s0, ino), File(f, s1, ino), File(f, s2, ino), off0, data, i, i');
    assert Part(f, s0, s2, ino, off0, data, i');
  }

  lemma FilesJoin(file: seq<byte>, once: seq<byte>, twice: seq<byte>, off: nat, data: seq<byte>, i: nat, i': nat)
    requires i < i' <= |data| && off + i <= |once| && twice == WriteInto(once, off + i, data[i..i'])
    requires if i == 0 then once == file else off <= |file| && once == WriteInto(file, off, data[..i])
    ensures off <= |file| && twice == WriteInto(file, off, data[..i'])
  {
    assert data[..i] + data[i..i'] == data[..i'];
    if i > 0 {
      WriteIntoTwice(file, off, data[..i], data[i..i']);
    }
  }

  lemma ChunkedShort(f: Words, s0: Store, s1: Store, ino: nat, off0: nat, data: seq<byte>, i: nat, i': nat, k: nat)
    requires Chunked(f, s0, s1, ino, off0, data, i, off0 + i) && i < i' <= k && off0 + k <= MAXFILE * BSIZE
    requires Shape(s0) && ino < |s0.inodes| && Shape(s1) && ino < |s1.inodes|
    requires Clear(s1.bitmap) < NeedBlocks(f, s1, ino, (off0 + i) / BSIZE, BlockEnd(off0 + i, i' - i))
    ensures Clear(s0.bitmap) < WriteNeed(f, s0, ino, off0, k)
  {
    EndsMeet(off0, i, i');
    EndGrows(off0, i', k);
    var lo, hi, end := off0 / BSIZE, BlockEnd(off0, i'), BlockEnd(off0, k);
    if i > 0 {
      FurnishShort(f, s0, s1, ino, lo, BlockEnd(off0, i), (off0 + i) / BSIZE, hi, end);
    } else {
      NeedGrows(f, s0, ino, lo, hi, end);
    }
  }

  lemma ChunkedEnd(f: Words, s0: Store, s: Store, ino: nat, off0: nat, data: seq<byte>, i: nat, off: nat)
    requires Chunked(f, s0, s, ino, off0, data, i, off) && Shape(s0) && ino < |s0.inodes|
    requires i > 0 ==> off0 + i <= MAXFILE * BSIZE
    ensures Part(f, s0, s, ino, off0, data, i) && WriteNeed(f, s0, ino, off0, i) <= Clear(s0.bitmap)
  {
    assert Open(0);
  }

  lemma OthersSameTrans(f: Words, s0: Store, s1: Store, s2: Store, ino: nat)
    requires OthersSame(f, s0, s1, ino) && OthersSame(f, s1, s2, ino)
    ensures OthersSame(f, s0, s2, ino)
  {
  }

  // ------------------------------------------------------------------ the bound is attained

  /** A small partition with one empty file. */
  function SmallStore(): (s: Store)
    ensures s.first == 58 && |s.bitmap| == 100 && |s.blocks| == 200 && s.inodes == [EmptyInode]
    ensures forall i :: 0 <= i < 100 ==> !s.bitmap[i]
  {
    Store(58, seq(100, _ => false), seq(200, _ => ZeroBlock()), [EmptyInode])
  }

  /** A new file of 6145 bytes. */
  method NewFile(words: Words, a: seq<byte>) returns (f: OpenFile)
    requires WordsWork(words) && |a| == 6145
    ensures fresh(f) && fresh(f.fs) && f.Valid() && f.fs.words == words && f.ino == 0 && f.off == 6145
    ensures f.fs.inodestart == 31 && f.fs.first == 58 && |f.fs.inodes| == 1 && f.fs.inodes[0].size == 6145
    ensures AddrOf(words, f.fs.Snapshot(), 0, 13) == 0 && Clear(f.fs.bitmap) >= 86
  {
    var s := SmallStore();
    EmptyIsHealthy(words, s);
    AllClear(s.bitmap);
    var p := new Partition(words, 31, s, map[]);
    f := new OpenFile(p, 0);
    NeedAtMost(words, s, 0, 0, 13);
    ghost var log;
    var r;
    r, log := f.WriteChunk(a);
    FirstChunk(words, s, p.Snapshot(), a, log);
  }

  /** Writing 6656 more at its end: the chunk is accepted whole and passes exactly 17 blocks to log_write. */
  method SeventeenBlocks(words: Words, a: seq<byte>, b: seq<byte>) returns (f: OpenFile, r: Io, ghost log: set<nat>)
    requires WordsWork(words) && |a| == 6145 && |b| == MAXCHUNK
    ensures f.Valid() && r == Done(MAXCHUNK) && |f.Bytes()| == 6145 + MAXCHUNK && |log| == 17
  {
    f := NewFile(words, a);
    ghost var s1 := f.fs.Snapshot();
    NeedAtMost(words, s1, 0, 12, 26);
    r, log := f.WriteChunk(b);
    SecondChunk(words, s1, f.fs.Snapshot(), f.fs.owner, b, log);
  }

  lemma FirstChunk(f: Words, s: Store, s1: Store, a: seq<byte>, log: set<nat>)
    requires Shape(s) && |s.inodes| == 1 && (forall t: nat :: t < SLOTS ==> AddrOf(f, s, 0, t) == 0)
    requires Clear(s.bitmap) == 100
    requires s.inodes[0].size == 0 && |a| == 6145 && Writing(f, s, s1, 0, 0, a, log, 31) == Sound
    ensures Shape(s1) && |s1.inodes| == 1 && s1.inodes[0].size == 6145 && AddrOf(f, s1, 0, 13) == 0
    ensures Clear(s1.bitmap) >= 86
    ensures s1.first == s.first
  {
    assert Open(0);
    assert |File(f, s1, 0)| == 6145;
    NeedAtMost(f, s, 0, 0, 13);
  }

  lemma SecondChunk(f: Words, s1: Store, s2: Store, owner: map<nat, Ref>, b: seq<byte>, log: set<nat>)
    requires Shape(s1) && |s1.inodes| == 1 && s1.inodes[0].size == 6145 && AddrOf(f, s1, 0, 13) == 0 && s1.first == 58
    requires Healthy(f, s2, owner) == Sound && |b| == MAXCHUNK && Writing(f, s1, s2, 0, 6145, b, log, 31) == Sound
    ensures |log| == 17 && 0 < |s2.inodes| && s2.inodes[0].size == 6145 + MAXCHUNK
  {
    assert Open(0);
    assert |File(f, s2, 0)| == 6145 + MAXCHUNK;
    ChunkCost(f, s1, s2, owner, 0, 6145, MAXCHUNK, 31);
    assert Max(12, NDIRECT) <= 13 < BlockEnd(6145, MAXCHUNK) && AddrOf(f, s1, 0, 13) == 0;
  }
}
