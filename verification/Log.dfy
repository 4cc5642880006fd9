/** log.c as code: the `log` structure updated in place, over a block device whose every
    single-block write is remembered, so that "the disk at any crash point" can be spoken of. */
module Log {
  import opened LogBook
  import opened LogDisk
  import opened LogTrace

  /** What log.c sees of the buffer cache: `blocks` is the disk; `pinned` holds the blocks whose
      cached copy is newer than the disk and B_DIRTY, so that it cannot be recycled. */
  class Device<B> {
    var blocks: seq<B>
    var pinned: map<nat, B>
    ghost var history: seq<seq<B>>

    constructor (blocks: seq<B>)
      ensures this.blocks == blocks && pinned == map[] && history == []
    {
      this.blocks, pinned, history := blocks, map[], [];
    }

    ghost function View(b: nat): B
      reads this
      requires b < |blocks|
    {
      if b in pinned then pinned[b] else blocks[b]
    }

    method Bread(b: nat) returns (data: B)
      requires b < |blocks|
      ensures data == View(b)
    {
      if b in pinned {
        data := pinned[b];
      } else {
        data := blocks[b];
      }
    }

    method Bwrite(b: nat, data: B)
      requires b < |blocks|
      modifies this
      ensures blocks == old(blocks)[b := data] && pinned == old(pinned) - {b}
      ensures history == old(history) + [blocks]
    {
      blocks := blocks[b := data];
      pinned := pinned - {b};
      history := history + [blocks];
    }

    /** The caller has changed the cached copy and `log_write` has marked it B_DIRTY. */
    method Pin(b: nat, data: B)
      requires b < |blocks|
      modifies this`pinned
      ensures pinned == old(pinned)[b := data]
    {
      pinned := pinned[b := data];
    }
  }

  /** The pins left after the first `k` blocks of `entries` have been written home. */
  ghost function Unpinned<B>(pinned: map<nat, B>, entries: seq<nat>, k: nat): (r: map<nat, B>)
    requires k <= |entries|
    ensures r.Keys <= pinned.Keys
  {
    if k == 0 then pinned else Unpinned(pinned, entries, k - 1) - {entries[k - 1]}
  }

  /** The newest contents of the blocks of a transaction. */
  ghost function Latest<B>(blocks: seq<B>, pinned: map<nat, B>, entries: seq<nat>): (data: seq<B>)
    requires forall i :: 0 <= i < |entries| ==> entries[i] < |blocks|
    ensures |data| == |entries|
  {
    seq(|entries|, i requires 0 <= i < |entries| =>
      if entries[i] in pinned then pinned[entries[i]] else blocks[entries[i]])
  }

  class Log<B(!new)> {
    const format: Format<B>
    const dev: Device<B>
    const g: Region
    const block: array<nat>
    var n: nat
    var outstanding: nat
    var committing: bool
    ghost var active: map<Proc, set<nat>>

    constructor (format: Format<B>, dev: Device<B>, g: Region)
      ensures this.format == format && this.dev == dev && this.g == g && fresh(block)
      ensures block.Length == LOGSIZE && n == 0 && AsBook() == Empty(g.size)
    {
      this.format, this.dev, this.g := format, dev, g;
      block := new nat[LOGSIZE];
      n, outstanding, committing, active := 0, 0, false, map[];
    }

    ghost function Entries(): seq<nat>
      reads this, block
      requires n <= block.Length
    {
      block[..n]
    }

    ghost function AsBook(): Book
      reads this, block
      requires n <= block.Length
    {
      Book(g.size, Entries(), outstanding, committing, active)
    }

    /** The log region is on the disk, nothing in it is pinned, and headers can be read back. */
    ghost predicate Sound()
      reads this, dev
    {
      && block.Length == LOGSIZE
      && n <= LOGSIZE
      && g.size > 0
      && RoundTrips(format)
      && g.start + g.size <= |dev.blocks|
      && forall b :: b in dev.pinned ==> b < |dev.blocks| && !InLog(g, b)
    }

    /** ... and the entries name distinct home blocks that fit the region. */
    ghost predicate Valid()
      reads this, dev, block
    {
      && Sound()
      && GoodEntries(|dev.blocks|, g, Entries())
      && Storable(Entries())
    }

    // ---------------------------------------------------------------- bookkeeping

    /** One turn of the loop in `begin_op`; false means the caller sleeps and comes back. */
    method BeginOp(ghost p: Proc) returns (admitted: bool)
      requires n <= block.Length
      modifies this`outstanding, this`active
      ensures admitted == Admits(old(AsBook()))
      ensures AsBook() == if admitted then Begin(old(AsBook()), p) else old(AsBook())
    {
      admitted := !committing && n + (outstanding + 1) * MAXOPBLOCKS <= LOGSIZE;
      if admitted {
        outstanding := outstanding + 1;
        active := active[p := {}];
      }
    }

    /** `end_op` up to the release of the lock. */
    method EndOp(ghost p: Proc) returns (doCommit: bool)
      requires n <= block.Length && outstanding > 0 && !committing
      modifies this`outstanding, this`committing, this`active
      ensures AsBook() == End(old(AsBook()), p)
      ensures doCommit == committing
    {
      outstanding := outstanding - 1;
      doCommit := false;
      if outstanding == 0 {
        doCommit := true;
        committing := true;
      }
      active := active - {p};
    }

    /** `log_write`; false stands for its two panics. */
    method LogWrite(ghost p: Proc, blockno: nat, data: B) returns (ok: bool)
      requires Valid() && p in active
      requires blockno < |dev.blocks| && !InLog(g, blockno) && blockno < 0x1_0000_0000
      modifies this`n, this`active, block, dev`pinned
      ensures ok == (!TooBig(old(AsBook())) && outstanding >= 1)
      ensures Valid()
      ensures ok ==> AsBook() == Record(old(AsBook()), p, blockno) && dev.pinned == old(dev.pinned)[blockno := data]
      ensures !ok ==> AsBook() == old(AsBook()) && dev.pinned == old(dev.pinned)
    {
      if n >= LOGSIZE || n >= g.size - 1 || outstanding < 1 {
        return false;
      }
      var i := 0;
      while i < n
        invariant 0 <= i <= n
        invariant blockno !in block[..i]
      {
        if block[i] == blockno {
          break;
        }
        i := i + 1;
      }
      ghost var before := Entries();
      block[i] := blockno;
      if i == n {
        assert block[..n] == before;
        n := n + 1;
        assert Entries() == before + [blockno];
      } else {
        assert Entries() == before;
        assert before[i] == blockno;
      }
      dev.Pin(blockno, data);
      active := active[p := active[p] + {blockno}];
      ok := true;
    }
  
    // ---------------------------------------------------------------- the header

    method ReadHead()
      requires Sound() && |Decode(format, dev.blocks, g).head| <= LOGSIZE
      modifies this`n, block
      ensures Sound()
      ensures Entries() == Decode(format, dev.blocks, g).head
    {
      var h := dev.Bread(g.start);
      var found := format.read(h);
      n := |found|;
      var i := 0;
      while i < n
        invariant 0 <= i <= n == |found|
        invariant block[..i] == found[..i]
      {
        block[i] := found[i];
        i := i + 1;
      }
    }

    method WriteHead()
      requires Sound() && Storable(Entries())
      modifies dev
      ensures Sound() && dev.pinned == old(dev.pinned) && |dev.blocks| == |old(dev.blocks)|
      ensures Decode(format, dev.blocks, g) == Decode(format, old(dev.blocks), g).(head := Entries())
      ensures dev.history == old(dev.history) + [dev.blocks]
    {
      var h := dev.Bread(g.start);
      DecodeHead(format, dev.blocks, g, format.write(h, block[..n]));
      dev.Bwrite(g.start, format.write(h, block[..n]));
      assert dev.pinned == old(dev.pinned);
    }

    // ---------------------------------------------------------------- commit and recovery

    method WriteLog(ghost data: seq<B>)
      requires Valid()
      requires |data| == n && forall i :: 0 <= i < n ==> data[i] == dev.View(block[i])
      modifies dev
      ensures Valid() && dev.pinned == old(dev.pinned)
      ensures dev.blocks == Copied(old(dev.blocks), g, data, n)
      ensures dev.history == old(dev.history) + CopyTrace(old(dev.blocks), g, data, n)
    {
      var tail := 0;
      while tail < n
        invariant 0 <= tail <= n
        invariant Valid() && dev.pinned == old(dev.pinned)
        invariant dev.blocks == Copied(old(dev.blocks), g, data, tail)
        invariant dev.history == old(dev.history) + CopyTrace(old(dev.blocks), g, data, tail)
      {
        var from := dev.Bread(block[tail]);
        assert from == data[tail];
        dev.Bwrite(g.start + tail + 1, from);
        assert dev.pinned == old(dev.pinned);
        tail := tail + 1;
      }
    }

    /** One turn of the loop in `install_trans`. */
    method InstallBlock(tail: nat)
      requires Valid() && tail < n
      modifies dev
      ensures Valid()
      ensures dev.pinned == old(dev.pinned) - {Entries()[tail]}
      ensures dev.blocks == old(dev.blocks)[Entries()[tail] := old(dev.blocks)[g.start + tail + 1]]
      ensures dev.history == old(dev.history) + [dev.blocks]
    {
      var lbuf := dev.Bread(g.start + tail + 1);
      assert block[tail] == Entries()[tail];
      dev.Bwrite(block[tail], lbuf);
    }

    method InstallTrans()
      requires Valid()
      modifies dev
      ensures Valid()
      ensures dev.pinned == Unpinned(old(dev.pinned), Entries(), n)
      ensures dev.blocks == Installed(old(dev.blocks), g, Entries(), n)
      ensures dev.history == old(dev.history) + InstallTrace(old(dev.blocks), g, Entries(), n)
    {
      ghost var entries := Entries();
      var tail := 0;
      while tail < n
        invariant 0 <= tail <= n && Entries() == entries
        invariant Valid()
        invariant dev.pinned == Unpinned(old(dev.pinned), entries, tail)
        invariant dev.blocks == Installed(old(dev.blocks), g, entries, tail)
        invariant dev.history == old(dev.history) + InstallTrace(old(dev.blocks), g, entries, tail)
      {
        InstallBlock(tail);
        tail := tail + 1;
      }
    }
  
  
    /** What `commit` and `recover_from_log` end with: install, then erase the transaction. */
    method InstallAndErase() returns (ghost trace: seq<seq<B>>)
      requires Valid() && Decode(format, dev.blocks, g).head == Entries()
      modifies this`n, dev
      ensures Sound() && n == 0 && |dev.blocks| == |old(dev.blocks)|
      ensures dev.pinned == Unpinned(old(dev.pinned), old(Entries()), old(n))
      ensures Decode(format, dev.blocks, g) == Recovered(Decode(format, old(dev.blocks), g), g)
      ensures trace == InstallAndClear(old(dev.blocks), g, old(Entries()), dev.blocks)
      ensures dev.history == old(dev.history) + trace[1..]
    {
      ghost var raw, e, h := dev.blocks, Entries(), dev.history;
      InstallTrans();
      DecodeInstalled(format, raw, g, e, n);
      n := 0;
      assert Entries() == [];
      WriteHead();
      trace := InstallAndClear(raw, g, e, dev.blocks);
      assert trace[1..] == InstallTrace(raw, g, e, |e|) + [dev.blocks];
    }

    /** The part of `commit` up to the commit point. */
    method LogAndPublish(ghost data: seq<B>)
      requires Valid()
      requires |data| == n && forall i :: 0 <= i < n ==> data[i] == dev.View(block[i])
      modifies dev
      ensures Valid() && |dev.blocks| == |old(dev.blocks)| && dev.pinned == old(dev.pinned)
      ensures Decode(format, dev.blocks, g) == HeadWritten(Decode(format, old(dev.blocks), g), g, Entries(), data)
      ensures dev.history == old(dev.history) + CopyTrace(old(dev.blocks), g, data, n) + [dev.blocks]
    {
      DecodeCopied(format, dev.blocks, g, data, n);
      WriteLog(data);
      WriteHead();
    }

    /** `commit`: the disk goes through exactly the states of `CommitState`, one per write. */
    method Commit() returns (ghost trace: seq<seq<B>>)
      requires Valid() && Decode(format, dev.blocks, g).head == []
      modifies this`n, dev
      ensures Sound() && n == 0 && |dev.blocks| == |old(dev.blocks)|
      ensures Decode(format, dev.blocks, g).head == []
      ensures dev.pinned == Unpinned(old(dev.pinned), old(Entries()), old(n))
      ensures dev.history == old(dev.history) + trace
      ensures old(n) == 0 ==> dev.blocks == old(dev.blocks) && trace == []
      ensures old(n) > 0 ==> |trace| == 2 * old(n) + 2 && dev.blocks == trace[2 * old(n) + 1]
      ensures forall j :: 0 <= j < |trace| ==>
        && |trace[j]| == |dev.blocks|
        && Decode(format, trace[j], g) == CommitState(Decode(format, old(dev.blocks), g), g, old(Entries()),
             Latest(old(dev.blocks), old(dev.pinned), old(Entries())), j + 1)
    {
      if n == 0 {
        return [];
      }
      ghost var raw, e, h := dev.blocks, Entries(), dev.history;
      ghost var data := Latest(dev.blocks, dev.pinned, e);
      LogAndPublish(data);
      ghost var raw2 := dev.blocks;
      ghost var rest := InstallAndErase();
      trace := CommitTrace(raw, g, e, data, raw2, dev.blocks);
      CommitTraceExtends(h, raw, g, e, data, raw2, dev.blocks);
      forall j | 0 <= j < |trace|
        ensures |trace[j]| == |raw|
        ensures Decode(format, trace[j], g) == CommitState(Decode(format, raw, g), g, e, data, j + 1)
      {
        CommitTraceDecodes(format, raw, g, e, data, raw2, dev.blocks, j);
      }
    }

    /** `recover_from_log`: the disk goes through exactly the states of `RecoveryState`. */
    method RecoverFromLog() returns (ghost trace: seq<seq<B>>)
      requires Sound() && dev.pinned == map[]
      requires Recoverable(Decode(format, dev.blocks, g), g) && Storable(Decode(format, dev.blocks, g).head)
      modifies this`n, block, dev
      ensures Sound() && n == 0 && dev.pinned == map[] && |dev.blocks| == |old(dev.blocks)|
      ensures Decode(format, dev.blocks, g) == Recovered(Decode(format, old(dev.blocks), g), g)
      ensures |trace| == |Decode(format, old(dev.blocks), g).head| + 2 && trace[0] == old(dev.blocks)
      ensures dev.history == old(dev.history) + trace[1..]
      ensures forall j :: 0 <= j < |trace| ==>
        && |trace[j]| == |dev.blocks|
        && Decode(format, trace[j], g) == RecoveryState(Decode(format, old(dev.blocks), g), g, j)
    {
      ReadHead();
      ghost var raw, e := dev.blocks, Entries();
      trace := InstallAndErase();
      forall j | 0 <= j < |trace|
        ensures |trace[j]| == |raw| && Decode(format, trace[j], g) == RecoveryState(Decode(format, raw, g), g, j)
      {
        InstallAndClearDecodes(format, raw, g, dev.blocks, j);
      }
    }
  }
}
