/** What the on-disk log means (log.c): the disk states that recovery and commit pass through, one
    per single-block write, and the theorem that a crash in any of them leaves either every home
    block of the transaction old or every one new. All of it holds for any block type `B`; the
    header block is kept decoded here, and module LogHeader ties it to the bytes. */
module LogDisk {
  import opened Basics
  import opened LogBook

  /** `head` is the decoded content of the header block, `blocks[b]` the content of any other. */
  datatype Disk<B> = Disk(head: seq<nat>, blocks: seq<B>)

  /** Where the log lives: header at `start`, `size - 1` data blocks after it. */
  datatype Region = Region(start: nat, size: nat)

  predicate InLog(g: Region, b: nat) {
    g.start <= b < g.start + g.size
  }

  ghost predicate SameHome<B>(d1: Disk<B>, d2: Disk<B>, g: Region) {
    && |d1.blocks| == |d2.blocks|
    && forall b :: 0 <= b < |d1.blocks| && !InLog(g, b) ==> d1.blocks[b] == d2.blocks[b]
  }

  /** A transaction's block numbers on a disk of `total` blocks: distinct home blocks, few enough
      for the region. */
  ghost predicate GoodEntries(total: nat, g: Region, entries: seq<nat>) {
    && g.start + g.size <= total
    && |entries| < g.size
    && |entries| <= LOGSIZE
    && Distinct(entries)
    && forall i :: 0 <= i < |entries| ==> entries[i] < total && !InLog(g, entries[i])
  }

  ghost predicate Recoverable<B>(d: Disk<B>, g: Region) {
    GoodEntries(|d.blocks|, g, d.head)
  }

  // ------------------------------------------------------------------ recovery

  /** The disk after `install_trans` has copied the first `k` log blocks home. */
  ghost function Installed<B>(blocks: seq<B>, g: Region, entries: seq<nat>, k: nat): (r: seq<B>)
    requires GoodEntries(|blocks|, g, entries) && k <= |entries|
    ensures |r| == |blocks|
  {
    if k == 0 then blocks else
      var r := Installed(blocks, g, entries, k - 1);
      r[entries[k - 1] := r[g.start + k]]
  }

  lemma {:induction false} InstalledBlocks<B>(blocks: seq<B>, g: Region, entries: seq<nat>, k: nat)
    requires GoodEntries(|blocks|, g, entries) && k <= |entries|
    ensures forall i :: 0 <= i < k ==> Installed(blocks, g, entries, k)[entries[i]] == blocks[g.start + 1 + i]
    ensures forall b :: 0 <= b < |blocks| && b !in entries[..k] ==> Installed(blocks, g, entries, k)[b] == blocks[b]
  {
    if k > 0 {
      InstalledBlocks(blocks, g, entries, k - 1);
      assert entries[..k] == entries[..k - 1] + [entries[k - 1]];
      assert g.start + k !in entries[..k - 1];
    }
  }

  /** What `recover_from_log` leaves when it runs to the end. */
  ghost function Recovered<B>(d: Disk<B>, g: Region): (r: Disk<B>)
    requires Recoverable(d, g)
    ensures |r.blocks| == |d.blocks|
  {
    Disk([], Installed(d.blocks, g, d.head, |d.head|))
  }

  /** Installing leaves the log blocks alone, so it can start over. */
  lemma InstallRestarts<B>(d: seq<B>, g: Region, entries: seq<nat>, j: nat)
    requires GoodEntries(|d|, g, entries) && j <= |entries|
    ensures Installed(Installed(d, g, entries, j), g, entries, |entries|) == Installed(d, g, entries, |entries|)
  {
    var dj := Installed(d, g, entries, j);
    var r1, r2 := Installed(dj, g, entries, |entries|), Installed(d, g, entries, |entries|);
    forall b | 0 <= b < |d| ensures r1[b] == r2[b] {
      InstallRestartsAt(d, dj, g, entries, j, b);
    }
  }

  lemma InstallRestartsAt<B>(d: seq<B>, dj: seq<B>, g: Region, entries: seq<nat>, j: nat, b: nat)
    requires GoodEntries(|d|, g, entries) && j <= |entries| && b < |d|
    requires dj == Installed(d, g, entries, j)
    ensures Installed(dj, g, entries, |entries|)[b] == Installed(d, g, entries, |entries|)[b]
  {
    InstalledBlocks(d, g, entries, j);
    InstalledBlocks(d, g, entries, |entries|);
    InstalledBlocks(dj, g, entries, |entries|);
    assert entries[..|entries|] == entries;
    if b in entries {
      var i :| 0 <= i < |entries| && entries[i] == b;
      assert g.start + 1 + i !in entries[..j];
    } else {
      assert b !in entries[..j];
    }
  }

  /** The disk after the first `j` single-block writes of `recover_from_log`. */
  ghost function RecoveryState<B>(d: Disk<B>, g: Region, j: nat): (r: Disk<B>)
    requires Recoverable(d, g) && j <= |d.head| + 1
    ensures |r.blocks| == |d.blocks|
  {
    if j <= |d.head| then d.(blocks := Installed(d.blocks, g, d.head, j)) else Recovered(d, g)
  }

  /** Recovery is idempotent: cut off after any write and started again, it ends the same. */
  lemma RecoveryRestarts<B>(d: Disk<B>, g: Region, j: nat)
    requires Recoverable(d, g) && j <= |d.head| + 1
    ensures Recoverable(RecoveryState(d, g, j), g)
    ensures Recovered(RecoveryState(d, g, j), g) == Recovered(d, g)
  {
    if j <= |d.head| {
      InstallRestarts(d.blocks, g, d.head, j);
    }
  }

  /** Any number of crashes during recovery: each disk in the chain is what some interrupted
      recovery of the one before left behind. */
  ghost predicate CrashChain<B>(disks: seq<Disk<B>>, cuts: seq<nat>, g: Region) {
    && |disks| == |cuts| + 1
    && Recoverable(disks[0], g)
    && forall i :: 0 <= i < |cuts| ==>
         && Recoverable(disks[i], g)
         && cuts[i] <= |disks[i].head| + 1
         && disks[i + 1] == RecoveryState(disks[i], g, cuts[i])
  }

  lemma {:induction false} RecoveryAfterAnyCrashes<B>(disks: seq<Disk<B>>, cuts: seq<nat>, g: Region)
    requires CrashChain(disks, cuts, g)
    ensures Recoverable(disks[|cuts|], g) && Recovered(disks[|cuts|], g) == Recovered(disks[0], g)
    decreases |cuts|
  {
    if cuts != [] {
      var k := |cuts| - 1;
      RecoveryAfterAnyCrashes(disks[..k + 1], cuts[..k], g);
      RecoveryRestarts(disks[k], g, cuts[k]);
    }
  }

  // ------------------------------------------------------------------ commit

  /** The disk after `write_log` has copied the first `k` blocks into the log. */
  ghost function Copied<B>(blocks: seq<B>, g: Region, data: seq<B>, k: nat): (r: seq<B>)
    requires g.start + g.size <= |blocks| && k <= |data| < g.size
    ensures |r| == |blocks|
    ensures forall b :: 0 <= b < |blocks| && !(g.start < b <= g.start + k) ==> r[b] == blocks[b]
    ensures forall i :: 0 <= i < k ==> r[g.start + 1 + i] == data[i]
  {
    if k == 0 then blocks else Copied(blocks, g, data, k - 1)[g.start + k := data[k - 1]]
  }

  /** ... and after the `write_head` that follows: the commit point. */
  ghost function HeadWritten<B>(d: Disk<B>, g: Region, entries: seq<nat>, data: seq<B>): (r: Disk<B>)
    requires GoodEntries(|d.blocks|, g, entries) && |data| == |entries|
    ensures |r.blocks| == |d.blocks|
  {
    Disk(entries, Copied(d.blocks, g, data, |data|))
  }

  /** The disk after the first `j` of the `2 * n + 2` writes of `commit`. */
  ghost function CommitState<B>(d: Disk<B>, g: Region, entries: seq<nat>, data: seq<B>, j: nat): (r: Disk<B>)
    requires GoodEntries(|d.blocks|, g, entries) && |data| == |entries| && j <= 2 * |entries| + 2
    ensures |r.blocks| == |d.blocks|
  {
    var n := |entries|;
    if j <= n then d.(blocks := Copied(d.blocks, g, data, j))
    else RecoveryState(HeadWritten(d, g, entries, data), g, j - n - 1)
  }

  /** Home contents after the transaction: `data[i]` at `entries[i]`, everything else as in `d`. */
  ghost predicate IsAfter<B>(r: Disk<B>, d: Disk<B>, g: Region, entries: seq<nat>, data: seq<B>)
    requires |data| == |entries|
  {
    && |r.blocks| == |d.blocks|
    && (forall i :: 0 <= i < |entries| ==> entries[i] < |d.blocks| && r.blocks[entries[i]] == data[i])
    && forall b :: 0 <= b < |d.blocks| && !InLog(g, b) && b !in entries ==> r.blocks[b] == d.blocks[b]
  }

  lemma HeadWrittenRecovers<B>(d: Disk<B>, g: Region, entries: seq<nat>, data: seq<B>)
    requires GoodEntries(|d.blocks|, g, entries) && |data| == |entries|
    ensures var h := HeadWritten(d, g, entries, data);
      Recoverable(h, g) && IsAfter(Recovered(h, g), d, g, entries, data)
  {
    var h := HeadWritten(d, g, entries, data);
    InstalledBlocks(h.blocks, g, entries, |entries|);
    assert entries[..|entries|] == entries;
  }

  /** Crash atomicity of `commit`: cut off after any of its writes and recovered, every home block
      has its old value, up to the last write before the header; from the header write on every
      block of the transaction has its new value and every other block its old one. */
  lemma CommitIsAtomic<B>(d: Disk<B>, g: Region, entries: seq<nat>, data: seq<B>, j: nat)
    requires GoodEntries(|d.blocks|, g, entries) && |data| == |entries| && j <= 2 * |entries| + 2
    requires d.head == []
    ensures var c := CommitState(d, g, entries, data, j);
      && Recoverable(c, g)
      && (j <= |entries| ==> SameHome(Recovered(c, g), d, g))
      && (j > |entries| ==> IsAfter(Recovered(c, g), d, g, entries, data))
  {
    var n := |entries|;
    if j > n {
      var h := HeadWritten(d, g, entries, data);
      HeadWrittenRecovers(d, g, entries, data);
      RecoveryRestarts(h, g, j - n - 1);
    }
  }

  /** The whole story: `commit` is cut off after any number of writes, the recovery that follows is
      itself cut off any number of times, and the next one that finishes yields all of the
      transaction exactly when the header had been written, and none of it otherwise. */
  lemma CrashAnywhereThenRecover<B>(d: Disk<B>, g: Region, entries: seq<nat>, data: seq<B>, j: nat,
                                    disks: seq<Disk<B>>, cuts: seq<nat>)
    requires GoodEntries(|d.blocks|, g, entries) && |data| == |entries| && j <= 2 * |entries| + 2
    requires d.head == []
    requires CrashChain(disks, cuts, g) && disks[0] == CommitState(d, g, entries, data, j)
    ensures var last := disks[|cuts|];
      && Recoverable(last, g)
      && (j <= |entries| ==> SameHome(Recovered(last, g), d, g))
      && (j > |entries| ==> IsAfter(Recovered(last, g), d, g, entries, data))
  {
    CommitIsAtomic(d, g, entries, data, j);
    RecoveryAfterAnyCrashes(disks, cuts, g);
  }
}
