/** The root directory that mkfs writes, as dirlookup reads it. */
module RootDirectory {
  import opened Basics
  import opened Blocks
  import opened DirModel
  import opened Directory
  import opened Fs
  import opened FsHoles
  import opened FsSteps
  import opened Mkfs
  import opened MkfsLayout
  import opened MkfsModel

  /** The names that mkfs enters, in order. */
  function Entered(names: seq<seq<byte>>): seq<seq<byte>> {
    [DOT, DOTDOT] + names
  }

  /** The inode each gets: the root for the first two, then one after the other. */
  function NumberOf(k: nat): nat {
    if k < 2 then 1 else k
  }

  lemma {:induction false} RootEntry(names: seq<seq<byte>>, n: nat, k: nat)
    requires k < n + 2 && n <= |names|
    ensures HasEntry(RootBytes(names, n), k, Dirent(NumberOf(k), Entered(names)[k]))
    decreases n
  {
    var d := RootBytes(names, n);
    if n == 0 {
      assert d[0..ENTRY] == Dirent(1, DOT) && d[ENTRY..2 * ENTRY] == Dirent(1, DOTDOT);
    } else if k == n + 1 {
      assert d[ENTRY * k..ENTRY * k + ENTRY] == Dirent(n + 1, names[n - 1]);
    } else {
      RootEntry(names, n - 1, k);
      assert d[ENTRY * k..ENTRY * k + ENTRY] == RootBytes(names, n - 1)[ENTRY * k..ENTRY * k + ENTRY];
    }
  }

  /** The bytes of the root directory, which are padded with zeros to a multiple of the block size. */
  function RootOf(names: seq<seq<byte>>): seq<byte> {
    var d := RootBytes(names, |names|);
    d + ZeroBytes((|d| / BSIZE + 1) * BSIZE - |d|)
  }

  lemma RootIsDir(names: seq<seq<byte>>)
    ensures IsDir(RootOf(names)) && |RootOf(names)| >= ENTRY * (|names| + 2)
  {
    var blocks := ENTRY * (|names| + 2) / BSIZE + 1;
    assert |RootOf(names)| == blocks * BSIZE == ENTRY * (32 * blocks);
  }

  /** What its entries say. */
  lemma RootMarks(names: seq<seq<byte>>, k: nat)
    requires |names| + 2 <= 0x1_0000
    ensures k < |names| + 2 ==> MarkOf(RootOf(names), k) == Mark(NumberOf(k), Key(Entered(names)[k]))
    ensures k >= |names| + 2 ==> MarkOf(RootOf(names), k).inum == 0
  {
    var d, r := RootBytes(names, |names|), RootOf(names);
    RootIsDir(names);
    if k < |names| + 2 {
      RootEntry(names, |names|, k);
      assert r[ENTRY * k..ENTRY * k + ENTRY] == d[ENTRY * k..ENTRY * k + ENTRY];
      EntryReads(r, k, NumberOf(k), Entered(names)[k]);
    } else if Within(r, k) {
      assert r[ENTRY * k] == 0 && r[ENTRY * k + 1] == 0;
    }
  }

  /** `k` is the first of the names that mkfs enters to agree with `name` in fourteen bytes. */
  ghost predicate FirstSuch(names: seq<seq<byte>>, name: seq<byte>, k: nat) {
    && k < |names| + 2 && Key(Entered(names)[k]) == Key(name)
    && forall i :: 0 <= i < k ==> Key(Entered(names)[i]) != Key(name)
  }

  /** dirlookup finds a name exactly if mkfs entered one that agrees with it in fourteen bytes, and then at the number
      of the first such. */
  lemma RootLookup(names: seq<seq<byte>>, name: seq<byte>)
    requires |names| + 2 <= 0x1_0000
    ensures forall k: nat :: Lookup(RootOf(names), name, 0) == At(k, NumberOf(k)) <==> FirstSuch(names, name, k)
    ensures Lookup(RootOf(names), name, 0) == NotFound <==>
      forall i :: 0 <= i < |names| + 2 ==> Key(Entered(names)[i]) != Key(name)
  {
    var r := RootOf(names);
    RootIsDir(names);
    LookupFinds(r, name, 0);
    forall i: nat
      ensures Matches(r, name, i) <==> i < |names| + 2 && Key(Entered(names)[i]) == Key(name)
      ensures Matches(r, name, i) ==> MarkOf(r, i).inum == NumberOf(i)
    {
      RootMarks(names, i);
    }
    forall k: nat | FirstSuch(names, name, k) ensures Lookup(r, name, 0) == At(k, NumberOf(k)) {
      assert Matches(r, name, k);
    }
  }

  /** Different in fourteen bytes from each other and from `.` and `..`. */
  ghost predicate TellApart(names: seq<seq<byte>>) {
    forall i, j :: 0 <= i < j < |names| + 2 ==> Key(Entered(names)[i]) != Key(Entered(names)[j])
  }

  lemma DotsDiffer()
    ensures Key(DOT) == DOT && Key(DOTDOT) == DOTDOT
  {
    assert DOT[1..] == [] && DOTDOT[1..] == [46] && [46 as byte][1..] == [];
    assert Short([46], 13) == [46] + Short([], 12);
  }

  lemma FoundAlways(names: seq<seq<byte>>, i: nat)
    requires |names| + 2 <= 0x1_0000 && i < |names|
    ensures Lookup(RootOf(names), names[i], 0) == At(i + 2, i + 2) <==> FirstSuch(names, names[i], i + 2)
  {
    RootLookup(names, names[i]);
    assert NumberOf(i + 2) == i + 2;
  }

  lemma FirstIffApart(names: seq<seq<byte>>)
    ensures TellApart(names) <==> forall i: nat :: i < |names| ==> FirstSuch(names, names[i], i + 2)
  {
    DotsDiffer();
    if TellApart(names) {
      forall i: nat | i < |names| ensures FirstSuch(names, names[i], i + 2) {
        assert Entered(names)[i + 2] == names[i];
      }
    }
    if forall i: nat :: i < |names| ==> FirstSuch(names, names[i], i + 2) {
      forall i, j | 0 <= i < j < |names| + 2 ensures Key(Entered(names)[i]) != Key(Entered(names)[j]) {
        if j >= 2 {
          assert FirstSuch(names, names[j - 2], j) && Entered(names)[j] == names[j - 2];
        }
      }
    }
  }

  /** Every file is found under its name if and only if the names can be told apart; `.` is always found at the root,
      and `..` too. */
  lemma EveryNameFound(names: seq<seq<byte>>)
    requires |names| + 2 <= 0x1_0000
    ensures TellApart(names) <==>
      forall i: nat :: i < |names| ==> Lookup(RootOf(names), names[i], 0) == At(i + 2, i + 2)
    ensures Says(RootOf(names), DOT) == Says(RootOf(names), DOTDOT) == Number(1)
  {
    FirstIffApart(names);
    forall i: nat | i < |names|
      ensures Lookup(RootOf(names), names[i], 0) == At(i + 2, i + 2) <==> FirstSuch(names, names[i], i + 2)
    {
      FoundAlways(names, i);
    }
    DotsFound(names);
  }

  lemma DotsFound(names: seq<seq<byte>>)
    requires |names| + 2 <= 0x1_0000
    ensures Says(RootOf(names), DOT) == Says(RootOf(names), DOTDOT) == Number(1)
  {
    DotsDiffer();
    RootLookup(names, DOT);
    RootLookup(names, DOTDOT);
    assert FirstSuch(names, DOT, 0) && FirstSuch(names, DOTDOT, 1);
  }

  /** These bytes are what the kernel sees as file 1, and at each number found it sees the file put in under that
      name. */
  lemma RootIsSeen(names: seq<seq<byte>>, data: seq<seq<byte>>, i: nat)
    requires |names| == |data|
    ensures RootOf(names) == Seen(FileSet(names, data, |data|), 1)
    ensures i < |data| ==> Seen(FileSet(names, data, |data|), i + 2) == data[i]
  {
  }

  /** So dirlink and unlink find a directory without doubles, as they need it, exactly then. */
  lemma RootNamesDiffer(names: seq<seq<byte>>)
    requires |names| + 2 <= 0x1_0000
    ensures NamesDiffer(RootOf(names)) <==> TellApart(names)
  {
    forall k: nat
      ensures k < |names| + 2 ==> MarkOf(RootOf(names), k) == Mark(NumberOf(k), Key(Entered(names)[k]))
      ensures k >= |names| + 2 ==> MarkOf(RootOf(names), k).inum == 0
    {
      RootMarks(names, k);
    }
    if NamesDiffer(RootOf(names)) {
      forall i, j | 0 <= i < j < |names| + 2 ensures Key(Entered(names)[i]) != Key(Entered(names)[j]) {
        assert MarkOf(RootOf(names), i).key != MarkOf(RootOf(names), j).key;
      }
    }
  }

  /** The kernel mounts a new partition and looks up a name in its root directory. */
  method FindByName(m: Maker, ghost names: seq<seq<byte>>, ghost data: seq<seq<byte>>, name: seq<byte>)
    returns (r: Found)
    requires |names| == |data| && |data| + 2 <= NINODES && m.Finished(FileSet(names, data, |data|)) && m.l.fssize < BPB
    ensures r == Lookup(RootOf(names), name, 0)
  {
    ghost var files, c := FileSet(names, data, |data|), RootOf(names);
    RootIsSeen(names, data, 0);
    RootIsDir(names);
    var p := Mount(m, m.l.offset, files);
    m.FinishedIs(files);
    MakingIsHealthy(m.words, m.Snap(), m.owner, m.Used(), m.Nblocks());
    FoundFile(m.Snap(), m.words, m.owner, m.Used(), m.Nblocks(), names, data, 1, 0, |c|);
    FoundNeed(m.words, m.Snap(), 1, c, 0, |c|, PastEntries(|names|, 1, 0, |c|), (|names| + 2) / 32);
    assert BlockEnd(0, |c|) == Ceil(|c|);
    var x := DirLookup(p, 1, name);
    r := x.found;
  }

  /** From mkfs to the kernel by name: what is read under a name is what was put in under the first name like it. */
  method OpenThenRead(m: Maker, ghost names: seq<seq<byte>>, ghost data: seq<seq<byte>>, name: seq<byte>, ghost i: nat,
                      off: nat, n: nat)
    returns (bytes: seq<byte>)
    requires |names| == |data| && |data| + 2 <= NINODES && m.Finished(FileSet(names, data, |data|)) && m.l.fssize < BPB
    requires i < |data| && FirstSuch(names, name, i + 2) && off <= |data[i]| && off + n < 0x1_0000_0000
    ensures bytes == data[i][off..off + Min(n, |data[i]| - off)]
  {
    var found := FindByName(m, names, data, name);
    RootLookup(names, name);
    assert found == At(i + 2, NumberOf(i + 2));
    RootIsSeen(names, data, i);
    var p, r, log;
    p, r, bytes, log := KernelReads(m, names, data, found.inum, off, n);
  }
}
