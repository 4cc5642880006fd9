/** fs.c: dirlookup and dirlink on a partition. */
module Directory {
  import opened Basics
  import opened Blocks
  import opened DirModel
  import opened Fs
  import opened FsHoles
  import opened FsModel
  import opened FsSteps
  import opened Sealed

  /** `namecmp(p, q) == 0`, by way of `strncmp`. */
  method SameName(p: seq<byte>, q: seq<byte>) returns (same: bool)
    ensures same <==> Key(p) == Key(q)
  {
    var i := 0;
    while i < DIRSIZ && CharAt(p, i) != 0 && CharAt(p, i) == CharAt(q, i)
      invariant 0 <= i <= DIRSIZ
      invariant Equal(p, q, 0, DIRSIZ) <==> Equal(p, q, i, DIRSIZ)
    {
      i := i + 1;
    }
    same := i == DIRSIZ || CharAt(p, i) == CharAt(q, i);
    EqualIsSame(p, q, 0, DIRSIZ);
    assert p[0..] == p && q[0..] == q;
  }

  datatype Search = Result(found: Found) | NoBlocks      // NoBlocks: "balloc: out of blocks"

  /** The entries before `k` have been read since `s0`: no file has changed, and their blocks are there. */
  ghost predicate Reading(f: Words, s0: Store, s: Store, dp: nat, k: nat) {
    Unchanged(f, s0, s) == Sound && Furnishing(f, s0, s, dp, 0, BlockEnd(0, ENTRY * k)) == Sound
  }

  lemma ReadingStart(f: Words, s: Store, dp: nat)
    requires Shape(s) && dp < |s.inodes|
    ensures Reading(f, s, s, dp, 0)
  {
    assert SameImages(f, s, s);
    assert Furnished(f, s, s, dp, 0, 0);
  }

  lemma ReadingFile(f: Words, s0: Store, s: Store, dp: nat)
    requires Unchanged(f, s0, s) == Sound && Shape(s0) && dp < |s0.inodes|
    ensures Shape(s) && |s.inodes| == |s0.inodes| && s.inodes[dp].size == s0.inodes[dp].size
    ensures s0.inodes[dp].size <= MAXFILE * BSIZE ==> File(f, s, dp) == File(f, s0, dp)
  {
    assert Open(0);
  }

  lemma EntrySpan(k: nat)
    ensures var off := ENTRY * k;
      off / BSIZE <= BlockEnd(0, off) <= BlockEnd(off, ENTRY) && BlockEnd(0, off + ENTRY) == BlockEnd(off, ENTRY)
  {
  }

  lemma ReadingMore(f: Words, s0: Store, s1: Store, s2: Store, dp: nat, k: nat)
    requires Reading(f, s0, s1, dp, k) && SameImages(f, s1, s2)
    requires Furnishing(f, s1, s2, dp, ENTRY * k / BSIZE, BlockEnd(ENTRY * k, ENTRY)) == Sound
    ensures Reading(f, s0, s2, dp, k + 1)
  {
    EntrySpan(k);
    FurnishMore(f, s0, s1, s2, dp, 0, BlockEnd(0, ENTRY * k), ENTRY * k / BSIZE, BlockEnd(ENTRY * k, ENTRY));
    StillSame(f, s0, s1, s2);
  }

  lemma StillSame(f: Words, s0: Store, s1: Store, s2: Store)
    requires Unchanged(f, s0, s1) == Sound && SameImages(f, s1, s2)
    ensures Unchanged(f, s0, s2) == Sound
  {
    assert Open(0);
    SameImagesTrans(f, s0, s1, s2);
  }

  lemma ReadingShort(f: Words, s0: Store, s1: Store, dp: nat, k: nat)
    requires Reading(f, s0, s1, dp, k) && Shape(s0) && Shape(s1) && dp < |s0.inodes| == |s1.inodes|
    requires s1.inodes[dp].size == s0.inodes[dp].size <= MAXFILE * BSIZE && ENTRY * k < s0.inodes[dp].size
    requires var m := Min(ENTRY, s0.inodes[dp].size - ENTRY * k);
      Clear(s1.bitmap) < NeedBlocks(f, s1, dp, ENTRY * k / BSIZE, BlockEnd(ENTRY * k, m))
    ensures Clear(s0.bitmap) < NeedBlocks(f, s0, dp, 0, Ceil(s0.inodes[dp].size))
  {
    EntrySpan(k);
    var off, size := ENTRY * k, s0.inodes[dp].size;
    var m := Min(ENTRY, size - off);
    assert BlockEnd(off, m) == BlockEnd(off, ENTRY) <= Ceil(size);
    FurnishShort(f, s0, s1, dp, 0, BlockEnd(0, off), off / BSIZE, BlockEnd(off, m), Ceil(size));
  }

  /** What the bytes of an entry say. */
  lemma EntryHere(d: seq<byte>, name: seq<byte>, k: nat, de: seq<byte>)
    requires ENTRY * k + ENTRY <= |d| && de == d[ENTRY * k..ENTRY * k + ENTRY]
    ensures var low: nat, high: nat := de[0], de[1]; Inum(d, k) == low + 256 * high
    ensures NameIn(d, k) == de[2..] && (Equal(name, NameIn(d, k), 0, DIRSIZ) <==> Key(name) == Key(de[2..]))
  {
    assert NameIn(d, k) == de[2..];
    EqualIsSame(name, de[2..], 0, DIRSIZ);
    assert name[0..] == name && de[2..][0..] == de[2..];
  }

  /** One entry of the directory, unless blocks run out. */
  method ReadEntry(p: Partition, dp: nat, k: nat, ghost s0: Store) returns (ok: bool, de: seq<byte>)
    requires p.Valid() && dp < |p.inodes| && Shape(s0) && dp < |s0.inodes| && Reading(p.words, s0, p.Snapshot(), dp, k)
    requires ENTRY * k < p.inodes[dp].size <= MAXFILE * BSIZE
    modifies p
    ensures p.Valid() && s0.inodes[dp].size == old(p.inodes[dp].size)
    ensures !ok ==> Clear(s0.bitmap) < NeedBlocks(p.words, s0, dp, 0, Ceil(s0.inodes[dp].size))
    ensures ok ==> dp < |p.inodes| && p.inodes[dp].size == old(p.inodes[dp].size)
    ensures ok ==> var d := File(p.words, s0, dp); de == d[ENTRY * k..Min(ENTRY * k + ENTRY, |d|)]
    ensures ok ==> Unchanged(p.words, s0, p.Snapshot()) == Sound
    ensures ok && |de| == ENTRY ==> Reading(p.words, s0, p.Snapshot(), dp, k + 1)
    ensures ok && Whole(p.words, old(p.Snapshot())) == Sound ==> p.Snapshot() == old(p.Snapshot())
  {
    ghost var s1 := p.Snapshot();
    ReadingFile(p.words, s0, s1, dp);
    var r, log;
    r, de, log := p.ReadI(dp, ENTRY * k, ENTRY);
    if r.Panicked? {
      ReadingShort(p.words, s0, s1, dp, k);
      return false, [];
    }
    StillSame(p.words, s0, s1, p.Snapshot());
    if |de| == ENTRY {
      ReadingMore(p.words, s0, s1, p.Snapshot(), dp, k);
    }
    if Whole(p.words, s1) == Sound {
      WholeReads(p.words, s1, dp, ENTRY * k, r.n);
    }
    ok := true;
  }

  /** What an entry contributes to the search. */
  lemma LookupStep(d: seq<byte>, name: seq<byte>, k: nat, de: seq<byte>)
    requires ENTRY * k < |d| && de == d[ENTRY * k..Min(ENTRY * k + ENTRY, |d|)]
    ensures |de| != ENTRY ==> Lookup(d, name, k) == Torn
    ensures |de| == ENTRY ==>
      var low: nat, high: nat := de[0], de[1];
      var inum := low + 256 * high;
      Lookup(d, name, k) ==
        if inum != 0 && Key(name) == Key(de[2..]) then At(k, inum) else Lookup(d, name, k + 1)
  {
    if |de| == ENTRY {
      EntryHere(d, name, k, de);
    }
  }

  /** The body of the loop of `dirlookup`. */
  method MatchEntry(p: Partition, dp: nat, k: nat, name: seq<byte>, ghost s0: Store) returns (r: Option<Search>)
    requires p.Valid() && dp < |p.inodes| && Shape(s0) && dp < |s0.inodes| && Reading(p.words, s0, p.Snapshot(), dp, k)
    requires ENTRY * k < p.inodes[dp].size <= MAXFILE * BSIZE
    modifies p
    ensures p.Valid() && s0.inodes[dp].size == old(p.inodes[dp].size)
    ensures r == Some(NoBlocks) ==> Clear(s0.bitmap) < NeedBlocks(p.words, s0, dp, 0, Ceil(s0.inodes[dp].size))
    ensures r != Some(NoBlocks) ==> Unchanged(p.words, s0, p.Snapshot()) == Sound
    ensures r.Some? && r.value.Result? ==> r.value.found == Lookup(File(p.words, s0, dp), name, k)
    ensures r.None? ==> Lookup(File(p.words, s0, dp), name, k) == Lookup(File(p.words, s0, dp), name, k + 1)
    ensures r.None? ==> dp < |p.inodes| && p.inodes[dp].size == old(p.inodes[dp].size)
    ensures r.None? ==> Reading(p.words, s0, p.Snapshot(), dp, k + 1)
    ensures r != Some(NoBlocks) && Whole(p.words, old(p.Snapshot())) == Sound ==> p.Snapshot() == old(p.Snapshot())
  {
    var ok, de := ReadEntry(p, dp, k, s0);
    if !ok {
      return Some(NoBlocks);
    }
    LookupStep(File(p.words, s0, dp), name, k, de);
    if |de| != ENTRY {
      return Some(Result(Torn));
    }
    var low: nat, high: nat := de[0], de[1];
    var same := SameName(name, de[2..]);
    if low + 256 * high != 0 && same {
      return Some(Result(At(k, low + 256 * high)));
    }
    return None;
  }

  /** `dirlookup` on a directory: what it finds is what the bytes of the file say; no file changes. It runs out of
      blocks only where blocks of the directory are not there and more than are free. */
  method DirLookup(p: Partition, dp: nat, name: seq<byte>) returns (r: Search)
    requires p.Valid() && dp < |p.inodes| && p.inodes[dp].size <= MAXFILE * BSIZE
    modifies p
    ensures p.Valid()
    ensures r.Result? ==> r.found == Lookup(old(File(p.words, p.Snapshot(), dp)), name, 0)
    ensures r.Result? ==> Unchanged(p.words, old(p.Snapshot()), p.Snapshot()) == Sound
    ensures r.NoBlocks? ==>
      Clear(old(p.bitmap)) < NeedBlocks(p.words, old(p.Snapshot()), dp, 0, Ceil(old(p.inodes[dp].size)))
    ensures Whole(p.words, old(p.Snapshot())) == Sound ==> r.Result? && p.Snapshot() == old(p.Snapshot())
  {
    ghost var s0, d := p.Snapshot(), File(p.words, p.Snapshot(), dp);
    ReadingStart(p.words, s0, dp);
    WholeNeeds(p.words, s0, dp);
    var k := 0;
    while ENTRY * k < p.inodes[dp].size
      invariant p.Valid() && dp < |p.inodes| && p.inodes[dp].size == |d| && Reading(p.words, s0, p.Snapshot(), dp, k)
      invariant Lookup(d, name, k) == Lookup(d, name, 0)
      invariant Whole(p.words, s0) == Sound ==> p.Snapshot() == s0
      decreases |d| - ENTRY * k
    {
      var x := MatchEntry(p, dp, k, name, s0);
      if x.Some? {
        return x.value;
      }
      k := k + 1;
    }
    r := Result(NotFound);
  }

  lemma WholeNeeds(f: Words, s: Store, dp: nat)
    requires Shape(s) && dp < |s.inodes| && s.inodes[dp].size <= MAXFILE * BSIZE
    ensures Whole(f, s) == Sound ==> NeedBlocks(f, s, dp, 0, Ceil(s.inodes[dp].size)) == 0
  {
    if Whole(f, s) == Sound {
      WholeReads(f, s, dp, 0, s.inodes[dp].size);
      assert BlockEnd(0, s.inodes[dp].size) == Ceil(s.inodes[dp].size);
    }
  }

  datatype LinkResult =
    | Entered          // 0
    | Exists           // -1
    | Panics           // "dirlink read", "dirlink", or "balloc: out of blocks"

  /** The body of the loop of `dirlink`. */
  method IsEmpty(p: Partition, dp: nat, k: nat, ghost s0: Store) returns (ok: bool, empty: bool)
    requires p.Valid() && dp < |p.inodes| && Shape(s0) && dp < |s0.inodes| && Reading(p.words, s0, p.Snapshot(), dp, k)
    requires s0.inodes[dp].size <= MAXFILE * BSIZE && IsDir(File(p.words, s0, dp))
    requires ENTRY * k < p.inodes[dp].size <= MAXFILE * BSIZE
    modifies p
    ensures p.Valid() && s0.inodes[dp].size == old(p.inodes[dp].size) && Within(File(p.words, s0, dp), k)
    ensures !ok ==> Clear(s0.bitmap) < NeedBlocks(p.words, s0, dp, 0, Ceil(s0.inodes[dp].size))
    ensures ok ==> (empty <==> Inum(File(p.words, s0, dp), k) == 0)
    ensures ok ==> dp < |p.inodes| && p.inodes[dp].size == old(p.inodes[dp].size)
    ensures ok ==> Reading(p.words, s0, p.Snapshot(), dp, k + 1)
    ensures ok && Whole(p.words, old(p.Snapshot())) == Sound ==> p.Snapshot() == old(p.Snapshot())
  {
    ghost var d := File(p.words, s0, dp);
    ReadingFile(p.words, s0, p.Snapshot(), dp);
    assert Within(d, k);
    var de;
    ok, de := ReadEntry(p, dp, k, s0);
    empty := false;
    if ok {
      EntryHere(d, [], k, de);
      empty := de[0] == 0 && de[1] == 0;
    }
  }

  /** The loop of `dirlink`: the first entry not in use, or one past the last. */
  method EmptyEntry(p: Partition, dp: nat, ghost d: seq<byte>) returns (ok: bool, k: nat)
    requires p.Valid() && dp < |p.inodes| && p.inodes[dp].size <= MAXFILE * BSIZE
    requires d == File(p.words, p.Snapshot(), dp) && IsDir(d)
    modifies p
    ensures p.Valid()
    ensures ok ==> k == FreeEntry(d, 0) && Unchanged(p.words, old(p.Snapshot()), p.Snapshot()) == Sound
    ensures ok ==> dp < |p.inodes| && p.inodes[dp].size == |d|
    ensures !ok ==>
      Clear(old(p.bitmap)) < NeedBlocks(p.words, old(p.Snapshot()), dp, 0, Ceil(old(p.inodes[dp].size)))
    ensures ok && Whole(p.words, old(p.Snapshot())) == Sound ==> p.Snapshot() == old(p.Snapshot())
  {
    ghost var s0 := p.Snapshot();
    ReadingStart(p.words, s0, dp);
    k := 0;
    while ENTRY * k < p.inodes[dp].size
      invariant p.Valid() && dp < |p.inodes| && p.inodes[dp].size == |d| && Reading(p.words, s0, p.Snapshot(), dp, k)
      invariant ENTRY * k <= |d| && FreeEntry(d, k) == FreeEntry(d, 0)
      invariant Whole(p.words, s0) == Sound ==> p.Snapshot() == s0
      decreases |d| - ENTRY * k
    {
      var empty;
      ok, empty := IsEmpty(p, dp, k, s0);
      if !ok || empty {
        return;
      }
      k := k + 1;
    }
    ok := true;
  }

  /** Writing an entry in its place, or at the end. */
  lemma PutIsWrite(d: seq<byte>, k: nat, e: seq<byte>)
    requires IsDir(d) && ENTRY * k <= |d| && |e| == ENTRY
    ensures Put(d, k, e) == WriteInto(d, ENTRY * k, e)
  {
  }

  lemma {:induction false} NotFoundIsDir(d: seq<byte>, name: seq<byte>, k: nat)
    requires Lookup(d, name, k) == NotFound && ENTRY * k <= |d|
    ensures IsDir(d)
    decreases |d| - ENTRY * k
  {
    if ENTRY * k < |d| {
      NotFoundIsDir(d, name, k + 1);
    }
  }

  /** Reading first, then writing. */
  lemma ReadThenWrote(f: Words, s0: Store, s1: Store, s2: Store, dp: nat, d: seq<byte>, off: nat, e: seq<byte>,
                      log: set<nat>, inodeBlock: nat)
    requires Shape(s0) && dp < |s0.inodes| && s0.inodes[dp].size <= MAXFILE * BSIZE && d == File(f, s0, dp)
    requires Unchanged(f, s0, s1) == Sound && WroteFile(f, s1, s2, dp, off, e, log, inodeBlock) && off <= |d|
    ensures File(f, s2, dp) == WriteInto(d, off, e) && OthersSame(f, s0, s2, dp)
  {
    ReadingFile(f, s0, s1, dp);
    assert Open(0);
  }

  /** When the directory will not take one more entry. */
  ghost predicate NoRoom(f: Words, s: Store, dp: nat, off: nat)
    requires Shape(s) && dp < |s.inodes|
  {
    off + ENTRY > MAXFILE * BSIZE
    || Clear(s.bitmap) < NeedBlocks(f, s, dp, off / BSIZE, BlockEnd(off, ENTRY))
  }

  /** `dirlink`: it refuses a name that is there; otherwise the directory has the entry, in the first place not in use
      or at its end, and no other file has changed. Without holes in files, and with a directory of whole entries, it
      panics exactly when there is no room for the entry. */
  method DirLink(p: Partition, dp: nat, name: seq<byte>, inum: nat) returns (r: LinkResult)
    requires p.Valid() && dp < |p.inodes| && p.inodes[dp].size <= MAXFILE * BSIZE
    modifies p
    ensures p.Valid()
    ensures r.Exists? ==> Lookup(old(File(p.words, p.Snapshot(), dp)), name, 0).At?
    ensures r.Exists? ==> Unchanged(p.words, old(p.Snapshot()), p.Snapshot()) == Sound
    ensures r.Entered? ==>
      var d := old(File(p.words, p.Snapshot(), dp));
      && IsDir(d) && Lookup(d, name, 0) == NotFound && Shape(p.Snapshot()) && dp < |p.inodes|
      && p.inodes[dp].size <= MAXFILE * BSIZE && File(p.words, p.Snapshot(), dp) == Linked(d, name, inum)
      && OthersSame(p.words, old(p.Snapshot()), p.Snapshot(), dp)
    ensures var d := old(File(p.words, p.Snapshot(), dp));
      Whole(p.words, old(p.Snapshot())) == Sound && IsDir(d) ==>
        (r.Panics? <==>
          Lookup(d, name, 0) == NotFound && NoRoom(p.words, old(p.Snapshot()), dp, ENTRY * FreeEntry(d, 0)))
  {
    ghost var s0, d := p.Snapshot(), File(p.words, p.Snapshot(), dp);
    if IsDir(d) {
      LookupFinds(d, name, 0);
    }
    var found := DirLookup(p, dp, name);
    if found.NoBlocks? || found.found.Torn? {
      return Panics;
    }
    if found.found.At? {
      return Exists;
    }
    NotFoundIsDir(d, name, 0);
    r := EnterAt(p, dp, name, inum, s0);
  }

  /** `dirlink`, once the name is known not to be there. */
  method EnterAt(p: Partition, dp: nat, name: seq<byte>, inum: nat, ghost s0: Store) returns (r: LinkResult)
    requires p.Valid() && Shape(s0) && dp < |s0.inodes| && s0.inodes[dp].size <= MAXFILE * BSIZE
    requires Unchanged(p.words, s0, p.Snapshot()) == Sound && IsDir(File(p.words, s0, dp))
    modifies p
    ensures p.Valid() && !r.Exists?
    ensures r.Entered? ==>
      var d := File(p.words, s0, dp);
      && Shape(p.Snapshot()) && dp < |p.inodes| && p.inodes[dp].size <= MAXFILE * BSIZE
      && File(p.words, p.Snapshot(), dp) == Linked(d, name, inum) && OthersSame(p.words, s0, p.Snapshot(), dp)
    ensures old(p.Snapshot()) == s0 && Whole(p.words, s0) == Sound ==>
      (r.Panics? <==> NoRoom(p.words, s0, dp, ENTRY * FreeEntry(File(p.words, s0, dp), 0)))
  {
    ghost var s1, d := p.Snapshot(), File(p.words, s0, dp);
    ReadingFile(p.words, s0, s1, dp);
    WholeNeeds(p.words, s1, dp);
    var ok, k := EmptyEntry(p, dp, d);
    if !ok {
      return Panics;
    }
    ghost var s2 := p.Snapshot();
    TwiceUnchanged(p.words, s0, s1, s2);
    var w;
    ghost var log;
    w, log := p.WriteI(dp, Dirent(inum, name), ENTRY * k);
    if !w.Done? {
      return Panics;
    }
    PutIsWrite(d, k, Dirent(inum, name));
    ReadThenWrote(p.words, s0, s2, p.Snapshot(), dp, d, ENTRY * k, Dirent(inum, name), log, p.InodeBlock(dp));
    r := Entered;
  }

  lemma TwiceUnchanged(f: Words, s0: Store, s1: Store, s2: Store)
    requires Unchanged(f, s0, s1) == Sound && Unchanged(f, s1, s2) == Sound
    ensures Unchanged(f, s0, s2) == Sound
  {
    assert Open(0);
    SameImagesTrans(f, s0, s1, s2);
  }
}
