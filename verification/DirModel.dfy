/** Directories as bytes: sixteen to an entry, an inode number and fourteen bytes of name (fs.h). What dirlookup
    finds, and what becomes of it under dirlink and unlink. */
module DirModel {
  import opened Blocks

  const DIRSIZ: nat := 14
  const ENTRY: nat := 16

  // ------------------------------------------------------------------ names

  /** A name as far as a directory goes: up to a NUL, and not past `n` bytes. */
  function Short(s: seq<byte>, n: nat): (r: seq<byte>)
    ensures |r| <= n && |r| <= |s|
  {
    if n == 0 || s == [] || s[0] == 0 then [] else [s[0]] + Short(s[1..], n - 1)
  }

  function Key(name: seq<byte>): seq<byte> {
    Short(name, DIRSIZ)
  }

  /** The byte at `i` of a C string, or of a field of fourteen bytes, with NUL after its end. */
  function CharAt(s: seq<byte>, i: nat): byte {
    if i < |s| then s[i] else 0
  }

  /** `strncmp(p, q, n) == 0`, from byte `i` on. */
  predicate Equal(p: seq<byte>, q: seq<byte>, i: nat, n: nat)
    requires i <= n
    decreases n - i
  {
    i == n || (CharAt(p, i) == CharAt(q, i) && (CharAt(p, i) == 0 || Equal(p, q, i + 1, n)))
  }

  /** It compares the names as far as they count. */
  lemma {:induction false} EqualIsSame(p: seq<byte>, q: seq<byte>, i: nat, n: nat)
    requires i <= n
    ensures var a, b := if i < |p| then p[i..] else [], if i < |q| then q[i..] else [];
      Equal(p, q, i, n) <==> Short(a, n - i) == Short(b, n - i)
    decreases n - i
  {
    if i < n {
      EqualIsSame(p, q, i + 1, n);
      ShortFrom(p, i, n);
      ShortFrom(q, i, n);
      Cancel(CharAt(p, i), CharAt(q, i), Short(if i + 1 < |p| then p[i + 1..] else [], n - i - 1),
             Short(if i + 1 < |q| then q[i + 1..] else [], n - i - 1));
    }
  }

  lemma Cancel(x: byte, y: byte, a: seq<byte>, b: seq<byte>)
    ensures [x] + a == [y] + b <==> x == y && a == b
  {
    assert ([x] + a)[1..] == a && ([y] + b)[1..] == b;
    assert ([x] + a)[0] == x && ([y] + b)[0] == y;
  }

  lemma ShortFrom(p: seq<byte>, i: nat, n: nat)
    requires i < n
    ensures var a, more := if i < |p| then p[i..] else [], if i + 1 < |p| then p[i + 1..] else [];
      Short(a, n - i) == if CharAt(p, i) == 0 then [] else [CharAt(p, i)] + Short(more, n - i - 1)
  {
    if i < |p| {
      assert p[i..][1..] == p[i + 1..];
    }
  }

  // ------------------------------------------------------------------ entries

  /** The entry that mkfs and dirlink write: the number, low byte first, and the name, cut or padded with NULs. */
  function Dirent(inum: nat, name: seq<byte>): (d: seq<byte>)
    ensures |d| == ENTRY
  {
    [inum % 256, inum / 256 % 256] + if |name| < DIRSIZ then name + ZeroBytes(DIRSIZ - |name|) else name[..DIRSIZ]
  }

  predicate IsDir(d: seq<byte>) {
    |d| % ENTRY == 0
  }

  predicate Within(d: seq<byte>, k: nat) {
    ENTRY * k + ENTRY <= |d|
  }

  /** The number in entry `k`, a `ushort`; 0 if the entry is not in use. */
  function Inum(d: seq<byte>, k: nat): (inum: nat)
    requires Within(d, k)
  {
    var lo: nat, hi: nat := d[ENTRY * k], d[ENTRY * k + 1];
    lo + 256 * hi
  }

  /** The name in entry `k`. */
  function NameIn(d: seq<byte>, k: nat): seq<byte>
    requires Within(d, k)
  {
    d[ENTRY * k + 2..ENTRY * k + ENTRY]
  }

  /** What an entry says: its number and its name as far as it counts; entries past the end are not in use. */
  datatype Mark = Mark(inum: nat, key: seq<byte>)

  function MarkOf(d: seq<byte>, k: nat): Mark {
    if Within(d, k) then Mark(Inum(d, k), Key(NameIn(d, k))) else Mark(0, [])
  }

  /** Entry `k` is in use and has that name. */
  predicate Matches(d: seq<byte>, name: seq<byte>, k: nat) {
    MarkOf(d, k).inum != 0 && MarkOf(d, k).key == Key(name)
  }

  // ------------------------------------------------------------------ dirlookup

  datatype Found = At(k: nat, inum: nat) | NotFound | Torn      // Torn: the panic "dirlink read"

  /** `dirlookup`, from entry `k` on. */
  function Lookup(d: seq<byte>, name: seq<byte>, k: nat): Found
    decreases |d| - ENTRY * k
  {
    if ENTRY * k >= |d| then NotFound
    else if ENTRY * k + ENTRY > |d| then Torn
    else if Inum(d, k) != 0 && Equal(name, NameIn(d, k), 0, DIRSIZ) then At(k, Inum(d, k))
    else Lookup(d, name, k + 1)
  }

  /** It finds the first entry in use that has the name, if there is one. */
  ghost predicate FirstMatch(d: seq<byte>, name: seq<byte>, k: nat, r: Found) {
    match r
    case At(j, inum) =>
      k <= j && Matches(d, name, j) && inum == MarkOf(d, j).inum && forall i: nat :: k <= i < j ==> !Matches(d, name, i)
    case NotFound => forall i: nat :: k <= i ==> !Matches(d, name, i)
    case Torn => false
  }

  lemma {:induction false} LookupFinds(d: seq<byte>, name: seq<byte>, k: nat)
    requires IsDir(d)
    ensures FirstMatch(d, name, k, Lookup(d, name, k))
    decreases |d| - ENTRY * k
  {
    if ENTRY * k < |d| {
      EqualIsSame(name, NameIn(d, k), 0, DIRSIZ);
      assert name[0..] == name && NameIn(d, k)[0..] == NameIn(d, k);
      LookupFinds(d, name, k + 1);
    }
  }

  lemma LookupIs(d: seq<byte>, name: seq<byte>, r: Found)
    requires IsDir(d) && FirstMatch(d, name, 0, r)
    ensures Lookup(d, name, 0) == r
  {
    LookupFinds(d, name, 0);
  }

  // ------------------------------------------------------------------ what an entry says

  lemma {:induction false} ShortCut(s: seq<byte>, n: nat)
    requires n <= |s|
    ensures Short(s[..n], n) == Short(s, n)
    decreases n
  {
    if n > 0 && s[0] != 0 {
      assert s[..n][1..] == s[1..][..n - 1];
      ShortCut(s[1..], n - 1);
    }
  }

  lemma {:induction false} ShortPadded(s: seq<byte>, m: nat, n: nat)
    ensures Short(s + ZeroBytes(m), n) == Short(s, n)
    decreases |s|
  {
    if s == [] {
      assert s + ZeroBytes(m) == ZeroBytes(m);
    } else if n > 0 && s[0] != 0 {
      assert (s + ZeroBytes(m))[1..] == s[1..] + ZeroBytes(m);
      ShortPadded(s[1..], m, n - 1);
    }
  }

  /** `d` has entry `e` as its `k`-th. */
  predicate HasEntry(d: seq<byte>, k: nat, e: seq<byte>) {
    Within(d, k) && d[ENTRY * k..ENTRY * k + ENTRY] == e
  }

  /** An entry is read as it was written, as far as sixteen bits and fourteen bytes go. */
  lemma EntryReads(d: seq<byte>, k: nat, inum: nat, name: seq<byte>)
    requires HasEntry(d, k, Dirent(inum, name)) && inum < 0x1_0000
    ensures MarkOf(d, k) == Mark(inum, Key(name))
  {
    var e := d[ENTRY * k..ENTRY * k + ENTRY];
    assert d[ENTRY * k] == e[0] && d[ENTRY * k + 1] == e[1] && NameIn(d, k) == e[2..];
    if |name| < DIRSIZ {
      assert e[2..] == name + ZeroBytes(DIRSIZ - |name|);
      ShortPadded(name, DIRSIZ - |name|, DIRSIZ);
    } else {
      assert e[2..] == name[..DIRSIZ];
      ShortCut(name, DIRSIZ);
    }
  }

  // ------------------------------------------------------------------ dirlink and unlink

  /** The first entry not in use, from entry `k` on, or one past the last. */
  function FreeEntry(d: seq<byte>, k: nat): (r: nat)
    requires IsDir(d) && ENTRY * k <= |d|
    ensures k <= r && ENTRY * r <= |d| && (ENTRY * r < |d| ==> Inum(d, r) == 0)
    ensures forall i: nat :: k <= i < r ==> Inum(d, i) != 0
    decreases |d| - ENTRY * k
  {
    if ENTRY * k == |d| || Inum(d, k) == 0 then k else FreeEntry(d, k + 1)
  }

  /** `d` with `e` as its `k`-th entry, which may be one past the last. */
  function Put(d: seq<byte>, k: nat, e: seq<byte>): (r: seq<byte>)
    requires IsDir(d) && ENTRY * k <= |d| && |e| == ENTRY
    ensures IsDir(r) && HasEntry(r, k, e)
  {
    d[..ENTRY * k] + e + if ENTRY * k == |d| then [] else d[ENTRY * k + ENTRY..]
  }

  /** What dirlink leaves when the name is not there. */
  function Linked(d: seq<byte>, name: seq<byte>, inum: nat): seq<byte>
    requires IsDir(d)
  {
    Put(d, FreeEntry(d, 0), Dirent(inum, name))
  }

  /** Only that entry changes. */
  lemma PutMarks(d: seq<byte>, k: nat, e: seq<byte>, i: nat)
    requires IsDir(d) && ENTRY * k <= |d| && |e| == ENTRY && i != k
    ensures MarkOf(Put(d, k, e), i) == MarkOf(d, i)
  {
    if Within(d, i) {
      assert NameIn(Put(d, k, e), i) == NameIn(d, i);
    }
  }

  lemma PutOthers(d: seq<byte>, k: nat, e: seq<byte>)
    requires IsDir(d) && ENTRY * k <= |d| && |e| == ENTRY
    ensures forall i: nat :: i != k ==> MarkOf(Put(d, k, e), i) == MarkOf(d, i)
  {
    forall i: nat | i != k ensures MarkOf(Put(d, k, e), i) == MarkOf(d, i) {
      PutMarks(d, k, e, i);
    }
  }

  /** `r` is `d` but for entry `k`, which says `m`. */
  ghost predicate Changed(d: seq<byte>, r: seq<byte>, k: nat, m: Mark) {
    MarkOf(r, k) == m && forall i: nat :: i != k ==> MarkOf(r, i) == MarkOf(d, i)
  }

  /** What is found then: entry `k`, if it says the name and nothing before it does, or else what was found before,
      if that was not entry `k`. */
  lemma FoundThen(d: seq<byte>, r: seq<byte>, k: nat, m: Mark, name: seq<byte>)
    requires IsDir(d) && IsDir(r) && Changed(d, r, k, m)
    ensures m.inum != 0 && m.key == Key(name) && Lookup(d, name, 0) == NotFound ==> Lookup(r, name, 0) == At(k, m.inum)
    ensures (m.inum == 0 || m.key != Key(name)) && !Matches(d, name, k) ==> Lookup(r, name, 0) == Lookup(d, name, 0)
  {
    LookupFinds(d, name, 0);
    LookupFinds(r, name, 0);
    forall i: nat | i != k ensures Matches(r, name, i) <==> Matches(d, name, i) {
    }
    assert Matches(r, name, k) <==> m.inum != 0 && m.key == Key(name);
    if m.inum != 0 && m.key == Key(name) && Lookup(d, name, 0) == NotFound {
      LookupIs(r, name, At(k, m.inum));
    }
    if (m.inum == 0 || m.key != Key(name)) && !Matches(d, name, k) {
      LookupIs(r, name, Lookup(d, name, 0));
    }
  }

  /** No two entries in use have the same name. */
  ghost predicate NamesDiffer(d: seq<byte>) {
    forall i: nat, j: nat :: i < j && MarkOf(d, i).inum != 0 && MarkOf(d, j).inum != 0 ==>
      MarkOf(d, i).key != MarkOf(d, j).key
  }

  /** What a directory says of a name. */
  datatype Answer = Number(inum: nat) | Absent

  function Says(d: seq<byte>, name: seq<byte>): Answer {
    match Lookup(d, name, 0)
    case At(_, inum) => Number(inum)
    case _ => Absent
  }

  /** After dirlink the name is found with its number, and every other name as before; names still differ. */
  lemma LinkThenLookup(d: seq<byte>, name: seq<byte>, inum: nat, other: seq<byte>)
    requires IsDir(d) && 0 < inum < 0x1_0000 && Says(d, name) == Absent
    ensures var r := Linked(d, name, inum);
      && IsDir(r) && Says(r, other) == (if Key(other) == Key(name) then Number(inum) else Says(d, other))
      && (NamesDiffer(d) ==> NamesDiffer(r))
  {
    var k, e := FreeEntry(d, 0), Dirent(inum, name);
    var r := Put(d, k, e);
    LookupFinds(d, name, 0);
    EntryReads(r, k, inum, name);
    PutOthers(d, k, e);
    assert MarkOf(d, k).inum == 0;
    assert Changed(d, r, k, Mark(inum, Key(name)));
    SameKey(d, name, other, 0);
    FoundThen(d, r, k, Mark(inum, Key(name)), other);
    if NamesDiffer(d) {
      StillDiffer(d, r, k, name, inum);
    }
  }

  /** Names with the same key are found alike. */
  lemma SameKey(d: seq<byte>, a: seq<byte>, b: seq<byte>, k: nat)
    requires IsDir(d) && ENTRY * k <= |d|
    ensures Key(a) == Key(b) ==> Lookup(d, a, k) == Lookup(d, b, k)
  {
    LookupFinds(d, a, k);
    LookupFinds(d, b, k);
    if Key(a) == Key(b) {
      forall i: nat ensures Matches(d, a, i) <==> Matches(d, b, i) {
      }
    }
  }

  lemma StillDiffer(d: seq<byte>, r: seq<byte>, k: nat, name: seq<byte>, inum: nat)
    requires NamesDiffer(d) && Changed(d, r, k, Mark(inum, Key(name))) && FirstMatch(d, name, 0, NotFound)
    ensures NamesDiffer(r)
  {
    forall i: nat, j: nat | i < j && MarkOf(r, i).inum != 0 && MarkOf(r, j).inum != 0
      ensures MarkOf(r, i).key != MarkOf(r, j).key
    {
      assert !Matches(d, name, i) && !Matches(d, name, j);
    }
  }

  /** After unlink the name is not found, and every other name as before. */
  lemma UnlinkThenLookup(d: seq<byte>, name: seq<byte>, other: seq<byte>)
    requires IsDir(d) && NamesDiffer(d) && Lookup(d, name, 0).At?
    ensures Within(d, Lookup(d, name, 0).k)
    ensures var r := Put(d, Lookup(d, name, 0).k, ZeroBytes(ENTRY));
      && IsDir(r) && |r| == |d| && NamesDiffer(r)
      && Says(r, other) == (if Key(other) == Key(name) then Absent else Says(d, other))
  {
    LookupFinds(d, name, 0);
    var k := Lookup(d, name, 0).k;
    var r := Put(d, k, ZeroBytes(ENTRY));
    PutOthers(d, k, ZeroBytes(ENTRY));
    ZeroEntry(r, k);
    assert Changed(d, r, k, MarkOf(r, k));
    FoundThen(d, r, k, MarkOf(r, k), other);
    if Key(other) == Key(name) {
      assert FirstMatch(r, other, 0, NotFound) by {
        forall i: nat ensures !Matches(r, other, i) {
          assert MarkOf(d, i).inum != 0 && i != k ==> MarkOf(d, i).key != MarkOf(d, k).key;
        }
      }
      LookupIs(r, other, NotFound);
    }
  }

  lemma ZeroEntry(d: seq<byte>, k: nat)
    requires HasEntry(d, k, ZeroBytes(ENTRY))
    ensures MarkOf(d, k).inum == 0
  {
    var e := d[ENTRY * k..ENTRY * k + ENTRY];
    assert d[ENTRY * k] == e[0] && d[ENTRY * k + 1] == e[1];
  }

  // ------------------------------------------------------------------ over a run

  const DOT: seq<byte> := [46]
  const DOTDOT: seq<byte> := [46, 46]

  datatype Op = Link(name: seq<byte>, inum: nat) | Unlink(name: seq<byte>)

  predicate OpOk(op: Op) {
    op.Link? ==> 0 < op.inum < 0x1_0000
  }

  /** dirlink, which refuses a name that is there, or unlink, which refuses `.` and `..`. */
  function Step(d: seq<byte>, op: Op): seq<byte>
    requires IsDir(d)
  {
    match op
    case Link(name, inum) => if Lookup(d, name, 0).At? then d else Linked(d, name, inum)
    case Unlink(name) =>
      var r := Lookup(d, name, 0);
      if Key(name) == DOT || Key(name) == DOTDOT || !r.At? || !Within(d, r.k) then d else Put(d, r.k, ZeroBytes(ENTRY))
  }

  function RunOps(d: seq<byte>, ops: seq<Op>): (r: seq<byte>)
    requires IsDir(d)
    ensures IsDir(r)
    decreases |ops|
  {
    if ops == [] then d else StepIsDir(d, ops[0]); RunOps(Step(d, ops[0]), ops[1..])
  }

  lemma StepIsDir(d: seq<byte>, op: Op)
    requires IsDir(d)
    ensures IsDir(Step(d, op))
  {
  }

  /** The same on a map from names to numbers. */
  function MapStep(m: map<seq<byte>, nat>, op: Op): map<seq<byte>, nat> {
    match op
    case Link(name, inum) => if Key(name) in m then m else m[Key(name) := inum]
    case Unlink(name) => if Key(name) == DOT || Key(name) == DOTDOT then m else m - {Key(name)}
  }

  function MapOps(m: map<seq<byte>, nat>, ops: seq<Op>): map<seq<byte>, nat>
    decreases |ops|
  {
    if ops == [] then m else MapOps(MapStep(m, ops[0]), ops[1..])
  }

  /** The directory is the map. */
  ghost predicate Stands(d: seq<byte>, m: map<seq<byte>, nat>) {
    && IsDir(d) && NamesDiffer(d)
    && forall name :: Says(d, name) == if Key(name) in m then Number(m[Key(name)]) else Absent
  }

  lemma StepStands(d: seq<byte>, m: map<seq<byte>, nat>, op: Op)
    requires Stands(d, m) && OpOk(op)
    ensures Stands(Step(d, op), MapStep(m, op))
  {
    var r := Step(d, op);
    LookupFinds(d, op.name, 0);
    assert Says(d, op.name) == if Key(op.name) in m then Number(m[Key(op.name)]) else Absent;
    var n := MapStep(m, op);
    forall name ensures Says(r, name) == if Key(name) in n then Number(n[Key(name)]) else Absent {
      assert Says(d, name) == if Key(name) in m then Number(m[Key(name)]) else Absent;
      Answers(d, op, name);
    }
    Answers(d, op, op.name);
  }

  lemma Answers(d: seq<byte>, op: Op, other: seq<byte>)
    requires IsDir(d) && NamesDiffer(d) && OpOk(op)
    ensures var r := Step(d, op);
      && IsDir(r) && NamesDiffer(r)
      && Says(r, other) == match op {
           case Link(name, inum) =>
             if Says(d, name) == Absent && Key(other) == Key(name) then Number(inum) else Says(d, other)
           case Unlink(name) =>
             if Key(other) == Key(name) && Key(name) != DOT && Key(name) != DOTDOT then Absent else Says(d, other)
         }
  {
    LookupFinds(d, op.name, 0);
    SameKey(d, op.name, other, 0);
    match op
    case Link(name, inum) =>
      if Says(d, name) == Absent {
        LinkThenLookup(d, name, inum, other);
      }
    case Unlink(name) =>
      if Lookup(d, name, 0).At? {
        UnlinkThenLookup(d, name, other);
      }
  }

  /** After any sequence of dirlinks and unlinks a directory answers as the map does that they make. */
  lemma {:induction false} DirectoryIsMap(d: seq<byte>, m: map<seq<byte>, nat>, ops: seq<Op>)
    requires Stands(d, m) && forall i :: 0 <= i < |ops| ==> OpOk(ops[i])
    ensures Stands(RunOps(d, ops), MapOps(m, ops))
    decreases |ops|
  {
    if ops != [] {
      StepStands(d, m, ops[0]);
      DirectoryIsMap(Step(d, ops[0]), MapStep(m, ops[0]), ops[1..]);
    }
  }
}
