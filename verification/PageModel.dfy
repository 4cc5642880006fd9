/** vm.c and kalloc.c: two-level page tables as in section 4.3 of the Intel 64 and IA-32 Architectures Software
    Developer's Manual, Volume 3A (32-bit paging), over a list of free page frames. Frames and virtual
    pages are numbered; a virtual page is a directory index and a table index. */
module PageModel {
  import opened Basics
  import opened Sealed

  const NENTRIES := 1024
  const USERDIRS := 512            // directory entries below KERNBASE

  /** A directory or table entry: a frame number and twelve flag bits, of which the lowest is PTE_P. */
  datatype Entry = Entry(frame: nat, flags: nat)

  predicate P(e: Entry) {
    e.flags % 2 == 1
  }

  /** `flags | PTE_P`. */
  function WithP(flags: nat): nat {
    if flags % 2 == 1 then flags else flags + 1
  }

  /** What a frame is used for. A Held frame has been taken from the list and not put to use. */
  datatype Role = Free | Held | Dir | Table(d: nat, i: nat) | Data(d: nat, i: nat, j: nat)

  type Tables = map<nat, seq<Entry>>
  type Owners = map<nat, Role>

  function Zeros(): (z: seq<Entry>)
    ensures |z| == NENTRIES && forall k :: 0 <= k < NENTRIES ==> z[k] == Entry(0, 0)
  {
    seq(NENTRIES, _ => Entry(0, 0))
  }

  function Ent(tables: Tables, f: nat, i: nat): Entry {
    if f in tables && i < |tables[f]| then tables[f][i] else Entry(0, 0)
  }

  /** What the hardware makes of page (i, j) in the address space of directory `d`. */
  function View(tables: Tables, d: nat, i: nat, j: nat): Option<Entry> {
    var pde := Ent(tables, d, i);
    if P(pde) && P(Ent(tables, pde.frame, j)) then Some(Ent(tables, pde.frame, j)) else None
  }

  predicate Is(owner: Owners, f: nat, r: Role) {
    f in owner && owner[f] == r
  }

  /** Directories and tables have 1024 entries; a table hangs from the one directory entry that it is for. */
  ghost predicate TreeOk(tables: Tables, owner: Owners) {
    && (forall f :: f in owner && (owner[f].Dir? || owner[f].Table?) ==> f in tables && |tables[f]| == NENTRIES)
    && (forall d, i {:trigger Ent(tables, d, i)} :: Is(owner, d, Dir) && 0 <= i < NENTRIES && P(Ent(tables, d, i)) ==>
          Is(owner, Ent(tables, d, i).frame, Table(d, i)))
    && forall t :: t in owner && owner[t].Table? ==>
         Is(owner, owner[t].d, Dir) && owner[t].i < NENTRIES && P(Ent(tables, owner[t].d, owner[t].i))
           && Ent(tables, owner[t].d, owner[t].i).frame == t
  }

  /** A frame of user memory is mapped in one place, the one that it is for. */
  ghost predicate DataOk(tables: Tables, owner: Owners) {
    && (forall t, j {:trigger Ent(tables, t, j)} ::
        t in owner && owner[t].Table? && owner[t].i < USERDIRS && 0 <= j < NENTRIES && P(Ent(tables, t, j)) ==>
          Is(owner, Ent(tables, t, j).frame, Data(owner[t].d, owner[t].i, j)))
    && forall f :: f in owner && owner[f].Data? ==>
         && Is(owner, owner[f].d, Dir) && owner[f].i < USERDIRS && owner[f].j < NENTRIES
         && View(tables, owner[f].d, owner[f].i, owner[f].j).Some?
             && View(tables, owner[f].d, owner[f].i, owner[f].j).value.frame == f
  }

  ghost predicate SpaceOk(tables: Tables, owner: Owners) {
    TreeOk(tables, owner) && DataOk(tables, owner)
  }

  /** Two memories look the same from every directory, except perhaps at page (i, j) of `d`. */
  ghost predicate SameViews(owner: Owners, tables: Tables, tables': Tables, d: nat, i: nat, j: nat) {
    forall e, k, l {:trigger View(tables', e, k, l)} ::
      Is(owner, e, Dir) && 0 <= k < NENTRIES && 0 <= l < NENTRIES && !(e == d && k == i && l == j) ==>
      View(tables', e, k, l) == View(tables, e, k, l)
  }

  // ------------------------------------------------------------------ a new table

  function WithTable(tables: Tables, d: nat, i: nat, t: nat): Tables
    requires d in tables && i < |tables[d]|
  {
    tables[t := Zeros()][d := tables[d][i := Entry(t, 7)]]
  }

  lemma AddTable(tables: Tables, owner: Owners, d: nat, i: nat, t: nat)
    requires SpaceOk(tables, owner) && Is(owner, d, Dir) && i < NENTRIES && !P(Ent(tables, d, i)) && Is(owner, t, Held)
    ensures var tables', owner' := WithTable(tables, d, i, t), owner[t := Table(d, i)];
      && SpaceOk(tables', owner')
      && forall e, k, l {:trigger View(tables', e, k, l)} ::
          Is(owner, e, Dir) && 0 <= k < NENTRIES && 0 <= l < NENTRIES ==>
           View(tables', e, k, l) == View(tables, e, k, l)
  {
    var tables', owner' := WithTable(tables, d, i, t), owner[t := Table(d, i)];
    AddTableEnts(tables, owner, d, i, t);
    AddTableTree(tables, owner, d, i, t);
    forall e, k, l | Is(owner, e, Dir) && 0 <= k < NENTRIES && 0 <= l < NENTRIES
      ensures View(tables', e, k, l) == View(tables, e, k, l)
    {
      AddTableView(tables, owner, d, i, t, e, k, l);
    }
    AddTableData(tables, owner, d, i, t);
  }

  lemma AddTableEnts(tables: Tables, owner: Owners, d: nat, i: nat, t: nat)
    requires TreeOk(tables, owner) && Is(owner, d, Dir) && i < NENTRIES && Is(owner, t, Held)
    ensures var tables' := WithTable(tables, d, i, t);
      forall f, k {:trigger Ent(tables', f, k)} :: 0 <= k < NENTRIES ==>
        Ent(tables', f, k)
          == if f == d && k == i then Entry(t, 7) else if f == t then Entry(0, 0) else Ent(tables, f, k)
  {
  }

  lemma AddTableTree(tables: Tables, owner: Owners, d: nat, i: nat, t: nat)
    requires TreeOk(tables, owner) && Is(owner, d, Dir) && i < NENTRIES && !P(Ent(tables, d, i)) && Is(owner, t, Held)
    ensures TreeOk(WithTable(tables, d, i, t), owner[t := Table(d, i)])
  {
    AddTableEnts(tables, owner, d, i, t);
  }

  lemma AddTableView(tables: Tables, owner: Owners, d: nat, i: nat, t: nat, e: nat, k: nat, l: nat)
    requires TreeOk(tables, owner) && Is(owner, d, Dir) && i < NENTRIES && !P(Ent(tables, d, i)) && Is(owner, t, Held)
    requires Is(owner, e, Dir) && k < NENTRIES && l < NENTRIES
    ensures View(WithTable(tables, d, i, t), e, k, l) == View(tables, e, k, l)
  {
    AddTableEnts(tables, owner, d, i, t);
    assert P(Ent(tables, e, k)) ==> Is(owner, Ent(tables, e, k).frame, Table(e, k));
  }

  lemma AddTableData(tables: Tables, owner: Owners, d: nat, i: nat, t: nat)
    requires SpaceOk(tables, owner) && Is(owner, d, Dir) && i < NENTRIES && !P(Ent(tables, d, i)) && Is(owner, t, Held)
    ensures DataOk(WithTable(tables, d, i, t), owner[t := Table(d, i)])
  {
    var tables', owner' := WithTable(tables, d, i, t), owner[t := Table(d, i)];
    AddTableEnts(tables, owner, d, i, t);
    forall f | f in owner' && owner'[f].Data?
      ensures View(tables', owner'[f].d, owner'[f].i, owner'[f].j)
        == View(tables, owner'[f].d, owner'[f].i, owner'[f].j)
    {
      AddTableView(tables, owner, d, i, t, owner[f].d, owner[f].i, owner[f].j);
    }
  }

  // ------------------------------------------------------------------ one table entry

  function WithEntry(tables: Tables, t: nat, j: nat, x: Entry): Tables
    requires t in tables && j < |tables[t]|
  {
    tables[t := tables[t][j := x]]
  }

  /** `t` is the table that (i, j) of `d` is in. */
  ghost predicate TableFor(tables: Tables, owner: Owners, d: nat, i: nat, j: nat, t: nat) {
    TreeOk(tables, owner) && Is(owner, t, Table(d, i)) && j < NENTRIES
  }

  lemma EntryView(tables: Tables, owner: Owners, d: nat, i: nat, j: nat, t: nat, x: Entry)
    requires TableFor(tables, owner, d, i, j, t)
    ensures var tables' := WithEntry(tables, t, j, x);
      && (forall f, k {:trigger Ent(tables', f, k)} ::
          Ent(tables', f, k) == if f == t && k == j then x else Ent(tables, f, k))
      && View(tables', d, i, j) == (if P(x) then Some(x) else None)
      && SameViews(owner, tables, tables', d, i, j)
  {
    var tables' := WithEntry(tables, t, j, x);
    forall e, k, l | Is(owner, e, Dir) && 0 <= k < NENTRIES && 0 <= l < NENTRIES && !(e == d && k == i && l == j)
      ensures View(tables', e, k, l) == View(tables, e, k, l)
    {
      assert P(Ent(tables, e, k)) ==> Is(owner, Ent(tables, e, k).frame, Table(e, k));
    }
  }

  /** Frames that are neither directory nor table do not matter to the tree. */
  lemma EntryTree(tables: Tables, owner: Owners, d: nat, i: nat, j: nat, t: nat, x: Entry, f: nat, r: Role)
    requires TableFor(tables, owner, d, i, j, t) && f in owner && (owner[f].Held? || owner[f].Data?)
    requires r.Held? || r.Data?
    ensures TreeOk(WithEntry(tables, t, j, x), owner[f := r]) && TreeOk(WithEntry(tables, t, j, x), owner)
  {
    EntryView(tables, owner, d, i, j, t, x);
  }

  lemma MapUser(tables: Tables, owner: Owners, d: nat, i: nat, j: nat, t: nat, f: nat, flags: nat)
    requires SpaceOk(tables, owner) && TableFor(tables, owner, d, i, j, t) && i < USERDIRS && !P(Ent(tables, t, j))
    requires Is(owner, f, Held) && flags % 2 == 1
    ensures SpaceOk(WithEntry(tables, t, j, Entry(f, flags)), owner[f := Data(d, i, j)])
  {
    var tables', owner' := WithEntry(tables, t, j, Entry(f, flags)), owner[f := Data(d, i, j)];
    EntryView(tables, owner, d, i, j, t, Entry(f, flags));
    EntryTree(tables, owner, d, i, j, t, Entry(f, flags), f, Data(d, i, j));
    forall g | g in owner' && owner'[g].Data? && g != f
      ensures View(tables', owner'[g].d, owner'[g].i, owner'[g].j)
        == View(tables, owner'[g].d, owner'[g].i, owner'[g].j)
    {
      assert View(tables, d, i, j) == None;
    }
  }

  lemma MapKernel(tables: Tables, owner: Owners, d: nat, i: nat, j: nat, t: nat, x: Entry)
    requires SpaceOk(tables, owner) && TableFor(tables, owner, d, i, j, t) && i >= USERDIRS
    ensures SpaceOk(WithEntry(tables, t, j, x), owner)
  {
    var tables' := WithEntry(tables, t, j, x);
    EntryView(tables, owner, d, i, j, t, x);
    forall g | g in owner && owner[g].Data?
      ensures View(tables', owner[g].d, owner[g].i, owner[g].j) == View(tables, owner[g].d, owner[g].i, owner[g].j)
    {
    }
  }

  lemma Unmap(tables: Tables, owner: Owners, d: nat, i: nat, j: nat, t: nat)
    requires SpaceOk(tables, owner) && TableFor(tables, owner, d, i, j, t) && i < USERDIRS && P(Ent(tables, t, j))
    ensures Is(owner, Ent(tables, t, j).frame, Data(d, i, j))
    ensures SpaceOk(WithEntry(tables, t, j, Entry(0, 0)), owner[Ent(tables, t, j).frame := Held])
  {
    var f := Ent(tables, t, j).frame;
    var tables', owner' := WithEntry(tables, t, j, Entry(0, 0)), owner[f := Held];
    EntryView(tables, owner, d, i, j, t, Entry(0, 0));
    EntryTree(tables, owner, d, i, j, t, Entry(0, 0), f, Held);
    forall g | g in owner' && owner'[g].Data?
      ensures View(tables', owner'[g].d, owner'[g].i, owner'[g].j)
        == View(tables, owner'[g].d, owner'[g].i, owner'[g].j)
    {
      assert View(tables, d, i, j).value.frame == f;
    }
  }

  // ------------------------------------------------------------------ memory

  type Bytes = seq<nat>

  /** The free list, the frames in use as tables, and the bytes of the other frames in use. */
  datatype Mem = Mem(free: seq<nat>, tables: Tables, pages: map<nat, Bytes>)

  /** The list has each free frame once. */
  ghost predicate FreeOk(free: seq<nat>, owner: Owners) {
    && Distinct(free)
    && (forall i :: 0 <= i < |free| ==> Is(owner, free[i], Free))
    && forall f :: f in owner && owner[f] == Free ==> f in free
  }

  ghost predicate PagesOk(pages: map<nat, Bytes>, owner: Owners) {
    0 !in owner && forall f :: f in owner && owner[f].Data? ==> f in pages
  }

  /** The whole invariant. */
  ghost predicate MemOk(m: Mem, owner: Owners) {
    SpaceOk(m.tables, owner) && FreeOk(m.free, owner) && PagesOk(m.pages, owner)
  }

  ghost function Health(m: Mem, owner: Owners): Status {
    if forall k {:trigger Open(k)} :: k == 0 ==> MemOk(m, owner) then Sound else Broken
  }

  /** Every directory's view of memory is the same. */
  ghost predicate AllViews(owner: Owners, tables: Tables, tables': Tables) {
    forall e, k, l {:trigger View(tables', e, k, l)} :: Is(owner, e, Dir) && 0 <= k < NENTRIES && 0 <= l < NENTRIES ==>
      View(tables', e, k, l) == View(tables, e, k, l)
  }

  /** Changing the use of a frame that is not part of any address space. */
  lemma SpareRole(tables: Tables, owner: Owners, f: nat, r: Role)
    requires SpaceOk(tables, owner) && f in owner && (owner[f].Free? || owner[f].Held?) && (r.Free? || r.Held?)
    ensures SpaceOk(tables, owner[f := r])
  {
  }

  function AfterAlloc(m: Mem): Mem
    requires m.free != []
  {
    m.(free := m.free[1..])
  }

  lemma AllocAll(m: Mem, owner: Owners)
    requires Health(m, owner) == Sound && m.free != []
    ensures Is(owner, m.free[0], Free) && m.free[0] > 0
    ensures Health(AfterAlloc(m), owner[m.free[0] := Held]) == Sound
  {
    assert Open(0);
    SpareRole(m.tables, owner, m.free[0], Held);
    assert forall i :: 0 <= i < |m.free[1..]| ==> m.free[1..][i] == m.free[i + 1];
  }

  /** The frame's contents are lost. */
  function AfterFree(m: Mem, f: nat): Mem {
    Mem([f] + m.free, m.tables - {f}, m.pages - {f})
  }

  lemma FreeAll(m: Mem, owner: Owners, f: nat)
    requires Health(m, owner) == Sound && Is(owner, f, Held)
    ensures Health(AfterFree(m, f), owner[f := Free]) == Sound
    ensures AllViews(owner, m.tables, m.tables - {f})
  {
    assert Open(0);
    SpareRole(m.tables, owner, f, Free);
    FreeSpace(m.tables, owner, f);
    assert f !in m.free;
  }

  lemma FreeSpace(tables: Tables, owner: Owners, f: nat)
    requires SpaceOk(tables, owner) && Is(owner, f, Held)
    ensures SpaceOk(tables - {f}, owner[f := Free]) && AllViews(owner, tables, tables - {f})
  {
    var tables', owner' := tables - {f}, owner[f := Free];
    assert forall g, k {:trigger Ent(tables', g, k)} :: g != f ==> Ent(tables', g, k) == Ent(tables, g, k);
    forall e, k, l | Is(owner, e, Dir) && 0 <= k < NENTRIES && 0 <= l < NENTRIES
      ensures View(tables', e, k, l) == View(tables, e, k, l)
    {
      assert P(Ent(tables, e, k)) ==> Is(owner, Ent(tables, e, k).frame, Table(e, k));
    }
    FreeTree(tables, owner, f);
  }

  lemma FreeTree(tables: Tables, owner: Owners, f: nat)
    requires TreeOk(tables, owner) && Is(owner, f, Held)
    ensures TreeOk(tables - {f}, owner[f := Free])
  {
    assert forall g, k {:trigger Ent(tables - {f}, g, k)} :: g != f ==> Ent(tables - {f}, g, k) == Ent(tables, g, k);
  }

  lemma TableAll(m: Mem, owner: Owners, d: nat, i: nat, t: nat)
    requires Health(m, owner) == Sound && Is(owner, d, Dir) && i < NENTRIES && !P(Ent(m.tables, d, i))
    requires Is(owner, t, Held)
    ensures d in m.tables && |m.tables[d]| == NENTRIES
    ensures Health(m.(tables := WithTable(m.tables, d, i, t)), owner[t := Table(d, i)]) == Sound
    ensures AllViews(owner, m.tables, WithTable(m.tables, d, i, t))
    ensures Ent(WithTable(m.tables, d, i, t), d, i) == Entry(t, 7)
    ensures forall k {:trigger Ent(WithTable(m.tables, d, i, t), d, k)} :: 0 <= k < NENTRIES && k != i ==>
      Ent(WithTable(m.tables, d, i, t), d, k) == Ent(m.tables, d, k)
  {
    assert Open(0);
    AddTableEnts(m.tables, owner, d, i, t);
    AddTable(m.tables, owner, d, i, t);
  }

  /** The same directory entries are present. */
  ghost predicate SameDir(tables: Tables, tables': Tables, d: nat) {
    forall k {:trigger Ent(tables', d, k)} :: 0 <= k < NENTRIES ==> P(Ent(tables', d, k)) == P(Ent(tables, d, k))
  }

  /** The same, and the entry for table `i`. */
  ghost predicate DirPlus(tables: Tables, tables': Tables, d: nat, i: nat) {
    forall k {:trigger Ent(tables', d, k)} :: 0 <= k < NENTRIES ==>
      P(Ent(tables', d, k)) == (k == i || P(Ent(tables, d, k)))
  }

  lemma MapAll(m: Mem, owner: Owners, d: nat, i: nat, j: nat, t: nat, f: nat, flags: nat)
    requires Health(m, owner) == Sound && Is(owner, t, Table(d, i)) && j < NENTRIES && !P(Ent(m.tables, t, j))
    requires flags % 2 == 1
    requires i < USERDIRS ==> Is(owner, f, Held) && f in m.pages
    ensures t in m.tables && |m.tables[t]| == NENTRIES
    ensures var tables' := WithEntry(m.tables, t, j, Entry(f, flags));
      && Health(m.(tables := tables'), if i < USERDIRS then owner[f := Data(d, i, j)] else owner) == Sound
      && SameViews(owner, m.tables, tables', d, i, j) && View(m.tables, d, i, j) == None
          && View(tables', d, i, j) == Some(Entry(f, flags))
      && SameDir(m.tables, tables', d)
  {
    assert Open(0);
    EntryView(m.tables, owner, d, i, j, t, Entry(f, flags));
    if i < USERDIRS {
      MapUser(m.tables, owner, d, i, j, t, f, flags);
    } else {
      MapKernel(m.tables, owner, d, i, j, t, Entry(f, flags));
    }
  }

  lemma UnmapAll(m: Mem, owner: Owners, d: nat, i: nat, j: nat, t: nat)
    requires Health(m, owner) == Sound && Is(owner, t, Table(d, i)) && j < NENTRIES && i < USERDIRS
    requires P(Ent(m.tables, t, j))
    ensures t in m.tables && |m.tables[t]| == NENTRIES
    ensures var f, tables' := Ent(m.tables, t, j).frame, WithEntry(m.tables, t, j, Entry(0, 0));
      && Is(owner, f, Data(d, i, j)) && f > 0
      && Health(m.(tables := tables'), owner[f := Held]) == Sound
      && SameViews(owner, m.tables, tables', d, i, j) && View(tables', d, i, j) == None
  {
    assert Open(0);
    EntryView(m.tables, owner, d, i, j, t, Entry(0, 0));
    Unmap(m.tables, owner, d, i, j, t);
  }
}
