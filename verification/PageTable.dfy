/** vm.c and kalloc.c as code. */
module PageTable {
  import opened Basics
  import opened Sealed
  import opened PageModel

  const PGSIZE := 4096
  const USERPAGES := 0x8_0000      // pages below KERNBASE
  const KERNBASE := 0x8000_0000

  /** `PGROUNDUP(x)`, in pages. */
  function Pages(x: nat): (n: nat)
    ensures (n - 1) * PGSIZE < x <= n * PGSIZE || (x == 0 && n == 0)
  {
    (x + PGSIZE - 1) / PGSIZE
  }

  function DirOf(v: nat): nat {
    v / NENTRIES
  }

  function IndexOf(v: nat): (j: nat)
    ensures j < NENTRIES
  {
    v % NENTRIES
  }

  function PageAt(i: nat, j: nat): nat {
    i * NENTRIES + j
  }

  /** Page `v` as directory `d` sees it. */
  function Seen(tables: Tables, d: nat, v: nat): Option<Entry> {
    View(tables, d, DirOf(v), IndexOf(v))
  }

  lemma PageIs(v: nat)
    ensures PageAt(DirOf(v), IndexOf(v)) == v
  {
  }

  lemma PageParts(i: nat, j: nat)
    requires j < NENTRIES
    ensures DirOf(PageAt(i, j)) == i && IndexOf(PageAt(i, j)) == j
  {
  }

  /** The user part of the address space is pages 0 to n - 1. */
  ghost predicate Contiguous(tables: Tables, d: nat, n: nat) {
    n <= USERPAGES && forall v {:trigger Seen(tables, d, v)} :: 0 <= v < USERPAGES ==>
      (Seen(tables, d, v).Some? <==> v < n)
  }

  ghost function Layout(tables: Tables, d: nat, n: nat): Status {
    if forall k {:trigger Open(k)} :: k == 0 ==> Contiguous(tables, d, n) then Sound else Broken
  }

  ghost predicate User(tables: Tables, d: nat, n: nat) {
    Layout(tables, d, n) == Sound
  }

  /** Of the user pages from `lo` on, those before `a` are mapped. */
  ghost predicate MappedFrom(tables: Tables, d: nat, lo: nat, a: nat) {
    forall v {:trigger Seen(tables, d, v)} :: lo <= v < USERPAGES ==> (Seen(tables, d, v).Some? <==> v < a)
  }

  ghost function Tail(tables: Tables, d: nat, lo: nat, a: nat): Status {
    if forall k {:trigger Open(k)} :: k == 0 ==> MappedFrom(tables, d, lo, a) then Sound else Broken
  }

  /** No user page from `lo` on is mapped. */
  ghost predicate Bare(tables: Tables, d: nat, lo: nat) {
    Tail(tables, d, lo, lo) == Sound
  }

  /** Of the user pages from `lo` on, none from `n` on is mapped, and the others have tables, though some may be
      holes. */
  ghost predicate Tabled(tables: Tables, d: nat, lo: nat, n: nat) {
    && (forall v {:trigger Seen(tables, d, v)} :: lo <= v < USERPAGES && n <= v ==> Seen(tables, d, v) == None)
    && forall v: nat {:trigger DirOf(v)} :: lo <= v < USERPAGES && v < n ==> P(Ent(tables, d, DirOf(v)))
  }

  ghost function Reach(tables: Tables, d: nat, lo: nat, n: nat): Status {
    if forall k {:trigger Open(k)} :: k == 0 ==> Tabled(tables, d, lo, n) then Sound else Broken
  }

  /** Page `n` is the first that is not mapped. */
  ghost predicate FirstHole(tables: Tables, d: nat, n: nat) {
    && n <= USERPAGES && (n < USERPAGES ==> Seen(tables, d, n) == None)
    && forall v {:trigger Seen(tables, d, v)} :: 0 <= v < n ==> Seen(tables, d, v).Some?
  }

  ghost function Begins(tables: Tables, d: nat, n: nat): Status {
    if forall k {:trigger Open(k)} :: k == 0 ==> FirstHole(tables, d, n) then Sound else Broken
  }

  /** What a contiguous user part amounts to. */
  lemma UserIs(tables: Tables, d: nat, n: nat, lo: nat)
    requires User(tables, d, n)
    ensures n <= USERPAGES && Reach(tables, d, lo, n) == Sound && Begins(tables, d, n) == Sound
    ensures n <= lo ==> Bare(tables, d, lo)
  {
    assert Open(0);
    forall v: nat | lo <= v < USERPAGES && v < n ensures P(Ent(tables, d, DirOf(v))) {
      assert Seen(tables, d, v).Some?;
    }
    assert Tabled(tables, d, lo, n);
    assert FirstHole(tables, d, n);
    if n <= lo {
      assert MappedFrom(tables, d, lo, lo);
    }
  }

  lemma TailReach(tables: Tables, d: nat, lo: nat, a: nat)
    requires Tail(tables, d, lo, a) == Sound
    ensures Reach(tables, d, lo, a) == Sound
  {
    assert Open(0);
    forall v: nat | lo <= v < USERPAGES && v < a ensures P(Ent(tables, d, DirOf(v))) {
      assert Seen(tables, d, v).Some?;
    }
    assert Tabled(tables, d, lo, a);
  }

  /** Uses of frames stay, except that free frames may have become tables of `d`. */
  ghost predicate Grown(o: Owners, o': Owners, d: nat) {
    && (forall f :: f in o <==> f in o')
    && forall f :: f in o ==> o'[f] == o[f] || (o[f] == Free && o'[f].Table? && o'[f].d == d)
  }

  /** Every directory sees what it saw, except page `v` of `d`. */
  ghost predicate Elsewhere(o: Owners, tables: Tables, tables': Tables, d: nat, v: nat) {
    SameViews(o, tables, tables', d, DirOf(v), IndexOf(v))
  }

  datatype MapResult = Mapped | NoMemory | Remap

  lemma TableFound(m: Mem, owner: Owners, d: nat, i: nat)
    requires Health(m, owner) == Sound && Is(owner, d, Dir) && i < NENTRIES
    ensures d in m.tables && |m.tables[d]| == NENTRIES
    ensures P(m.tables[d][i]) ==> Is(owner, m.tables[d][i].frame, Table(d, i))
    ensures P(m.tables[d][i]) ==>
      m.tables[d][i].frame in m.tables && |m.tables[m.tables[d][i].frame]| == NENTRIES
  {
    assert Open(0);
    assert Ent(m.tables, d, i) == m.tables[d][i];
  }

  class Vm {
    var mem: Mem
    ghost var owner: Owners

    ghost predicate Valid()
      reads this
    {
      Health(mem, owner) == Sound
    }

    /** Memory as it stands. */
    constructor (mem: Mem, ghost owner: Owners)
      requires Health(mem, owner) == Sound
      ensures Valid() && this.mem == mem && this.owner == owner
    {
      this.mem, this.owner := mem, owner;
    }

    /** `kalloc`. */
    method Kalloc() returns (r: Option<nat>)
      requires Valid()
      modifies this
      ensures Valid()
      ensures r.None? <==> old(mem.free) == []
      ensures r.None? ==> mem == old(mem) && owner == old(owner)
      ensures r.Some? ==> r.value == old(mem.free)[0] && Is(old(owner), r.value, Free)
      ensures r.Some? ==> mem == AfterAlloc(old(mem)) && owner == old(owner)[r.value := Held]
    {
      if mem.free == [] {
        return None;
      }
      AllocAll(mem, owner);
      var f := mem.free[0];
      mem := mem.(free := mem.free[1..]);
      owner := owner[f := Held];
      r := Some(f);
    }

    /** `kfree`. */
    method Kfree(f: nat)
      requires Valid() && Is(owner, f, Held)
      modifies this
      ensures Valid() && mem == AfterFree(old(mem), f) && owner == old(owner)[f := Free]
      ensures AllViews(old(owner), old(mem.tables), mem.tables)
    {
      FreeAll(mem, owner, f);
      mem := Mem([f] + mem.free, mem.tables - {f}, mem.pages - {f});
      owner := owner[f := Free];
    }

    /** `walkpgdir`, up to the table that the entry is in. */
    method Walk(d: nat, v: nat, alloc: bool) returns (t: Option<nat>)
      requires Valid() && Is(owner, d, Dir) && DirOf(v) < NENTRIES
      modifies this
      ensures Valid() && AllViews(old(owner), old(mem.tables), mem.tables) && mem.pages == old(mem.pages)
      ensures t.None? <==> !P(old(Ent(mem.tables, d, DirOf(v)))) && (!alloc || old(mem.free) == [])
      ensures t.None? || P(old(Ent(mem.tables, d, DirOf(v)))) ==> mem == old(mem) && owner == old(owner)
      ensures t.Some? ==> Is(owner, t.value, Table(d, DirOf(v)))
      ensures t.Some? ==> Ent(mem.tables, d, DirOf(v)).frame == t.value && P(Ent(mem.tables, d, DirOf(v)))
      ensures t.Some? ==> DirPlus(old(mem.tables), mem.tables, d, DirOf(v))
      ensures t.Some? && !P(old(Ent(mem.tables, d, DirOf(v)))) ==> |mem.free| + 1 == |old(mem.free)|
      ensures t.Some? && !P(old(Ent(mem.tables, d, DirOf(v)))) ==>
        Is(old(owner), t.value, Free) && owner == old(owner)[t.value := Table(d, DirOf(v))]
    {
      var i := DirOf(v);
      TableFound(mem, owner, d, i);
      var pde := mem.tables[d][i];
      if P(pde) {
        return Some(pde.frame);
      }
      if !alloc {
        return None;
      }
      t := Kalloc();
      if t.Some? {
        TableAll(mem, owner, d, i, t.value);
        mem := mem.(tables := WithTable(mem.tables, d, i, t.value));
        owner := owner[t.value := Table(d, i)];
      }
    }

    /** Write the entry for page `v`, in table `t`, unless there is one. */
    method SetEntry(d: nat, v: nat, t: nat, f: nat, perm: nat) returns (r: MapResult)
      requires Valid() && Is(owner, t, Table(d, DirOf(v))) && (v < USERPAGES ==> Is(owner, f, Held) && f in mem.pages)
      requires P(Ent(mem.tables, d, DirOf(v))) && Ent(mem.tables, d, DirOf(v)).frame == t
      modifies this
      ensures Valid() && mem.pages == old(mem.pages) && mem.free == old(mem.free)
      ensures r == if old(Seen(mem.tables, d, v)).Some? then Remap else Mapped
      ensures r.Remap? ==> mem == old(mem) && owner == old(owner)
      ensures r.Mapped? ==> Seen(mem.tables, d, v) == Some(Entry(f, WithP(perm)))
      ensures r.Mapped? ==> Elsewhere(old(owner), old(mem.tables), mem.tables, d, v)
      ensures r.Mapped? ==> owner == Placed(old(owner), d, v, f) && SameDir(old(mem.tables), mem.tables, d)
    {
      var j := IndexOf(v);
      HasTable(mem, owner, t);
      if P(mem.tables[t][j]) {
        return Remap;
      }
      MapAll(mem, owner, d, DirOf(v), j, t, f, WithP(perm));
      mem := mem.(tables := mem.tables[t := mem.tables[t][j := Entry(f, WithP(perm))]]);
      owner := Placed(owner, d, v, f);
      r := Mapped;
    }

    /** One turn of the loop of `mappages`. */
    method MapOne(d: nat, v: nat, f: nat, perm: nat) returns (r: MapResult)
      requires Valid() && Is(owner, d, Dir) && DirOf(v) < NENTRIES
      requires v < USERPAGES ==> Is(owner, f, Held) && f in mem.pages
      modifies this
      ensures Valid() && mem.pages == old(mem.pages)
      ensures r.NoMemory? <==> !P(old(Ent(mem.tables, d, DirOf(v)))) && old(mem.free) == []
      ensures r.Remap? <==> old(Seen(mem.tables, d, v)).Some?
      ensures !r.Mapped? ==> mem == old(mem) && owner == old(owner)
      ensures r.Mapped? ==> Seen(mem.tables, d, v) == Some(Entry(f, WithP(perm)))
      ensures r.Mapped? ==> Elsewhere(old(owner), old(mem.tables), mem.tables, d, v)
      ensures r.Mapped? ==> Grown(Placed(old(owner), d, v, f), owner, d)
      ensures r.Mapped? ==> DirPlus(old(mem.tables), mem.tables, d, DirOf(v))
      ensures r.Mapped? ==> |mem.free| + (if P(old(Ent(mem.tables, d, DirOf(v)))) then 0 else 1) == |old(mem.free)|
    {
      var t := Walk(d, v, true);
      if t.None? {
        return NoMemory;
      }
      ghost var m1, o1 := mem, owner;
      r := SetEntry(d, v, t.value, f, perm);
      MapChain(old(owner), o1, old(mem.tables), m1.tables, mem.tables, d, v, f, t.value);
    }

    /** The same, as a step of the loop that began with `m0` and `o0`. */
    method MapNext(d: nat, v: nat, f: nat, perm: nat, ghost m0: Mem, ghost o0: Owners, ghost first: nat,
                   ghost count: nat, ghost n: nat, ghost pa: nat)
      returns (r: MapResult)
      requires Valid() && Is(o0, d, Dir) && DirOf(v) < NENTRIES && HeldFrames(m0.pages, o0, first, count, pa)
      requires n < count && v == first + n && f == pa + n && Range(m0, o0, mem, owner, d, first, n, pa, perm) == Sound
      requires Spanning(m0, mem, d, first, n) == Sound
      modifies this
      ensures Valid() && Range(m0, o0, mem, owner, d, first, if r.Mapped? then n + 1 else n, pa, perm) == Sound
      ensures Spanning(m0, mem, d, first, if r.Mapped? then n + 1 else n) == Sound
      ensures r.NoMemory? ==> mem.free == [] && !P(Ent(mem.tables, d, DirOf(v)))
      ensures r.Remap? ==> Seen(mem.tables, d, v).Some?
    {
      ghost var m1, o1 := mem, owner;
      RangeDir(m0, o0, m1, o1, d, first, count, n, pa, perm);
      r := MapOne(d, v, f, perm);
      if r.Mapped? {
        RangeStep(m0, o0, m1, o1, mem, owner, d, first, count, n, pa, perm);
        SpanStep(m0, m1, mem, d, first, n);
      }
    }

    /** The loop of `mappages`, over pages `first` to `last`. */
    method MapRange(d: nat, first: nat, last: nat, pa: nat, perm: nat) returns (r: MapResult, ghost n: nat)
      requires Valid() && Is(owner, d, Dir) && first <= last && DirOf(last) < NENTRIES
      requires HeldFrames(mem.pages, owner, first, last - first + 1, pa)
      modifies this
      ensures Valid() && Range(old(mem), old(owner), mem, owner, d, first, n, pa, perm) == Sound
      ensures Spanning(old(mem), mem, d, first, n) == Sound
      ensures n <= last - first + 1 && (r.Mapped? <==> n == last - first + 1)
      ensures r.NoMemory? ==> mem.free == [] && !P(Ent(mem.tables, d, DirOf(first + n)))
      ensures r.Remap? ==> Seen(mem.tables, d, first + n).Some?
    {
      var a, f := first, pa;
      n := 0;
      RangeStart(mem, owner, d, first, pa, perm);
      SpanStart(mem, d, first);
      while true
        invariant Valid() && a == first + n && f == pa + n && a <= last
        invariant Range(old(mem), old(owner), mem, owner, d, first, n, pa, perm) == Sound
        invariant Spanning(old(mem), mem, d, first, n) == Sound
        decreases last - a
      {
        r := MapNext(d, a, f, perm, old(mem), old(owner), first, last - first + 1, n, pa);
        if !r.Mapped? {
          return;
        }
        n := n + 1;
        if a == last {
          return;
        }
        a, f := a + 1, f + 1;
      }
    }

    /** `mappages`. The result tells whether all pages were mapped, or the first of the others failed for want
        of memory, or is mapped already, where the kernel panics; `n` pages were mapped before. */
    method MapPages(d: nat, va: nat, size: nat, pa: nat, perm: nat) returns (r: MapResult, ghost n: nat)
      requires Valid() && Is(owner, d, Dir) && size >= 1 && va + size <= 0x1_0000_0000
      requires HeldFrames(mem.pages, owner, va / PGSIZE, (va + size - 1) / PGSIZE - va / PGSIZE + 1, pa)
      modifies this
      ensures Valid() && Range(old(mem), old(owner), mem, owner, d, va / PGSIZE, n, pa, perm) == Sound
      ensures Spanning(old(mem), mem, d, va / PGSIZE, n) == Sound
      ensures var all := (va + size - 1) / PGSIZE - va / PGSIZE + 1; n <= all && (r.Mapped? <==> n == all)
      ensures r.NoMemory? ==> mem.free == [] && !P(Ent(mem.tables, d, DirOf(va / PGSIZE + n)))
      ensures r.Remap? ==> Seen(mem.tables, d, va / PGSIZE + n).Some?
    {
      r, n := MapRange(d, va / PGSIZE, (va + size - 1) / PGSIZE, pa, perm);
    }

    /** Unmap page `v`, whose entry is in table `t`, and free its frame. */
    method ClearPage(d: nat, v: nat, t: nat)
      requires Valid() && Is(owner, t, Table(d, DirOf(v))) && v < USERPAGES && Is(owner, d, Dir)
      requires P(Ent(mem.tables, d, DirOf(v))) && Ent(mem.tables, d, DirOf(v)).frame == t
      requires P(Ent(mem.tables, t, IndexOf(v)))
      modifies this
      ensures Valid() && Seen(mem.tables, d, v) == None && Elsewhere(old(owner), old(mem.tables), mem.tables, d, v)
      ensures SameDir(old(mem.tables), mem.tables, d)
      ensures var f := old(Ent(mem.tables, t, IndexOf(v))).frame;
        && Is(old(owner), f, Data(d, DirOf(v), IndexOf(v))) && owner == old(owner)[f := Free]
            && mem.pages == old(mem.pages) - {f}
        && mem.free == [f] + old(mem.free)
    {
      var j := IndexOf(v);
      UnmapAll(mem, owner, d, DirOf(v), j, t);
      var f := mem.tables[t][j].frame;
      mem := mem.(tables := mem.tables[t := mem.tables[t][j := Entry(0, 0)]]);
      owner := owner[f := Held];
      ghost var o1, t1 := owner, mem.tables;
      Kfree(f);
      ClearChain(old(owner), o1, old(mem.tables), t1, mem.tables, d, v, f);
    }

    /** `if((*pte & PTE_P) != 0)` and what it guards. */
    method ClearEntry(d: nat, a: nat, t: nat, ghost m0: Mem, ghost o0: Owners, ghost lo: nat)
      requires Valid() && Is(o0, d, Dir) && Is(owner, d, Dir) && lo <= a < USERPAGES && Health(m0, o0) == Sound
      requires Clearing(m0, o0, mem, owner, d, lo, a) == Sound
      requires Is(owner, t, Table(d, DirOf(a))) && P(Ent(mem.tables, d, DirOf(a)))
      requires Ent(mem.tables, d, DirOf(a)).frame == t
      modifies this
      ensures Valid() && Clearing(m0, o0, mem, owner, d, lo, a + 1) == Sound
    {
      ghost var m1, o1 := mem, owner;
      HasTable(mem, owner, t);
      if P(mem.tables[t][IndexOf(a)]) {
        ClearPage(d, a, t);
        ClearStep(m0, o0, m1, o1, mem, owner, d, lo, a);
      } else {
        ClearHole(m0, o0, m1, o1, d, lo, a);
      }
    }

    /** A turn of the loop of `deallocuvm` at page `a`, which goes on with the page after it, or a whole table
        further where there is no table. */
    method ClearNext(d: nat, a: nat, ghost m0: Mem, ghost o0: Owners, ghost lo: nat, ghost n: nat) returns (next: nat)
      requires Valid() && Is(o0, d, Dir) && lo <= a < USERPAGES && Health(m0, o0) == Sound
      requires Reach(m0.tables, d, lo, n) == Sound
      requires Clearing(m0, o0, mem, owner, d, lo, a) == Sound
      modifies this
      ensures Valid() && a < next && Clearing(m0, o0, mem, owner, d, lo, next) == Sound
    {
      ClearDir(m0, o0, mem, owner, d, lo, a);
      var t := Walk(d, a, false);
      if t.None? {
        NothingAbove(m0, o0, mem, owner, d, lo, a, a + NENTRIES, n);
        return a + NENTRIES;
      }
      ClearEntry(d, a, t.value, m0, o0, lo);
      next := a + 1;
    }

    /** The loop of `deallocuvm`, from page `lo` up to `hi`; pages from `n` on are not mapped. */
    method ClearRange(d: nat, lo: nat, hi: nat, ghost n: nat)
      requires Valid() && Is(owner, d, Dir) && Reach(mem.tables, d, lo, n) == Sound && n <= hi <= USERPAGES
      modifies this
      ensures Valid()
      ensures Clearing(old(mem), old(owner), mem, owner, d, lo, USERPAGES) == Sound
    {
      ghost var m0, o0 := mem, owner;
      ClearStart(mem, owner, d, lo);
      var a := lo;
      while a < hi
        invariant Valid() && lo <= a && Clearing(m0, o0, mem, owner, d, lo, a) == Sound
        decreases hi - a
      {
        a := ClearNext(d, a, m0, o0, lo, n);
      }
      ClearEnd(m0, o0, mem, owner, d, lo, a, n);
    }

    /** `deallocuvm`: shrink to `newsz` bytes, for a user part of at most `oldsz`. There may be holes in it, as long as
        they have tables. */
    method DeallocUvm(d: nat, oldsz: nat, newsz: nat, ghost n: nat) returns (r: nat)
      requires Valid() && Is(owner, d, Dir) && Reach(mem.tables, d, Pages(newsz), n) == Sound && oldsz <= KERNBASE
      requires n <= Pages(oldsz)
      modifies this
      ensures Valid() && r == Min(oldsz, newsz)
      ensures newsz >= oldsz ==> mem == old(mem) && owner == old(owner)
      ensures newsz < oldsz ==> Bare(mem.tables, d, Pages(newsz))
      ensures newsz < oldsz && User(old(mem.tables), d, n) ==> User(mem.tables, d, Min(Pages(newsz), n))
      ensures newsz < oldsz ==> Clearing(old(mem), old(owner), mem, owner, d, Pages(newsz), USERPAGES) == Sound
    {
      if newsz >= oldsz {
        return oldsz;
      }
      ClearRange(d, Pages(newsz), Pages(oldsz), n);
      ClearedBare(old(mem), old(owner), mem, owner, d, Pages(newsz));
      if User(old(mem.tables), d, n) {
        ClearedUser(old(mem), old(owner), mem, owner, d, Pages(newsz), n);
      }
      r := newsz;
    }

    /** A turn of the loop of `allocuvm` at page `a`: a zeroed frame is mapped there. The result tells whether
        there was a frame. If then there is none for a new table, the frame is lost, and the loop does not
        notice. */
    method GrowNext(d: nat, a: nat, ghost m0: Mem, ghost o0: Owners, ghost lo: nat, ghost before: Option<nat>)
      returns (ok: bool, ghost lost: Option<nat>)
      requires Valid() && Is(o0, d, Dir) && lo <= a < USERPAGES && Bare(m0.tables, d, lo)
      requires if before.None? then Growing(m0, o0, mem, owner, d, lo, a, None) == Sound else mem.free == []
      modifies this
      ensures Valid() && (ok <==> old(mem.free) != [])
      ensures !ok ==> mem == old(mem) && owner == old(owner) && lost == before
      ensures ok && lost.None? ==> Growing(m0, o0, mem, owner, d, lo, a + 1, None) == Sound
      ensures ok && lost.Some? ==> Growing(m0, o0, mem, owner, d, lo, a, lost) == Sound && mem.free == []
      ensures ok ==> (lost.Some? <==> |old(mem.free)| == 1 && NeedsTable(m0.tables, d, lo, a))
    {
      ghost var m1, o1 := mem, owner;
      var f := Kalloc();
      if f.None? {
        return false, before;
      }
      lost := None;
      GrowDir(m0, o0, m1, o1, d, lo, a);
      mem := mem.(pages := mem.pages[f.value := ZeroPage()]);
      PutPage(AfterAlloc(m1), owner, f.value, ZeroPage());
      ghost var m2, o2 := mem, owner;
      var r := MapOne(d, a, f.value, 6);
      GrowStep(m0, o0, m1, o1, m2, o2, mem, owner, d, lo, a, f.value, r);
      ok := true;
      if r.NoMemory? {
        lost := f;
      }
    }

    /** `deallocuvm(pgdir, newsz, oldsz)`, when there is no frame for the next page. */
    method Undo(d: nat, lo: nat, hi: nat, ghost b: nat, ghost m0: Mem, ghost o0: Owners, ghost lost: Option<nat>)
      requires Valid() && Health(m0, o0) == Sound && Is(o0, d, Dir) && Bare(m0.tables, d, lo)
      requires lo <= b < hi <= USERPAGES && Growing(m0, o0, mem, owner, d, lo, b, lost) == Sound && mem.free == []
      requires lost.Some? ==> b + 1 < hi && NeedsTable(m0.tables, d, lo, b)
      modifies this
      ensures Valid() && Growth(m0, o0, mem, owner, d, lo, hi, false, lost) == Sound
    {
      ghost var m1, o1 := mem, owner;
      GrowTail(m0, o0, m1, o1, d, lo, b, lost);
      TailReach(m1.tables, d, lo, b);
      ClearRange(d, lo, hi, b);
      RollBack(m0, o0, m1, o1, mem, owner, d, lo, b, hi, lost);
    }

    /** `allocuvm` for pages `lo` to `hi - 1`; the result tells whether the loop came to its end. */
    method GrowRange(d: nat, lo: nat, hi: nat) returns (ok: bool, ghost lost: Option<nat>)
      requires Valid() && Is(owner, d, Dir) && Bare(mem.tables, d, lo) && hi <= USERPAGES
      modifies this
      ensures Valid()
      ensures Growth(old(mem), old(owner), mem, owner, d, lo, hi, ok, lost) == Sound
    {
      ghost var m0, o0 := mem, owner;
      GrowStart(mem, owner, d, lo);
      lost := None;
      var a := lo;
      while a < hi
        invariant Valid() && lo <= a <= if lo < hi then hi else lo
        invariant lost.None? ==> Growing(m0, o0, mem, owner, d, lo, a, None) == Sound
        invariant lost.Some? ==> lo < a && Growing(m0, o0, mem, owner, d, lo, a - 1, lost) == Sound
        invariant lost.Some? ==> mem.free == [] && NeedsTable(m0.tables, d, lo, a - 1)
      {
        ok, lost := GrowNext(d, a, m0, o0, lo, lost);
        if !ok {
          Undo(d, lo, hi, if lost.None? then a else a - 1, m0, o0, lost);
          return;
        }
        a := a + 1;
      }
      ok := true;
      GrowEnd(m0, o0, mem, owner, d, lo, hi, a, lost);
    }

    /** `allocuvm`: grow from `oldsz` to `newsz` bytes. It asks only that no page from the old size on is mapped, and
        keeps that. A contiguous user part of `n` pages stays contiguous exactly if it reached up to the old size or
        nothing is mapped. Holes that lie in the table of the old size leave it to deallocuvm to free everything. */
    method AllocUvm(d: nat, oldsz: nat, newsz: nat) returns (r: nat, ghost lost: Option<nat>)
      requires Valid() && Is(owner, d, Dir) && Bare(mem.tables, d, Pages(oldsz))
      modifies this
      ensures Valid() && Is(owner, d, Dir)
      ensures newsz >= KERNBASE ==> r == 0
      ensures newsz < KERNBASE && newsz < oldsz ==> r == oldsz
      ensures newsz >= KERNBASE || newsz < oldsz ==> mem == old(mem) && owner == old(owner)
      ensures oldsz <= newsz < KERNBASE ==> exists ok ::
        r == (if ok then newsz else 0)
          && Growth(old(mem), old(owner), mem, owner, d, Pages(oldsz), Pages(newsz), ok, lost) == Sound
      ensures Bare(mem.tables, d, Max(Pages(oldsz), Pages(if newsz < KERNBASE then newsz else 0)))
      ensures oldsz <= newsz < KERNBASE ==> forall n: nat :: User(old(mem.tables), d, n) && n <= Pages(oldsz) ==>
        (Joined(mem.tables, d) <==> n == Pages(oldsz) || !MapsSome(old(mem), d, Pages(oldsz), Pages(newsz)))
      ensures oldsz <= newsz < KERNBASE ==> forall n: nat ::
        Reach(old(mem.tables), d, 0, n) == Sound && n <= Pages(oldsz) && DirOf(n) == DirOf(Pages(oldsz)) ==>
        Reachable(mem.tables, d, Pages(newsz))
    {
      lost := None;
      if newsz >= KERNBASE {
        return 0, None;
      }
      if newsz < oldsz {
        return oldsz, None;
      }
      var ok;
      ok, lost := GrowRange(d, Pages(oldsz), Pages(newsz));
      r := if ok then newsz else 0;
      GrowthBare(old(mem), old(owner), mem, owner, d, Pages(oldsz), Pages(newsz), ok, lost);
      forall n: nat | User(old(mem.tables), d, n) && n <= Pages(oldsz)
        ensures Joined(mem.tables, d) <==> n == Pages(oldsz) || !MapsSome(old(mem), d, Pages(oldsz), Pages(newsz))
      {
        GrowthJoined(old(mem), old(owner), mem, owner, d, Pages(oldsz), Pages(newsz), ok, lost, n);
      }
      forall n: nat | Reach(old(mem.tables), d, 0, n) == Sound && n <= Pages(oldsz) && DirOf(n) == DirOf(Pages(oldsz))
        ensures Reachable(mem.tables, d, Pages(newsz))
      {
        GrowthReach(old(mem), old(owner), mem, owner, d, Pages(oldsz), Pages(newsz), ok, lost, n);
      }
    }

    /** `if(pgdir[i] & PTE_P) kfree(...)`. */
    method FreeTable(d: nat, i: nat, ghost m0: Mem, ghost o0: Owners)
      requires Valid() && Health(m0, o0) == Sound && Is(o0, d, Dir) && i < NENTRIES
      requires Releasing(m0, o0, mem, owner, d, i) == Sound
      modifies this
      ensures Valid() && Releasing(m0, o0, mem, owner, d, i + 1) == Sound
    {
      ghost var m1, o1 := mem, owner;
      NextTable(m0, o0, m1, o1, d, i);
      if P(mem.tables[d][i]) {
        var t := mem.tables[d][i].frame;
        Kfree(t);
        ReleaseStep(m0, o0, m1, o1, mem, owner, d, i, t);
      } else {
        ReleaseNone(m0, o0, m1, o1, d, i);
      }
    }

    /** `freevm`; pages from `n` on are not mapped, and the others have tables. */
    method FreeVm(d: nat, ghost n: nat)
      requires Valid() && Is(owner, d, Dir) && Reach(mem.tables, d, 0, n) == Sound && n <= USERPAGES
      modifies this
      ensures Valid() && Release(old(mem), old(owner), mem, owner, d) == Sound
    {
      var r := DeallocUvm(d, KERNBASE, 0, n);
      ghost var m1, o1 := mem, owner;
      DropSpace(old(mem), old(owner), m1, o1, d);
      owner := Dropped(owner, d);
      for i := 0 to NENTRIES
        invariant Valid() && Releasing(m1, o1, mem, owner, d, i) == Sound
      {
        FreeTable(d, i, m1, o1);
      }
      ghost var m2, o2 := mem, owner;
      DirHeld(m1, o1, m2, o2, d);
      Kfree(d);
      ReleaseEnd(old(mem), old(owner), m1, o1, m2, o2, mem, owner, d);
    }

    /** A zeroed frame becomes a directory. */
    method NewDirectory() returns (d: Option<nat>)
      requires Valid()
      modifies this
      ensures Valid() && (d.None? <==> old(mem.free) == [])
      ensures d.None? ==> mem == old(mem) && owner == old(owner)
      ensures d.Some? ==> Setting(old(mem), old(owner), mem, owner, d.value, [], 0) == Sound && Is(owner, d.value, Dir)
      ensures d.Some? ==> Equipping(old(mem), mem, d.value, []) == Sound
    {
      d := Kalloc();
      if d.Some? {
        StartDirectory(old(mem), old(owner), mem, owner, d.value);
        mem := mem.(tables := mem.tables[d.value := Zeros()]);
        owner := owner[d.value := Dir];
        EquipStart(old(mem), mem, d.value);
      }
    }

    /** One line of the kernel's table of mappings. */
    method MapKernelRange(d: nat, maps: seq<KernelRange>, k: nat, ghost m0: Mem, ghost o0: Owners)
      returns (r: MapResult)
      requires Valid() && KernelMaps(maps) && k < |maps| && Setting(m0, o0, mem, owner, d, maps[..k], k) == Sound
      requires Equipping(m0, mem, d, maps[..k]) == Sound
      modifies this
      ensures Valid() && !r.Remap?
      ensures r.Mapped? ==> Setting(m0, o0, mem, owner, d, maps[..k + 1], k + 1) == Sound
      ensures r.Mapped? ==> Equipping(m0, mem, d, maps[..k + 1]) == Sound
      ensures r.NoMemory? ==> Taking(m0, o0, mem, owner) == Sound && mem.free == [] && |m0.free| < KernelNeed(maps)
    {
      ghost var m1, o1 := mem, owner;
      ghost var n;
      NextRange(m0, o0, mem, owner, d, maps, k);
      r, n := MapPages(d, maps[k].va, maps[k].size, maps[k].pa, maps[k].perm);
      RangeSet(m0, o0, m1, o1, mem, owner, d, maps, k, n, r);
      RangeEquips(m0, m1, mem, d, maps, k, n);
    }

    /** `setupkvm`: it succeeds exactly when there is a frame for the directory and for each of its tables.
        Otherwise it gives back nothing of what it took, and no frame is left. */
    method SetupKvm(maps: seq<KernelRange>) returns (d: Option<nat>)
      requires Valid() && KernelMaps(maps)
      modifies this
      ensures Valid()
      ensures d.Some? <==> |old(mem.free)| >= KernelNeed(maps)
      ensures d.Some? ==>
        Setting(old(mem), old(owner), mem, owner, d.value, maps, |maps|) == Sound && User(mem.tables, d.value, 0)
      ensures d.Some? ==> Equipping(old(mem), mem, d.value, maps) == Sound
      ensures d.None? ==> Taking(old(mem), old(owner), mem, owner) == Sound && mem.free == []
    {
      d := NewDirectory();
      if d.None? {
        NothingTaken(mem, owner);
        return;
      }
      assert maps[..0] == [];
      for k := 0 to |maps|
        invariant Valid() && Setting(old(mem), old(owner), mem, owner, d.value, maps[..k], k) == Sound
        invariant Equipping(old(mem), mem, d.value, maps[..k]) == Sound
      {
        var r := MapKernelRange(d.value, maps, k, old(mem), old(owner));
        if !r.Mapped? {
          return None;
        }
      }
      assert maps[..|maps|] == maps;
      EquipCount(old(mem), mem, d.value, maps);
      NoUserPages(old(mem), old(owner), mem, owner, d.value, maps);
    }

    /** A turn of the loop of `copyuvm`: page `a` of `d` is copied for `c`. */
    method CopyNext(d: nat, c: nat, a: nat, ghost maps: seq<KernelRange>, ghost m0: Mem, ghost o0: Owners, ghost n: nat)
      returns (r: CopyStep, ghost lost: Option<nat>)
      requires Valid() && Health(m0, o0) == Sound && Is(o0, d, Dir) && Begins(m0.tables, d, n) == Sound
      requires a < USERPAGES && a <= n
      requires KernelMaps(maps)
      requires Copying(m0, o0, mem, owner, d, c, a, maps, None) == Sound && Tally(m0, mem, c, a, maps) == Sound
      modifies this
      ensures Valid()
      ensures r.Missing? <==> n <= a
      ensures r.Copied? ==> lost.None? && Copying(m0, o0, mem, owner, d, c, a + 1, maps, None) == Sound
      ensures r.Copied? ==> Tally(m0, mem, c, a + 1, maps) == Sound
      ensures r.OutOfMemory? ==> Copying(m0, o0, mem, owner, d, c, a, maps, lost) == Sound
      ensures r.OutOfMemory? ==> |m0.free| == KernelNeed(maps) + CopyNeed(a) + (if lost.Some? then 1 else 0)
      ensures r.OutOfMemory? && lost.Some? ==> IndexOf(a) == 0
    {
      ghost var m1, o1 := mem, owner;
      lost := None;
      CopyDirs(m0, o0, m1, o1, d, c, a, maps, n);
      var t := Walk(d, a, false);
      if t.None? {
        return Missing, None;
      }
      HasTable(mem, owner, t.value);
      var e := mem.tables[t.value][IndexOf(a)];
      if !P(e) {
        return Missing, None;
      }
      CopySource(m0, o0, m1, o1, d, c, a, maps);
      var f := Kalloc();
      if f.None? {
        TallyCount(m0, m1, c, a, maps);
        return OutOfMemory, None;
      }
      PutPage(mem, owner, f.value, mem.pages[e.frame]);
      mem := mem.(pages := mem.pages[f.value := mem.pages[e.frame]]);
      ghost var m2, o2 := mem, owner;
      var q := MapOne(c, a, f.value, e.flags);
      CopyStepDone(m0, o0, m1, o1, m2, o2, mem, owner, d, c, a, maps, f.value, e, q);
      TallyStep(m0, m1, m2, mem, c, a, maps, q);
      if !q.Mapped? {
        return OutOfMemory, f;
      }
      r := Copied;
    }

    /** `copyuvm`, for the first `sz` bytes of the address space of `d`; page `n` is the first that is
        not mapped. What it comes to depends on the number of free frames alone. */
    method CopyUvm(d: nat, sz: nat, maps: seq<KernelRange>, ghost n: nat)
      returns (r: CopyResult, ghost lost: Option<nat>)
      requires Valid() && Is(owner, d, Dir) && Begins(mem.tables, d, n) == Sound && sz < KERNBASE && KernelMaps(maps)
      modifies this
      ensures Valid()
      ensures r.NoKernelPart? <==> |old(mem.free)| < KernelNeed(maps)
      ensures r.Panics? <==> n < Pages(sz) && KernelNeed(maps) + CopyNeed(n) <= |old(mem.free)|
      ensures r.Child? <==> Pages(sz) <= n && KernelNeed(maps) + CopyNeed(Pages(sz)) <= |old(mem.free)|
      ensures r.Child? ==> Copying(old(mem), old(owner), mem, owner, d, r.d, Pages(sz), maps, None) == Sound
      ensures r.Child? ==> User(mem.tables, r.d, Pages(sz))
      ensures r.NoChild? ==> Undoing(old(mem), old(owner), mem, owner, lost) == Sound
      ensures r.NoChild? ==> (lost.Some? <==> LosesCopy(|old(mem.free)| - KernelNeed(maps), Min(Pages(sz), n)))
      ensures r.NoKernelPart? ==> Taking(old(mem), old(owner), mem, owner) == Sound && mem.free == []
    {
      ghost var m0, o0 := mem, owner;
      lost := None;
      var c := SetupKvm(maps);
      if c.None? {
        CopyGrows(0, n);
        CopyGrows(0, Pages(sz));
        return NoKernelPart, None;
      }
      CopyStart(m0, o0, mem, owner, d, c.value, maps);
      TallyStart(m0, mem, c.value, maps);
      var a := 0;
      while a < Pages(sz)
        invariant Valid() && a <= Pages(sz) && a <= n && Copying(m0, o0, mem, owner, d, c.value, a, maps, None) == Sound
        invariant Tally(m0, mem, c.value, a, maps) == Sound
      {
        TallyCount(m0, mem, c.value, a, maps);
        var q;
        q, lost := CopyNext(d, c.value, a, maps, m0, o0, n);
        if q.Missing? {
          return Panics, None;
        }
        if q.OutOfMemory? {
          CopyUser(m0, o0, mem, owner, d, c.value, a, maps, lost);
          ghost var m1, o1 := mem, owner;
          UserIs(mem.tables, c.value, a, 0);
          FreeVm(c.value, a);
          CopyUndone(m0, o0, m1, o1, mem, owner, d, c.value, a, maps, lost);
          CopyFate(|m0.free| - KernelNeed(maps), Pages(sz), n, a, lost.Some?);
          return NoChild, lost;
        }
        a := a + 1;
      }
      CopyUser(m0, o0, mem, owner, d, c.value, a, maps, None);
      TallyCount(m0, mem, c.value, a, maps);
      r := Child(c.value);
    }
  }

  lemma HasTable(m: Mem, owner: Owners, t: nat)
    requires Health(m, owner) == Sound && t in owner && owner[t].Table?
    ensures t in m.tables && |m.tables[t]| == NENTRIES
  {
    assert Open(0);
  }

  /** The use of frames once page `v` of `d` is frame `f`. */
  ghost function Placed(o: Owners, d: nat, v: nat, f: nat): Owners {
    if v < USERPAGES then o[f := Data(d, DirOf(v), IndexOf(v))] else o
  }

  /** A walk and then a new entry. */
  lemma MapChain(o: Owners, o1: Owners, t0: Tables, t1: Tables, t2: Tables, d: nat, v: nat, f: nat, t: nat)
    requires AllViews(o, t0, t1) && (o1 == o || (Is(o, t, Free) && o1 == o[t := Table(d, DirOf(v))])) && Is(o, d, Dir)
    requires DirOf(v) < NENTRIES
    requires v < USERPAGES ==> Is(o, f, Held)
    ensures Seen(t1, d, v) == Seen(t0, d, v)
    ensures Elsewhere(o1, t1, t2, d, v) ==> Elsewhere(o, t0, t2, d, v)
    ensures Grown(Placed(o, d, v, f), Placed(o1, d, v, f), d)
  {
  }

  /** Pages `first` to `first + n - 1` of `d`, not mapped before, are frames `pa` on; no directory sees another
      difference. */
  ghost predicate MapsRange(o: Owners, t0: Tables, t1: Tables, d: nat, first: nat, n: nat, pa: nat, perm: nat) {
    forall e, v {:trigger Seen(t1, e, v)} :: Is(o, e, Dir) && 0 <= v && DirOf(v) < NENTRIES ==>
      if e == d && first <= v < first + n then Seen(t0, e, v) == None
        && Seen(t1, e, v) == Some(Entry(pa + (v - first), WithP(perm)))
      else Seen(t1, e, v) == Seen(t0, e, v)
  }

  /** What frame `f` is used for after that. */
  ghost function InRange(o: Owners, d: nat, first: nat, n: nat, pa: nat, f: nat): Role
    requires f in o
  {
    if pa <= f < pa + n
      && first + (f - pa) < USERPAGES then Data(d, DirOf(first + (f - pa)), IndexOf(first + (f - pa))) else o[f]
  }

  ghost predicate GrownRange(o: Owners, o': Owners, d: nat, first: nat, n: nat, pa: nat) {
    && (forall f :: f in o <==> f in o')
    && forall f :: f in o ==> o'[f] == InRange(o, d, first, n, pa, f) || (o[f] == Free && o'[f].Table? && o'[f].d == d)
  }

  /** User pages are given frames that are held for them. */
  ghost predicate HeldFrames(pages: map<nat, Bytes>, o: Owners, first: nat, count: nat, pa: nat) {
    forall f :: pa <= f < pa + count && first + (f - pa) < USERPAGES ==> Is(o, f, Held) && f in pages
  }

  /** The tables that `d` has. */
  ghost function Dirs(tables: Tables, d: nat): set<nat> {
    set k: nat | k < NENTRIES && P(Ent(tables, d, k))
  }

  lemma DirCount(t: Tables, t': Tables, d: nat, i: nat)
    requires DirPlus(t, t', d, i) && i < NENTRIES
    ensures |Dirs(t', d)| == |Dirs(t, d)| + if P(Ent(t, d, i)) then 0 else 1
  {
    forall k: nat | k < NENTRIES ensures k in Dirs(t', d) <==> k == i || k in Dirs(t, d) {
      assert P(Ent(t', d, k)) == (k == i || P(Ent(t, d, k)));
    }
    assert Dirs(t', d) == Dirs(t, d) + {i};
    assert i in Dirs(t, d) <==> P(Ent(t, d, i));
  }

  /** Just the tables for these pages are new, each at the price of a frame. */
  ghost predicate Spanned(m0: Mem, m: Mem, d: nat, first: nat, n: nat) {
    && (forall k {:trigger Ent(m.tables, d, k)} :: 0 <= k < NENTRIES ==>
          (P(Ent(m.tables, d, k)) <==> P(Ent(m0.tables, d, k)) || (n > 0 && DirOf(first) <= k <= DirOf(first + n - 1))))
    && |m.free| + |Dirs(m.tables, d)| == |m0.free| + |Dirs(m0.tables, d)|
  }

  ghost function Spanning(m0: Mem, m: Mem, d: nat, first: nat, n: nat): Status {
    if forall k {:trigger Open(k)} :: k == 0 ==> Spanned(m0, m, d, first, n) then Sound else Broken
  }

  lemma SpanStart(m: Mem, d: nat, first: nat)
    ensures Spanning(m, m, d, first, 0) == Sound
  {
    assert Spanned(m, m, d, first, 0);
  }

  lemma SpanStep(m0: Mem, m1: Mem, m2: Mem, d: nat, first: nat, n: nat)
    requires Spanning(m0, m1, d, first, n) == Sound && DirOf(first + n) < NENTRIES
    requires DirPlus(m1.tables, m2.tables, d, DirOf(first + n))
    requires |m2.free| + (if P(Ent(m1.tables, d, DirOf(first + n))) then 0 else 1) == |m1.free|
    ensures Spanning(m0, m2, d, first, n + 1) == Sound
  {
    assert Open(0);
    DirCount(m1.tables, m2.tables, d, DirOf(first + n));
    assert DirOf(first) <= DirOf(first + n);
    if n > 0 {
      assert DirOf(first + n - 1) <= DirOf(first + n) <= DirOf(first + n - 1) + 1;
    }
    assert Spanned(m0, m2, d, first, n + 1);
  }

  /** Mapping a range has come as far as `n` pages. */
  ghost function Range(m0: Mem, o0: Owners, m: Mem, o: Owners, d: nat, first: nat, n: nat, pa: nat, perm: nat): Status {
    if forall k {:trigger Open(k)} :: k == 0 ==>
      MapsRange(o0, m0.tables, m.tables, d, first, n, pa, perm) && GrownRange(o0, o, d, first, n, pa)
        && m.pages == m0.pages
    then Sound else Broken
  }

  lemma RangeStart(m: Mem, o: Owners, d: nat, first: nat, pa: nat, perm: nat)
    ensures Range(m, o, m, o, d, first, 0, pa, perm) == Sound
  {
    assert MapsRange(o, m.tables, m.tables, d, first, 0, pa, perm) && GrownRange(o, o, d, first, 0, pa);
  }

  lemma RangeDir(m0: Mem, o0: Owners, m: Mem, o: Owners, d: nat, first: nat, count: nat, n: nat, pa: nat, perm: nat)
    requires Range(m0, o0, m, o, d, first, n, pa, perm) == Sound && Is(o0, d, Dir)
    requires HeldFrames(m0.pages, o0, first, count, pa) && n < count
    ensures Is(o, d, Dir) && (first + n < USERPAGES ==> Is(o, pa + n, Held) && pa + n in m.pages)
  {
    assert Open(0);
    assert !Is(o0, d, Held);
    HeldStill(m0.pages, o0, o, d, first, count, n, pa);
  }

  lemma RangeStep(m0: Mem, o0: Owners, m1: Mem, o1: Owners, m2: Mem, o2: Owners, d: nat, first: nat, count: nat, n: nat,
                  pa: nat, perm: nat)
    requires Range(m0, o0, m1, o1, d, first, n, pa, perm) == Sound && HeldFrames(m0.pages, o0, first, count, pa)
    requires n < count && Is(o0, d, Dir)
    requires m2.pages == m1.pages && DirOf(first + n) < NENTRIES
    requires Grown(Placed(o1, d, first + n, pa + n), o2, d) && Elsewhere(o1, m1.tables, m2.tables, d, first + n)
    requires Seen(m1.tables, d, first + n) == None && Seen(m2.tables, d, first + n) == Some(Entry(pa + n, WithP(perm)))
    ensures Range(m0, o0, m2, o2, d, first, n + 1, pa, perm) == Sound
  {
    assert Open(0);
    HeldStill(m0.pages, o0, o1, d, first, count, n, pa);
    RangeGrows(o0, o1, o2, d, first, n, pa);
    RangeMapped(m0.pages, o0, o1, m0.tables, m1.tables, m2.tables, d, first, count, n, pa, perm);
  }

  lemma HeldStill(pages: map<nat, Bytes>, o: Owners, o1: Owners, d: nat, first: nat, count: nat, n: nat, pa: nat)
    requires HeldFrames(pages, o, first, count, pa) && GrownRange(o, o1, d, first, n, pa) && n < count
    ensures first + n < USERPAGES ==> Is(o1, pa + n, Held) && pa + n in pages
  {
    assert first + n < USERPAGES ==> Is(o, pa + n, Held);
  }

  lemma RangeGrows(o: Owners, o1: Owners, o2: Owners, d: nat, first: nat, n: nat, pa: nat)
    requires GrownRange(o, o1, d, first, n, pa) && Grown(Placed(o1, d, first + n, pa + n), o2, d)
    requires first + n < USERPAGES ==> Is(o1, pa + n, Held)
    ensures GrownRange(o, o2, d, first, n + 1, pa)
  {
  }

  lemma RangeMapped(pages: map<nat, Bytes>, o: Owners, o1: Owners, t0: Tables, t1: Tables, t2: Tables, d: nat,
                    first: nat, count: nat, n: nat, pa: nat, perm: nat)
    requires HeldFrames(pages, o, first, count, pa) && n < count
    requires MapsRange(o, t0, t1, d, first, n, pa, perm) && GrownRange(o, o1, d, first, n, pa) && Is(o, d, Dir)
    requires DirOf(first + n) < NENTRIES
    requires Elsewhere(o1, t1, t2, d, first + n) && Seen(t1, d, first + n) == None
    requires Seen(t2, d, first + n) == Some(Entry(pa + n, WithP(perm)))
    ensures MapsRange(o, t0, t2, d, first, n + 1, pa, perm)
  {
    forall e, v | Is(o, e, Dir) && 0 <= v && DirOf(v) < NENTRIES && !(e == d && v == first + n)
      ensures Seen(t2, e, v) == Seen(t1, e, v)
    {
      assert o1[e] == InRange(o, d, first, n, pa, e) == Dir by {
        assert !Is(o, e, Held);
      }
      SeenElsewhere(o1, t1, t2, d, first + n, e, v);
    }
  }

  lemma SeenElsewhere(o: Owners, t1: Tables, t2: Tables, d: nat, v: nat, e: nat, u: nat)
    requires Elsewhere(o, t1, t2, d, v) && Is(o, e, Dir) && DirOf(u) < NENTRIES && !(e == d && u == v)
    ensures Seen(t2, e, u) == Seen(t1, e, u)
  {
    PageIs(u);
    PageIs(v);
  }

  // ------------------------------------------------------------------ taking pages away

  /** A user page of `d` from `lo` on and before `a`. */
  ghost predicate Gone(d: nat, lo: nat, a: nat, r: Role) {
    r.Data? && r.d == d && lo <= PageAt(r.i, r.j) < a
  }

  /** The user pages of `d` from `lo` on and before `a` are unmapped and their frames free; nothing else is
      different. */
  ghost predicate Cleared(m0: Mem, o0: Owners, m: Mem, o: Owners, d: nat, lo: nat, a: nat) {
    && (forall e, v {:trigger Seen(m.tables, e, v)} :: Is(o0, e, Dir) && 0 <= v && DirOf(v) < NENTRIES ==>
          Seen(m.tables, e, v) == if e == d && lo <= v < a && v < USERPAGES then None else Seen(m0.tables, e, v))
    && (forall f :: f in o <==> f in o0)
    && (forall f :: f in o0 ==> o[f] == if Gone(d, lo, a, o0[f]) then Free else o0[f])
    && SameDir(m0.tables, m.tables, d)
    && forall f :: f in o && o[f].Data? ==> f in m.pages && f in m0.pages && m.pages[f] == m0.pages[f]
  }

  ghost function Clearing(m0: Mem, o0: Owners, m: Mem, o: Owners, d: nat, lo: nat, a: nat): Status {
    if forall k {:trigger Open(k)} :: k == 0 ==> Cleared(m0, o0, m, o, d, lo, a) then Sound else Broken
  }

  lemma ClearDir(m0: Mem, o0: Owners, m: Mem, o: Owners, d: nat, lo: nat, a: nat)
    requires Clearing(m0, o0, m, o, d, lo, a) == Sound && Is(o0, d, Dir)
    ensures Is(o, d, Dir)
  {
    assert Open(0);
  }

  lemma ClearChain(o: Owners, o1: Owners, t0: Tables, t1: Tables, t2: Tables, d: nat, v: nat, f: nat)
    requires f in o && o[f].Data? && o1 == o[f := Held] && Is(o, d, Dir) && DirOf(v) < NENTRIES
    requires SameViews(o, t0, t1, d, DirOf(v), IndexOf(v)) && AllViews(o1, t1, t2)
    ensures Elsewhere(o, t0, t2, d, v) && Seen(t2, d, v) == Seen(t1, d, v)
  {
  }

  lemma ClearStep(m0: Mem, o0: Owners, m1: Mem, o1: Owners, m2: Mem, o2: Owners, d: nat, lo: nat, a: nat)
    requires Clearing(m0, o0, m1, o1, d, lo, a) == Sound && Is(o0, d, Dir) && lo <= a < USERPAGES
    requires Health(m0, o0) == Sound
    requires Seen(m1.tables, d, a).Some? && Seen(m2.tables, d, a) == None && Elsewhere(o1, m1.tables, m2.tables, d, a)
    requires SameDir(m1.tables, m2.tables, d)
    requires var f := Seen(m1.tables, d, a).value.frame;
      Is(o1, f, Data(d, DirOf(a), IndexOf(a))) && o2 == o1[f := Free] && m2.pages == m1.pages - {f}
    ensures Clearing(m0, o0, m2, o2, d, lo, a + 1) == Sound
  {
    var f := Seen(m1.tables, d, a).value.frame;
    ClearViews(m0, o0, m1, o1, m2, d, lo, a);
    ClearOwners(m0, o0, m1, o1, d, lo, a, f);
    ClearDirs(m0, o0, m1, o1, m2, d, lo, a);
    assert Open(0);
    assert Cleared(m0, o0, m2, o2, d, lo, a + 1);
  }

  lemma ClearViews(m0: Mem, o0: Owners, m1: Mem, o1: Owners, m2: Mem, d: nat, lo: nat, a: nat)
    requires Clearing(m0, o0, m1, o1, d, lo, a) == Sound && Is(o0, d, Dir) && lo <= a < USERPAGES
    requires Seen(m2.tables, d, a) == None && Elsewhere(o1, m1.tables, m2.tables, d, a)
    ensures forall e, v {:trigger Seen(m2.tables, e, v)} :: Is(o0, e, Dir) && 0 <= v && DirOf(v) < NENTRIES ==>
      Seen(m2.tables, e, v) == if e == d && lo <= v < a + 1 && v < USERPAGES then None else Seen(m0.tables, e, v)
  {
    assert Open(0);
    forall e, v | Is(o0, e, Dir) && 0 <= v && DirOf(v) < NENTRIES && !(e == d && v == a)
      ensures Seen(m2.tables, e, v) == Seen(m1.tables, e, v)
    {
      SeenElsewhere(o1, m1.tables, m2.tables, d, a, e, v);
    }
  }

  lemma ClearDirs(m0: Mem, o0: Owners, m1: Mem, o1: Owners, m2: Mem, d: nat, lo: nat, a: nat)
    requires Clearing(m0, o0, m1, o1, d, lo, a) == Sound && SameDir(m1.tables, m2.tables, d)
    ensures SameDir(m0.tables, m2.tables, d)
  {
    assert Open(0);
    forall k | 0 <= k < NENTRIES ensures P(Ent(m2.tables, d, k)) == P(Ent(m0.tables, d, k)) {
      assert P(Ent(m2.tables, d, k)) == P(Ent(m1.tables, d, k));
    }
  }

  lemma ClearOwners(m0: Mem, o0: Owners, m1: Mem, o1: Owners, d: nat, lo: nat, a: nat, f: nat)
    requires Clearing(m0, o0, m1, o1, d, lo, a) == Sound && Health(m0, o0) == Sound && lo <= a
    requires Is(o1, f, Data(d, DirOf(a), IndexOf(a)))
    ensures forall g :: g in o0 ==> g in o1 && o1[f := Free][g] == if Gone(d, lo, a + 1, o0[g]) then Free else o0[g]
  {
    assert Open(0);
    PageIs(a);
    forall g | g in o0 ensures o1[f := Free][g] == if Gone(d, lo, a + 1, o0[g]) then Free else o0[g] {
      if g != f && o0[g].Data? && o0[g].d == d && PageAt(o0[g].i, o0[g].j) == a {
        OnePlace(m0, o0, g, f, a);
      }
    }
  }

  /** Two frames for the same page are the same. */
  lemma OnePlace(m: Mem, o: Owners, g: nat, f: nat, a: nat)
    requires Health(m, o) == Sound && g in o && f in o && o[g].Data? && o[f].Data? && o[g].d == o[f].d
    requires PageAt(o[g].i, o[g].j) == PageAt(o[f].i, o[f].j)
    ensures g == f
  {
    assert Open(0);
    PageParts(o[g].i, o[g].j);
    PageParts(o[f].i, o[f].j);
  }

  /** A page that is not mapped needs nothing. */
  lemma ClearHole(m0: Mem, o0: Owners, m: Mem, o: Owners, d: nat, lo: nat, a: nat)
    requires Health(m0, o0) == Sound && Clearing(m0, o0, m, o, d, lo, a) == Sound && Is(o0, d, Dir)
    requires lo <= a < USERPAGES && Seen(m.tables, d, a) == None
    ensures Clearing(m0, o0, m, o, d, lo, a + 1) == Sound
  {
    assert Open(0);
    assert Seen(m0.tables, d, a) == None;
    forall f | f in o0 && Gone(d, lo, a + 1, o0[f]) ensures Gone(d, lo, a, o0[f]) {
      PageParts(o0[f].i, o0[f].j);
      assert Seen(m0.tables, d, PageAt(o0[f].i, o0[f].j)).Some?;
    }
  }

  /** Above a page that has no table there is none that is mapped. */
  lemma NothingAbove(m0: Mem, o0: Owners, m: Mem, o: Owners, d: nat, lo: nat, a: nat, b: nat, n: nat)
    requires Health(m0, o0) == Sound && Clearing(m0, o0, m, o, d, lo, a) == Sound && Is(o0, d, Dir)
    requires Reach(m0.tables, d, lo, n) == Sound
    requires lo <= a < USERPAGES && a <= b && !P(Ent(m.tables, d, DirOf(a)))
    ensures Clearing(m0, o0, m, o, d, lo, b) == Sound
  {
    assert Open(0);
    assert DirOf(a) < NENTRIES;
    assert n <= a;
    forall f | f in o0 && Gone(d, lo, b, o0[f]) ensures Gone(d, lo, a, o0[f]) {
      PageParts(o0[f].i, o0[f].j);
      assert Seen(m0.tables, d, PageAt(o0[f].i, o0[f].j)).Some?;
    }
  }

  lemma ClearStart(m: Mem, o: Owners, d: nat, lo: nat)
    requires Health(m, o) == Sound
    ensures Clearing(m, o, m, o, d, lo, lo) == Sound
  {
    assert Open(0);
  }

  /** Past the last page, all is done. */
  lemma ClearEnd(m0: Mem, o0: Owners, m: Mem, o: Owners, d: nat, lo: nat, a: nat, n: nat)
    requires Health(m0, o0) == Sound && Clearing(m0, o0, m, o, d, lo, a) == Sound && Reach(m0.tables, d, lo, n) == Sound
    requires Is(o0, d, Dir) && n <= a
    ensures Clearing(m0, o0, m, o, d, lo, USERPAGES) == Sound
  {
    assert Open(0);
    forall f | f in o0 && Gone(d, lo, USERPAGES, o0[f]) ensures Gone(d, lo, a, o0[f]) {
      PageParts(o0[f].i, o0[f].j);
      assert Seen(m0.tables, d, PageAt(o0[f].i, o0[f].j)).Some?;
    }
  }

  lemma ClearedBare(m0: Mem, o0: Owners, m: Mem, o: Owners, d: nat, lo: nat)
    requires Clearing(m0, o0, m, o, d, lo, USERPAGES) == Sound && Is(o0, d, Dir)
    ensures Bare(m.tables, d, lo)
  {
    assert Open(0);
    forall v | lo <= v < USERPAGES ensures Seen(m.tables, d, v) == None {
      assert DirOf(v) < NENTRIES;
    }
    assert MappedFrom(m.tables, d, lo, lo);
  }

  lemma ClearedUser(m0: Mem, o0: Owners, m: Mem, o: Owners, d: nat, lo: nat, n: nat)
    requires Clearing(m0, o0, m, o, d, lo, USERPAGES) == Sound && Is(o0, d, Dir) && User(m0.tables, d, n)
    ensures User(m.tables, d, Min(lo, n))
  {
    assert Open(0);
    forall v | 0 <= v < USERPAGES ensures Seen(m.tables, d, v) == if lo <= v then None else Seen(m0.tables, d, v) {
      assert DirOf(v) < NENTRIES;
    }
    assert Contiguous(m.tables, d, Min(lo, n));
  }

  // ------------------------------------------------------------------ adding pages

  function ZeroPage(): Bytes {
    seq(PGSIZE, _ => 0)
  }

  /** Page `v` is the first of those from `lo` on in a table that is not there yet. */
  predicate NeedsTable(tables: Tables, d: nat, lo: nat, v: nat) {
    !P(Ent(tables, d, DirOf(v))) && (v == lo || IndexOf(v) == 0)
  }

  /** How many frames it takes to map pages `lo` to `a - 1`, tables included. */
  ghost function Need(tables: Tables, d: nat, lo: nat, a: nat): nat
    decreases a
  {
    if a <= lo then 0 else Need(tables, d, lo, a - 1) + 1 + if NeedsTable(tables, d, lo, a - 1) then 1 else 0
  }

  /** What a frame may have come to: it was free, and is a table of `d`, one of its new pages, or lost. */
  ghost predicate MayBecome(r0: Role, r: Role, d: nat, lo: nat, a: nat, lost: bool) {
    if lost then r0 == Free && r == Held
    else r == r0 || (r0 == Free && ((r.Table? && r.d == d) || Gone(d, lo, a, r)))
  }

  /** Pages `lo` to `a - 1` of `d` are new, zeroed and writable by the user. No directory sees another
      difference, and so many frames are taken. */
  ghost predicate Grew(m0: Mem, o0: Owners, m: Mem, o: Owners, d: nat, lo: nat, a: nat, lost: Option<nat>) {
    && (forall e, v {:trigger Seen(m.tables, e, v)} ::
        Is(o0, e, Dir) && 0 <= v && DirOf(v) < NENTRIES && !(e == d && lo <= v < a) ==>
          Seen(m.tables, e, v) == Seen(m0.tables, e, v))
    && (forall v {:trigger NewPage(m, o0, o, d, v)} :: lo <= v < a ==> NewPage(m, o0, o, d, v))
    && (forall f :: f in o <==> f in o0)
    && (forall f :: f in o0 ==> MayBecome(o0[f], o[f], d, lo, a, lost == Some(f)))
    && (forall f :: f in o0 && o0[f].Data? ==> f in m.pages && f in m0.pages && m.pages[f] == m0.pages[f])
    && (forall k {:trigger Ent(m.tables, d, k)} :: 0 <= k < NENTRIES ==>
          (P(Ent(m.tables, d, k)) <==> P(Ent(m0.tables, d, k)) || (lo < a && DirOf(lo) <= k <= DirOf(a - 1))))
    && (lost.Some? ==> lost.value in o0)
    && |m.free| + Need(m0.tables, d, lo, a) + (if lost.Some? then 1 else 0) == |m0.free|
  }

  ghost predicate NewPage(m: Mem, o0: Owners, o: Owners, d: nat, v: nat) {
    var e := Seen(m.tables, d, v);
    && e.Some? && e.value.flags == 7 && Is(o0, e.value.frame, Free)
        && Is(o, e.value.frame, Data(d, DirOf(v), IndexOf(v)))
    && e.value.frame in m.pages && m.pages[e.value.frame] == ZeroPage()
  }

  ghost function Growing(m0: Mem, o0: Owners, m: Mem, o: Owners, d: nat, lo: nat, a: nat, lost: Option<nat>): Status {
    if forall k {:trigger Open(k)} :: k == 0 ==> Grew(m0, o0, m, o, d, lo, a, lost) then Sound else Broken
  }

  lemma GrowDir(m0: Mem, o0: Owners, m: Mem, o: Owners, d: nat, lo: nat, a: nat)
    requires Growing(m0, o0, m, o, d, lo, a, None) == Sound && Is(o0, d, Dir)
    ensures Is(o, d, Dir)
  {
    assert Open(0);
    assert MayBecome(o0[d], o[d], d, lo, a, false);
  }

  lemma PutPage(m: Mem, o: Owners, f: nat, b: Bytes)
    requires Health(m, o) == Sound
    ensures Health(m.(pages := m.pages[f := b]), o) == Sound
  {
    assert Open(0);
  }

  /** Where the next page's table is, or is to be. */
  lemma GrowTable(m0: Mem, o0: Owners, m: Mem, o: Owners, d: nat, lo: nat, a: nat)
    requires Growing(m0, o0, m, o, d, lo, a, None) == Sound && lo <= a < USERPAGES
    ensures P(Ent(m.tables, d, DirOf(a))) <==> !NeedsTable(m0.tables, d, lo, a)
  {
    assert Open(0);
    assert DirOf(a) < NENTRIES;
    if a > lo {
      PageIs(a);
      PageIs(a - 1);
      PageIs(lo);
    }
  }

  /** A frame has been taken and zeroed. */
  ghost predicate Fetched(m1: Mem, o1: Owners, m2: Mem, o2: Owners, f: nat) {
    && Is(o1, f, Free) && o2 == o1[f := Held] && m2.tables == m1.tables && m2.pages == m1.pages[f := ZeroPage()]
    && |m2.free| + 1 == |m1.free|
  }

  /** What MapOne promises when it succeeds. */
  ghost predicate MappedOne(m2: Mem, o2: Owners, m3: Mem, o3: Owners, d: nat, a: nat, f: nat, flags: nat) {
    && m3.pages == m2.pages && Seen(m2.tables, d, a) == None && Seen(m3.tables, d, a) == Some(Entry(f, flags))
    && Elsewhere(o2, m2.tables, m3.tables, d, a) && Grown(Placed(o2, d, a, f), o3, d)
    && DirPlus(m2.tables, m3.tables, d, DirOf(a))
    && |m3.free| + (if P(Ent(m2.tables, d, DirOf(a))) then 0 else 1) == |m2.free|
  }

  lemma GrowLost(m0: Mem, o0: Owners, m1: Mem, o1: Owners, m2: Mem, o2: Owners, d: nat, lo: nat, a: nat, f: nat)
    requires Growing(m0, o0, m1, o1, d, lo, a, None) == Sound && Fetched(m1, o1, m2, o2, f) && Is(o0, d, Dir)
    ensures Growing(m0, o0, m2, o2, d, lo, a, Some(f)) == Sound
  {
    assert Open(0);
    assert MayBecome(o0[f], o1[f], d, lo, a, false);
    forall v | lo <= v < a ensures NewPage(m2, o0, o2, d, v) {
      assert NewPage(m1, o0, o1, d, v);
    }
    forall g | g in o0 ensures MayBecome(o0[g], o2[g], d, lo, a, Some(f) == Some(g)) {
      assert MayBecome(o0[g], o1[g], d, lo, a, false);
    }
    assert Grew(m0, o0, m2, o2, d, lo, a, Some(f));
  }

  lemma GrowViews(m0: Mem, o0: Owners, m1: Mem, o1: Owners, m2: Mem, o2: Owners, m3: Mem, o3: Owners, d: nat, lo: nat,
                  a: nat, f: nat)
    requires Grew(m0, o0, m1, o1, d, lo, a, None) && Fetched(m1, o1, m2, o2, f) && MappedOne(m2, o2, m3, o3, d, a, f, 7)
    requires Is(o0, d, Dir) && lo <= a < USERPAGES
    ensures forall e, v {:trigger Seen(m3.tables, e, v)} ::
      Is(o0, e, Dir) && 0 <= v && DirOf(v) < NENTRIES && !(e == d && v == a) ==>
      Seen(m3.tables, e, v) == Seen(m1.tables, e, v)
  {
    forall e, v | Is(o0, e, Dir) && 0 <= v && DirOf(v) < NENTRIES && !(e == d && v == a)
      ensures Seen(m3.tables, e, v) == Seen(m1.tables, e, v)
    {
      assert MayBecome(o0[e], o1[e], d, lo, a, false);
      SeenElsewhere(o2, m2.tables, m3.tables, d, a, e, v);
    }
  }

  lemma GrowOwners(m0: Mem, o0: Owners, m1: Mem, o1: Owners, m2: Mem, o2: Owners, m3: Mem, o3: Owners, d: nat, lo: nat,
                   a: nat, f: nat)
    requires Grew(m0, o0, m1, o1, d, lo, a, None) && Fetched(m1, o1, m2, o2, f) && MappedOne(m2, o2, m3, o3, d, a, f, 7)
    requires lo <= a < USERPAGES
    ensures Is(o0, f, Free) && Is(o3, f, Data(d, DirOf(a), IndexOf(a)))
    ensures forall g :: g in o3 <==> g in o0
    ensures forall g :: g in o0 ==> MayBecome(o0[g], o3[g], d, lo, a + 1, false) && (o1[g].Data? ==> o3[g] == o1[g])
  {
    PageIs(a);
    assert MayBecome(o0[f], o1[f], d, lo, a, false);
    forall g | g in o0 ensures MayBecome(o0[g], o3[g], d, lo, a + 1, false) && (o1[g].Data? ==> o3[g] == o1[g]) {
      assert MayBecome(o0[g], o1[g], d, lo, a, false);
    }
  }

  lemma GrowDirs(m0: Mem, o0: Owners, m1: Mem, o1: Owners, m2: Mem, o2: Owners, m3: Mem, o3: Owners, d: nat, lo: nat,
                 a: nat, f: nat)
    requires Grew(m0, o0, m1, o1, d, lo, a, None) && Fetched(m1, o1, m2, o2, f) && MappedOne(m2, o2, m3, o3, d, a, f, 7)
    requires lo <= a < USERPAGES && (P(Ent(m1.tables, d, DirOf(a))) <==> !NeedsTable(m0.tables, d, lo, a))
    ensures forall k {:trigger Ent(m3.tables, d, k)} :: 0 <= k < NENTRIES ==>
      (P(Ent(m3.tables, d, k)) <==> P(Ent(m0.tables, d, k)) || DirOf(lo) <= k <= DirOf(a))
    ensures |m3.free| + Need(m0.tables, d, lo, a + 1) == |m0.free|
  {
    assert DirOf(lo) <= DirOf(a);
    if lo < a {
      assert DirOf(a - 1) <= DirOf(a) <= DirOf(a - 1) + 1;
    }
  }

  lemma GrowMapped(m0: Mem, o0: Owners, m1: Mem, o1: Owners, m2: Mem, o2: Owners, m3: Mem, o3: Owners, d: nat, lo: nat,
                   a: nat, f: nat)
    requires Growing(m0, o0, m1, o1, d, lo, a, None) == Sound && Fetched(m1, o1, m2, o2, f)
    requires MappedOne(m2, o2, m3, o3, d, a, f, 7)
    requires Is(o0, d, Dir) && lo <= a < USERPAGES
    ensures Growing(m0, o0, m3, o3, d, lo, a + 1, None) == Sound
  {
    GrowTable(m0, o0, m1, o1, d, lo, a);
    assert Open(0);
    GrowViews(m0, o0, m1, o1, m2, o2, m3, o3, d, lo, a, f);
    GrowOwners(m0, o0, m1, o1, m2, o2, m3, o3, d, lo, a, f);
    GrowDirs(m0, o0, m1, o1, m2, o2, m3, o3, d, lo, a, f);
    GrowPages(m0, o0, m1, o1, m3, o3, d, lo, a, f);
    forall g | g in o0 ensures MayBecome(o0[g], o3[g], d, lo, a + 1, None == Some(g)) {
    }
    assert Grew(m0, o0, m3, o3, d, lo, a + 1, None);
  }

  lemma GrowPages(m0: Mem, o0: Owners, m1: Mem, o1: Owners, m3: Mem, o3: Owners, d: nat, lo: nat, a: nat, f: nat)
    requires Grew(m0, o0, m1, o1, d, lo, a, None) && m3.pages == m1.pages[f := ZeroPage()] && Is(o0, d, Dir)
    requires a < USERPAGES
    requires Is(o1, f, Free) && Is(o0, f, Free) && Is(o3, f, Data(d, DirOf(a), IndexOf(a)))
    requires Seen(m3.tables, d, a) == Some(Entry(f, 7))
    requires forall e, v {:trigger Seen(m3.tables, e, v)} ::
      Is(o0, e, Dir) && 0 <= v && DirOf(v) < NENTRIES && !(e == d && v == a) ==>
      Seen(m3.tables, e, v) == Seen(m1.tables, e, v)
    requires forall g :: g in o0 ==> g in o3 && (o1[g].Data? ==> o3[g] == o1[g])
    ensures forall v {:trigger NewPage(m3, o0, o3, d, v)} :: lo <= v < a + 1 ==> NewPage(m3, o0, o3, d, v)
    ensures forall g :: g in o0 && o0[g].Data? ==> g in m3.pages && g in m0.pages && m3.pages[g] == m0.pages[g]
  {
    forall v | lo <= v < a + 1 ensures NewPage(m3, o0, o3, d, v) {
      if v < a {
        assert DirOf(v) < NENTRIES && Seen(m3.tables, d, v) == Seen(m1.tables, d, v);
        assert NewPage(m1, o0, o1, d, v);
      }
    }
  }

  lemma GrowStep(m0: Mem, o0: Owners, m1: Mem, o1: Owners, m2: Mem, o2: Owners, m3: Mem, o3: Owners, d: nat, lo: nat,
                 a: nat, f: nat, r: MapResult)
    requires Growing(m0, o0, m1, o1, d, lo, a, None) == Sound && Fetched(m1, o1, m2, o2, f) && Bare(m0.tables, d, lo)
    requires Is(o0, d, Dir) && lo <= a < USERPAGES
    requires r.Mapped? ==> MappedOne(m2, o2, m3, o3, d, a, f, 7)
    requires r.Remap? <==> Seen(m2.tables, d, a).Some?
    requires r.NoMemory? <==> !P(Ent(m2.tables, d, DirOf(a))) && m2.free == []
    requires r.NoMemory? ==> m3 == m2 && o3 == o2
    ensures !r.Remap?
    ensures r.NoMemory? <==> |m1.free| == 1 && NeedsTable(m0.tables, d, lo, a)
    ensures r.NoMemory? ==> Growing(m0, o0, m3, o3, d, lo, a, Some(f)) == Sound
    ensures r.Mapped? ==> Growing(m0, o0, m3, o3, d, lo, a + 1, None) == Sound
  {
    GrowTable(m0, o0, m1, o1, d, lo, a);
    GrowFree(m0, o0, m1, o1, d, lo, a);
    if r.Mapped? {
      GrowMapped(m0, o0, m1, o1, m2, o2, m3, o3, d, lo, a, f);
    } else {
      GrowLost(m0, o0, m1, o1, m2, o2, d, lo, a, f);
    }
  }

  lemma GrowFree(m0: Mem, o0: Owners, m: Mem, o: Owners, d: nat, lo: nat, a: nat)
    requires Growing(m0, o0, m, o, d, lo, a, None) == Sound && Bare(m0.tables, d, lo) && Is(o0, d, Dir)
    requires lo <= a < USERPAGES
    ensures Seen(m.tables, d, a) == None
  {
    assert Open(0);
    assert DirOf(a) < NENTRIES;
    assert Seen(m.tables, d, a) == Seen(m0.tables, d, a);
  }

  /** The last free frame goes to page `b`, which then finds none for its table. */
  ghost predicate ShortOfTable(m: Mem, d: nat, lo: nat, b: nat) {
    NeedsTable(m.tables, d, lo, b) && |m.free| == Need(m.tables, d, lo, b) + 1
  }

  /** One frame is missing, and it is for the table of the last page. */
  ghost predicate ShortByLastTable(m: Mem, d: nat, lo: nat, hi: nat) {
    lo < hi && ShortOfTable(m, d, lo, hi - 1)
  }

  /** It is for the table of an earlier page. */
  ghost predicate ShortByTable(m: Mem, d: nat, lo: nat, hi: nat) {
    exists b: nat :: lo <= b < hi - 1 && ShortOfTable(m, d, lo, b)
  }

  /** Running out at page `b`. */
  lemma {:induction false} ShortAt(m: Mem, d: nat, lo: nat, b: nat, hi: nat, lost: bool)
    requires lo <= b < hi && |m.free| == Need(m.tables, d, lo, b) + (if lost then 1 else 0)
    requires lost ==> b + 1 < hi && NeedsTable(m.tables, d, lo, b)
    ensures lost <==> ShortByTable(m, d, lo, hi)
  {
    if !lost {
      forall c: nat | lo <= c < hi - 1 ensures !ShortOfTable(m, d, lo, c) {
        NotShort(m, d, lo, b, c);
      }
    } else {
      assert ShortOfTable(m, d, lo, b);
    }
  }

  lemma {:induction false} NotShort(m: Mem, d: nat, lo: nat, b: nat, c: nat)
    requires lo <= b && lo <= c && |m.free| == Need(m.tables, d, lo, b)
    ensures !ShortOfTable(m, d, lo, c)
  {
    if b <= c {
      NeedGrows(m.tables, d, lo, b, c);
    } else {
      NeedGrows(m.tables, d, lo, c + 1, b);
      LastNeed(m.tables, d, lo, c + 1);
    }
  }

  lemma {:induction false} LastNeed(tables: Tables, d: nat, lo: nat, hi: nat)
    requires lo < hi
    ensures Need(tables, d, lo, hi - 1) < Need(tables, d, lo, hi)
    ensures NeedsTable(tables, d, lo, hi - 1) ==> Need(tables, d, lo, hi) == Need(tables, d, lo, hi - 1) + 2
  {
  }

  /** Every table of `d` is still there. */
  ghost predicate MoreDirs(tables: Tables, tables': Tables, d: nat) {
    forall k {:trigger Ent(tables', d, k)} :: 0 <= k < NENTRIES && P(Ent(tables, d, k)) ==> P(Ent(tables', d, k))
  }

  /** Everything looks as before to every directory; free frames may have become tables of `d`, or be lost. */
  ghost predicate Restored(m0: Mem, o0: Owners, m: Mem, o: Owners, d: nat, lost: Option<nat>) {
    && (forall e, v {:trigger Seen(m.tables, e, v)} :: Is(o0, e, Dir) && 0 <= v && DirOf(v) < NENTRIES ==>
        Seen(m.tables, e, v) == Seen(m0.tables, e, v))
    && (forall f :: f in o <==> f in o0)
    && (forall f :: f in o0 ==> MayBecome(o0[f], o[f], d, 0, 0, lost == Some(f)))
    && (lost.Some? ==> lost.value in o0)
    && MoreDirs(m0.tables, m.tables, d)
    && (forall f :: f in o0 && o0[f].Data? ==> f in m.pages && f in m0.pages && m.pages[f] == m0.pages[f])
  }

  /** What growing comes to, by the number of frames that are free and needed. With enough, all pages are
      there. If just the table for the last page cannot be had, the call succeeds without that page, and a
      frame is lost. Otherwise it fails and all pages are as before. */
  ghost predicate Outcome(m0: Mem, o0: Owners, m: Mem, o: Owners, d: nat, lo: nat, hi: nat, ok: bool, lost: Option<nat>)
  {
    if Need(m0.tables, d, lo, hi) <= |m0.free| then
      ok && lost.None? && Growing(m0, o0, m, o, d, lo, if lo < hi then hi else lo, None) == Sound
        && Tail(m.tables, d, lo, if lo < hi then hi else lo) == Sound
    else if ShortByLastTable(m0, d, lo, hi) then
      ok && lost.Some? && Growing(m0, o0, m, o, d, lo, hi - 1, lost) == Sound && Tail(m.tables, d, lo, hi - 1) == Sound
    else
      !ok && Bare(m.tables, d, lo) && Restored(m0, o0, m, o, d, lost) && (lost.Some? <==> ShortByTable(m0, d, lo, hi))
  }

  ghost function Growth(m0: Mem, o0: Owners, m: Mem, o: Owners, d: nat, lo: nat, hi: nat, ok: bool,
                        lost: Option<nat>): Status
  {
    if forall k {:trigger Open(k)} :: k == 0 ==> Outcome(m0, o0, m, o, d, lo, hi, ok, lost) then Sound else Broken
  }

  /** The user part is contiguous. */
  ghost predicate Joined(tables: Tables, d: nat) {
    exists n: nat :: User(tables, d, n)
  }

  /** There are frames enough for page `lo` to be mapped and stay. */
  ghost predicate MapsSome(m: Mem, d: nat, lo: nat, hi: nat) {
    lo < hi && (Need(m.tables, d, lo, hi) <= |m.free| || (ShortByLastTable(m, d, lo, hi) && lo + 1 < hi))
  }

  lemma GrowthBare(m0: Mem, o0: Owners, m: Mem, o: Owners, d: nat, lo: nat, hi: nat, ok: bool, lost: Option<nat>)
    requires Growth(m0, o0, m, o, d, lo, hi, ok, lost) == Sound && lo <= hi && Is(o0, d, Dir)
    ensures Bare(m.tables, d, hi) && Is(o, d, Dir)
  {
    assert Open(0);
    assert MayBecome(o0[d], o[d], d, lo, hi, lost == Some(d));
    assert MappedFrom(m.tables, d, hi, hi);
  }

  /** Below `lo` nothing changes; from `lo` on the pages before `top` are mapped. */
  lemma GrowthLayout(m0: Mem, o0: Owners, m: Mem, o: Owners, d: nat, lo: nat, hi: nat, ok: bool, lost: Option<nat>)
    returns (top: nat)
    requires Growth(m0, o0, m, o, d, lo, hi, ok, lost) == Sound && lo <= hi && Is(o0, d, Dir)
    ensures lo <= top <= hi && (lo < top <==> MapsSome(m0, d, lo, hi)) && Tail(m.tables, d, lo, top) == Sound
    ensures forall v {:trigger Seen(m.tables, d, v)} :: 0 <= v < lo && v < USERPAGES ==>
      Seen(m.tables, d, v) == Seen(m0.tables, d, v)
  {
    assert Open(0);
    top := if Need(m0.tables, d, lo, hi) <= |m0.free| then hi else
      if ShortByLastTable(m0, d, lo, hi) then hi - 1 else lo;
    forall v | 0 <= v < lo && v < USERPAGES ensures Seen(m.tables, d, v) == Seen(m0.tables, d, v) {
      assert DirOf(v) < NENTRIES;
    }
  }

  lemma GrowthJoined(m0: Mem, o0: Owners, m: Mem, o: Owners, d: nat, lo: nat, hi: nat, ok: bool, lost: Option<nat>,
                     n: nat)
    requires Growth(m0, o0, m, o, d, lo, hi, ok, lost) == Sound && lo <= hi <= USERPAGES && Is(o0, d, Dir)
    requires User(m0.tables, d, n) && n <= lo
    ensures Joined(m.tables, d) <==> n == lo || !MapsSome(m0, d, lo, hi)
  {
    var top := GrowthLayout(m0, o0, m, o, d, lo, hi, ok, lost);
    JoinedExactly(m0.tables, m.tables, d, n, lo, top);
  }

  /** deallocuvm and freevm can do with the user part of `hi` pages. */
  ghost predicate Reachable(tables: Tables, d: nat, hi: nat) {
    exists n: nat :: n <= hi && Reach(tables, d, 0, n) == Sound
  }

  lemma GrowthReach(m0: Mem, o0: Owners, m: Mem, o: Owners, d: nat, lo: nat, hi: nat, ok: bool, lost: Option<nat>,
                    n: nat)
    requires Growth(m0, o0, m, o, d, lo, hi, ok, lost) == Sound && lo <= hi <= USERPAGES && Is(o0, d, Dir)
    requires Reach(m0.tables, d, 0, n) == Sound && n <= lo && DirOf(n) == DirOf(lo)
    ensures Reachable(m.tables, d, hi)
  {
    var top := GrowthLayout(m0, o0, m, o, d, lo, hi, ok, lost);
    GrowthDirs(m0, o0, m, o, d, lo, hi, ok, lost);
    ReachAfter(m0.tables, m.tables, d, n, lo, top);
  }

  lemma GrowthDirs(m0: Mem, o0: Owners, m: Mem, o: Owners, d: nat, lo: nat, hi: nat, ok: bool, lost: Option<nat>)
    requires Growth(m0, o0, m, o, d, lo, hi, ok, lost) == Sound && lo <= hi
    ensures MoreDirs(m0.tables, m.tables, d)
  {
    assert Open(0);
  }

  lemma ReachAfter(t0: Tables, t: Tables, d: nat, n: nat, lo: nat, top: nat)
    requires Reach(t0, d, 0, n) == Sound && n <= lo <= top && DirOf(n) == DirOf(lo) && Tail(t, d, lo, top) == Sound
    requires MoreDirs(t0, t, d)
    requires forall v {:trigger Seen(t, d, v)} :: 0 <= v < lo && v < USERPAGES ==> Seen(t, d, v) == Seen(t0, d, v)
    ensures Reach(t, d, 0, if lo < top then top else n) == Sound
  {
    assert Open(0);
    var k := if lo < top then top else n;
    forall v: nat | v < USERPAGES && v < k ensures P(Ent(t, d, DirOf(v))) {
      assert DirOf(v) < NENTRIES;
      if lo <= v {
        assert Seen(t, d, v).Some?;
      } else if v < n {
        assert P(Ent(t0, d, DirOf(v)));
      } else {
        assert DirOf(v) == DirOf(lo) && Seen(t, d, lo).Some?;
      }
    }
    assert Tabled(t, d, 0, k);
  }

  lemma JoinedExactly(t0: Tables, t: Tables, d: nat, n: nat, lo: nat, top: nat)
    requires User(t0, d, n) && n <= lo <= top <= USERPAGES && Tail(t, d, lo, top) == Sound
    requires forall v {:trigger Seen(t, d, v)} :: 0 <= v < lo && v < USERPAGES ==> Seen(t, d, v) == Seen(t0, d, v)
    ensures Joined(t, d) <==> n == lo || top == lo
  {
    assert Open(0);
    if n == lo || top == lo {
      var k := if n == lo then top else n;
      assert Contiguous(t, d, k);
      assert User(t, d, k);
    } else {
      assert Seen(t, d, n) == None && Seen(t, d, lo).Some?;
      forall k: nat ensures !User(t, d, k) {
        assert Seen(t, d, n) == None;
      }
    }
  }

  lemma GrowStart(m: Mem, o: Owners, d: nat, lo: nat)
    requires Health(m, o) == Sound
    ensures Growing(m, o, m, o, d, lo, lo, None) == Sound
  {
    assert Open(0);
    assert Grew(m, o, m, o, d, lo, lo, None);
  }

  lemma GrowTail(m0: Mem, o0: Owners, m: Mem, o: Owners, d: nat, lo: nat, a: nat, lost: Option<nat>)
    requires Growing(m0, o0, m, o, d, lo, a, lost) == Sound && Bare(m0.tables, d, lo) && Is(o0, d, Dir)
    requires lo <= a
    ensures Tail(m.tables, d, lo, a) == Sound && Is(o, d, Dir)
  {
    assert Open(0);
    assert MayBecome(o0[d], o[d], d, lo, a, lost == Some(d));
    forall v | lo <= v < USERPAGES ensures Seen(m.tables, d, v).Some? <==> v < a {
      assert DirOf(v) < NENTRIES;
      if v < a {
        assert NewPage(m, o0, o, d, v);
      } else {
        assert Seen(m.tables, d, v) == Seen(m0.tables, d, v);
      }
    }
    assert MappedFrom(m.tables, d, lo, a);
  }

  lemma {:induction false} NeedGrows(tables: Tables, d: nat, lo: nat, a: nat, b: nat)
    requires lo <= a <= b
    ensures Need(tables, d, lo, a) + (b - a) <= Need(tables, d, lo, b)
    decreases b
  {
    if a < b {
      NeedGrows(tables, d, lo, a, b - 1);
    }
  }

  lemma GrowCount(m0: Mem, o0: Owners, m: Mem, o: Owners, d: nat, lo: nat, a: nat, lost: Option<nat>)
    requires Growing(m0, o0, m, o, d, lo, a, lost) == Sound
    ensures |m.free| + Need(m0.tables, d, lo, a) + (if lost.Some? then 1 else 0) == |m0.free|
  {
    assert Open(0);
  }

  lemma GrowEnd(m0: Mem, o0: Owners, m: Mem, o: Owners, d: nat, lo: nat, hi: nat, a: nat, lost: Option<nat>)
    requires Bare(m0.tables, d, lo) && Is(o0, d, Dir) && lo <= a && hi <= USERPAGES
    requires lost.None? ==> Growing(m0, o0, m, o, d, lo, a, None) == Sound
    requires lost.Some? ==> lo < a && Growing(m0, o0, m, o, d, lo, a - 1, lost) == Sound
    requires lost.Some? ==> m.free == [] && NeedsTable(m0.tables, d, lo, a - 1)
    requires a == if lo < hi then hi else lo
    ensures Growth(m0, o0, m, o, d, lo, hi, true, lost) == Sound
  {
    assert Open(0);
    var b := if lost.None? then a else a - 1;
    GrowTail(m0, o0, m, o, d, lo, b, lost);
    GrowCount(m0, o0, m, o, d, lo, b, lost);
    assert Outcome(m0, o0, m, o, d, lo, hi, true, lost);
  }

  lemma RollBack(m0: Mem, o0: Owners, m1: Mem, o1: Owners, m: Mem, o: Owners, d: nat, lo: nat, b: nat, hi: nat,
                 lost: Option<nat>)
    requires Health(m0, o0) == Sound && Growing(m0, o0, m1, o1, d, lo, b, lost) == Sound && m1.free == []
    requires Is(o0, d, Dir) && Bare(m0.tables, d, lo)
    requires lo <= b < hi <= USERPAGES && (lost.Some? ==> b + 1 < hi && NeedsTable(m0.tables, d, lo, b))
    requires Clearing(m1, o1, m, o, d, lo, USERPAGES) == Sound && Is(o1, d, Dir)
    ensures Growth(m0, o0, m, o, d, lo, hi, false, lost) == Sound
  {
    GrowCount(m0, o0, m1, o1, d, lo, b, lost);
    Falls(m0, d, lo, b, hi, lost.Some?);
    ShortAt(m0, d, lo, b, hi, lost.Some?);
    Undone(m0, o0, m1, o1, m, o, d, lo, b, lost);
    ClearedBare(m1, o1, m, o, d, lo);
    assert Outcome(m0, o0, m, o, d, lo, hi, false, lost);
  }

  /** Running out at page `b` means that more frames are missing than one for the last table. */
  lemma {:induction false} Falls(m: Mem, d: nat, lo: nat, b: nat, hi: nat, lost: bool)
    requires lo <= b < hi && |m.free| == Need(m.tables, d, lo, b) + (if lost then 1 else 0)
    requires lost ==> b + 1 < hi && NeedsTable(m.tables, d, lo, b)
    ensures |m.free| < Need(m.tables, d, lo, hi) && !ShortByLastTable(m, d, lo, hi)
  {
    FallsShort(m, d, lo, b, hi, lost);
    if lost {
      NeedGrows(m.tables, d, lo, b, hi - 1);
    } else {
      NotShort(m, d, lo, b, hi - 1);
    }
  }

  lemma {:induction false} FallsShort(m: Mem, d: nat, lo: nat, b: nat, hi: nat, lost: bool)
    requires lo <= b < hi && |m.free| == Need(m.tables, d, lo, b) + (if lost then 1 else 0)
    requires lost ==> NeedsTable(m.tables, d, lo, b)
    ensures |m.free| < Need(m.tables, d, lo, hi)
  {
    NeedGrows(m.tables, d, lo, b + 1, hi);
    LastNeed(m.tables, d, lo, b + 1);
  }

  lemma Undone(m0: Mem, o0: Owners, m1: Mem, o1: Owners, m: Mem, o: Owners, d: nat, lo: nat, b: nat, lost: Option<nat>)
    requires Health(m0, o0) == Sound && Growing(m0, o0, m1, o1, d, lo, b, lost) == Sound && Is(o0, d, Dir)
    requires Bare(m0.tables, d, lo)
    requires Clearing(m1, o1, m, o, d, lo, USERPAGES) == Sound && b <= USERPAGES
    ensures Restored(m0, o0, m, o, d, lost)
  {
    assert Open(0);
    forall f | f in o0
      ensures MayBecome(o0[f], o[f], d, 0, 0, lost == Some(f)) && (o0[f].Data? ==> o[f] == o1[f] == o0[f])
    {
      assert MayBecome(o0[f], o1[f], d, lo, b, lost == Some(f));
      if o0[f].Data? {
        PageParts(o0[f].i, o0[f].j);
        assert Seen(m0.tables, o0[f].d, PageAt(o0[f].i, o0[f].j)).Some?;
      }
    }
    forall e, v | Is(o0, e, Dir) && 0 <= v && DirOf(v) < NENTRIES
      ensures Seen(m.tables, e, v) == Seen(m0.tables, e, v)
    {
      assert MayBecome(o0[e], o1[e], d, lo, b, lost == Some(e));
      assert e == d && lo <= v < USERPAGES ==> Seen(m0.tables, d, v) == None;
    }
  }

  // ------------------------------------------------------------------ giving up an address space

  /** The frame is the directory `d`, one of its tables or one of its user pages. */
  ghost predicate Belongs(o: Owners, f: nat, d: nat)
    requires f in o
  {
    f == d || (o[f].Table? && o[f].d == d) || (o[f].Data? && o[f].d == d)
  }

  ghost function Dropped(o: Owners, d: nat): Owners {
    map f | f in o :: if f == d || (o[f].Table? && o[f].d == d) then Held else o[f]
  }

  /** Every frame of `d` is free; other frames are used as before, hold the same bytes, and look the same to
      every other directory. */
  ghost predicate Released(m0: Mem, o0: Owners, m: Mem, o: Owners, d: nat) {
    && (forall f :: f in o <==> f in o0)
    && (forall f :: f in o0 ==> o[f] == if Belongs(o0, f, d) then Free else o0[f])
    && (forall e, v {:trigger Seen(m.tables, e, v)} :: Is(o0, e, Dir) && e != d && 0 <= v && DirOf(v) < NENTRIES ==>
        Seen(m.tables, e, v) == Seen(m0.tables, e, v))
    && forall f :: f in o && o[f].Data? ==> f in m.pages && f in m0.pages && m.pages[f] == m0.pages[f]
  }

  ghost function Release(m0: Mem, o0: Owners, m: Mem, o: Owners, d: nat): Status {
    if forall k {:trigger Open(k)} :: k == 0 ==> Released(m0, o0, m, o, d) then Sound else Broken
  }

  ghost function OnItsWay(r: Role, dir: bool, d: nat, i: nat): Role {
    if r.Table? && r.d == d then (if r.i < i then Free else Held) else if dir then Held else r
  }

  /** The first `i` directory entries' tables are free, the others and the directory on their way. */
  ghost predicate TablesReleased(m0: Mem, o0: Owners, m: Mem, o: Owners, d: nat, i: nat) {
    && (forall f :: f in o <==> f in o0)
    && (forall f :: f in o0 ==> o[f] == OnItsWay(o0[f], f == d, d, i))
    && (forall e, v {:trigger Seen(m.tables, e, v)} :: Is(o0, e, Dir) && e != d && 0 <= v && DirOf(v) < NENTRIES ==>
        Seen(m.tables, e, v) == Seen(m0.tables, e, v))
    && (forall f :: f in o && o[f].Data? ==> f in m.pages && f in m0.pages && m.pages[f] == m0.pages[f])
    && d in m.tables && d in m0.tables && m.tables[d] == m0.tables[d]
  }

  ghost function Releasing(m0: Mem, o0: Owners, m: Mem, o: Owners, d: nat, i: nat): Status {
    if forall k {:trigger Open(k)} :: k == 0 ==> TablesReleased(m0, o0, m, o, d, i) then Sound else Broken
  }

  lemma DropTree(tables: Tables, o: Owners, d: nat)
    requires TreeOk(tables, o) && Is(o, d, Dir)
    ensures TreeOk(tables, Dropped(o, d))
  {
    var o' := Dropped(o, d);
    forall e, i | Is(o', e, Dir) && 0 <= i < NENTRIES && P(Ent(tables, e, i))
      ensures Is(o', Ent(tables, e, i).frame, Table(e, i))
    {
      assert Is(o, Ent(tables, e, i).frame, Table(e, i));
    }
  }

  lemma DropData(tables: Tables, o: Owners, d: nat)
    requires SpaceOk(tables, o) && Is(o, d, Dir) && forall f :: f in o && o[f].Data? ==> o[f].d != d
    ensures DataOk(tables, Dropped(o, d))
  {
    var o' := Dropped(o, d);
    forall t, j | t in o' && o'[t].Table? && o'[t].i < USERDIRS && 0 <= j < NENTRIES && P(Ent(tables, t, j))
      ensures Is(o', Ent(tables, t, j).frame, Data(o'[t].d, o'[t].i, j))
    {
      assert Is(o, Ent(tables, t, j).frame, Data(o[t].d, o[t].i, j));
    }
  }

  lemma DropSpace(m0: Mem, o0: Owners, m: Mem, o: Owners, d: nat)
    requires Health(m, o) == Sound && Is(o0, d, Dir) && Clearing(m0, o0, m, o, d, 0, USERPAGES) == Sound
    requires Health(m0, o0) == Sound
    ensures Health(m, Dropped(o, d)) == Sound && Is(o, d, Dir)
    ensures Releasing(m, o, m, Dropped(o, d), d, 0) == Sound
  {
    NoData(m0, o0, m, o, d);
    DropHealth(m, o, d);
    DropStart(m, o, d);
  }

  lemma NoData(m0: Mem, o0: Owners, m: Mem, o: Owners, d: nat)
    requires Is(o0, d, Dir) && Clearing(m0, o0, m, o, d, 0, USERPAGES) == Sound && Health(m0, o0) == Sound
    ensures Is(o, d, Dir) && forall f :: f in o && o[f].Data? ==> o[f].d != d
  {
    assert Open(0);
    forall f | f in o && o[f].Data? ensures o[f].d != d {
      assert o0[f] == o[f] && !Gone(d, 0, USERPAGES, o0[f]);
      PageParts(o0[f].i, o0[f].j);
      assert PageAt(o0[f].i, o0[f].j) < USERPAGES;
    }
  }

  lemma DropHealth(m: Mem, o: Owners, d: nat)
    requires Health(m, o) == Sound && Is(o, d, Dir) && forall f :: f in o && o[f].Data? ==> o[f].d != d
    ensures Health(m, Dropped(o, d)) == Sound
  {
    assert Open(0);
    DropTree(m.tables, o, d);
    DropData(m.tables, o, d);
    assert MemOk(m, Dropped(o, d));
  }

  lemma DropStart(m: Mem, o: Owners, d: nat)
    requires Health(m, o) == Sound && Is(o, d, Dir)
    ensures Releasing(m, o, m, Dropped(o, d), d, 0) == Sound
  {
    assert Open(0);
    assert TablesReleased(m, o, m, Dropped(o, d), d, 0);
  }

  lemma NextTable(m0: Mem, o0: Owners, m: Mem, o: Owners, d: nat, i: nat)
    requires Health(m0, o0) == Sound && Is(o0, d, Dir) && i < NENTRIES && Releasing(m0, o0, m, o, d, i) == Sound
    ensures d in m.tables && |m.tables[d]| == NENTRIES
    ensures P(m.tables[d][i]) ==> Is(o0, m.tables[d][i].frame, Table(d, i)) && Is(o, m.tables[d][i].frame, Held)
  {
    assert Open(0);
    assert Ent(m0.tables, d, i) == m.tables[d][i];
  }

  /** A table is known by its place. */
  lemma OneTable(m: Mem, o: Owners, d: nat, i: nat, f: nat)
    requires Health(m, o) == Sound && Is(o, f, Table(d, i))
    ensures Is(o, d, Dir) && i < NENTRIES && P(Ent(m.tables, d, i)) && Ent(m.tables, d, i).frame == f
  {
    assert Open(0);
  }

  lemma ReleaseStep(m0: Mem, o0: Owners, m1: Mem, o1: Owners, m2: Mem, o2: Owners, d: nat, i: nat, t: nat)
    requires Health(m0, o0) == Sound && Releasing(m0, o0, m1, o1, d, i) == Sound && Is(o0, t, Table(d, i))
    requires Is(o0, d, Dir)
    requires m2 == AfterFree(m1, t) && o2 == o1[t := Free] && AllViews(o1, m1.tables, m2.tables)
    ensures Releasing(m0, o0, m2, o2, d, i + 1) == Sound
  {
    assert Open(0);
    forall f | f in o0 && o0[f].Table? && o0[f].d == d && o0[f].i == i ensures f == t {
      OneTable(m0, o0, d, i, f);
      OneTable(m0, o0, d, i, t);
    }
    forall f | f in o0 ensures o2[f] == OnItsWay(o0[f], f == d, d, i + 1) {
    }
    SeenByOthers(m0, o0, m1, o1, m2, d, i);
    assert TablesReleased(m0, o0, m2, o2, d, i + 1);
  }

  /** Freeing a held frame does not change what the other directories see. */
  lemma SeenByOthers(m0: Mem, o0: Owners, m1: Mem, o1: Owners, m2: Mem, d: nat, i: nat)
    requires TablesReleased(m0, o0, m1, o1, d, i) && AllViews(o1, m1.tables, m2.tables)
    ensures forall e, v {:trigger Seen(m2.tables, e, v)} ::
      Is(o0, e, Dir) && e != d && 0 <= v && DirOf(v) < NENTRIES ==> Seen(m2.tables, e, v) == Seen(m0.tables, e, v)
  {
    forall e, v | Is(o0, e, Dir) && e != d && 0 <= v && DirOf(v) < NENTRIES
      ensures Seen(m2.tables, e, v) == Seen(m0.tables, e, v)
    {
      assert o1[e] == OnItsWay(o0[e], e == d, d, i);
      assert Seen(m1.tables, e, v) == Seen(m0.tables, e, v);
    }
  }

  lemma ReleaseNone(m0: Mem, o0: Owners, m: Mem, o: Owners, d: nat, i: nat)
    requires Health(m0, o0) == Sound && Releasing(m0, o0, m, o, d, i) == Sound && Is(o0, d, Dir) && i < NENTRIES
    requires d in m.tables && |m.tables[d]| == NENTRIES && !P(m.tables[d][i])
    ensures Releasing(m0, o0, m, o, d, i + 1) == Sound
  {
    assert Open(0);
    forall f | f in o0 && o0[f].Table? && o0[f].d == d ensures o0[f].i != i {
      OneTable(m0, o0, d, o0[f].i, f);
    }
    assert TablesReleased(m0, o0, m, o, d, i + 1);
  }

  lemma DirHeld(m0: Mem, o0: Owners, m: Mem, o: Owners, d: nat)
    requires Releasing(m0, o0, m, o, d, NENTRIES) == Sound && Is(o0, d, Dir)
    ensures Is(o, d, Held)
  {
    assert Open(0);
  }

  lemma ReleaseEnd(m0: Mem, o0: Owners, m1: Mem, o1: Owners, m2: Mem, o2: Owners, m3: Mem, o3: Owners, d: nat)
    requires Health(m0, o0) == Sound && Health(m1, o1) == Sound && Is(o0, d, Dir)
    requires Clearing(m0, o0, m1, o1, d, 0, USERPAGES) == Sound && Releasing(m1, o1, m2, o2, d, NENTRIES) == Sound
    requires m3 == AfterFree(m2, d) && o3 == o2[d := Free] && AllViews(o2, m2.tables, m3.tables)
    ensures Release(m0, o0, m3, o3, d) == Sound
  {
    assert Open(0);
    forall f | f in o0 ensures o3[f] == if Belongs(o0, f, d) then Free else o0[f] {
      ReleasedFrame(m0, o0, m1, o1, m2, o2, d, f);
    }
    SeenInTheEnd(m0, o0, m1, o1, m2, o2, m3, d);
    KeptInTheEnd(m0, o0, m1, o1, m2, o2, m3, o3, d);
    assert Released(m0, o0, m3, o3, d);
  }

  lemma SeenInTheEnd(m0: Mem, o0: Owners, m1: Mem, o1: Owners, m2: Mem, o2: Owners, m3: Mem, d: nat)
    requires Cleared(m0, o0, m1, o1, d, 0, USERPAGES) && TablesReleased(m1, o1, m2, o2, d, NENTRIES)
    requires AllViews(o2, m2.tables, m3.tables)
    ensures forall e, v {:trigger Seen(m3.tables, e, v)} ::
      Is(o0, e, Dir) && e != d && 0 <= v && DirOf(v) < NENTRIES ==> Seen(m3.tables, e, v) == Seen(m0.tables, e, v)
  {
    SeenByOthers(m1, o1, m2, o2, m3, d, NENTRIES);
    forall e, v | Is(o0, e, Dir) && e != d && 0 <= v && DirOf(v) < NENTRIES
      ensures Seen(m3.tables, e, v) == Seen(m0.tables, e, v)
    {
      assert o1[e] == o0[e] && Seen(m1.tables, e, v) == Seen(m0.tables, e, v);
    }
  }

  lemma KeptInTheEnd(m0: Mem, o0: Owners, m1: Mem, o1: Owners, m2: Mem, o2: Owners, m3: Mem, o3: Owners, d: nat)
    requires Cleared(m0, o0, m1, o1, d, 0, USERPAGES) && TablesReleased(m1, o1, m2, o2, d, NENTRIES)
    requires m3 == AfterFree(m2, d) && o3 == o2[d := Free]
    ensures forall f :: f in o3 && o3[f].Data? ==> f in m3.pages && f in m0.pages && m3.pages[f] == m0.pages[f]
  {
    forall f | f in o3 && o3[f].Data? ensures f in m3.pages && f in m0.pages && m3.pages[f] == m0.pages[f] {
      assert f != d && o2[f] == o3[f] && o1[f] == o2[f];
    }
  }

  lemma ReleasedFrame(m0: Mem, o0: Owners, m1: Mem, o1: Owners, m2: Mem, o2: Owners, d: nat, f: nat)
    requires MemOk(m0, o0) && Health(m1, o1) == Sound && Is(o0, d, Dir) && f in o0
    requires Cleared(m0, o0, m1, o1, d, 0, USERPAGES) && TablesReleased(m1, o1, m2, o2, d, NENTRIES)
    ensures f in o2 && f in o1 && (f == d ==> o2[f] == Held)
    ensures f != d ==> o2[f] == if Belongs(o0, f, d) then Free else o0[f]
  {
    assert o2[f] == OnItsWay(o1[f], f == d, d, NENTRIES);
    if o0[f].Data? {
      PageParts(o0[f].i, o0[f].j);
      assert PageAt(o0[f].i, o0[f].j) < USERPAGES;
    }
    if o1[f].Table? && o1[f].d == d {
      OneTable(m1, o1, d, o1[f].i, f);
    }
  }

  // ------------------------------------------------------------------ the kernel part

  /** A line of kmap: `size` bytes from `va` on are the frames from `pa` on. */
  datatype KernelRange = KernelRange(va: nat, size: nat, pa: nat, perm: nat)

  predicate Covers(r: KernelRange, v: nat) {
    r.size >= 1 && r.va / PGSIZE <= v <= (r.va + r.size - 1) / PGSIZE
  }

  /** The lines lie above KERNBASE and do not overlap. */
  ghost predicate KernelMaps(maps: seq<KernelRange>) {
    && (forall k :: 0 <= k < |maps| ==>
        KERNBASE <= maps[k].va && maps[k].size >= 1 && maps[k].va + maps[k].size <= 0x1_0000_0000)
    && forall i, k, v {:trigger Covers(maps[i], v), Covers(maps[k], v)} :: 0 <= i < k < |maps| ==>
        !(Covers(maps[i], v) && Covers(maps[k], v))
  }

  /** What the lines say about page `v`. */
  function MapView(maps: seq<KernelRange>, v: nat): Option<Entry>
    decreases |maps|
  {
    if maps == [] then None
    else
      var r := maps[|maps| - 1];
      if Covers(r, v) then Some(Entry(r.pa + (v - r.va / PGSIZE), WithP(r.perm))) else MapView(maps[..|maps| - 1], v)
  }

  /** `d` was free and is a directory that shows just the kernel part; nothing else is different but for
      free frames that have become its tables. */
  ghost predicate IsSet(m0: Mem, o0: Owners, m: Mem, o: Owners, d: nat, maps: seq<KernelRange>) {
    && Is(o0, d, Free) && Is(o, d, Dir)
    && (forall e, v {:trigger Seen(m.tables, e, v)} :: Is(o0, e, Dir) && 0 <= v && DirOf(v) < NENTRIES ==>
        Seen(m.tables, e, v) == Seen(m0.tables, e, v))
    && (forall v {:trigger Seen(m.tables, d, v)} :: 0 <= v && DirOf(v) < NENTRIES ==>
        Seen(m.tables, d, v) == MapView(maps, v))
    && (forall f :: f in o <==> f in o0)
    && (forall f :: f in o0 && f != d ==> o[f] == o0[f] || (o0[f] == Free && o[f].Table? && o[f].d == d))
    && m.pages == m0.pages
  }

  ghost function Setting(m0: Mem, o0: Owners, m: Mem, o: Owners, d: nat, maps: seq<KernelRange>, k: nat): Status {
    if forall j {:trigger Open(j)} :: j == 0 ==> |maps| == k && IsSet(m0, o0, m, o, d, maps) then Sound else Broken
  }

  /** A line of kmap needs table `k`. */
  predicate Spans(r: KernelRange, k: nat) {
    r.size >= 1 && DirOf(r.va / PGSIZE) <= k <= DirOf((r.va + r.size - 1) / PGSIZE)
  }

  /** The tables that the lines need. */
  function TablesOf(maps: seq<KernelRange>): set<nat> {
    set k: nat | k < NENTRIES && Needed(maps, k)
  }

  predicate Needed(maps: seq<KernelRange>, k: nat) {
    exists j :: 0 <= j < |maps| && Spans(maps[j], k)
  }

  /** How many frames an address space takes before it has any user page. */
  function KernelNeed(maps: seq<KernelRange>): nat {
    1 + |TablesOf(maps)|
  }

  /** `d` has just the tables that the lines need, and as many frames are taken. */
  ghost predicate Equipped(m0: Mem, m: Mem, d: nat, maps: seq<KernelRange>) {
    Dirs(m.tables, d) == TablesOf(maps) && |m.free| + KernelNeed(maps) == |m0.free|
  }

  ghost function Equipping(m0: Mem, m: Mem, d: nat, maps: seq<KernelRange>): Status {
    if forall k {:trigger Open(k)} :: k == 0 ==> Equipped(m0, m, d, maps) then Sound else Broken
  }

  lemma EquipStart(m0: Mem, m: Mem, d: nat)
    requires d in m.tables && m.tables[d] == Zeros() && |m.free| + 1 == |m0.free|
    ensures Equipping(m0, m, d, []) == Sound
  {
    assert Dirs(m.tables, d) == {};
    assert TablesOf([]) == {};
    assert Equipped(m0, m, d, []);
  }

  lemma EquipCount(m0: Mem, m: Mem, d: nat, maps: seq<KernelRange>)
    requires Equipping(m0, m, d, maps) == Sound
    ensures |m.free| + KernelNeed(maps) == |m0.free|
  {
    assert Open(0);
  }

  lemma NeededMore(maps: seq<KernelRange>, k: nat, i: nat)
    requires k < |maps|
    ensures Needed(maps[..k + 1], i) <==> Needed(maps[..k], i) || Spans(maps[k], i)
  {
    var a, b := maps[..k], maps[..k + 1];
    if Needed(a, i) {
      var j :| 0 <= j < |a| && Spans(a[j], i);
      assert Spans(b[j], i);
    }
    if Needed(b, i) {
      var j :| 0 <= j < |b| && Spans(b[j], i);
      if j < k {
        assert Spans(a[j], i);
      }
    }
    assert b[k] == maps[k];
  }

  /** The last page of a line of kmap. */
  function LastPage(r: KernelRange): nat
    requires r.size >= 1
  {
    (r.va + r.size - 1) / PGSIZE
  }

  lemma RangeEquips(m0: Mem, m1: Mem, m2: Mem, d: nat, maps: seq<KernelRange>, k: nat, n: nat)
    requires KernelMaps(maps) && k < |maps| && Equipping(m0, m1, d, maps[..k]) == Sound
    requires Spanning(m1, m2, d, maps[k].va / PGSIZE, n) == Sound
    requires maps[k].va / PGSIZE + n <= LastPage(maps[k]) + 1
    ensures maps[k].va / PGSIZE + n == LastPage(maps[k]) + 1 ==> Equipping(m0, m2, d, maps[..k + 1]) == Sound
    ensures
      var next := maps[k].va / PGSIZE + n;
      next <= LastPage(maps[k]) && m2.free == [] && !P(Ent(m2.tables, d, DirOf(next))) ==> |m0.free| < KernelNeed(maps)
  {
    var first := maps[k].va / PGSIZE;
    forall i: nat | i < NENTRIES
      ensures i in Dirs(m2.tables, d) <==> Needed(maps[..k], i) || (n > 0 && DirOf(first) <= i <= DirOf(first + n - 1))
    {
      EquipSpan(m0, m1, m2, d, maps[..k], first, n, i);
    }
    EquipSum(m0, m1, m2, d, maps[..k], first, n);
    if first + n == LastPage(maps[k]) + 1 {
      forall i: nat | i < NENTRIES ensures i in Dirs(m2.tables, d) <==> i in TablesOf(maps[..k + 1]) {
        NeededMore(maps, k, i);
      }
      assert Dirs(m2.tables, d) == TablesOf(maps[..k + 1]);
      assert Equipped(m0, m2, d, maps[..k + 1]);
    } else if m2.free == [] && !P(Ent(m2.tables, d, DirOf(first + n))) {
      EquipShort(m2, d, maps, k, n);
    }
  }

  lemma EquipSpan(m0: Mem, m1: Mem, m2: Mem, d: nat, maps: seq<KernelRange>, first: nat, n: nat, i: nat)
    requires Equipping(m0, m1, d, maps) == Sound && Spanning(m1, m2, d, first, n) == Sound && i < NENTRIES
    ensures i in Dirs(m2.tables, d) <==> Needed(maps, i) || (n > 0 && DirOf(first) <= i <= DirOf(first + n - 1))
  {
    assert Open(0);
    assert i in Dirs(m1.tables, d) <==> i in TablesOf(maps);
  }

  lemma EquipSum(m0: Mem, m1: Mem, m2: Mem, d: nat, maps: seq<KernelRange>, first: nat, n: nat)
    requires Equipping(m0, m1, d, maps) == Sound && Spanning(m1, m2, d, first, n) == Sound
    ensures |m2.free| + 1 + |Dirs(m2.tables, d)| == |m0.free|
  {
    assert Open(0);
  }

  lemma EquipShort(m: Mem, d: nat, maps: seq<KernelRange>, k: nat, n: nat)
    requires KernelMaps(maps) && k < |maps| && maps[k].va / PGSIZE + n <= LastPage(maps[k])
    requires !P(Ent(m.tables, d, DirOf(maps[k].va / PGSIZE + n)))
    requires forall i: nat :: i < NENTRIES && i in Dirs(m.tables, d) ==>
      Needed(maps[..k], i) || (n > 0 && DirOf(maps[k].va / PGSIZE) <= i <= DirOf(maps[k].va / PGSIZE + n - 1))
    ensures |Dirs(m.tables, d)| < |TablesOf(maps)|
  {
    var x := DirOf(maps[k].va / PGSIZE + n);
    forall i | i in Dirs(m.tables, d) ensures i in TablesOf(maps) {
      SpanNeeded(maps, k, n, i);
    }
    NextNeeded(maps, k, n);
    assert x !in Dirs(m.tables, d);
    Fewer(Dirs(m.tables, d) + {x}, TablesOf(maps));
  }

  lemma NextNeeded(maps: seq<KernelRange>, k: nat, n: nat)
    requires KernelMaps(maps) && k < |maps| && maps[k].va / PGSIZE + n <= LastPage(maps[k])
    ensures DirOf(maps[k].va / PGSIZE + n) in TablesOf(maps)
  {
    var x := DirOf(maps[k].va / PGSIZE + n);
    assert maps[k].va + maps[k].size <= 0x1_0000_0000;
    assert x < NENTRIES;
    assert Spans(maps[k], x);
  }

  lemma SpanNeeded(maps: seq<KernelRange>, k: nat, n: nat, i: nat)
    requires k < |maps| && maps[k].size >= 1 && maps[k].va / PGSIZE + n <= LastPage(maps[k])
    requires Needed(maps[..k], i) || (n > 0 && DirOf(maps[k].va / PGSIZE) <= i <= DirOf(maps[k].va / PGSIZE + n - 1))
    ensures Needed(maps, i)
  {
    if Needed(maps[..k], i) {
      var j :| 0 <= j < k && Spans(maps[..k][j], i);
      assert Spans(maps[j], i);
    } else {
      assert Spans(maps[k], i);
    }
  }

  lemma Fewer(a: set<nat>, b: set<nat>)
    requires a <= b
    ensures |a| <= |b|
  {
    assert b == a + (b - a);
  }

  lemma StartDirectory(m0: Mem, o0: Owners, m: Mem, o: Owners, d: nat)
    requires Health(m0, o0) == Sound && Health(m, o) == Sound && Is(o0, d, Free) && o == o0[d := Held]
    requires m.tables == m0.tables && m.pages == m0.pages
    ensures Health(m.(tables := m.tables[d := Zeros()]), o[d := Dir]) == Sound
    ensures Setting(m0, o0, m.(tables := m.tables[d := Zeros()]), o[d := Dir], d, [], 0) == Sound
  {
    DirectoryViews(m, o, d);
    DirectoryHealth(m, o, d);
    DirectorySet(m0, o0, m, o, d);
  }

  lemma DirectoryViews(m: Mem, o: Owners, d: nat)
    requires Health(m, o) == Sound && Is(o, d, Held)
    ensures AllViews(o, m.tables, m.tables[d := Zeros()])
    ensures forall f, k {:trigger Ent(m.tables[d := Zeros()], f, k)} ::
      Ent(m.tables[d := Zeros()], f, k) == if f == d then Entry(0, 0) else Ent(m.tables, f, k)
  {
    assert Open(0);
    var t' := m.tables[d := Zeros()];
    assert forall f, k {:trigger Ent(t', f, k)} :: Ent(t', f, k) == if f == d then Entry(0, 0) else Ent(m.tables, f, k);
    forall e, i, j | Is(o, e, Dir) && 0 <= i < NENTRIES && 0 <= j < NENTRIES
      ensures View(t', e, i, j) == View(m.tables, e, i, j)
    {
      assert P(Ent(m.tables, e, i)) ==> Is(o, Ent(m.tables, e, i).frame, Table(e, i));
    }
  }

  lemma DirectoryHealth(m: Mem, o: Owners, d: nat)
    requires Health(m, o) == Sound && Is(o, d, Held)
    ensures Health(m.(tables := m.tables[d := Zeros()]), o[d := Dir]) == Sound
  {
    assert Open(0);
    DirectoryViews(m, o, d);
    DirectoryTree(m.tables, o, d);
    assert DataOk(m.tables[d := Zeros()], o[d := Dir]);
    assert MemOk(m.(tables := m.tables[d := Zeros()]), o[d := Dir]);
  }

  lemma DirectorySet(m0: Mem, o0: Owners, m: Mem, o: Owners, d: nat)
    requires Health(m, o) == Sound && Is(o0, d, Free) && o == o0[d := Held] && m.tables == m0.tables
    requires m.pages == m0.pages
    ensures Setting(m0, o0, m.(tables := m.tables[d := Zeros()]), o[d := Dir], d, [], 0) == Sound
  {
    DirectoryViews(m, o, d);
    var t' := m.tables[d := Zeros()];
    forall e, v | Is(o0, e, Dir) && 0 <= v && DirOf(v) < NENTRIES ensures Seen(t', e, v) == Seen(m0.tables, e, v) {
      assert Is(o, e, Dir);
    }
    assert IsSet(m0, o0, m.(tables := t'), o[d := Dir], d, []);
  }

  lemma DirectoryTree(tables: Tables, o: Owners, d: nat)
    requires TreeOk(tables, o) && Is(o, d, Held)
    ensures TreeOk(tables[d := Zeros()], o[d := Dir])
  {
    var t' := tables[d := Zeros()];
    assert forall f, k {:trigger Ent(t', f, k)} :: Ent(t', f, k) == if f == d then Entry(0, 0) else Ent(tables, f, k);
  }

  lemma NextRange(m0: Mem, o0: Owners, m: Mem, o: Owners, d: nat, maps: seq<KernelRange>, k: nat)
    requires KernelMaps(maps) && k < |maps| && Setting(m0, o0, m, o, d, maps[..k], k) == Sound
    ensures var r := maps[k];
      && Is(o, d, Dir) && r.size >= 1 && r.va + r.size <= 0x1_0000_0000
      && HeldFrames(m.pages, o, r.va / PGSIZE, (r.va + r.size - 1) / PGSIZE - r.va / PGSIZE + 1, r.pa)
  {
    assert Open(0);
    assert maps[k].va / PGSIZE >= USERPAGES;
  }

  lemma {:induction false} NotCovered(maps: seq<KernelRange>, k: nat, j: nat, v: nat)
    requires KernelMaps(maps) && j <= k < |maps| && Covers(maps[k], v)
    ensures MapView(maps[..j], v) == None
    decreases j
  {
    if j > 0 {
      assert maps[..j][..j - 1] == maps[..j - 1];
      assert !Covers(maps[j - 1], v);
      NotCovered(maps, k, j - 1, v);
    }
  }

  lemma RangeSet(m0: Mem, o0: Owners, m1: Mem, o1: Owners, m2: Mem, o2: Owners, d: nat, maps: seq<KernelRange>, k: nat,
                 n: nat, r: MapResult)
    requires KernelMaps(maps) && k < |maps| && Setting(m0, o0, m1, o1, d, maps[..k], k) == Sound
    requires var g := maps[k]; Range(m1, o1, m2, o2, d, g.va / PGSIZE, n, g.pa, g.perm) == Sound
    requires var g := maps[k]; var all := (g.va + g.size - 1) / PGSIZE - g.va / PGSIZE + 1;
      n <= all && (r.Mapped? <==> n == all) && (r.Remap? ==> Seen(m2.tables, d, g.va / PGSIZE + n).Some?)
    ensures !r.Remap?
    ensures r.Mapped? ==> Setting(m0, o0, m2, o2, d, maps[..k + 1], k + 1) == Sound
    ensures Taking(m0, o0, m2, o2) == Sound
  {
    assert Open(0);
    var g := maps[k];
    var first := g.va / PGSIZE;
    assert first >= USERPAGES;
    RangeTakes(m0, o0, m1, o1, m2, o2, d, maps[..k], first, n, g.pa, g.perm);
    if n <= (g.va + g.size - 1) / PGSIZE - first {
      var v := first + n;
      NotCovered(maps, k, k, v);
      assert DirOf(v) < NENTRIES;
      assert Seen(m2.tables, d, v) == Seen(m1.tables, d, v);
    } else {
      forall v | 0 <= v && DirOf(v) < NENTRIES ensures Seen(m2.tables, d, v) == MapView(maps[..k + 1], v) {
        assert maps[..k + 1][..k] == maps[..k];
        assert Seen(m1.tables, d, v) == MapView(maps[..k], v);
      }
      assert IsSet(m0, o0, m2, o2, d, maps[..k + 1]);
    }
  }

  /** No address space that was there looks different, no page has other bytes, and only free frames have been
      put to use. */
  ghost predicate OnlyTook(m0: Mem, o0: Owners, m: Mem, o: Owners) {
    && (forall f :: f in o <==> f in o0)
    && (forall f :: f in o0 ==> o[f] == o0[f] || o0[f] == Free)
    && (forall e, v {:trigger Seen(m.tables, e, v)} :: Is(o0, e, Dir) && 0 <= v && DirOf(v) < NENTRIES ==>
        Seen(m.tables, e, v) == Seen(m0.tables, e, v))
    && m.pages == m0.pages
  }

  ghost function Taking(m0: Mem, o0: Owners, m: Mem, o: Owners): Status {
    if forall k {:trigger Open(k)} :: k == 0 ==> OnlyTook(m0, o0, m, o) then Sound else Broken
  }

  lemma NothingTaken(m: Mem, o: Owners)
    ensures Taking(m, o, m, o) == Sound
  {
    assert OnlyTook(m, o, m, o);
  }

  lemma RangeTakes(m0: Mem, o0: Owners, m1: Mem, o1: Owners, m2: Mem, o2: Owners, d: nat, maps: seq<KernelRange>,
                   first: nat, n: nat, pa: nat, perm: nat)
    requires IsSet(m0, o0, m1, o1, d, maps) && first >= USERPAGES
    requires Range(m1, o1, m2, o2, d, first, n, pa, perm) == Sound
    ensures Taking(m0, o0, m2, o2) == Sound
  {
    assert Open(0);
    forall e, v | Is(o0, e, Dir) && 0 <= v && DirOf(v) < NENTRIES
      ensures Seen(m2.tables, e, v) == Seen(m0.tables, e, v)
    {
      assert e != d && Is(o1, e, Dir) && Seen(m1.tables, e, v) == Seen(m0.tables, e, v);
    }
    forall f | f in o0 ensures o2[f] == o0[f] || o0[f] == Free {
      assert InRange(o1, d, first, n, pa, f) == o1[f];
    }
    assert OnlyTook(m0, o0, m2, o2);
  }

  lemma NoUserPages(m0: Mem, o0: Owners, m: Mem, o: Owners, d: nat, maps: seq<KernelRange>)
    requires KernelMaps(maps) && Setting(m0, o0, m, o, d, maps, |maps|) == Sound
    ensures User(m.tables, d, 0)
  {
    assert Open(0);
    forall v | 0 <= v < USERPAGES ensures Seen(m.tables, d, v) == None {
      assert DirOf(v) < NENTRIES;
      BelowKernel(maps, |maps|, v);
      assert maps[..|maps|] == maps;
    }
    assert Contiguous(m.tables, d, 0);
  }

  lemma {:induction false} BelowKernel(maps: seq<KernelRange>, j: nat, v: nat)
    requires KernelMaps(maps) && j <= |maps| && v < USERPAGES
    ensures MapView(maps[..j], v) == None
    decreases j
  {
    if j > 0 {
      assert maps[..j][..j - 1] == maps[..j - 1];
      assert maps[j - 1].va / PGSIZE >= USERPAGES;
      BelowKernel(maps, j - 1, v);
    }
  }

  /** kmap, where `data` is the frame that the kernel's writable data starts at. */
  function Kmap(data: nat): seq<KernelRange>
    requires 0x100 < data < 0xE000
  {
    [KernelRange(KERNBASE, 0x10_0000, 0, 2),
     KernelRange(KERNBASE + 0x10_0000, (data - 0x100) * PGSIZE, 0x100, 0),
     KernelRange(KERNBASE + data * PGSIZE, (0xE000 - data) * PGSIZE, data, 2),
     KernelRange(0xFE00_0000, 0x0200_0000, 0xF_E000, 2)]
  }

  /** Physical memory up to PHYSTOP is seen at KERNBASE, writable except for the kernel's text; devices are seen at
      their own addresses, writable; there is nothing between; and no line overlaps another. */
  lemma KernelSeesMemory(data: nat)
    requires 0x100 < data < 0xE000
    ensures KernelMaps(Kmap(data))
    ensures forall v :: USERPAGES <= v < USERPAGES + 0xE000 ==>
      MapView(Kmap(data), v) == Some(Entry(v - USERPAGES, if 0x100 <= v - USERPAGES < data then 1 else 3))
    ensures forall v :: 0xF_E000 <= v < 0x10_0000 ==> MapView(Kmap(data), v) == Some(Entry(v, 3))
    ensures forall v :: USERPAGES + 0xE000 <= v < 0xF_E000 ==> MapView(Kmap(data), v) == None
  {
    var maps := Kmap(data);
    KmapApart(data);
    DevicesSeen(data);
    assert maps[..3] == [maps[0], maps[1], maps[2]] && maps[..3][..2] == [maps[0], maps[1]]
      && maps[..3][..2][..1] == [maps[0]];
    assert [maps[0]][..0] == [];
    forall v | USERPAGES <= v < USERPAGES + 0xE000
      ensures MapView(maps, v) == Some(Entry(v - USERPAGES, if 0x100 <= v - USERPAGES < data then 1 else 3))
    {
      var f := v - USERPAGES;
      assert MapView([maps[0]], v) == if f < 0x100 then Some(Entry(f, 3)) else None;
      assert MapView(maps[..3][..2], v) == if 0x100 <= f < data then Some(Entry(f, 1)) else MapView([maps[0]], v);
      assert MapView(maps[..3], v) == if data <= f then Some(Entry(f, 3)) else MapView(maps[..3][..2], v);
    }
  }

  lemma DevicesSeen(data: nat)
    requires 0x100 < data < 0xE000
    ensures forall v :: 0xF_E000 <= v < 0x10_0000 ==> MapView(Kmap(data), v) == Some(Entry(v, 3))
    ensures forall v :: USERPAGES + 0xE000 <= v < 0xF_E000 ==> MapView(Kmap(data), v) == None
  {
    var maps := Kmap(data);
    assert maps[..3] == [maps[0], maps[1], maps[2]] && maps[..3][..2] == [maps[0], maps[1]]
      && maps[..3][..2][..1] == [maps[0]];
    assert [maps[0]][..0] == [];
    forall v | USERPAGES + 0xE000 <= v < 0xF_E000 ensures MapView(maps, v) == None {
      assert MapView([maps[0]], v) == None;
      assert MapView(maps[..3][..2], v) == None;
      assert MapView(maps[..3], v) == None;
    }
  }

  lemma KmapApart(data: nat)
    requires 0x100 < data < 0xE000
    ensures KernelMaps(Kmap(data))
  {
    var maps := Kmap(data);
    forall k: nat, v: nat | k < |maps| && Covers(maps[k], v)
      ensures [0x8_0000, 0x8_0100, 0x8_0000 + data, 0xF_E000][k] <= v < [0x8_0100, 0x8_0000
        + data, 0x8_E000, 0x10_0000][k]
    {
    }
  }

  /** An address space takes a directory and 64 tables: 56 for physical memory and 8 for devices. */
  lemma KernelNeedIs(data: nat)
    requires 0x100 < data < 0xE000
    ensures KernelNeed(Kmap(data)) == 65
  {
    var low, high := Interval(512, 568), Interval(1016, 1024);
    KmapTables(data, low, high);
    assert low !! high;
  }

  lemma KmapTables(data: nat, low: set<nat>, high: set<nat>)
    requires 0x100 < data < 0xE000
    requires (forall k :: k in low <==> 512 <= k < 568) && forall k :: k in high <==> 1016 <= k < 1024
    ensures TablesOf(Kmap(data)) == low + high
  {
    forall k: nat | k < NENTRIES ensures k in TablesOf(Kmap(data)) <==> k in low + high {
      KmapSpans(data, k);
    }
  }

  lemma KmapSpans(data: nat, k: nat)
    requires 0x100 < data < 0xE000 && k < NENTRIES
    ensures Needed(Kmap(data), k) <==> 512 <= k < 568 || 1016 <= k
  {
    var maps := Kmap(data);
    assert Spans(maps[0], k) <==> k == 512;
    assert Spans(maps[1], k) <==> 512 <= k <= DirOf(0x8_0000 + data - 1);
    assert Spans(maps[2], k) <==> DirOf(0x8_0000 + data) <= k <= 567;
    assert Spans(maps[3], k) <==> 1016 <= k <= 1023;
    assert DirOf(0x8_0000 + data) <= DirOf(0x8_0000 + data - 1) + 1;
  }

  /** The numbers from `lo` on and below `hi`. */
  function Interval(lo: nat, hi: nat): (r: set<nat>)
    requires lo <= hi
    ensures |r| == hi - lo && forall k :: k in r <==> lo <= k < hi
    decreases hi
  {
    if lo == hi then {} else Interval(lo, hi - 1) + {hi - 1}
  }

  // ------------------------------------------------------------------ copying an address space

  datatype CopyStep = Copied | OutOfMemory | Missing

  datatype CopyResult = Child(d: nat) | NoChild | NoKernelPart | Panics

  /** Page `v` of `c` is a copy of page `v` of `d`: a frame of its own, the same flags, the same bytes. */
  ghost predicate IsCopy(m0: Mem, o0: Owners, m: Mem, o: Owners, d: nat, c: nat, v: nat) {
    var x, y := Seen(m0.tables, d, v), Seen(m.tables, c, v);
    && x.Some? && y.Some? && y.value.flags == x.value.flags
    && Is(o0, y.value.frame, Free) && Is(o, y.value.frame, Data(c, DirOf(v), IndexOf(v)))
    && x.value.frame in m0.pages && y.value.frame in m.pages && m.pages[y.value.frame] == m0.pages[x.value.frame]
  }

  ghost predicate ForChild(r0: Role, r: Role, dir: bool, c: nat, lost: bool) {
    if lost then r0 == Free && r == Held
    else r == r0 || (r0 == Free && ((dir && r == Dir) || (r.Table? && r.d == c) || (r.Data? && r.d == c)))
  }

  /** The first `a` pages of `d` are copied to `c`, which has the kernel part too and no other page. Nothing
      that was there before is different. */
  ghost predicate CopiedTo(m0: Mem, o0: Owners, m: Mem, o: Owners, d: nat, c: nat, a: nat, maps: seq<KernelRange>,
                           lost: Option<nat>)
  {
    && Is(o0, c, Free) && Is(o, c, Dir) && (lost.Some? ==> Is(o0, lost.value, Free))
    && (forall e, v {:trigger Seen(m.tables, e, v)} :: Is(o0, e, Dir) && 0 <= v && DirOf(v) < NENTRIES ==>
        Seen(m.tables, e, v) == Seen(m0.tables, e, v))
    && (forall v {:trigger IsCopy(m0, o0, m, o, d, c, v)} :: 0 <= v < a ==> IsCopy(m0, o0, m, o, d, c, v))
    && (forall v {:trigger Seen(m.tables, c, v)} :: a <= v && DirOf(v) < NENTRIES ==>
        Seen(m.tables, c, v) == MapView(maps, v))
    && (forall f :: f in o <==> f in o0)
    && (forall f :: f in o0 ==> ForChild(o0[f], o[f], f == c, c, lost == Some(f)))
    && (forall f :: f in o0 && o0[f].Data? ==> f in m.pages && f in m0.pages && m.pages[f] == m0.pages[f])
  }

  ghost function Copying(m0: Mem, o0: Owners, m: Mem, o: Owners, d: nat, c: nat, a: nat, maps: seq<KernelRange>,
                         lost: Option<nat>): Status
  {
    if forall k {:trigger Open(k)} :: k == 0 ==> CopiedTo(m0, o0, m, o, d, c, a, maps, lost) then Sound else Broken
  }

  /** All is as before, except perhaps for one frame. */
  ghost predicate Undid(m0: Mem, o0: Owners, m: Mem, o: Owners, lost: Option<nat>) {
    && (forall f :: f in o <==> f in o0)
    && (forall f :: f in o0 ==> o[f] == if lost == Some(f) then Held else o0[f])
    && (lost.Some? ==> Is(o0, lost.value, Free))
    && (forall e, v {:trigger Seen(m.tables, e, v)} :: Is(o0, e, Dir) && 0 <= v && DirOf(v) < NENTRIES ==>
        Seen(m.tables, e, v) == Seen(m0.tables, e, v))
    && (forall f :: f in o0 && o0[f].Data? ==> f in m.pages && f in m0.pages && m.pages[f] == m0.pages[f])
  }

  ghost function Undoing(m0: Mem, o0: Owners, m: Mem, o: Owners, lost: Option<nat>): Status {
    if forall k {:trigger Open(k)} :: k == 0 ==> Undid(m0, o0, m, o, lost) then Sound else Broken
  }

  /** How many frames a copy of pages 0 to `a - 1` takes, tables included. */
  function CopyNeed(a: nat): nat {
    a + (a + NENTRIES - 1) / NENTRIES
  }

  /** With so many frames left for at most `pages` pages, the last one goes to a page that then finds none for its
      table. */
  ghost predicate LosesCopy(spare: int, pages: nat) {
    exists a: nat :: a < pages && IndexOf(a) == 0 && spare == CopyNeed(a) + 1
  }

  lemma {:induction false} CopyGrows(a: nat, b: nat)
    requires a <= b
    ensures CopyNeed(a) + (b - a) <= CopyNeed(b)
    ensures IndexOf(a) == 0 && a < b ==> CopyNeed(a) + 2 <= CopyNeed(b)
  {
  }

  /** Running out at page `a`. */
  lemma {:induction false} CopyFate(spare: nat, pages: nat, n: nat, a: nat, lost: bool)
    requires a < pages && a < n && spare == CopyNeed(a) + (if lost then 1 else 0) && (lost ==> IndexOf(a) == 0)
    ensures spare < CopyNeed(n) && spare < CopyNeed(pages)
    ensures lost <==> LosesCopy(spare, Min(pages, n))
  {
    CopyGrows(a, n);
    CopyGrows(a, pages);
    if !lost {
      forall b: nat | b < Min(pages, n) && IndexOf(b) == 0 ensures spare != CopyNeed(b) + 1 {
        if a <= b {
          CopyGrows(a, b);
        } else {
          CopyGrows(b, a);
        }
      }
    }
  }

  /** `c` has the tables for the first `a` pages, and so many frames are taken. */
  ghost predicate Tallied(m0: Mem, m: Mem, c: nat, a: nat, maps: seq<KernelRange>) {
    && (forall k {:trigger Ent(m.tables, c, k)} :: 0 <= k < USERDIRS ==> (P(Ent(m.tables, c, k)) <==> k * NENTRIES < a))
    && |m.free| + KernelNeed(maps) + CopyNeed(a) == |m0.free|
  }

  ghost function Tally(m0: Mem, m: Mem, c: nat, a: nat, maps: seq<KernelRange>): Status {
    if forall k {:trigger Open(k)} :: k == 0 ==> Tallied(m0, m, c, a, maps) then Sound else Broken
  }

  lemma TallyCount(m0: Mem, m: Mem, c: nat, a: nat, maps: seq<KernelRange>)
    requires Tally(m0, m, c, a, maps) == Sound
    ensures |m.free| + KernelNeed(maps) + CopyNeed(a) == |m0.free|
  {
    assert Open(0);
  }

  lemma TallyStart(m0: Mem, m: Mem, c: nat, maps: seq<KernelRange>)
    requires KernelMaps(maps) && Equipping(m0, m, c, maps) == Sound
    ensures Tally(m0, m, c, 0, maps) == Sound
  {
    assert Open(0);
    forall k | 0 <= k < USERDIRS ensures !P(Ent(m.tables, c, k)) {
      assert k in Dirs(m.tables, c) <==> k in TablesOf(maps);
      forall j | 0 <= j < |maps| ensures !Spans(maps[j], k) {
        assert DirOf(maps[j].va / PGSIZE) >= USERDIRS;
      }
    }
    assert Tallied(m0, m, c, 0, maps);
  }

  lemma TallyStep(m0: Mem, m1: Mem, m2: Mem, m3: Mem, c: nat, a: nat, maps: seq<KernelRange>, q: MapResult)
    requires Tally(m0, m1, c, a, maps) == Sound && a < USERPAGES && m2.tables == m1.tables && |m2.free| + 1 == |m1.free|
    requires q.Mapped? ==> DirPlus(m2.tables, m3.tables, c, DirOf(a))
    requires q.Mapped? ==> |m3.free| + (if P(Ent(m2.tables, c, DirOf(a))) then 0 else 1) == |m2.free|
    requires q.NoMemory? ==> !P(Ent(m2.tables, c, DirOf(a))) && m2.free == []
    ensures q.Mapped? ==> Tally(m0, m3, c, a + 1, maps) == Sound
    ensures q.NoMemory? ==> IndexOf(a) == 0 && |m0.free| == KernelNeed(maps) + CopyNeed(a) + 1
  {
    assert Open(0);
    assert DirOf(a) < USERDIRS && DirOf(a) * NENTRIES <= a;
    assert P(Ent(m1.tables, c, DirOf(a))) <==> IndexOf(a) != 0;
    if q.Mapped? {
      forall k | 0 <= k < USERDIRS ensures P(Ent(m3.tables, c, k)) <==> k * NENTRIES < a + 1 {
        assert P(Ent(m3.tables, c, k)) == (k == DirOf(a) || P(Ent(m2.tables, c, k)));
      }
      assert Tallied(m0, m3, c, a + 1, maps);
    }
  }

  lemma CopyStart(m0: Mem, o0: Owners, m: Mem, o: Owners, d: nat, c: nat, maps: seq<KernelRange>)
    requires Health(m0, o0) == Sound && Setting(m0, o0, m, o, c, maps, |maps|) == Sound
    ensures Copying(m0, o0, m, o, d, c, 0, maps, None) == Sound
  {
    assert Open(0);
    forall f | f in o0 ensures ForChild(o0[f], o[f], f == c, c, None == Some(f)) {
    }
    assert CopiedTo(m0, o0, m, o, d, c, 0, maps, None);
  }

  lemma CopyDirs(m0: Mem, o0: Owners, m: Mem, o: Owners, d: nat, c: nat, a: nat, maps: seq<KernelRange>, n: nat)
    requires Copying(m0, o0, m, o, d, c, a, maps, None) == Sound && Is(o0, d, Dir) && Begins(m0.tables, d, n) == Sound
    requires a < USERPAGES && a <= n
    ensures Is(o, d, Dir) && Is(o, c, Dir) && DirOf(a) < NENTRIES
    ensures Seen(m.tables, d, a).Some? <==> a < n
  {
    assert Open(0);
    assert DirOf(a) < NENTRIES && Seen(m.tables, d, a) == Seen(m0.tables, d, a);
    assert ForChild(o0[d], o[d], d == c, c, false);
  }

  /** The page to copy is where its bytes are. */
  lemma CopySource(m0: Mem, o0: Owners, m: Mem, o: Owners, d: nat, c: nat, a: nat, maps: seq<KernelRange>)
    requires Health(m0, o0) == Sound && Copying(m0, o0, m, o, d, c, a, maps, None) == Sound && Is(o0, d, Dir)
    requires a < USERPAGES
    requires Seen(m.tables, d, a).Some?
    ensures var f := Seen(m.tables, d, a).value.frame;
      Seen(m0.tables, d, a) == Seen(m.tables, d, a) && Is(o0, f, Data(d, DirOf(a), IndexOf(a))) && f in m.pages
        && f in m0.pages && m.pages[f] == m0.pages[f]
  {
    assert Open(0);
    assert DirOf(a) < USERDIRS;
    var pde := Ent(m0.tables, d, DirOf(a));
    assert Seen(m.tables, d, a) == Seen(m0.tables, d, a);
    assert Is(o0, pde.frame, Table(d, DirOf(a)));
  }

  lemma CopyUser(m0: Mem, o0: Owners, m: Mem, o: Owners, d: nat, c: nat, a: nat, maps: seq<KernelRange>,
                 lost: Option<nat>)
    requires Copying(m0, o0, m, o, d, c, a, maps, lost) == Sound && KernelMaps(maps) && a <= USERPAGES
    ensures User(m.tables, c, a) && Is(o, c, Dir)
  {
    assert Open(0);
    forall v | 0 <= v < USERPAGES ensures Seen(m.tables, c, v).Some? <==> v < a {
      assert DirOf(v) < NENTRIES;
      if v < a {
        assert IsCopy(m0, o0, m, o, d, c, v);
      } else {
        BelowKernel(maps, |maps|, v);
        assert maps[..|maps|] == maps;
      }
    }
    assert Contiguous(m.tables, c, a);
  }

  /** A frame has been taken and filled. */
  ghost predicate Filled(m1: Mem, o1: Owners, m2: Mem, o2: Owners, f: nat, b: Bytes) {
    Is(o1, f, Free) && o2 == o1[f := Held] && m2.tables == m1.tables && m2.pages == m1.pages[f := b]
  }

  lemma CopyLost(m0: Mem, o0: Owners, m1: Mem, o1: Owners, m2: Mem, o2: Owners, d: nat, c: nat, a: nat,
                 maps: seq<KernelRange>, f: nat, b: Bytes)
    requires Copying(m0, o0, m1, o1, d, c, a, maps, None) == Sound && Filled(m1, o1, m2, o2, f, b)
    ensures Copying(m0, o0, m2, o2, d, c, a, maps, Some(f)) == Sound
  {
    assert Open(0);
    assert ForChild(o0[f], o1[f], f == c, c, false);
    forall v | 0 <= v < a ensures IsCopy(m0, o0, m2, o2, d, c, v) {
      assert IsCopy(m0, o0, m1, o1, d, c, v);
    }
    forall g | g in o0 ensures ForChild(o0[g], o2[g], g == c, c, Some(f) == Some(g)) {
      assert ForChild(o0[g], o1[g], g == c, c, false);
    }
    assert CopiedTo(m0, o0, m2, o2, d, c, a, maps, Some(f));
  }

  lemma CopyOwners(m0: Mem, o0: Owners, m1: Mem, o1: Owners, o2: Owners, o3: Owners, d: nat, c: nat, a: nat,
                   maps: seq<KernelRange>, f: nat)
    requires CopiedTo(m0, o0, m1, o1, d, c, a, maps, None) && Is(o1, f, Free) && o2 == o1[f := Held]
    requires Grown(Placed(o2, c, a, f), o3, c) && a < USERPAGES
    ensures Is(o0, f, Free) && Is(o3, f, Data(c, DirOf(a), IndexOf(a))) && Is(o3, c, Dir)
    ensures forall g :: g in o3 <==> g in o0
    ensures forall g :: g in o0 ==>
      ForChild(o0[g], o3[g], g == c, c, false) && (o1[g].Data? ==> o3[g] == o1[g]) && (o1[g] == Dir ==> o2[g] == Dir)
  {
    assert ForChild(o0[f], o1[f], f == c, c, false);
    forall g | g in o0
      ensures ForChild(o0[g], o3[g], g == c, c, false) && (o1[g].Data? ==> o3[g] == o1[g])
      ensures o1[g] == Dir ==> o2[g] == Dir
    {
      assert ForChild(o0[g], o1[g], g == c, c, false);
    }
  }

  lemma CopyViews(m0: Mem, o0: Owners, m1: Mem, o1: Owners, m2: Mem, o2: Owners, m3: Mem, d: nat, c: nat, a: nat,
                  maps: seq<KernelRange>, f: nat)
    requires CopiedTo(m0, o0, m1, o1, d, c, a, maps, None) && Is(o1, f, Free) && o2 == o1[f := Held]
    requires m2.tables == m1.tables
    requires Elsewhere(o2, m2.tables, m3.tables, c, a)
    ensures forall x, v {:trigger Seen(m3.tables, x, v)} ::
      0 <= v && DirOf(v) < NENTRIES && (Is(o0, x, Dir) || (x == c && v != a)) ==>
      Seen(m3.tables, x, v) == Seen(m1.tables, x, v)
  {
    forall x, v | 0 <= v && DirOf(v) < NENTRIES && (Is(o0, x, Dir) || (x == c && v != a))
      ensures Seen(m3.tables, x, v) == Seen(m1.tables, x, v)
    {
      assert x in o0 && ForChild(o0[x], o1[x], x == c, c, false);
      SeenElsewhere(o2, m2.tables, m3.tables, c, a, x, v);
    }
  }

  lemma CopyMapped(m0: Mem, o0: Owners, m1: Mem, o1: Owners, m2: Mem, o2: Owners, m3: Mem, o3: Owners, d: nat, c: nat,
                   a: nat, maps: seq<KernelRange>, f: nat, e: Entry)
    requires Health(m0, o0) == Sound && Copying(m0, o0, m1, o1, d, c, a, maps, None) == Sound && Is(o0, d, Dir)
    requires a < USERPAGES
    requires Seen(m1.tables, d, a) == Some(e) && e.flags % 2 == 1 && e.frame in m1.pages
    requires Filled(m1, o1, m2, o2, f, m1.pages[e.frame])
    requires MappedOne(m2, o2, m3, o3, c, a, f, e.flags)
    ensures Copying(m0, o0, m3, o3, d, c, a + 1, maps, None) == Sound
  {
    CopySource(m0, o0, m1, o1, d, c, a, maps);
    CopyMapped1(m0, o0, m1, o1, m2, o2, m3, o3, d, c, a, maps, f, e) by {
      assert Open(0);
    }
    assert CopiedTo(m0, o0, m3, o3, d, c, a + 1, maps, None);
  }

  lemma CopyMapped1(m0: Mem, o0: Owners, m1: Mem, o1: Owners, m2: Mem, o2: Owners, m3: Mem, o3: Owners, d: nat, c: nat,
                    a: nat, maps: seq<KernelRange>, f: nat, e: Entry)
    requires CopiedTo(m0, o0, m1, o1, d, c, a, maps, None) && a < USERPAGES && Seen(m0.tables, d, a) == Some(e)
    requires e.frame in m1.pages && e.frame in m0.pages && m1.pages[e.frame] == m0.pages[e.frame]
    requires Filled(m1, o1, m2, o2, f, m1.pages[e.frame])
    requires MappedOne(m2, o2, m3, o3, c, a, f, e.flags)
    ensures CopiedTo(m0, o0, m3, o3, d, c, a + 1, maps, None)
  {
    CopyOwners(m0, o0, m1, o1, o2, o3, d, c, a, maps, f);
    CopyViews(m0, o0, m1, o1, m2, o2, m3, d, c, a, maps, f);
    forall v | 0 <= v < a + 1 ensures IsCopy(m0, o0, m3, o3, d, c, v) {
      if v < a {
        assert DirOf(v) < NENTRIES && IsCopy(m0, o0, m1, o1, d, c, v);
      }
    }
    forall g | g in o0 ensures ForChild(o0[g], o3[g], g == c, c, None == Some(g)) {
    }
  }

  lemma CopyStepDone(m0: Mem, o0: Owners, m1: Mem, o1: Owners, m2: Mem, o2: Owners, m3: Mem, o3: Owners, d: nat, c: nat,
                     a: nat, maps: seq<KernelRange>, f: nat, e: Entry, q: MapResult)
    requires Health(m0, o0) == Sound && Copying(m0, o0, m1, o1, d, c, a, maps, None) == Sound && Is(o0, d, Dir)
    requires a < USERPAGES && KernelMaps(maps)
    requires Seen(m1.tables, d, a) == Some(e) && e.flags % 2 == 1 && e.frame in m1.pages
    requires Filled(m1, o1, m2, o2, f, m1.pages[e.frame])
    requires q.Mapped? ==> MappedOne(m2, o2, m3, o3, c, a, f, e.flags)
    requires q.NoMemory? ==> m3 == m2 && o3 == o2
    requires q.Remap? <==> Seen(m2.tables, c, a).Some?
    ensures !q.Remap?
    ensures q.Mapped? ==> Copying(m0, o0, m3, o3, d, c, a + 1, maps, None) == Sound
    ensures !q.Mapped? ==> Copying(m0, o0, m3, o3, d, c, a, maps, Some(f)) == Sound
  {
    if q.Mapped? {
      CopyMapped(m0, o0, m1, o1, m2, o2, m3, o3, d, c, a, maps, f, e);
    } else {
      CopyFree(m0, o0, m1, o1, d, c, a, maps);
      CopyLost(m0, o0, m1, o1, m2, o2, d, c, a, maps, f, m1.pages[e.frame]);
    }
  }

  lemma CopyFree(m0: Mem, o0: Owners, m: Mem, o: Owners, d: nat, c: nat, a: nat, maps: seq<KernelRange>)
    requires Copying(m0, o0, m, o, d, c, a, maps, None) == Sound && KernelMaps(maps) && a < USERPAGES
    ensures Seen(m.tables, c, a) == None
  {
    assert Open(0);
    assert DirOf(a) < NENTRIES;
    BelowKernel(maps, |maps|, a);
    assert maps[..|maps|] == maps;
  }

  /** Giving up the child's address space puts everything back. */
  lemma CopyUndone(m0: Mem, o0: Owners, m1: Mem, o1: Owners, m: Mem, o: Owners, d: nat, c: nat, a: nat,
                   maps: seq<KernelRange>, lost: Option<nat>)
    requires Health(m0, o0) == Sound && Health(m1, o1) == Sound && Copying(m0, o0, m1, o1, d, c, a, maps, lost) == Sound
    requires Release(m1, o1, m, o, c) == Sound
    ensures Undoing(m0, o0, m, o, lost) == Sound
  {
    forall f | f in o0
      ensures f in o && f in o1 && o[f] == (if lost == Some(f) then Held else o0[f])
      ensures o0[f].Data? ==> o[f] == o1[f] == o0[f]
    {
      UndoneFrame(m0, o0, m1, o1, m, o, d, c, a, maps, lost, f);
    }
    assert Open(0);
    assert Undid(m0, o0, m, o, lost);
  }

  lemma UndoneFrame(m0: Mem, o0: Owners, m1: Mem, o1: Owners, m: Mem, o: Owners, d: nat, c: nat, a: nat,
                    maps: seq<KernelRange>, lost: Option<nat>, f: nat)
    requires Health(m0, o0) == Sound && Copying(m0, o0, m1, o1, d, c, a, maps, lost) == Sound
    requires Release(m1, o1, m, o, c) == Sound
    requires f in o0
    ensures f in o && f in o1 && o[f] == (if lost == Some(f) then Held else o0[f])
    ensures o0[f].Data? ==> o[f] == o1[f] == o0[f]
  {
    assert Open(0);
    assert ForChild(o0[f], o1[f], f == c, c, lost == Some(f));
    UsedBefore(m0, o0, f, c);
  }

  /** A frame in use does not belong to a directory that is not there. */
  lemma UsedBefore(m: Mem, o: Owners, f: nat, c: nat)
    requires MemOk(m, o) && f in o && Is(o, c, Free)
    ensures f != c ==> !Belongs(o, f, c)
  {
  }

  // ------------------------------------------------------------------ memories that lose a frame

  const EmptyTables: Tables := map[1 := Zeros()]
  const FewOwners: Owners := map[1 := Dir, 2 := Free, 3 := Held, 4 := Held]

  /** An empty directory in frame 1; frame 2 is free, and frames 3 and 4 are in use by the kernel. */
  lemma OneFrame()
    ensures var m := Mem([2], EmptyTables, map[]);
      && Health(m, FewOwners) == Sound && User(m.tables, 1, 0) && ShortByLastTable(m, 1, 0, 1)
  {
    var m := Mem([2], EmptyTables, map[]);
    assert forall k :: 0 <= k < NENTRIES ==> !P(Ent(m.tables, 1, k));
    assert Contiguous(m.tables, 1, 0);
    assert NeedsTable(m.tables, 1, 0, 0) && Need(m.tables, 1, 0, 0) == 0;
    assert MemOk(m, FewOwners);
  }

  /** There allocuvm, asked for one page, reports success without mapping it, and the frame is lost. */
  method AllocLosesFrame() returns (vm: Vm, r: nat, ghost lost: Option<nat>)
    ensures fresh(vm) && vm.Valid() && r == PGSIZE && lost == Some(2)
    ensures User(vm.mem.tables, 1, 0) && vm.mem.free == []
    ensures vm.owner == FewOwners[2 := Held]
  {
    OneFrame();
    vm := new Vm(Mem([2], EmptyTables, map[]), FewOwners);
    ghost var m0, o0 := vm.mem, vm.owner;
    UserIs(m0.tables, 1, 0, 0);
    r, lost := vm.AllocUvm(1, 0, PGSIZE);
    LostFree(m0, vm.mem, vm.owner, r == PGSIZE, lost);
  }

  lemma LostFree(m0: Mem, m: Mem, o: Owners, ok: bool, lost: Option<nat>)
    requires ShortByLastTable(m0, 1, 0, 1) && |m0.free| == 1
    requires Growth(m0, FewOwners, m, o, 1, 0, 1, ok, lost) == Sound
    ensures ok && lost == Some(2) && User(m.tables, 1, 0) && m.free == [] && o == FewOwners[2 := Held]
  {
    assert Open(0);
    assert Contiguous(m.tables, 1, 0);
    forall f | f in FewOwners ensures f in o && o[f] == FewOwners[2 := Held][f] {
      assert MayBecome(FewOwners[f], o[f], 1, 0, 0, lost == Some(f));
    }
  }

  /** Asked for another page when two frames have become free, it maps that one, and the first stays a hole: the user
      part is contiguous no more. It has tables, so freevm returns every frame of it. */
  method AllocLeavesHole() returns (vm: Vm, r: nat)
    ensures fresh(vm) && vm.Valid() && r == 2 * PGSIZE && Is(vm.owner, 1, Dir)
    ensures Seen(vm.mem.tables, 1, 0) == None && Seen(vm.mem.tables, 1, 1).Some? && !Joined(vm.mem.tables, 1)
    ensures Reach(vm.mem.tables, 1, 0, 2) == Sound
  {
    ghost var lost;
    vm, r, lost := AllocLosesFrame();
    ghost var t, o := vm.mem.tables, vm.owner;
    vm.Kfree(3);
    UserKept(o, t, vm.mem.tables, 1, 0);
    t, o := vm.mem.tables, vm.owner;
    vm.Kfree(4);
    UserKept(o, t, vm.mem.tables, 1, 0);
    ghost var m0, o0 := vm.mem, vm.owner;
    StillEmpty(m0, o0);
    UserIs(m0.tables, 1, 0, 1);
    r, lost := vm.AllocUvm(1, PGSIZE, 2 * PGSIZE);
    HoleStays(m0, o0, vm.mem, vm.owner, r == 2 * PGSIZE, lost);
  }

  lemma UserKept(o: Owners, t: Tables, t': Tables, d: nat, n: nat)
    requires AllViews(o, t, t') && Is(o, d, Dir) && User(t, d, n)
    ensures User(t', d, n)
  {
    assert Open(0);
    forall v | 0 <= v < USERPAGES ensures Seen(t', d, v) == Seen(t, d, v) {
      assert DirOf(v) < NENTRIES;
    }
    assert Contiguous(t', d, n);
  }

  lemma StillEmpty(m: Mem, o: Owners)
    requires Is(o, 1, Dir) && |m.free| == 2 && User(m.tables, 1, 0)
    ensures MapsSome(m, 1, 1, 2) && Need(m.tables, 1, 1, 2) <= 2
  {
  }

  lemma HoleStays(m0: Mem, o0: Owners, m: Mem, o: Owners, ok: bool, lost: Option<nat>)
    requires Is(o0, 1, Dir) && User(m0.tables, 1, 0) && Need(m0.tables, 1, 1, 2) <= |m0.free|
    requires Growth(m0, o0, m, o, 1, 1, 2, ok, lost) == Sound
    ensures ok && Seen(m.tables, 1, 0) == None && Seen(m.tables, 1, 1).Some? && Reach(m.tables, 1, 0, 2) == Sound
  {
    assert Open(0);
    assert Seen(m.tables, 1, 0) == Seen(m0.tables, 1, 0);
    forall v: nat | v < 2 ensures P(Ent(m.tables, 1, DirOf(v))) {
      assert DirOf(v) == DirOf(1) == 0;
    }
    assert Tabled(m.tables, 1, 0, 2);
  }

  function SmallTables(): Tables {
    map[1 := Zeros()[0 := Entry(2, 7)], 2 := Zeros()[0 := Entry(3, 7)]]
  }

  function SmallOwners(n: nat): Owners {
    var frames := Interval(1, 4 + n);
    map f | f in frames ::
      if f == 1 then Dir else if f == 2 then Table(1, 0) else if f == 3 then Data(1, 0, 0) else Free
  }

  /** A directory in frame 1, its table in frame 2, its one page in frame 3, and `n` free frames. */
  function Small(n: nat): Mem {
    Mem(seq(n, i => i + 4), SmallTables(), map[3 := ZeroPage()])
  }

  lemma SmallEnts(f: nat, k: nat)
    ensures Ent(SmallTables(), f, k) ==
      if f == 1 && k == 0 then Entry(2, 7) else if f == 2 && k == 0 then Entry(3, 7) else Entry(0, 0)
  {
  }

  lemma SmallTree(n: nat)
    ensures TreeOk(SmallTables(), SmallOwners(n))
  {
    var t, o := SmallTables(), SmallOwners(n);
    forall d: nat, i: nat | Is(o, d, Dir) && i < NENTRIES && P(Ent(t, d, i))
      ensures Is(o, Ent(t, d, i).frame, Table(d, i))
    {
      SmallEnts(d, i);
    }
    SmallEnts(1, 0);
  }

  lemma SmallData(n: nat)
    ensures DataOk(SmallTables(), SmallOwners(n))
  {
    var t, o := SmallTables(), SmallOwners(n);
    forall f: nat, j: nat | f in o && o[f].Table? && o[f].i < USERDIRS && j < NENTRIES && P(Ent(t, f, j))
      ensures Is(o, Ent(t, f, j).frame, Data(o[f].d, o[f].i, j))
    {
      SmallEnts(f, j);
    }
    SmallEnts(1, 0);
    SmallEnts(2, 0);
  }

  lemma SmallIsSound(n: nat)
    ensures Health(Small(n), SmallOwners(n)) == Sound && User(Small(n).tables, 1, 1)
  {
    var t, o := SmallTables(), SmallOwners(n);
    SmallTree(n);
    SmallData(n);
    forall f | f in o && o[f] == Free ensures f in Small(n).free {
      assert Small(n).free[f - 4] == f;
    }
    assert MemOk(Small(n), o);
    forall v | 0 <= v < USERPAGES ensures Seen(t, 1, v).Some? <==> v < 1 {
      PageIs(v);
      SmallEnts(1, DirOf(v));
      SmallEnts(2, IndexOf(v));
    }
    assert Contiguous(t, 1, 1);
  }

  /** With 66 free frames, copyuvm finds 65 for the kernel part, takes the last for the page, finds none for its
      table, and does not give back the page's. */
  method CopyLosesFrame(data: nat) returns (r: CopyResult, ghost lost: Option<nat>)
    requires 0x100 < data < 0xE000
    ensures r == NoChild && lost.Some?
  {
    SmallIsSound(66);
    KernelNeedIs(data);
    KmapApart(data);
    var vm := new Vm(Small(66), SmallOwners(66));
    assert IndexOf(0) == 0 && CopyNeed(0) == 0;
    UserIs(vm.mem.tables, 1, 1, 0);
    r, lost := vm.CopyUvm(1, PGSIZE, Kmap(data), 1);
  }
}
