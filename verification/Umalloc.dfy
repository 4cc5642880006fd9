/** umalloc.c: the Kernighan and Ritchie allocator. Addresses count units of one Header; `base` is the
    address of the static empty block, below everything that sbrk returns. */
module HeapModel {
  /** The header fields of every block, free or in use. */
  datatype Mem = Mem(ptr: map<nat, nat>, size: map<nat, nat>)

  ghost predicate Sorted(ring: seq<nat>) {
    forall i, j :: 0 <= i < j < |ring| ==> ring[i] < ring[j]
  }

  /** The free list: `ring` has the free blocks in address order, `base` first; each leads to the
      next, and the last back to `base`. */
  ghost predicate IsRing(m: Mem, ring: seq<nat>, base: nat) {
    && |ring| >= 1 && ring[0] == base && Sorted(ring)
    && (forall i :: 0 <= i < |ring| ==> ring[i] in m.ptr && ring[i] in m.size)
    && (forall i, j :: 0 <= i < j < |ring| && j == i + 1 ==> m.ptr[ring[i]] == ring[j])
    && m.ptr[ring[|ring| - 1]] == base
    && m.size[base] == 0
  }

  /** Free blocks lie below `brk`, in order, and none touches the next, except perhaps those with
      index from `lo` to `hi`. */
  ghost predicate ApartExcept(m: Mem, ring: seq<nat>, base: nat, brk: nat, lo: int, hi: int)
    requires IsRing(m, ring, base)
  {
    && (forall i :: 1 <= i < |ring| ==> m.size[ring[i]] >= 1 && ring[i] + m.size[ring[i]] <= brk)
    && (forall i, j :: 1 <= i < j < |ring| ==> ring[i] + m.size[ring[i]] <= ring[j])
    && forall i, j :: 1 <= i < j < |ring| && !(lo <= i < hi && j == i + 1) ==> ring[i] + m.size[ring[i]] < ring[j]
  }

  ghost predicate Apart(m: Mem, ring: seq<nat>, base: nat, brk: nat)
    requires IsRing(m, ring, base)
  {
    ApartExcept(m, ring, base, brk, 0, 0)
  }

  /** Two stretches of memory do not overlap. */
  predicate NoOverlap(a: nat, n: nat, b: nat, k: nat) {
    a + n <= b || b + k <= a
  }

  /** The blocks handed out: their headers are intact, and they overlap neither each other nor a free
      block. */
  ghost predicate LiveOk(m: Mem, ring: seq<nat>, live: map<nat, nat>, base: nat, brk: nat)
    requires IsRing(m, ring, base)
  {
    && (forall a :: a in live ==> a in m.size && m.size[a] == live[a] >= 1 && base < a && a + live[a] <= brk)
    && (forall a, i {:trigger NoOverlap(a, live[a], ring[i], m.size[ring[i]])} ::
          a in live && 1 <= i < |ring| ==> NoOverlap(a, live[a], ring[i], m.size[ring[i]]))
    && forall a, b {:trigger NoOverlap(a, live[a], b, live[b])} ::
         a in live && b in live && a != b ==> NoOverlap(a, live[a], b, live[b])
  }

  ghost predicate HeapOk(m: Mem, ring: seq<nat>, live: map<nat, nat>, base: nat, brk: nat) {
    && IsRing(m, ring, base)
    && base < brk
    && Apart(m, ring, base, brk)
    && LiveOk(m, ring, live, base, brk)
  }

  // ------------------------------------------------------------------ units

  ghost function SizeOf(size: map<nat, nat>, p: nat): nat {
    if p in size then size[p] else 0
  }

  ghost function FreeUnits(size: map<nat, nat>, ring: seq<nat>): nat {
    if ring == [] then 0 else FreeUnits(size, ring[..|ring| - 1]) + SizeOf(size, ring[|ring| - 1])
  }

  ghost function LiveUnits(live: map<nat, nat>): nat
    decreases |live|
  {
    if live == map[] then 0 else
      var a :| a in live;
      live[a] + LiveUnits(live - {a})
  }

  lemma {:induction false} LiveUnitsRemove(live: map<nat, nat>, a: nat)
    requires a in live
    ensures LiveUnits(live) == live[a] + LiveUnits(live - {a})
    decreases |live|
  {
    var b :| b in live && LiveUnits(live) == live[b] + LiveUnits(live - {b});
    if b != a {
      LiveUnitsRemove(live - {b}, a);
      LiveUnitsRemove(live - {a}, b);
      assert live - {a} - {b} == live - {b} - {a};
    }
  }

  lemma LiveUnitsAdd(live: map<nat, nat>, a: nat, n: nat)
    requires a !in live
    ensures LiveUnits(live[a := n]) == LiveUnits(live) + n
  {
    LiveUnitsRemove(live[a := n], a);
    assert live[a := n] - {a} == live;
  }

  lemma {:induction false} FreeUnitsConcat(size: map<nat, nat>, r1: seq<nat>, r2: seq<nat>)
    ensures FreeUnits(size, r1 + r2) == FreeUnits(size, r1) + FreeUnits(size, r2)
    decreases |r2|
  {
    if r2 == [] {
      assert r1 + r2 == r1;
    } else {
      var k := |r2| - 1;
      assert (r1 + r2)[..|r1 + r2| - 1] == r1 + r2[..k];
      FreeUnitsConcat(size, r1, r2[..k]);
    }
  }

  lemma {:induction false} FreeUnitsSame(s1: map<nat, nat>, s2: map<nat, nat>, ring: seq<nat>)
    requires forall i :: 0 <= i < |ring| ==> SizeOf(s1, ring[i]) == SizeOf(s2, ring[i])
    ensures FreeUnits(s1, ring) == FreeUnits(s2, ring)
  {
    if ring != [] {
      FreeUnitsSame(s1, s2, ring[..|ring| - 1]);
    }
  }

  // ------------------------------------------------------------------ linking a block in

  /** `bp` goes after `ring[k]`. */
  ghost predicate GoesAfter(ring: seq<nat>, k: nat, bp: nat) {
    k < |ring| && ring[k] < bp && (k + 1 < |ring| ==> bp < ring[k + 1])
  }

  function Insert(ring: seq<nat>, k: nat, bp: nat): seq<nat>
    requires k < |ring|
  {
    ring[..k + 1] + [bp] + ring[k + 1..]
  }

  /** `bp->ptr = p->ptr; p->ptr = bp`. */
  function Linked(m: Mem, p: nat, bp: nat): Mem
    requires p in m.ptr
  {
    m.(ptr := m.ptr[bp := m.ptr[p]][p := bp])
  }

  ghost predicate IsInsert(ring: seq<nat>, k: nat, bp: nat, r: seq<nat>) {
    && k < |ring| && |r| == |ring| + 1
    && (forall i {:trigger r[i]} :: 0 <= i <= k ==> r[i] == ring[i])
    && r[k + 1] == bp
    && forall i {:trigger r[i]} :: k + 1 < i < |r| ==> r[i] == ring[i - 1]
  }

  lemma InsertAt(ring: seq<nat>, k: nat, bp: nat)
    requires k < |ring|
    ensures IsInsert(ring, k, bp, Insert(ring, k, bp))
  {
  }

  lemma InsertRing(m: Mem, ring: seq<nat>, base: nat, k: nat, bp: nat, r: seq<nat>)
    requires IsRing(m, ring, base) && GoesAfter(ring, k, bp) && bp in m.size && IsInsert(ring, k, bp, r)
    ensures IsRing(Linked(m, ring[k], bp), r, base)
  {
    var m' := Linked(m, ring[k], bp);
    forall i, j | 0 <= i < j < |r| ensures r[i] < r[j] {
      InsertOrder(ring, k, bp, r, i, j);
    }
    forall i, j | 0 <= i < j < |r| && j == i + 1 ensures m'.ptr[r[i]] == r[j] {
      if i != k && i != k + 1 {
        var i0 := if i <= k then i else i - 1;
        assert r[i] == ring[i0] && r[j] == ring[i0 + 1];
      }
    }
  }

  lemma InsertOrder(ring: seq<nat>, k: nat, bp: nat, r: seq<nat>, i: nat, j: nat)
    requires Sorted(ring) && GoesAfter(ring, k, bp) && IsInsert(ring, k, bp, r) && i < j < |r|
    ensures r[i] < r[j]
  {
    if i == k + 1 {
      assert r[j] == ring[j - 1] && (j - 1 == k + 1 || ring[k + 1] < ring[j - 1]);
    } else if j == k + 1 {
      assert r[i] == ring[i] && (i == k || ring[i] < ring[k]);
    } else {
      var i0, j0 := if i <= k then i else i - 1, if j <= k then j else j - 1;
      assert r[i] == ring[i0] && r[j] == ring[j0];
    }
  }

  lemma InsertApart(m: Mem, ring: seq<nat>, live: map<nat, nat>, base: nat, brk: nat, k: nat, bp: nat, r: seq<nat>)
    requires HeapOk(m, ring, live, base, brk) && GoesAfter(ring, k, bp) && bp in live && IsInsert(ring, k, bp, r)
    ensures IsRing(Linked(m, ring[k], bp), r, base)
    ensures ApartExcept(Linked(m, ring[k], bp), r, base, brk, k, k + 2)
  {
    InsertRing(m, ring, base, k, bp, r);
    forall i | 1 <= i < |r| ensures m.size[r[i]] >= 1 && r[i] + m.size[r[i]] <= brk {
      assert i != k + 1 ==> r[i] == ring[if i <= k then i else i - 1];
    }
    forall i, j | 1 <= i < j < |r|
      ensures r[i] + m.size[r[i]] <= r[j] && (!(k <= i < k + 2 && j == i + 1) ==> r[i] + m.size[r[i]] < r[j])
    {
      InsertGap(m, ring, live, base, brk, k, bp, r, i, j);
    }
  }

  lemma InsertGap(m: Mem, ring: seq<nat>, live: map<nat, nat>, base: nat, brk: nat, k: nat, bp: nat, r: seq<nat>,
                  i: nat, j: nat)
    requires HeapOk(m, ring, live, base, brk) && GoesAfter(ring, k, bp) && bp in live && IsInsert(ring, k, bp, r)
    requires 1 <= i < j < |r|
    ensures r[i] in m.size
    ensures r[i] + m.size[r[i]] <= r[j] && (!(k <= i < k + 2 && j == i + 1) ==> r[i] + m.size[r[i]] < r[j])
  {
    if i == k + 1 {
      assert r[j] == ring[j - 1];
      assert NoOverlap(bp, live[bp], ring[k + 1], m.size[ring[k + 1]]);
      if j > k + 2 {
        assert ring[k + 1] < ring[j - 1];
      }
    } else if j == k + 1 {
      assert r[i] == ring[i];
      assert NoOverlap(bp, live[bp], ring[k], m.size[ring[k]]);
      if i < k {
        assert ring[i] + m.size[ring[i]] < ring[k];
      }
    } else {
      var i0, j0 := if i <= k then i else i - 1, if j <= k then j else j - 1;
      assert r[i] == ring[i0] && r[j] == ring[j0];
    }
  }

  lemma InsertLive(m: Mem, ring: seq<nat>, live: map<nat, nat>, base: nat, brk: nat, k: nat, bp: nat, r: seq<nat>)
    requires HeapOk(m, ring, live, base, brk) && GoesAfter(ring, k, bp) && bp in live && IsInsert(ring, k, bp, r)
    ensures IsRing(Linked(m, ring[k], bp), r, base)
    ensures LiveOk(Linked(m, ring[k], bp), r, live - {bp}, base, brk)
  {
    InsertRing(m, ring, base, k, bp, r);
    var m', live' := Linked(m, ring[k], bp), live - {bp};
    forall a, i | a in live' && 1 <= i < |r| ensures NoOverlap(a, live'[a], r[i], m'.size[r[i]]) {
      if i != k + 1 {
        assert r[i] == ring[if i <= k then i else i - 1];
      } else {
        assert NoOverlap(a, live[a], bp, live[bp]);
      }
    }
  }

  lemma InsertUnits(size: map<nat, nat>, ring: seq<nat>, k: nat, bp: nat)
    requires k < |ring| && bp in size
    ensures FreeUnits(size, Insert(ring, k, bp)) == FreeUnits(size, ring) + size[bp]
  {
    var a, c := ring[..k + 1], ring[k + 1..];
    SumOne(size, bp);
    FreeUnitsConcat(size, a, [bp]);
    FreeUnitsConcat(size, a + [bp], c);
    FreeUnitsConcat(size, a, c);
    assert a + c == ring;
  }

  // ------------------------------------------------------------------ merging neighbours

  /** `p->size += p->ptr->size; p->ptr = p->ptr->ptr`, for `p` the `i`-th block. */
  function Merged(m: Mem, p: nat, q: nat): Mem
    requires p in m.size && q in m.size && q in m.ptr
  {
    Mem(m.ptr[p := m.ptr[q]], m.size[p := m.size[p] + m.size[q]])
  }

  function Without(ring: seq<nat>, i: nat): seq<nat>
    requires i < |ring|
  {
    ring[..i] + ring[i + 1..]
  }

  ghost predicate Touches(m: Mem, ring: seq<nat>, i: nat)
    requires i < |ring| && ring[i] in m.size
  {
    i + 1 < |ring| && ring[i] + m.size[ring[i]] == ring[i + 1]
  }

  ghost predicate IsWithout(ring: seq<nat>, i: nat, r: seq<nat>) {
    && i < |ring| && |r| == |ring| - 1
    && (forall j {:trigger r[j]} :: 0 <= j < i ==> r[j] == ring[j])
    && forall j {:trigger r[j]} :: i <= j < |r| ==> r[j] == ring[j + 1]
  }

  lemma WithoutAt(ring: seq<nat>, i: nat)
    requires i < |ring|
    ensures IsWithout(ring, i, Without(ring, i))
  {
  }

  lemma MergeRing(m: Mem, ring: seq<nat>, base: nat, i: nat, r: seq<nat>)
    requires IsRing(m, ring, base) && 1 <= i < |ring| - 1 && IsWithout(ring, i + 1, r)
    ensures IsRing(Merged(m, ring[i], ring[i + 1]), r, base)
  {
    var m' := Merged(m, ring[i], ring[i + 1]);
    forall a, b | 0 <= a < b < |r| ensures r[a] < r[b] {
      assert r[a] == ring[if a <= i then a else a + 1] && r[b] == ring[if b <= i then b else b + 1];
    }
    forall a, b | 0 <= a < b < |r| && b == a + 1 ensures m'.ptr[r[a]] == r[b] {
      assert r[a] == ring[if a <= i then a else a + 1] && r[b] == ring[if b <= i then b else b + 1];
    }
  }

  lemma MergeApart(m: Mem, ring: seq<nat>, base: nat, brk: nat, lo: nat, i: nat, r: seq<nat>)
    requires IsRing(m, ring, base) && 1 <= i < |ring| - 1 && Touches(m, ring, i) && IsWithout(ring, i + 1, r)
    requires ApartExcept(m, ring, base, brk, lo, i + 1)
    ensures IsRing(Merged(m, ring[i], ring[i + 1]), r, base)
    ensures ApartExcept(Merged(m, ring[i], ring[i + 1]), r, base, brk, lo, i)
  {
    MergeRing(m, ring, base, i, r);
    var size' := Merged(m, ring[i], ring[i + 1]).size;
    forall a | 1 <= a < |r| ensures size'[r[a]] >= 1 && r[a] + size'[r[a]] <= brk {
      assert r[a] == ring[if a <= i then a else a + 1];
    }
    forall a, b | 1 <= a < b < |r|
      ensures r[a] + size'[r[a]] <= r[b] && (!(lo <= a < i && b == a + 1) ==> r[a] + size'[r[a]] < r[b])
    {
      MergeGap(m, ring, base, brk, lo, i, r, a, b);
    }
  }

  lemma MergeGap(m: Mem, ring: seq<nat>, base: nat, brk: nat, lo: nat, i: nat, r: seq<nat>, a: nat, b: nat)
    requires IsRing(m, ring, base) && 1 <= i < |ring| - 1 && Touches(m, ring, i) && IsWithout(ring, i + 1, r)
    requires ApartExcept(m, ring, base, brk, lo, i + 1) && 1 <= a < b < |r|
    ensures var size' := Merged(m, ring[i], ring[i + 1]).size;
      && r[a] in size'
      && r[a] + size'[r[a]] <= r[b] && (!(lo <= a < i && b == a + 1) ==> r[a] + size'[r[a]] < r[b])
  {
    var a0, b0 := if a <= i then a else a + 1, if b <= i then b else b + 1;
    assert r[a] == ring[a0] && r[b] == ring[b0];
    if a == i {
      assert ring[i + 1] + m.size[ring[i + 1]] < ring[b0];
    }
  }

  lemma MergeLive(m: Mem, ring: seq<nat>, live: map<nat, nat>, base: nat, brk: nat, i: nat, r: seq<nat>)
    requires IsRing(m, ring, base) && 1 <= i < |ring| - 1 && Touches(m, ring, i) && IsWithout(ring, i + 1, r)
    requires LiveOk(m, ring, live, base, brk) && (forall j :: 1 <= j < |ring| ==> m.size[ring[j]] >= 1)
    ensures IsRing(Merged(m, ring[i], ring[i + 1]), r, base)
    ensures LiveOk(Merged(m, ring[i], ring[i + 1]), r, live, base, brk)
  {
    MergeRing(m, ring, base, i, r);
    var m' := Merged(m, ring[i], ring[i + 1]);
    forall a | a in live ensures a != ring[i] {
      assert NoOverlap(a, live[a], ring[i], m.size[ring[i]]);
    }
    forall a, j | a in live && 1 <= j < |r| ensures NoOverlap(a, live[a], r[j], m'.size[r[j]]) {
      assert r[j] == ring[if j <= i then j else j + 1];
      assert NoOverlap(a, live[a], ring[i], m.size[ring[i]]) && NoOverlap(a, live[a], ring[i + 1], m.size[ring[i + 1]]);
    }
  }

  lemma MergeUnits(size: map<nat, nat>, ring: seq<nat>, i: nat)
    requires Sorted(ring) && i + 1 < |ring| && ring[i] in size && ring[i + 1] in size
    ensures FreeUnits(size[ring[i] := size[ring[i]] + size[ring[i + 1]]], Without(ring, i + 1)) == FreeUnits(size, ring)
  {
    SplitAround(ring, i);
    MergeSums(size, ring[..i], ring[i], ring[i + 1], ring[i + 2..]);
  }

  lemma SplitAround(ring: seq<nat>, i: nat)
    requires Sorted(ring) && i + 1 < |ring|
    ensures ring == ring[..i] + [ring[i]] + [ring[i + 1]] + ring[i + 2..]
    ensures Without(ring, i + 1) == ring[..i] + [ring[i]] + ring[i + 2..]
    ensures ring[i] !in ring[..i] && ring[i] !in ring[i + 2..]
  {
  }

  lemma MergeSums(size: map<nat, nat>, a: seq<nat>, p: nat, q: nat, c: seq<nat>)
    requires p !in a && p !in c && p in size && q in size
    ensures FreeUnits(size[p := size[p] + size[q]], a + [p] + c) == FreeUnits(size, a + [p] + [q] + c)
  {
    var size' := size[p := size[p] + size[q]];
    SumOne(size, p);
    SumOne(size, q);
    SumOne(size', p);
    FreeUnitsConcat(size, a, [p]);
    FreeUnitsConcat(size, a + [p], [q]);
    FreeUnitsConcat(size, a + [p] + [q], c);
    FreeUnitsConcat(size', a, [p]);
    FreeUnitsConcat(size', a + [p], c);
    FreeUnitsSame(size, size', a);
    FreeUnitsSame(size, size', c);
  }

  lemma SumOne(size: map<nat, nat>, p: nat)
    requires p in size
    ensures FreeUnits(size, [p]) == size[p]
  {
    assert [p][..0] == [];
  }

  // ------------------------------------------------------------------ what free does

  datatype List = List(m: Mem, ring: seq<nat>)

  /** Merge the `i`-th block with the next if they touch. */
  ghost function Join(l: List, i: nat): List
    requires i < |l.ring| && (forall j :: 0 <= j < |l.ring| ==> l.ring[j] in l.m.size && l.ring[j] in l.m.ptr)
  {
    if Touches(l.m, l.ring, i) then List(Merged(l.m, l.ring[i], l.ring[i + 1]), Without(l.ring, i + 1)) else l
  }

  /** The list is sound, with gaps except perhaps at `lo` up to `hi`; `live` and `units` go with it. */
  ghost predicate ListOk(l: List, live: map<nat, nat>, base: nat, brk: nat, lo: nat, hi: nat, units: nat) {
    && IsRing(l.m, l.ring, base)
    && base < brk
    && ApartExcept(l.m, l.ring, base, brk, lo, hi)
    && LiveOk(l.m, l.ring, live, base, brk)
    && FreeUnits(l.m.size, l.ring) == units
  }

  lemma JoinTouching(l: List, live: map<nat, nat>, base: nat, brk: nat, lo: nat, i: nat, units: nat, r: List)
    requires ListOk(l, live, base, brk, lo, i + 1, units) && 1 <= i < |l.ring| - 1 && Touches(l.m, l.ring, i)
    requires r.m == Merged(l.m, l.ring[i], l.ring[i + 1]) && IsWithout(l.ring, i + 1, r.ring)
    requires FreeUnits(r.m.size, r.ring) == units
    ensures ListOk(r, live, base, brk, lo, i, units)
  {
    MergeApart(l.m, l.ring, base, brk, lo, i, r.ring);
    MergeLive(l.m, l.ring, live, base, brk, i, r.ring);
  }

  lemma JoinGap(l: List, live: map<nat, nat>, base: nat, brk: nat, lo: nat, i: nat, units: nat)
    requires ListOk(l, live, base, brk, lo, i + 1, units) && 1 <= i < |l.ring| && !Touches(l.m, l.ring, i)
    ensures ListOk(l, live, base, brk, lo, i, units)
  {
    if i + 1 < |l.ring| {
      assert l.ring[i] + l.m.size[l.ring[i]] < l.ring[i + 1];
    }
  }

  lemma JoinWithNext(l: List, live: map<nat, nat>, base: nat, brk: nat, lo: nat, i: nat, units: nat, r: seq<nat>)
    requires ListOk(l, live, base, brk, lo, i + 1, units) && 1 <= i < |l.ring| - 1 && Touches(l.m, l.ring, i)
    requires r == Without(l.ring, i + 1)
    ensures ListOk(List(Merged(l.m, l.ring[i], l.ring[i + 1]), r), live, base, brk, lo, i, units)
  {
    MergeUnits(l.m.size, l.ring, i);
    WithoutAt(l.ring, i + 1);
    JoinTouching(l, live, base, brk, lo, i, units, List(Merged(l.m, l.ring[i], l.ring[i + 1]), r));
  }

  lemma JoinSound(l: List, live: map<nat, nat>, base: nat, brk: nat, lo: nat, i: nat, units: nat)
    requires ListOk(l, live, base, brk, lo, i + 1, units) && 1 <= i < |l.ring|
    ensures ListOk(Join(l, i), live, base, brk, lo, i, units)
    ensures |Join(l, i).ring| > i && Join(l, i).ring[i] == l.ring[i] && Join(l, i).ring[i - 1] == l.ring[i - 1]
  {
    if Touches(l.m, l.ring, i) {
      JoinWithNext(l, live, base, brk, lo, i, units, Without(l.ring, i + 1));
    } else {
      JoinGap(l, live, base, brk, lo, i, units);
    }
  }

  /** Link `bp` in after the `k`-th block, then join it with the next block and with the one before. */
  ghost function Freed(l: List, k: nat, bp: nat): List
    requires k < |l.ring| && bp in l.m.size
    requires forall j :: 0 <= j < |l.ring| ==> l.ring[j] in l.m.size && l.ring[j] in l.m.ptr
  {
    var l1 := List(Linked(l.m, l.ring[k], bp), Insert(l.ring, k, bp));
    InsertAt(l.ring, k, bp);
    var l2 := Join(l1, k + 1);
    assert |l2.ring| > k + 1 && forall j :: 0 <= j < |l2.ring| ==> l2.ring[j] in l2.m.size && l2.ring[j] in l2.m.ptr;
    if k >= 1 then Join(l2, k) else l2
  }

  lemma InsertSound(l: List, live: map<nat, nat>, base: nat, brk: nat, k: nat, bp: nat)
    requires HeapOk(l.m, l.ring, live, base, brk) && GoesAfter(l.ring, k, bp) && bp in live
    ensures ListOk(List(Linked(l.m, l.ring[k], bp), Insert(l.ring, k, bp)), live - {bp}, base, brk, k, k + 2,
                   FreeUnits(l.m.size, l.ring) + live[bp])
  {
    var r1 := Insert(l.ring, k, bp);
    InsertAt(l.ring, k, bp);
    InsertApart(l.m, l.ring, live, base, brk, k, bp, r1);
    InsertLive(l.m, l.ring, live, base, brk, k, bp, r1);
    InsertUnits(l.m.size, l.ring, k, bp);
  }

  lemma FreedSound(l: List, live: map<nat, nat>, base: nat, brk: nat, k: nat, bp: nat)
    requires HeapOk(l.m, l.ring, live, base, brk) && GoesAfter(l.ring, k, bp) && bp in live
    ensures var r := Freed(l, k, bp);
      && ListOk(r, live - {bp}, base, brk, k, k, FreeUnits(l.m.size, l.ring) + live[bp])
      && k < |r.ring| && r.ring[k] == l.ring[k]
  {
    var live', units := live - {bp}, FreeUnits(l.m.size, l.ring) + live[bp];
    var l1 := List(Linked(l.m, l.ring[k], bp), Insert(l.ring, k, bp));
    InsertSound(l, live, base, brk, k, bp);
    JoinSound(l1, live', base, brk, k, k + 1, units);
    if k >= 1 {
      JoinSound(Join(l1, k + 1), live', base, brk, k, k, units);
    } else {
      NoGapAtBase(Join(l1, 1), live', base, brk, units);
    }
  }

  lemma NoGapAtBase(l: List, live: map<nat, nat>, base: nat, brk: nat, units: nat)
    requires ListOk(l, live, base, brk, 0, 1, units)
    ensures ListOk(l, live, base, brk, 0, 0, units)
  {
  }

  // ------------------------------------------------------------------ what malloc does

  /** `prevp->ptr = p->ptr`: the whole block is taken. */
  function Taken(m: Mem, prevp: nat, p: nat): Mem
    requires p in m.ptr
  {
    m.(ptr := m.ptr[prevp := m.ptr[p]])
  }

  lemma TakeRing(m: Mem, ring: seq<nat>, base: nat, i: nat, r: seq<nat>)
    requires IsRing(m, ring, base) && 1 <= i < |ring| && IsWithout(ring, i, r)
    ensures IsRing(Taken(m, ring[i - 1], ring[i]), r, base)
  {
    var m' := Taken(m, ring[i - 1], ring[i]);
    forall a, b | 0 <= a < b < |r| ensures r[a] < r[b] {
      assert r[a] == ring[if a < i then a else a + 1] && r[b] == ring[if b < i then b else b + 1];
    }
    forall a, b | 0 <= a < b < |r| && b == a + 1 ensures m'.ptr[r[a]] == r[b] {
      assert r[a] == ring[if a < i then a else a + 1] && r[b] == ring[if b < i then b else b + 1];
    }
    assert r[|r| - 1] == if i == |ring| - 1 then ring[i - 1] else ring[|ring| - 1];
  }

  lemma TakeApart(m: Mem, ring: seq<nat>, base: nat, brk: nat, i: nat, r: seq<nat>)
    requires IsRing(m, ring, base) && Apart(m, ring, base, brk) && 1 <= i < |ring| && IsWithout(ring, i, r)
    ensures IsRing(Taken(m, ring[i - 1], ring[i]), r, base)
    ensures Apart(Taken(m, ring[i - 1], ring[i]), r, base, brk)
  {
    TakeRing(m, ring, base, i, r);
    forall a | 1 <= a < |r| ensures m.size[r[a]] >= 1 && r[a] + m.size[r[a]] <= brk {
      assert r[a] == ring[if a < i then a else a + 1];
    }
    forall a, b | 1 <= a < b < |r| ensures r[a] + m.size[r[a]] < r[b] {
      assert r[a] == ring[if a < i then a else a + 1] && r[b] == ring[if b < i then b else b + 1];
    }
  }

  lemma TakeLive(m: Mem, ring: seq<nat>, live: map<nat, nat>, base: nat, brk: nat, i: nat, r: seq<nat>)
    requires HeapOk(m, ring, live, base, brk) && 1 <= i < |ring| && IsWithout(ring, i, r)
    requires IsRing(Taken(m, ring[i - 1], ring[i]), r, base)
    ensures LiveOk(Taken(m, ring[i - 1], ring[i]), r, live[ring[i] := m.size[ring[i]]], base, brk)
  {
    var p, live' := ring[i], live[ring[i] := m.size[ring[i]]];
    forall a, j | a in live' && 1 <= j < |r| ensures NoOverlap(a, live'[a], r[j], m.size[r[j]]) {
      var j0 := if j < i then j else j + 1;
      assert r[j] == ring[j0];
      if a != p {
        assert NoOverlap(a, live[a], ring[j0], m.size[ring[j0]]);
      } else {
        assert if j0 < i then ring[j0] + m.size[ring[j0]] < ring[i] else ring[i] + m.size[ring[i]] < ring[j0];
      }
    }
    forall a, b | a in live' && b in live' && a != b ensures NoOverlap(a, live'[a], b, live'[b]) {
      assert a != p ==> NoOverlap(a, live[a], ring[i], m.size[ring[i]]);
      assert b != p ==> NoOverlap(b, live[b], ring[i], m.size[ring[i]]);
    }
  }

  lemma TakeSound(m: Mem, ring: seq<nat>, live: map<nat, nat>, base: nat, brk: nat, i: nat, r: seq<nat>)
    requires HeapOk(m, ring, live, base, brk) && 1 <= i < |ring| && IsWithout(ring, i, r)
    ensures HeapOk(Taken(m, ring[i - 1], ring[i]), r, live[ring[i] := m.size[ring[i]]], base, brk)
    ensures ring[i] !in live
  {
    TakeApart(m, ring, base, brk, i, r);
    TakeLive(m, ring, live, base, brk, i, r);
    forall a | a in live ensures a != ring[i] {
      assert NoOverlap(a, live[a], ring[i], m.size[ring[i]]);
    }
  }

  /** `p->size -= n; p += p->size; p->size = n`: the tail of the block is taken. */
  function Cut(m: Mem, p: nat, n: nat): Mem
    requires p in m.size && n < m.size[p]
  {
    m.(size := m.size[p := m.size[p] - n][p + m.size[p] - n := n])
  }

  lemma CutTail(m: Mem, ring: seq<nat>, live: map<nat, nat>, base: nat, brk: nat, i: nat, n: nat)
    requires HeapOk(m, ring, live, base, brk) && 1 <= i < |ring| && 1 <= n < m.size[ring[i]]
    ensures var tail := ring[i] + m.size[ring[i]] - n;
      && tail !in ring
      && (forall a :: a in live ==> a != tail && a != ring[i])
      && forall a :: a in live ==> NoOverlap(a, live[a], tail, n) && NoOverlap(a, live[a], ring[i], m.size[ring[i]] - n)
  {
    var tail := ring[i] + m.size[ring[i]] - n;
    forall j | 0 <= j < |ring| ensures ring[j] != tail {
      if j < i {
        assert ring[j] < ring[i];
      } else if j > i {
        assert ring[i] + m.size[ring[i]] < ring[j];
      }
    }
    forall a | a in live
      ensures a != tail && a != ring[i] && NoOverlap(a, live[a], tail, n)
      ensures NoOverlap(a, live[a], ring[i], m.size[ring[i]] - n)
    {
      assert NoOverlap(a, live[a], ring[i], m.size[ring[i]]);
    }
  }

  lemma CutApart(m: Mem, ring: seq<nat>, base: nat, brk: nat, i: nat, n: nat)
    requires IsRing(m, ring, base) && Apart(m, ring, base, brk) && 1 <= i < |ring| && 1 <= n < m.size[ring[i]]
    requires ring[i] + m.size[ring[i]] - n !in ring
    ensures IsRing(Cut(m, ring[i], n), ring, base) && Apart(Cut(m, ring[i], n), ring, base, brk)
  {
    var m' := Cut(m, ring[i], n);
    forall j | 0 <= j < |ring|
      ensures ring[j] in m'.size && m'.size[ring[j]] == if j == i then m.size[ring[i]] - n else m.size[ring[j]]
    {
    }
  }

  lemma CutSound(m: Mem, ring: seq<nat>, live: map<nat, nat>, base: nat, brk: nat, i: nat, n: nat)
    requires HeapOk(m, ring, live, base, brk) && 1 <= i < |ring| && 1 <= n < m.size[ring[i]]
    ensures var tail := ring[i] + m.size[ring[i]] - n;
      && tail !in live && tail !in ring
      && HeapOk(Cut(m, ring[i], n), ring, live[tail := n], base, brk)
  {
    CutTail(m, ring, live, base, brk, i, n);
    CutApart(m, ring, base, brk, i, n);
    CutLive(m, ring, live, base, brk, i, n, ring[i] + m.size[ring[i]] - n);
  }

  lemma CutLive(m: Mem, ring: seq<nat>, live: map<nat, nat>, base: nat, brk: nat, i: nat, n: nat, tail: nat)
    requires HeapOk(m, ring, live, base, brk) && 1 <= i < |ring| && 1 <= n < m.size[ring[i]]
    requires tail == ring[i] + m.size[ring[i]] - n && tail !in ring && tail !in live
    requires forall a :: a in live ==>
      a != ring[i] && NoOverlap(a, live[a], tail, n) && NoOverlap(a, live[a], ring[i], m.size[ring[i]] - n)
    requires IsRing(Cut(m, ring[i], n), ring, base)
    ensures LiveOk(Cut(m, ring[i], n), ring, live[tail := n], base, brk)
  {
    var m', live' := Cut(m, ring[i], n), live[tail := n];
    forall a, j | a in live' && 1 <= j < |ring| ensures NoOverlap(a, live'[a], ring[j], m'.size[ring[j]]) {
      CutGap(m, ring, live, base, brk, i, n, tail, a, j);
    }
  }

  lemma CutGap(m: Mem, ring: seq<nat>, live: map<nat, nat>, base: nat, brk: nat, i: nat, n: nat, tail: nat, a: nat,
               j: nat)
    requires HeapOk(m, ring, live, base, brk) && 1 <= i < |ring| && 1 <= n < m.size[ring[i]] && 1 <= j < |ring|
    requires tail == ring[i] + m.size[ring[i]] - n && tail !in ring && a in live[tail := n]
    requires a in live && a != tail ==> NoOverlap(a, live[a], ring[i], m.size[ring[i]] - n)
    ensures NoOverlap(a, live[tail := n][a], ring[j], Cut(m, ring[i], n).size[ring[j]])
  {
    assert j < i ==> ring[j] + m.size[ring[j]] < ring[i];
    assert i < j ==> ring[i] + m.size[ring[i]] < ring[j];
    assert a != tail ==> NoOverlap(a, live[a], ring[j], m.size[ring[j]]);
  }

  lemma TakeUnits(size: map<nat, nat>, ring: seq<nat>, i: nat)
    requires i < |ring| && ring[i] in size
    ensures FreeUnits(size, ring) == FreeUnits(size, Without(ring, i)) + size[ring[i]]
  {
    var a, p, c := ring[..i], ring[i], ring[i + 1..];
    assert ring == a + [p] + c;
    SumOne(size, p);
    FreeUnitsConcat(size, a, [p]);
    FreeUnitsConcat(size, a + [p], c);
    FreeUnitsConcat(size, a, c);
  }

  lemma CutUnits(size: map<nat, nat>, ring: seq<nat>, i: nat, n: nat, tail: nat)
    requires Sorted(ring) && i < |ring| && ring[i] in size && n <= size[ring[i]] && tail !in ring
    ensures FreeUnits(size[ring[i] := size[ring[i]] - n][tail := n], ring) == FreeUnits(size, ring) - n
  {
    var size' := size[ring[i] := size[ring[i]] - n][tail := n];
    TakeUnits(size, ring, i);
    TakeUnits(size', ring, i);
    WithoutAt(ring, i);
    var r := Without(ring, i);
    forall j | 0 <= j < |r| ensures SizeOf(size, r[j]) == SizeOf(size', r[j]) {
      assert r[j] == ring[if j < i then j else j + 1];
    }
    FreeUnitsSame(size, size', r);
  }

  /** Fresh memory from sbrk, at or above everything so far, is a block in use. */
  lemma FreshSound(m: Mem, ring: seq<nat>, live: map<nat, nat>, base: nat, brk: nat, hp: nat, nu: nat)
    requires HeapOk(m, ring, live, base, brk) && brk <= hp && nu >= 1
    ensures hp !in live && hp !in ring
    ensures HeapOk(m.(size := m.size[hp := nu]), ring, live[hp := nu], base, hp + nu)
  {
    forall i | 0 <= i < |ring| ensures ring[i] < hp {
      if i >= 1 {
        assert ring[i] + m.size[ring[i]] <= brk;
      }
    }
    FreshApart(m, ring, base, brk, hp, nu);
    FreshLive(m, ring, live, base, brk, hp, nu);
  }

  lemma FreshApart(m: Mem, ring: seq<nat>, base: nat, brk: nat, hp: nat, nu: nat)
    requires IsRing(m, ring, base) && Apart(m, ring, base, brk) && brk <= hp
    requires forall i :: 0 <= i < |ring| ==> ring[i] < hp
    ensures IsRing(m.(size := m.size[hp := nu]), ring, base)
    ensures Apart(m.(size := m.size[hp := nu]), ring, base, hp + nu)
  {
  }

  lemma FreshLive(m: Mem, ring: seq<nat>, live: map<nat, nat>, base: nat, brk: nat, hp: nat, nu: nat)
    requires HeapOk(m, ring, live, base, brk) && brk <= hp && nu >= 1 && forall i :: 0 <= i < |ring| ==> ring[i] < hp
    requires IsRing(m.(size := m.size[hp := nu]), ring, base)
    ensures LiveOk(m.(size := m.size[hp := nu]), ring, live[hp := nu], base, hp + nu)
  {
    var m', live' := m.(size := m.size[hp := nu]), live[hp := nu];
    forall a, i | a in live' && 1 <= i < |ring| ensures NoOverlap(a, live'[a], ring[i], m'.size[ring[i]]) {
      assert ring[i] + m.size[ring[i]] <= brk;
      assert a != hp ==> NoOverlap(a, live[a], ring[i], m.size[ring[i]]);
    }
  }
}

/** umalloc.c as code. */
module Umalloc {
  import opened Sealed
  import opened HeapModel

  /** How far along the ring `to` is from `from`. */
  function Distance(n: nat, from: nat, to: nat): nat
    requires from < n && to < n
  {
    if from <= to then to - from else n - from + to
  }

  lemma {:induction false} Position(ring: seq<nat>, bp: nat, n: nat) returns (k: nat)
    requires Sorted(ring) && 1 <= n <= |ring| && ring[0] < bp && bp !in ring
    requires n < |ring| ==> bp < ring[n]
    ensures GoesAfter(ring, k, bp)
    decreases n
  {
    if ring[n - 1] < bp {
      k := n - 1;
    } else {
      assert ring[n - 1] in ring;
      k := Position(ring, bp, n - 1);
    }
  }

  /** What the heap amounts to: the free list from `base` on, the blocks handed out with their sizes,
      and the number of units obtained from sbrk. */
  datatype Ledger = Ledger(ring: seq<nat>, live: map<nat, nat>, obtained: nat)

  ghost function Whole(m: Mem, ring: seq<nat>, live: map<nat, nat>, base: nat, brk: nat): Status {
    if forall k {:trigger Open(k)} :: k == 0 ==> HeapOk(m, ring, live, base, brk) then Sound else Broken
  }

  /** The list is sound, `freep` is in it, and every unit obtained is in a free block or in one handed out. */
  ghost predicate Sane(m: Mem, led: Ledger, base: nat, brk: nat, freep: nat) {
    && base > 0
    && Whole(m, led.ring, led.live, base, brk) == Sound
    && freep in led.ring
    && FreeUnits(m.size, led.ring) + LiveUnits(led.live) == led.obtained
  }

  ghost function Health(m: Mem, led: Ledger, base: nat, brk: nat, freep: nat): Status {
    if forall k {:trigger Open(k)} :: k == 0 ==> Sane(m, led, base, brk, freep) then Sound else Broken
  }

  class Heap {
    const base: nat
    var mem: Mem
    var freep: nat            // 0 until the first call of malloc
    var brk: nat              // end of the memory obtained from sbrk
    ghost var led: Ledger

    /** The list has been set up. */
    ghost predicate Ready()
      reads this
    {
      Health(mem, led, base, brk, freep) == Sound
    }

    /** Nothing has been allocated yet, or the list is sound. */
    ghost predicate Valid()
      reads this
    {
      if freep == 0 then base > 0 && base < brk && led == Ledger([], map[], 0) else Ready()
    }

    constructor (base: nat, brk: nat)
      requires 0 < base < brk
      ensures this.base == base && Valid() && led.live == map[] && led.obtained == 0
    {
      this.base, this.brk := base, brk;
      mem, freep, led := Mem(map[], map[]), 0, Ledger([], map[], 0);
    }

    /** The search loop of `free`: it stops at the free block that `bp` goes after. */
    method FindPlace(bp: nat, ghost k: nat) returns (p: nat)
      requires IsRing(mem, led.ring, base) && freep in led.ring && base < bp && bp !in led.ring
      requires GoesAfter(led.ring, k, bp)
      ensures p == led.ring[k]
    {
      p := freep;
      ghost var ring := led.ring;
      ghost var j :| 0 <= j < |ring| && ring[j] == freep;
      while !(bp > p && bp < mem.ptr[p])
        invariant 0 <= j < |ring| && p == ring[j]
        decreases Distance(|ring|, j, k)
      {
        NextInRing(mem, ring, base, j);
        if p >= mem.ptr[p] && (bp > p || bp < mem.ptr[p]) {
          PlaceIsUnique(ring, k, bp, j);
          return;
        }
        NotHere(ring, k, bp, j);
        j := if j + 1 < |ring| then j + 1 else 0;
        p := mem.ptr[p];
      }
      NextInRing(mem, ring, base, j);
      PlaceIsUnique(ring, k, bp, j);
    }

    /** The assignments of `free`: link `bp` in after `p`, coalescing with either neighbour. */
    method Coalesce(p: nat, bp: nat)
      requires CanCoalesce(mem, p, bp)
      modifies this`mem, this`freep
      ensures mem == FreeCode(old(mem), p, bp) && freep == p
    {
      if bp + mem.size[bp] == mem.ptr[p] {
        var q := mem.ptr[p];
        mem := mem.(size := mem.size[bp := mem.size[bp] + mem.size[q]]);
        mem := mem.(ptr := mem.ptr[bp := mem.ptr[q]]);
      } else {
        mem := mem.(ptr := mem.ptr[bp := mem.ptr[p]]);
      }
      if p + mem.size[p] == bp {
        mem := mem.(size := mem.size[p := mem.size[p] + mem.size[bp]]);
        mem := mem.(ptr := mem.ptr[p := mem.ptr[bp]]);
      } else {
        mem := mem.(ptr := mem.ptr[p := bp]);
      }
      freep := p;
    }

    /** `free`, for the block whose header is `bp`. */
    method Free(bp: nat)
      requires Ready() && bp in led.live
      modifies this`mem, this`freep, this`led
      ensures Ready()
      ensures led.live == old(led.live) - {bp} && led.obtained == old(led.obtained)
      ensures HasBlock(mem, led.ring, old(led.live)[bp])
    {
      ghost var k, r := FreeAll(List(mem, led.ring), led, base, brk, freep, bp);
      var p := FindPlace(bp, k);
      Coalesce(p, bp);
      led := Ledger(r.ring, led.live - {bp}, led.obtained);
    }

    method SetSize(p: nat, units: nat)
      modifies this`mem
      ensures mem == old(mem).(size := old(mem).size[p := units])
    {
      mem := mem.(size := mem.size[p := units]);
    }

    /** `p->size -= nunits; p += p->size; p->size = nunits`. */
    method CutBlock(p: nat, nunits: nat) returns (bp: nat)
      requires p in mem.size && nunits < mem.size[p]
      modifies this`mem
      ensures bp == p + old(mem).size[p] - nunits && mem == Cut(old(mem), p, nunits)
    {
      SetSize(p, mem.size[p] - nunits);
      bp := p + mem.size[p];
      SetSize(bp, nunits);
    }

    /** Fresh memory from sbrk becomes one block in use. */
    method AddFresh(hp: nat, units: nat)
      requires Ready() && units >= 1 && brk <= hp
      modifies this`brk, this`mem, this`led
      ensures Ready() && hp !in old(led.live)
      ensures led.live == old(led.live)[hp := units] && led.obtained == old(led.obtained) + units
    {
      FreshAll(mem, led, base, brk, freep, hp, units);
      SetSize(hp, units);
      brk := hp + units;
      led := Ledger(led.ring, led.live[hp := units], led.obtained + units);
    }

    /** `morecore`. If `grant`, sbrk answers with fresh memory `gap` units above the last; otherwise it
        fails, and so does this. */
    method Morecore(nu: nat, grant: bool, gap: nat) returns (p: nat)
      requires Ready() && nu >= 1
      modifies this
      ensures Ready() && led.live == old(led.live)
      ensures !grant ==> p == 0 && mem == old(mem) && led == old(led) && freep == old(freep)
      ensures grant ==> p == freep && p != 0 && led.obtained == old(led.obtained) + Batch(nu)
      ensures grant ==> HasBlock(mem, led.ring, nu)
    {
      var units := Batch(nu);
      if !grant {
        return 0;
      }
      var hp := brk + gap;
      ghost var live := led.live;
      AddFresh(hp, units);
      Free(hp);
      assert live[hp := units] - {hp} == live;
      RingFacts(mem, led, base, brk, freep);
      NotZero(mem, led, base, brk, freep, freep);
      p := freep;
    }

    /** `prevp->ptr = p->ptr`: a block of just the right size. */
    method TakeWhole(prevp: nat, p: nat, ghost i: nat)
      requires Ready() && 1 <= i < |led.ring| && p == led.ring[i] && prevp == led.ring[i - 1] && p in mem.size
      modifies this`mem, this`freep, this`led
      ensures Ready() && p !in old(led.live)
      ensures led.live == old(led.live)[p := old(mem.size[p])] && led.obtained == old(led.obtained)
    {
      ghost var r := TakeAll(mem, led, base, brk, freep, i);
      mem := mem.(ptr := mem.ptr[prevp := mem.ptr[p]]);
      led := Ledger(r, led.live[p := mem.size[p]], led.obtained);
      freep := prevp;
    }

    /** The tail of a larger block. */
    method TakeTail(prevp: nat, p: nat, nunits: nat, ghost i: nat) returns (bp: nat)
      requires Ready() && 1 <= i < |led.ring| && p == led.ring[i] && prevp in led.ring && p in mem.size
      requires 1 <= nunits < mem.size[p]
      modifies this`mem, this`freep, this`led
      ensures Ready() && bp !in old(led.live)
      ensures led.live == old(led.live)[bp := nunits] && led.obtained == old(led.obtained)
    {
      CutAll(mem, led, base, brk, freep, i, nunits, prevp);
      bp := CutBlock(p, nunits);
      led := Ledger(led.ring, led.live[bp := nunits], led.obtained);
      freep := prevp;
    }

    /** The first call sets up the list with `base` alone. */
    method Setup(ghost need: nat)
      requires Valid() && need >= 1
      modifies this
      ensures Ready() && led.live == old(led.live) && led.obtained == old(led.obtained)
      ensures HasBlock(mem, led.ring, need) == old(HasBlock(mem, led.ring, need))
    {
      if freep == 0 {
        mem, freep := Mem(map[base := base], map[base := 0]), base;
        led := Ledger([base], map[], 0);
        SetupSound(base, brk);
      }
    }

    /** malloc's search, at `p` with `prevp` behind it. */
    ghost predicate At(prevp: nat, p: nat, need: nat, k: Look)
      reads this
    {
      && Ready()
      && Looking(mem, led.ring, need, k)
      && prevp == led.ring[k.prev] && p == led.ring[k.here] && freep == led.ring[k.start]
    }

    /** Begin at the block after `freep`; `target` is a block that is big enough, if memory was asked for. */
    method Begin(need: nat, ghost asked: bool) returns (p: nat, ghost k: Look)
      requires Ready() && (asked ==> HasBlock(mem, led.ring, need))
      ensures At(freep, p, need, k) && k.asked == asked
    {
      RingFacts(mem, led, base, brk, freep);
      p := mem.ptr[freep];
      ghost var f: nat :| f < |led.ring| && led.ring[f] == freep;
      ghost var t: nat := f;
      if asked {
        t :| 0 <= t < |led.ring| && led.ring[t] in mem.size && mem.size[led.ring[t]] >= need;
      }
      NextInRing(mem, led.ring, base, f);
      LookStart(mem, led.ring, need, asked, f, t);
      k := Look(asked, f, Next(|led.ring|, f), f, t);
    }

    /** `prevp = p, p = p->s.ptr`. */
    method Onward(prevp: nat, p: nat, need: nat, ghost k: Look) returns (p': nat, ghost k': Look)
      requires At(prevp, p, need, k) && p in mem.size && mem.size[p] < need && p != freep
      ensures At(p, p', need, k') && k'.asked == k.asked && Ahead(led.ring, k') < Ahead(led.ring, k)
    {
      RingFacts(mem, led, base, brk, freep);
      p' := mem.ptr[p];
      NextInRing(mem, led.ring, base, k.here);
      LookOn(mem, led.ring, need, k);
      k' := k.(prev := k.here, here := Next(|led.ring|, k.here));
    }

    /** The search is back at `freep` without success. */
    method Enlarge(prevp: nat, p: nat, need: nat, ghost k: Look, grant: bool, gap: nat) returns (q: nat)
      requires At(prevp, p, need, k) && p in mem.size && mem.size[p] < need && p == freep && need >= 1
      modifies this
      ensures !k.asked && !old(HasBlock(mem, led.ring, need))
      ensures Ready() && led.live == old(led.live)
      ensures q == 0 <==> !grant
      ensures led.obtained == old(led.obtained) + if grant then Batch(need) else 0
      ensures grant ==> q == freep && HasBlock(mem, led.ring, need)
    {
      RingFacts(mem, led, base, brk, freep);
      LookedAll(mem, led.ring, need, k);
      q := Morecore(need, grant, gap);
    }

    /** Unlink the block found, or cut what is needed from its end. */
    method Take(prevp: nat, p: nat, nunits: nat, ghost k: Look) returns (bp: nat)
      requires At(prevp, p, nunits, k) && p in mem.size && 1 <= nunits <= mem.size[p]
      modifies this`mem, this`freep, this`led
      ensures Ready() && bp !in old(led.live)
      ensures led.live == old(led.live)[bp := nunits] && led.obtained == old(led.obtained)
    {
      RingFacts(mem, led, base, brk, freep);
      if mem.size[p] == nunits {
        TakeWhole(prevp, p, k.here);
        bp := p;
      } else {
        bp := TakeTail(prevp, p, nunits, k.here);
      }
    }

    /** malloc's loop, up to the block it settles on; `p` is 0 if there is none. sbrk is asked at most
        once. */
    method Search(nunits: nat, grant: bool, gap: nat) returns (prevp: nat, p: nat, ghost k: Look)
      requires Ready() && nunits >= 1
      modifies this
      ensures Ready() && led.live == old(led.live)
      ensures p == 0 <==> !grant && !old(HasBlock(mem, led.ring, nunits))
      ensures led.obtained == old(led.obtained) +
                              if p == 0 || old(HasBlock(mem, led.ring, nunits)) then 0 else Batch(nunits)
      ensures p != 0 ==> At(prevp, p, nunits, k) && p in mem.size && mem.size[p] >= nunits
    {
      ghost var had := HasBlock(mem, led.ring, nunits);
      prevp := freep;
      p, k := Begin(nunits, false);
      while mem.size[p] < nunits
        invariant At(prevp, p, nunits, k) && led.live == old(led.live)
        invariant if k.asked then grant && !had && led.obtained == old(led.obtained) + Batch(nunits)
                  else led.obtained == old(led.obtained) && had == HasBlock(mem, led.ring, nunits)
        decreases !k.asked, Ahead(led.ring, k)
      {
        if p == freep {
          p := Enlarge(prevp, p, nunits, k, grant, gap);
          if p == 0 {
            return;
          }
          prevp := p;
          p, k := Begin(nunits, true);
        } else {
          var q := p;
          p, k := Onward(prevp, q, nunits, k);
          prevp := q;
        }
      }
      NotZero(mem, led, base, brk, freep, p);
    }

    /** `malloc`. `grant` and `gap` are what sbrk answers if it is asked. The result is the address after
        the block's header, or 0. */
    method Malloc(nbytes: nat, grant: bool, gap: nat) returns (r: nat)
      requires Valid()
      modifies this
      ensures Ready()
      ensures r == 0 <==> !grant && !old(HasBlock(mem, led.ring, Units(nbytes)))
      ensures r == 0 ==> led.live == old(led.live)
      ensures r != 0 ==> r - 1 !in old(led.live) && led.live == old(led.live)[r - 1 := Units(nbytes)]
      ensures led.obtained == old(led.obtained) +
                              if r == 0 || old(HasBlock(mem, led.ring, Units(nbytes))) then 0 else Batch(Units(nbytes))
    {
      var nunits := Units(nbytes);
      Setup(nunits);
      var prevp, p;
      ghost var k;
      prevp, p, k := Search(nunits, grant, gap);
      if p == 0 {
        return 0;
      }
      p := Take(prevp, p, nunits, k);
      r := p + 1;
    }
  }

  /** How many units morecore asks sbrk for. */
  function Batch(nu: nat): nat {
    if nu < 4096 then 4096 else nu
  }

  /** How many units, header included, hold `nbytes`: the least number that does. */
  function Units(nbytes: nat): (n: nat)
    ensures n >= 1 && 8 * (n - 1) >= nbytes
    ensures n >= 2 ==> 8 * (n - 2) < nbytes
  {
    (nbytes + 8 - 1) / 8 + 1
  }

  function Next(n: nat, j: nat): nat
    requires j < n
  {
    if j + 1 < n then j + 1 else 0
  }

  /** Where malloc's search is: at the block with index `here`, after `prev`; it began after `start`. If
      memory was asked for, `target` is a block that is big enough, otherwise it is `start`. */
  datatype Look = Look(asked: bool, prev: nat, here: nat, start: nat, target: nat)

  ghost predicate InRange(ring: seq<nat>, k: Look) {
    k.prev < |ring| && k.here < |ring| && k.start < |ring| && k.target < |ring|
  }

  /** How many steps the search has left at most. */
  ghost function Ahead(ring: seq<nat>, k: Look): nat {
    if InRange(ring, k) then Distance(|ring|, k.here, k.target) else 0
  }

  /** The target is still ahead, and until memory was asked for all blocks passed are too small. */
  ghost predicate Looking(m: Mem, ring: seq<nat>, need: nat, k: Look) {
    && InRange(ring, k) && k.here == Next(|ring|, k.prev)
    && (forall i :: 0 <= i < |ring| ==> ring[i] in m.size)
    && (if k.asked then m.size[ring[k.target]] >= need else k.target == k.start)
    && Distance(|ring|, k.here, k.target) <= Distance(|ring|, k.here, k.start)
    && (!k.asked ==> forall i :: 0 <= i < |ring| && Passed(|ring|, k, i) ==> m.size[ring[i]] < need)
  }

  ghost predicate Passed(n: nat, k: Look, i: nat)
    requires k.here < n && k.start < n && i < n
  {
    Distance(n, k.here, i) > Distance(n, k.here, k.start)
  }

  lemma LookOn(m: Mem, ring: seq<nat>, need: nat, k: Look)
    requires Looking(m, ring, need, k) && m.size[ring[k.here]] < need && k.here != k.start
    ensures var k' := k.(prev := k.here, here := Next(|ring|, k.here));
      Looking(m, ring, need, k') && Ahead(ring, k') < Ahead(ring, k)
  {
    var k' := k.(prev := k.here, here := Next(|ring|, k.here));
    assert k.here != k.target;
    forall i | 0 <= i < |ring| && Passed(|ring|, k', i) && !k.asked ensures m.size[ring[i]] < need {
      assert i != k.here ==> Passed(|ring|, k, i);
    }
  }

  lemma LookStart(m: Mem, ring: seq<nat>, need: nat, asked: bool, f: nat, t: nat)
    requires f < |ring| && t < |ring| && (forall i :: 0 <= i < |ring| ==> ring[i] in m.size)
    requires if asked then m.size[ring[t]] >= need else t == f
    ensures Looking(m, ring, need, Look(asked, f, Next(|ring|, f), f, t))
  {
  }

  lemma LookedAll(m: Mem, ring: seq<nat>, need: nat, k: Look)
    requires Looking(m, ring, need, k) && m.size[ring[k.here]] < need && Sorted(ring) && ring[k.here] == ring[k.start]
    ensures !k.asked && !HasBlock(m, ring, need)
  {
    assert k.here == k.start;
    forall i | 0 <= i < |ring| ensures m.size[ring[i]] < need {
      assert i != k.here ==> Passed(|ring|, k, i);
    }
  }

  /** Some free block has at least `n` units. */
  ghost predicate HasBlock(m: Mem, ring: seq<nat>, n: nat) {
    exists t :: 0 <= t < |ring| && ring[t] in m.size && m.size[ring[t]] >= n
  }

  lemma Opened(m: Mem, led: Ledger, base: nat, brk: nat, freep: nat)
    requires Health(m, led, base, brk, freep) == Sound
    ensures Sane(m, led, base, brk, freep)
  {
    assert Open(0);
  }

  lemma RingFacts(m: Mem, led: Ledger, base: nat, brk: nat, freep: nat)
    requires Health(m, led, base, brk, freep) == Sound
    ensures IsRing(m, led.ring, base) && freep in led.ring && base > 0
  {
    assert Open(0);
  }

  lemma SetupSound(base: nat, brk: nat)
    requires 0 < base < brk
    ensures Health(Mem(map[base := base], map[base := 0]), Ledger([base], map[], 0), base, brk, base) == Sound
  {
    SumOne(map[base := 0], base);
    assert HeapOk(Mem(map[base := base], map[base := 0]), [base], map[], base, brk);
    assert LiveUnits(map[]) == 0;
    assert Sane(Mem(map[base := base], map[base := 0]), Ledger([base], map[], 0), base, brk, base);
  }

  lemma FreshAll(m: Mem, led: Ledger, base: nat, brk: nat, freep: nat, hp: nat, nu: nat)
    requires Health(m, led, base, brk, freep) == Sound && brk <= hp && nu >= 1
    ensures hp !in led.live
    ensures Health(m.(size := m.size[hp := nu]), Ledger(led.ring, led.live[hp := nu], led.obtained + nu), base, hp
      + nu, freep) == Sound
  {
    assert Open(0);
    FreshSound(m, led.ring, led.live, base, brk, hp, nu);
    FreshUnits(m.size, led.ring, hp, nu);
    LiveUnitsAdd(led.live, hp, nu);
    assert Sane(m.(size := m.size[hp := nu]), Ledger(led.ring, led.live[hp := nu], led.obtained + nu), base, hp
      + nu, freep);
  }

  lemma TakeAll(m: Mem, led: Ledger, base: nat, brk: nat, freep: nat, i: nat) returns (r: seq<nat>)
    requires Health(m, led, base, brk, freep) == Sound && 1 <= i < |led.ring|
    ensures var p := led.ring[i];
      && p !in led.live && p in m.size && p in m.ptr
      && Health(Taken(m, led.ring[i - 1], p), Ledger(r, led.live[p := m.size[p]], led.obtained), base, brk,
          led.ring[i - 1]) == Sound
  {
    assert Open(0);
    var ring, live := led.ring, led.live;
    r := Without(ring, i);
    WithoutAt(ring, i);
    TakeSound(m, ring, live, base, brk, i, r);
    TakeUnits(m.size, ring, i);
    LiveUnitsAdd(live, ring[i], m.size[ring[i]]);
    assert r[i - 1] == ring[i - 1];
    assert Sane(Taken(m, ring[i - 1], ring[i]), Ledger(r, live[ring[i] := m.size[ring[i]]], led.obtained), base, brk,
      ring[i - 1]);
  }

  lemma CutAll(m: Mem, led: Ledger, base: nat, brk: nat, freep: nat, i: nat, n: nat, prevp: nat)
    requires Health(m, led, base, brk, freep) == Sound && 1 <= i < |led.ring| && led.ring[i] in m.size
    requires 1 <= n < m.size[led.ring[i]] && prevp in led.ring
    ensures var tail := led.ring[i] + m.size[led.ring[i]] - n;
      && tail !in led.live
      && Health(Cut(m, led.ring[i], n), Ledger(led.ring, led.live[tail := n], led.obtained), base, brk, prevp) == Sound
  {
    var tail := led.ring[i] + m.size[led.ring[i]] - n;
    Opened(m, led, base, brk, freep);
    CutWhole(m, led.ring, led.live, base, brk, i, n, tail);
    assert Sane(Cut(m, led.ring[i], n), Ledger(led.ring, led.live[tail := n], led.obtained), base, brk, prevp);
  }

  lemma CutWhole(m: Mem, ring: seq<nat>, live: map<nat, nat>, base: nat, brk: nat, i: nat, n: nat, tail: nat)
    requires Whole(m, ring, live, base, brk) == Sound && 1 <= i < |ring| && ring[i] in m.size
    requires 1 <= n < m.size[ring[i]]
    requires tail == ring[i] + m.size[ring[i]] - n
    ensures tail !in live && Whole(Cut(m, ring[i], n), ring, live[tail := n], base, brk) == Sound
    ensures FreeUnits(Cut(m, ring[i], n).size, ring) + LiveUnits(live[tail := n])
      == FreeUnits(m.size, ring) + LiveUnits(live)
  {
    assert Open(0);
    CutSound(m, ring, live, base, brk, i, n);
    CutSums(m, ring, live, i, n, tail);
  }

  lemma CutSums(m: Mem, ring: seq<nat>, live: map<nat, nat>, i: nat, n: nat, tail: nat)
    requires Sorted(ring) && i < |ring| && ring[i] in m.size && n < m.size[ring[i]]
    requires tail == ring[i] + m.size[ring[i]] - n && tail !in ring && tail !in live
    ensures FreeUnits(Cut(m, ring[i], n).size, ring) + LiveUnits(live[tail := n])
      == FreeUnits(m.size, ring) + LiveUnits(live)
  {
    CutUnits(m.size, ring, i, n, tail);
    LiveUnitsAdd(live, tail, n);
  }

  lemma FreshUnits(size: map<nat, nat>, ring: seq<nat>, hp: nat, nu: nat)
    requires hp !in ring
    ensures FreeUnits(size[hp := nu], ring) == FreeUnits(size, ring)
  {
    FreeUnitsSame(size, size[hp := nu], ring);
  }

  lemma NotZero(m: Mem, led: Ledger, base: nat, brk: nat, freep: nat, p: nat)
    requires Health(m, led, base, brk, freep) == Sound && p in led.ring
    ensures p > 0
  {
    assert Open(0);
  }

  /** All there is to `free`: where the block goes, what the code makes of the headers, and that the
      heap is sound again with the block's units among the free ones. */
  lemma FreeAll(l: List, led: Ledger, base: nat, brk: nat, freep: nat, bp: nat) returns (k: nat, r: List)
    requires Health(l.m, led, base, brk, freep) == Sound && l.ring == led.ring && bp in led.live
    ensures IsRing(l.m, l.ring, base) && freep in l.ring
    ensures GoesAfter(l.ring, k, bp) && bp !in l.ring && base < bp
    ensures CanCoalesce(l.m, l.ring[k], bp) && FreeCode(l.m, l.ring[k], bp) == r.m
    ensures Health(r.m, Ledger(r.ring, led.live - {bp}, led.obtained), base, brk, l.ring[k]) == Sound
    ensures HasBlock(r.m, r.ring, led.live[bp])
  {
    assert Open(0);
    var live: map<nat, nat> := led.live;
    var rest: map<nat, nat> := live - {bp};
    NotFree(l.m, l.ring, live, base, brk, bp);
    k := Position(l.ring, bp, |l.ring|);
    r := Freed(l, k, bp);
    CodeIsFreed(l, live, base, brk, k, bp);
    FreedSound(l, live, base, brk, k, bp);
    ListIsHeap(r, rest, base, brk, k, FreeUnits(l.m.size, l.ring) + live[bp]);
    LiveUnitsRemove(live, bp);
    FreedBig(l, k, bp);
    assert Sane(r.m, Ledger(r.ring, rest, led.obtained), base, brk, l.ring[k]);
  }

  /** The freed units are in one block of the new list. */
  lemma FreedBig(l: List, k: nat, bp: nat)
    requires k < |l.ring| && bp in l.m.size
    requires forall j :: 0 <= j < |l.ring| ==> l.ring[j] in l.m.size && l.ring[j] in l.m.ptr
    ensures var r := Freed(l, k, bp);
      exists t :: 0 <= t < |r.ring| && r.ring[t] in r.m.size && r.m.size[r.ring[t]] >= l.m.size[bp]
  {
    var r1 := Insert(l.ring, k, bp);
    InsertAt(l.ring, k, bp);
    var l2, r := Join(List(Linked(l.m, l.ring[k], bp), r1), k + 1), Freed(l, k, bp);
    assert l2.ring[k + 1] == bp && l2.m.size[bp] >= l.m.size[bp];
    if k >= 1 && Touches(l2.m, l2.ring, k) {
      assert r.ring[k] == l2.ring[k] && r.m.size[r.ring[k]] == l2.m.size[l2.ring[k]] + l2.m.size[bp];
    } else {
      assert r.ring[k + 1] == bp;
    }
  }

  lemma ListIsHeap(l: List, live: map<nat, nat>, base: nat, brk: nat, k: nat, units: nat)
    requires ListOk(l, live, base, brk, k, k, units)
    ensures HeapOk(l.m, l.ring, live, base, brk) && FreeUnits(l.m.size, l.ring) == units
  {
  }

  ghost predicate CanCoalesce(m: Mem, p: nat, bp: nat) {
    && p in m.ptr && p in m.size && bp in m.size
    && (bp + m.size[bp] == m.ptr[p] ==> m.ptr[p] in m.ptr && m.ptr[p] in m.size)
  }

  /** What the assignments of `free` do to the headers. */
  ghost function FreeCode(m: Mem, p: nat, bp: nat): Mem
    requires CanCoalesce(m, p, bp)
  {
    var q := m.ptr[p];
    var m1 := if bp + m.size[bp] == q then Mem(m.ptr[bp := m.ptr[q]], m.size[bp := m.size[bp] + m.size[q]])
              else m.(ptr := m.ptr[bp := q]);
    if p + m1.size[p] == bp then Mem(m1.ptr[p := m1.ptr[bp]], m1.size[p := m1.size[p] + m1.size[bp]])
    else m1.(ptr := m1.ptr[p := bp])
  }

  lemma CodeIsFreed(l: List, live: map<nat, nat>, base: nat, brk: nat, k: nat, bp: nat)
    requires HeapOk(l.m, l.ring, live, base, brk) && GoesAfter(l.ring, k, bp) && bp in live && bp !in l.ring
    ensures CanCoalesce(l.m, l.ring[k], bp) && FreeCode(l.m, l.ring[k], bp) == Freed(l, k, bp).m
  {
    NextInRing(l.m, l.ring, base, k);
    InsertAt(l.ring, k, bp);
    var q := l.m.ptr[l.ring[k]];
    assert k + 1 < |l.ring| ==> q == l.ring[k + 1];
    FreedMem(l, k, bp, l.ring[k], q, Insert(l.ring, k, bp));
  }

  /** The two joins, seen from the headers alone. */
  lemma FreedMem(l: List, k: nat, bp: nat, p: nat, q: nat, r1: seq<nat>)
    requires k < |l.ring| && p == l.ring[k] && bp in l.m.size && bp !in l.ring && p in l.m.ptr && q == l.m.ptr[p]
    requires q in l.ring
    requires forall j :: 0 <= j < |l.ring| ==> l.ring[j] in l.m.size && l.ring[j] in l.m.ptr
    requires r1 == Insert(l.ring, k, bp) && IsInsert(l.ring, k, bp, r1)
    requires k + 1 < |l.ring| ==> q == l.ring[k + 1] != p
    requires k + 1 == |l.ring| ==> bp + l.m.size[bp] != q
    requires k == 0 ==> p + l.m.size[p] != bp
    ensures FreeCode(l.m, p, bp) == Freed(l, k, bp).m
  {
    var m1 := Linked(l.m, p, bp);
    var l2 := Join(List(m1, r1), k + 1);
    assert r1[k] == p && r1[k + 1] == bp && (k + 1 < |l.ring| ==> r1[k + 2] == q);
    assert Touches(m1, r1, k + 1) <==> bp + l.m.size[bp] == q;
    assert l2.ring[k] == p && l2.ring[k + 1] == bp;
    var m3, code := Freed(l, k, bp).m, FreeCode(l.m, p, bp);
    assert p != bp && q != bp;
    assert m3.size == code.size;
    assert m3.ptr == code.ptr;
  }

  lemma NotFree(m: Mem, ring: seq<nat>, live: map<nat, nat>, base: nat, brk: nat, bp: nat)
    requires HeapOk(m, ring, live, base, brk) && bp in live
    ensures bp !in ring
  {
    forall i | 0 <= i < |ring| ensures ring[i] != bp {
      if i >= 1 {
        assert NoOverlap(bp, live[bp], ring[i], m.size[ring[i]]);
      }
    }
  }

  lemma NextInRing(m: Mem, ring: seq<nat>, base: nat, j: nat)
    requires IsRing(m, ring, base) && j < |ring|
    ensures ring[j] in m.ptr && m.ptr[ring[j]] == ring[if j + 1 < |ring| then j + 1 else 0]
    ensures m.ptr[ring[j]] <= ring[j] <==> j == |ring| - 1
  {
  }

  lemma PlaceIsUnique(ring: seq<nat>, k: nat, bp: nat, j: nat)
    requires Sorted(ring) && GoesAfter(ring, k, bp) && GoesAfter(ring, j, bp)
    ensures j == k
  {
  }

  lemma NotHere(ring: seq<nat>, k: nat, bp: nat, j: nat)
    requires Sorted(ring) && GoesAfter(ring, k, bp) && j < |ring| && !GoesAfter(ring, j, bp)
    ensures j != k
    ensures Distance(|ring|, if j + 1 < |ring| then j + 1 else 0, k) < Distance(|ring|, j, k)
  {
  }
}
