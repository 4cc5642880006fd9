/** The LRU ring of bio.c as values: buffers in a pool, linked through `prev` and `next` around a
    sentinel, and what unlinking and pushing to the front do to the order of the ring. */
module BufferRing {
  /** The content of a block. */
  type Data(!new, ==)

  datatype Addr = Addr(dev: int, blockno: nat)

  datatype Buf = Buf(addr: Addr, busy: bool, valid: bool, dirty: bool, prev: nat, next: nat, data: Data)

  /** The `i`-th node of the ring for `order`: the sentinel `n`, then the buffers, then `n` again. */
  function Node(n: nat, order: seq<nat>, i: nat): nat
    requires i <= |order| + 1
  {
    if i == 0 || i == |order| + 1 then n else order[i - 1]
  }

  /** `order` names distinct buffers of a pool of `n`. */
  ghost predicate Picks(n: nat, order: seq<nat>) {
    && (forall i :: 0 <= i < |order| ==> order[i] < n)
    && forall i, j :: 0 <= i < j < |order| ==> order[i] != order[j]
  }

  /** Following `next` from the sentinel visits `order` and returns; `prev` is its inverse. */
  ghost predicate Linked(n: nat, bs: seq<Buf>, order: seq<nat>) {
    && |bs| == n + 1
    && Picks(n, order)
    && forall i: nat :: i <= |order| ==>
         && bs[Node(n, order, i)].next == Node(n, order, i + 1)
         && bs[Node(n, order, i + 1)].prev == Node(n, order, i)
  }

  ghost function Upto(n: nat): (s: set<nat>)
    ensures |s| == n && forall i :: i in s <==> 0 <= i < n
  {
    if n == 0 then {} else Upto(n - 1) + {n - 1}
  }

  ghost function Members(order: seq<nat>): set<nat> {
    if order == [] then {} else Members(order[..|order| - 1]) + {order[|order| - 1]}
  }

  lemma {:induction false} MembersAre(order: seq<nat>, x: nat)
    ensures x in Members(order) <==> x in order
  {
    if order != [] {
      MembersAre(order[..|order| - 1], x);
      assert order == order[..|order| - 1] + [order[|order| - 1]];
    }
  }

  lemma {:induction false} PicksCount(n: nat, order: seq<nat>)
    requires Picks(n, order)
    ensures |Members(order)| == |order|
  {
    if order != [] {
      var k := |order| - 1;
      PicksCount(n, order[..k]);
      MembersAre(order[..k], order[k]);
    }
  }

  /** A ring of `n` buffers from a pool of `n` has all of them. */
  lemma AllPicked(n: nat, order: seq<nat>, i: nat)
    requires Picks(n, order) && |order| == n && i < n
    ensures i in order
  {
    PicksCount(n, order);
    if i !in order {
      var rest := Upto(n) - {i};
      assert |rest| == n - 1;
      forall x | x in Members(order) ensures x in rest {
        MembersAre(order, x);
      }
      SubsetCard(Members(order), rest);
    }
  }

  lemma {:induction false} SubsetCard(a: set<nat>, b: set<nat>)
    requires a <= b
    ensures |a| <= |b|
    decreases a
  {
    if a != {} {
      var x :| x in a;
      SubsetCard(a - {x}, b - {x});
    }
  }

  /** `b->next->prev = b->prev; b->prev->next = b->next;` */
  function Unlink(bs: seq<Buf>, b: nat): seq<Buf>
    requires b < |bs| && bs[b].next < |bs| && bs[b].prev < |bs|
  {
    var bs1 := bs[bs[b].next := bs[bs[b].next].(prev := bs[b].prev)];
    bs1[bs1[b].prev := bs1[bs1[b].prev].(next := bs1[b].next)]
  }

  /** `b->next = head.next; b->prev = &head; head.next->prev = b; head.next = b;` */
  function PushFront(n: nat, bs: seq<Buf>, b: nat): seq<Buf>
    requires |bs| == n + 1 && b < n && bs[n].next < |bs|
  {
    var bs1 := bs[b := bs[b].(next := bs[n].next, prev := n)];
    var bs2 := bs1[bs1[n].next := bs1[bs1[n].next].(prev := b)];
    bs2[n := bs2[n].(next := b)]
  }

  function Without(order: seq<nat>, p: nat): seq<nat>
    requires p < |order|
  {
    order[..p] + order[p + 1..]
  }

  /** The same buffers, linked another way. */
  ghost predicate SameButLinks(n: nat, bs: seq<Buf>, bs': seq<Buf>) {
    && |bs| == |bs'| == n + 1
    && forall i :: 0 <= i < n ==> bs'[i] == bs[i].(next := bs'[i].next, prev := bs'[i].prev)
  }

  lemma UnlinkSame(n: nat, bs: seq<Buf>, b: nat)
    requires |bs| == n + 1 && b < n && bs[b].next < |bs| && bs[b].prev < |bs|
    ensures SameButLinks(n, bs, Unlink(bs, b))
  {
  }

  lemma PushFrontSame(n: nat, bs: seq<Buf>, b: nat)
    requires |bs| == n + 1 && b < n && bs[n].next < |bs|
    ensures SameButLinks(n, bs, PushFront(n, bs, b))
  {
  }

  lemma RelinkSame(n: nat, bs: seq<Buf>, b: nat)
    requires |bs| == n + 1 && b < n && bs[b].next < |bs| && bs[b].prev < |bs|
    requires Unlink(bs, b)[n].next < |bs|
    ensures SameButLinks(n, bs, PushFront(n, Unlink(bs, b), b))
  {
    UnlinkSame(n, bs, b);
    PushFrontSame(n, Unlink(bs, b), b);
  }

  /** When `b` was last released, counting releases from 0; -1 for never. */
  ghost function LastRelease(released: seq<nat>, b: nat): (r: int)
    ensures -1 <= r < |released|
  {
    if released == [] then -1
    else if released[|released| - 1] == b then |released| - 1
    else LastRelease(released[..|released| - 1], b)
  }

  /** The ring is in order of last release, the latest first. */
  ghost predicate ByRecency(order: seq<nat>, released: seq<nat>) {
    forall i, j :: 0 <= i < j < |order| ==>
      LastRelease(released, order[i]) > LastRelease(released, order[j]) || LastRelease(released, order[j]) == -1
  }

  lemma FrontIsLatest(order: seq<nat>, released: seq<nat>, p: nat)
    requires p < |order| && ByRecency(order, released)
    requires forall i, j :: 0 <= i < j < |order| ==> order[i] != order[j]
    ensures ByRecency([order[p]] + Without(order, p), released + [order[p]])
  {
    var b, rest, r := order[p], Without(order, p), released + [order[p]];
    assert r[..|released|] == released;
    forall i | 0 <= i < |rest| ensures LastRelease(r, rest[i]) == LastRelease(released, rest[i]) {
      assert rest[i] == order[if i < p then i else i + 1];
    }
    var order' := [b] + rest;
    forall i, j | 0 <= i < j < |order'|
      ensures LastRelease(r, order'[i]) > LastRelease(r, order'[j]) || LastRelease(r, order'[j]) == -1
    {
      assert order'[j] == rest[j - 1];
      if i > 0 {
        assert order'[i] == rest[i - 1];
        var i0, j0 := if i - 1 < p then i - 1 else i, if j - 1 < p then j - 1 else j;
        assert rest[i - 1] == order[i0] && rest[j - 1] == order[j0];
      }
    }
  }

  lemma UnlinkLinked(n: nat, bs: seq<Buf>, order: seq<nat>, p: nat)
    requires Linked(n, bs, order) && p < |order|
    ensures bs[order[p]].next < |bs| && bs[order[p]].prev < |bs|
    ensures Linked(n, Unlink(bs, order[p]), Without(order, p))
  {
    var b, order' := order[p], Without(order, p);
    assert Node(n, order, p + 1) == b;
    assert bs[b].next == Node(n, order, p + 2) && bs[b].prev == Node(n, order, p);
    var bs' := Unlink(bs, b);
    forall i: nat | i <= |order'|
      ensures bs'[Node(n, order', i)].next == Node(n, order', i + 1)
      ensures bs'[Node(n, order', i + 1)].prev == Node(n, order', i)
    {
      UnlinkAt(n, bs, order, p, i);
    }
  }

  lemma UnlinkAt(n: nat, bs: seq<Buf>, order: seq<nat>, p: nat, i: nat)
    requires Linked(n, bs, order) && p < |order| && i < |order|
    requires bs[order[p]].next == Node(n, order, p + 2) && bs[order[p]].prev == Node(n, order, p)
    ensures var order' := Without(order, p);
      var bs' := Unlink(bs, order[p]);
      bs'[Node(n, order', i)].next == Node(n, order', i + 1) && bs'[Node(n, order', i + 1)].prev == Node(n, order', i)
  {
    var order' := Without(order, p);
    if i < p {
      assert Node(n, order', i) == Node(n, order, i);
      assert Node(n, order', i + 1) == Node(n, order, i + 1);
    } else if i == p {
      assert Node(n, order', i) == Node(n, order, i);
      assert Node(n, order', i + 1) == Node(n, order, i + 2);
    } else {
      assert Node(n, order', i) == Node(n, order, i + 1);
      assert Node(n, order', i + 1) == Node(n, order, i + 2);
    }
  }

  lemma PushFrontLinked(n: nat, bs: seq<Buf>, order: seq<nat>, b: nat)
    requires Linked(n, bs, order) && b < n && b !in order
    ensures bs[n].next < |bs|
    ensures Linked(n, PushFront(n, bs, b), [b] + order)
  {
    assert bs[Node(n, order, 0)].next == Node(n, order, 1);
    var order', bs' := [b] + order, PushFront(n, bs, b);
    forall i: nat | i <= |order'|
      ensures bs'[Node(n, order', i)].next == Node(n, order', i + 1)
      ensures bs'[Node(n, order', i + 1)].prev == Node(n, order', i)
    {
      if i >= 1 {
        assert i >= 2 ==> Node(n, order', i) == Node(n, order, i - 1);
        assert Node(n, order', i + 1) == Node(n, order, i);
      }
    }
  }
}

/** bio.c as code. Every method is one critical section under `bcache.lock` (or touches only a buffer
    its caller holds), so an invariant that each of them keeps holds under every interleaving; a
    process that must wait comes back with another call. */
module BufferCache {
  import opened BufferRing

  datatype Outcome =
    | Got(b: nat)          // the buffer, now B_BUSY
    | MustSleep(b: nat)    // cached but held by another process: sleep on it, then try again
    | NoBuffers            // panic("bget: no buffers")

  /** At most one buffer per block. */
  ghost predicate Unique(n: nat, bs: seq<Buf>)
    requires |bs| == n + 1
  {
    forall i, j :: 0 <= i < j < n && bs[i].addr == bs[j].addr ==> bs[i].addr.dev < 0
  }

  /** A buffer that is idle and not pinned holds what the disk holds, or nothing. */
  ghost predicate CleanIsDisk(n: nat, bs: seq<Buf>, disk: map<Addr, Data>)
    requires |bs| == n + 1
  {
    forall i :: 0 <= i < n ==>
      && (bs[i].valid ==> bs[i].addr in disk && bs[i].addr.dev >= 0)
      && (bs[i].dirty ==> bs[i].valid)
      && (!bs[i].busy && bs[i].addr.dev >= 0 ==> bs[i].valid)
      && (bs[i].valid && !bs[i].busy && !bs[i].dirty ==> bs[i].data == disk[bs[i].addr])
  }

  ghost predicate Caches(n: nat, bs: seq<Buf>, i: nat, a: Addr)
    requires |bs| == n + 1
  {
    i < n && bs[i].addr == a && bs[i].valid
  }

  /** The current content of a block: the cached copy, or the disk. */
  ghost function View(n: nat, bs: seq<Buf>, disk: map<Addr, Data>, a: Addr): Data
    requires |bs| == n + 1 && a in disk
  {
    if exists i: nat :: Caches(n, bs, i, a) then (var i: nat :| Caches(n, bs, i, a); bs[i].data) else disk[a]
  }

  /** Same content for every block. */
  ghost predicate SameView(n: nat, bs: seq<Buf>, disk: map<Addr, Data>, bs': seq<Buf>, disk': map<Addr, Data>)
    requires |bs| == |bs'| == n + 1
  {
    && disk'.Keys == disk.Keys
    && forall a :: a in disk ==> View(n, bs', disk', a) == View(n, bs, disk, a)
  }

  lemma ViewCached(n: nat, bs: seq<Buf>, disk: map<Addr, Data>, i: nat)
    requires |bs| == n + 1 && Unique(n, bs) && CleanIsDisk(n, bs, disk) && i < n && bs[i].valid
    ensures View(n, bs, disk, bs[i].addr) == bs[i].data
  {
    var a := bs[i].addr;
    assert Caches(n, bs, i, a);
    forall j: nat | Caches(n, bs, j, a) ensures j == i {
    }
  }

  lemma ViewUncached(n: nat, bs: seq<Buf>, disk: map<Addr, Data>, a: Addr)
    requires |bs| == n + 1 && a in disk
    requires forall i :: 0 <= i < n && bs[i].valid ==> bs[i].addr != a
    ensures View(n, bs, disk, a) == disk[a]
  {
  }

  /** If only buffer `i` may cache block `a`, it alone decides its content. */
  lemma ViewOnly(n: nat, bs: seq<Buf>, disk: map<Addr, Data>, i: nat, a: Addr)
    requires |bs| == n + 1 && i < n && a in disk
    requires forall j: nat :: j != i ==> !Caches(n, bs, j, a)
    ensures View(n, bs, disk, a) == if bs[i].addr == a && bs[i].valid then bs[i].data else disk[a]
  {
    if bs[i].addr == a && bs[i].valid {
      assert Caches(n, bs, i, a);
    }
  }

  /** Giving buffer `i` another value leaves every block's content alone, if it is the same content
      as before, or if the old and the new value are each void or the same as the disk. */
  lemma ReplaceKeepsView(n: nat, bs: seq<Buf>, disk: map<Addr, Data>, i: nat, f: Buf)
    requires |bs| == n + 1 && i < n && Unique(n, bs) && CleanIsDisk(n, bs, disk)
    requires Unique(n, bs[i := f]) && CleanIsDisk(n, bs[i := f], disk)
    requires
      || (f.addr == bs[i].addr && f.valid == bs[i].valid && f.data == bs[i].data)
      || (&& (bs[i].valid ==> bs[i].data == disk[bs[i].addr])
          && (f.valid ==> f.addr in disk && f.data == disk[f.addr]))
    ensures SameView(n, bs, disk, bs[i := f], disk)
  {
    var bs' := bs[i := f];
    forall a | a in disk ensures View(n, bs', disk, a) == View(n, bs, disk, a) {
      if j: nat :| j != i && Caches(n, bs, j, a) {
        ViewCached(n, bs, disk, j);
        assert bs'[j] == bs[j];
        ViewCached(n, bs', disk, j);
      } else {
        forall j: nat | j != i ensures !Caches(n, bs', j, a) {
          assert !Caches(n, bs, j, a);
        }
        ViewOnly(n, bs, disk, i, a);
        ViewOnly(n, bs', disk, i, a);
      }
    }
  }

  predicate Evictable(f: Buf) {
    !f.busy && !f.dirty
  }

  class Cache {
    const n: nat
    const bufs: array<Buf>
    var disk: map<Addr, Data>
    ghost var order: seq<nat>     // the ring, most recently released first
    ghost var released: seq<nat>  // every `brelse` so far

    ghost predicate Valid()
      reads this, bufs
    {
      && bufs.Length == n + 1
      && Linked(n, bufs[..], order)
      && |order| == n
      && ByRecency(order, released)
      && Unique(n, bufs[..])
      && CleanIsDisk(n, bufs[..], disk)
    }

    /** `binit`. */
    constructor (n: nat, zero: Data, disk: map<Addr, Data>)
      ensures this.n == n && this.disk == disk && Valid() && fresh(bufs)
      ensures order == seq(n, i requires 0 <= i < n => n - 1 - i)
      ensures forall i :: 0 <= i < n ==> !bufs[i].busy && !bufs[i].valid && !bufs[i].dirty
    {
      this.n, this.disk, order, released := n, disk, [], [];
      var pool := new Buf[n + 1](i => Buf(Addr(-1, 0), false, false, false, n, n, zero));
      bufs := pool;
      new;
      var b := 0;
      while b < n
        invariant 0 <= b <= n && this.disk == disk && released == []
        invariant bufs.Length == n + 1 && Linked(n, bufs[..], order)
        invariant order == seq(b, i requires 0 <= i < b => b - 1 - i)
        invariant forall i :: 0 <= i <= n ==>
          !bufs[i].busy && !bufs[i].valid && !bufs[i].dirty && bufs[i].addr.dev == -1
      {
        PushFrontLinked(n, bufs[..], order, b);
        Push(b);
        order := [b] + order;
        b := b + 1;
      }
    }

    method Push(b: nat)
      requires bufs.Length == n + 1 && b < n && bufs[n].next < bufs.Length
      modifies bufs
      ensures bufs[..] == PushFront(n, old(bufs[..]), b)
    {
      bufs[b] := bufs[b].(next := bufs[n].next, prev := n);
      bufs[bufs[n].next] := bufs[bufs[n].next].(prev := b);
      bufs[n] := bufs[n].(next := b);
    }

    // ---------------------------------------------------------------- bget

    /** The first loop of `bget`: from the most recently used end. */
    method Find(a: Addr) returns (found: bool, b: nat)
      requires Valid()
      ensures found ==> b < n && bufs[b].addr == a
      ensures !found ==> forall i :: 0 <= i < n ==> bufs[i].addr != a
    {
      ghost var k := 1;
      assert bufs[..][Node(n, order, 0)].next == Node(n, order, 1);
      b := bufs[n].next;
      while b != n
        invariant 1 <= k <= n + 1 && b == Node(n, order, k)
        invariant forall i :: 0 <= i < k - 1 ==> bufs[order[i]].addr != a
        decreases n + 1 - k
      {
        if bufs[b].addr == a {
          return true, b;
        }
        assert bufs[..][Node(n, order, k)].next == Node(n, order, k + 1);
        b := bufs[b].next;
        k := k + 1;
      }
      assert k == n + 1;
      forall i: nat | i < n ensures bufs[i].addr != a {
        AllPicked(n, order, i);
      }
      found := false;
    }

    /** The second loop of `bget`: from the least recently used end, the first buffer that is
        neither busy nor dirty. */
    method FindVictim() returns (found: bool, b: nat, ghost p: nat)
      requires Valid()
      ensures found ==> p < n && b == order[p] && Evictable(bufs[b])
      ensures found ==> forall i :: p < i < n ==> !Evictable(bufs[order[i]])
      ensures !found ==> forall i :: 0 <= i < n ==> !Evictable(bufs[i])
    {
      ghost var k := n;
      assert bufs[..][Node(n, order, n + 1)].prev == Node(n, order, n);
      b := bufs[n].prev;
      while b != n
        invariant 0 <= k <= n && b == Node(n, order, k)
        invariant forall i :: k <= i < n ==> !Evictable(bufs[order[i]])
        decreases k
      {
        if !bufs[b].busy && !bufs[b].dirty {
          return true, b, k - 1;
        }
        assert bufs[..][Node(n, order, k)].prev == Node(n, order, k - 1);
        b := bufs[b].prev;
        k := k - 1;
      }
      assert k == 0;
      forall i: nat | i < n ensures !Evictable(bufs[i]) {
        AllPicked(n, order, i);
      }
      found, p := false, 0;
    }

    /** One pass of `bget`, from `loop:` to a return, a sleep or the panic. */
    method Bget(a: Addr) returns (r: Outcome)
      requires Valid() && a in disk && a.dev >= 0
      modifies bufs
      ensures Valid()
      ensures SameView(n, old(bufs[..]), disk, bufs[..], disk)
      ensures r.Got? ==> r.b < n && bufs[r.b].addr == a && bufs[r.b].busy && !old(bufs[r.b].busy)
      ensures r.Got? ==> (bufs[r.b].valid <==> old(bufs[r.b].addr) == a)
      ensures r.Got? ==> forall i :: 0 <= i < n && i != r.b ==> bufs[i] == old(bufs[i])
      ensures r.Got? && old(bufs[r.b].addr) == a ==> bufs[r.b] == old(bufs[r.b]).(busy := true)
      ensures r.Got? && old(bufs[r.b].addr) != a ==>
        && old(Evictable(bufs[r.b]))
        && exists p :: 0 <= p < n && order[p] == r.b && forall i :: p < i < n ==> !old(Evictable(bufs[order[i]]))
      ensures r.MustSleep? ==> r.b < n && bufs[r.b].addr == a && bufs[r.b].busy
      ensures r.NoBuffers? ==> forall i :: 0 <= i < n ==> bufs[i].addr != a && !Evictable(bufs[i])
      ensures !r.Got? ==> bufs[..] == old(bufs[..])
    {
      var found, b := Find(a);
      if found {
        if bufs[b].busy {
          return MustSleep(b);
        }
        ghost var f := bufs[b].(busy := true);
        UpdateSound(n, bufs[..], disk, order, b, f);
        ReplaceKeepsView(n, bufs[..], disk, b, f);
        bufs[b] := bufs[b].(busy := true);
        assert bufs[..] == old(bufs[..])[b := f];
        return Got(b);
      }
      ghost var p;
      found, b, p := FindVictim();
      if !found {
        return NoBuffers;
      }
      ghost var f := bufs[b].(addr := a, busy := true, valid := false, dirty := false);
      UpdateSound(n, bufs[..], disk, order, b, f);
      ReplaceKeepsView(n, bufs[..], disk, b, f);
      bufs[b] := bufs[b].(addr := a, busy := true, valid := false, dirty := false);
      assert bufs[..] == old(bufs[..])[b := f];
      return Got(b);
    }

    // ---------------------------------------------------------------- the disk and the rest

    /** Writing `f` over buffer `b`, for the holder. */
    method Put(b: nat, f: Buf)
      requires Valid() && b < n
      requires f.next == bufs[b].next && f.prev == bufs[b].prev && f.addr == bufs[b].addr
      requires f.valid ==> f.addr in disk && f.addr.dev >= 0
      requires f.dirty ==> f.valid
      requires !f.busy && f.addr.dev >= 0 ==> f.valid
      requires f.valid && !f.busy && !f.dirty ==> f.data == disk[f.addr]
      modifies bufs
      ensures Valid() && bufs[..] == old(bufs[..])[b := f]
    {
      UpdateSound(n, bufs[..], disk, order, b, f);
      bufs[b] := f;
      assert bufs[..] == old(bufs[..])[b := f];
    }

    /** `iderw` of memide.c: write a dirty buffer out, or read one that is not valid. */
    method Iderw(b: nat)
      requires Valid() && b < n && bufs[b].busy && bufs[b].addr in disk && bufs[b].addr.dev >= 0
      requires bufs[b].dirty || !bufs[b].valid
      modifies bufs, this`disk
      ensures Valid()
      ensures disk == if old(bufs[b].dirty) then old(disk)[bufs[b].addr := bufs[b].data] else old(disk)
      ensures bufs[..] == old(bufs[..])[b := old(bufs[b]).(valid := true, dirty := false, data := bufs[b].data)]
      ensures bufs[b].data == if old(bufs[b].dirty) then old(bufs[b].data) else disk[bufs[b].addr]
    {
      var f := bufs[b];
      if f.dirty {
        WriteOutSound(n, bufs[..], disk, b);
        disk := disk[f.addr := f.data];
        Put(b, f.(dirty := false, valid := true));
      } else {
        Put(b, f.(data := disk[f.addr], valid := true));
      }
    }

    /** `bread`, one attempt: the buffer returned holds the block's current content. */
    method Bread(a: Addr) returns (r: Outcome)
      requires Valid() && a in disk && a.dev >= 0
      modifies bufs, this`disk
      ensures Valid() && disk == old(disk)
      ensures SameView(n, old(bufs[..]), disk, bufs[..], disk)
      ensures r.Got? ==> r.b < n && bufs[r.b].addr == a && bufs[r.b].busy && bufs[r.b].valid && !old(bufs[r.b].busy)
      ensures r.Got? ==> bufs[r.b].data == View(n, old(bufs[..]), disk, a)
      ensures r.Got? ==> forall i :: 0 <= i < n && i != r.b ==> bufs[i] == old(bufs[i])
      ensures !r.Got? ==> bufs[..] == old(bufs[..])
    {
      r := Bget(a);
      if r.Got? {
        if !bufs[r.b].valid {
          ReplaceReady(n, bufs[..], disk, order, r.b, bufs[r.b].(data := disk[a], valid := true));
          Iderw(r.b);
        }
        ViewCached(n, bufs[..], disk, r.b);
      }
    }

    /** The holder changes the buffer's content. */
    method Modify(b: nat, data: Data)
      requires Valid() && b < n && bufs[b].busy && bufs[b].valid
      modifies bufs
      ensures Valid() && bufs[..] == old(bufs[..])[b := old(bufs[b]).(data := data)]
      ensures View(n, bufs[..], disk, bufs[b].addr) == data
    {
      Put(b, bufs[b].(data := data));
      ViewCached(n, bufs[..], disk, b);
    }

    /** B_DIRTY set by `log_write`: the buffer cannot be recycled until it is written out. */
    method Pin(b: nat)
      requires Valid() && b < n && bufs[b].busy && bufs[b].valid
      modifies bufs
      ensures Valid() && bufs[..] == old(bufs[..])[b := old(bufs[b]).(dirty := true)]
    {
      Put(b, bufs[b].(dirty := true));
    }

    /** `bwrite`; false stands for its panic. */
    method Bwrite(b: nat) returns (ok: bool)
      requires Valid() && b < n && bufs[b].valid
      modifies bufs, this`disk
      ensures ok == old(bufs[b].busy)
      ensures Valid()
      ensures ok ==> disk == old(disk)[bufs[b].addr := bufs[b].data]
      ensures ok ==> bufs[..] == old(bufs[..])[b := old(bufs[b]).(dirty := false)]
      ensures !ok ==> disk == old(disk) && bufs[..] == old(bufs[..])
      ensures SameView(n, old(bufs[..]), old(disk), bufs[..], disk)
    {
      if !bufs[b].busy {
        return false;
      }
      BwriteSame(n, bufs[..], disk, order, b);
      Put(b, bufs[b].(dirty := true));
      Iderw(b);
      ok := true;
    }

    /** The six pointer assignments of `brelse`. */
    method MoveToFront(b: nat)
      requires Valid() && b < n
      modifies bufs, this`order, this`released
      ensures Valid() && SameButLinks(n, old(bufs[..]), bufs[..])
      ensures released == old(released) + [b]
      ensures exists p :: 0 <= p < n && old(order)[p] == b && order == [b] + Without(old(order), p)
    {
      ghost var bs := bufs[..];
      AllPicked(n, order, b);
      ghost var p :| 0 <= p < n && order[p] == b;
      UnlinkLinked(n, bs, order, p);
      bufs[bufs[b].next] := bufs[bufs[b].next].(prev := bufs[b].prev);
      bufs[bufs[b].prev] := bufs[bufs[b].prev].(next := bufs[b].next);
      assert bufs[..] == Unlink(bs, b);
      PushFrontLinked(n, bufs[..], Without(order, p), b);
      RelinkSame(n, bs, b);
      Push(b);
      FrontIsLatest(order, released, p);
      LinksKeepSound(n, bs, bufs[..], disk);
      order, released := [b] + Without(order, p), released + [b];
    }

    /** `brelse`, by a holder whose changes are on the disk or pinned; false stands for its panic. */
    method Brelse(b: nat) returns (ok: bool)
      requires Valid() && b < n && bufs[b].valid
      requires bufs[b].dirty || bufs[b].data == disk[bufs[b].addr]
      modifies bufs, this`order, this`released
      ensures ok == old(bufs[b].busy)
      ensures Valid()
      ensures ok ==> released == old(released) + [b]
      ensures ok ==> exists p :: 0 <= p < n && old(order)[p] == b && order == [b] + Without(old(order), p)
      ensures ok ==> SameButLinks(n, old(bufs[..])[b := old(bufs[b]).(busy := false)], bufs[..])
      ensures !ok ==> bufs[..] == old(bufs[..]) && order == old(order) && released == old(released)
      ensures SameView(n, old(bufs[..]), disk, bufs[..], disk)
    {
      if !bufs[b].busy {
        return false;
      }
      ghost var bs := bufs[..];
      MoveToFront(b);
      ReleaseSound(n, bs, bufs[..], disk, order, b);
      Put(b, bufs[b].(busy := false));
      ok := true;
    }
  }

  lemma LinksKeepSound(n: nat, bs: seq<Buf>, bs': seq<Buf>, disk: map<Addr, Data>)
    requires SameButLinks(n, bs, bs') && Unique(n, bs) && CleanIsDisk(n, bs, disk)
    ensures Unique(n, bs') && CleanIsDisk(n, bs', disk)
  {
  }

  lemma LinksDoNotMatter(n: nat, bs: seq<Buf>, bs': seq<Buf>, disk: map<Addr, Data>)
    requires SameButLinks(n, bs, bs') && Unique(n, bs) && CleanIsDisk(n, bs, disk)
    ensures Unique(n, bs') && CleanIsDisk(n, bs', disk)
    ensures SameView(n, bs, disk, bs', disk)
  {
    LinksKeepSound(n, bs, bs', disk);
    forall a | a in disk ensures View(n, bs', disk, a) == View(n, bs, disk, a) {
      if j: nat :| Caches(n, bs, j, a) {
        ViewCached(n, bs, disk, j);
        assert Caches(n, bs', j, a);
        ViewCached(n, bs', disk, j);
      } else {
        forall j: nat ensures !Caches(n, bs', j, a) {
          assert !Caches(n, bs, j, a);
        }
      }
    }
  }

  lemma BwriteSame(n: nat, bs: seq<Buf>, disk: map<Addr, Data>, order: seq<nat>, b: nat)
    requires Linked(n, bs, order) && Unique(n, bs) && CleanIsDisk(n, bs, disk) && b < n
    requires bs[b].valid && bs[b].busy
    ensures SameView(n, bs, disk, bs[b := bs[b].(dirty := false)], disk[bs[b].addr := bs[b].data])
  {
    var f := bs[b].(dirty := true);
    UpdateSound(n, bs, disk, order, b, f);
    ReplaceKeepsView(n, bs, disk, b, f);
    WriteOutSound(n, bs[b := f], disk, b);
    assert bs[b := f][b := f.(dirty := false, valid := true)] == bs[b := bs[b].(dirty := false)];
  }

  lemma ReleaseSound(n: nat, bs: seq<Buf>, bs1: seq<Buf>, disk: map<Addr, Data>, order: seq<nat>, b: nat)
    requires SameButLinks(n, bs, bs1) && Unique(n, bs) && CleanIsDisk(n, bs, disk)
    requires Linked(n, bs1, order) && b < n
    requires bs[b].valid && (bs[b].dirty || bs[b].data == disk[bs[b].addr])
    ensures SameButLinks(n, bs[b := bs[b].(busy := false)], bs1[b := bs1[b].(busy := false)])
    ensures SameView(n, bs, disk, bs1[b := bs1[b].(busy := false)], disk)
  {
    LinksDoNotMatter(n, bs, bs1, disk);
    LetGo(n, bs1, disk, order, b);
  }

  lemma LetGo(n: nat, bs: seq<Buf>, disk: map<Addr, Data>, order: seq<nat>, b: nat)
    requires Linked(n, bs, order) && Unique(n, bs) && CleanIsDisk(n, bs, disk) && b < n
    requires bs[b].valid && (bs[b].dirty || (bs[b].addr in disk && bs[b].data == disk[bs[b].addr]))
    ensures SameView(n, bs, disk, bs[b := bs[b].(busy := false)], disk)
  {
    var f := bs[b].(busy := false);
    UpdateSound(n, bs, disk, order, b, f);
    ReplaceKeepsView(n, bs, disk, b, f);
  }

  lemma ReplaceReady(n: nat, bs: seq<Buf>, disk: map<Addr, Data>, order: seq<nat>, b: nat, f: Buf)
    requires Linked(n, bs, order) && Unique(n, bs) && CleanIsDisk(n, bs, disk) && b < n
    requires !bs[b].valid && f == bs[b].(data := f.data, valid := true)
    requires f.addr in disk && f.addr.dev >= 0 && f.data == disk[f.addr]
    ensures SameView(n, bs, disk, bs[b := f], disk)
  {
    UpdateSound(n, bs, disk, order, b, f);
    ReplaceKeepsView(n, bs, disk, b, f);
  }

  /** Writing a buffer out changes the disk where no other buffer looks. */
  lemma WriteOutSound(n: nat, bs: seq<Buf>, disk: map<Addr, Data>, b: nat)
    requires |bs| == n + 1 && b < n && Unique(n, bs) && CleanIsDisk(n, bs, disk)
    requires bs[b].busy && bs[b].dirty
    ensures var disk' := disk[bs[b].addr := bs[b].data];
      && CleanIsDisk(n, bs, disk')
      && SameView(n, bs, disk, bs[b := bs[b].(dirty := false, valid := true)], disk')
  {
    var disk' := disk[bs[b].addr := bs[b].data];
    var bs' := bs[b := bs[b].(dirty := false, valid := true)];
    forall i | 0 <= i < n && i != b && bs[i].valid ensures bs[i].addr != bs[b].addr {
    }
    assert CleanIsDisk(n, bs, disk');
    assert Unique(n, bs') && CleanIsDisk(n, bs', disk');
    forall a | a in disk ensures View(n, bs', disk', a) == View(n, bs, disk, a) {
      if j: nat :| Caches(n, bs, j, a) {
        ViewCached(n, bs, disk, j);
        assert Caches(n, bs', j, a);
        ViewCached(n, bs', disk', j);
      } else {
        assert a != bs[b].addr by {
          assert !Caches(n, bs, b, a);
        }
        ViewUncached(n, bs, disk, a) by {
          forall i | 0 <= i < n && bs[i].valid ensures bs[i].addr != a {
            assert !Caches(n, bs, i, a);
          }
        }
        ViewUncached(n, bs', disk', a) by {
          forall i | 0 <= i < n && bs'[i].valid ensures bs'[i].addr != a {
            assert !Caches(n, bs, i, a);
          }
        }
      }
    }
  }

  /** Changing the content part of one buffer keeps the pool sound. */
  lemma UpdateSound(n: nat, bs: seq<Buf>, disk: map<Addr, Data>, order: seq<nat>, b: nat, f: Buf)
    requires Linked(n, bs, order) && Unique(n, bs) && CleanIsDisk(n, bs, disk) && b < n
    requires f.next == bs[b].next && f.prev == bs[b].prev
    requires f.addr == bs[b].addr || forall i :: 0 <= i < n ==> bs[i].addr != f.addr
    requires f.valid ==> f.addr in disk && f.addr.dev >= 0
    requires f.dirty ==> f.valid
    requires !f.busy && f.addr.dev >= 0 ==> f.valid
    requires f.valid && !f.busy && !f.dirty ==> f.data == disk[f.addr]
    ensures Linked(n, bs[b := f], order) && Unique(n, bs[b := f]) && CleanIsDisk(n, bs[b := f], disk)
  {
  }
}
