/** The in-memory bookkeeping of log.c: who is inside a transaction, which block numbers the
    current transaction has recorded, and whether a commit is under way. Every operation here is
    one critical section under `log.lock`; `active` remembers, per process between `begin_op` and
    `end_op`, the distinct blocks it has passed to `log_write`. */
module LogBook {
  import opened Basics

  const MAXOPBLOCKS: nat := 10
  const LOGSIZE: nat := 30

  type Proc = nat

  datatype Book = Book(
    size: nat,                      // log.size: blocks in the on-disk log, header included
    entries: seq<nat>,              // lh.block[0..lh.n)
    outstanding: nat,
    committing: bool,
    active: map<Proc, set<nat>>)

  function Empty(size: nat): Book {
    Book(size, [], 0, false, map[])
  }

  // ------------------------------------------------------------------ the operations

  /** The test of `begin_op`: admitted now, rather than put to sleep. */
  predicate Admits(b: Book) {
    !b.committing && |b.entries| + (b.outstanding + 1) * MAXOPBLOCKS <= LOGSIZE
  }

  function Begin(b: Book, p: Proc): Book {
    b.(outstanding := b.outstanding + 1, active := b.active[p := {}])
  }

  /** The first panic of `log_write`. */
  predicate TooBig(b: Book) {
    |b.entries| >= LOGSIZE || |b.entries| >= b.size - 1
  }

  /** Recording a block: an entry already present absorbs the write. */
  function Absorb(entries: seq<nat>, blockno: nat): seq<nat> {
    if blockno in entries then entries else entries + [blockno]
  }

  function Record(b: Book, p: Proc, blockno: nat): Book
    requires p in b.active
  {
    b.(entries := Absorb(b.entries, blockno), active := b.active[p := b.active[p] + {blockno}])
  }

  /** `end_op` up to the release of the lock; the last one out starts the commit. */
  function End(b: Book, p: Proc): Book
    requires b.outstanding > 0
  {
    b.(outstanding := b.outstanding - 1, committing := b.outstanding == 1, active := b.active - {p})
  }

  /** What `commit` and the tail of `end_op` leave behind. */
  function Committed(b: Book): Book {
    b.(entries := [], committing := false)
  }

  // ------------------------------------------------------------------ interleaved runs

  datatype Call =
    | BeginCall(p: Proc)
    | RecordCall(p: Proc, blockno: nat)
    | EndCall(p: Proc)
    | CommitCall

  /** One critical section, by a caller that brackets its writes with begin_op/end_op and logs at
      most `limit` distinct blocks in between. */
  ghost predicate Next(b: Book, c: Call, b': Book, limit: nat) {
    match c
    case BeginCall(p) => p !in b.active && Admits(b) && b' == Begin(b, p)
    case RecordCall(p, k) =>
      && p in b.active
      && |b.active[p] + {k}| <= limit
      && !TooBig(b)
      && b' == Record(b, p, k)
    case EndCall(p) => p in b.active && b.outstanding > 0 && b' == End(b, p)
    case CommitCall => b.committing && b' == Committed(b)
  }

  ghost predicate Run(books: seq<Book>, calls: seq<Call>, limit: nat) {
    && |books| == |calls| + 1
    && forall i :: 0 <= i < |calls| ==> Next(books[i], calls[i], books[i + 1], limit)
  }

  /** Sum over the active operations of the part of `limit` they have not used. */
  ghost function Slack(active: map<Proc, set<nat>>, limit: nat): int
    decreases |active|
  {
    if active == map[] then 0 else
      var p :| p in active;
      limit - |active[p]| + Slack(active - {p}, limit)
  }

  lemma {:induction false} SlackRemove(active: map<Proc, set<nat>>, p: Proc, limit: nat)
    requires p in active
    ensures Slack(active, limit) == limit - |active[p]| + Slack(active - {p}, limit)
    decreases |active|
  {
    var q :| q in active && Slack(active, limit) == limit - |active[q]| + Slack(active - {q}, limit);
    if q != p {
      SlackRemove(active - {q}, p, limit);
      SlackRemove(active - {p}, q, limit);
      assert active - {p} - {q} == active - {q} - {p};
    }
  }

  lemma SlackPut(active: map<Proc, set<nat>>, p: Proc, s: set<nat>, limit: nat)
    ensures p !in active ==> Slack(active[p := s], limit) == Slack(active, limit) + limit - |s|
    ensures p in active ==> Slack(active[p := s], limit) == Slack(active, limit) + |active[p]| - |s|
  {
    SlackRemove(active[p := s], p, limit);
    assert active[p := s] - {p} == active - {p};
    if p in active {
      SlackRemove(active, p, limit);
    } else {
      assert active - {p} == active;
    }
  }

  lemma MulSucc(n: nat, limit: nat)
    ensures (n + 1) * limit == n * limit + limit
  {
  }

  lemma {:induction false} SlackBounds(active: map<Proc, set<nat>>, limit: nat)
    requires forall p :: p in active ==> |active[p]| <= limit
    ensures 0 <= Slack(active, limit) <= |active| * limit
    decreases |active|
  {
    if active != map[] {
      var p :| p in active;
      SlackRemove(active, p, limit);
      var rest := active - {p};
      assert |rest| == |active| - 1 by {
        assert rest.Keys == active.Keys - {p};
      }
      SlackBounds(rest, limit);
      MulSucc(|rest|, limit);
    }
  }

  // ------------------------------------------------------------------ invariant of every run

  /** `cap` is what the entries can grow to: a first operation is always admitted to an empty log,
      and a further one only while `entries + 2 * MAXOPBLOCKS` fits. */
  ghost function Cap(limit: nat): nat {
    if limit == 0 then 0 else MAXOPBLOCKS + 2 * limit
  }

  ghost predicate Inv(b: Book, limit: nat) {
    && b.outstanding == |b.active|
    && (b.committing ==> b.outstanding == 0)
    && (b.outstanding == 0 && !b.committing ==> b.entries == [])
    && Distinct(b.entries)
    && (forall p :: p in b.active ==> |b.active[p]| <= limit)
    && (forall p, k :: p in b.active && k in b.active[p] ==> k in b.entries)
    && (limit <= MAXOPBLOCKS ==> |b.entries| + Slack(b.active, MAXOPBLOCKS) <= LOGSIZE)
    && (limit <= MAXOPBLOCKS ==> |b.entries| + Slack(b.active, limit) <= Cap(limit))
  }

  lemma BeginKeepsInv(b: Book, p: Proc, limit: nat)
    requires Inv(b, limit) && p !in b.active && Admits(b)
    ensures Inv(Begin(b, p), limit)
  {
    SlackPut(b.active, p, {}, MAXOPBLOCKS);
    SlackPut(b.active, p, {}, limit);
    if limit <= MAXOPBLOCKS {
      SlackBounds(b.active, MAXOPBLOCKS);
      SlackBounds(b.active, limit);
      AdmissionArithmetic(|b.entries|, |b.active|, limit);
      if limit == 0 {
        SlackBounds(b.active[p := {}], limit);
      }
    }
  }

  lemma AdmissionArithmetic(n: nat, k: nat, limit: nat)
    requires limit <= MAXOPBLOCKS && n + (k + 1) * MAXOPBLOCKS <= LOGSIZE
    ensures k >= 1 ==> n + k * limit + limit <= MAXOPBLOCKS + 2 * limit
  {
    if k >= 1 {
      assert k <= 2;
      assert k == 1 || k == 2;
    }
  }

  lemma RecordKeepsInv(b: Book, p: Proc, k: nat, limit: nat)
    requires Inv(b, limit) && p in b.active && |b.active[p] + {k}| <= limit
    ensures Inv(Record(b, p, k), limit)
  {
    var s := b.active[p] + {k};
    SlackPut(b.active, p, s, MAXOPBLOCKS);
    SlackPut(b.active, p, s, limit);
    if k in b.active[p] {
      assert s == b.active[p];
    } else {
      assert |s| == |b.active[p]| + 1;
    }
    assert b.active[p := s].Keys == b.active.Keys;
  }

  lemma EndKeepsInv(b: Book, p: Proc, limit: nat)
    requires Inv(b, limit) && p in b.active && b.outstanding > 0
    ensures Inv(End(b, p), limit)
  {
    SlackRemove(b.active, p, MAXOPBLOCKS);
    SlackRemove(b.active, p, limit);
    assert (b.active - {p}).Keys == b.active.Keys - {p};
  }

  lemma NextKeepsInv(b: Book, c: Call, b': Book, limit: nat)
    requires Inv(b, limit) && Next(b, c, b', limit)
    ensures Inv(b', limit)
  {
    match c
    case BeginCall(p) => BeginKeepsInv(b, p, limit);
    case RecordCall(p, k) => RecordKeepsInv(b, p, k, limit);
    case EndCall(p) => EndKeepsInv(b, p, limit);
    case CommitCall =>
      assert b.active.Keys == {};
  }

  lemma {:induction false} RunKeepsInv(books: seq<Book>, calls: seq<Call>, limit: nat, i: nat)
    requires Run(books, calls, limit) && books[0] == Empty(books[0].size)
    requires i < |books|
    ensures Inv(books[i], limit) && books[i].size == books[0].size
    decreases i
  {
    if i > 0 {
      RunKeepsInv(books, calls, limit, i - 1);
      NextKeepsInv(books[i - 1], calls[i - 1], books[i], limit);
    }
  }

  // ------------------------------------------------------------------ theorems

  ghost predicate Reachable(b: Book, limit: nat) {
    exists books: seq<Book>, calls: seq<Call> ::
      Run(books, calls, limit) && books[0] == Empty(b.size) && books[|calls|] == b
  }

  /** Group commit and reservation, in every reachable state: a commit runs with no operation
      outstanding, so the "log.committing" panic of end_op is out of reach; header entries are
      pairwise distinct; and entries plus unused reservations fit the log. */
  lemma ReservationHolds(b: Book, limit: nat)
    requires limit <= MAXOPBLOCKS && Reachable(b, limit)
    ensures b.committing ==> b.outstanding == 0 && b.active == map[]
    ensures forall p :: p in b.active ==> !b.committing && b.outstanding > 0
    ensures Distinct(b.entries)
    ensures |b.entries| + Slack(b.active, MAXOPBLOCKS) <= LOGSIZE
    ensures |b.entries| + Slack(b.active, limit) <= Cap(limit)
  {
    ReachableInv(b, limit);
    if b.active.Keys == {} {
      assert b.active == map[];
    }
  }

  lemma ReachableInv(b: Book, limit: nat)
    requires Reachable(b, limit)
    ensures Inv(b, limit)
  {
    var books: seq<Book>, calls: seq<Call> :|
      Run(books, calls, limit) && books[0] == Empty(b.size) && books[|calls|] == b;
    RunKeepsInv(books, calls, limit, |calls|);
  }

  /** An operation that ends early gives back exactly what it reserved and did not use. */
  lemma EndReturnsSlack(b: Book, p: Proc)
    requires p in b.active && b.outstanding > 0
    ensures |End(b, p).entries| + Slack(End(b, p).active, MAXOPBLOCKS)
         == |b.entries| + Slack(b.active, MAXOPBLOCKS) - (MAXOPBLOCKS - |b.active[p]|)
  {
    SlackRemove(b.active, p, MAXOPBLOCKS);
  }

  lemma ReachNext(b: Book, c: Call, b': Book, limit: nat)
    requires Reachable(b, limit) && Next(b, c, b', limit)
    ensures Reachable(b', limit)
  {
    var books: seq<Book>, calls: seq<Call> :|
      Run(books, calls, limit) && books[0] == Empty(b.size) && books[|calls|] == b;
    var books', calls' := books + [b'], calls + [c];
    forall i | 0 <= i < |calls'| ensures Next(books'[i], calls'[i], books'[i + 1], limit) {
      if i < |calls| {
        assert books'[i] == books[i] && books'[i + 1] == books[i + 1];
      }
    }
    assert Run(books', calls', limit);
  }

  lemma ReachEmpty(size: nat, limit: nat)
    ensures Reachable(Empty(size), limit)
  {
    var books: seq<Book>, calls: seq<Call> := [Empty(size)], [];
    assert Run(books, calls, limit);
    assert books[|calls|] == Empty(size);
  }

  /** A book on which the operations of `ps` have begun and done nothing else. */
  function Begun(size: nat, ps: seq<Proc>): Book {
    if ps == [] then Empty(size) else Begin(Begun(size, ps[..|ps| - 1]), ps[|ps| - 1])
  }

  lemma {:induction false} BegunHas(size: nat, ps: seq<Proc>)
    ensures var b := Begun(size, ps);
      && b.size == size && b.entries == [] && b.outstanding == |ps| && !b.committing
      && forall p :: p in b.active <==> p in ps
  {
    if ps != [] {
      BegunHas(size, ps[..|ps| - 1]);
      assert ps == ps[..|ps| - 1] + [ps[|ps| - 1]];
    }
  }

  function Begins(ps: seq<Proc>): seq<Call> {
    seq(|ps|, i requires 0 <= i < |ps| => BeginCall(ps[i]))
  }

  ghost predicate AllBegin(size: nat, ps: seq<Proc>, limit: nat) {
    exists books: seq<Book> :: Run(books, Begins(ps), limit) && books[0] == Empty(size)
  }

  /** An empty log admits three operations at once, and no fourth. */
  lemma ThreeAtOnce(size: nat, ps: seq<Proc>, limit: nat)
    requires Distinct(ps)
    ensures AllBegin(size, ps, limit) <==> |ps| <= 3
  {
    if AllBegin(size, ps, limit) {
      var books: seq<Book> :| Run(books, Begins(ps), limit) && books[0] == Empty(size);
      BeginsCount(books, ps, limit, |ps|);
    }
    if |ps| <= 3 {
      var books := seq(|ps| + 1, i requires 0 <= i <= |ps| => Begun(size, ps[..i]));
      forall i | 0 <= i < |ps| ensures Next(books[i], BeginCall(ps[i]), books[i + 1], limit) {
        BegunHas(size, ps[..i]);
        assert ps[..i + 1][..i] == ps[..i];
      }
      assert Run(books, Begins(ps), limit);
    }
  }

  lemma {:induction false} BeginsCount(books: seq<Book>, ps: seq<Proc>, limit: nat, i: nat)
    requires Run(books, Begins(ps), limit) && books[0] == Empty(books[0].size) && i <= |ps|
    ensures books[i].outstanding == i <= 3
    decreases i
  {
    if i > 0 {
      BeginsCount(books, ps, limit, i - 1);
      assert Next(books[i - 1], BeginCall(ps[i - 1]), books[i], limit);
    }
  }

  /** In every run, at most three operations are in progress. */
  lemma {:induction false} NeverFour(books: seq<Book>, calls: seq<Call>, limit: nat, i: nat)
    requires Run(books, calls, limit) && books[0] == Empty(books[0].size) && i < |books|
    ensures books[i].outstanding <= 3
    decreases i
  {
    if i > 0 {
      NeverFour(books, calls, limit, i - 1);
      assert Next(books[i - 1], calls[i - 1], books[i], limit);
    }
  }

  /** The "too big a transaction" panic can be reached by some operation inside a transaction. */
  ghost predicate PanicReachable(size: nat, limit: nat) {
    exists b: Book, p: Proc :: p in b.active && b.size == size && TooBig(b) && Reachable(b, limit)
  }

  /** The exact condition. With the log mkfs makes (size 30) operations of up to 9 distinct blocks
      are safe and operations of the documented 10 are not; a larger log does not help, because
      at 30 entries even an absorbed write panics. */
  lemma PanicExactly(size: nat, limit: nat)
    ensures PanicReachable(size, limit) <==> size - 1 <= Cap(limit) || LOGSIZE <= Cap(limit)
  {
    if PanicReachable(size, limit) {
      var b: Book, p: Proc :| p in b.active && b.size == size && TooBig(b) && Reachable(b, limit);
      ReachableInv(b, limit);
      SlackBounds(b.active, limit);
    }
    if size - 1 <= Cap(limit) || LOGSIZE <= Cap(limit) {
      StartOne(size, limit);
      assert 0 in OneIdle(size, 0).active;
      if limit > 0 {
        var b := FillTen(size, limit, MAXOPBLOCKS);
        if !TooBig(b) {
          FillTwo(b, limit);
        }
      }
    }
  }

  lemma DocumentedLimitPanics()
    ensures PanicReachable(30, MAXOPBLOCKS)
    ensures forall limit: nat :: limit < MAXOPBLOCKS ==> !PanicReachable(30, limit)
  {
    PanicExactly(30, MAXOPBLOCKS);
    forall limit: nat | limit < MAXOPBLOCKS ensures !PanicReachable(30, limit) {
      PanicExactly(30, limit);
    }
  }

  function UpTo(n: nat): seq<nat> { seq(n, i requires 0 <= i < n => i) }

  /** One operation in progress that has logged nothing yet, `n` blocks logged by finished ones. */
  function OneIdle(size: nat, n: nat): Book {
    Book(size, UpTo(n), 1, false, map[0 := {}])
  }

  lemma StartOne(size: nat, limit: nat)
    ensures Reachable(OneIdle(size, 0), limit)
  {
    ReachEmpty(size, limit);
    assert Begin(Empty(size), 0) == OneIdle(size, 0);
    ReachNext(Empty(size), BeginCall(0), OneIdle(size, 0), limit);
  }

  lemma {:induction false} FillTen(size: nat, limit: nat, n: nat) returns (b: Book)
    requires limit > 0 && n <= MAXOPBLOCKS
    ensures Reachable(b, limit) && b.size == size && 0 in b.active
    ensures TooBig(b) || b == OneIdle(size, n)
  {
    if n == 0 {
      StartOne(size, limit);
      return OneIdle(size, 0);
    }
    b := FillTen(size, limit, n - 1);
    if !TooBig(b) {
      var b1 := Begin(b, 1);
      ReachNext(b, BeginCall(1), b1, limit);
      var b2 := Record(b1, 1, n - 1);
      assert b1.active[1] + {n - 1} == {n - 1};
      ReachNext(b1, RecordCall(1, n - 1), b2, limit);
      var b3 := End(b2, 1);
      ReachNext(b2, EndCall(1), b3, limit);
      assert b3.active == map[0 := {}];
      assert b3.entries == UpTo(n);
      b := b3;
    }
  }

  /** Two operations in progress over ten finished blocks: process 0 has logged up to `a` blocks,
      process 1 up to `c`. */
  ghost predicate TwoBusy(b: Book, a: nat, c: nat) {
    && b.entries == UpTo(10 + a + c)
    && 0 in b.active && |b.active[0]| <= a
    && 1 in b.active && |b.active[1]| <= c
  }

  lemma FillTwo(b: Book, limit: nat)
    requires limit > 0 && b == OneIdle(b.size, MAXOPBLOCKS) && Reachable(b, limit)
    requires b.size - 1 <= Cap(limit) || LOGSIZE <= Cap(limit)
    ensures PanicReachable(b.size, limit)
  {
    var b1 := Begin(b, 1);
    ReachNext(b, BeginCall(1), b1, limit);
    var m := if limit <= MAXOPBLOCKS then limit else MAXOPBLOCKS;
    var b2 := FillFirst(b1, limit, m);
    if !TooBig(b2) {
      var b3 := FillSecond(b2, limit, m, m);
    }
  }

  lemma {:induction false} FillFirst(b0: Book, limit: nat, a: nat) returns (b: Book)
    requires a <= limit && TwoBusy(b0, 0, 0) && Reachable(b0, limit)
    ensures Reachable(b, limit) && b.size == b0.size && 0 in b.active
    ensures TooBig(b) || TwoBusy(b, a, 0)
    decreases a
  {
    if a == 0 {
      b := b0;
    } else {
      b := FillFirst(b0, limit, a - 1);
      if !TooBig(b) {
        var k := 10 + a - 1;
        ReachNext(b, RecordCall(0, k), Record(b, 0, k), limit);
        b := Record(b, 0, k);
      }
    }
  }

  lemma {:induction false} FillSecond(b0: Book, limit: nat, a: nat, c: nat) returns (b: Book)
    requires c <= limit && TwoBusy(b0, a, 0) && Reachable(b0, limit)
    ensures Reachable(b, limit) && b.size == b0.size && 0 in b.active
    ensures TooBig(b) || TwoBusy(b, a, c)
    decreases c
  {
    if c == 0 {
      b := b0;
    } else {
      b := FillSecond(b0, limit, a, c - 1);
      if !TooBig(b) {
        var k := 10 + a + c - 1;
        ReachNext(b, RecordCall(1, k), Record(b, 1, k), limit);
        b := Record(b, 1, k);
      }
    }
  }

  // ------------------------------------------------------------------ operations larger than the log reserves for

  /** The block numbers from `lo` up to `hi`. */
  ghost function Span(lo: nat, hi: nat): (r: set<nat>)
    ensures forall x :: x in r ==> lo <= x < hi
    ensures |r| == if lo <= hi then hi - lo else 0
  {
    if hi <= lo then {} else Span(lo, hi - 1) + {hi - 1}
  }

  /** Two operations, admitted while the log was empty: process 0 has logged `a` distinct blocks, process 1 has
      logged `c` others. */
  ghost function TwoOps(size: nat, a: nat, c: nat): Book {
    Book(size, UpTo(a + c), 2, false, map[0 := Span(0, a), 1 := Span(a, a + c)])
  }

  lemma {:induction false} ReachFirstOp(size: nat, a: nat, limit: nat)
    requires a <= limit && a <= LOGSIZE && a < size
    ensures Reachable(TwoOps(size, a, 0), limit)
    decreases a
  {
    if a > 0 {
      ReachFirstOp(size, a - 1, limit);
      FirstOpNext(size, a - 1);
      LogsNext(TwoOps(size, a - 1, 0), 0, 0, a - 1, TwoOps(size, a, 0), limit);
    } else {
      StartOne(size, limit);
      assert UpTo(0) == [] && Begin(OneIdle(size, 0), 1) == TwoOps(size, 0, 0);
      ReachNext(OneIdle(size, 0), BeginCall(1), TwoOps(size, 0, 0), limit);
    }
  }

  lemma FirstOpNext(size: nat, n: nat)
    ensures
      var b := TwoOps(size, n, 0);
      TwoOps(size, n + 1, 0) == b.(entries := UpTo(n + 1), active := b.active[0 := Span(0, n + 1)])
  {
    assert Span(n + 1, n + 1) == Span(n, n);
  }

  lemma SecondOpNext(size: nat, a: nat, c: nat)
    ensures var b := TwoOps(size, a, c);
      TwoOps(size, a, c + 1) == b.(entries := UpTo(a + c + 1), active := b.active[1 := Span(a, a + c + 1)])
  {
    SecondOfTwo(Span(0, a), Span(a, a + c), Span(a, a + c + 1));
  }

  lemma SecondOfTwo(x: set<nat>, y: set<nat>, z: set<nat>)
    ensures map[0 := x, 1 := y][1 := z] == map[0 := x, 1 := z]
  {
  }

  lemma SecondLogs(b: Book, size: nat, a: nat, c: nat, limit: nat)
    requires b == TwoOps(size, a, c) && Reachable(b, limit) && c < limit && a + c < LOGSIZE && a + c + 1 < size
    ensures Reachable(TwoOps(size, a, c + 1), limit)
  {
    SecondOpNext(size, a, c);
    LogsNext(b, 1, a, a + c, TwoOps(size, a, c + 1), limit);
  }

  lemma {:induction false} ReachTwoOps(size: nat, a: nat, c: nat, limit: nat)
    requires a <= limit && c <= limit && a + c <= LOGSIZE && a + c < size
    ensures Reachable(TwoOps(size, a, c), limit)
    decreases c
  {
    if c > 0 {
      ReachTwoOps(size, a, c - 1, limit);
      SecondLogs(TwoOps(size, a, c - 1), size, a, c - 1, limit);
    } else {
      ReachFirstOp(size, a, limit);
    }
  }

  /** A process that has logged blocks `lo` to `n - 1` logs block `n`. */
  lemma LogsNext(b: Book, p: Proc, lo: nat, n: nat, b': Book, limit: nat)
    requires Reachable(b, limit) && p in b.active && b.active[p] == Span(lo, n) && b.entries == UpTo(n) && lo <= n
    requires !TooBig(b) && |Span(lo, n + 1)| <= limit
    requires b' == b.(entries := UpTo(n + 1), active := b.active[p := Span(lo, n + 1)])
    ensures Reachable(b', limit)
  {
    assert Span(lo, n) + {n} == Span(lo, n + 1);
    assert n !in UpTo(n) && UpTo(n) + [n] == UpTo(n + 1);
    assert Record(b, p, n) == b';
    ReachNext(b, RecordCall(p, n), b', limit);
  }

  /** Two operations that the log admits at once, of `a` and more than `c` distinct blocks, reach the panic if `a + c`
      blocks fill the log. */
  lemma TwoOpsOverrun(size: nat, a: nat, c: nat, limit: nat)
    requires a <= limit && c < limit && a + c == size - 1 <= LOGSIZE
    ensures var b := TwoOps(size, a, c);
      && Reachable(b, limit) && TooBig(b)
      && 0 in b.active && |b.active[0]| == a && 1 in b.active && |b.active[1]| == c < limit
  {
    ReachTwoOps(size, a, c, limit);
  }
}
