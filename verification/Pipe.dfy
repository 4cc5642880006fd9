/** pipe.c: a bounded byte queue shared by any number of readers and writers. Each method is one stretch
    of code between taking the pipe's lock and letting go of it, by returning or by sleeping. */
module Pipe {
  import opened Basics

  const PIPESIZE := 512
  const WRAP := 0x1_0000_0000

  type byte = x: nat | x < 256

  /** A `uint` that counts up. */
  type word = x: nat | x < WRAP

  function Bump(x: word): word {
    (x + 1) % WRAP
  }

  /** The counter that stands for position `n`. */
  function Counter(n: nat): word {
    n % WRAP
  }

  /** The ring index does not notice the wrap, because 512 divides 2^32. */
  lemma IndexAcrossWrap(n: nat)
    ensures Counter(n) % PIPESIZE == n % PIPESIZE
  {
    var q := n / WRAP;
    assert n == (q * 0x80_0000) * PIPESIZE + Counter(n);
    SameRemainder(q * 0x80_0000, Counter(n));
  }

  lemma SameRemainder(q: nat, r: nat)
    ensures (q * PIPESIZE + r) % PIPESIZE == r % PIPESIZE
  {
    assert q * PIPESIZE + r == (q + r / PIPESIZE) * PIPESIZE + r % PIPESIZE;
    RemainderIsUnique(q * PIPESIZE + r, q + r / PIPESIZE, r % PIPESIZE);
  }

  lemma RemainderIsUnique(n: nat, q: nat, r: nat)
    requires n == q * PIPESIZE + r && r < PIPESIZE
    ensures n % PIPESIZE == r
  {
  }

  lemma BumpCounts(n: nat)
    ensures Bump(Counter(n)) == Counter(n + 1)
  {
  }

  /** Within a ring's length, equal counters mean equal positions. */
  lemma CountersTell(a: nat, b: nat)
    requires a <= b <= a + PIPESIZE
    ensures Counter(a) == Counter(b) <==> a == b
    ensures (Counter(a) + PIPESIZE) % WRAP == Counter(b) <==> b == a + PIPESIZE
  {
  }

  // ------------------------------------------------------------------ the queue it stands for

  /** What a turn of a reader or a writer comes to. */
  datatype Outcome = Done | Failed | Sleeps

  /** The bytes in the pipe, which ends are open, and how many readers and writers sleep. */
  datatype Queue = Queue(buf: seq<byte>, readopen: bool, writeopen: bool, readers: nat, writers: nat)

  /** The queue after a turn, how the turn ended and the bytes it moved. */
  datatype Turn = Turn(q: Queue, outcome: Outcome, moved: seq<byte>)

  /** A writer's turn, with `bytes` left to write: as many go in as fit. */
  function WriteTurn(q: Queue, bytes: seq<byte>, killed: bool): Turn
    requires |q.buf| <= PIPESIZE
  {
    var k := Min(|bytes|, PIPESIZE - |q.buf|);
    var q1 := q.(buf := q.buf + bytes[..k]);
    if k == |bytes| then Turn(q1.(readers := 0), Done, bytes)
    else if !q.readopen || killed then Turn(q1, Failed, bytes[..k])
    else Turn(q1.(readers := 0, writers := q.writers + 1), Sleeps, bytes[..k])
  }

  /** A reader's turn, for up to `n` bytes. */
  function ReadTurn(q: Queue, n: nat, killed: bool): Turn {
    if q.buf == [] && q.writeopen then
      if killed then Turn(q, Failed, []) else Turn(q.(readers := q.readers + 1), Sleeps, [])
    else
      var k := Min(n, |q.buf|);
      Turn(q.(buf := q.buf[k..], writers := 0), Done, q.buf[..k])
  }

  function CloseTurn(q: Queue, writable: bool): Queue {
    if writable then q.(writeopen := false, readers := 0) else q.(readopen := false, writers := 0)
  }

  /** `kill` makes one of the sleepers runnable, whatever it waits for. */
  function KillTurn(q: Queue, reading: bool): Queue
    requires if reading then q.readers > 0 else q.writers > 0
  {
    if reading then q.(readers := q.readers - 1) else q.(writers := q.writers - 1)
  }

  /** Any reader, writer or closer takes a turn, or a sleeper is killed. An end in use is open, and is not closed
      while a process sleeps at it. */
  datatype Action = DoWrite(bytes: seq<byte>, killed: bool) | DoRead(n: nat, killed: bool) | DoClose(writable: bool)
    | DoKill(reading: bool)

  predicate Allowed(q: Queue, a: Action) {
    match a
    case DoWrite(_, _) => q.writeopen
    case DoRead(_, _) => q.readopen
    case DoClose(writable) => if writable then q.writeopen && q.writers == 0 else q.readopen && q.readers == 0
    case DoKill(reading) => if reading then q.readers > 0 else q.writers > 0
  }

  function Take(q: Queue, a: Action): Turn
    requires |q.buf| <= PIPESIZE && Allowed(q, a)
  {
    match a
    case DoWrite(bytes, killed) => WriteTurn(q, bytes, killed)
    case DoRead(n, killed) => ReadTurn(q, n, killed)
    case DoClose(writable) => Turn(CloseTurn(q, writable), Done, [])
    case DoKill(reading) => Turn(KillTurn(q, reading), Done, [])
  }

  ghost predicate Run(q: Queue, run: seq<Action>)
    decreases |run|
  {
    run == [] || (|q.buf| <= PIPESIZE && Allowed(q, run[0]) && Run(Take(q, run[0]).q, run[1..]))
  }

  ghost function End(q: Queue, run: seq<Action>): Queue
    requires Run(q, run)
    decreases |run|
  {
    if run == [] then q else End(Take(q, run[0]).q, run[1..])
  }

  /** The bytes put in over a run, in order. */
  ghost function Accepted(q: Queue, run: seq<Action>): seq<byte>
    requires Run(q, run)
    decreases |run|
  {
    if run == [] then []
    else (if run[0].DoWrite? then Take(q, run[0]).moved else []) + Accepted(Take(q, run[0]).q, run[1..])
  }

  /** The bytes taken out over a run, in order. */
  ghost function Delivered(q: Queue, run: seq<Action>): seq<byte>
    requires Run(q, run)
    decreases |run|
  {
    if run == [] then []
    else (if run[0].DoRead? then Take(q, run[0]).moved else []) + Delivered(Take(q, run[0]).q, run[1..])
  }

  /** First in, first out: what was in the pipe and what was put in is what was taken out and what is left,
      in order, and never more than 512 bytes are left. */
  lemma {:induction false} FirstInFirstOut(q: Queue, run: seq<Action>)
    requires |q.buf| <= PIPESIZE && Run(q, run)
    ensures q.buf + Accepted(q, run) == Delivered(q, run) + End(q, run).buf
    ensures |End(q, run).buf| <= PIPESIZE
    decreases |run|
  {
    if run != [] {
      var t := Take(q, run[0]);
      FirstInFirstOut(t.q, run[1..]);
      var acc, del := Accepted(t.q, run[1..]), Delivered(t.q, run[1..]);
      TurnMoves(q, run[0]);
      if run[0].DoRead? {
        assert Accepted(q, run) == [] + acc == acc;
        Regroup(t.moved, t.q.buf, acc, del, End(q, run).buf);
      } else if run[0].DoWrite? {
        assert Delivered(q, run) == [] + del == del;
        assert q.buf + (t.moved + acc) == t.q.buf + acc;
      } else {
        assert Accepted(q, run) == [] + acc == acc && Delivered(q, run) == [] + del == del;
      }
    }
  }

  lemma TurnMoves(q: Queue, a: Action)
    requires |q.buf| <= PIPESIZE && Allowed(q, a)
    ensures var t := Take(q, a);
      && |t.q.buf| <= PIPESIZE
      && if a.DoRead? then q.buf == t.moved + t.q.buf else
          if a.DoWrite? then t.q.buf == q.buf + t.moved else t.q.buf == q.buf
  {
  }

  lemma Regroup(m: seq<byte>, b: seq<byte>, acc: seq<byte>, del: seq<byte>, rest: seq<byte>)
    requires b + acc == del + rest
    ensures (m + b) + acc == (m + del) + rest
  {
    assert (m + b) + acc == m + (b + acc);
    assert (m + del) + rest == m + (del + rest);
  }

  /** A writer's turn that is done has put in all it was given; one that is not has put in a proper prefix and leaves
      the pipe full, asleep or, without a reader or killed, with an error. */
  lemma WriterMoves(q: Queue, bytes: seq<byte>, killed: bool)
    requires |q.buf| <= PIPESIZE && q.writeopen
    ensures var t := Take(q, DoWrite(bytes, killed));
      && t.q.buf == q.buf + t.moved && t.q.readopen == q.readopen && t.q.writeopen
      && (t.outcome == Done ==> t.moved == bytes && t.q.readers == 0 && t.q.writers == q.writers)
      && (t.outcome != Done ==> t.moved < bytes && |t.q.buf| == PIPESIZE)
      && (t.outcome == Sleeps ==> q.readopen && !killed && t.q.readers == 0 && t.q.writers == q.writers + 1)
      && (t.outcome == Failed ==> (!q.readopen || killed) && t.q.readers == q.readers && t.q.writers == q.writers)
  {
  }

  /** A reader's turn that is done took the first bytes, as many as were asked for or there; one that is not found
      the pipe empty and its write end open. */
  lemma ReaderMoves(q: Queue, n: nat, killed: bool)
    requires |q.buf| <= PIPESIZE && q.readopen
    ensures var t := Take(q, DoRead(n, killed));
      && q.buf == t.moved + t.q.buf && t.q.readopen && t.q.writeopen == q.writeopen
      && (t.outcome == Done ==> |t.moved| == Min(n, |q.buf|) && t.q.writers == 0 && t.q.readers == q.readers)
      && (t.outcome != Done ==> q.buf == [] && q.writeopen && t.q.writers == q.writers)
      && (t.outcome == Sleeps ==> !killed && t.q.readers == q.readers + 1)
      && (t.outcome == Failed ==> killed && t.q.readers == q.readers)
  {
    assert q.buf[..Min(n, |q.buf|)] + q.buf[Min(n, |q.buf|)..] == q.buf;
  }

  // ------------------------------------------------------------------ after a close

  /** An end once closed stays so. */
  lemma {:induction false} ClosedStays(q: Queue, run: seq<Action>, j: nat)
    requires Run(q, run) && j < |run|
    ensures !q.writeopen ==> run[j].DoRead? ==> TurnAt(q, run, j).outcome == Done
    ensures !q.writeopen ==> !run[j].DoWrite? && run[j] != DoClose(true)
    ensures !q.readopen ==> run[j].DoWrite? ==> TurnAt(q, run, j).outcome != Sleeps
    ensures !q.readopen ==> !run[j].DoRead? && run[j] != DoClose(false)
    decreases j
  {
    if j > 0 {
      ClosedStays(Take(q, run[0]).q, run[1..], j - 1);
    }
  }

  /** Once its write end is closed, nobody writes and no reader sleeps: what is left is read, then nothing. Once its
      read end is closed, nobody reads and no writer sleeps: what does not fit is an error. */
  lemma {:induction false} AfterClose(q: Queue, run: seq<Action>, i: nat, j: nat)
    requires Run(q, run) && i < j < |run| && run[i].DoClose?
    ensures run[i].writable ==> !run[j].DoWrite? && (run[j].DoRead? ==> TurnAt(q, run, j).outcome == Done)
    ensures !run[i].writable ==> !run[j].DoRead? && (run[j].DoWrite? ==> TurnAt(q, run, j).outcome != Sleeps)
    decreases i
  {
    var q1 := Take(q, run[0]).q;
    if i == 0 {
      ClosedStays(q1, run[1..], j - 1);
    } else {
      AfterClose(q1, run[1..], i - 1, j - 1);
    }
  }

  // ------------------------------------------------------------------ a write, from its first turn to its last

  /** The `i`th turn of a run. */
  ghost function TurnAt(q: Queue, run: seq<Action>, i: nat): Turn
    requires Run(q, run) && i < |run|
    decreases i
  {
    var t := Take(q, run[0]);
    if i == 0 then t else TurnAt(t.q, run[1..], i - 1)
  }

  /** How many bytes were put in before it. */
  ghost function Before(q: Queue, run: seq<Action>, i: nat): nat
    requires Run(q, run) && i < |run|
    decreases i
  {
    if i == 0 then 0
    else (if run[0].DoWrite? then |Take(q, run[0]).moved| else 0) + Before(Take(q, run[0]).q, run[1..], i - 1)
  }

  /** The turns at `turns` are those of one call of pipewrite with `bytes`: each goes on where the last one slept,
      and the last is done. */
  ghost predicate WritesAll(q: Queue, run: seq<Action>, turns: seq<nat>, bytes: seq<byte>)
    requires Run(q, run)
    decreases |turns|
  {
    && turns != [] && turns[0] < |run| && run[turns[0]].DoWrite? && run[turns[0]].bytes == bytes
    && var t := TurnAt(q, run, turns[0]);
       && (|turns| == 1 ==> t.outcome == Done)
       && (|turns| > 1 ==> t.outcome == Sleeps && turns[0] < turns[1] && |t.moved| <= |bytes|)
       && (|turns| > 1 ==> WritesAll(q, run, turns[1..], bytes[|t.moved|..]))
  }

  lemma {:induction false} TurnWrites(q: Queue, run: seq<Action>, i: nat)
    requires Run(q, run) && i < |run| && run[i].DoWrite?
    ensures var t, bytes := TurnAt(q, run, i), run[i].bytes;
      && t.moved <= bytes && (t.outcome == Done ==> t.moved == bytes)
      && Before(q, run, i) + |t.moved| <= |Accepted(q, run)|
      && Accepted(q, run)[Before(q, run, i)..Before(q, run, i) + |t.moved|] == t.moved
    decreases i
  {
    if i == 0 {
      WriterMoves(q, run[0].bytes, run[0].killed);
    } else {
      TurnWrites(Take(q, run[0]).q, run[1..], i - 1);
    }
  }

  lemma {:induction false} InOrder(q: Queue, run: seq<Action>, i: nat, j: nat)
    requires Run(q, run) && i < j < |run| && run[i].DoWrite?
    ensures Before(q, run, i) + |TurnAt(q, run, i).moved| <= Before(q, run, j)
    decreases i
  {
    if i > 0 {
      InOrder(Take(q, run[0]).q, run[1..], i - 1, j - 1);
    }
  }

  /** `bytes` stand in `all`, in order, from `from` on. */
  ghost predicate Among(bytes: seq<byte>, all: seq<byte>, places: seq<nat>, from: nat) {
    && |places| == |bytes|
    && (forall k :: 0 <= k < |places| ==> from <= places[k] < |all| && all[places[k]] == bytes[k])
    && forall k, l :: 0 <= k < l < |places| ==> places[k] < places[l]
  }

  lemma Places(bytes: seq<byte>, moved: seq<byte>, all: seq<byte>, at: nat, next: nat, more: seq<nat>)
    returns (places: seq<nat>)
    requires moved <= bytes && at + |moved| <= |all| && all[at..at + |moved|] == moved && at + |moved| <= next
    requires Among(bytes[|moved|..], all, more, next)
    ensures Among(bytes, all, places, at)
  {
    var first := seq(|moved|, k requires 0 <= k < |moved| => at + k);
    places := first + more;
    forall k | 0 <= k < |places| ensures at <= places[k] < |all| && all[places[k]] == bytes[k] {
      if k < |moved| {
        assert all[at + k] == all[at..at + |moved|][k] == moved[k];
      } else {
        assert bytes[k] == bytes[|moved|..][k - |moved|];
      }
    }
  }

  /** In every run, whatever else happens between its turns, the bytes of a completed write are all among the bytes put
      in, in order; if it never slept, next to each other. */
  lemma {:induction false} CompletedWrite(q: Queue, run: seq<Action>, turns: seq<nat>, bytes: seq<byte>)
    returns (places: seq<nat>)
    requires Run(q, run) && WritesAll(q, run, turns, bytes)
    ensures Among(bytes, Accepted(q, run), places, Before(q, run, turns[0]))
    ensures |turns| == 1 ==> forall k :: 0 <= k < |places| ==> places[k] == Before(q, run, turns[0]) + k
    decreases |turns|
  {
    var t, at, all := TurnAt(q, run, turns[0]), Before(q, run, turns[0]), Accepted(q, run);
    TurnWrites(q, run, turns[0]);
    if |turns| == 1 {
      places := seq(|bytes|, k requires 0 <= k < |bytes| => at + k);
      forall k | 0 <= k < |bytes| ensures all[at + k] == bytes[k] {
        assert all[at..at + |bytes|][k] == bytes[k];
      }
    } else {
      var more := CompletedWrite(q, run, turns[1..], bytes[|t.moved|..]);
      InOrder(q, run, turns[0], turns[1]);
      places := Places(bytes, t.moved, all, at, Before(q, run, turns[1]), more);
    }
  }

  /** A read of at least one byte returns 0 bytes exactly when the pipe is drained and its write end closed. */
  lemma EndOfFile(q: Queue, n: nat, killed: bool)
    requires n > 0 && |q.buf| <= PIPESIZE
    ensures var t := ReadTurn(q, n, killed);
      t.outcome == Done && t.moved == [] <==> q.buf == [] && !q.writeopen
  {
  }

  // ------------------------------------------------------------------ sleepers

  /** A reader sleeps only while there is nothing to read, a writer only while there is no room, and each
      while its own end is open. */
  predicate NoneMissed(q: Queue) {
    && (q.readers > 0 ==> q.buf == [] && q.writeopen && q.readopen)
    && (q.writers > 0 ==> |q.buf| == PIPESIZE && q.readopen && q.writeopen)
  }

  /** A writer that was killed fills the pipe and leaves without a wakeup. */
  predicate Strands(q: Queue, a: Action) {
    a.DoWrite? && a.killed && q.readers > 0 && |a.bytes| > PIPESIZE
  }

  /** A turn leaves a reader asleep with bytes to read exactly when it strands the reader; no other turn
      leaves anybody asleep without cause. */
  lemma MissedExactly(q: Queue, a: Action)
    requires NoneMissed(q) && |q.buf| <= PIPESIZE && Allowed(q, a)
    ensures NoneMissed(Take(q, a).q) <==> !Strands(q, a)
  {
  }

  /** So in a run without such a writer nobody sleeps without cause. */
  lemma {:induction false} RunMissesNone(q: Queue, run: seq<Action>)
    requires NoneMissed(q) && |q.buf| <= PIPESIZE && Run(q, run)
    requires forall i :: 0 <= i < |run| && run[i].DoWrite? ==> !run[i].killed || |run[i].bytes| <= PIPESIZE
    ensures NoneMissed(End(q, run))
    decreases |run|
  {
    if run != [] {
      MissedExactly(q, run[0]);
      RunMissesNone(Take(q, run[0]).q, run[1..]);
    }
  }

  /** With one: a reader sleeps before a full pipe. */
  lemma StrandedReader(bytes: seq<byte>)
    requires |bytes| > PIPESIZE
    ensures var q, run := Queue([], true, true, 0, 0), [DoRead(1, false), DoWrite(bytes, true)];
      Run(q, run) && End(q, run).readers == 1 && |End(q, run).buf| == PIPESIZE
  {
    var q, w := Queue([], true, true, 0, 0), DoWrite(bytes, true);
    var run := [DoRead(1, false), w];
    var q1 := Take(q, run[0]).q;
    assert run[1..] == [w] && [w][1..] == [];
    assert Run(q1, [w]) && End(q1, [w]) == Take(q1, w).q;
  }

  // ------------------------------------------------------------------ the code

  class Pipe {
    const data: array<byte>
    var nread: word
    var nwrite: word
    var readopen: bool
    var writeopen: bool
    ghost var accepted: seq<byte>     // every byte a writer has put in, in order
    ghost var delivered: nat          // how many of them readers have taken out
    ghost var readers: nat            // how many sleep on &nread
    ghost var writers: nat            // how many sleep on &nwrite

    /** The ring holds what was accepted and not delivered, and is never overfull. */
    ghost predicate Valid()
      reads this, data
    {
      && data.Length == PIPESIZE
      && delivered <= |accepted| <= delivered + PIPESIZE
      && nread == Counter(delivered) && nwrite == Counter(|accepted|)
      && forall k :: delivered <= k < |accepted| ==> data[k % PIPESIZE] == accepted[k]
    }

    /** The queue that the fields stand for. */
    ghost function Abs(): Queue
      requires delivered <= |accepted|
      reads this
    {
      Queue(accepted[delivered..], readopen, writeopen, readers, writers)
    }

    constructor ()
      ensures Valid() && fresh(data) && Abs() == Queue([], true, true, 0, 0)
    {
      data := new byte[PIPESIZE];
      nread, nwrite, readopen, writeopen := 0, 0, true, true;
      accepted, delivered, readers, writers := [], 0, 0, 0;
    }

    /** `p->data[p->nwrite++ % PIPESIZE] = b`, when there is room. */
    method Put(b: byte)
      requires Valid() && |accepted| < delivered + PIPESIZE
      modifies data, this`nwrite, this`accepted
      ensures Valid() && accepted == old(accepted) + [b]
    {
      ghost var n := |accepted|;
      IndexAcrossWrap(n);
      BumpCounts(n);
      forall k | delivered <= k < n ensures k % PIPESIZE != n % PIPESIZE {
        OtherPlace(k, n);
      }
      data[nwrite % PIPESIZE] := b;
      nwrite := Bump(nwrite);
      accepted := accepted + [b];
    }

    /** `p->data[p->nread++ % PIPESIZE]`, when there is a byte. */
    method Get() returns (b: byte)
      requires Valid() && delivered < |accepted|
      modifies this`nread, this`delivered
      ensures Valid() && delivered == old(delivered) + 1 && b == accepted[old(delivered)]
    {
      IndexAcrossWrap(delivered);
      BumpCounts(delivered);
      b := data[nread % PIPESIZE];
      nread := Bump(nread);
      delivered := delivered + 1;
    }

    /** `pipewrite` from byte `i` on, up to its end or its next sleep; `killed` is proc->killed. */
    method Write(addr: seq<byte>, i: nat, killed: bool) returns (r: Outcome, j: nat)
      requires Valid() && i <= |addr|
      modifies data, this
      ensures Valid() && i <= j <= |addr|
      ensures Turn(Abs(), r, addr[i..j]) == WriteTurn(old(Abs()), addr[i..], killed)
      ensures accepted == old(accepted) + addr[i..j] && delivered == old(delivered)
      ensures r == Done <==> j == |addr|
      ensures r != Done ==> |accepted| == delivered + PIPESIZE && (r == Failed <==> !readopen || killed)
    {
      j := i;
      while j < |addr|
        invariant Valid() && i <= j <= |addr| && accepted == old(accepted) + addr[i..j]
        invariant delivered == old(delivered) && readopen == old(readopen) && writeopen == old(writeopen)
        invariant readers == old(readers) && writers == old(writers)
      {
        CountersTell(delivered, |accepted|);
        if nwrite == (nread + PIPESIZE) % WRAP {
          Filled(old(accepted), accepted, delivered, addr, i, j);
          if !readopen || killed {
            return Failed, j;
          }
          readers := 0;
          writers := writers + 1;
          return Sleeps, j;
        }
        Put(addr[j]);
        j := j + 1;
      }
      Filled(old(accepted), accepted, delivered, addr, i, j);
      readers := 0;
      r := Done;
    }

    /** The copying loop of `piperead`. */
    method CopyOut(n: nat) returns (got: seq<byte>)
      requires Valid()
      modifies this`nread, this`delivered
      ensures Valid() && old(delivered) <= delivered && got == accepted[old(delivered)..delivered]
      ensures |got| == Min(n, |accepted| - old(delivered))
    {
      got := [];
      ghost var d := delivered;
      while |got| < n
        invariant Valid() && |got| <= n && delivered == d + |got| && got == accepted[d..delivered]
      {
        CountersTell(delivered, |accepted|);
        if nread == nwrite {
          break;
        }
        var b := Get();
        got := got + [b];
      }
    }

    /** `piperead` from its first test, or the one after a sleep, up to its end or its next sleep. */
    method Read(n: nat, killed: bool) returns (r: Outcome, got: seq<byte>)
      requires Valid()
      modifies this`nread, this`delivered, this`readers, this`writers
      ensures Valid()
      ensures Turn(Abs(), r, got) == ReadTurn(old(Abs()), n, killed)
      ensures old(delivered) <= delivered <= |accepted| && got == accepted[old(delivered)..delivered]
      ensures r == Done ==> |got| == Min(n, |accepted| - old(delivered))
      ensures r != Done ==> delivered == |accepted| == old(delivered) && writeopen && (r == Failed <==> killed)
    {
      got := [];
      CountersTell(delivered, |accepted|);
      if nread == nwrite && writeopen {
        if killed {
          return Failed, got;
        }
        readers := readers + 1;
        return Sleeps, got;
      }
      ghost var d := delivered;
      got := CopyOut(n);
      Drained(accepted, d, delivered, n);
      writers := 0;
      r := Done;
    }

    /** `pipeclose`; the result tells whether the pipe is freed. */
    method Close(writable: bool) returns (freed: bool)
      requires Valid()
      modifies this`readopen, this`writeopen, this`readers, this`writers
      ensures Valid() && Abs() == CloseTurn(old(Abs()), writable)
      ensures if writable then !writeopen && readopen == old(readopen) else !readopen && writeopen == old(writeopen)
      ensures freed <==> !readopen && !writeopen
    {
      if writable {
        writeopen := false;
        readers := 0;
      } else {
        readopen := false;
        writers := 0;
      }
      freed := !readopen && !writeopen;
    }
  }

  /** What the writer's loop has moved is what a turn moves. */
  lemma Filled(before: seq<byte>, after: seq<byte>, d: nat, addr: seq<byte>, i: nat, j: nat)
    requires i <= j <= |addr| && after == before + addr[i..j] && d <= |before| && |after| <= d + PIPESIZE
    requires j == |addr| || |after| == d + PIPESIZE
    ensures var q := before[d..];
      && after[d..] == q + addr[i..][..j - i] && addr[i..][..j - i] == addr[i..j]
      && j - i == Min(|addr[i..]|, PIPESIZE - |q|) && (j == |addr| ==> addr[i..j] == addr[i..])
  {
  }

  lemma Drained(s: seq<byte>, d: nat, d': nat, n: nat)
    requires d <= d' <= |s| && d' - d == Min(n, |s| - d)
    ensures s[d..][..d' - d] == s[d..d'] && s[d..][d' - d..] == s[d'..]
  {
  }

  /** Positions less than a ring apart lie in different places. */
  lemma OtherPlace(a: nat, b: nat)
    requires a < b < a + PIPESIZE
    ensures a % PIPESIZE != b % PIPESIZE
  {
  }
}
