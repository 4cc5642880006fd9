/** The logging stack under concurrency: processes that take, change, log and release cached blocks
    inside begin_op/end_op, readers outside of it, a committer that works block by block, eviction
    of any idle clean buffer, and crashes between any two steps (log.c over bio.c and memide.c).

    The invariant relates all of it to one history of operations: what recovery would find on the
    disk is always the state after a prefix of that history, cut where no operation is in progress. */
module LogMachine {
  import opened Basics
  import opened LogBook
  import opened LogDisk

  /** The content of a block; nothing here looks inside. */
  type Content(!new, ==)

  datatype Holder = Nobody | Held(p: Proc)

  /** A buffer. `changed` records that its holder has written to it and not yet called log_write. */
  datatype Buf = Buf(data: Content, valid: bool, dirty: bool, holder: Holder, changed: bool)

  /** Where the committer or the recovery code is. */
  datatype Phase =
    | Up
    | Copying(tail: nat)                  // write_log has copied `tail` blocks
    | Installing(tail: nat, boot: bool)   // install_trans has copied `tail` blocks home
    | Erasing(boot: bool)                 // lh.n == 0 in memory, header still to be cleared
    | Closing                             // commit() has returned, committing still set
    | Down                                // crashed; recovery has not read the header yet

  datatype Event = Began(p: Proc) | Wrote(p: Proc, b: nat, v: Content) | Ended(p: Proc)

  datatype State = State(
    g: Region,
    disk: Disk<Content>,
    cache: map<nat, Buf>,
    book: Book,
    phase: Phase,
    base: seq<Content>,   // home contents at the start
    hist: seq<Event>,     // what operations have done since, losses by crashes taken out
    durable: nat)         // length of the prefix of `hist` that the disk stands for

  // ------------------------------------------------------------------ what a history means

  ghost function Apply(base: seq<Content>, hist: seq<Event>): (r: seq<Content>)
    ensures |r| == |base|
  {
    if hist == [] then base else
      var r := Apply(base, hist[..|hist| - 1]);
      match hist[|hist| - 1]
      case Wrote(_, b, v) => if b < |base| then r[b := v] else r
      case _ => r
  }

  /** The operations begun and not ended. */
  ghost function InProgress(hist: seq<Event>): set<Proc> {
    if hist == [] then {} else
      var r := InProgress(hist[..|hist| - 1]);
      match hist[|hist| - 1]
      case Began(p) => r + {p}
      case Ended(p) => r - {p}
      case _ => r
  }

  ghost function Now(s: State): seq<Content> {
    Apply(s.base, s.hist)
  }

  ghost function Durable(s: State): seq<Content>
    requires s.durable <= |s.hist|
  {
    Apply(s.base, s.hist[..s.durable])
  }

  // ------------------------------------------------------------------ steps

  predicate Booting(ph: Phase) {
    ph.Down? || (ph.Installing? && ph.boot) || (ph.Erasing? && ph.boot)
  }

  predicate Home(s: State, b: nat) {
    b < |s.disk.blocks| && !InLog(s.g, b)
  }

  predicate Holds(s: State, p: Proc, b: nat) {
    b in s.cache && s.cache[b].holder == Held(p)
  }

  predicate Idle(s: State, b: nat) {
    b in s.cache ==> s.cache[b].holder == Nobody
  }

  /** `bget`: take an idle buffer, or a fresh one that still holds `junk`. */
  ghost predicate Get(s: State, s': State, p: Proc, b: nat, junk: Content) {
    && !Booting(s.phase) && Home(s, b) && Idle(s, b)
    && s' == s.(cache := s.cache[b :=
         if b in s.cache then s.cache[b].(holder := Held(p)) else Buf(junk, false, false, Held(p), false)])
  }

  /** `iderw` on a buffer that is not valid. */
  ghost predicate Load(s: State, s': State, p: Proc, b: nat) {
    && Holds(s, p, b) && !s.cache[b].valid && b < |s.disk.blocks|
    && s' == s.(cache := s.cache[b := s.cache[b].(data := s.disk.blocks[b], valid := true)])
  }

  /** The holder, inside an operation, changes the buffer. */
  ghost predicate Change(s: State, s': State, p: Proc, b: nat, v: Content) {
    && Holds(s, p, b) && s.cache[b].valid && p in s.book.active
    && s' == s.(cache := s.cache[b := s.cache[b].(data := v, changed := true)])
  }

  /** `log_write`. */
  ghost predicate LogIt(s: State, s': State, p: Proc, b: nat) {
    && Holds(s, p, b) && s.cache[b].changed && p in s.book.active && !TooBig(s.book)
    && s' == s.(cache := s.cache[b := s.cache[b].(dirty := true, changed := false)],
                book := Record(s.book, p, b),
                hist := s.hist + [Wrote(p, b, s.cache[b].data)])
  }

  /** `brelse`, after any change has been logged. */
  ghost predicate Release(s: State, s': State, p: Proc, b: nat) {
    && Holds(s, p, b) && s.cache[b].valid && !s.cache[b].changed
    && s' == s.(cache := s.cache[b := s.cache[b].(holder := Nobody)])
  }

  /** A buffer is given up to make room: idle, and not B_DIRTY. */
  ghost predicate Evict(s: State, s': State, b: nat) {
    && b in s.cache && s.cache[b].holder == Nobody && !s.cache[b].dirty
    && s' == s.(cache := s.cache - {b})
  }

  ghost predicate BeginOp(s: State, s': State, p: Proc) {
    && !Booting(s.phase) && p !in s.book.active && Admits(s.book)
    && s' == s.(book := Begin(s.book, p), hist := s.hist + [Began(p)])
  }

  /** `end_op`, by a process that has released its buffers. The last one out commits; a transaction
      that logged nothing has nothing to write. */
  ghost predicate EndOp(s: State, s': State, p: Proc) {
    && p in s.book.active && s.book.outstanding > 0
    && (forall b :: b in s.cache ==> s.cache[b].holder != Held(p))
    && var t := s.(book := End(s.book, p), hist := s.hist + [Ended(p)]);
       s' == if s.book.outstanding > 1 then t
             else if s.book.entries == [] then t.(phase := Closing, durable := |t.hist|)
             else t.(phase := Copying(0))
  }

  /** One turn of `write_log`. */
  ghost predicate CopyBlock(s: State, s': State) {
    && s.phase.Copying? && s.phase.tail < |s.book.entries|
    && var t, b := s.phase.tail, s.book.entries[s.phase.tail];
       && Idle(s, b) && b < |s.disk.blocks| && s.g.start + 1 + t < |s.disk.blocks|
       && s' == s.(phase := Copying(t + 1),
                   disk := s.disk.(blocks := s.disk.blocks[s.g.start + 1 + t :=
                     if b in s.cache then s.cache[b].data else s.disk.blocks[b]]))
  }

  /** `write_head` with the transaction in it: the commit point. */
  ghost predicate Publish(s: State, s': State) {
    && s.phase == Copying(|s.book.entries|)
    && s' == s.(phase := Installing(0, false), disk := s.disk.(head := s.book.entries), durable := |s.hist|)
  }

  /** One turn of `install_trans`; writing a buffer to disk also makes it clean. */
  ghost predicate InstallBlock(s: State, s': State) {
    && s.phase.Installing? && s.phase.tail < |s.book.entries|
    && var t, b := s.phase.tail, s.book.entries[s.phase.tail];
       && Idle(s, b) && b < |s.disk.blocks| && s.g.start + 1 + t < |s.disk.blocks|
       && var v := s.disk.blocks[s.g.start + 1 + t];
          s' == s.(phase := Installing(t + 1, s.phase.boot),
                   disk := s.disk.(blocks := s.disk.blocks[b := v]),
                   cache := if b in s.cache then s.cache[b := s.cache[b].(data := v, valid := true, dirty := false)]
                     else s.cache)
  }

  /** `log.lh.n = 0`. */
  ghost predicate Forget(s: State, s': State) {
    && s.phase.Installing? && s.phase.tail == |s.book.entries|
    && s' == s.(phase := Erasing(s.phase.boot), book := s.book.(entries := []))
  }

  /** `write_head` with no entries. */
  ghost predicate Erase(s: State, s': State) {
    && s.phase.Erasing?
    && s' == s.(phase := if s.phase.boot then Up else Closing, disk := s.disk.(head := []))
  }

  /** The end of `end_op`: `committing = 0`. */
  ghost predicate Close(s: State, s': State) {
    && s.phase.Closing?
    && s' == s.(phase := Up, book := Committed(s.book))
  }

  /** Power fails: memory is gone, and with it what was not durable. */
  ghost predicate Crash(s: State, s': State) {
    && s.durable <= |s.hist|
    && s' == s.(phase := Down, cache := map[], book := Empty(s.book.size), hist := s.hist[..s.durable])
  }

  /** `read_head` at boot. */
  ghost predicate ReadHead(s: State, s': State) {
    && s.phase.Down?
    && s' == s.(phase := Installing(0, true), book := s.book.(entries := s.disk.head))
  }

  datatype Step =
    | GetStep(p: Proc, b: nat, junk: Content)
    | LoadStep(p: Proc, b: nat)
    | ChangeStep(p: Proc, b: nat, v: Content)
    | LogStep(p: Proc, b: nat)
    | ReleaseStep(p: Proc, b: nat)
    | EvictStep(b: nat)
    | BeginStep(p: Proc)
    | EndStep(p: Proc)
    | CopyStep
    | PublishStep
    | InstallStep
    | ForgetStep
    | EraseStep
    | CloseStep
    | CrashStep
    | ReadHeadStep

  ghost predicate Next(s: State, step: Step, s': State) {
    match step
    case GetStep(p, b, junk) => Get(s, s', p, b, junk)
    case LoadStep(p, b) => Load(s, s', p, b)
    case ChangeStep(p, b, v) => Change(s, s', p, b, v)
    case LogStep(p, b) => LogIt(s, s', p, b)
    case ReleaseStep(p, b) => Release(s, s', p, b)
    case EvictStep(b) => Evict(s, s', b)
    case BeginStep(p) => BeginOp(s, s', p)
    case EndStep(p) => EndOp(s, s', p)
    case CopyStep => CopyBlock(s, s')
    case PublishStep => Publish(s, s')
    case InstallStep => InstallBlock(s, s')
    case ForgetStep => Forget(s, s')
    case EraseStep => Erase(s, s')
    case CloseStep => Close(s, s')
    case CrashStep => Crash(s, s')
    case ReadHeadStep => ReadHead(s, s')
  }

  /** A machine about to boot from a disk with an empty log. */
  ghost predicate Init(s: State) {
    && s.g.size > 0 && s.g.start + s.g.size <= |s.disk.blocks|
    && s.disk.head == [] && s.base == s.disk.blocks
    && s.cache == map[] && s.book == Empty(s.g.size) && s.phase.Down?
    && s.hist == [] && s.durable == 0
  }

  ghost predicate Run(states: seq<State>, steps: seq<Step>) {
    && |states| == |steps| + 1
    && Init(states[0])
    && forall i :: 0 <= i < |steps| ==> Next(states[i], steps[i], states[i + 1])
  }

  // ------------------------------------------------------------------ the invariant

  /** Replaying the log of `d` gives the home contents `want`. */
  ghost predicate Replays(d: Disk<Content>, g: Region, want: seq<Content>) {
    && |want| == |d.blocks|
    && GoodEntries(|d.blocks|, g, d.head)
    && (forall i :: 0 <= i < |d.head| ==> d.blocks[g.start + 1 + i] == want[d.head[i]])
    && forall b :: 0 <= b < |d.blocks| && !InLog(g, b) && b !in d.head ==> d.blocks[b] == want[b]
  }

  ghost predicate BookOk(s: State) {
    var b := s.book;
    && b.size == s.g.size
    && b.outstanding == |b.active|
    && (b.committing <==>
          s.phase.Copying? || s.phase.Closing? || ((s.phase.Installing? || s.phase.Erasing?) && !s.phase.boot))
    && (!s.phase.Up? ==> b.active == map[] && b.outstanding == 0)
    && (s.phase.Up? && b.outstanding == 0 ==> b.entries == [] && s.durable == |s.hist|)
    && (s.phase.Erasing? || s.phase.Closing? || s.phase.Down? ==> b.entries == [])
    && GoodEntries(|s.disk.blocks|, s.g, b.entries)
  }

  ghost predicate HistOk(s: State) {
    && s.durable <= |s.hist|
    && |s.base| == |s.disk.blocks|
    && InProgress(s.hist) == s.book.active.Keys
    && InProgress(s.hist[..s.durable]) == {}
    && (!s.phase.Up? && !s.phase.Copying? ==> s.durable == |s.hist|)
  }

  /** How far the disk has got, phase by phase; `now` is the current content, `dur` the durable one. */
  ghost predicate DiskOk(s: State, now: seq<Content>, dur: seq<Content>)
    requires BookOk(s) && |now| == |dur| == |s.disk.blocks|
  {
    && s.g.size > 0
    && Replays(s.disk, s.g, dur)
    && (s.phase.Up? || s.phase.Copying? || s.phase.Closing? ==> s.disk.head == [])
    && (forall b: nat :: Home(s, b) && b !in s.book.entries ==> now[b] == dur[b])
    && (s.phase.Copying? ==> CopiedSoFar(s, now))
    && (s.phase.Installing? ==> InstalledSoFar(s, now))
    && (s.phase.Erasing? ==> forall b: nat :: Home(s, b) ==> s.disk.blocks[b] == now[b])
  }

  ghost predicate CopiedSoFar(s: State, now: seq<Content>)
    requires BookOk(s) && s.phase.Copying? && |now| == |s.disk.blocks|
  {
    && s.phase.tail <= |s.book.entries|
    && forall i :: 0 <= i < s.phase.tail ==> s.disk.blocks[s.g.start + 1 + i] == now[s.book.entries[i]]
  }

  ghost predicate InstalledSoFar(s: State, now: seq<Content>)
    requires BookOk(s) && s.phase.Installing? && |now| == |s.disk.blocks|
  {
    && s.disk.head == s.book.entries
    && s.phase.tail <= |s.book.entries|
    && forall i :: 0 <= i < s.phase.tail ==> s.disk.blocks[s.book.entries[i]] == now[s.book.entries[i]]
  }

  /** The first entry of the transaction that has not reached home yet. */
  function Pending(s: State): nat {
    if s.phase.Installing? then s.phase.tail else 0
  }

  ghost predicate BufOk(s: State, b: nat, f: Buf, now: seq<Content>)
    requires |now| == |s.disk.blocks|
  {
    && Home(s, b)
    && (f.dirty ==> f.valid && exists i :: Pending(s) <= i < |s.book.entries| && s.book.entries[i] == b)
    && (f.changed ==> f.valid && f.holder.Held? && f.holder.p in s.book.active)
    && (!f.valid ==> f.holder.Held?)
    && (f.valid && !f.changed ==> f.data == now[b])
  }

  /** The rest of the transaction is pinned. */
  ghost predicate Pinned(s: State) {
    forall i :: Pending(s) <= i < |s.book.entries| ==>
      s.book.entries[i] in s.cache && s.cache[s.book.entries[i]].dirty
  }

  ghost predicate CacheOk(s: State, now: seq<Content>)
    requires |now| == |s.disk.blocks|
  {
    && (forall b :: b in s.cache ==> BufOk(s, b, s.cache[b], now))
    && (Booting(s.phase) ==> s.cache == map[])
    && (!Booting(s.phase) ==> Pinned(s))
  }

  ghost predicate Inv(s: State) {
    BookOk(s) && HistOk(s) && DiskOk(s, Now(s), Durable(s)) && CacheOk(s, Now(s))
  }

  lemma InitInv(s: State)
    requires Init(s)
    ensures Inv(s)
  {
  }

  // ------------------------------------------------------------------ every step keeps it

  lemma Appended(base: seq<Content>, hist: seq<Event>, e: Event, k: nat)
    requires k <= |hist|
    ensures (hist + [e])[..k] == hist[..k] && (hist + [e])[..|hist|] == hist
    ensures !e.Wrote? ==> Apply(base, hist + [e]) == Apply(base, hist)
    ensures e.Wrote? && e.b < |base| ==> Apply(base, hist + [e]) == Apply(base, hist)[e.b := e.v]
  {
    assert (hist + [e])[..|hist|] == hist;
  }

  lemma WholeHistory(s: State)
    requires s.durable == |s.hist|
    ensures s.hist[..s.durable] == s.hist
  {
  }

  lemma CacheOnly(s: State, s': State)
    requires Inv(s) && s' == s.(cache := s'.cache) && CacheOk(s', Now(s))
    ensures Inv(s')
  {
    DiskFrame(s, s', Now(s), Durable(s));
  }

  /** Replacing one buffer by a sound one that is still pinned if it was. */
  lemma PutBuf(s: State, b: nat, f: Buf, now: seq<Content>)
    requires |now| == |s.disk.blocks| && CacheOk(s, now) && !Booting(s.phase) && BufOk(s, b, f, now)
    requires b in s.cache && s.cache[b].dirty ==> f.dirty
    ensures CacheOk(s.(cache := s.cache[b := f]), now)
  {
    var s' := s.(cache := s.cache[b := f]);
    forall c | c in s'.cache ensures BufOk(s', c, s'.cache[c], now) {
      if c != b {
        assert BufOk(s, c, s.cache[c], now);
      } else {
        assert BufOk(s, b, f, now);
      }
    }
  }

  /** What the cache needs is unchanged by a step that leaves the buffers and the transaction alone. */
  lemma CacheFrame(s: State, s': State, now: seq<Content>)
    requires |now| == |s.disk.blocks| == |s'.disk.blocks| && CacheOk(s, now)
    requires s'.cache == s.cache && s'.book.entries == s.book.entries && Pending(s') == Pending(s) && s'.g == s.g
    requires !Booting(s.phase) && !Booting(s'.phase)
    requires forall b :: b in s.cache && s.cache[b].changed && s.cache[b].holder.Held? ==>
      s.cache[b].holder.p in s.book.active ==> s.cache[b].holder.p in s'.book.active
    ensures CacheOk(s', now)
  {
    forall c | c in s'.cache ensures BufOk(s', c, s'.cache[c], now) {
      assert BufOk(s, c, s.cache[c], now);
    }
  }

  lemma HolderIsUp(s: State, now: seq<Content>, b: nat)
    requires |now| == |s.disk.blocks| && CacheOk(s, now) && b in s.cache
    ensures !Booting(s.phase) && BufOk(s, b, s.cache[b], now)
  {
  }

  lemma GetKeepsInv(s: State, s': State, p: Proc, b: nat, junk: Content)
    requires Inv(s) && Get(s, s', p, b, junk)
    ensures Inv(s')
  {
    if b in s.cache {
      HolderIsUp(s, Now(s), b);
    }
    PutBuf(s, b, s'.cache[b], Now(s));
    CacheOnly(s, s');
  }

  lemma ReleaseKeepsInv(s: State, s': State, p: Proc, b: nat)
    requires Inv(s) && Release(s, s', p, b)
    ensures Inv(s')
  {
    HolderIsUp(s, Now(s), b);
    PutBuf(s, b, s'.cache[b], Now(s));
    CacheOnly(s, s');
  }

  lemma ChangeKeepsInv(s: State, s': State, p: Proc, b: nat, v: Content)
    requires Inv(s) && Change(s, s', p, b, v)
    ensures Inv(s')
  {
    HolderIsUp(s, Now(s), b);
    PutBuf(s, b, s'.cache[b], Now(s));
    CacheOnly(s, s');
  }

  /** A block not pinned in the cache is up to date on the disk. */
  lemma DiskIsCurrent(s: State, b: nat)
    requires Inv(s) && !Booting(s.phase) && Home(s, b) && (b in s.cache ==> !s.cache[b].dirty)
    ensures s.disk.blocks[b] == Now(s)[b]
  {
    if b in s.book.entries {
      var i :| 0 <= i < |s.book.entries| && s.book.entries[i] == b;
      assert i < Pending(s);
    } else if s.phase.Installing? {
      WholeHistory(s);
    }
  }

  lemma LoadKeepsInv(s: State, s': State, p: Proc, b: nat)
    requires Inv(s) && Load(s, s', p, b)
    ensures Inv(s')
  {
    HolderIsUp(s, Now(s), b);
    DiskIsCurrent(s, b);
    PutBuf(s, b, s'.cache[b], Now(s));
    CacheOnly(s, s');
  }

  lemma EvictKeepsInv(s: State, s': State, b: nat)
    requires Inv(s) && Evict(s, s', b)
    ensures Inv(s')
  {
    HolderIsUp(s, Now(s), b);
    forall c | c in s'.cache ensures BufOk(s', c, s'.cache[c], Now(s)) {
      assert BufOk(s, c, s.cache[c], Now(s));
    }
    CacheOnly(s, s');
  }

  lemma AbsorbGood(total: nat, g: Region, entries: seq<nat>, b: nat)
    requires GoodEntries(total, g, entries) && b < total && !InLog(g, b)
    requires |entries| < LOGSIZE && |entries| < g.size - 1
    ensures GoodEntries(total, g, Absorb(entries, b))
  {
  }

  lemma LogKeepsInv(s: State, s': State, p: Proc, b: nat)
    requires Inv(s) && LogIt(s, s', p, b)
    ensures Inv(s')
  {
    var now, dur, v := Now(s), Durable(s), s.cache[b].data;
    HolderIsUp(s, now, b);
    Appended(s.base, s.hist, Wrote(p, b, v), s.durable);
    AbsorbGood(|s.disk.blocks|, s.g, s.book.entries, b);
    assert s'.book.active.Keys == s.book.active.Keys;
    var now' := now[b := v];
    LogKeepsDisk(s, s', p, b, now, dur);
    LogKeepsCache(s, s', p, b, now);
    assert Now(s') == now' && Durable(s') == dur;
  }

  lemma LogKeepsDisk(s: State, s': State, p: Proc, b: nat, now: seq<Content>, dur: seq<Content>)
    requires |now| == |dur| == |s.disk.blocks| && BookOk(s) && DiskOk(s, now, dur) && s.phase.Up?
    requires LogIt(s, s', p, b) && Home(s, b) && BookOk(s')
    ensures DiskOk(s', now[b := s.cache[b].data], dur)
  {
    forall c: nat | Home(s', c) && c !in s'.book.entries ensures now[b := s.cache[b].data][c] == dur[c] {
      assert c !in s.book.entries && c != b;
      assert Home(s, c);
    }
  }

  lemma LogKeepsCache(s: State, s': State, p: Proc, b: nat, now: seq<Content>)
    requires |now| == |s.disk.blocks| && CacheOk(s, now) && !Booting(s.phase) && s.phase.Up?
    requires LogIt(s, s', p, b) && BufOk(s, b, s.cache[b], now)
    ensures CacheOk(s', now[b := s.cache[b].data])
  {
    var now' := now[b := s.cache[b].data];
    assert b in s'.book.entries;
    forall c | c in s'.cache ensures BufOk(s', c, s'.cache[c], now') {
      if c != b {
        assert BufOk(s, c, s.cache[c], now);
        if s.cache[c].dirty {
          var i :| Pending(s) <= i < |s.book.entries| && s.book.entries[i] == c;
          assert s'.book.entries[i] == c;
        }
      }
    }
    forall i | Pending(s') <= i < |s'.book.entries|
      ensures s'.book.entries[i] in s'.cache && s'.cache[s'.book.entries[i]].dirty
    {
      if s'.book.entries[i] != b {
        assert s.book.entries[i] == s'.book.entries[i];
      }
    }
  }

  lemma BeginKeepsInv(s: State, s': State, p: Proc)
    requires Inv(s) && BeginOp(s, s', p)
    ensures Inv(s')
  {
    Appended(s.base, s.hist, Began(p), s.durable);
    assert s.phase.Up?;
    assert s'.book.active.Keys == s.book.active.Keys + {p};
    assert Now(s') == Now(s) && Durable(s') == Durable(s);
    CacheFrame(s, s', Now(s));
    DiskFrame(s, s', Now(s), Durable(s));
  }

  lemma DiskFrame(s: State, s': State, now: seq<Content>, dur: seq<Content>)
    requires BookOk(s) && BookOk(s') && |now| == |dur| == |s.disk.blocks| && DiskOk(s, now, dur)
    requires s'.disk == s.disk && s'.phase == s.phase && s'.g == s.g && s'.book.entries == s.book.entries
    ensures DiskOk(s', now, dur)
  {
  }

  lemma EndKeepsInv(s: State, s': State, p: Proc)
    requires Inv(s) && EndOp(s, s', p)
    ensures Inv(s')
  {
    Appended(s.base, s.hist, Ended(p), s.durable);
    assert s'.book.active.Keys == s.book.active.Keys - {p};
    assert s'.book.outstanding == 0 ==> s'.book.active.Keys == {};
    assert Now(s') == Now(s);
    WholePrefix(s'.hist);
    CacheFrame(s, s', Now(s));
    if s'.phase.Up? {
      DiskFrame(s, s', Now(s), Durable(s));
    } else {
      EndKeepsDisk(s, s', p, Now(s), Durable(s));
    }
  }

  lemma EndKeepsDisk(s: State, s': State, p: Proc, now: seq<Content>, dur: seq<Content>)
    requires |now| == |dur| == |s.disk.blocks| && BookOk(s) && DiskOk(s, now, dur) && s.phase.Up?
    requires EndOp(s, s', p) && BookOk(s')
    ensures s'.phase.Copying? ==> DiskOk(s', now, dur)
    ensures s'.phase.Closing? ==> DiskOk(s', now, now)
  {
  }

  lemma WholePrefix(hist: seq<Event>)
    ensures hist[..|hist|] == hist
  {
  }

  lemma CopyKeepsInv(s: State, s': State)
    requires Inv(s) && CopyBlock(s, s')
    ensures Inv(s')
  {
    var now, b := Now(s), s.book.entries[s.phase.tail];
    assert b in s.cache && s.cache[b].dirty;
    HolderIsUp(s, now, b);
    CacheFrame(s, s', now);
    CopyKeepsDisk(s, s', now, Durable(s));
  }

  lemma CopyKeepsDisk(s: State, s': State, now: seq<Content>, dur: seq<Content>)
    requires |now| == |dur| == |s.disk.blocks| && BookOk(s) && DiskOk(s, now, dur)
    requires CopyBlock(s, s') && BookOk(s')
    requires var b := s.book.entries[s.phase.tail]; b in s.cache && s.cache[b].data == now[b]
    ensures DiskOk(s', now, dur)
  {
  }

  lemma PublishKeepsInv(s: State, s': State)
    requires Inv(s) && Publish(s, s')
    ensures Inv(s')
  {
    WholePrefix(s.hist);
    CacheFrame(s, s', Now(s));
    PublishKeepsDisk(s, s', Now(s), Durable(s));
  }

  lemma PublishKeepsDisk(s: State, s': State, now: seq<Content>, dur: seq<Content>)
    requires |now| == |dur| == |s.disk.blocks| && BookOk(s) && DiskOk(s, now, dur)
    requires Publish(s, s') && BookOk(s')
    ensures DiskOk(s', now, now)
  {
  }

  lemma InstallKeepsInv(s: State, s': State)
    requires Inv(s) && InstallBlock(s, s')
    ensures Inv(s')
  {
    var now, t, b := Now(s), s.phase.tail, s.book.entries[s.phase.tail];
    WholePrefix(s.hist);
    assert s.disk.blocks[s.g.start + 1 + t] == now[b];
    InstallKeepsDisk(s, s', now);
    InstallKeepsCache(s, s', now);
  }

  lemma InstallKeepsDisk(s: State, s': State, now: seq<Content>)
    requires |now| == |s.disk.blocks| && BookOk(s) && DiskOk(s, now, now)
    requires InstallBlock(s, s') && BookOk(s')
    ensures DiskOk(s', now, now)
  {
  }

  lemma InstallKeepsCache(s: State, s': State, now: seq<Content>)
    requires |now| == |s.disk.blocks| && CacheOk(s, now) && Distinct(s.book.entries)
    requires InstallBlock(s, s') && s.disk.blocks[s.g.start + 1 + s.phase.tail] == now[s.book.entries[s.phase.tail]]
    ensures CacheOk(s', now)
  {
    var b := s.book.entries[s.phase.tail];
    forall c | c in s'.cache ensures BufOk(s', c, s'.cache[c], now) {
      assert BufOk(s, c, s.cache[c], now);
      if s'.cache[c].dirty {
        var i :| Pending(s) <= i < |s.book.entries| && s.book.entries[i] == c;
        assert c != b;
        assert Pending(s') <= i < |s'.book.entries| && s'.book.entries[i] == c;
      }
    }
  }

  lemma ForgetKeepsInv(s: State, s': State)
    requires Inv(s) && Forget(s, s')
    ensures Inv(s')
  {
    var now := Now(s);
    WholePrefix(s.hist);
    forall b: nat | Home(s', b) ensures s'.disk.blocks[b] == now[b] {
      if b in s.book.entries {
        var i :| 0 <= i < |s.book.entries| && s.book.entries[i] == b;
        assert i < s.phase.tail;
      }
    }
    forall c | c in s'.cache ensures BufOk(s', c, s'.cache[c], now) {
      assert BufOk(s, c, s.cache[c], now);
    }
  }

  lemma EraseKeepsInv(s: State, s': State)
    requires Inv(s) && Erase(s, s')
    ensures Inv(s')
  {
    var now := Now(s);
    WholePrefix(s.hist);
    forall c | c in s'.cache ensures BufOk(s', c, s'.cache[c], now) {
      assert BufOk(s, c, s.cache[c], now);
    }
  }

  lemma CloseKeepsInv(s: State, s': State)
    requires Inv(s) && Close(s, s')
    ensures Inv(s')
  {
    var now := Now(s);
    forall c | c in s'.cache ensures BufOk(s', c, s'.cache[c], now) {
      assert BufOk(s, c, s.cache[c], now);
    }
  }

  lemma CrashKeepsInv(s: State, s': State)
    requires Inv(s) && Crash(s, s')
    ensures Inv(s')
  {
    WholePrefix(s'.hist);
    assert Now(s') == Durable(s') == Durable(s);
  }

  lemma ReadHeadKeepsInv(s: State, s': State)
    requires Inv(s) && ReadHead(s, s')
    ensures Inv(s')
  {
    WholePrefix(s.hist);
  }

  lemma NextKeepsInv(s: State, step: Step, s': State)
    requires Inv(s) && Next(s, step, s')
    ensures Inv(s')
  {
    match step
    case GetStep(p, b, junk) => GetKeepsInv(s, s', p, b, junk);
    case LoadStep(p, b) => LoadKeepsInv(s, s', p, b);
    case ChangeStep(p, b, v) => ChangeKeepsInv(s, s', p, b, v);
    case LogStep(p, b) => LogKeepsInv(s, s', p, b);
    case ReleaseStep(p, b) => ReleaseKeepsInv(s, s', p, b);
    case EvictStep(b) => EvictKeepsInv(s, s', b);
    case BeginStep(p) => BeginKeepsInv(s, s', p);
    case EndStep(p) => EndKeepsInv(s, s', p);
    case CopyStep => CopyKeepsInv(s, s');
    case PublishStep => PublishKeepsInv(s, s');
    case InstallStep => InstallKeepsInv(s, s');
    case ForgetStep => ForgetKeepsInv(s, s');
    case EraseStep => EraseKeepsInv(s, s');
    case CloseStep => CloseKeepsInv(s, s');
    case CrashStep => CrashKeepsInv(s, s');
    case ReadHeadStep => ReadHeadKeepsInv(s, s');
  }

  lemma {:induction false} RunKeepsInv(states: seq<State>, steps: seq<Step>, i: nat)
    requires Run(states, steps) && i < |states|
    ensures Inv(states[i])
    decreases i
  {
    if i == 0 {
      InitInv(states[0]);
    } else {
      RunKeepsInv(states, steps, i - 1);
      NextKeepsInv(states[i - 1], steps[i - 1], states[i]);
    }
  }

  // ------------------------------------------------------------------ theorems about every run

  /** Crash safety: at any moment of any run, were the machine to lose power and recovery to run to
      its end, every home block would hold what a prefix of the history wrote last, and no operation
      is in progress where that prefix ends. */
  lemma CrashSafety(states: seq<State>, steps: seq<Step>, i: nat)
    requires Run(states, steps) && i < |states|
    ensures var s := states[i];
      && s.durable <= |s.hist| && |s.base| == |s.disk.blocks|
      && InProgress(s.hist[..s.durable]) == {}
      && Recoverable(s.disk, s.g)
      && forall b: nat :: Home(s, b) ==> Recovered(s.disk, s.g).blocks[b] == Apply(s.base, s.hist[..s.durable])[b]
  {
    RunKeepsInv(states, steps, i);
    var s := states[i];
    ReplayRecovers(s.disk, s.g, Durable(s));
  }

  lemma ReplayRecovers(d: Disk<Content>, g: Region, want: seq<Content>)
    requires Replays(d, g, want)
    ensures forall b: nat :: b < |d.blocks| && !InLog(g, b) ==> Recovered(d, g).blocks[b] == want[b]
  {
    InstalledBlocks(d.blocks, g, d.head, |d.head|);
    assert d.head[..|d.head|] == d.head;
    forall b: nat | b < |d.blocks| && !InLog(g, b) ensures Recovered(d, g).blocks[b] == want[b] {
      if b in d.head {
        var i :| 0 <= i < |d.head| && d.head[i] == b;
        assert Installed(d.blocks, g, d.head, |d.head|)[d.head[i]] == d.blocks[g.start + 1 + i];
      }
    }
  }

  /** An operation that began before a cut with nothing in progress also ended before it: no
      operation is split by what survives a crash. */
  lemma {:induction false} NoOpSplit(hist: seq<Event>, k: nat, i: nat) returns (j: nat)
    requires i < k <= |hist| && InProgress(hist[..k]) == {} && hist[i].Began?
    ensures i < j < k && hist[j] == Ended(hist[i].p)
  {
    var p := hist[i].p;
    assert hist[..i + 1][..i] == hist[..i];
    assert p in InProgress(hist[..i + 1]);
    j := i + 1;
    while hist[j] != Ended(p)
      invariant i < j < k && p in InProgress(hist[..j])
      decreases k - j
    {
      assert hist[..j + 1][..j] == hist[..j];
      assert p in InProgress(hist[..j + 1]);
      j := j + 1;
    }
  }

  /** What has become durable stays: later durable histories extend it. */
  lemma DurableGrows(states: seq<State>, steps: seq<Step>, i: nat, j: nat)
    requires Run(states, steps) && i <= j < |states|
    ensures states[i].durable <= |states[i].hist| && states[j].durable <= |states[j].hist|
    ensures states[i].hist[..states[i].durable] <= states[j].hist[..states[j].durable]
    decreases j - i
  {
    RunKeepsInv(states, steps, i);
    if i < j {
      RunKeepsInv(states, steps, i + 1);
      StepExtendsDurable(states[i], steps[i], states[i + 1]);
      DurableGrows(states, steps, i + 1, j);
    }
  }

  lemma StepExtendsDurable(s: State, step: Step, s': State)
    requires s.durable <= |s.hist| && s'.durable <= |s'.hist| && Next(s, step, s')
    ensures s.hist[..s.durable] <= s'.hist[..s'.durable]
  {
  }

  /** Nothing in progress and no commit under way: everything so far is durable. */
  lemma QuietIsDurable(states: seq<State>, steps: seq<Step>, i: nat)
    requires Run(states, steps) && i < |states| && states[i].phase.Up? && states[i].book.outstanding == 0
    ensures states[i].durable == |states[i].hist| && states[i].book.entries == []
  {
    RunKeepsInv(states, steps, i);
  }

  /** Reads see the latest logged write: a valid buffer that its holder has not touched since holds
      what the history wrote last, whatever was evicted, reloaded or installed in between. */
  lemma ReadsSeeLatest(states: seq<State>, steps: seq<Step>, i: nat, b: nat)
    requires Run(states, steps) && i < |states|
    requires b in states[i].cache && states[i].cache[b].valid && !states[i].cache[b].changed
    ensures b < |states[i].base| && states[i].cache[b].data == Apply(states[i].base, states[i].hist)[b]
  {
    RunKeepsInv(states, steps, i);
    assert BufOk(states[i], b, states[i].cache[b], Now(states[i]));
  }

  /** Write-ahead: until the header is written, no step other than a crash moves a block of the
      transaction at its home location or drops its buffer. */
  lemma WriteAhead(states: seq<State>, steps: seq<Step>, i: nat, b: nat)
    requires Run(states, steps) && i < |steps| && !steps[i].CrashStep?
    requires (states[i].phase.Up? || states[i].phase.Copying?) && b in states[i].book.entries
    ensures var s, s' := states[i], states[i + 1];
      && b < |s.disk.blocks| == |s'.disk.blocks| && s'.disk.blocks[b] == s.disk.blocks[b]
      && b in s'.cache && s'.cache[b].dirty && b in s'.book.entries
  {
    RunKeepsInv(states, steps, i);
    StaysPinned(states[i], steps[i], states[i + 1], b);
  }

  lemma StaysPinned(s: State, step: Step, s': State, b: nat)
    requires BookOk(s) && Pinned(s) && Next(s, step, s') && !step.CrashStep?
    requires (s.phase.Up? || s.phase.Copying?) && b in s.book.entries
    ensures b < |s.disk.blocks| == |s'.disk.blocks| && s'.disk.blocks[b] == s.disk.blocks[b]
    ensures b in s'.cache && s'.cache[b].dirty && b in s'.book.entries
  {
    var i :| 0 <= i < |s.book.entries| && s.book.entries[i] == b;
    assert s.book.entries[i] in s.cache && s.cache[b].dirty;
  }

  /** What `write_log` puts in the log is the latest content of the block. */
  lemma LogsLatest(states: seq<State>, steps: seq<Step>, i: nat)
    requires Run(states, steps) && i < |steps| && steps[i].CopyStep?
    ensures var s, s' := states[i], states[i + 1];
      && s.phase.Copying? && s.phase.tail < |s.book.entries|
      && s.g.start + 1 + s.phase.tail < |s'.disk.blocks| && s.book.entries[s.phase.tail] < |s.base|
      && s'.disk.blocks[s.g.start + 1 + s.phase.tail] == Apply(s.base, s.hist)[s.book.entries[s.phase.tail]]
  {
    RunKeepsInv(states, steps, i + 1);
    assert CopiedSoFar(states[i + 1], Now(states[i + 1]));
  }
}
