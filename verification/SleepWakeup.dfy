/** proc.c: sleep and wakeup, as steps of any number of processes over any number of channels, conditions
    and locks. A condition is what a caller of sleep waits for; it has a channel and is guarded by a lock.
    Lock 0 is ptable.lock. */
module SleepWakeup {
  import opened Basics
  import opened Sealed

  /** The fixed parts: how many processes, the channel and the lock of each condition. `handover` says that
      sleep takes ptable.lock before it lets go of the caller's lock, `locked` that conditions are changed
      only by the holder of their lock. The source has both. */
  datatype System = System(n: nat, chan: seq<nat>, lock: seq<nat>, locks: nat, handover: bool, locked: bool)

  ghost predicate Sensible(sys: System) {
    && sys.locks >= 1 && |sys.chan| == |sys.lock|
    && forall d :: 0 <= d < |sys.lock| ==> sys.lock[d] < sys.locks
  }

  datatype RunState = RUNNABLE | RUNNING | SLEEPING

  /** Where a process is. `owes` has the conditions it made true without having called wakeup since. */
  datatype Pc =
    | Run(lk: Option<nat>, owes: set<nat>)
    | WakeWant(lk: Option<nat>, owes: set<nat>, c: nat)         // wakeup(c), before acquire(&ptable.lock)
    | Scan(lk: Option<nat>, owes: set<nat>, c: nat, i: nat)     // wakeup1(c), at the i-th process
    | SleepWant(d: nat)                                         // sleep, before acquire(&ptable.lock)
    | SleepGap(d: nat)                                          // only without the handover
    | SleepBoth(d: nat)                                         // before release(lk)
    | SleepSet(d: nat)                                          // before proc->chan = chan
    | SleepMark(d: nat)                                         // before proc->state = SLEEPING
    | SleepSched(d: nat)                                        // before sched()
    | Asleep(d: nat)                                            // switched out
    | Woken(d: nat)                                             // back from sched()
    | WokenRelease(d: nat)                                      // before release(&ptable.lock)
    | Reacquire(d: nat)                                         // before acquire(lk)

  datatype Proc = Proc(pc: Pc, state: RunState, chan: Option<nat>)

  datatype Owner = Free | By(p: nat) | Scheduler

  datatype State = State(procs: seq<Proc>, locks: seq<Owner>, cond: seq<bool>)

  datatype Action =
    | Acquire(l: nat) | Release | Change(cond: seq<bool>) | Kill(target: nat)
    | CallWakeup(c: nat) | WakeAcquire | ScanOne | ScanDone
    | CallSleep(d: nat) | SleepFirst | SleepSecond | SetChan | SetState | Sched
    | Dispatch | Tidy | LetGo | TakeBack
    | SchedAcquire | SchedRelease

  function Init(sys: System, cond: seq<bool>): State {
    State(seq(sys.n, _ => Proc(Run(None, {}), RUNNING, None)), seq(sys.locks, _ => Free), cond)
  }

  // ------------------------------------------------------------------ steps

  /** What a step does to the locks. */
  datatype Op = Keep | Take(l: nat) | Drop(l: nat) | ToScheduler | FromScheduler | SchedulerTakes | SchedulerDrops

  datatype Effect = Effect(proc: Proc, op: Op)

  /** The conditions that became true. */
  function Risen(before: seq<bool>, after: seq<bool>): set<nat> {
    set d | 0 <= d < |before| && d < |after| && !before[d] && after[d]
  }

  /** The body of wakeup1's loop. */
  function Wake(x: Proc, c: nat): Proc {
    if x.state == SLEEPING && x.chan == Some(c) then x.(state := RUNNABLE) else x
  }

  /** wakeup(c) settles what was owed on channel `c`. */
  function Settle(sys: System, owes: set<nat>, c: nat): set<nat> {
    set d | d in owes && !(d < |sys.chan| && sys.chan[d] == c)
  }

  function LockOf(sys: System, d: nat): nat {
    if d < |sys.lock| then sys.lock[d] else 0
  }

  function ChanOf(sys: System, d: nat): nat {
    if d < |sys.chan| then sys.chan[d] else 0
  }

  function At(x: Proc, pc: Pc, op: Op): Option<Effect> {
    Some(Effect(x.(pc := pc), op))
  }

  /** A process in its own code, holding at most one lock. */
  function RunStep(sys: System, x: Proc, cond: seq<bool>, a: Action): Option<Effect>
    requires x.pc.Run?
  {
    var pc := x.pc;
    match a
    case Acquire(l) => if pc.lk == None then At(x, Run(Some(l), pc.owes), Take(l)) else None
    case Release => if pc.lk.Some? then At(x, Run(None, pc.owes), Drop(pc.lk.value)) else None
    case Change(cond') => if |cond'| == |cond| then At(x, Run(pc.lk, pc.owes + Risen(cond, cond')), Keep) else None
    case Kill(_) => if pc.lk == Some(0) then At(x, pc, Keep) else None
    case CallWakeup(c) => At(x,
      if pc.lk == Some(0) then Scan(pc.lk, pc.owes, c, 0) else WakeWant(pc.lk, pc.owes, c), Keep)
    case CallSleep(d) =>
      if d < |cond| && d < |sys.lock| && pc.lk == Some(sys.lock[d]) && pc.owes == {} && !cond[d]
      then At(x, if sys.lock[d] == 0 then SleepSet(d) else SleepWant(d), Keep) else None
    case _ => None
  }

  /** What a process can do next: its own code, wakeup, or sleep up to sched and from there on. A processor's
      scheduler takes and drops ptable.lock whatever the processes are at. */
  function Local(sys: System, x: Proc, cond: seq<bool>, a: Action): Option<Effect> {
    if a.SchedAcquire? then At(x, x.pc, SchedulerTakes)
    else if a.SchedRelease? then At(x, x.pc, SchedulerDrops)
    else match x.pc
    case Run(_, _) => RunStep(sys, x, cond, a)
    case WakeWant(lk, owes, c) => if a.WakeAcquire? then At(x, Scan(lk, owes, c, 0), Take(0)) else None
    case Scan(lk, owes, c, i) =>
      if a.ScanOne? && i < sys.n then At(x, Scan(lk, owes, c, i + 1), Keep)
      else if a.ScanDone?
        && i == sys.n then At(x, Run(lk, Settle(sys, owes, c)), if lk == Some(0) then Keep else Drop(0))
      else None
    case SleepWant(d) =>
      if !a.SleepFirst? then None
      else if sys.handover then At(x, SleepBoth(d), Take(0))
      else At(x, SleepGap(d), Drop(LockOf(sys, d)))
    case SleepGap(d) => if a.SleepSecond? then At(x, SleepSet(d), Take(0)) else None
    case SleepBoth(d) => if a.SleepSecond? then At(x, SleepSet(d), Drop(LockOf(sys, d))) else None
    case SleepSet(d) => if a.SetChan? then At(x.(chan := Some(ChanOf(sys, d))), SleepMark(d), Keep) else None
    case SleepMark(d) => if a.SetState? then At(x.(state := SLEEPING), SleepSched(d), Keep) else None
    case SleepSched(d) => if a.Sched? then At(x, Asleep(d), ToScheduler) else None
    case Asleep(d) => if a.Dispatch?
      && x.state == RUNNABLE then At(x.(state := RUNNING), Woken(d), FromScheduler) else None
    case Woken(d) => if a.Tidy? then At(x.(chan := None),
      if LockOf(sys, d) == 0 then Run(Some(0), {}) else WokenRelease(d), Keep) else None
    case WokenRelease(d) => if a.LetGo? then At(x, Reacquire(d), Drop(0)) else None
    case Reacquire(d) => if a.TakeBack? then At(x, Run(Some(LockOf(sys, d)), {}), Take(LockOf(sys, d))) else None
  }

  predicate Possible(locks: seq<Owner>, op: Op) {
    match op
    case Keep => true
    case Take(l) => l < |locks| && locks[l] == Free
    case Drop(l) => l < |locks|
    case ToScheduler => 0 < |locks|
    case FromScheduler => 0 < |locks| && locks[0] == Scheduler
    case SchedulerTakes => 0 < |locks| && locks[0] == Free
    case SchedulerDrops => 0 < |locks| && locks[0] == Scheduler
  }

  function Apply(locks: seq<Owner>, op: Op, p: nat): seq<Owner>
    requires Possible(locks, op)
  {
    match op
    case Keep => locks
    case Take(l) => locks[l := By(p)]
    case Drop(l) => locks[l := Free]
    case ToScheduler => locks[0 := Scheduler]
    case FromScheduler => locks[0 := By(p)]
    case SchedulerTakes => locks[0 := Scheduler]
    case SchedulerDrops => locks[0 := Free]
  }

  /** What a step does to another process `y`, the `q`-th: wakeup1 and kill may make it RUNNABLE. */
  function Other(pc: Pc, a: Action, y: Proc, q: nat): Proc {
    if a.ScanOne? && pc.Scan? && pc.i == q then Wake(y, pc.c)
    else if a.Kill? && a.target == q && y.state == SLEEPING then y.(state := RUNNABLE)
    else y
  }

  ghost predicate InSystem(sys: System, s: State) {
    Sensible(sys) && |s.procs| == sys.n && |s.locks| == sys.locks && |s.cond| == |sys.lock|
  }

  /** The conditions do not change, or as `locked` demands. */
  ghost predicate CondStep(sys: System, lk: Option<nat>, a: Action, cond: seq<bool>, cond': seq<bool>) {
    && |cond'| == |cond|
    && if a.Change? then cond' == a.cond
        && (sys.locked ==> forall d :: 0 <= d < |cond| && cond'[d] != cond[d] ==> lk == Some(LockOf(sys, d)))
       else cond' == cond
  }

  ghost predicate Next(sys: System, s: State, p: nat, a: Action, s': State) {
    && InSystem(sys, s) && InSystem(sys, s') && p < sys.n
    && var x := s.procs[p];
       var e := Local(sys, x, s.cond, a);
       && e.Some? && Possible(s.locks, e.value.op)
       && s'.locks == Apply(s.locks, e.value.op, p)
       && CondStep(sys, if x.pc.Run? then x.pc.lk else None, a, s.cond, s'.cond)
       && forall q :: 0 <= q < sys.n ==> s'.procs[q] == if q == p then e.value.proc else Other(x.pc, a, s.procs[q], q)
  }

  datatype Event = Event(p: nat, a: Action, after: State)

  ghost predicate Trace(sys: System, s: State, run: seq<Event>)
    decreases |run|
  {
    run == [] || (Next(sys, s, run[0].p, run[0].a, run[0].after) && Trace(sys, run[0].after, run[1..]))
  }

  function Last(s: State, run: seq<Event>): State {
    if run == [] then s else run[|run| - 1].after
  }

  // ------------------------------------------------------------------ invariant

  /** The locks a process holds. */
  function Holds(sys: System, pc: Pc, l: nat): bool {
    match pc
    case Run(lk, _) => lk == Some(l)
    case WakeWant(lk, _, _) => lk == Some(l)
    case Scan(lk, _, _, _) => lk == Some(l) || l == 0
    case SleepWant(d) => LockOf(sys, d) == l
    case SleepBoth(d) => l == 0 || LockOf(sys, d) == l
    case SleepGap(_) => false
    case Asleep(_) => false
    case Reacquire(_) => false
    case _ => l == 0
  }

  /** A lock's owner is the process that holds it, as far as `p` and `l` go. */
  ghost predicate Agrees(sys: System, s: State, p: nat, l: nat)
    requires InSystem(sys, s) && p < sys.n && l < sys.locks
  {
    Holds(sys, s.procs[p].pc, l) <==> s.locks[l] == By(p)
  }

  ghost predicate LocksOk(sys: System, s: State)
    requires InSystem(sys, s)
  {
    forall p, l :: 0 <= p < sys.n && 0 <= l < sys.locks ==> Agrees(sys, s, p, l)
  }

  ghost predicate ProcOk(sys: System, x: Proc) {
    && (x.pc.Run? || x.pc.WakeWant? || x.pc.Scan? || x.pc.d < |sys.lock|)
    && !x.pc.SleepGap?
    && (x.pc.WokenRelease? || x.pc.Reacquire? ==> sys.lock[x.pc.d] != 0)
    && (x.pc.SleepWant? || x.pc.SleepBoth? ==> sys.lock[x.pc.d] != 0)
    && (x.pc.WakeWant? ==> x.pc.lk != Some(0))
    && (x.pc.Scan? ==> x.pc.i <= sys.n)
    && (x.pc.SleepMark? || x.pc.SleepSched? || x.pc.Asleep? ==> x.chan == Some(ChanOf(sys, x.pc.d)))
    && (x.pc.SleepSched? ==> x.state == SLEEPING)
    && (x.pc.Asleep? ==> x.state != RUNNING)
    && (x.pc.SleepSched? || x.pc.Asleep? || x.state == RUNNING)
    && (x.pc.SleepMark? || x.pc.SleepSched? || x.pc.Asleep? || x.pc.Woken? || x.chan == None)
  }

  /** The process has given up its lock in order to sleep on `pc.d`, and nobody has woken it. */
  predicate Committed(x: Proc) {
    x.pc.SleepSet? || x.pc.SleepMark? || x.pc.SleepSched? || (x.pc.Asleep? && x.state == SLEEPING)
  }

  function Owes(pc: Pc): set<nat> {
    if pc.Run? || pc.WakeWant? || pc.Scan? then pc.owes else {}
  }

  /** This process made condition `d` true and its next wakeup has not yet looked at process `p`. */
  predicate Covers(sys: System, pc: Pc, p: nat, d: nat) {
    d in Owes(pc) && (pc.Scan? && d < |sys.chan| && sys.chan[d] == pc.c ==> pc.i <= p)
  }

  ghost predicate Covered(sys: System, s: State, p: nat, d: nat) {
    exists w :: 0 <= w < |s.procs| && Covers(sys, s.procs[w].pc, p, d)
  }

  /** No process is past caring about a condition that holds without a wakeup to come. */
  ghost predicate NoneLost(sys: System, s: State)
    requires InSystem(sys, s)
  {
    forall p {:trigger s.procs[p]} ::
      0 <= p < sys.n && Committed(s.procs[p]) && s.procs[p].pc.d < |s.cond| && s.cond[s.procs[p].pc.d] ==>
      Covered(sys, s, p, s.procs[p].pc.d)
  }

  ghost predicate Inv(sys: System, s: State) {
    && InSystem(sys, s)
    && LocksOk(sys, s)
    && (forall l :: 0 <= l < sys.locks && s.locks[l].By? ==> s.locks[l].p < sys.n)
    && (forall p :: 0 <= p < sys.n ==> ProcOk(sys, s.procs[p]))
    && (forall p {:trigger s.procs[p]} :: 0 <= p < sys.n && (s.procs[p].pc.SleepWant? || s.procs[p].pc.SleepBoth?) ==>
        !s.cond[s.procs[p].pc.d])
    && NoneLost(sys, s)
  }

  ghost predicate AsInSource(sys: System) {
    sys.handover && sys.locked
  }

  /** What a step does to the locks it does to the holder. */
  lemma LocalLocks(sys: System, x: Proc, cond: seq<bool>, a: Action, l: nat)
    requires AsInSource(sys) && ProcOk(sys, x) && Local(sys, x, cond, a).Some?
    ensures var e := Local(sys, x, cond, a).value;
      && (Holds(sys, e.proc.pc, l) <==>
            e.op == Take(l) || (l == 0 && e.op == FromScheduler)
              || (Holds(sys, x.pc, l) && e.op != Drop(l) && !(l == 0 && e.op == ToScheduler)))
      && (e.op == Drop(l) || (l == 0 && e.op == ToScheduler) ==> Holds(sys, x.pc, l))
  {
  }

  lemma LocalProc(sys: System, x: Proc, cond: seq<bool>, a: Action)
    requires AsInSource(sys) && ProcOk(sys, x) && Local(sys, x, cond, a).Some?
    ensures ProcOk(sys, Local(sys, x, cond, a).value.proc)
  {
  }

  lemma LockKept(sys: System, s: State, p: nat, a: Action, s': State, q: nat, l: nat)
    requires AsInSource(sys) && Next(sys, s, p, a, s') && q < sys.n && l < sys.locks && ProcOk(sys, s.procs[p])
    requires Agrees(sys, s, q, l) && Agrees(sys, s, p, l)
    ensures Agrees(sys, s', q, l)
  {
    LocalLocks(sys, s.procs[p], s.cond, a, l);
    assert q != p ==> s'.procs[q].pc == s.procs[q].pc;
  }

  /** Only the holder of ptable.lock touches another process. */
  lemma ProcKept(sys: System, s: State, p: nat, a: Action, s': State, q: nat)
    requires AsInSource(sys) && Next(sys, s, p, a, s') && q < sys.n && ProcOk(sys, s.procs[p])
    requires ProcOk(sys, s.procs[q])
    requires Agrees(sys, s, q, 0) && Agrees(sys, s, p, 0)
    ensures ProcOk(sys, s'.procs[q])
  {
    LocalProc(sys, s.procs[p], s.cond, a);
  }

  /** Whoever found the condition false and still has its lock finds it false later. */
  lemma StaysFalse(sys: System, s: State, p: nat, a: Action, s': State, q: nat)
    requires AsInSource(sys) && Next(sys, s, p, a, s') && q < sys.n && ProcOk(sys, s.procs[q])
    requires LocksOk(sys, s) && ProcOk(sys, s'.procs[q])
    requires s.procs[q].pc.SleepWant? || s.procs[q].pc.SleepBoth? ==> !s.cond[s.procs[q].pc.d]
    requires s'.procs[q].pc.SleepWant? || s'.procs[q].pc.SleepBoth?
    ensures !s'.cond[s'.procs[q].pc.d]
  {
    if p == q {
      OwnStep(sys, s.procs[q], s.cond, a);
    } else {
      var l := sys.lock[s.procs[q].pc.d];
      assert Agrees(sys, s, q, l) && Agrees(sys, s, p, l);
    }
  }

  lemma OwnStep(sys: System, x: Proc, cond: seq<bool>, a: Action)
    requires AsInSource(sys) && Local(sys, x, cond, a).Some?
    requires var y := Local(sys, x, cond, a).value.proc; y.pc.SleepWant? || y.pc.SleepBoth?
    ensures var y := Local(sys, x, cond, a).value.proc;
      && !a.Change?
      && if x.pc.SleepWant? || x.pc.SleepBoth? then y.pc.d == x.pc.d else y.pc.d < |cond| && !cond[y.pc.d]
  {
  }

  /** A process gives up its lock only while the condition is still false. */
  lemma CommittedBefore(sys: System, s: State, p: nat, a: Action, s': State, q: nat)
    requires AsInSource(sys) && Next(sys, s, p, a, s') && q < sys.n && ProcOk(sys, s.procs[q])
    requires s.procs[q].pc.SleepBoth? ==> !s.cond[s.procs[q].pc.d]
    requires ProcOk(sys, s'.procs[q]) && Committed(s'.procs[q]) && s'.cond[s'.procs[q].pc.d]
    ensures Committed(s.procs[q]) && s.procs[q].pc.d == s'.procs[q].pc.d
  {
    if p == q {
      OwnCommit(sys, s.procs[q], s.cond, a);
    } else {
      assert s'.procs[q].pc == s.procs[q].pc;
    }
  }

  lemma OwnCommit(sys: System, x: Proc, cond: seq<bool>, a: Action)
    requires AsInSource(sys) && ProcOk(sys, x) && Local(sys, x, cond, a).Some?
    requires Committed(Local(sys, x, cond, a).value.proc)
    ensures var y := Local(sys, x, cond, a).value.proc;
      && !a.Change?
      && if Committed(x) then y.pc.d == x.pc.d
         else if x.pc.SleepBoth? then y.pc.d == x.pc.d else y.pc.d < |cond| && !cond[y.pc.d]
  {
  }

  /** A wakeup still to come stays so for a process that is not woken. */
  lemma StillCovers(sys: System, s: State, p: nat, a: Action, s': State, q: nat, d: nat, w: nat)
    requires AsInSource(sys) && Next(sys, s, p, a, s') && q < sys.n && w < sys.n
    requires ProcOk(sys, s.procs[q]) && ProcOk(sys, s.procs[p]) && Agrees(sys, s, q, 0) && Agrees(sys, s, p, 0)
    requires Committed(s.procs[q]) && Committed(s'.procs[q]) && d == s.procs[q].pc.d
    requires Covers(sys, s.procs[w].pc, q, d)
    ensures Covers(sys, s'.procs[w].pc, q, d)
  {
    if w == p {
      assert q != p;
      if a.ScanOne? && s.procs[p].pc.Scan? && s.procs[p].pc.i == q {
        ScanWakes(sys, s.procs[p], s.procs[q], d);
      }
      CoverStep(sys, s.procs[p], s.cond, a, q, d);
    } else {
      assert s'.procs[w].pc == s.procs[w].pc;
    }
  }

  /** A scan that comes past a sleeper on its channel wakes it. */
  lemma ScanWakes(sys: System, x: Proc, y: Proc, d: nat)
    requires x.pc.Scan? && ProcOk(sys, y) && Committed(y) && d == y.pc.d && Holds(sys, x.pc, 0)
    requires !Holds(sys, y.pc, 0)
    ensures x.pc.c == ChanOf(sys, d) ==> Wake(y, x.pc.c).state == RUNNABLE
  {
  }

  /** The waker's own step: it still owes the wakeup, or it scans and has not come to `q`, or it just passes `q` on
      another channel. */
  lemma CoverStep(sys: System, x: Proc, cond: seq<bool>, a: Action, q: nat, d: nat)
    requires Local(sys, x, cond, a).Some? && Covers(sys, x.pc, q, d) && q < sys.n && d < |sys.chan|
    requires a.ScanOne? && x.pc.Scan? && x.pc.i == q ==> x.pc.c != sys.chan[d]
    ensures Covers(sys, Local(sys, x, cond, a).value.proc.pc, q, d)
  {
  }

  lemma NoneLostKept(sys: System, s: State, p: nat, a: Action, s': State, q: nat)
    requires AsInSource(sys) && Inv(sys, s) && Next(sys, s, p, a, s') && q < sys.n
    requires InSystem(sys, s') && ProcOk(sys, s'.procs[q])
    requires Committed(s'.procs[q]) && s'.cond[s'.procs[q].pc.d]
    ensures Covered(sys, s', q, s'.procs[q].pc.d)
  {
    assert Agrees(sys, s, q, 0) && Agrees(sys, s, p, 0);
    CommittedBefore(sys, s, p, a, s', q);
    var d := s'.procs[q].pc.d;
    if !s.cond[d] {
      assert Covers(sys, s'.procs[p].pc, q, d);
    } else {
      var w :| 0 <= w < sys.n && Covers(sys, s.procs[w].pc, q, d);
      StillCovers(sys, s, p, a, s', q, d, w);
    }
  }

  lemma StepKeepsInv(sys: System, s: State, p: nat, a: Action, s': State)
    requires AsInSource(sys) && Inv(sys, s) && Next(sys, s, p, a, s')
    ensures Inv(sys, s')
  {
    forall q, l | 0 <= q < sys.n && 0 <= l < sys.locks ensures InSystem(sys, s') && Agrees(sys, s', q, l) {
      LockKept(sys, s, p, a, s', q, l);
    }
    forall q | 0 <= q < sys.n ensures ProcOk(sys, s'.procs[q]) {
      ProcKept(sys, s, p, a, s', q);
    }
    forall q | 0 <= q < sys.n && (s'.procs[q].pc.SleepWant? || s'.procs[q].pc.SleepBoth?)
      ensures !s'.cond[s'.procs[q].pc.d]
    {
      StaysFalse(sys, s, p, a, s', q);
    }
    forall q | 0 <= q < sys.n && Committed(s'.procs[q]) && s'.cond[s'.procs[q].pc.d]
      ensures Covered(sys, s', q, s'.procs[q].pc.d)
    {
      NoneLostKept(sys, s, p, a, s', q);
    }
  }

  lemma {:induction false} TraceKeepsInv(sys: System, s: State, run: seq<Event>)
    requires AsInSource(sys) && Inv(sys, s) && Trace(sys, s, run)
    ensures Inv(sys, Last(s, run))
    decreases |run|
  {
    if run != [] {
      StepKeepsInv(sys, s, run[0].p, run[0].a, run[0].after);
      TraceKeepsInv(sys, run[0].after, run[1..]);
    }
  }

  // ------------------------------------------------------------------ what holds over every run

  /** A process sleeps although what it waits for holds and no wakeup is on its way to it. */
  ghost predicate Lost(sys: System, s: State) {
    exists p :: 0 <= p < |s.procs| && Stuck(sys, s, p)
  }

  ghost predicate Stuck(sys: System, s: State, p: nat)
    requires p < |s.procs|
  {
    var x := s.procs[p];
    x.state == SLEEPING && x.pc.Asleep? && x.pc.d < |s.cond| && s.cond[x.pc.d] && !Covered(sys, s, p, x.pc.d)
  }

  ghost predicate Start(sys: System, cond: seq<bool>) {
    Sensible(sys) && |cond| == |sys.lock|
  }

  /** `w` is awake, made condition `d` true, and its wakeup has yet to come past `p`. */
  ghost predicate Waker(sys: System, s: State, p: nat, d: nat, w: nat) {
    w < |s.procs| && w != p && s.procs[w].state != SLEEPING && Covers(sys, s.procs[w].pc, p, d)
  }

  /** In every run, a process that is SLEEPING sleeps on the channel of its condition, and if that condition
      holds there is a waker on its way. */
  lemma NoLostWakeup(sys: System, cond: seq<bool>, run: seq<Event>, p: nat)
    requires Start(sys, cond) && AsInSource(sys) && Trace(sys, Init(sys, cond), run) && p < sys.n
    ensures var s := Last(Init(sys, cond), run);
      && InSystem(sys, s)
      && (s.procs[p].state == SLEEPING ==>
            && (s.procs[p].pc.SleepSched? || s.procs[p].pc.Asleep?)
            && var d := s.procs[p].pc.d;
               && d < |sys.chan| && s.procs[p].chan == Some(sys.chan[d])
               && (s.cond[d] ==> exists w :: Waker(sys, s, p, d, w)))
    ensures !Lost(sys, Last(Init(sys, cond), run))
  {
    TraceKeepsInv(sys, Init(sys, cond), run);
    var s := Last(Init(sys, cond), run);
    assert ProcOk(sys, s.procs[p]);
    if s.procs[p].state == SLEEPING && s.cond[s.procs[p].pc.d] {
      var w :| 0 <= w < sys.n && Covers(sys, s.procs[w].pc, p, s.procs[p].pc.d);
      assert ProcOk(sys, s.procs[w]);
      assert Waker(sys, s, p, s.procs[p].pc.d, w);
    }
  }

  /** Once every change has been followed by its wakeup, no process sleeps on a condition that holds. */
  lemma QuietMeansNoneMissed(sys: System, cond: seq<bool>, run: seq<Event>, p: nat)
    requires Start(sys, cond) && AsInSource(sys) && Trace(sys, Init(sys, cond), run) && p < sys.n
    requires var s := Last(Init(sys, cond), run); forall w :: 0 <= w < |s.procs| ==> Owes(s.procs[w].pc) == {}
    ensures var s := Last(Init(sys, cond), run);
      && InSystem(sys, s)
      && (s.procs[p].state == SLEEPING ==>
            (s.procs[p].pc.SleepSched? || s.procs[p].pc.Asleep?) && s.procs[p].pc.d < |s.cond|
              && !s.cond[s.procs[p].pc.d])
  {
    NoLostWakeup(sys, cond, run, p);
  }

  /** The process is somewhere in sleep, for condition `d`. */
  predicate Inside(pc: Pc, d: nat) {
    !pc.Run? && !pc.WakeWant? && !pc.Scan? && pc.d == d
  }

  lemma StaysInside(sys: System, s: State, q: nat, a: Action, s': State, p: nat, d: nat)
    requires AsInSource(sys) && Inv(sys, s) && Next(sys, s, q, a, s') && p < sys.n && Inside(s.procs[p].pc, d)
    ensures Inside(s'.procs[p].pc, d) || (s'.procs[p].pc == Run(Some(LockOf(sys, d)), {}) && d < |sys.lock|)
  {
    assert ProcOk(sys, s.procs[p]);
    if p != q {
      assert s'.procs[p].pc == s.procs[p].pc;
    }
  }

  ghost predicate InOwnCode(s: State, p: nat) {
    p < |s.procs| && s.procs[p].pc.Run?
  }

  /** `p` runs, waits for nothing and has the lock of condition `d`. */
  ghost predicate HasLock(sys: System, s: State, p: nat, d: nat) {
    && d < |sys.lock| && sys.lock[d] < |s.locks| && s.locks[sys.lock[d]] == By(p)
    && p < |s.procs| && s.procs[p].state == RUNNING && s.procs[p].chan == None
  }

  lemma ReturnStep(sys: System, s: State, q: nat, a: Action, s': State, p: nat, d: nat)
    requires AsInSource(sys) && Inv(sys, s) && Next(sys, s, q, a, s') && p < sys.n && Inside(s.procs[p].pc, d)
    requires InOwnCode(s', p)
    ensures HasLock(sys, s', p, d)
  {
    StaysInside(sys, s, q, a, s', p, d);
    StepKeepsInv(sys, s, q, a, s');
    assert Agrees(sys, s', p, sys.lock[d]) && ProcOk(sys, s'.procs[p]);
  }

  lemma {:induction false} ReturnsFrom(sys: System, s: State, run: seq<Event>, p: nat, d: nat, j: nat)
    requires AsInSource(sys) && Inv(sys, s) && Trace(sys, s, run) && p < sys.n && Inside(s.procs[p].pc, d)
    requires j < |run| && (forall k :: 0 <= k < j ==> !InOwnCode(run[k].after, p)) && InOwnCode(run[j].after, p)
    ensures HasLock(sys, run[j].after, p, d)
    decreases j
  {
    var e := run[0];
    if j == 0 {
      ReturnStep(sys, s, e.p, e.a, e.after, p, d);
    } else {
      StepKeepsInv(sys, s, e.p, e.a, e.after);
      StaysInside(sys, s, e.p, e.a, e.after, p, d);
      ReturnsFrom(sys, e.after, run[1..], p, d, j - 1);
    }
  }

  lemma {:induction false} ReturnsAfter(sys: System, s: State, run: seq<Event>, p: nat, d: nat, i: nat, j: nat)
    requires AsInSource(sys) && Inv(sys, s) && Trace(sys, s, run) && p < sys.n
    requires i < j < |run| && run[i].p == p && run[i].a == CallSleep(d)
    requires (forall k :: i <= k < j ==> !InOwnCode(run[k].after, p)) && InOwnCode(run[j].after, p)
    ensures HasLock(sys, run[j].after, p, d)
    decreases i
  {
    var e := run[0];
    StepKeepsInv(sys, s, e.p, e.a, e.after);
    if i == 0 {
      CallGoesInside(sys, s, p, e.after, d);
      ReturnsFrom(sys, e.after, run[1..], p, d, j - 1);
    } else {
      ReturnsAfter(sys, e.after, run[1..], p, d, i - 1, j - 1);
    }
  }

  lemma CallGoesInside(sys: System, s: State, p: nat, s': State, d: nat)
    requires Next(sys, s, p, CallSleep(d), s')
    ensures Inside(s'.procs[p].pc, d)
  {
  }

  /** In every run, a process that calls sleep has its lock when it is next in its own code. */
  lemma SleepReturnsLocked(sys: System, cond: seq<bool>, run: seq<Event>, p: nat, d: nat, i: nat, j: nat)
    requires Start(sys, cond) && AsInSource(sys) && Trace(sys, Init(sys, cond), run) && p < sys.n
    requires i < j < |run| && run[i].p == p && run[i].a == CallSleep(d)
    requires (forall k :: i <= k < j ==> !InOwnCode(run[k].after, p)) && InOwnCode(run[j].after, p)
    ensures HasLock(sys, run[j].after, p, d)
  {
    ReturnsAfter(sys, Init(sys, cond), run, p, d, i, j);
  }

  /** In every run, a process that is switched out in sleep holds no lock, not even the caller's. */
  lemma SleepersHoldNothing(sys: System, cond: seq<bool>, run: seq<Event>, p: nat, l: nat)
    requires Start(sys, cond) && AsInSource(sys) && Trace(sys, Init(sys, cond), run) && p < sys.n && l < sys.locks
    ensures var s := Last(Init(sys, cond), run);
      |s.procs| == sys.n && |s.locks| == sys.locks && (s.procs[p].pc.Asleep? ==> s.locks[l] != By(p))
  {
    TraceKeepsInv(sys, Init(sys, cond), run);
    assert Agrees(sys, Last(Init(sys, cond), run), p, l);
  }

  lemma KillStep(sys: System, s: State, p: nat, target: nat, s': State, q: nat)
    requires Next(sys, s, p, Kill(target), s') && q < sys.n && sys.locks >= 1
    requires Agrees(sys, s, p, 0) && ProcOk(sys, s.procs[p])
    ensures s.locks[0] == By(p)
    ensures s'.procs[q].state == SLEEPING <==> s.procs[q].state == SLEEPING && q != target
    ensures s.procs[q].state == SLEEPING && q == target ==> s'.procs[q].state == RUNNABLE
  {
    assert s.procs[p].pc.Run? && s.procs[p].pc.lk == Some(0);
  }

  /** In every run, whoever kill is told to kill does not sleep when it is done, and nobody else is woken by it. */
  lemma KillWakes(sys: System, cond: seq<bool>, run: seq<Event>, p: nat, target: nat, s': State, q: nat)
    requires Start(sys, cond) && AsInSource(sys) && Trace(sys, Init(sys, cond), run) && q < sys.n
    requires Next(sys, Last(Init(sys, cond), run), p, Kill(target), s')
    ensures var s := Last(Init(sys, cond), run);
      && s.locks[0] == By(p)
      && (s'.procs[q].state == SLEEPING <==> s.procs[q].state == SLEEPING && q != target)
      && (s.procs[q].state == SLEEPING && q == target ==> s'.procs[q].state == RUNNABLE)
  {
    TraceKeepsInv(sys, Init(sys, cond), run);
    var s := Last(Init(sys, cond), run);
    assert Agrees(sys, s, p, 0) && ProcOk(sys, s.procs[p]);
    KillStep(sys, s, p, target, s', q);
  }

  /** No two processes hold a lock at once. */
  lemma MutualExclusion(sys: System, cond: seq<bool>, run: seq<Event>, p: nat, q: nat, l: nat)
    requires Start(sys, cond) && AsInSource(sys) && Trace(sys, Init(sys, cond), run) && p < sys.n && q < sys.n
    requires l < sys.locks
    ensures var s := Last(Init(sys, cond), run);
      |s.procs| == sys.n && (Holds(sys, s.procs[p].pc, l) && Holds(sys, s.procs[q].pc, l) ==> p == q)
  {
    TraceKeepsInv(sys, Init(sys, cond), run);
    var s := Last(Init(sys, cond), run);
    assert Agrees(sys, s, p, l) && Agrees(sys, s, q, l);
  }

  /** What the process that has ptable.lock does next. */
  function HolderAction(pc: Pc, n: nat): Action {
    match pc
    case Scan(_, _, _, i) => if i < n then ScanOne else ScanDone
    case SleepBoth(_) => SleepSecond
    case SleepSet(_) => SetChan
    case SleepMark(_) => SetState
    case SleepSched(_) => Sched
    case Woken(_) => Tidy
    case WokenRelease(_) => LetGo
    case _ => Release
  }

  /** The state after a step that changes no condition. */
  ghost function Stepped(s: State, p: nat, a: Action, e: Effect): State
    requires p < |s.procs| && Possible(s.locks, e.op)
  {
    State(seq(|s.procs|, q requires 0 <= q < |s.procs| =>
      if q == p then e.proc else Other(s.procs[p].pc, a, s.procs[q], q)),
          Apply(s.locks, e.op, p), s.cond)
  }

  lemma Steps(sys: System, s: State, p: nat, a: Action, e: Effect)
    requires InSystem(sys, s) && p < sys.n && !a.Change? && Local(sys, s.procs[p], s.cond, a) == Some(e)
    requires Possible(s.locks, e.op)
    ensures Next(sys, s, p, a, Stepped(s, p, a, e))
  {
  }

  /** In every run ptable.lock is free for the taking, or whoever has it, scheduler or process, has a step to
      make: no run ends in a dead end. */
  lemma NeverStuck(sys: System, cond: seq<bool>, run: seq<Event>) returns (p: nat, a: Action, s': State)
    requires Start(sys, cond) && AsInSource(sys) && Trace(sys, Init(sys, cond), run) && sys.n >= 1
    ensures Next(sys, Last(Init(sys, cond), run), p, a, s')
    ensures var s := Last(Init(sys, cond), run);
      match s.locks[0] { case Free => a.SchedAcquire? case Scheduler => a.SchedRelease? case By(q) => p == q }
  {
    TraceKeepsInv(sys, Init(sys, cond), run);
    var s := Last(Init(sys, cond), run);
    match s.locks[0] {
      case Free => p, a := 0, SchedAcquire;
      case Scheduler => p, a := 0, SchedRelease;
      case By(q) =>
        p, a := q, HolderAction(s.procs[q].pc, sys.n);
        assert Agrees(sys, s, q, 0);
        HolderCan(sys, s.procs[q], s.cond, s.locks);
    }
    var e := Local(sys, s.procs[p], s.cond, a).value;
    Steps(sys, s, p, a, e);
    s' := Stepped(s, p, a, e);
  }

  lemma HolderCan(sys: System, x: Proc, cond: seq<bool>, locks: seq<Owner>)
    requires AsInSource(sys) && Sensible(sys) && |locks| == sys.locks && ProcOk(sys, x) && Holds(sys, x.pc, 0)
    ensures var r := Local(sys, x, cond, HolderAction(x.pc, sys.n));
      r.Some? && (r.value.op == Keep || r.value.op == ToScheduler || r.value.op.Drop?) && Possible(locks, r.value.op)
  {
  }

  // ------------------------------------------------------------------ both rules are needed

  ghost predicate CanLose(sys: System, cond: seq<bool>) {
    exists run :: Loses(sys, Init(sys, cond), run)
  }

  ghost predicate Loses(sys: System, s: State, run: seq<Event>) {
    Trace(sys, s, run) && Lost(sys, Last(s, run))
  }

  ghost function Losing(sys: System, s: State, run: seq<Event>): Status {
    if forall k {:trigger Open(k)} :: k == 0 ==> Loses(sys, s, run) then Sound else Broken
  }

  /** A system with two processes, and a condition `d` that is false and has a lock of its own. */
  ghost predicate Scene(sys: System, d: nat, cond: seq<bool>) {
    Start(sys, cond) && sys.n >= 2 && d < |cond| && sys.lock[d] != 0 && !cond[d]
  }

  function Here(pc: Pc): Proc {
    Proc(pc, RUNNING, None)
  }

  /** Process 0 is the sleeper, process 1 the other one; `l0` has ptable.lock, `l1` the lock of the condition, which is
      `c`. Everybody and everything else is as at the start. */
  function Stage(sys: System, d: nat, cond: seq<bool>, x: Proc, y: Proc, l0: Owner, l1: Owner, c: bool): (s: State)
    requires d < |cond|
    ensures |s.procs| == sys.n && |s.locks| == sys.locks && s.cond == cond[d := c]
    ensures forall i {:trigger s.procs[i]} :: 0 <= i < sys.n ==>
      s.procs[i] == if i == 0 then x else if i == 1 then y else Here(Run(None, {}))
    ensures forall l {:trigger s.locks[l]} :: 0 <= l < sys.locks ==>
      s.locks[l] == if l == 0 then l0 else if l == LockOf(sys, d) then l1 else Free
  {
    State(seq(sys.n, i => if i == 0 then x else if i == 1 then y else Here(Run(None, {}))),
          seq(sys.locks, l => if l == 0 then l0 else if l == LockOf(sys, d) then l1 else Free), cond[d := c])
  }

  /** What a step does to the two locks. */
  predicate LockStep(op: Op, l: nat, p: nat, l0: Owner, l1: Owner, l0': Owner, l1': Owner) {
    match op
    case Keep => l0' == l0 && l1' == l1
    case Take(k) => if k == 0 then l0 == Free && l0' == By(p) && l1' == l1
                    else k == l && l1 == Free && l1' == By(p) && l0' == l0
    case Drop(k) => if k == 0 then l0' == Free && l1' == l1 else k == l && l1' == Free && l0' == l0
    case ToScheduler => l0' == Scheduler && l1' == l1
    case _ => false
  }

  /** A step of either process that leaves the conditions and the other process alone. */
  lemma Before(sys: System, d: nat, cond: seq<bool>, c: bool, p: nat, a: Action, x: Proc, y: Proc, l0: Owner, l1: Owner,
               x': Proc, y': Proc, l0': Owner, l1': Owner, run: seq<Event>)
    returns (run': seq<Event>)
    requires Scene(sys, d, cond) && p < 2 && !a.Change? && !a.Kill?
    requires if p == 0 then y' == y && y.state != SLEEPING else x' == x && x.state != SLEEPING
    requires var e := Local(sys, if p == 0 then x else y, cond[d := c], a);
      && e.Some? && e.value.proc == (if p == 0 then x' else y')
      && LockStep(e.value.op, LockOf(sys, d), p, l0, l1, l0', l1')
    requires Losing(sys, Stage(sys, d, cond, x', y', l0', l1', c), run) == Sound
    ensures Losing(sys, Stage(sys, d, cond, x, y, l0, l1, c), run') == Sound
  {
    var s, s' := Stage(sys, d, cond, x, y, l0, l1, c), Stage(sys, d, cond, x', y', l0', l1', c);
    var e := Local(sys, if p == 0 then x else y, cond[d := c], a).value;
    StageLocks(sys, d, cond, c, p, e.op, x, y, l0, l1, x', y', l0', l1');
    StageProcs(sys, d, cond, c, p, a, x, y, l0, l1, x', y', l0', l1');
    assert s.procs[p] == if p == 0 then x else y;
    assert Next(sys, s, p, a, s');
    run' := First(sys, s, p, a, s', run);
  }

  lemma StageLocks(sys: System, d: nat, cond: seq<bool>, c: bool, p: nat, op: Op, x: Proc, y: Proc, l0: Owner,
                   l1: Owner, x': Proc, y': Proc, l0': Owner, l1': Owner)
    requires Scene(sys, d, cond) && LockStep(op, LockOf(sys, d), p, l0, l1, l0', l1')
    ensures var s, s' := Stage(sys, d, cond, x, y, l0, l1, c), Stage(sys, d, cond, x', y', l0', l1', c);
      Possible(s.locks, op) && s'.locks == Apply(s.locks, op, p)
  {
  }

  lemma StageProcs(sys: System, d: nat, cond: seq<bool>, c: bool, p: nat, a: Action, x: Proc, y: Proc, l0: Owner,
                   l1: Owner, x': Proc, y': Proc, l0': Owner, l1': Owner)
    requires Scene(sys, d, cond) && p < 2 && !a.Kill?
    requires if p == 0 then y' == y && y.state != SLEEPING else x' == x && x.state != SLEEPING
    ensures var s, s' := Stage(sys, d, cond, x, y, l0, l1, c), Stage(sys, d, cond, x', y', l0', l1', c);
      forall q :: 0 <= q < sys.n ==>
        s'.procs[q] == if q == p then (if p == 0 then x' else y') else Other(s.procs[p].pc, a, s.procs[q], q)
  {
    var s, s' := Stage(sys, d, cond, x, y, l0, l1, c), Stage(sys, d, cond, x', y', l0', l1', c);
    forall q | 0 <= q < sys.n && q != p ensures s'.procs[q] == Other(s.procs[p].pc, a, s.procs[q], q) {
      assert s.procs[q].state != SLEEPING && s'.procs[q] == s.procs[q];
    }
  }

  lemma First(sys: System, s: State, p: nat, a: Action, s': State, run: seq<Event>) returns (run': seq<Event>)
    requires Next(sys, s, p, a, s') && Losing(sys, s', run) == Sound
    ensures Losing(sys, s, run') == Sound
  {
    assert Open(0);
    run' := [Event(p, a, s')] + run;
    assert run'[1..] == run;
    assert Last(s, run') == Last(s', run);
    assert Loses(sys, s, run');
  }

  /** Process 1 makes the condition true. */
  lemma BeforeChange(sys: System, d: nat, cond: seq<bool>, x: Proc, lk: Option<nat>, l1: Owner, run: seq<Event>)
    returns (run': seq<Event>)
    requires Scene(sys, d, cond) && (sys.locked ==> lk == Some(LockOf(sys, d)))
    requires Losing(sys, Stage(sys, d, cond, x, Here(Run(lk, {d})), Free, l1, true), run) == Sound
    ensures Losing(sys, Stage(sys, d, cond, x, Here(Run(lk, {})), Free, l1, false), run') == Sound
  {
    var s := Stage(sys, d, cond, x, Here(Run(lk, {})), Free, l1, false);
    var s' := Stage(sys, d, cond, x, Here(Run(lk, {d})), Free, l1, true);
    assert {} + Risen(s.cond, s'.cond) == {d};
    assert Next(sys, s, 1, Change(s'.cond), s');
    run' := First(sys, s, 1, Change(s'.cond), s', run);
  }

  /** The sleeper of `d` once it is SLEEPING. */
  function Sleeper(sys: System, d: nat, pc: Pc): Proc {
    Proc(pc, SLEEPING, Some(ChanOf(sys, d)))
  }

  lemma AlreadyLost(sys: System, d: nat, cond: seq<bool>, lk: Option<nat>, l1: Owner)
    requires Scene(sys, d, cond)
    ensures Losing(sys, Stage(sys, d, cond, Sleeper(sys, d, Asleep(d)), Here(Run(lk, {})), Scheduler, l1, true), [])
      == Sound
  {
    var s := Stage(sys, d, cond, Sleeper(sys, d, Asleep(d)), Here(Run(lk, {})), Scheduler, l1, true);
    forall w | 0 <= w < |s.procs| ensures !Covers(sys, s.procs[w].pc, 0, d) {
      assert Owes(s.procs[w].pc) == {};
    }
    assert Stuck(sys, s, 0);
    assert Loses(sys, s, []);
  }

  /** The condition holds and the wakeup is over, but the sleeper goes on to sleep. */
  lemma Doomed(sys: System, d: nat, cond: seq<bool>, lk: Option<nat>, l1: Owner) returns (run: seq<Event>)
    requires Scene(sys, d, cond)
    ensures Losing(sys, Stage(sys, d, cond, Here(SleepSet(d)), Here(Run(lk, {})), By(0), l1, true), run) == Sound
  {
    var y, marked := Here(Run(lk, {})), Proc(SleepMark(d), RUNNING, Some(ChanOf(sys, d)));
    run := DoomedAsleep(sys, d, cond, lk, l1);
    run := Before(sys, d, cond, true, 0, SetState, marked, y, By(0), l1, Sleeper(sys, d, SleepSched(d)), y, By(0), l1,
                  run);
    run := Before(sys, d, cond, true, 0, SetChan, Here(SleepSet(d)), y, By(0), l1, marked, y, By(0), l1, run);
  }

  lemma DoomedAsleep(sys: System, d: nat, cond: seq<bool>, lk: Option<nat>, l1: Owner) returns (run: seq<Event>)
    requires Scene(sys, d, cond)
    ensures Losing(sys, Stage(sys, d, cond, Sleeper(sys, d, SleepSched(d)), Here(Run(lk, {})), By(0), l1, true), run)
      == Sound
  {
    var y := Here(Run(lk, {}));
    AlreadyLost(sys, d, cond, lk, l1);
    run := Before(sys, d, cond, true, 0, Sched, Sleeper(sys, d, SleepSched(d)), y, By(0), l1,
                  Sleeper(sys, d, Asleep(d)), y, Scheduler, l1, []);
  }

  /** The other process runs wakeup1, from the `i`-th process on, while the sleeper is not yet SLEEPING. */
  lemma {:induction false} ScanTooSoon(sys: System, d: nat, cond: seq<bool>, pc: Pc, lk: Option<nat>, l1: Owner, i: nat,
                                       run: seq<Event>)
    returns (run': seq<Event>)
    requires Scene(sys, d, cond) && lk != Some(0) && i <= sys.n
    requires Losing(sys, Stage(sys, d, cond, Here(pc), Here(Run(lk, {})), Free, l1, true), run) == Sound
    ensures Losing(sys, Stage(sys, d, cond, Here(pc), Here(Scan(lk, {d}, ChanOf(sys, d), i)), By(1), l1, true), run')
      == Sound
    decreases sys.n - i
  {
    var c := ChanOf(sys, d);
    if i == sys.n {
      assert Settle(sys, {d}, c) == {};
      run' := Before(sys, d, cond, true, 1, ScanDone, Here(pc), Here(Scan(lk, {d}, c, i)), By(1), l1,
                     Here(pc), Here(Run(lk, {})), Free, l1, run);
    } else {
      run' := ScanTooSoon(sys, d, cond, pc, lk, l1, i + 1, run);
      run' := Before(sys, d, cond, true, 1, ScanOne, Here(pc), Here(Scan(lk, {d}, c, i)), By(1), l1,
                     Here(pc), Here(Scan(lk, {d}, c, i + 1)), By(1), l1, run');
    }
  }

  lemma WakeupTooSoon(sys: System, d: nat, cond: seq<bool>, pc: Pc, lk: Option<nat>, l1: Owner, run: seq<Event>)
    returns (run': seq<Event>)
    requires Scene(sys, d, cond) && lk != Some(0)
    requires Losing(sys, Stage(sys, d, cond, Here(pc), Here(Run(lk, {})), Free, l1, true), run) == Sound
    ensures Losing(sys, Stage(sys, d, cond, Here(pc), Here(Run(lk, {d})), Free, l1, true), run') == Sound
  {
    var c := ChanOf(sys, d);
    var want := Here(WakeWant(lk, {d}, c));
    run' := ScanTooSoon(sys, d, cond, pc, lk, l1, 0, run);
    run' := Before(sys, d, cond, true, 1, WakeAcquire, Here(pc), want, Free, l1,
                   Here(pc), Here(Scan(lk, {d}, c, 0)), By(1), l1, run');
    run' := Before(sys, d, cond, true, 1, CallWakeup(c), Here(pc), Here(Run(lk, {d})), Free, l1,
                   Here(pc), want, Free, l1, run');
  }

  /** Without the handover, the change and the wakeup fit between release(lk) and acquire(&ptable.lock). */
  lemma LostWithoutHandover(sys: System, d: nat, cond: seq<bool>) returns (run: seq<Event>)
    requires Scene(sys, d, cond) && !sys.handover
    ensures Losing(sys, Init(sys, cond), run) == Sound
  {
    var lk := Some(LockOf(sys, d));
    run := Doomed(sys, d, cond, lk, By(1));
    run := Before(sys, d, cond, true, 0, SleepSecond, Here(SleepGap(d)), Here(Run(lk, {})), Free, By(1),
                  Here(SleepSet(d)), Here(Run(lk, {})), By(0), By(1), run);
    run := WakeupTooSoon(sys, d, cond, SleepGap(d), lk, By(1), run);
    run := BeforeChange(sys, d, cond, Here(SleepGap(d)), lk, By(1), run);
    run := IntoTheGap(sys, d, cond, run);
  }

  lemma IntoTheGap(sys: System, d: nat, cond: seq<bool>, run: seq<Event>) returns (run': seq<Event>)
    requires Scene(sys, d, cond) && !sys.handover
    requires var other := Here(Run(Some(LockOf(sys, d)), {}));
      Losing(sys, Stage(sys, d, cond, Here(SleepGap(d)), other, Free, By(1), false), run) == Sound
    ensures Losing(sys, Init(sys, cond), run') == Sound
  {
    var l := LockOf(sys, d);
    var free := Here(Run(None, {}));
    run' := Before(sys, d, cond, false, 1, Acquire(l), Here(SleepGap(d)), free, Free, Free,
                   Here(SleepGap(d)), Here(Run(Some(l), {})), Free, By(1), run);
    run' := Before(sys, d, cond, false, 0, SleepFirst, Here(SleepWant(d)), free, Free, By(0),
                   Here(SleepGap(d)), free, Free, Free, run');
    run' := FallsAsleep(sys, d, cond, run');
  }

  /** Without the lock, they fit between the test of the condition and acquire(&ptable.lock). */
  lemma LostWithoutLock(sys: System, d: nat, cond: seq<bool>) returns (run: seq<Event>)
    requires Scene(sys, d, cond) && sys.handover && !sys.locked
    ensures Losing(sys, Init(sys, cond), run) == Sound
  {
    run := IntoSleep(sys, d, cond);
    run := WakeupTooSoon(sys, d, cond, SleepWant(d), None, By(0), run);
    run := BeforeChange(sys, d, cond, Here(SleepWant(d)), None, By(0), run);
    run := FallsAsleep(sys, d, cond, run);
  }

  lemma IntoSleep(sys: System, d: nat, cond: seq<bool>) returns (run: seq<Event>)
    requires Scene(sys, d, cond) && sys.handover
    ensures Losing(sys, Stage(sys, d, cond, Here(SleepWant(d)), Here(Run(None, {})), Free, By(0), true), run) == Sound
  {
    var free := Here(Run(None, {}));
    run := Doomed(sys, d, cond, None, Free);
    run := Before(sys, d, cond, true, 0, SleepSecond, Here(SleepBoth(d)), free, By(0), By(0),
                  Here(SleepSet(d)), free, By(0), Free, run);
    run := Before(sys, d, cond, true, 0, SleepFirst, Here(SleepWant(d)), free, Free, By(0),
                  Here(SleepBoth(d)), free, By(0), By(0), run);
  }

  /** The sleeper takes its lock, finds the condition false and calls sleep. */
  lemma FallsAsleep(sys: System, d: nat, cond: seq<bool>, run: seq<Event>) returns (run': seq<Event>)
    requires Scene(sys, d, cond)
    requires Losing(sys, Stage(sys, d, cond, Here(SleepWant(d)), Here(Run(None, {})), Free, By(0), false), run) == Sound
    ensures Losing(sys, Init(sys, cond), run') == Sound
  {
    var l := LockOf(sys, d);
    var free := Here(Run(None, {}));
    run' := Before(sys, d, cond, false, 0, CallSleep(d), Here(Run(Some(l), {})), free, Free, By(0),
                   Here(SleepWant(d)), free, Free, By(0), run);
    run' := Before(sys, d, cond, false, 0, Acquire(l), free, free, Free, Free,
                   Here(Run(Some(l), {})), free, Free, By(0), run');
    assert Init(sys, cond) == Stage(sys, d, cond, free, free, Free, Free, false);
  }

  /** In every system with two processes and a condition that is false and has a lock of its own, a wakeup can be lost
      exactly when one of the two rules is broken. */
  lemma BothRulesNeeded(sys: System, d: nat, cond: seq<bool>)
    requires Scene(sys, d, cond)
    ensures CanLose(sys, cond) <==> !(sys.handover && sys.locked)
  {
    var s := Init(sys, cond);
    if !sys.handover {
      var run := LostWithoutHandover(sys, d, cond);
      assert Loses(sys, s, run) by {
        assert Open(0);
      }
    } else if !sys.locked {
      var run := LostWithoutLock(sys, d, cond);
      assert Loses(sys, s, run) by {
        assert Open(0);
      }
    } else {
      forall run | Trace(sys, s, run) ensures !Lost(sys, Last(s, run)) {
        NoLostWakeup(sys, cond, run, 0);
      }
    }
  }
}
