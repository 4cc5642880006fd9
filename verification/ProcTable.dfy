/** proc.c: the process table under fork, exit, wait, wakeup and kill. */
module ProcModel {
  import opened Basics
  import opened Sealed

  datatype ProcState = UNUSED | EMBRYO | SLEEPING | RUNNABLE | RUNNING | ZOMBIE

  /** wait sleeps on the address of the waiting process's own table entry. */
  datatype Chan = NoChan | Entry(slot: nat) | Elsewhere(c: nat)

  datatype Proc = Proc(state: ProcState, pid: nat, parent: Option<nat>, chan: Chan, killed: bool)

  predicate Live(x: Proc) {
    x.state == SLEEPING || x.state == RUNNABLE || x.state == RUNNING
  }

  /** A process that fork has finished with and wait has not. */
  predicate Used(x: Proc) {
    Live(x) || x.state == ZOMBIE
  }

  predicate Child(x: Proc, p: nat) {
    x.parent == Some(p)
  }

  /** The parent of a used process is live and older. */
  predicate ParentOk(t: seq<Proc>, init: nat, i: nat)
    requires i < |t|
  {
    if Used(t[i]) && i != init then
      && t[i].parent.Some? && t[i].parent.value < |t|
      && Live(t[t[i].parent.value]) && t[t[i].parent.value].pid < t[i].pid
    else t[i].parent == None
  }

  ghost predicate Family(t: seq<Proc>, init: nat) {
    && init < |t| && Live(t[init])
    && (forall i {:trigger ParentOk(t, init, i)} :: 0 <= i < |t| ==> ParentOk(t, init, i))
    && forall i :: 0 <= i < |t| && t[i].state != UNUSED && i != init ==> t[init].pid < t[i].pid
  }

  ghost predicate PidsOk(t: seq<Proc>, nextpid: nat) {
    && (forall i :: 0 <= i < |t| ==> t[i].pid < nextpid)
    && forall i, j :: 0 <= i < j < |t| && t[i].state != UNUSED && t[j].state != UNUSED ==> t[i].pid != t[j].pid
  }

  predicate WaitsAt(x: Proc, p: nat) {
    x.state == SLEEPING && x.chan == Entry(p)
  }

  /** Nobody sleeps in wait while it has a ZOMBIE child. */
  ghost predicate NoneMissed(t: seq<Proc>) {
    forall i, j :: 0 <= i < |t| && 0 <= j < |t| && WaitsAt(t[i], i) && t[j].state == ZOMBIE ==> !Child(t[j], i)
  }

  /** Every EMBRYO is being made by a live, older process. */
  ghost predicate MakersOk(t: seq<Proc>, maker: map<nat, nat>) {
    && (forall i :: i in maker ==>
        i < |t| && t[i].state == EMBRYO && maker[i] < |t| && Live(t[maker[i]]) && t[maker[i]].pid < t[i].pid)
    && forall i :: 0 <= i < |t| && t[i].state == EMBRYO ==> i in maker
  }

  ghost predicate IsZombie(t: seq<Proc>, pid: nat) {
    exists i :: 0 <= i < |t| && t[i].state == ZOMBIE && t[i].pid == pid
  }

  /** The exited processes are those that wait has returned and those that are ZOMBIE, each once. */
  ghost predicate Accounts(t: seq<Proc>, nextpid: nat, exited: seq<nat>, reaped: seq<nat>) {
    && Distinct(exited) && Distinct(reaped)
    && (forall pid :: pid in exited ==> pid < nextpid)
    && (forall pid :: pid in exited <==> pid in reaped || IsZombie(t, pid))
    && (forall i :: 0 <= i < |t| && t[i].state != UNUSED ==> t[i].pid !in reaped)
    && forall i :: 0 <= i < |t| && (t[i].state == EMBRYO || Live(t[i])) ==> t[i].pid !in exited
  }

  ghost predicate TableOk(t: seq<Proc>, init: nat, nextpid: nat, maker: map<nat, nat>) {
    Family(t, init) && PidsOk(t, nextpid) && NoneMissed(t) && MakersOk(t, maker)
  }

  /** The whole invariant, as a value. */
  ghost function Health(t: seq<Proc>, init: nat, nextpid: nat, maker: map<nat, nat>, exited: seq<nat>,
                        reaped: seq<nat>): Status
  {
    if forall k {:trigger Open(k)} :: k == 0 ==>
      TableOk(t, init, nextpid, maker) && Accounts(t, nextpid, exited, reaped)
    then Sound else Broken
  }

  lemma Healthy(t: seq<Proc>, init: nat, nextpid: nat, maker: map<nat, nat>, exited: seq<nat>, reaped: seq<nat>)
    requires Health(t, init, nextpid, maker, exited, reaped) == Sound
    ensures TableOk(t, init, nextpid, maker) && Accounts(t, nextpid, exited, reaped)
  {
    assert Open(0);
  }

  /** No entry that is UNUSED bears the mark of kill. */
  ghost predicate Unmarked(t: seq<Proc>) {
    forall i {:trigger t[i]} :: 0 <= i < |t| && t[i].state == UNUSED ==> !t[i].killed
  }

  /** So it is after anything that marks nobody and leaves the UNUSED entries as they are. */
  lemma MarksKept(t: seq<Proc>, t': seq<Proc>)
    requires |t'| == |t|
    requires forall i {:trigger t'[i]} :: 0 <= i < |t| && t'[i].state == UNUSED ==>
      (t[i].state == UNUSED && t'[i].killed == t[i].killed) || !t'[i].killed
    ensures Unmarked(t) ==> Unmarked(t')
  {
  }

  // ------------------------------------------------------------------ what the operations do

  function Woken(x: Proc, c: Chan): Proc {
    if x.state == SLEEPING && x.chan == c then x.(state := RUNNABLE) else x
  }

  ghost predicate HasZombieChild(t: seq<Proc>, p: nat, n: nat)
    requires n <= |t|
  {
    exists i :: 0 <= i < n && Child(t[i], p) && t[i].state == ZOMBIE
  }

  ghost predicate Childless(t: seq<Proc>, p: nat) {
    forall i :: 0 <= i < |t| ==> !Child(t[i], p)
  }

  /** Entry `x` after exit's loop has come past it or not, `orphans` telling whether init was woken. */
  function Adopted(x: Proc, p: nat, init: nat, past: bool, orphans: bool): Proc {
    var y := if past && Child(x, p) then x.(parent := Some(init)) else x;
    if orphans then Woken(y, Entry(init)) else y
  }

  /** Entry `i` after exit of process `p`. */
  ghost function Exited(t: seq<Proc>, p: nat, init: nat, i: nat): Proc
    requires p < |t| && i < |t| && t[p].parent.Some?
  {
    var y := Adopted(Woken(t[i], Entry(t[p].parent.value)), p, init, true, HasZombieChild(t, p, |t|));
    if i == p then y.(state := ZOMBIE) else y
  }

  ghost predicate IsExit(t: seq<Proc>, t': seq<Proc>, p: nat, init: nat)
    requires p < |t| && t[p].parent.Some?
  {
    |t'| == |t| && forall i {:trigger t'[i]} :: 0 <= i < |t| ==> t'[i] == Exited(t, p, init, i)
  }

  /** An entry after wait has returned its pid. */
  function Cleared(x: Proc): Proc {
    x.(state := UNUSED, pid := 0, parent := None, killed := false)
  }

  // ------------------------------------------------------------------ exit

  /** The three parts of exit make up the whole. */
  lemma IsExitOf(t: seq<Proc>, t1: seq<Proc>, t2: seq<Proc>, t': seq<Proc>, p: nat, init: nat)
    requires p < |t| == |t1| == |t2| && t[p].parent.Some?
    requires forall i :: 0 <= i < |t| ==> t1[i] == Woken(t[i], Entry(t[p].parent.value))
    requires forall i :: 0 <= i < |t| ==> t2[i] == Adopted(t1[i], p, init, true, HasZombieChild(t1, p, |t|))
    requires t' == t2[p := t2[p].(state := ZOMBIE)]
    ensures IsExit(t, t', p, init)
  {
    if HasZombieChild(t1, p, |t|) {
      var i :| 0 <= i < |t| && Child(t1[i], p) && t1[i].state == ZOMBIE;
      assert Child(t[i], p) && t[i].state == ZOMBIE;
    }
    if HasZombieChild(t, p, |t|) {
      var i :| 0 <= i < |t| && Child(t[i], p) && t[i].state == ZOMBIE;
      assert Child(t1[i], p) && t1[i].state == ZOMBIE;
    }
  }

  lemma ExitFamily(t: seq<Proc>, t': seq<Proc>, p: nat, init: nat)
    requires Family(t, init) && p < |t| && p != init && t[p].state == RUNNING && t[p].parent.Some?
    requires IsExit(t, t', p, init)
    ensures Family(t', init)
  {
    forall i | 0 <= i < |t'| ensures ParentOk(t', init, i) {
      ExitParent(t, t', p, init, i);
    }
  }

  lemma ExitParent(t: seq<Proc>, t': seq<Proc>, p: nat, init: nat, i: nat)
    requires Family(t, init) && p < |t| && p != init && t[p].state == RUNNING && t[p].parent.Some? && i < |t|
    requires IsExit(t, t', p, init)
    ensures ParentOk(t', init, i)
  {
    assert ParentOk(t, init, i) && ParentOk(t, init, p);
    var q := t'[i].parent;
    if q.Some? && q.value < |t| {
      assert t'[q.value] == Exited(t, p, init, q.value);
    }
  }

  lemma ExitMissesNone(t: seq<Proc>, t': seq<Proc>, p: nat, init: nat)
    requires Family(t, init) && NoneMissed(t) && p < |t| && p != init && t[p].state == RUNNING && t[p].parent.Some?
    requires IsExit(t, t', p, init)
    ensures NoneMissed(t')
  {
    forall i, j | 0 <= i < |t'| && 0 <= j < |t'| && WaitsAt(t'[i], i) && t'[j].state == ZOMBIE
      ensures !Child(t'[j], i)
    {
      assert ParentOk(t, init, j) && ParentOk(t, init, p);
      if j != p && Child(t[j], p) {
        assert HasZombieChild(t, p, |t|);
      }
    }
  }

  /** No entry but `p` changes its pid or its stage of life. */
  ghost predicate OnlyDies(t: seq<Proc>, t': seq<Proc>, p: nat) {
    && |t'| == |t| && p < |t| && t[p].state == RUNNING && t'[p].state == ZOMBIE
    && forall i {:trigger t'[i]} :: 0 <= i < |t| ==>
         && t'[i].pid == t[i].pid
         && (i != p ==> (t'[i].state == t[i].state || (t[i].state == SLEEPING && t'[i].state == RUNNABLE)))
  }

  lemma DeathKeepsPids(t: seq<Proc>, t': seq<Proc>, p: nat, nextpid: nat, maker: map<nat, nat>)
    requires OnlyDies(t, t', p) && PidsOk(t, nextpid) && MakersOk(t, maker) && forall i :: i in maker ==> maker[i] != p
    ensures PidsOk(t', nextpid) && MakersOk(t', maker)
  {
  }

  lemma DeathZombies(t: seq<Proc>, t': seq<Proc>, p: nat, pid: nat)
    requires OnlyDies(t, t', p)
    ensures IsZombie(t', pid) <==> IsZombie(t, pid) || pid == t[p].pid
  {
    if IsZombie(t, pid) {
      var i :| 0 <= i < |t| && t[i].state == ZOMBIE && t[i].pid == pid;
      assert t'[i].state == ZOMBIE && t'[i].pid == pid;
    }
    assert t'[p].state == ZOMBIE;
  }

  lemma DeathAccounts(t: seq<Proc>, t': seq<Proc>, p: nat, nextpid: nat, exited: seq<nat>, reaped: seq<nat>)
    requires OnlyDies(t, t', p) && PidsOk(t, nextpid) && Accounts(t, nextpid, exited, reaped)
    ensures Accounts(t', nextpid, exited + [t[p].pid], reaped)
  {
    forall pid ensures pid in exited + [t[p].pid] <==> pid in reaped || IsZombie(t', pid) {
      DeathZombies(t, t', p, pid);
    }
  }

  lemma ExitKeeps(t: seq<Proc>, t': seq<Proc>, p: nat, init: nat, nextpid: nat, maker: map<nat, nat>, exited: seq<nat>,
                  reaped: seq<nat>)
    requires Health(t, init, nextpid, maker, exited, reaped) == Sound
    requires p < |t| && p != init && t[p].state == RUNNING && t[p].parent.Some? && IsExit(t, t', p, init)
    requires forall i :: i in maker ==> maker[i] != p
    ensures Health(t', init, nextpid, maker, exited + [t[p].pid], reaped) == Sound
  {
    Healthy(t, init, nextpid, maker, exited, reaped);
    ExitFamily(t, t', p, init);
    ExitMissesNone(t, t', p, init);
    ExitOnlyDies(t, t', p, init);
    DeathKeepsPids(t, t', p, nextpid, maker);
    DeathAccounts(t, t', p, nextpid, exited, reaped);
    assert TableOk(t', init, nextpid, maker);
  }

  lemma ExitOnlyDies(t: seq<Proc>, t': seq<Proc>, p: nat, init: nat)
    requires p < |t| && t[p].state == RUNNING && t[p].parent.Some? && IsExit(t, t', p, init)
    ensures OnlyDies(t, t', p)
  {
  }

  // ------------------------------------------------------------------ one entry that is not live changes

  ghost predicate OneEntry(t: seq<Proc>, t': seq<Proc>, i: nat) {
    && |t'| == |t| && i < |t| && !Live(t[i])
    && forall j {:trigger t'[j]} :: 0 <= j < |t| && j != i ==> t'[j] == t[j]
  }

  lemma OneFamily(t: seq<Proc>, t': seq<Proc>, i: nat, init: nat)
    requires OneEntry(t, t', i) && Family(t, init) && ParentOk(t', init, i)
    requires t'[i].state != UNUSED ==> t[init].pid < t'[i].pid
    ensures Family(t', init)
  {
    forall j | 0 <= j < |t'| ensures ParentOk(t', init, j) {
      assert ParentOk(t, init, j);
    }
  }

  lemma OnePids(t: seq<Proc>, t': seq<Proc>, i: nat, nextpid: nat, nextpid': nat)
    requires OneEntry(t, t', i) && PidsOk(t, nextpid) && nextpid <= nextpid' && t'[i].pid < nextpid'
    requires t'[i].state != UNUSED ==> t'[i].pid == nextpid || (t[i].state != UNUSED && t'[i].pid == t[i].pid)
    ensures PidsOk(t', nextpid')
  {
  }

  lemma OneMissesNone(t: seq<Proc>, t': seq<Proc>, i: nat)
    requires OneEntry(t, t', i) && NoneMissed(t) && t'[i].state != ZOMBIE && t'[i].state != SLEEPING
    ensures NoneMissed(t')
  {
  }

  lemma OneMakers(t: seq<Proc>, t': seq<Proc>, i: nat, maker: map<nat, nat>, p: nat)
    requires OneEntry(t, t', i) && MakersOk(t, maker)
    requires t'[i].state == EMBRYO ==> p < |t| && Live(t[p]) && t[p].pid < t'[i].pid
    ensures MakersOk(t', if t'[i].state == EMBRYO then maker[i := p] else maker - {i})
  {
  }

  lemma OneKeeps(t: seq<Proc>, t': seq<Proc>, i: nat, init: nat, nextpid: nat, nextpid': nat, maker: map<nat, nat>,
                 p: nat)
    requires OneEntry(t, t', i) && TableOk(t, init, nextpid, maker)
    requires ParentOk(t', init, i) && (t'[i].state != UNUSED ==> t[init].pid < t'[i].pid)
    requires nextpid <= nextpid' && t'[i].pid < nextpid'
    requires t'[i].state != UNUSED ==> t'[i].pid == nextpid || (t[i].state != UNUSED && t'[i].pid == t[i].pid)
    requires t'[i].state != ZOMBIE && t'[i].state != SLEEPING
    requires t'[i].state == EMBRYO ==> p < |t| && Live(t[p]) && t[p].pid < t'[i].pid
    ensures TableOk(t', init, nextpid', if t'[i].state == EMBRYO then maker[i := p] else maker - {i})
  {
    OneFamily(t, t', i, init);
    OnePids(t, t', i, nextpid, nextpid');
    OneMissesNone(t, t', i);
    OneMakers(t, t', i, maker, p);
  }

  /** The pid of an entry that is not ZOMBIE does not matter to the accounts, unless it was used before. */
  lemma OneAccounts(t: seq<Proc>, t': seq<Proc>, i: nat, nextpid: nat, nextpid': nat, exited: seq<nat>,
                    reaped: seq<nat>)
    requires OneEntry(t, t', i) && Accounts(t, nextpid, exited, reaped) && nextpid <= nextpid'
    requires t[i].state != ZOMBIE && t'[i].state != ZOMBIE
    requires t'[i].state != UNUSED ==> t'[i].pid !in exited && t'[i].pid !in reaped
    ensures Accounts(t', nextpid', exited, reaped)
  {
    forall pid ensures IsZombie(t', pid) <==> IsZombie(t, pid) {
      if IsZombie(t, pid) {
        var j :| 0 <= j < |t| && t[j].state == ZOMBIE && t[j].pid == pid;
        assert t'[j] == t[j];
      }
    }
  }

  // ------------------------------------------------------------------ wait

  lemma ReapTable(t: seq<Proc>, c: nat, init: nat, nextpid: nat, maker: map<nat, nat>)
    requires TableOk(t, init, nextpid, maker) && c < |t| && t[c].state == ZOMBIE
    ensures TableOk(t[c := Cleared(t[c])], init, nextpid, maker)
  {
    assert maker - {c} == maker;
    OneKeeps(t, t[c := Cleared(t[c])], c, init, nextpid, nextpid, maker, 0);
  }

  lemma ReapZombies(t: seq<Proc>, c: nat, nextpid: nat, pid: nat)
    requires PidsOk(t, nextpid) && c < |t| && t[c].state == ZOMBIE
    ensures IsZombie(t[c := Cleared(t[c])], pid) <==> IsZombie(t, pid) && pid != t[c].pid
  {
    var t' := t[c := Cleared(t[c])];
    if IsZombie(t, pid) && pid != t[c].pid {
      var i :| 0 <= i < |t| && t[i].state == ZOMBIE && t[i].pid == pid;
      assert t'[i] == t[i];
    }
    if IsZombie(t', pid) {
      var i :| 0 <= i < |t'| && t'[i].state == ZOMBIE && t'[i].pid == pid;
      assert t'[i] == t[i] && i != c;
      assert i < c || c < i;
    }
  }

  lemma ReapAccounts(t: seq<Proc>, c: nat, nextpid: nat, exited: seq<nat>, reaped: seq<nat>)
    requires PidsOk(t, nextpid) && Accounts(t, nextpid, exited, reaped) && c < |t| && t[c].state == ZOMBIE
    ensures Accounts(t[c := Cleared(t[c])], nextpid, exited, reaped + [t[c].pid])
  {
    var t' := t[c := Cleared(t[c])];
    assert IsZombie(t, t[c].pid);
    forall pid ensures pid in exited <==> pid in reaped + [t[c].pid] || IsZombie(t', pid) {
      ReapZombies(t, c, nextpid, pid);
    }
    forall i | 0 <= i < |t'| && t'[i].state != UNUSED ensures t'[i].pid !in reaped + [t[c].pid] {
      assert i < c || c < i;
    }
  }

  lemma ReapKeeps(t: seq<Proc>, c: nat, init: nat, nextpid: nat, maker: map<nat, nat>, exited: seq<nat>,
                  reaped: seq<nat>)
    requires Health(t, init, nextpid, maker, exited, reaped) == Sound && c < |t| && t[c].state == ZOMBIE
    ensures Health(t[c := Cleared(t[c])], init, nextpid, maker, exited, reaped + [t[c].pid]) == Sound
  {
    Healthy(t, init, nextpid, maker, exited, reaped);
    ReapTable(t, c, init, nextpid, maker);
    ReapAccounts(t, c, nextpid, exited, reaped);
  }

  // ------------------------------------------------------------------ sleeping, waking, running

  /** Entries keep their pid, parent and stage of life, and a process newly asleep in wait has no ZOMBIE
      child. */
  ghost predicate OnlyStirs(t: seq<Proc>, t': seq<Proc>) {
    && |t'| == |t|
    && (forall i {:trigger t'[i]} :: 0 <= i < |t| ==>
          && t'[i].pid == t[i].pid && t'[i].parent == t[i].parent
          && (if Live(t[i]) then Live(t'[i]) else t'[i].state == t[i].state))
    && forall i {:trigger t'[i]} :: 0 <= i < |t| && WaitsAt(t'[i], i) ==> WaitsAt(t[i], i) || !HasZombieChild(t, i, |t|)
  }

  lemma StirFamily(t: seq<Proc>, t': seq<Proc>, init: nat)
    requires OnlyStirs(t, t') && Family(t, init)
    ensures Family(t', init)
  {
    forall i | 0 <= i < |t'| ensures ParentOk(t', init, i) {
      assert ParentOk(t, init, i);
    }
  }

  lemma StirAccounts(t: seq<Proc>, t': seq<Proc>, nextpid: nat, exited: seq<nat>, reaped: seq<nat>)
    requires OnlyStirs(t, t') && Accounts(t, nextpid, exited, reaped)
    ensures Accounts(t', nextpid, exited, reaped)
  {
    forall pid ensures IsZombie(t', pid) <==> IsZombie(t, pid) {
      if IsZombie(t, pid) {
        var i :| 0 <= i < |t| && t[i].state == ZOMBIE && t[i].pid == pid;
        assert t'[i].state == ZOMBIE;
      }
    }
  }

  lemma StirKeeps(t: seq<Proc>, t': seq<Proc>, init: nat, nextpid: nat, maker: map<nat, nat>, exited: seq<nat>,
                  reaped: seq<nat>)
    requires OnlyStirs(t, t') && Health(t, init, nextpid, maker, exited, reaped) == Sound
    ensures Health(t', init, nextpid, maker, exited, reaped) == Sound
  {
    Healthy(t, init, nextpid, maker, exited, reaped);
    StirFamily(t, t', init);
    StirAccounts(t, t', nextpid, exited, reaped);
    StirMissesNone(t, t');
    StirPids(t, t', nextpid, maker);
    assert TableOk(t', init, nextpid, maker);
  }

  lemma StirMissesNone(t: seq<Proc>, t': seq<Proc>)
    requires OnlyStirs(t, t') && NoneMissed(t)
    ensures NoneMissed(t')
  {
    forall i, j | 0 <= i < |t'| && 0 <= j < |t'| && WaitsAt(t'[i], i) && t'[j].state == ZOMBIE
      ensures !Child(t'[j], i)
    {
      assert t[j].state == ZOMBIE && t'[j].parent == t[j].parent;
      assert Child(t[j], i) ==> HasZombieChild(t, i, |t|);
    }
  }

  lemma StirPids(t: seq<Proc>, t': seq<Proc>, nextpid: nat, maker: map<nat, nat>)
    requires OnlyStirs(t, t') && PidsOk(t, nextpid) && MakersOk(t, maker)
    ensures PidsOk(t', nextpid) && MakersOk(t', maker)
  {
  }

  // ------------------------------------------------------------------ fork

  lemma AllocKeeps(t: seq<Proc>, i: nat, p: nat, init: nat, nextpid: nat, maker: map<nat, nat>, exited: seq<nat>,
                   reaped: seq<nat>)
    requires Health(t, init, nextpid, maker, exited, reaped) == Sound
    requires i < |t| && t[i].state == UNUSED && p < |t| && Live(t[p])
    ensures var t' := t[i := t[i].(state := EMBRYO, pid := nextpid)];
      Health(t', init, nextpid + 1, maker[i := p], exited, reaped) == Sound
  {
    Healthy(t, init, nextpid, maker, exited, reaped);
    var t' := t[i := t[i].(state := EMBRYO, pid := nextpid)];
    assert ParentOk(t, init, i);
    OneKeeps(t, t', i, init, nextpid, nextpid + 1, maker, p);
    OneAccounts(t, t', i, nextpid, nextpid + 1, exited, reaped);
  }

  lemma AbortKeeps(t: seq<Proc>, i: nat, init: nat, nextpid: nat, maker: map<nat, nat>, exited: seq<nat>,
                   reaped: seq<nat>)
    requires Health(t, init, nextpid, maker, exited, reaped) == Sound && i in maker && i < |t|
    ensures var t' := t[i := t[i].(state := UNUSED)];
      Health(t', init, nextpid, maker - {i}, exited, reaped) == Sound
  {
    Healthy(t, init, nextpid, maker, exited, reaped);
    var t' := t[i := t[i].(state := UNUSED)];
    assert ParentOk(t, init, i);
    OneKeeps(t, t', i, init, nextpid, nextpid, maker, 0);
    OneAccounts(t, t', i, nextpid, nextpid, exited, reaped);
  }

  lemma ReadyKeeps(t: seq<Proc>, i: nat, init: nat, nextpid: nat, maker: map<nat, nat>, exited: seq<nat>,
                   reaped: seq<nat>)
    requires Health(t, init, nextpid, maker, exited, reaped) == Sound && i in maker && i < |t|
    ensures var t' := t[i := t[i].(state := RUNNABLE, parent := Some(maker[i]))];
      Health(t', init, nextpid, maker - {i}, exited, reaped) == Sound
  {
    Healthy(t, init, nextpid, maker, exited, reaped);
    var t' := t[i := t[i].(state := RUNNABLE, parent := Some(maker[i]))];
    OneKeeps(t, t', i, init, nextpid, nextpid, maker, 0);
    OneAccounts(t, t', i, nextpid, nextpid, exited, reaped);
  }

  // ------------------------------------------------------------------ consequences

  /** Each entry on the path is a child of the next, which is live. */
  ghost predicate Lineage(t: seq<Proc>, path: seq<nat>) {
    && |path| >= 1 && path[0] < |t|
    && (|path| > 1 ==> Child(t[path[0]], path[1]) && path[1] < |t| && Live(t[path[1]]) && Lineage(t, path[1..]))
  }

  /** The processes form a tree with init at its root: following parents from any used process ends there. */
  lemma {:induction false} DescendsFromInit(t: seq<Proc>, init: nat, i: nat) returns (path: seq<nat>)
    requires Family(t, init) && i < |t| && Used(t[i])
    ensures Lineage(t, path) && path[0] == i && path[|path| - 1] == init
    decreases t[i].pid
  {
    if i == init {
      path := [i];
    } else {
      assert ParentOk(t, init, i);
      var rest := DescendsFromInit(t, init, t[i].parent.value);
      path := [i] + rest;
      assert path[1..] == rest;
    }
  }

  /** Every exited pid is ZOMBIE, under a parent that is live and not asleep in wait, or has been returned by
      wait, never both and never twice. */
  lemma ReturnedOnce(t: seq<Proc>, init: nat, nextpid: nat, maker: map<nat, nat>, exited: seq<nat>, reaped: seq<nat>,
                     pid: nat)
    requires Health(t, init, nextpid, maker, exited, reaped) == Sound && pid in exited
    ensures pid in reaped <==> !IsZombie(t, pid)
    ensures multiset(reaped)[pid] <= 1 && multiset(exited)[pid] == 1
    ensures pid !in reaped ==> exists i :: 0 <= i < |t| && t[i].pid == pid && t[i].state == ZOMBIE && CanCollect(t, i)
  {
    Healthy(t, init, nextpid, maker, exited, reaped);
    DistinctOnce(exited, pid);
    DistinctOnce(reaped, pid);
    if pid !in reaped {
      var i :| 0 <= i < |t| && t[i].state == ZOMBIE && t[i].pid == pid;
      assert ParentOk(t, init, i);
      assert CanCollect(t, i);
    }
  }

  ghost predicate CanCollect(t: seq<Proc>, i: nat) {
    i < |t| && t[i].parent.Some? && t[i].parent.value < |t| && Live(t[t[i].parent.value])
      && !WaitsAt(t[t[i].parent.value], t[i].parent.value)
  }

  lemma {:induction false} DistinctOnce(s: seq<nat>, x: nat)
    requires Distinct(s)
    ensures multiset(s)[x] == if x in s then 1 else 0
  {
    if s != [] {
      assert s == s[..|s| - 1] + [s[|s| - 1]];
      DistinctOnce(s[..|s| - 1], x);
    }
  }
}

/** proc.c as code. Each method is one stretch of code run under ptable.lock; processes interleave between
    them. */
module ProcTable {
  import opened Basics
  import opened Sealed
  import opened ProcModel

  datatype WaitResult = Returned(pid: nat) | Failed | Sleeps

  class Table {
    const init: nat                   // the entry of initproc
    const table: array<Proc>
    var nextpid: nat
    ghost var maker: map<nat, nat>    // which process is in fork for an EMBRYO
    ghost var exited: seq<nat>
    ghost var reaped: seq<nat>

    ghost predicate Valid()
      reads this, table
    {
      Health(table[..], init, nextpid, maker, exited, reaped) == Sound
    }

    /** userinit: one process, in the first entry, with pid 1. */
    constructor (nproc: nat)
      requires nproc >= 1
      ensures Valid() && fresh(table) && table.Length == nproc && exited == [] && reaped == [] && init == 0
      ensures table[0] == Proc(RUNNABLE, 1, None, NoChan, false)
      ensures forall i :: 1 <= i < nproc ==> table[i] == Proc(UNUSED, 0, None, NoChan, false)
    {
      init, nextpid, maker, exited, reaped := 0, 2, map[], [], [];
      table := new Proc[nproc](i =>
        if i == 0 then Proc(RUNNABLE, 1, None, NoChan, false) else Proc(UNUSED, 0, None, NoChan, false));
      new;
      ghost var t := table[..];
      assert t[0] == table[0] && forall i :: 1 <= i < nproc ==> t[i] == Proc(UNUSED, 0, None, NoChan, false);
      assert forall i :: 0 <= i < nproc ==> ParentOk(t, 0, i);
      assert TableOk(t, 0, 2, map[]) && Accounts(t, 2, [], []);
    }

    /** `wakeup1`. */
    method Wakeup1(c: Chan)
      modifies table
      ensures forall i :: 0 <= i < table.Length ==> table[i] == Woken(old(table[i]), c)
    {
      for p := 0 to table.Length
        invariant forall i :: 0 <= i < p ==> table[i] == Woken(old(table[i]), c)
        invariant forall i :: p <= i < table.Length ==> table[i] == old(table[i])
      {
        if table[p].state == SLEEPING && table[p].chan == c {
          table[p] := table[p].(state := RUNNABLE);
        }
      }
    }

    /** `wakeup`, of a channel. */
    method Wakeup(c: Chan)
      requires Valid()
      modifies table
      ensures Valid()
      ensures forall i :: 0 <= i < table.Length ==> table[i] == Woken(old(table[i]), c)
      ensures forall i :: 0 <= i < table.Length ==>
        (table[i].state == SLEEPING <==> old(table[i]).state == SLEEPING && old(table[i]).chan != c)
      ensures forall i :: 0 <= i < table.Length && table[i] != old(table[i]) ==>
        old(table[i]).state == SLEEPING && table[i] == old(table[i]).(state := RUNNABLE)
      ensures Unmarked(old(table[..])) ==> Unmarked(table[..])
    {
      Wakeup1(c);
      MarksKept(old(table[..]), table[..]);
      StirKeeps(old(table[..]), table[..], init, nextpid, maker, exited, reaped);
    }

    /** The loop of `exit` that passes the children of `p` to init. */
    method Abandon(p: nat)
      requires p < table.Length
      modifies table
      ensures forall i :: 0 <= i < table.Length ==>
        table[i] == Adopted(old(table[i]), p, init, true, HasZombieChild(old(table[..]), p, table.Length))
    {
      ghost var t := table[..];
      for k := 0 to table.Length
        invariant forall i {:trigger table[i]} :: 0 <= i < table.Length ==>
          table[i] == Adopted(t[i], p, init, i < k, HasZombieChild(t, p, k))
      {
        if table[k].parent == Some(p) {
          table[k] := table[k].(parent := Some(init));
          if table[k].state == ZOMBIE {
            assert HasZombieChild(t, p, k + 1);
            Wakeup1(Entry(init));
          }
        }
        assert !(Child(t[k], p) && t[k].state == ZOMBIE) ==> HasZombieChild(t, p, k + 1) == HasZombieChild(t, p, k);
      }
    }

    /** `exit`, from acquire(&ptable.lock) on. The result tells whether it panics ("init exiting"). A process
        is not in fork when it exits. */
    method Exit(p: nat) returns (panics: bool)
      requires Valid() && p < table.Length && table[p].state == RUNNING && forall i :: i in maker ==> maker[i] != p
      modifies table, this`exited
      ensures Valid()
      ensures panics <==> p == init
      ensures panics ==> table[..] == old(table[..]) && exited == old(exited)
      ensures !panics ==> exited == old(exited) + [old(table[p].pid)]
      ensures !panics ==> old(table[p].parent).Some? && IsExit(old(table[..]), table[..], p, init)
      ensures Unmarked(old(table[..])) ==> Unmarked(table[..])
    {
      if p == init {
        return true;
      }
      ghost var t := table[..];
      Healthy(t, init, nextpid, maker, exited, reaped);
      assert ParentOk(t, init, p);
      Die(p);
      ExitKeeps(t, table[..], p, init, nextpid, maker, exited, reaped);
      exited := exited + [t[p].pid];
      panics := false;
    }

    /** What `exit` does to the table: the parent is woken, the children go to init, the process is a ZOMBIE. */
    method Die(p: nat)
      requires p < table.Length && table[p].parent.Some?
      modifies table
      ensures IsExit(old(table[..]), table[..], p, init)
      ensures Unmarked(old(table[..])) ==> Unmarked(table[..])
    {
      ghost var t := table[..];
      Wakeup1(Entry(table[p].parent.value));
      ghost var t1 := table[..];
      Abandon(p);
      ghost var t2 := table[..];
      table[p] := table[p].(state := ZOMBIE);
      IsExitOf(t, t1, t2, table[..], p, init);
      MarksKept(t, table[..]);
    }

    /** One turn of the loop of `wait`: the first ZOMBIE child is cleared and its pid returned; failing that,
        the call fails if there is no child or the caller was killed, and otherwise it sleeps. */
    method Wait(p: nat) returns (r: WaitResult)
      requires Valid() && p < table.Length && table[p].state == RUNNING
      modifies table, this`reaped
      ensures Valid()
      ensures r.Returned? <==> HasZombieChild(old(table[..]), p, table.Length)
      ensures r.Returned? ==> reaped == old(reaped) + [r.pid] && Collected(old(table[..]), table[..], p, r.pid)
      ensures !r.Returned? ==> reaped == old(reaped)
      ensures r.Failed? <==>
        !HasZombieChild(old(table[..]), p, table.Length) && (Childless(old(table[..]), p) || old(table[p].killed))
      ensures r.Failed? ==> table[..] == old(table[..])
      ensures r.Sleeps? ==> table[..] == old(table[..])[p := old(table[p]).(state := SLEEPING, chan := Entry(p))]
      ensures Unmarked(old(table[..])) ==> Unmarked(table[..])
    {
      ghost var t := table[..];
      var havekids := false;
      for k := 0 to table.Length
        invariant table[..] == t && reaped == old(reaped)
        invariant havekids <==> exists i :: 0 <= i < k && Child(t[i], p)
        invariant !HasZombieChild(t, p, k)
      {
        if table[k].parent != Some(p) {
          continue;
        }
        havekids := true;
        if table[k].state == ZOMBIE {
          r := Returned(table[k].pid);
          assert HasZombieChild(t, p, |t|);
          Collect(k);
          return;
        }
      }
      if !havekids || table[p].killed {
        return Failed;
      }
      table[p] := table[p].(state := SLEEPING, chan := Entry(p));
      StirKeeps(t, table[..], init, nextpid, maker, exited, reaped);
      MarksKept(t, table[..]);
      r := Sleeps;
    }

    method Collect(k: nat)
      requires Valid() && k < table.Length && table[k].state == ZOMBIE
      modifies table, this`reaped
      ensures Valid() && reaped == old(reaped) + [old(table[k].pid)]
      ensures table[..] == old(table[..])[k := Cleared(old(table[k]))]
      ensures Unmarked(old(table[..])) ==> Unmarked(table[..])
    {
      ReapKeeps(table[..], k, init, nextpid, maker, exited, reaped);
      reaped := reaped + [table[k].pid];
      table[k] := table[k].(state := UNUSED, pid := 0, parent := None, killed := false);
      assert table[..] == old(table[..])[k := Cleared(old(table[k]))];
      MarksKept(old(table[..]), table[..]);
    }

    /** The scan of `allocproc`. */
    method FindUnused() returns (r: Option<nat>)
      ensures r.None? <==> forall i :: 0 <= i < table.Length ==> table[i].state != UNUSED
      ensures r.Some? ==> r.value < table.Length && table[r.value].state == UNUSED && forall i :: 0 <= i < r.value ==>
        table[i].state != UNUSED
    {
      for k := 0 to table.Length
        invariant forall i :: 0 <= i < k ==> table[i].state != UNUSED
      {
        if table[k].state == UNUSED {
          return Some(k);
        }
      }
      r := None;
    }

    /** `allocproc`, called by `fork` in process `p`: the first UNUSED entry becomes an EMBRYO. A mark of kill that it
        bears stays with it. */
    method AllocProc(p: nat) returns (r: Option<nat>)
      requires Valid() && p < table.Length && table[p].state == RUNNING
      modifies table, this`nextpid, this`maker
      ensures Valid()
      ensures r.None? <==> forall i :: 0 <= i < table.Length ==> old(table[i].state) != UNUSED
      ensures r.None? ==> table[..] == old(table[..]) && maker == old(maker)
      ensures r.Some? ==> r.value < table.Length && maker == old(maker)[r.value := p] && nextpid == old(nextpid) + 1
      ensures r.Some? ==> old(table[r.value].state) == UNUSED
      ensures r.Some? ==> forall i :: 0 <= i < r.value ==> old(table[i].state) != UNUSED
      ensures r.Some? ==> table[r.value].killed == old(table[r.value].killed)
      ensures Unmarked(old(table[..])) ==> Unmarked(table[..]) && (r.Some? ==> !table[r.value].killed)
      ensures r.Some? ==>
        table[..] == old(table[..])[r.value := old(table[r.value]).(state := EMBRYO, pid := old(nextpid))]
    {
      r := FindUnused();
      if r.Some? {
        TakeEntry(r.value, p);
      }
    }

    method TakeEntry(k: nat, p: nat)
      requires Valid() && p < table.Length && table[p].state == RUNNING && k < table.Length && table[k].state == UNUSED
      modifies table, this`nextpid, this`maker
      ensures Valid() && maker == old(maker)[k := p] && nextpid == old(nextpid) + 1
      ensures table[..] == old(table[..])[k := old(table[k]).(state := EMBRYO, pid := old(nextpid))]
      ensures Unmarked(old(table[..])) ==> Unmarked(table[..]) && !table[k].killed
    {
      AllocKeeps(table[..], k, p, init, nextpid, maker, exited, reaped);
      table[k] := table[k].(state := EMBRYO, pid := nextpid);
      nextpid, maker := nextpid + 1, maker[k := p];
      assert table[..] == old(table[..])[k := old(table[k]).(state := EMBRYO, pid := old(nextpid))];
      assert old(table[..])[k] == old(table[k]);
      MarksKept(old(table[..]), table[..]);
    }

    /** `fork` after allocproc: the child becomes RUNNABLE, or is dropped if its memory could not be copied. */
    method FinishFork(np: nat, p: nat, copied: bool) returns (pid: Option<nat>)
      requires Valid() && np in maker && maker[np] == p && np < table.Length
      modifies table, this`maker
      ensures Valid() && maker == old(maker) - {np}
      ensures pid == if copied then Some(old(table[np].pid)) else None
      ensures table[..] == old(table[..])[np := if copied then old(table[np]).(state := RUNNABLE, parent := Some(p))
                                                else old(table[np]).(state := UNUSED)]
      ensures Unmarked(old(table[..])) ==> (Unmarked(table[..]) <==> copied || !old(table[np].killed))
    {
      if copied {
        ReadyKeeps(table[..], np, init, nextpid, maker, exited, reaped);
        pid := Some(table[np].pid);
        table[np] := table[np].(state := RUNNABLE, parent := Some(p));
      } else {
        AbortKeeps(table[..], np, init, nextpid, maker, exited, reaped);
        pid := None;
        table[np] := table[np].(state := UNUSED);
      }
      assert table[..] == old(table[..])[np := table[np]];
      maker := maker - {np};
      if copied || !table[np].killed {
        MarksKept(old(table[..]), table[..]);
      } else {
        assert table[..][np].state == UNUSED && table[..][np].killed;
      }
    }

    /** `kill`: the first entry with this pid is marked, and woken if it sleeps. */
    method Kill(pid: nat) returns (found: bool)
      requires Valid()
      modifies table
      ensures Valid()
      ensures found <==> exists i :: 0 <= i < table.Length && old(table[i].pid) == pid
      ensures forall i :: 0 <= i < table.Length ==>
        table[i] == if old(table[i].pid) == pid && !exists j ::
          0 <= j < i && old(table[j].pid) == pid then Killed(old(table[i])) else old(table[i])
      ensures found ==> exists i :: 0 <= i < table.Length && table[i].pid == pid && Roused(old(table[i]), table[i])
      ensures Unmarked(old(table[..])) ==> (Unmarked(table[..]) <==> !MarksUnused(old(table[..]), pid))
    {
      ghost var t := table[..];
      for k := 0 to table.Length
        invariant table[..] == t
        invariant forall i :: 0 <= i < k ==> table[i].pid != pid
      {
        if table[k].pid == pid {
          table[k] := table[k].(killed := true);
          if table[k].state == SLEEPING {
            table[k] := table[k].(state := RUNNABLE);
          }
          StirKeeps(t, table[..], init, nextpid, maker, exited, reaped);
          KillMarks(t, table[..], pid, k);
          return true;
        }
      }
      found := false;
    }

    /** `scheduler` picks `p`; sleep, if that is where `p` was, clears its channel. */
    method Dispatch(p: nat)
      requires Valid() && p < table.Length && table[p].state == RUNNABLE
      modifies table
      ensures Valid() && table[..] == old(table[..])[p := old(table[p]).(state := RUNNING, chan := NoChan)]
      ensures Unmarked(old(table[..])) ==> Unmarked(table[..])
    {
      table[p] := table[p].(state := RUNNING, chan := NoChan);
      StirKeeps(old(table[..]), table[..], init, nextpid, maker, exited, reaped);
      MarksKept(old(table[..]), table[..]);
    }

    /** `yield`, or `sleep` on a channel other than a table entry. */
    method Pause(p: nat, sleepOn: Option<nat>)
      requires Valid() && p < table.Length && table[p].state == RUNNING
      modifies table
      ensures Valid() && table[..] == old(table[..])[p := Paused(old(table[p]), sleepOn)]
      ensures Unmarked(old(table[..])) ==> Unmarked(table[..])
    {
      table[p] := Paused(table[p], sleepOn);
      StirKeeps(old(table[..]), table[..], init, nextpid, maker, exited, reaped);
      MarksKept(old(table[..]), table[..]);
    }
  }

  /** The first entry with this pid is UNUSED: it was never used and the pid is 0, or fork gave it up. */
  ghost predicate MarksUnused(t: seq<Proc>, pid: nat) {
    exists k {:trigger t[k]} :: 0 <= k < |t| && t[k].pid == pid && t[k].state == UNUSED
      && forall j {:trigger t[j]} :: 0 <= j < k ==> t[j].pid != pid
  }

  lemma KillMarks(t: seq<Proc>, t': seq<Proc>, pid: nat, k: nat)
    requires k < |t| == |t'| && t[k].pid == pid && (forall j :: 0 <= j < k ==> t[j].pid != pid)
    requires t' == t[k := Killed(t[k])]
    ensures Unmarked(t) ==> (Unmarked(t') <==> !MarksUnused(t, pid))
  {
    if t[k].state == UNUSED {
      assert t'[k].killed;
      assert MarksUnused(t, pid);
    } else {
      MarksKept(t, t');
    }
  }

  /** kill(0) marks an entry that nobody uses. */
  method MarkUnused(nproc: nat) returns (t: Table)
    requires nproc >= 2
    ensures fresh(t) && fresh(t.table) && t.Valid() && t.table.Length == nproc && t.table[0].state == RUNNING
    ensures t.table[1].state == UNUSED && t.table[1].killed
  {
    t := new Table(nproc);
    t.Dispatch(0);
    var x, y := t.table[0], t.table[1];
    assert x.pid == 1 && x.state == RUNNING && y.pid == 0 && y.state == UNUSED;
    var found := t.Kill(0);
    assert t.table[0] == x && t.table[1] == Killed(y);
  }

  /** Then fork takes that entry, and the new process starts out killed. */
  method BornKilled(nproc: nat) returns (t: Table)
    requires nproc >= 2
    ensures fresh(t) && t.Valid() && 1 < t.table.Length && t.table[1].state == RUNNABLE && t.table[1].killed
  {
    t := MarkUnused(nproc);
    var r := t.AllocProc(0);
    assert r == Some(1);
    var pid := t.FinishFork(1, 0, true);
  }

  /** The process is marked; if it slept, it can run; the rest of it is as before. */
  predicate Roused(x: Proc, y: Proc) {
    && y.killed && y.state != SLEEPING && (x.state == SLEEPING ==> y.state == RUNNABLE)
    && (x.state != SLEEPING ==> y.state == x.state)
    && y == x.(killed := true, state := y.state)
  }

  function Killed(x: Proc): Proc {
    x.(killed := true, state := if x.state == SLEEPING then RUNNABLE else x.state)
  }

  function Paused(x: Proc, sleepOn: Option<nat>): Proc {
    if sleepOn.Some? then x.(state := SLEEPING, chan := Elsewhere(sleepOn.value)) else x.(state := RUNNABLE)
  }

  /** The first ZOMBIE child of `p` is cleared, and `pid` was its pid. */
  ghost predicate Collected(t: seq<Proc>, t': seq<Proc>, p: nat, pid: nat) {
    exists k :: 0 <= k < |t| && Child(t[k], p) && t[k].state == ZOMBIE && t[k].pid == pid && !HasZombieChild(t, p, k)
      && t' == t[k := Cleared(t[k])]
  }
}
