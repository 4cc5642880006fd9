/** Commit and recovery come to an end: from every state that a run reaches, steps of the committer and of whoever holds
    the block it waits for lead back to a log that is open for operations. */
module LogProgress {
  import opened LogMachine
  import LogBook

  /** The block that the committer works on. */
  predicate WaitsFor(s: State, b: nat) {
    (s.phase.Copying? || s.phase.Installing?) && s.phase.tail < |s.book.entries| && s.book.entries[s.phase.tail] == b
  }

  /** One more step while it is held. */
  function Wait(s: State): nat {
    if (s.phase.Copying? || s.phase.Installing?) && s.phase.tail < |s.book.entries|
      && !Idle(s, s.book.entries[s.phase.tail]) then 1 else 0
  }

  function Left(s: State, tail: nat): nat {
    if tail < |s.book.entries| then 2 * (|s.book.entries| - tail) else 0
  }

  /** A bound on the steps to go. */
  function Work(s: State): nat {
    match s.phase
    case Up => 0
    case Copying(t) => Left(s, t) + 2 * |s.book.entries| + 5 + Wait(s)
    case Installing(t, _) => Left(s, t) + 3 + Wait(s)
    case Erasing(_) => 2
    case Closing => 1
    case Down => 2 * |s.disk.head| + 4
  }

  /** A step of the committer or of recovery, or of the process that holds the block they wait for. */
  predicate Onward(s: State, step: Step) {
    match step
    case CopyStep => true
    case PublishStep => true
    case InstallStep => true
    case ForgetStep => true
    case EraseStep => true
    case CloseStep => true
    case ReadHeadStep => true
    case ReleaseStep(p, b) => WaitsFor(s, b)
    case _ => false
  }

  /** The holder of a block that the committer waits for can let go of it. */
  lemma HolderLetsGo(s: State, b: nat) returns (step: Step, s': State)
    requires Inv(s) && WaitsFor(s, b) && !Idle(s, b)
    ensures Next(s, step, s') && Onward(s, step) && Work(s') < Work(s)
  {
    HolderIsUp(s, Now(s), b);
    assert s.cache[b].dirty;
    step, s' := ReleaseStep(s.cache[b].holder.p, b), s.(cache := s.cache[b := s.cache[b].(holder := Nobody)]);
    assert Idle(s', b);
  }

  /** Whatever the committer or recovery is at, there is a step that brings it nearer to its end. */
  lemma StepOnward(s: State) returns (step: Step, s': State)
    requires Inv(s) && !s.phase.Up?
    ensures Next(s, step, s') && Onward(s, step) && Work(s') < Work(s)
  {
    if (s.phase.Copying? || s.phase.Installing?) && s.phase.tail < |s.book.entries| {
      var b := s.book.entries[s.phase.tail];
      if !Idle(s, b) {
        step, s' := HolderLetsGo(s, b);
      } else {
        step, s' := BlockOnward(s, b);
      }
    } else {
      step, s' := PhaseOnward(s);
    }
  }

  /** The block and its copy in the log are there. */
  lemma InReach(s: State, b: nat)
    requires Inv(s) && WaitsFor(s, b)
    ensures b < |s.disk.blocks| && s.g.start + 1 + s.phase.tail < |s.disk.blocks|
    ensures s.phase.Copying? ==> b in s.cache
  {
  }

  lemma BlockOnward(s: State, b: nat) returns (step: Step, s': State)
    requires Inv(s) && WaitsFor(s, b) && Idle(s, b)
    ensures Next(s, step, s') && Onward(s, step) && Work(s') < Work(s)
  {
    InReach(s, b);
    if s.phase.Copying? {
      step, s' := CopyOnward(s, b);
    } else {
      step, s' := InstallOnward(s, b);
    }
  }

  lemma CopyOnward(s: State, b: nat) returns (step: Step, s': State)
    requires s.phase.Copying? && WaitsFor(s, b) && Idle(s, b) && b in s.cache
    requires b < |s.disk.blocks| && s.g.start + 1 + s.phase.tail < |s.disk.blocks|
    ensures Next(s, step, s') && Onward(s, step) && Work(s') < Work(s)
  {
    var t := s.phase.tail;
    var disk := s.disk.(blocks := s.disk.blocks[s.g.start + 1 + t := s.cache[b].data]);
    step, s' := CopyStep, s.(phase := Copying(t + 1), disk := disk);
  }

  lemma InstallOnward(s: State, b: nat) returns (step: Step, s': State)
    requires s.phase.Installing? && WaitsFor(s, b) && Idle(s, b)
    requires b < |s.disk.blocks| && s.g.start + 1 + s.phase.tail < |s.disk.blocks|
    ensures Next(s, step, s') && Onward(s, step) && Work(s') < Work(s)
  {
    var t := s.phase.tail;
    var v := s.disk.blocks[s.g.start + 1 + t];
    var cache := if b in s.cache then s.cache[b := s.cache[b].(data := v, valid := true, dirty := false)] else s.cache;
    var disk := s.disk.(blocks := s.disk.blocks[b := v]);
    step, s' := InstallStep, s.(phase := Installing(t + 1, s.phase.boot), disk := disk, cache := cache);
  }

  lemma PhaseOnward(s: State) returns (step: Step, s': State)
    requires Inv(s) && !s.phase.Up?
    requires s.phase.Copying? || s.phase.Installing? ==> s.phase.tail >= |s.book.entries|
    ensures Next(s, step, s') && Onward(s, step) && Work(s') < Work(s)
  {
    match s.phase
    case Copying(t) =>
      step := PublishStep;
      s' := s.(phase := Installing(0, false), disk := s.disk.(head := s.book.entries), durable := |s.hist|);
    case Installing(t, boot) =>
      step, s' := ForgetStep, s.(phase := Erasing(boot), book := s.book.(entries := []));
    case Erasing(boot) =>
      step, s' := EraseStep, s.(phase := if boot then Up else Closing, disk := s.disk.(head := []));
    case Closing =>
      step, s' := CloseStep, s.(phase := Up, book := LogBook.Committed(s.book));
    case Down =>
      step, s' := ReadHeadStep, s.(phase := Installing(0, true), book := s.book.(entries := s.disk.head));
      assert s.cache == map[];
  }

  /** A run from `s` on. */
  ghost predicate Continues(s: State, states: seq<State>, steps: seq<Step>) {
    && |states| == |steps| + 1 && states[0] == s
    && forall i :: 0 <= i < |steps| ==> Next(states[i], steps[i], states[i + 1]) && Onward(states[i], steps[i])
  }

  lemma OneStepMore(s: State, step: Step, s': State, states: seq<State>, steps: seq<Step>)
    requires Next(s, step, s') && Onward(s, step) && Continues(s', states, steps)
    ensures Continues(s, [s] + states, [step] + steps)
  {
    var all, done := [s] + states, [step] + steps;
    forall i | 0 <= i < |done| ensures Next(all[i], done[i], all[i + 1]) && Onward(all[i], done[i]) {
      if i > 0 {
        assert all[i] == states[i - 1] && done[i] == steps[i - 1] && all[i + 1] == states[i];
      }
    }
  }

  lemma {:induction false} Finish(s: State) returns (states: seq<State>, steps: seq<Step>)
    requires Inv(s)
    ensures Continues(s, states, steps) && |steps| <= Work(s)
    ensures Inv(states[|steps|]) && states[|steps|].phase.Up?
    decreases Work(s)
  {
    if s.phase.Up? {
      states, steps := [s], [];
    } else {
      var step, s' := StepOnward(s);
      NextKeepsInv(s, step, s');
      var more, others := Finish(s');
      OneStepMore(s, step, s', more, others);
      states, steps := [s] + more, [step] + others;
    }
  }

  /** From every state of every run, a commit or a recovery under way can be brought to its end, with steps of its own
      and of those that hold a block it waits for; then operations are admitted again. If it was a commit or a recovery,
      everything that was done is durable. */
  lemma CommitCompletes(states: seq<State>, steps: seq<Step>, i: nat) returns (more: seq<State>, others: seq<Step>)
    requires Run(states, steps) && i < |states|
    ensures Continues(states[i], more, others) && |others| <= Work(states[i])
    ensures var end := more[|others|];
      && end.phase.Up? && (!states[i].phase.Up? ==> end.durable == |end.hist| && LogBook.Admits(end.book))
  {
    RunKeepsInv(states, steps, i);
    more, others := Finish(states[i]);
    if !states[i].phase.Up? {
      NoneBegan(states[i], more, others, |others|);
    }
  }

  /** Nobody begins an operation meanwhile. */
  lemma {:induction false} NoneBegan(s: State, states: seq<State>, steps: seq<Step>, i: nat)
    requires Continues(s, states, steps) && s.book.outstanding == 0 && i < |states|
    ensures states[i].book.outstanding == 0
    decreases i
  {
    if i > 0 {
      NoneBegan(s, states, steps, i - 1);
      assert Next(states[i - 1], steps[i - 1], states[i]) && Onward(states[i - 1], steps[i - 1]);
    }
  }
}
