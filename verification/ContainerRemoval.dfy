/**
 Removing and starting one container from any number of threads.  The removal
 flag is taken and given back like a lock; a start holds the container's lock
 while it creates the process.  An automatic restart takes neither.
 */
module ContainerRemoval {
  import opened Common

  type Thread = nat

  /** Where a caller of ContainerRm stands. */
  datatype PC =
    | Found                    // has the container, about to take the flag
    | Flagged                  // took the flag, about to look the container up again
    | Cleaning                 // about to test whether it is running
    | Stopping                 // about to stop it
    | Marking                  // the stop succeeded, about to mark it dead
    | Deleting                 // about to delete its files and indexes
    | Resetting                // about to give the flag back

  datatype Call =
    | Remove(pc: PC, linkOnly: bool, force: bool)
    | Creating                 // a start past its checks, holding the lock

  datatype State = State(
    removalInProgress: bool, dead: bool, running: bool,
    restarting: bool,          // exited, to be restarted after a delay; still counts as running
    registered: bool,
    lock: Option<Thread>,
    calls: map<Thread, Call>)

  const INITIAL := State(false, false, false, false, true, None, map[])

  datatype Step =
    | FindForRemoval(t: Thread, linkOnly: bool, force: bool)
    | TakeFlag(t: Thread)
    | LookUp(t: Thread)
    | TestRunning(t: Thread, killed: bool)
    | StopContainer(t: Thread, stopped: bool) // can succeed before the exit is handled
    | MarkDead(t: Thread)
    | DeleteContainer(t: Thread, deleted: bool)
    | GiveFlagBack(t: Thread)
    | Start(t: Thread)                        // lock and check
    | CreateProcess(t: Thread, created: bool) // and unlock
    | Exit                                    // the process exits for good
    | ExitToRestart                           // it exits and the restart policy applies
    | RestartProcess                          // the delay is over; needs no lock

  predicate At(s: State, t: Thread, pc: PC)
  {
    t in s.calls && s.calls[t].Remove? && s.calls[t].pc == pc
  }

  function Go(s: State, t: Thread, pc: PC): State
    requires t in s.calls && s.calls[t].Remove?
  {
    s.(calls := s.calls[t := s.calls[t].(pc := pc)])
  }

  function Leave(s: State, t: Thread): State
  {
    s.(calls := s.calls - {t})
  }

  /** The state after a step; none if it cannot be taken.  Steps on the flags need the lock free. */
  function Next(s: State, step: Step): Option<State>
  {
    match step
    case FindForRemoval(t, linkOnly, force) =>
      if t in s.calls || !s.registered then None
      else Some(s.(calls := s.calls[t := Remove(Found, linkOnly, force)]))
    case TakeFlag(t) =>
      if !At(s, t, Found) || s.lock.Some? then None
      else if s.removalInProgress then Some(Leave(s, t))
      else Some(Go(s.(removalInProgress := true), t, Flagged))
    case LookUp(t) =>
      if !At(s, t, Flagged) then None
      else Some(Go(s, t, if !s.registered || s.calls[t].linkOnly then Resetting else Cleaning))
    case TestRunning(t, killed) =>
      if !At(s, t, Cleaning) || s.lock.Some? then None
      else Some(Go(s, t, if s.running && !(s.calls[t].force && killed) then Resetting else Stopping))
    case StopContainer(t, stopped) =>
      if !At(s, t, Stopping) || s.lock.Some? then None
      else Some(Go(s, t, if stopped then Marking else Resetting))
    case MarkDead(t) =>
      if !At(s, t, Marking) || s.lock.Some? then None
      else Some(Go(s.(dead := true), t, Deleting))
    case DeleteContainer(t, deleted) =>
      if !At(s, t, Deleting) then None
      else Some(Go(s.(registered := s.registered && !(deleted || s.calls[t].force)), t, Resetting))
    case GiveFlagBack(t) =>
      if !At(s, t, Resetting) || s.lock.Some? then None
      else Some(Leave(s.(removalInProgress := false), t))
    case Start(t) =>
      if t in s.calls || s.lock.Some? then None
      else if s.running || s.removalInProgress || s.dead then Some(s)
      else Some(s.(lock := Some(t), calls := s.calls[t := Creating]))
    case CreateProcess(t, created) =>
      if t in s.calls && s.calls[t].Creating?
      then Some(Leave(s.(running := created, lock := None), t)) else None
    case Exit => if s.lock.Some? then None else Some(s.(running := false, restarting := false))
    case ExitToRestart => if s.lock.Some? || !s.running then None else Some(s.(restarting := true))
    case RestartProcess => if s.restarting then Some(s.(running := true, restarting := false)) else None
  }

  function Run(s: State, steps: seq<Step>): Option<State>
    decreases steps
  {
    if steps == [] then Some(s)
    else
      match Next(s, steps[0])
      case None => None
      case Some(t) => Run(t, steps[1..])
  }

  // ---- what holds in every state ----

  /** Between taking the flag and giving it back. */
  predicate InSection(s: State, t: Thread)
  {
    t in s.calls && s.calls[t].Remove? && s.calls[t].pc != Found
  }

  /** Inside the clean-up of the container. */
  predicate InCleanup(s: State, t: Thread)
  {
    InSection(s, t) && s.calls[t].pc != Flagged && s.calls[t].pc != Resetting
  }

  predicate CreatesProcess(s: State, t: Thread)
  {
    t in s.calls && s.calls[t].Creating?
  }

  /** What a caller between taking and giving back the flag may rely on, by where it stands. */
  predicate Relies(s: State, pc: PC)
  {
    && s.removalInProgress
    && (pc != Flagged && pc != Resetting ==> s.registered)
    && (pc == Deleting ==> s.dead)
  }

  ghost predicate Invariant(s: State)
  {
    && (forall t: Thread :: InSection(s, t) ==> Relies(s, s.calls[t].pc))
    && (s.removalInProgress ==> exists t: Thread :: InSection(s, t))
    && (forall t: Thread, u: Thread :: InSection(s, t) && InSection(s, u) ==> t == u)
    && (forall t: Thread :: CreatesProcess(s, t) ==> s.lock == Some(t))
    && (s.lock.Some? ==> CreatesProcess(s, s.lock.value) && !s.removalInProgress && !s.dead && !s.running)
    && (!s.registered ==> s.dead)
    && (s.restarting ==> s.running)
  }

  /** A step of a caller that holds the flag. */
  predicate HoldsFlag(step: Step)
  {
    step.LookUp? || step.TestRunning? || step.StopContainer? || step.MarkDead? || step.DeleteContainer? || step.GiveFlagBack?
  }

  /** A start, or something that happens to the process. */
  predicate IsProcessStep(step: Step)
  {
    step.Start? || step.CreateProcess? || step.Exit? || step.ExitToRestart? || step.RestartProcess?
  }

  lemma EnterStepKeeps(s: State, step: Step)
    requires Invariant(s) && Next(s, step).Some?
    requires step.FindForRemoval? || step.TakeFlag?
    ensures Invariant(Next(s, step).value)
  {
    var u := Next(s, step).value;
    var t := step.t;
    assert forall x: Thread :: x != t ==> (InSection(u, x) <==> InSection(s, x));
    if step.TakeFlag? && !s.removalInProgress {
      assert InSection(u, t);
    } else {
      assert !InSection(s, t) && !InSection(u, t);
    }
  }

  lemma HolderStepKeeps(s: State, step: Step)
    requires Invariant(s) && Next(s, step).Some? && HoldsFlag(step)
    ensures Invariant(Next(s, step).value)
  {
    var u := Next(s, step).value;
    var t := step.t;
    assert InSection(s, t);
    assert forall x: Thread :: x != t ==> (InSection(u, x) <==> InSection(s, x));
    assert forall x: Thread :: x != t ==> !InSection(u, x);
    assert step.GiveFlagBack? || InSection(u, t);
  }

  lemma StartStepKeeps(s: State, step: Step)
    requires Invariant(s) && Next(s, step).Some?
    requires IsProcessStep(step)
    ensures Invariant(Next(s, step).value)
  {
    var u := Next(s, step).value;
    assert forall x: Thread :: InSection(u, x) <==> InSection(s, x);
    if step.CreateProcess? {
      var t := step.t;
      assert CreatesProcess(s, t);
      assert forall x: Thread :: CreatesProcess(u, x) ==> CreatesProcess(s, x) && x != t;
    }
  }

  lemma StepKeeps(s: State, step: Step)
    requires Invariant(s) && Next(s, step).Some?
    ensures Invariant(Next(s, step).value)
  {
    if HoldsFlag(step) {
      HolderStepKeeps(s, step);
    } else if IsProcessStep(step) {
      StartStepKeeps(s, step);
    } else {
      EnterStepKeeps(s, step);
    }
  }

  lemma {:induction false} RunKeeps(s: State, steps: seq<Step>)
    requires Invariant(s) && Run(s, steps).Some?
    ensures Invariant(Run(s, steps).value)
    decreases steps
  {
    if steps != [] {
      StepKeeps(s, steps[0]);
      RunKeeps(Next(s, steps[0]).value, steps[1..]);
    }
  }

  /**
   In any interleaving: at most one caller is between taking the removal flag and
   giving it back; no start creates a process while the flag or the dead mark is
   set; and a container is deregistered only once it is marked dead.
   */
  lemma RemovalExcludesStart(steps: seq<Step>)
    requires Run(INITIAL, steps).Some?
    ensures var s := Run(INITIAL, steps).value;
            && (forall t: Thread, u: Thread :: InSection(s, t) && InSection(s, u) ==> t == u)
            && (forall t: Thread :: CreatesProcess(s, t) ==> !s.removalInProgress && !s.dead)
            && (!s.registered ==> s.dead)
  {
    RunKeeps(INITIAL, steps);
  }

  lemma DeadStep(s: State, step: Step)
    requires Invariant(s) && s.dead && Next(s, step).Some?
    ensures var u := Next(s, step).value; u.dead && (u.running <==> s.running && step != Exit)
  {
    assert forall t: Thread :: !CreatesProcess(s, t);
    assert forall x :: Next(s, x).Some? && x.CreateProcess? ==> CreatesProcess(s, x.t);
  }

  /** Dead is forever, and a dead container runs on just until its exit is handled. */
  lemma {:induction false} DeadRunsUntilExit(s: State, steps: seq<Step>)
    requires Invariant(s) && s.dead && Run(s, steps).Some?
    ensures var u := Run(s, steps).value; u.dead && (u.running <==> s.running && Exit !in steps)
    decreases steps
  {
    if steps != [] {
      StepKeeps(s, steps[0]);
      DeadStep(s, steps[0]);
      DeadRunsUntilExit(Next(s, steps[0]).value, steps[1..]);
      assert Exit in steps <==> steps[0] == Exit || Exit in steps[1..];
    }
  }

  lemma {:induction false} RunSplits(s: State, steps: seq<Step>, i: nat)
    requires Run(s, steps).Some? && i <= |steps|
    ensures Run(s, steps[..i]).Some? && Run(Run(s, steps[..i]).value, steps[i..]) == Run(s, steps)
    decreases i
  {
    if i == 0 {
      assert steps[..0] == [] && steps[0..] == steps;
    } else {
      RunSplits(Next(s, steps[0]).value, steps[1..], i - 1);
      assert steps[..i][1..] == steps[1..][..i - 1] && steps[1..][i - 1..] == steps[i..];
    }
  }

  lemma DiesByMark(s: State, step: Step)
    requires Next(s, step).Some? && !s.dead && Next(s, step).value.dead
    ensures step.MarkDead?
  {
  }

  lemma {:induction false} DeadWasMarked(s: State, steps: seq<Step>) returns (i: nat)
    requires Run(s, steps).Some? && !s.dead && Run(s, steps).value.dead
    ensures i < |steps| && steps[i].MarkDead?
    decreases steps
  {
    if Next(s, steps[0]).value.dead {
      DiesByMark(s, steps[0]);
      i := 0;
    } else {
      i := DeadWasMarked(Next(s, steps[0]).value, steps[1..]);
      i := i + 1;
    }
  }

  lemma RunsOnAfterMark(s: State, t: Thread, rest: seq<Step>)
    requires Invariant(s) && Next(s, MarkDead(t)).Some? && Run(Next(s, MarkDead(t)).value, rest).Some?
    ensures Run(Next(s, MarkDead(t)).value, rest).value.running <==> s.running && Exit !in rest
  {
    StepKeeps(s, MarkDead(t));
    DeadRunsUntilExit(Next(s, MarkDead(t)).value, rest);
  }

  /** Whether a container marked dead at step i runs in the end is settled by then and the exits that follow. */
  lemma MarkedDeadRuns(steps: seq<Step>, i: nat)
    requires Run(INITIAL, steps).Some? && i < |steps| && steps[i].MarkDead?
    ensures Run(INITIAL, steps[..i]).Some?
    ensures Run(INITIAL, steps).value.running <==> Run(INITIAL, steps[..i]).value.running && Exit !in steps[i..]
  {
    var rest := steps[i + 1..];
    RunSplits(INITIAL, steps, i);
    RunKeeps(INITIAL, steps[..i]);
    assert steps[i..] == [steps[i]] + rest;
    assert steps[i..][1..] == rest;
    RunsOnAfterMark(Run(INITIAL, steps[..i]).value, steps[i].t, rest);
  }

  /**
   A deregistered container has been marked dead.  It counts as running exactly
   when it did at the time it was marked and no exit has been handled since; this
   holds for each time it was marked.
   */
  lemma DeregisteredRunningExactly(steps: seq<Step>)
    requires Run(INITIAL, steps).Some? && !Run(INITIAL, steps).value.registered
    ensures exists i :: 0 <= i < |steps| && steps[i].MarkDead?
    ensures forall i :: 0 <= i < |steps| && steps[i].MarkDead? ==>
              && Run(INITIAL, steps[..i]).Some?
              && (Run(INITIAL, steps).value.running <==>
                    Run(INITIAL, steps[..i]).value.running && Exit !in steps[i..])
  {
    RemovalExcludesStart(steps);
    var i := DeadWasMarked(INITIAL, steps);
    forall i | 0 <= i < |steps| && steps[i].MarkDead?
      ensures Run(INITIAL, steps[..i]).Some?
      ensures Run(INITIAL, steps).value.running <==> Run(INITIAL, steps[..i]).value.running && Exit !in steps[i..]
    {
      MarkedDeadRuns(steps, i);
    }
  }

  // ---- whole removals ----

  /** The state in which one removal is the only call. */
  function Alone(s: State, pc: PC, force: bool): State
  {
    s.(calls := map[1 := Remove(pc, false, force)])
  }

  lemma GoAlone(s: State, from: PC, to: PC, force: bool)
    ensures Go(Alone(s, from, force), 1, to) == Alone(s, to, force)
  {
  }

  lemma RunFirst(s: State, step: Step, rest: seq<Step>)
    requires Next(s, step).Some?
    ensures Run(s, [step] + rest) == Run(Next(s, step).value, rest)
  {
  }

  /** The steps of a removal from some point on. */
  function Finish(deleted: bool): seq<Step>
  {
    [DeleteContainer(1, deleted)] + ([GiveFlagBack(1)] + [])
  }

  function TearDown(deleted: bool): seq<Step>
  {
    [StopContainer(1, true)] + ([MarkDead(1)] + Finish(deleted))
  }

  function CleanUp(deleted: bool): seq<Step>
  {
    [TakeFlag(1)] + ([LookUp(1)] + ([TestRunning(1, true)] + TearDown(deleted)))
  }

  lemma Finishes(dead: State, force: bool, deleted: bool)
    requires dead.lock == None && dead.calls == map[] && dead.registered
    ensures Run(Alone(dead, Deleting, force), Finish(deleted))
         == Some(dead.(removalInProgress := false, registered := !(deleted || force)))
  {
    var gone := dead.(registered := !(deleted || force));
    assert Alone(gone, Resetting, force).calls - {1} == map[];
    RunFirst(Alone(gone, Resetting, force), GiveFlagBack(1), []);
    GoAlone(gone, Deleting, Resetting, force);
    RunFirst(Alone(dead, Deleting, force), DeleteContainer(1, deleted), [GiveFlagBack(1)] + []);
  }

  lemma TornDown(held: State, force: bool, deleted: bool)
    requires held.lock == None && held.calls == map[] && held.registered
    ensures Run(Alone(held, Stopping, force), TearDown(deleted))
         == Some(held.(dead := true, removalInProgress := false, registered := !(deleted || force)))
  {
    var dead := held.(dead := true);
    Finishes(dead, force, deleted);
    GoAlone(dead, Marking, Deleting, force);
    RunFirst(Alone(held, Marking, force), MarkDead(1), Finish(deleted));
    GoAlone(held, Stopping, Marking, force);
    RunFirst(Alone(held, Stopping, force), StopContainer(1, true), [MarkDead(1)] + Finish(deleted));
  }

  lemma CleanedUp(up: State, force: bool, deleted: bool)
    requires up.lock == None && up.calls == map[] && up.registered && !up.removalInProgress && (force || !up.running)
    ensures Run(Alone(up, Found, force), CleanUp(deleted)) == Some(up.(dead := true, registered := !(deleted || force)))
  {
    var held := up.(removalInProgress := true);
    TornDown(held, force, deleted);
    GoAlone(held, Cleaning, Stopping, force);
    RunFirst(Alone(held, Cleaning, force), TestRunning(1, true), TearDown(deleted));
    GoAlone(held, Flagged, Cleaning, force);
    RunFirst(Alone(held, Flagged, force), LookUp(1), [TestRunning(1, true)] + TearDown(deleted));
    GoAlone(held, Found, Flagged, force);
    RunFirst(Alone(up, Found, force), TakeFlag(1), [LookUp(1)] + ([TestRunning(1, true)] + TearDown(deleted)));
  }

  /**
   A removal that stops the container goes through, of a stopped container or by
   force: the container ends up dead, it is deregistered if it was deleted or the
   removal was forced, and the flag is given back.
   */
  lemma RemovalGoesThrough(s: State, force: bool, deleted: bool)
    requires s.lock == None && s.calls == map[] && s.registered && !s.removalInProgress && (force || !s.running)
    ensures Run(s, [FindForRemoval(1, false, force)] + CleanUp(deleted))
         == Some(s.(dead := true, registered := !(deleted || force)))
  {
    CleanedUp(s, force, deleted);
    assert Next(s, FindForRemoval(1, false, force)).value == Alone(s, Found, force);
    RunFirst(s, FindForRemoval(1, false, force), CleanUp(deleted));
  }

  /** A second removal finds the flag taken and returns, leaving everything as it is. */
  lemma SecondRemovalReturns(s: State, t: Thread)
    requires s.removalInProgress && s.lock == None && At(s, t, Found)
    ensures Next(s, TakeFlag(t)) == Some(s.(calls := s.calls - {t}))
  {
  }

  /** A start alone leaves the container running exactly when the process was created. */
  lemma Started(created: bool, rest: seq<Step>)
    ensures Run(INITIAL, [Start(0)] + ([CreateProcess(0, created)] + rest)) == Run(INITIAL.(running := created), rest)
  {
    var creating := INITIAL.(lock := Some(0), calls := map[0 := Creating]);
    assert creating.calls - {0} == map[];
    RunFirst(creating, CreateProcess(0, created), rest);
    RunFirst(INITIAL, Start(0), [CreateProcess(0, created)] + rest);
  }

  /**
   It can be running: stopping a container whose process is gone succeeds even
   though the exit has not been handled, and the container is then deregistered
   while it still counts as running.
   */
  lemma DeregisteredWhileRunning()
    ensures exists steps: seq<Step> ::
              Run(INITIAL, steps).Some? && var s := Run(INITIAL, steps).value; s.dead && s.running && !s.registered
  {
    RemovalGoesThrough(INITIAL.(running := true), true, true);
    Started(true, [FindForRemoval(1, false, true)] + CleanUp(true));
  }

  // ---- what it takes to remove a container ----

  /** The kill of a forced removal that found the container running reported success. */
  predicate ForcesKill(s: State, step: Step)
  {
    step.TestRunning? && step.killed && step.t in s.calls && s.calls[step.t].Remove? && s.calls[step.t].force
  }

  ghost predicate NoForcedKill(s: State, steps: seq<Step>)
    decreases steps
  {
    steps == [] ||
    (!ForcesKill(s, steps[0]) && (Next(s, steps[0]).Some? ==> NoForcedKill(Next(s, steps[0]).value, steps[1..])))
  }

  /** Whoever is past the test for a running container found none, and a dead one is not running. */
  ghost predicate Gentle(s: State)
  {
    && (forall t: Thread :: InCleanup(s, t) && s.calls[t].pc != Cleaning ==> !s.running)
    && (s.dead ==> !s.running)
  }

  lemma GentleStep(s: State, step: Step)
    requires Invariant(s) && Gentle(s) && Next(s, step).Some? && !ForcesKill(s, step)
    ensures Gentle(Next(s, step).value)
  {
    var u := Next(s, step).value;
    if step.CreateProcess? {
      assert CreatesProcess(s, step.t);
    }
    forall t: Thread | InCleanup(u, t) && u.calls[t].pc != Cleaning ensures !u.running {
      assert InSection(u, t);
      assert InSection(s, t);
    }
  }

  lemma {:induction false} GentleRun(s: State, steps: seq<Step>)
    requires Invariant(s) && Gentle(s) && Run(s, steps).Some? && NoForcedKill(s, steps)
    ensures Gentle(Run(s, steps).value)
    decreases steps
  {
    if steps != [] {
      StepKeeps(s, steps[0]);
      GentleStep(s, steps[0]);
      GentleRun(Next(s, steps[0]).value, steps[1..]);
    }
  }

  ghost predicate Unforced(s: State)
  {
    forall t: Thread :: t in s.calls && s.calls[t].Remove? ==> !s.calls[t].force
  }

  lemma UnforcedStep(s: State, step: Step)
    requires Unforced(s) && Next(s, step).Some? && (step.FindForRemoval? ==> !step.force)
    ensures Unforced(Next(s, step).value)
  {
  }

  lemma {:induction false} UnforcedIsGentle(s: State, steps: seq<Step>)
    requires Unforced(s) && forall i :: 0 <= i < |steps| && steps[i].FindForRemoval? ==> !steps[i].force
    ensures NoForcedKill(s, steps)
    decreases steps
  {
    if steps != [] && Next(s, steps[0]).Some? {
      UnforcedStep(s, steps[0]);
      UnforcedIsGentle(Next(s, steps[0]).value, steps[1..]);
    }
  }

  /**
   A container removed without force, or by force but without a kill that
   reported success, is not running once it is marked dead or deregistered.
   */
  lemma OnlyForceRemovesRunning(steps: seq<Step>)
    requires Run(INITIAL, steps).Some?
    requires NoForcedKill(INITIAL, steps) || forall i :: 0 <= i < |steps| && steps[i].FindForRemoval? ==> !steps[i].force
    ensures var s := Run(INITIAL, steps).value; s.dead || !s.registered ==> !s.running
  {
    if forall i :: 0 <= i < |steps| && steps[i].FindForRemoval? ==> !steps[i].force {
      UnforcedIsGentle(INITIAL, steps);
    }
    GentleRun(INITIAL, steps);
    RemovalExcludesStart(steps);
  }

  /** A removal of the container itself that stopped it and marked it dead. */
  predicate Doomed(past: set<Step>, t: Thread, force: bool)
  {
    FindForRemoval(t, false, force) in past && StopContainer(t, true) in past && MarkDead(t) in past
  }

  /** A removal's call, with what must have happened for it to stand where it does. */
  predicate Came(past: set<Step>, t: Thread, c: Call)
    requires c.Remove?
  {
    && FindForRemoval(t, c.linkOnly, c.force) in past
    && (c.pc == Cleaning || c.pc == Stopping || c.pc == Marking || c.pc == Deleting ==> !c.linkOnly)
    && (c.pc == Marking || c.pc == Deleting ==> StopContainer(t, true) in past)
    && (c.pc == Deleting ==> MarkDead(t) in past)
  }

  ghost predicate History(past: set<Step>, s: State)
  {
    && (forall t: Thread :: t in s.calls && s.calls[t].Remove? ==> Came(past, t, s.calls[t]))
    && (s.dead ==> exists t: Thread, force :: Doomed(past, t, force))
    && (!s.registered ==> exists t: Thread, force, deleted ::
          Doomed(past, t, force) && DeleteContainer(t, deleted) in past && (deleted || force))
  }

  predicate ActsFor(step: Step, t: Thread)
  {
    !(step.Exit? || step.ExitToRestart? || step.RestartProcess?) && step.t == t
  }

  lemma OthersUnmoved(s: State, step: Step, t: Thread)
    requires Next(s, step).Some? && !ActsFor(step, t) && t in Next(s, step).value.calls
    ensures t in s.calls && Next(s, step).value.calls[t] == s.calls[t]
  {
    var u := Next(s, step).value;
    if HoldsFlag(step) {
      assert u.calls == s.calls - {step.t} || u.calls == s.calls[step.t := u.calls[step.t]];
    }
  }

  lemma CameMore(past: set<Step>, step: Step, t: Thread, c: Call)
    requires c.Remove? && Came(past, t, c)
    ensures Came(past + {step}, t, c)
  {
  }

  lemma ActorCame(past: set<Step>, s: State, step: Step, t: Thread)
    requires Next(s, step).Some? && ActsFor(step, t)
    requires t in Next(s, step).value.calls && Next(s, step).value.calls[t].Remove?
    requires t in s.calls && s.calls[t].Remove? ==> Came(past, t, s.calls[t])
    ensures Came(past + {step}, t, Next(s, step).value.calls[t])
  {
    assert step in past + {step};
    if !step.FindForRemoval? {
      CameMore(past, step, t, s.calls[t]);
    }
  }

  lemma CameStep(past: set<Step>, s: State, step: Step, t: Thread)
    requires History(past, s) && Next(s, step).Some?
    requires t in Next(s, step).value.calls && Next(s, step).value.calls[t].Remove?
    ensures Came(past + {step}, t, Next(s, step).value.calls[t])
  {
    if ActsFor(step, t) {
      ActorCame(past, s, step, t);
    } else {
      OthersUnmoved(s, step, t);
      CameMore(past, step, t, s.calls[t]);
    }
  }

  lemma HistoryStep(past: set<Step>, s: State, step: Step)
    requires History(past, s) && Next(s, step).Some?
    ensures History(past + {step}, Next(s, step).value)
  {
    var u, now := Next(s, step).value, past + {step};
    forall t: Thread | t in u.calls && u.calls[t].Remove? ensures Came(now, t, u.calls[t]) {
      CameStep(past, s, step, t);
    }
    if u.dead {
      if s.dead {
        var t: Thread, force :| Doomed(past, t, force);
        assert Doomed(now, t, force);
      } else {
        assert Came(past, step.t, s.calls[step.t]);
        assert Doomed(now, step.t, s.calls[step.t].force);
      }
    }
    if !u.registered {
      if !s.registered {
        var t: Thread, force, deleted :|
          Doomed(past, t, force) && DeleteContainer(t, deleted) in past && (deleted || force);
        assert Doomed(now, t, force);
      } else {
        assert Came(past, step.t, s.calls[step.t]);
        assert Doomed(now, step.t, s.calls[step.t].force);
      }
    }
  }

  ghost function Taken(steps: seq<Step>): set<Step>
  {
    set x | x in steps
  }

  lemma {:induction false} HistoryRun(past: set<Step>, s: State, steps: seq<Step>)
    requires History(past, s) && Run(s, steps).Some?
    ensures History(past + Taken(steps), Run(s, steps).value)
    decreases steps
  {
    if steps == [] {
      assert past + Taken(steps) == past;
    } else {
      HistoryStep(past, s, steps[0]);
      HistoryRun(past + {steps[0]}, Next(s, steps[0]).value, steps[1..]);
      assert past + {steps[0]} + Taken(steps[1..]) == past + Taken(steps);
    }
  }

  /**
   In any interleaving a deregistered container was removed by a call that was
   not for a link only, stopped it, marked it dead, and then deleted it or was
   forced.
   */
  lemma DeregisteredBecause(steps: seq<Step>)
    requires Run(INITIAL, steps).Some? && !Run(INITIAL, steps).value.registered
    ensures exists t: Thread, force, deleted ::
              && FindForRemoval(t, false, force) in steps && StopContainer(t, true) in steps && MarkDead(t) in steps
              && DeleteContainer(t, deleted) in steps && (deleted || force)
  {
    HistoryRun({}, INITIAL, steps);
    assert {} + Taken(steps) == Taken(steps);
    var t: Thread, force, deleted :|
      Doomed(Taken(steps), t, force) && DeleteContainer(t, deleted) in Taken(steps) && (deleted || force);
  }

  predicate Creates(step: Step)
  {
    step.RestartProcess? || (step.CreateProcess? && step.created)
  }

  /**
   What the flag and the dead mark keep out: in any state with either set, a step
   creates a process only if it is a restart that was pending, and that they do
   not keep out.
   */
  lemma CreatedUnderRemovalExactly(s: State)
    requires Invariant(s) && (s.removalInProgress || s.dead)
    ensures (exists step :: Next(s, step).Some? && Creates(step)) <==> s.restarting
  {
    if s.restarting {
      assert Next(s, RestartProcess).Some? && Creates(RestartProcess);
    }
    assert forall t: Thread :: !CreatesProcess(s, t);
    assert forall step :: Next(s, step).Some? && step.CreateProcess? ==> CreatesProcess(s, step.t);
  }

  /** A removal can take the flag while a restart is pending. */
  lemma RestartPendingUnderRemoval()
    ensures exists steps: seq<Step> ::
              Run(INITIAL, steps).Some? && var s := Run(INITIAL, steps).value; s.removalInProgress && s.restarting
  {
    var up := INITIAL.(running := true, restarting := true);
    GoAlone(up.(removalInProgress := true), Found, Flagged, true);
    RunFirst(Alone(up, Found, true), TakeFlag(1), []);
    RunFirst(up, FindForRemoval(1, false, true), [TakeFlag(1)] + []);
    var remove := [FindForRemoval(1, false, true)] + ([TakeFlag(1)] + []);
    RunFirst(INITIAL.(running := true), ExitToRestart, remove);
    Started(true, [ExitToRestart] + remove);
  }

  predicate EntersCleanup(s: State, step: Step)
  {
    step.LookUp? && Next(s, step).Some? && InCleanup(Next(s, step).value, step.t)
  }

  /**
   After one removal has deregistered the container no caller is in, or enters,
   its clean-up again, and no further removal finds it.
   */
  lemma {:induction false} CleanedUpOnce(s: State, steps: seq<Step>, i: nat)
    requires Invariant(s) && !s.registered && Run(s, steps).Some? && i <= |steps|
    ensures Run(s, steps[..i]).Some?
    ensures var u := Run(s, steps[..i]).value;
            && !u.registered && (forall t: Thread :: !InCleanup(u, t))
            && (i < |steps| ==> !EntersCleanup(u, steps[i]) && !steps[i].FindForRemoval?)
    decreases i
  {
    if i == 0 {
      assert steps[..0] == [];
    } else {
      var t := Next(s, steps[0]).value;
      StepKeeps(s, steps[0]);
      CleanedUpOnce(t, steps[1..], i - 1);
      assert steps[1..][..i - 1] == steps[..i][1..];
    }
  }
}
