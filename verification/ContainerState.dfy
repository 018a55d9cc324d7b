/**
 The run state of a container and the channel its waiters block on.  Each time
 the container stops or restarts, the current channel is closed, which wakes the
 waiters, and a new one is made.
 */
module ContainerState {
  import opened Common

  type Thread = nat
  type Channel = nat

  /** The state behind the container's lock; channels are numbered as they are made. */
  datatype Flags = Flags(running: bool, paused: bool, restarting: bool, pid: int, exitCode: int, waitChan: Channel)

  const CREATED := Flags(false, false, false, 0, 0, 0)

  function SetRunning(f: Flags, pid: int): Flags
  {
    Flags(true, false, false, pid, 0, f.waitChan)
  }

  /** Also closes the current channel. */
  function SetStopped(f: Flags, code: int): Flags
  {
    Flags(false, false, false, 0, code, f.waitChan + 1)
  }

  /** Also closes the current channel.  A restarting container counts as running. */
  function SetRestarting(f: Flags, code: int): Flags
  {
    Flags(true, f.paused, true, 0, code, f.waitChan + 1)
  }

  ghost predicate FlagsAgree(f: Flags)
  {
    && (f.restarting || f.paused ==> f.running)
    && (f.pid != 0 ==> f.running && !f.restarting)
  }

  // ---- waiters and events, interleaved ----

  datatype Waiter =
    | Blocked(on: Channel)     // waiting for a captured channel
    | Woken(from: Channel)     // the channel was closed; about to read the exit code
    | Returned(code: int)

  /** The flags, the channels closed in order, and every thread waiting for the container. */
  datatype State = State(flags: Flags, closings: seq<Channel>, waiters: map<Thread, Waiter>)

  const INITIAL := State(CREATED, [], map[])

  datatype Step =
    | StartWait(t: Thread)     // lock, return at once unless running, else capture the channel
    | Wake(t: Thread)
    | GiveUp(t: Thread)        // timeout or cancelled context
    | Collect(t: Thread)       // lock and read the exit code
    | Started(newPid: int)     // start or restore event
    | Exited(code: int)
    | Restarted(code: int)
    | Paused
    | Resumed
    | StartFailed(code: int)   // a failed start sets an exit code

  predicate IsClosed(s: State, c: Channel)
  {
    c in s.closings
  }

  /** The state after a step; none if it cannot be taken, which for Wake means blocking. */
  function Next(s: State, step: Step): Option<State>
  {
    match step
    case StartWait(t) =>
      if t in s.waiters then None
      else Some(s.(waiters := s.waiters[t := if s.flags.running then Blocked(s.flags.waitChan) else Returned(s.flags.exitCode)]))
    case Wake(t) =>
      if t in s.waiters && s.waiters[t].Blocked? && IsClosed(s, s.waiters[t].on)
      then Some(s.(waiters := s.waiters[t := Woken(s.waiters[t].on)])) else None
    case GiveUp(t) =>
      if t in s.waiters && s.waiters[t].Blocked? then Some(s.(waiters := s.waiters - {t})) else None
    case Collect(t) =>
      if t in s.waiters && s.waiters[t].Woken? then Some(s.(waiters := s.waiters[t := Returned(s.flags.exitCode)])) else None
    case Started(pid) => Some(s.(flags := SetRunning(s.flags, pid)))
    case Exited(code) => Some(s.(flags := SetStopped(s.flags, code), closings := s.closings + [s.flags.waitChan]))
    case Restarted(code) => Some(s.(flags := SetRestarting(s.flags, code), closings := s.closings + [s.flags.waitChan]))
    case Paused =>
      if s.flags.running && !s.flags.paused && !s.flags.restarting then Some(s.(flags := s.flags.(paused := true))) else None
    case Resumed => if s.flags.running && s.flags.paused then Some(s.(flags := s.flags.(paused := false))) else None
    case StartFailed(code) => Some(s.(flags := s.flags.(exitCode := code)))
  }

  function Run(s: State, steps: seq<Step>): Option<State>
    decreases steps
  {
    if steps == [] then Some(s)
    else
      match Next(s, steps[0])
      case None => None
      case Some(t) => Run(t, steps[1..])
  }

  // ---- what holds in every state ----

  ghost predicate Invariant(s: State)
  {
    && FlagsAgree(s.flags)
    && |s.closings| == s.flags.waitChan
    && (forall i :: 0 <= i < |s.closings| ==> s.closings[i] == i)
    && (forall t: Thread :: t in s.waiters ==> WaiterAgrees(s, s.waiters[t]))
  }

  /** A waiter on an open channel holds the current one, and the container is running. */
  ghost predicate WaiterAgrees(s: State, w: Waiter)
  {
    match w
    case Blocked(c) => !IsClosed(s, c) ==> c == s.flags.waitChan && s.flags.running
    case Woken(c) => IsClosed(s, c)
    case Returned(_) => true
  }

  lemma StepKeeps(s: State, step: Step)
    requires Invariant(s) && Next(s, step).Some?
    ensures Invariant(Next(s, step).value)
  {
  }

  lemma {:induction false} RunKeeps(s: State, steps: seq<Step>)
    requires Invariant(s) && Run(s, steps).Some?
    ensures Invariant(Run(s, steps).value)
    decreases steps
  {
    if steps != [] {
      StepKeeps(s, steps[0]);
      RunKeeps(Next(s, steps[0]).value, steps[1..]);
    }
  }

  /**
   In any interleaving: a waiter whose channel is still open holds the current
   channel of a running container, so the next stop wakes it; every channel
   before the current one was closed exactly once, in order; and the flags agree.
   */
  lemma NoLostWakeup(steps: seq<Step>)
    requires Run(INITIAL, steps).Some?
    ensures var s := Run(INITIAL, steps).value;
            && (forall t: Thread :: t in s.waiters && s.waiters[t].Blocked? && !IsClosed(s, s.waiters[t].on) ==>
                  s.waiters[t].on == s.flags.waitChan && s.flags.running)
            && s.closings == seq(s.flags.waitChan, i => i)
            && FlagsAgree(s.flags)
  {
    RunKeeps(INITIAL, steps);
    var s := Run(INITIAL, steps).value;
    forall t: Thread | t in s.waiters && s.waiters[t].Blocked? && !IsClosed(s, s.waiters[t].on)
      ensures s.waiters[t].on == s.flags.waitChan && s.flags.running
    {
      assert WaiterAgrees(s, s.waiters[t]);
    }
  }

  /** The container stops with a code, for good or to be restarted. */
  function StopWith(restart: bool, code: int): Step
  {
    if restart then Restarted(code) else Exited(code)
  }

  /** Every waiter can proceed once the container has stopped. */
  lemma StopWakesAll(s: State, restart: bool, code: int, t: Thread)
    requires Invariant(s) && t in s.waiters && s.waiters[t].Blocked?
    ensures var u := Next(s, StopWith(restart, code)).value;
            Next(u, Wake(t)).Some? && Next(Next(u, Wake(t)).value, Collect(t)).value.waiters[t] == Returned(code)
  {
  }

  /** A blocked waiter can always give up; it then waits no longer, and nothing else changes. */
  lemma GivesUp(s: State, t: Thread)
    requires t in s.waiters && s.waiters[t].Blocked?
    ensures var u := Next(s, GiveUp(t));
            && u.Some? && u.value == s.(waiters := u.value.waiters)
            && u.value.waiters.Keys == s.waiters.Keys - {t}
            && forall x: Thread :: x in u.value.waiters ==> u.value.waiters[x] == s.waiters[x]
  {
  }

  /** What can be paused and resumed: a running container that is neither paused nor restarting, and a paused one. */
  lemma PausesExactly(s: State)
    ensures Next(s, Paused).Some? <==> s.flags.running && !s.flags.paused && !s.flags.restarting
    ensures Next(s, Resumed).Some? <==> s.flags.running && s.flags.paused
  {
  }

  // ---- what the flags say after a run ----

  /** The events that decide whether the container runs. */
  predicate DecidesRunning(step: Step)
  {
    step.Started? || step.Exited? || step.Restarted?
  }

  predicate DecidesPaused(step: Step)
  {
    step.Started? || step.Exited? || step.Paused? || step.Resumed?
  }

  lemma {:induction false} RunningKept(s: State, steps: seq<Step>)
    requires Run(s, steps).Some? && forall i :: 0 <= i < |steps| ==> !DecidesRunning(steps[i])
    ensures var f := Run(s, steps).value.flags;
            f.running == s.flags.running && f.restarting == s.flags.restarting && f.pid == s.flags.pid
    decreases steps
  {
    if steps != [] {
      RunningKept(Next(s, steps[0]).value, steps[1..]);
    }
  }

  lemma {:induction false} PausedKept(s: State, steps: seq<Step>)
    requires Run(s, steps).Some? && forall i :: 0 <= i < |steps| ==> !DecidesPaused(steps[i])
    ensures Run(s, steps).value.flags.paused == s.flags.paused
    decreases steps
  {
    if steps != [] {
      PausedKept(Next(s, steps[0]).value, steps[1..]);
    }
  }

  lemma {:induction false} RunSplits(s: State, steps: seq<Step>, i: nat)
    requires Run(s, steps).Some? && i <= |steps|
    ensures Run(s, steps[..i]).Some? && Run(Run(s, steps[..i]).value, steps[i..]) == Run(s, steps)
    decreases i
  {
    if i == 0 {
      assert steps[..0] == [] && steps[0..] == steps;
    } else {
      RunSplits(Next(s, steps[0]).value, steps[1..], i - 1);
      assert steps[..i][1..] == steps[1..][..i - 1] && steps[1..][i - 1..] == steps[i..];
    }
  }

  /**
   In every run the last start, exit or restart decides: a started container runs
   with its pid, an exited one does not run, a restarting one counts as running
   without a pid.
   */
  lemma LastEventDecides(s: State, steps: seq<Step>, i: nat)
    requires Run(s, steps).Some? && i < |steps| && DecidesRunning(steps[i])
    requires forall k :: i < k < |steps| ==> !DecidesRunning(steps[k])
    ensures var f := Run(s, steps).value.flags;
            && (steps[i].Started? ==> f.running && !f.restarting && f.pid == steps[i].newPid)
            && (steps[i].Exited? ==> !f.running && !f.restarting && f.pid == 0)
            && (steps[i].Restarted? ==> f.running && f.restarting && f.pid == 0)
  {
    RunSplits(s, steps, i);
    assert steps[i..][0] == steps[i] && steps[i..][1..] == steps[i + 1..];
    RunningKept(Next(Run(s, steps[..i]).value, steps[i]).value, steps[i + 1..]);
  }

  /** A container is paused exactly when the last pause, resume, start or exit was a pause. */
  lemma LastPauseDecides(s: State, steps: seq<Step>, i: nat)
    requires Run(s, steps).Some? && i < |steps| && DecidesPaused(steps[i])
    requires forall k :: i < k < |steps| ==> !DecidesPaused(steps[k])
    ensures Run(s, steps).value.flags.paused <==> steps[i].Paused?
  {
    RunSplits(s, steps, i);
    assert steps[i..][0] == steps[i] && steps[i..][1..] == steps[i + 1..];
    PausedKept(Next(Run(s, steps[..i]).value, steps[i]).value, steps[i + 1..]);
  }

  // ---- which exit code a waiter gets ----

  /** The exit code in force after the steps. */
  function CodeAfter(code: int, steps: seq<Step>): int
    decreases steps
  {
    if steps == [] then code
    else
      CodeAfter(match steps[0]
                case Started(_) => 0
                case Exited(c) => c
                case Restarted(c) => c
                case StartFailed(c) => c
                case _ => code,
                steps[1..])
  }

  predicate SetsCode(step: Step)
  {
    step.Started? || step.Exited? || step.Restarted? || step.StartFailed?
  }

  lemma {:induction false} CodeInForce(s: State, steps: seq<Step>)
    requires Run(s, steps).Some?
    ensures Run(s, steps).value.flags.exitCode == CodeAfter(s.flags.exitCode, steps)
    decreases steps
  {
    if steps != [] {
      CodeInForce(Next(s, steps[0]).value, steps[1..]);
    }
  }

  /** Whatever the code, it is still in force after the steps. */
  ghost predicate KeepsCode(steps: seq<Step>)
  {
    forall code :: CodeAfter(code, steps) == code
  }

  lemma {:induction false} KeepsCodeExactly(steps: seq<Step>)
    ensures KeepsCode(steps) <==> forall i :: 0 <= i < |steps| ==> !SetsCode(steps[i])
    decreases steps
  {
    if steps != [] {
      var rest := steps[1..];
      KeepsCodeExactly(rest);
      assert forall i :: 0 <= i < |rest| ==> rest[i] == steps[i + 1];
      assert forall i :: 0 < i < |steps| ==> steps[i] == rest[i - 1];
      if SetsCode(steps[0]) {
        assert CodeAfter(0, steps) == CodeAfter(1, steps);
      } else {
        forall code ensures CodeAfter(code, steps) == CodeAfter(code, rest) {
        }
        if KeepsCode(steps) {
          forall code ensures CodeAfter(code, rest) == code {
            assert CodeAfter(code, steps) == code;
          }
        }
      }
    }
  }

  /** Two states that differ at most in exit codes, stored or returned. */
  ghost predicate SameButCodes(s: State, u: State)
  {
    && s.flags.(exitCode := 0) == u.flags.(exitCode := 0)
    && s.closings == u.closings
    && s.waiters.Keys == u.waiters.Keys
    && forall t: Thread :: t in s.waiters ==> s.waiters[t] == u.waiters[t] || (s.waiters[t].Returned? && u.waiters[t].Returned?)
  }

  lemma StepIgnoresCodes(s: State, u: State, step: Step)
    requires SameButCodes(s, u) && Next(s, step).Some?
    ensures Next(u, step).Some? && SameButCodes(Next(s, step).value, Next(u, step).value)
  {
  }

  /** No exit code decides which steps can be taken. */
  lemma {:induction false} RunIgnoresCodes(s: State, u: State, steps: seq<Step>)
    requires SameButCodes(s, u) && Run(s, steps).Some?
    ensures Run(u, steps).Some? && SameButCodes(Run(s, steps).value, Run(u, steps).value)
    decreases steps
  {
    if steps != [] {
      StepIgnoresCodes(s, u, steps[0]);
      RunIgnoresCodes(Next(s, steps[0]).value, Next(u, steps[0]).value, steps[1..]);
    }
  }

  /** What thread t returns if the container stops in state s, the steps follow, and t then reads the code. */
  function CodeReturned(s: State, restart: bool, code: int, steps: seq<Step>, t: Thread): Option<int>
  {
    match Run(Next(s, StopWith(restart, code)).value, steps)
    case None => None
    case Some(u) => if Next(u, Collect(t)).Some? then Some(Next(u, Collect(t)).value.waiters[t].code) else None
  }

  lemma CollectsCodeInForce(s: State, restart: bool, code: int, steps: seq<Step>, t: Thread)
    ensures var r := CodeReturned(s, restart, code, steps, t); r.Some? ==> r.value == CodeAfter(code, steps)
  {
    var u := Next(s, StopWith(restart, code)).value;
    if Run(u, steps).Some? {
      CodeInForce(u, steps);
    }
  }

  lemma ReadsWhateverTheCode(s: State, restart: bool, steps: seq<Step>, t: Thread, code: int, other: int)
    requires CodeReturned(s, restart, code, steps, t).Some?
    ensures CodeReturned(s, restart, other, steps, t).Some?
  {
    RunIgnoresCodes(Next(s, StopWith(restart, code)).value, Next(s, StopWith(restart, other)).value, steps);
  }

  /**
   A waiter is promised the code its container stopped with.  Take a waiter on
   the current channel, a stop, any steps after it, and then its reading of the
   code.  It returns the code of the stop, whatever that is, exactly when none of
   the steps in between sets the code.  (Whether it can read at all does not
   depend on the code, so that 0 stands for any.)
   */
  lemma PromisedCode(s: State, restart: bool, steps: seq<Step>, t: Thread)
    requires t in s.waiters && s.waiters[t] == Blocked(s.flags.waitChan)
    requires CodeReturned(s, restart, 0, steps, t).Some?
    ensures (forall code :: CodeReturned(s, restart, code, steps, t) == Some(code))
            <==> forall i :: 0 <= i < |steps| ==> !SetsCode(steps[i])
  {
    KeepsCodeExactly(steps);
    forall code ensures CodeReturned(s, restart, code, steps, t) == Some(CodeAfter(code, steps)) {
      ReadsWhateverTheCode(s, restart, steps, t, 0, code);
      CollectsCodeInForce(s, restart, code, steps, t);
    }
    if forall code :: CodeReturned(s, restart, code, steps, t) == Some(code) {
      forall code ensures CodeAfter(code, steps) == code {
        assert CodeReturned(s, restart, code, steps, t) == Some(code);
      }
    }
  }

  /** A wait begun after an exit returns its code at once, as long as nothing started or set the code since. */
  lemma WaitAfterExit(s: State, code: int, steps: seq<Step>, t: Thread)
    requires Run(Next(s, Exited(code)).value, steps).Some?
    requires t !in Run(Next(s, Exited(code)).value, steps).value.waiters
    requires forall i :: 0 <= i < |steps| ==> !SetsCode(steps[i])
    ensures var u := Next(Run(Next(s, Exited(code)).value, steps).value, StartWait(t));
            u.Some? && u.value.waiters[t] == Returned(code)
  {
    var u := Next(s, Exited(code)).value;
    RunningKept(u, steps);
    CodeInForce(u, steps);
    KeepsCodeExactly(steps);
  }

  /** A container restarted in time hides the code: stopped with 7, the waiter reads 0. */
  lemma RestartHidesCode()
    ensures var steps := [Started(1), StartWait(0), Exited(7), Started(2), Wake(0), Collect(0)];
            Run(INITIAL, steps).Some? && 0 in Run(INITIAL, steps).value.waiters
            && Run(INITIAL, steps).value.waiters[0] == Returned(0)
  {
  }

  // ---- the state itself ----

  class ContainerState {
    var running: bool
    var paused: bool
    var restarting: bool
    var pid: int
    var exitCode: int
    var waitChan: Channel
    var closed: set<Channel>

    ghost function Value(): Flags
      reads this
    {
      Flags(running, paused, restarting, pid, exitCode, waitChan)
    }

    /** The current channel is open and all earlier ones are closed. */
    ghost predicate Valid()
      reads this
    {
      FlagsAgree(Value()) && forall c: Channel :: c in closed <==> c < waitChan
    }

    constructor ()
      ensures Valid() && Value() == CREATED
    {
      running, paused, restarting, pid, exitCode, waitChan, closed := false, false, false, 0, 0, 0, {};
    }

    method Run(newPid: int)
      requires Valid()
      modifies this
      ensures Valid() && Value() == SetRunning(old(Value()), newPid) && closed == old(closed)
    {
      running, paused, restarting, exitCode, pid := true, false, false, 0, newPid;
    }

    /** Closing the channel is legal because it is open; the new one is open too. */
    method CloseWaitChan()
      requires waitChan !in closed && forall c: Channel :: c in closed <==> c < waitChan
      modifies this`closed, this`waitChan
      ensures closed == old(closed) + {old(waitChan)} && waitChan == old(waitChan) + 1
      ensures forall c: Channel :: c in closed <==> c < waitChan
    {
      closed := closed + {waitChan};
      waitChan := waitChan + 1;
    }

    method Stop(code: int)
      requires Valid()
      modifies this
      ensures Valid() && Value() == SetStopped(old(Value()), code) && old(waitChan) in closed
    {
      running, paused, restarting, pid, exitCode := false, false, false, 0, code;
      CloseWaitChan();
    }

    method Restart(code: int)
      requires Valid()
      modifies this
      ensures Valid() && Value() == SetRestarting(old(Value()), code) && old(waitChan) in closed
    {
      running, restarting, pid, exitCode := true, true, 0, code;
      CloseWaitChan();
    }
  }
}
