/**
 Starting and stopping the health monitor of a container.

 Threads open or close the monitor channel, most of them with the container
 locked.  Without the lock `containerStop` closes it, the handler of
 out-of-memory events opens or closes it, and the start event of an automatic
 restart closes and opens it.  The monitor goroutine started for a channel runs
 until it receives a stop request from it.  Steps of all threads and monitors
 interleave in any order.
 */
module MonitorProtocol {
  import opened Common

  type Thread = nat
  type Channel = nat

  datatype Op = Open | Close

  /** Where a thread stands in its current operation. */
  datatype PC =
    | Check                  // about to test whether there is a channel
    | Install                // saw none: about to create one and start a monitor
    | Load                   // saw one: about to evaluate it for the send
    | Sending(to: Option<Channel>)  // blocked in the send; on no channel, forever
    | Clear(of: Channel)     // the send went through: about to forget the channel

  datatype Caller = Caller(locked: bool, pc: PC, op: Op, rest: seq<Op>)

  /** Applying: has a result and needs the lock.  Draining: waits for the probe to exit. */
  datatype Phase = Idle | Probing | Applying(timedOut: bool) | Draining | Exited

  datatype State = State(
    stop: Option<Channel>,
    next: Channel,                   // channels are numbered in the order they are made
    monitors: map<Channel, Phase>,   // the monitor started for each channel
    callers: map<Thread, Caller>,
    lock: Option<Thread>)

  const INITIAL := State(None, 0, map[], map[], None)

  // ---- steps ----

  datatype Step =
    | Begin(t: Thread, locked: bool, ops: seq<Op>)
    | Advance(t: Thread)              // a step of a thread on its own
    | Rendezvous(t: Thread)           // a thread's send is received by the monitor
    | Tick(m: Channel)                // the interval is over: run a probe
    | Result(m: Channel)              // the probe is done
    | Timeout(m: Channel)
    | Apply(m: Channel)               // lock, record the result, unlock
    | Drained(m: Channel)

  /** The caller goes on to its next operation, or is done and releases the lock. */
  function Finish(s: State, t: Thread, c: Caller): State
  {
    if c.rest == [] then s.(callers := s.callers - {t}, lock := if c.locked then None else s.lock)
    else s.(callers := s.callers[t := Caller(c.locked, Check, c.rest[0], c.rest[1..])])
  }

  function At(s: State, t: Thread, c: Caller, pc: PC): State
  {
    s.(callers := s.callers[t := c.(pc := pc)])
  }

  function AdvanceCaller(s: State, t: Thread, c: Caller): Option<State>
  {
    match c.pc
    case Check =>
      if c.op.Open? then Some(if s.stop.None? then At(s, t, c, Install) else Finish(s, t, c))
      else Some(if s.stop.Some? then At(s, t, c, Load) else Finish(s, t, c))
    case Install =>
      Some(Finish(s.(stop := Some(s.next), next := s.next + 1, monitors := s.monitors[s.next := Idle]), t, c))
    case Load => Some(At(s, t, c, Sending(s.stop)))
    case Sending(_) => None
    case Clear(_) => Some(Finish(s.(stop := None), t, c))
  }

  function SetPhase(s: State, m: Channel, from: Phase, to: Phase): Option<State>
  {
    if m in s.monitors && s.monitors[m] == from then Some(s.(monitors := s.monitors[m := to])) else None
  }

  /** The state after a step; none if the step cannot be taken. */
  function Next(s: State, step: Step): Option<State>
  {
    match step
    case Begin(t, locked, ops) =>
      if t in s.callers || ops == [] || (locked && s.lock.Some?) then None
      else Some(s.(callers := s.callers[t := Caller(locked, Check, ops[0], ops[1..])],
                   lock := if locked then Some(t) else s.lock))
    case Advance(t) => if t in s.callers then AdvanceCaller(s, t, s.callers[t]) else None
    case Rendezvous(t) =>
      if t in s.callers && s.callers[t].pc.Sending? && s.callers[t].pc.to.Some? then
        var m := s.callers[t].pc.to.value;
        if m in s.monitors && (s.monitors[m].Idle? || s.monitors[m].Probing?)
        then Some(At(s.(monitors := s.monitors[m := Exited]), t, s.callers[t], Clear(m)))
        else None
      else None
    case Tick(m) => SetPhase(s, m, Idle, Probing)
    case Result(m) => SetPhase(s, m, Probing, Applying(false))
    case Timeout(m) => SetPhase(s, m, Probing, Applying(true))
    case Apply(m) =>
      if m in s.monitors && s.monitors[m].Applying? && s.lock.None?
      then Some(s.(monitors := s.monitors[m := if s.monitors[m].timedOut then Draining else Idle]))
      else None
    case Drained(m) => SetPhase(s, m, Draining, Idle)
  }

  function Run(s: State, steps: seq<Step>): Option<State>
    decreases steps
  {
    if steps == [] then Some(s)
    else
      match Next(s, steps[0])
      case None => None
      case Some(t) => Run(t, steps[1..])
  }

  // ---- what holds in every state ----

  predicate Live(s: State, m: Channel)
  {
    m in s.monitors && !s.monitors[m].Exited?
  }

  predicate Opens(c: Caller)
  {
    c.op.Open? || Open in c.rest
  }

  ghost predicate InstallingThread(s: State, t: Thread)
  {
    t in s.callers && s.callers[t].pc.Install?
  }

  ghost predicate ClearingThread(s: State, t: Thread)
  {
    t in s.callers && s.callers[t].pc.Clear?
  }

  /** Callers agree with the lock: the holder is the only locked caller. */
  ghost predicate LockAgrees(s: State)
  {
    && (forall t: Thread :: t in s.callers && s.callers[t].locked ==> s.lock == Some(t))
    && (s.lock.Some? ==> s.lock.value in s.callers && s.callers[s.lock.value].locked)
  }

  ghost predicate Invariant(s: State)
  {
    && LockAgrees(s)
    && (forall m: Channel :: m in s.monitors ==> m < s.next)
    // whoever may open holds the lock
    && (forall t: Thread :: t in s.callers && Opens(s.callers[t]) ==> s.callers[t].locked)
    // only the current channel can have a live monitor
    && (forall m: Channel :: Live(s, m) ==> s.stop == Some(m))
    && (s.stop.Some? ==> s.stop.value in s.monitors)
    // a thread about to install a channel still finds none
    && (forall t: Thread :: InstallingThread(s, t) ==> s.stop.None? && s.callers[t].op.Open?)
    // a thread about to forget a channel has stopped the monitor of the current one
    && (forall t: Thread :: ClearingThread(s, t) ==> s.stop == Some(s.callers[t].pc.of) && !Live(s, s.callers[t].pc.of))
    && (forall t: Thread, u: Thread :: ClearingThread(s, t) && ClearingThread(s, u) ==> t == u)
    // a channel whose monitor has stopped is about to be forgotten
    && (s.stop.Some? && !Live(s, s.stop.value) ==> exists t: Thread :: ClearingThread(s, t))
  }

  /** Steps in which whoever may open the channel takes the lock. */
  predicate OpensLocked(step: Step)
  {
    step.Begin? && Open in step.ops ==> step.locked
  }

  lemma CheckKeeps(s: State, t: Thread)
    requires Invariant(s) && t in s.callers && s.callers[t].pc.Check?
    ensures Invariant(AdvanceCaller(s, t, s.callers[t]).value)
  {
    var c := s.callers[t];
    if c.op.Open? && s.stop.None? {
      var u := At(s, t, c, Install);
      assert forall x: Thread :: ClearingThread(u, x) <==> ClearingThread(s, x);
    } else if c.op.Close? && s.stop.Some? {
      var u := At(s, t, c, Load);
      assert forall x: Thread :: ClearingThread(u, x) <==> ClearingThread(s, x);
    } else {
      FinishKeeps(s, t);
    }
  }

  lemma FinishKeeps(s: State, t: Thread)
    requires Invariant(s) && t in s.callers && s.callers[t].pc.Check?
    ensures Invariant(Finish(s, t, s.callers[t]))
  {
    var u := Finish(s, t, s.callers[t]);
    assert forall x: Thread :: ClearingThread(u, x) <==> ClearingThread(s, x);
  }

  lemma InstallKeeps(s: State, t: Thread)
    requires Invariant(s) && InstallingThread(s, t)
    ensures Invariant(AdvanceCaller(s, t, s.callers[t]).value)
  {
  }

  lemma LoadKeeps(s: State, t: Thread)
    requires Invariant(s) && t in s.callers && s.callers[t].pc.Load?
    ensures Invariant(AdvanceCaller(s, t, s.callers[t]).value)
  {
    var u := AdvanceCaller(s, t, s.callers[t]).value;
    assert forall x: Thread :: ClearingThread(u, x) <==> ClearingThread(s, x);
  }

  lemma ClearKeeps(s: State, t: Thread)
    requires Invariant(s) && ClearingThread(s, t)
    ensures Invariant(AdvanceCaller(s, t, s.callers[t]).value)
  {
    var u := AdvanceCaller(s, t, s.callers[t]).value;
    assert forall x: Thread :: ClearingThread(u, x) ==> ClearingThread(s, x) && x != t;
    assert forall m: Channel :: Live(u, m) <==> Live(s, m);
  }

  lemma RendezvousKeeps(s: State, t: Thread)
    requires Invariant(s) && Next(s, Rendezvous(t)).Some?
    ensures Invariant(Next(s, Rendezvous(t)).value)
  {
    var u := Next(s, Rendezvous(t)).value;
    var m := s.callers[t].pc.to.value;
    assert Live(s, m) && s.stop == Some(m);
    assert forall x: Thread :: !ClearingThread(s, x);
    assert ClearingThread(u, t);
    assert forall x: Channel :: Live(u, x) ==> Live(s, x);
  }

  lemma BeginKeeps(s: State, step: Step)
    requires Invariant(s) && step.Begin? && OpensLocked(step) && Next(s, step).Some?
    ensures Invariant(Next(s, step).value)
  {
    var u := Next(s, step).value;
    assert forall x: Thread :: ClearingThread(u, x) <==> ClearingThread(s, x);
    assert step.ops[0] in step.ops && forall o :: o in step.ops[1..] ==> o in step.ops;
  }

  lemma MonitorKeeps(s: State, step: Step)
    requires Invariant(s) && Next(s, step).Some?
    requires step.Tick? || step.Result? || step.Timeout? || step.Apply? || step.Drained?
    ensures Invariant(Next(s, step).value)
  {
    match step
    case Tick(m) => PhaseKeeps(s, m, Probing);
    case Result(m) => PhaseKeeps(s, m, Applying(false));
    case Timeout(m) => PhaseKeeps(s, m, Applying(true));
    case Apply(m) => PhaseKeeps(s, m, if s.monitors[m].timedOut then Draining else Idle);
    case Drained(m) => PhaseKeeps(s, m, Idle);
  }

  lemma PhaseKeeps(s: State, m: Channel, phase: Phase)
    requires Invariant(s) && Live(s, m) && !phase.Exited?
    ensures Invariant(s.(monitors := s.monitors[m := phase]))
  {
  }

  lemma StepKeeps(s: State, step: Step)
    requires Invariant(s) && OpensLocked(step) && Next(s, step).Some?
    ensures Invariant(Next(s, step).value)
  {
    match step
    case Begin(_, _, _) => BeginKeeps(s, step);
    case Rendezvous(t) => RendezvousKeeps(s, t);
    case Advance(t) =>
      match s.callers[t].pc {
        case Check => CheckKeeps(s, t);
        case Install => InstallKeeps(s, t);
        case Load => LoadKeeps(s, t);
        case Sending(_) =>
        case Clear(_) => ClearKeeps(s, t);
      }
    case _ => MonitorKeeps(s, step);
  }

  // ---- whole runs ----

  lemma {:induction false} RunKeeps(s: State, steps: seq<Step>)
    requires Invariant(s) && Run(s, steps).Some?
    requires forall i :: 0 <= i < |steps| ==> OpensLocked(steps[i])
    ensures Invariant(Run(s, steps).value)
    decreases steps
  {
    if steps != [] {
      StepKeeps(s, steps[0]);
      RunKeeps(Next(s, steps[0]).value, steps[1..]);
    }
  }

  /**
   In every run in which whoever opens the channel holds the lock, there is never
   a second live monitor, and there is a channel exactly when its monitor is live
   or a thread has just stopped that monitor and is about to forget the channel.
   */
  lemma OneMonitor(steps: seq<Step>)
    requires Run(INITIAL, steps).Some?
    requires forall i :: 0 <= i < |steps| ==> OpensLocked(steps[i])
    ensures var s := Run(INITIAL, steps).value;
            && (forall m: Channel, n: Channel :: Live(s, m) && Live(s, n) ==> m == n)
            && (forall m: Channel :: Live(s, m) ==> s.stop == Some(m))
            && (s.stop.Some? ==> Live(s, s.stop.value) || exists t: Thread :: ClearingThread(s, t))
  {
    RunKeeps(INITIAL, steps);
  }

  /** A monitor that has received a stop request stays stopped. */
  lemma {:induction false} ExitedStays(s: State, steps: seq<Step>, m: Channel)
    requires Run(s, steps).Some? && m in s.monitors && s.monitors[m].Exited? && m < s.next
    ensures var t := Run(s, steps).value; m in t.monitors && t.monitors[m].Exited?
    ensures forall i :: 0 <= i < |steps| ==> steps[i] != Apply(m)
    decreases steps
  {
    if steps != [] {
      var t := Next(s, steps[0]).value;
      assert m in t.monitors && t.monitors[m].Exited? && m < t.next;
      ExitedStays(t, steps[1..], m);
      forall i | 0 <= i < |steps| ensures steps[i] != Apply(m) {
        if i > 0 {
          assert steps[i] == steps[1..][i - 1];
        }
      }
    }
  }

  /** With or without locks, a thread about to forget a channel has stopped its monitor. */
  ghost predicate Stopped(s: State)
  {
    && (forall m: Channel :: m in s.monitors ==> m < s.next)
    && (forall t: Thread :: ClearingThread(s, t) ==>
          s.callers[t].pc.of in s.monitors && s.monitors[s.callers[t].pc.of].Exited?)
  }

  lemma StepStopped(s: State, step: Step)
    requires Stopped(s) && Next(s, step).Some?
    ensures Stopped(Next(s, step).value)
  {
    var u := Next(s, step).value;
    forall t: Thread | ClearingThread(u, t)
      ensures u.callers[t].pc.of in u.monitors && u.monitors[u.callers[t].pc.of].Exited?
    {
      assert ClearingThread(s, t) || step == Rendezvous(t);
    }
  }

  lemma {:induction false} RunStopped(s: State, steps: seq<Step>)
    requires Stopped(s) && Run(s, steps).Some?
    ensures Stopped(Run(s, steps).value)
    decreases steps
  {
    if steps != [] {
      StepStopped(s, steps[0]);
      RunStopped(Next(s, steps[0]).value, steps[1..]);
    }
  }

  /**
   Once the send that stops a monitor has gone through, no result of that monitor
   is applied any more; this needs no locks.
   */
  lemma NoResultAfterClose(before: seq<Step>, t: Thread, after: seq<Step>)
    requires Run(INITIAL, before).Some? && ClearingThread(Run(INITIAL, before).value, t)
    requires Run(Run(INITIAL, before).value, after).Some?
    ensures var m := Run(INITIAL, before).value.callers[t].pc.of;
            forall i :: 0 <= i < |after| ==> after[i] != Apply(m)
  {
    RunStopped(INITIAL, before);
    var s := Run(INITIAL, before).value;
    ExitedStays(s, after, s.callers[t].pc.of);
  }

  // ---- what opening and closing achieve ----

  /** Thread t is closing, with the lock, and has not stopped monitor m yet. */
  ghost predicate StillClosing(s: State, t: Thread, rest: seq<Op>, m: Channel)
  {
    && t in s.callers && s.callers[t].locked && s.callers[t].op == Close && s.callers[t].rest == rest
    && (s.callers[t].pc == Check || s.callers[t].pc == Load || s.callers[t].pc == Sending(Some(m)))
  }

  lemma ClosingStep(s: State, t: Thread, rest: seq<Op>, m: Channel, step: Step)
    requires Invariant(s) && Live(s, m) && StillClosing(s, t, rest, m) && Next(s, step).Some?
    ensures var u := Next(s, step).value; if Live(u, m) then StillClosing(u, t, rest, m) else m in u.monitors
  {
  }

  /**
   A close that finds a channel stops its monitor: from the moment a caller with
   the lock starts to close, whatever the others do, the monitor that was live
   is stopped by the time the caller is through with closing.
   */
  lemma {:induction false} CloseStops(s: State, t: Thread, rest: seq<Op>, m: Channel, steps: seq<Step>)
    requires Invariant(s) && Live(s, m) && StillClosing(s, t, rest, m) && m < s.next
    requires Run(s, steps).Some? && forall i :: 0 <= i < |steps| ==> OpensLocked(steps[i])
    ensures var u := Run(s, steps).value; StillClosing(u, t, rest, m) || (m in u.monitors && u.monitors[m].Exited?)
    decreases steps
  {
    if steps != [] {
      var u := Next(s, steps[0]).value;
      StepKeeps(s, steps[0]);
      ClosingStep(s, t, rest, m, steps[0]);
      if Live(u, m) {
        CloseStops(u, t, rest, m, steps[1..]);
      } else {
        ExitedStays(u, steps[1..], m);
      }
    }
  }

  /**
   An open leaves a channel behind: a caller that is through with opening leaves
   one, with a new live monitor if there was none.
   */
  lemma OpenLeavesChannel(s: State, t: Thread)
    requires t in s.callers && s.callers[t].op == Open && (s.callers[t].pc == Check || s.callers[t].pc == Install)
    ensures var u := Next(s, Advance(t)).value;
            && Next(s, Advance(t)).Some?
            && (u.stop.Some? || (t in u.callers && u.callers[t] == s.callers[t].(pc := Install)))
            && (s.callers[t].pc == Install ==> u.stop == Some(s.next) && Live(u, s.next))
  {
  }

  function Count(steps: seq<Step>, step: Step): nat
  {
    if steps == [] then 0 else (if steps[0] == step then 1 else 0) + Count(steps[1..], step)
  }

  /** A probe of the monitor is under way or its result waits to be applied. */
  function Pending(s: State, m: Channel): nat
  {
    if m in s.monitors && (s.monitors[m].Probing? || s.monitors[m].Applying?) then 1 else 0
  }

  lemma PendingStep(s: State, step: Step, m: Channel)
    requires Next(s, step).Some? && (m in s.monitors ==> m < s.next)
    ensures Pending(Next(s, step).value, m) + (if step == Apply(m) then 1 else 0)
         <= Pending(s, m) + if step == Tick(m) then 1 else 0
  {
  }

  /** Every result applied comes from a probe of its own. */
  lemma {:induction false} AppliedAtMostProbed(s: State, steps: seq<Step>, m: Channel)
    requires Stopped(s) && Run(s, steps).Some?
    ensures Pending(Run(s, steps).value, m) + Count(steps, Apply(m)) <= Pending(s, m) + Count(steps, Tick(m))
    decreases steps
  {
    if steps != [] {
      StepStopped(s, steps[0]);
      PendingStep(s, steps[0], m);
      AppliedAtMostProbed(Next(s, steps[0]).value, steps[1..], m);
    }
  }

  /** The probe timed out and may still be running. */
  predicate TimedOut(s: State, m: Channel)
  {
    m in s.monitors && m < s.next && (s.monitors[m] == Applying(true) || s.monitors[m].Draining?)
  }

  lemma TimedOutStep(s: State, m: Channel, step: Step)
    requires TimedOut(s, m) && Next(s, step).Some? && step != Drained(m)
    ensures step != Tick(m) && TimedOut(Next(s, step).value, m)
  {
  }

  /** After a timeout no further probe is run until the old one has exited. */
  lemma {:induction false} TimedOutWaits(s: State, m: Channel, steps: seq<Step>)
    requires TimedOut(s, m) && Run(s, steps).Some? && Drained(m) !in steps
    ensures Tick(m) !in steps
    decreases steps
  {
    if steps != [] {
      TimedOutStep(s, m, steps[0]);
      TimedOutWaits(Next(s, steps[0]).value, m, steps[1..]);
      assert forall x :: x in steps <==> x == steps[0] || x in steps[1..];
    }
  }

  /** A stop request is received exactly while the monitor is idle or probing, and ends it. */
  lemma StopReceivedExactly(s: State, t: Thread, m: Channel)
    requires t in s.callers && s.callers[t].pc == Sending(Some(m)) && m in s.monitors
    ensures var u := Next(s, Rendezvous(t));
            && (u.Some? <==> s.monitors[m].Idle? || s.monitors[m].Probing?)
            && (u.Some? ==> u.value.monitors[m].Exited? && u.value.callers[t].pc == Clear(m))
  {
  }

  /** No result is applied while a caller holds the lock; without one it can be. */
  lemma AppliedExactly(s: State, m: Channel)
    requires m in s.monitors && s.monitors[m].Applying?
    ensures Next(s, Apply(m)).Some? <==> s.lock.None?
  {
  }

  // ---- opening without the lock ----

  ghost predicate TwoLive(s: State)
  {
    exists m: Channel, n: Channel :: m != n && Live(s, m) && Live(s, n)
  }

  /** Callers without the lock do one of the allowed sequences of operations. */
  ghost predicate Follows(allowed: set<seq<Op>>, steps: seq<Step>)
  {
    forall i :: 0 <= i < |steps| && steps[i].Begin? && !steps[i].locked ==> steps[i].ops in allowed
  }

  /** The daemon's callers without the lock: `containerStop`, out-of-memory events, automatic restarts. */
  const UNLOCKED_CALLERS: set<seq<Op>> := {[Close], [Open], [Close, Open]}

  lemma RunFirst(s: State, step: Step, rest: seq<Step>)
    requires Next(s, step).Some?
    ensures Run(s, [step] + rest) == Run(Next(s, step).value, rest)
  {
  }

  /** Only the unlocked caller is there and nothing is open. */
  function Unlocked(pc: PC, ops: seq<Op>): State
    requires ops != []
  {
    INITIAL.(callers := map[0 := Caller(false, pc, ops[0], ops[1..])])
  }

  const LOCKED_OPEN: seq<Step> := [Begin(1, true, [Open])] + ([Advance(1)] + ([Advance(1)] + ([Advance(0)] + [])))

  /** Having seen no channel, the caller installs one although another thread has done so meanwhile. */
  lemma Race(ops: seq<Op>)
    requires ops != []
    ensures Run(Unlocked(Install, ops), LOCKED_OPEN).Some?
    ensures TwoLive(Run(Unlocked(Install, ops), LOCKED_OPEN).value)
  {
    var s1 := Next(Unlocked(Install, ops), Begin(1, true, [Open])).value;
    var s2 := Next(s1, Advance(1)).value;
    var s3 := Next(s2, Advance(1)).value;
    var s4 := Next(s3, Advance(0)).value;
    assert Live(s4, 0) && Live(s4, 1);
    RunFirst(s3, Advance(0), []);
    RunFirst(s2, Advance(1), [Advance(0)] + []);
    RunFirst(s1, Advance(1), [Advance(1)] + ([Advance(0)] + []));
    RunFirst(Unlocked(Install, ops), Begin(1, true, [Open]), [Advance(1)] + ([Advance(1)] + ([Advance(0)] + [])));
  }

  lemma {:induction false} UnlockedRaces(ops: seq<Op>) returns (steps: seq<Step>)
    requires Open in ops
    ensures forall i :: 0 <= i < |steps| && steps[i].Begin? ==> steps[i].locked
    ensures Run(Unlocked(Check, ops), steps).Some? && TwoLive(Run(Unlocked(Check, ops), steps).value)
    decreases ops
  {
    var s := Unlocked(Check, ops);
    if ops[0].Open? {
      Race(ops);
      steps := [Advance(0)] + LOCKED_OPEN;
      assert Next(s, Advance(0)).value.callers == Unlocked(Install, ops).callers;
      RunFirst(s, Advance(0), LOCKED_OPEN);
    } else {
      var rest := UnlockedRaces(ops[1..]);
      steps := [Advance(0)] + rest;
      assert Next(s, Advance(0)).value.callers == Unlocked(Check, ops[1..]).callers;
      RunFirst(s, Advance(0), rest);
    }
  }

  /**
   There can be two live monitors exactly when some caller that need not take the
   lock may open the channel.
   */
  lemma TwoMonitorsExactly(allowed: set<seq<Op>>)
    ensures (exists steps :: Follows(allowed, steps) && Run(INITIAL, steps).Some? && TwoLive(Run(INITIAL, steps).value))
            <==> exists ops :: ops in allowed && Open in ops
  {
    if ops :| ops in allowed && Open in ops {
      var steps := UnlockedRaces(ops);
      RunFirst(INITIAL, Begin(0, false, ops), steps);
      assert Follows(allowed, [Begin(0, false, ops)] + steps);
    } else {
      forall steps | Follows(allowed, steps) && Run(INITIAL, steps).Some? ensures !TwoLive(Run(INITIAL, steps).value) {
        assert forall i :: 0 <= i < |steps| ==> OpensLocked(steps[i]);
        OneMonitor(steps);
      }
    }
  }

  /** So the daemon can start a second monitor. */
  lemma DaemonStartsTwo()
    ensures exists steps ::
              Follows(UNLOCKED_CALLERS, steps) && Run(INITIAL, steps).Some? && TwoLive(Run(INITIAL, steps).value)
  {
    assert [Open] in UNLOCKED_CALLERS && Open in [Open];
    TwoMonitorsExactly(UNLOCKED_CALLERS);
  }
}
