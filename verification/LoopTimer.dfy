/** When a timer fires: counted in visits to it, over whole runs. */
module LoopTimer {
  import opened LoopMachine
  import opened LoopReentry

  // ------------------------------------------------------- the timer alone

  /** The timer after n calls of update_timer. */
  function Ticks(t: Timer, n: nat): Timer {
    if n == 0 then t else Ticks(t, n - 1).Tick().1
  }

  /** A timer started with f frames fires at update f, or at every f-th one if it reloads, and at
      no other; one that does not reload is stopped by then. */
  lemma {:induction false} FiresAt(f: nat, auto: bool, n: nat)
    requires 1 <= n <= f < 0x10000
    ensures Ticks(Timer(f, 0, auto), n - 1) == Timer(f, n - 1, auto)
    ensures Timer(f, n - 1, auto).Tick() ==
            (n == f, if n < f then Timer(f, n, auto) else if auto then Timer(f, 0, auto) else Timer(0, f, auto))
  {
    if n > 1 {
      FiresAt(f, auto, n - 1);
    }
  }

  // ---------------------------------------------------------- over a run

  /** The next step of a pass is update_timer for r. */
  predicate Updates(s: Loop, act: Action, r: nat)
    requires CanStep(s, act)
  {
    && act.Next? && s.Top().phase == InPass(Timers)
    && s.timers.list[s.idx] == r && r !in s.timers.toDelete && r !in s.timers.blocked
  }

  /** How often update_timer was called for r in a run while it was neither marked nor blocked. */
  function Updated(s: Loop, acts: seq<Action>, r: nat): nat
    requires CanRun(s, acts)
    decreases |acts|
  {
    if acts == [] then 0
    else
      var front, act := acts[..|acts| - 1], acts[|acts| - 1];
      Updated(s, front, r) + if Updates(Run(s, front), act, r) then 1 else 0
  }

  /** The timer is neither started nor stopped, nor its reload changed. */
  predicate LeavesTimer(acts: seq<Action>, r: nat) {
    forall i :: 0 <= i < |acts| && acts[i].Api? ==>
      !((acts[i].call.StartTimer? || acts[i].call.StopTimer? || acts[i].call.SetReload?) && acts[i].call.rec == r)
  }

  /** A timer that was started with f frames, n updates later. */
  function After(f: nat, auto: bool, n: nat): Timer
    requires f > 0
  {
    if auto then Timer(f, n % f, auto) else if n < f then Timer(f, n, auto) else Timer(0, f, auto)
  }

  /** Update n fires. */
  predicate Fires(f: nat, auto: bool, n: nat)
    requires f > 0
  {
    if auto then n % f == 0 else n == f
  }

  lemma OneUpdate(f: nat, auto: bool, n: nat)
    requires 1 <= f < 0x10000
    ensures var t := After(f, auto, n);
            if t.frames == 0 then !Fires(f, auto, n + 1) && After(f, auto, n + 1) == t
            else t.Tick() == (Fires(f, auto, n + 1), After(f, auto, n + 1))
  {
    if auto {
      NextRemainder(n, f);
    }
  }

  lemma NextRemainder(n: nat, f: nat)
    requires f > 0
    ensures (n + 1) % f == if n % f + 1 == f then 0 else n % f + 1
  {
    var q, m := n / f, n % f;
    assert n + 1 == f * q + (m + 1);
    if m + 1 == f {
      assert n + 1 == f * (q + 1) + 0;
      Remainder(n + 1, f, q + 1, 0);
    } else {
      Remainder(n + 1, f, q, m + 1);
    }
  }

  lemma Remainder(a: nat, f: nat, q: nat, m: nat)
    requires f > 0 && a == f * q + m && m < f
    ensures a % f == m
  {
    var q', m' := a / f, a % f;
    assert a == f * q' + m';
    if q > q' {
      OneMoreTimes(f, q', q);
    } else if q < q' {
      OneMoreTimes(f, q, q');
    }
  }

  lemma OneMoreTimes(f: nat, p: nat, q: nat)
    requires p < q
    ensures f * p + f <= f * q
  {
    var k: nat := q - p - 1;
    assert f * q == f * (p + 1 + k) == f * p + f + f * k;
    NotNegative(f, k);
  }

  lemma NotNegative(f: nat, k: nat)
    ensures f * k >= 0
  {
  }

  lemma VisitUpdates(s: Loop, r: nat)
    requires CanStep(s, Next)
    ensures if Updates(s, Next, r) && s.TimerOf(r).frames != 0
            then Step(s, Next).TimerOf(r) == s.TimerOf(r).Tick().1
            else Step(s, Next).TimerOf(r) == s.TimerOf(r)
  {
  }

  lemma OthersLeaveTimer(s: Loop, act: Action, r: nat)
    requires CanStep(s, act) && !act.Next? && LeavesTimer([act], r)
    ensures Step(s, act).TimerOf(r) == s.TimerOf(r)
  {
    assert [act][0] == act;
  }

  lemma {:induction false} RunUpdates(s: Loop, acts: seq<Action>, r: nat, f: nat, auto: bool)
    requires 1 <= f < 0x10000 && s.TimerOf(r) == Timer(f, 0, auto) && CanRun(s, acts) && LeavesTimer(acts, r)
    ensures Run(s, acts).TimerOf(r) == After(f, auto, Updated(s, acts, r))
    decreases |acts|
  {
    hide Step, CanStep, Fires;
    if acts == [] {
      NothingUpdated(f, auto);
    } else {
      hide After;
      var front, act := acts[..|acts| - 1], acts[|acts| - 1];
      RunUpdates(s, front, r, f, auto);
      OneUpdate(f, auto, Updated(s, front, r));
      if act.Next? {
        VisitUpdates(Run(s, front), r);
        StoppedStays(f, auto, Updated(s, front, r));
      } else {
        OthersLeaveTimer(Run(s, front), act, r);
      }
    }
  }

  lemma NothingUpdated(f: nat, auto: bool)
    requires f > 0
    ensures After(f, auto, 0) == Timer(f, 0, auto)
  {
  }

  lemma StoppedStays(f: nat, auto: bool, n: nat)
    requires f > 0
    ensures After(f, auto, n).frames in {0, f}
  {
  }

  /** `now` is later than s; r was updated n times since, and else left alone. */
  ghost predicate LaterBy(s: Loop, now: Loop, r: nat, n: nat) {
    exists acts :: CanRun(s, acts) && LeavesTimer(acts, r) && Run(s, acts) == now && Updated(s, acts, r) == n
  }

  /** Exactly when a timer fires, over every run, pends, posts and other callbacks included. After
      loop_timer_start with f frames in the low 16 bits, a visit by the pass over the timers starts
      the callback if and only if it is update f of this timer, or with auto-reload any multiple of
      f; none does if f is 0. Visits while the timer is blocked or marked are not updates. */
  lemma TimerFiresExactly(s: Loop, now: Loop, r: nat, frames: int, n: nat)
    requires r != 0 && CanStep(s, Api(StartTimer(r, frames)))
    requires LaterBy(Step(s, Api(StartTimer(r, frames))), now, r, n)
    ensures var f := frames % 0x10000;
            MayStart(now, Timers, r) <==>
              f != 0 && CanStep(now, Next) && Updates(now, Next, r) && Fires(f, s.TimerOf(r).autoReload, n + 1)
  {
    hide CanRun, Run, Updated, LeavesTimer, Fires, After;
    var f := frames % 0x10000;
    StartedTimer(s, r, frames);
    var begun := Step(s, Api(StartTimer(r, frames)));
    if f == 0 {
      NotStarted(begun, now, r, n);
    } else {
      FiresFrom(begun, now, r, f, s.TimerOf(r).autoReload, n);
    }
  }

  lemma NotStarted(begun: Loop, now: Loop, r: nat, n: nat)
    requires r != 0 && begun.TimerOf(r).frames == 0 && LaterBy(begun, now, r, n)
    ensures !MayStart(now, Timers, r)
  {
    hide CanRun, Run, Updated;
    var acts :| CanRun(begun, acts) && LeavesTimer(acts, r) && Run(begun, acts) == now && Updated(begun, acts, r) == n;
    RunKeepsStopped(begun, acts, r);
    if CanStep(now, Next) {
      StartsTimer(now, r);
    }
  }

  lemma FiresFrom(begun: Loop, now: Loop, r: nat, f: nat, auto: bool, n: nat)
    requires r != 0 && 1 <= f < 0x10000 && begun.TimerOf(r) == Timer(f, 0, auto) && LaterBy(begun, now, r, n)
    ensures MayStart(now, Timers, r) <==> CanStep(now, Next) && Updates(now, Next, r) && Fires(f, auto, n + 1)
  {
    hide CanRun, Run, Updated, LeavesTimer, Fires, After;
    var acts :| CanRun(begun, acts) && LeavesTimer(acts, r) && Run(begun, acts) == now && Updated(begun, acts, r) == n;
    RunUpdates(begun, acts, r, f, auto);
    OneUpdate(f, auto, n);
    if CanStep(now, Next) {
      StartsTimer(now, r);
    }
  }

  lemma StartedTimer(s: Loop, r: nat, frames: int)
    requires CanStep(s, Api(StartTimer(r, frames)))
    ensures Step(s, Api(StartTimer(r, frames))).TimerOf(r) == Timer(frames % 0x10000, 0, s.TimerOf(r).autoReload)
  {
  }

  lemma StartsTimer(s: Loop, r: nat)
    requires r != 0 && CanStep(s, Next)
    ensures MayStart(s, Timers, r) <==> Updates(s, Next, r) && s.TimerOf(r).frames != 0 && s.TimerOf(r).Tick().0
  {
  }

  // ---------------------------------------------------------------- stopping

  /** No call starts the timer. */
  predicate NeverStarts(acts: seq<Action>, r: nat) {
    forall i :: 0 <= i < |acts| ==> !(acts[i].Api? && acts[i].call.StartTimer? && acts[i].call.rec == r)
  }

  lemma StepKeepsStopped(s: Loop, act: Action, r: nat)
    requires CanStep(s, act) && NeverStarts([act], r) && s.TimerOf(r).frames == 0
    ensures Step(s, act).TimerOf(r).frames == 0
  {
    assert [act][0] == act;
  }

  lemma {:induction false} RunKeepsStopped(s: Loop, acts: seq<Action>, r: nat)
    requires CanRun(s, acts) && NeverStarts(acts, r) && s.TimerOf(r).frames == 0
    ensures Run(s, acts).TimerOf(r).frames == 0
    decreases |acts|
  {
    hide Step, CanStep;
    if acts != [] {
      RunKeepsStopped(s, acts[..|acts| - 1], r);
      StepKeepsStopped(Run(s, acts[..|acts| - 1]), acts[|acts| - 1], r);
    }
  }

  ghost predicate LaterWithoutStart(s: Loop, now: Loop, r: nat) {
    exists acts :: CanRun(s, acts) && NeverStarts(acts, r) && Run(s, acts) == now
  }

  /** After loop_timer_stop no pass starts the timer's callback until the timer is started again. */
  lemma StoppedNeverFires(s: Loop, now: Loop, r: nat)
    requires r != 0 && CanStep(s, Api(StopTimer(r))) && LaterWithoutStart(Step(s, Api(StopTimer(r))), now, r)
    ensures !MayStart(now, Timers, r)
  {
    hide CanRun, Run, NeverStarts;
    var stopped := Step(s, Api(StopTimer(r)));
    var acts :| CanRun(stopped, acts) && NeverStarts(acts, r) && Run(stopped, acts) == now;
    RunKeepsStopped(stopped, acts, r);
    if CanStep(now, Next) {
      StartsTimer(now, r);
    }
  }
}
