/** A run in which d->check does not name the pass a callback is in, and what comes of it. */
module LoopMismatch {
  import opened LoopMachine

  /** Functions 3 and 4, timers 1 (due at the next frame) and 2 (stopped). */
  const START := Loop(
    Table([3, 4], 4, {}, {}), Table([1, 2], 4, {}, {}),
    map[1 := Timer(1, 0, false), 2 := Timer(0, 0, true)],
    {}, 0, Funcs, 0, -1, 0, [NewLevel()], [], [])

  /** Timer 1 is running. */
  const FIRING := START.(
    timer := map[1 := Timer(0, 1, false), 2 := Timer(0, 0, true)],
    idx := 1, check := Timers,
    levels := [Level(NO_ENV, InPass(Timers), 1, 0, 0, -1)], seen := [Visit(1, false)])

  /** Timer 1 has pended. */
  const PENDED := Loop(
    Table([3, 4], 4, {}, {}), Table([1, 2], 4, {}, {1}),
    map[1 := Timer(0, 1, false), 2 := Timer(0, 0, true)],
    {}, 1, Timers, 1, 0, 0,
    [Level(Env(0, 1), InPass(Timers), 1, 0, 0, -1), NewLevel()], [Visit(1, false)], [])

  /** The nested loop has finished the timer pass. */
  const NESTED := PENDED.(idx := 0, check := Funcs, seen := [Visit(2, false)])

  /** Function 3 is running in the nested loop. */
  const CALLED := NESTED.(
    idx := 1, seen := [Visit(3, false)],
    levels := NESTED.levels[1 := Level(NO_ENV, InPass(Funcs), 3, 0, 0, -1)])

  /** Function 3, run by the nested loop, has posted: timer 1 goes on in the timer pass, but
      d->check is left at the function pass. */
  const POSTED := Loop(
    Table([3, 4], 4, {}, {}), Table([1, 2], 4, {}, {}),
    map[1 := Timer(0, 1, false), 2 := Timer(0, 0, true)],
    {}, 1, Funcs, 0, -1, 0,
    [Level(Env(0, 1), InPass(Timers), 1, 1, 0, -1)], [Visit(3, false)], [])

  /** Timer 1 has started timer 2 and returned. */
  const STARTED := POSTED.(
    timer := map[1 := Timer(0, 1, false), 2 := Timer(1, 0, true)],
    levels := [Level(NO_ENV, InPass(Timers), 0, 1, 0, -1)])

  /** Timer 2 is running. */
  const SECOND := STARTED.(
    idx := 2, levels := [Level(NO_ENV, InPass(Timers), 2, 1, 0, -1)], seen := [Visit(3, false), Visit(2, false)])

  /** Timer 2, started by timer 1 and next in the pass, has pended: function 4 is blocked for it. */
  const WRONG := Loop(
    Table([3, 4], 4, {}, {4}), Table([1, 2], 4, {}, {}),
    map[1 := Timer(0, 1, false), 2 := Timer(1, 0, true)],
    {}, 2, Funcs, 1, 0, 0,
    [Level(Env(4, 0), InPass(Timers), 2, 1, 0, -1), NewLevel()],
    [Visit(3, false), Visit(2, false)], [])

  /** At the next frame the nested loop has passed over timer 1. */
  const FRAME := WRONG.(idx := 1, check := Timers, seen := [Visit(1, false)],
                        levels := WRONG.levels[1 := NewLevel().(phase := InPass(Timers))])

  /** Timer 2 runs again above its own pend. */
  const REENTERED := Loop(
    Table([3, 4], 4, {}, {4}), Table([1, 2], 4, {}, {}),
    map[1 := Timer(0, 1, false), 2 := Timer(1, 0, true)],
    {}, 2, Timers, 1, 0, 0,
    [Level(Env(4, 0), InPass(Timers), 2, 1, 0, -1), Level(NO_ENV, InPass(Timers), 2, 0, 0, -1)],
    [Visit(1, false), Visit(2, false)], [])

  predicate Leads(s: Loop, acts: seq<Action>, next: Loop) {
    CanRun(s, acts) && Run(s, acts) == next
  }

  lemma One(s: Loop, a: Action, next: Loop)
    requires CanStep(s, a) && Step(s, a) == next
    ensures Leads(s, [a], next)
  {
    RunOneMore(s, [], a);
  }

  lemma {:induction false} Then(s: Loop, a: seq<Action>, m: Loop, b: seq<Action>, next: Loop)
    requires Leads(s, a, m) && Leads(m, b, next)
    ensures Leads(s, a + b, next)
    decreases |b|
  {
    hide Step, CanStep;
    if b == [] {
      assert a + b == a;
    } else {
      var front := b[..|b| - 1];
      Then(s, a, m, front, Run(m, front));
      RunOneMore(s, a + front, b[|b| - 1]);
      assert a + front + [b[|b| - 1]] == a + b;
    }
  }

  lemma FirstTimerRuns()
    ensures Leads(START, [Enter(true), Next], FIRING)
  {
    var s := START.(check := Timers, levels := [NewLevel().(phase := InPass(Timers))]);
    One(START, Enter(true), s);
    One(s, Next, FIRING);
    Then(START, [Enter(true)], s, [Next], FIRING);
  }

  lemma FirstTimerPends()
    ensures Leads(FIRING, [Pend], PENDED)
  {
    One(FIRING, Pend, PENDED);
  }

  /** The nested loop finishes the timer pass and turns to the functions. */
  lemma NestedTimersEnd()
    ensures Leads(PENDED, [Enter(false), Next, EndPass], NESTED)
  {
    var s := PENDED.(levels := PENDED.levels[1 := NewLevel().(phase := InPass(Timers))], seen := []);
    var t := s.(idx := 2, seen := [Visit(2, false)]);
    One(PENDED, Enter(false), s);
    One(s, Next, t);
    One(t, EndPass, NESTED);
    Then(PENDED, [Enter(false)], s, [Next], t);
    Then(PENDED, [Enter(false)] + [Next], t, [EndPass], NESTED);
  }

  lemma FunctionRuns()
    ensures Leads(NESTED, [Enter(false), Next], CALLED)
  {
    var s := NESTED.(levels := NESTED.levels[1 := NewLevel().(phase := InPass(Funcs))], seen := []);
    One(NESTED, Enter(false), s);
    One(s, Next, CALLED);
    Then(NESTED, [Enter(false)], s, [Next], CALLED);
  }

  lemma FunctionPosts()
    ensures Leads(CALLED, [Post(1)], POSTED)
  {
    One(CALLED, Post(1), POSTED);
  }

  lemma SecondTimerStarted()
    ensures Leads(POSTED, [Api(StartTimer(2, 1)), Return], STARTED)
  {
    var s := POSTED.(timer := STARTED.timer);
    One(POSTED, Api(StartTimer(2, 1)), s);
    One(s, Return, STARTED);
    Then(POSTED, [Api(StartTimer(2, 1))], s, [Return], STARTED);
  }

  lemma SecondTimerRuns()
    ensures Leads(STARTED, [Next], SECOND)
  {
    One(STARTED, Next, SECOND);
  }

  lemma SecondTimerPends()
    ensures Leads(SECOND, [Pend], WRONG)
  {
    One(SECOND, Pend, WRONG);
  }

  /** The nested loop ends the timer pass it is left with. */
  lemma NestedPassEnds()
    ensures Leads(WRONG, [Enter(true), EndPass], WRONG.(idx := 0, seen := []))
  {
    var s := WRONG.(check := Timers, levels := WRONG.levels[1 := NewLevel().(phase := InPass(Timers))], seen := []);
    var t := WRONG.(idx := 0, seen := []);
    One(WRONG, Enter(true), s);
    One(s, EndPass, t);
    Then(WRONG, [Enter(true)], s, [EndPass], t);
  }

  lemma NextFrameStarts()
    ensures Leads(WRONG.(idx := 0, seen := []), [Enter(true), Next], FRAME)
  {
    var t := WRONG.(idx := 0, seen := []);
    var u := FRAME.(idx := 0, seen := []);
    One(t, Enter(true), u);
    One(u, Next, FRAME);
    Then(t, [Enter(true)], u, [Next], FRAME);
  }

  lemma SecondTimerRunsAgain()
    ensures Leads(FRAME, [Next], REENTERED)
  {
    One(FRAME, Next, REENTERED);
  }

  /** Without the condition on d->check the property fails: from a fresh loop, a timer that has
      pended is run again above its own pend, while a function that never ran is blocked. */
  lemma ReentryWithoutMatch() returns (acts: seq<Action>)
    ensures Initial(START) && CanRun(START, acts)
    ensures var now := Run(START, acts);
            && |now.levels| == 2 && now.levels[0].run == now.levels[1].run == 2
            && now.levels[0].phase == now.levels[1].phase == InPass(Timers)
            && now.timers.blocked == {} && now.funcs.blocked == {4}
  {
    hide CanStep, Step, CanRun, Run;
    FirstTimerRuns();
    FirstTimerPends();
    NestedTimersEnd();
    FunctionRuns();
    FunctionPosts();
    SecondTimerStarted();
    SecondTimerRuns();
    SecondTimerPends();
    NestedPassEnds();
    NextFrameStarts();
    SecondTimerRunsAgain();
    acts := [Enter(true), Next];
    acts := Extend(acts, FIRING, [Pend], PENDED);
    acts := Extend(acts, PENDED, [Enter(false), Next, EndPass], NESTED);
    acts := Extend(acts, NESTED, [Enter(false), Next], CALLED);
    acts := Extend(acts, CALLED, [Post(1)], POSTED);
    acts := Extend(acts, POSTED, [Api(StartTimer(2, 1)), Return], STARTED);
    acts := Extend(acts, STARTED, [Next], SECOND);
    acts := Extend(acts, SECOND, [Pend], WRONG);
    acts := Extend(acts, WRONG, [Enter(true), EndPass], WRONG.(idx := 0, seen := []));
    acts := Extend(acts, WRONG.(idx := 0, seen := []), [Enter(true), Next], FRAME);
    acts := Extend(acts, FRAME, [Next], REENTERED);
  }

  lemma Extend(a: seq<Action>, m: Loop, b: seq<Action>, next: Loop) returns (all: seq<Action>)
    requires Leads(START, a, m) && Leads(m, b, next)
    ensures Leads(START, all, next)
  {
    Then(START, a, m, b, next);
    all := a + b;
  }
}
