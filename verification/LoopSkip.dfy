/** A run in which a pass leaves entries out, because a post does not restore d->idx. */
module LoopSkip {
  import opened LoopMachine
  import opened LoopReentry

  /** Functions 3, 4 and 6, all enabled; timers 1 (running) and 2 (due at the next frame). */
  const START := Loop(
    Table([3, 4, 6], 4, {}, {}), Table([1, 2], 4, {}, {}),
    map[1 := Timer(9, 0, false), 2 := Timer(1, 0, true)],
    {}, 0, Funcs, 0, -1, 0, [NewLevel()], [], [])

  /** A pass over the functions has begun. */
  const BEGUN := START.(levels := [NewLevel().(phase := InPass(Funcs))])

  /** Function 3 is running. */
  const RUNNING := BEGUN.(
    idx := 1, levels := [Level(NO_ENV, InPass(Funcs), 3, 0, 0, -1)], seen := [Visit(3, false)])

  /** Function 3 has pended. */
  const PENDED := RUNNING.(
    funcs := Table([3, 4, 6], 4, {}, {3}), env := 1, jmp := 0,
    levels := [Level(Env(3, 0), InPass(Funcs), 3, 0, 0, -1), NewLevel()])

  /** A frame has begun: the nested loop turns to the timers, at index 1. */
  const FRAME := PENDED.(
    check := Timers, seen := [],
    levels := [Level(Env(3, 0), InPass(Funcs), 3, 0, 0, -1), NewLevel().(phase := InPass(Timers))])

  /** Timer 2 is running. */
  const FIRED := FRAME.(
    idx := 2, seen := [Visit(2, false)],
    levels := [Level(Env(3, 0), InPass(Funcs), 3, 0, 0, -1), Level(NO_ENV, InPass(Timers), 2, 0, 0, -1)])

  /** Timer 2 has posted: function 3 goes on. */
  const POSTED := FIRED.(
    funcs := Table([3, 4, 6], 4, {}, {}), env := 0, jmp := -1,
    levels := [Level(Env(3, 0), InPass(Funcs), 3, 1, 0, -1)])

  /** Function 3 has returned. */
  const RETURNED := POSTED.(levels := [Level(NO_ENV, InPass(Funcs), 0, 1, 0, -1)])

  /** Function 6 is running. */
  const LAST := RETURNED.(
    idx := 3, seen := [Visit(2, false), Visit(6, false)], levels := [Level(NO_ENV, InPass(Funcs), 6, 1, 0, -1)])

  /** Function 6 has returned, and the pass is over. */
  const ENDED := LAST.(levels := [Level(NO_ENV, InPass(Funcs), 0, 1, 0, -1)])

  /** The records visited over a run, in all its loops. */
  function Visited(s: Loop, acts: seq<Action>): seq<nat>
    requires CanRun(s, acts)
    decreases |acts|
  {
    if acts == [] then []
    else
      var front := acts[..|acts| - 1];
      Visited(s, front) + if acts[|acts| - 1].Next? then [Front(Run(s, front))] else []
  }

  /** The entry a pass visits next. */
  function Front(s: Loop): nat
    requires CanStep(s, Next)
  {
    s.Tab(s.Top().phase.kind).list[s.idx]
  }

  /** A run from START, with each first pend finding d->check right. */
  predicate Leads(acts: seq<Action>, now: Loop, visited: seq<nat>) {
    CanRun(START, acts) && AllMatched(START, acts) && Run(START, acts) == now && Visited(START, acts) == visited
  }

  lemma OneMore(acts: seq<Action>, now: Loop, visited: seq<nat>, a: Action, next: Loop, then_: seq<nat>)
    requires Leads(acts, now, visited) && CanStep(now, a) && Matched(now, a) && Step(now, a) == next
    requires then_ == visited + if a.Next? then [Front(now)] else []
    ensures Leads(acts + [a], next, then_)
  {
    hide Step, CanStep, Matched;
    RunOneMore(START, acts, a);
    assert (acts + [a])[..|acts|] == acts;
  }

  lemma PassBegins()
    ensures Leads([] + [Enter(false)], BEGUN, [])
  {
    assert Leads([], START, []);
    hide Leads;
    OneMore([], START, [], Enter(false), BEGUN, []);
  }

  lemma FunctionStarts(acts: seq<Action>)
    requires Leads(acts, BEGUN, [])
    ensures Leads(acts + [Next], RUNNING, [3])
  {
    hide Leads;
    OneMore(acts, BEGUN, [], Next, RUNNING, [3]);
  }

  lemma FunctionPends(acts: seq<Action>)
    requires Leads(acts, RUNNING, [3])
    ensures Leads(acts + [Pend], PENDED, [3])
  {
    hide Leads;
    OneMore(acts, RUNNING, [3], Pend, PENDED, [3]);
  }

  lemma FrameBegins(acts: seq<Action>)
    requires Leads(acts, PENDED, [3])
    ensures Leads(acts + [Enter(true)], FRAME, [3])
  {
    hide Leads;
    OneMore(acts, PENDED, [3], Enter(true), FRAME, [3]);
  }

  lemma TimerFires(acts: seq<Action>)
    requires Leads(acts, FRAME, [3])
    ensures Leads(acts + [Next], FIRED, [3, 2])
  {
    hide Leads;
    OneMore(acts, FRAME, [3], Next, FIRED, [3, 2]);
  }

  lemma TimerPosts(acts: seq<Action>)
    requires Leads(acts, FIRED, [3, 2])
    ensures Leads(acts + [Post(1)], POSTED, [3, 2])
  {
    hide Leads;
    OneMore(acts, FIRED, [3, 2], Post(1), POSTED, [3, 2]);
  }

  lemma FunctionReturns(acts: seq<Action>)
    requires Leads(acts, POSTED, [3, 2])
    ensures Leads(acts + [Return], RETURNED, [3, 2])
  {
    hide Leads;
    OneMore(acts, POSTED, [3, 2], Return, RETURNED, [3, 2]);
  }

  lemma LastFunctionRuns(acts: seq<Action>)
    requires Leads(acts, RETURNED, [3, 2])
    ensures Leads(acts + [Next] + [Return], ENDED, [3, 2, 6])
  {
    hide Leads;
    OneMore(acts, RETURNED, [3, 2], Next, LAST, [3, 2, 6]);
    OneMore(acts + [Next], LAST, [3, 2, 6], Return, ENDED, [3, 2, 6]);
  }

  /** A pass over the functions begins and comes to its end with every function enabled, and a
      pass over the timers begins in it, and yet function 4 and timer 1 are never visited: the
      nested pass starts at the index of the outer one, which goes on at that of the nested one. */
  lemma EntriesSkipped() returns (acts: seq<Action>)
    ensures acts == [Enter(false), Next, Pend, Enter(true), Next, Post(1), Return, Next, Return]
    ensures Initial(START) && CanRun(START, acts) && AllMatched(START, acts)
    ensures START.funcs.list == [3, 4, 6] && START.timers.list == [1, 2] && START.disabled == {}
    ensures Visited(START, acts) == [3, 2, 6]
    ensures var end := Run(START, acts);
            CanStep(end, EndPass) && |end.levels| == 1 && end.funcs == START.funcs && end.timers == START.timers
  {
    hide CanRun, Run, AllMatched, Visited;
    PassBegins();
    acts := [] + [Enter(false)];
    FunctionStarts(acts);
    acts := acts + [Next];
    FunctionPends(acts);
    acts := acts + [Pend];
    FrameBegins(acts);
    acts := acts + [Enter(true)];
    TimerFires(acts);
    acts := acts + [Next];
    TimerPosts(acts);
    acts := acts + [Post(1)];
    FunctionReturns(acts);
    acts := acts + [Return];
    LastFunctionRuns(acts);
    acts := acts + [Next] + [Return];
  }
}
