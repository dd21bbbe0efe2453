/** A run in which a pass goes on at its own index although the callback that posts stands elsewhere:
    it has pended, and the index is that of the callback whose post has resumed it. */
module LoopResumed {
  import opened LoopMachine
  import opened LoopReentry

  /** Functions 3 and 4, and timer 1, due at the next frame. */
  const START := Loop(
    Table([3, 4], 3, {}, {}), Table([1], 2, {}, {}), map[1 := Timer(1, 0, false)],
    {}, 0, Funcs, 0, -1, 0, [NewLevel()], [], [])

  const BEGUN := START.(levels := [NewLevel().(phase := InPass(Funcs))])

  /** Function 3 is running. */
  const FIRST := BEGUN.(
    idx := 1, levels := [Level(NO_ENV, InPass(Funcs), 3, 0, 0, -1)], seen := [Visit(3, false)])

  /** Function 3 pended. */
  const OUTER := Level(Env(3, 0), InPass(Funcs), 3, 0, 0, -1)

  const NESTED := FIRST.(
    funcs := Table([3, 4], 3, {}, {3}), env := 1, jmp := 0, levels := [OUTER, NewLevel()])

  const GOING_ON := NESTED.(levels := [OUTER, NewLevel().(phase := InPass(Funcs))], seen := [])

  /** Function 4 is running in the nested loop. */
  const SECOND := GOING_ON.(
    idx := 2, levels := [OUTER, Level(NO_ENV, InPass(Funcs), 4, 0, 0, -1)], seen := [Visit(4, false)])

  /** Function 4 pended. */
  const INNER := Level(Env(4, 0), InPass(Funcs), 4, 0, 1, 0)

  const DEEP := SECOND.(
    funcs := Table([3, 4], 3, {}, {3, 4}), env := 2, jmp := 1, levels := [OUTER, INNER, NewLevel()])

  const ENDING := DEEP.(levels := [OUTER, INNER, NewLevel().(phase := InPass(Funcs))], seen := [])

  const ENDED := ENDING.(idx := 0, levels := [OUTER, INNER, NewLevel()])

  const FRAME := ENDED.(check := Timers, levels := [OUTER, INNER, NewLevel().(phase := InPass(Timers))])

  /** Timer 1 is running. */
  const FIRED := FRAME.(
    timer := map[1 := Timer(0, 1, false)], idx := 1,
    levels := [OUTER, INNER, Level(NO_ENV, InPass(Timers), 1, 0, 0, -1)], seen := [Visit(1, false)])

  /** Timer 1 has posted: function 4 goes on. */
  const RESUMED := FIRED.(
    funcs := Table([3, 4], 3, {}, {3}), env := 1, jmp := 0, levels := [OUTER, INNER.(ret := 1)])

  /** A run from START, with each first pend finding d->check right. */
  predicate Leads(acts: seq<Action>, now: Loop) {
    CanRun(START, acts) && AllMatched(START, acts) && Run(START, acts) == now
  }

  lemma OneMore(acts: seq<Action>, now: Loop, a: Action, next: Loop)
    requires Leads(acts, now) && CanStep(now, a) && Matched(now, a) && Step(now, a) == next
    ensures Leads(acts + [a], next)
  {
    hide Step, CanStep, Matched;
    RunOneMore(START, acts, a);
    assert (acts + [a])[..|acts|] == acts;
  }

  lemma NothingYet()
    ensures Leads([], START)
  {
  }

  lemma PassBegins(acts: seq<Action>)
    requires Leads(acts, START)
    ensures Leads(acts + [Enter(false)], BEGUN)
  {
    hide Leads;
    OneMore(acts, START, Enter(false), BEGUN);
  }

  lemma FirstRuns(acts: seq<Action>)
    requires Leads(acts, BEGUN)
    ensures Leads(acts + [Next], FIRST)
  {
    hide Leads;
    OneMore(acts, BEGUN, Next, FIRST);
  }

  lemma FirstPends(acts: seq<Action>)
    requires Leads(acts, FIRST)
    ensures Leads(acts + [Pend], NESTED)
  {
    hide Leads;
    OneMore(acts, FIRST, Pend, NESTED);
  }

  lemma PassGoesOn(acts: seq<Action>)
    requires Leads(acts, NESTED)
    ensures Leads(acts + [Enter(false)], GOING_ON)
  {
    hide Leads;
    OneMore(acts, NESTED, Enter(false), GOING_ON);
  }

  lemma SecondRuns(acts: seq<Action>)
    requires Leads(acts, GOING_ON)
    ensures Leads(acts + [Next], SECOND)
  {
    hide Leads;
    OneMore(acts, GOING_ON, Next, SECOND);
  }

  lemma SecondPends(acts: seq<Action>)
    requires Leads(acts, SECOND)
    ensures Leads(acts + [Pend], DEEP)
  {
    hide Leads;
    OneMore(acts, SECOND, Pend, DEEP);
  }

  lemma PassEnds(acts: seq<Action>)
    requires Leads(acts, DEEP)
    ensures Leads(acts + [Enter(false)] + [EndPass], ENDED)
  {
    hide Leads;
    OneMore(acts, DEEP, Enter(false), ENDING);
    OneMore(acts + [Enter(false)], ENDING, EndPass, ENDED);
  }

  lemma FrameBegins(acts: seq<Action>)
    requires Leads(acts, ENDED)
    ensures Leads(acts + [Enter(true)], FRAME)
  {
    hide Leads;
    OneMore(acts, ENDED, Enter(true), FRAME);
  }

  lemma TimerFires(acts: seq<Action>)
    requires Leads(acts, FRAME)
    ensures Leads(acts + [Next], FIRED)
  {
    hide Leads;
    OneMore(acts, FRAME, Next, FIRED);
  }

  lemma TimerPosts(acts: seq<Action>)
    requires Leads(acts, FIRED)
    ensures Leads(acts + [Post(1)], RESUMED)
  {
    hide Leads;
    OneMore(acts, FIRED, Post(1), RESUMED);
  }

  /** Function 4, in slot 1, can now post, and function 3 goes on at index 1, its own. */
  lemma PostsFromElsewhere() returns (acts: seq<Action>)
    ensures Initial(START) && CanRun(START, acts) && AllMatched(START, acts)
    ensures var now := Run(START, acts);
            && CanStep(now, Post(1))
            && now.Top().run == 4 && now.funcs.At(1) == 4 && now.funcs.At(0) == 3
            && Step(now, Post(1)).idx == 1 && Step(now, Post(1)).levels == [OUTER.(ret := 1)]
  {
    hide CanRun, Run, AllMatched;
    NothingYet();
    PassBegins([]);
    acts := [] + [Enter(false)];
    FirstRuns(acts);
    acts := acts + [Next];
    FirstPends(acts);
    acts := acts + [Pend];
    PassGoesOn(acts);
    acts := acts + [Enter(false)];
    SecondRuns(acts);
    acts := acts + [Next];
    SecondPends(acts);
    acts := acts + [Pend];
    PassEnds(acts);
    acts := acts + [Enter(false)] + [EndPass];
    FrameBegins(acts);
    acts := acts + [Enter(true)];
    TimerFires(acts);
    acts := acts + [Next];
    TimerPosts(acts);
    acts := acts + [Post(1)];
  }
}
