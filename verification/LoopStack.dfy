/** loop_pend and loop_post form a stack, through the pointers d->env and d->jmp alone. */
module LoopStack {
  import opened LoopMachine

  /** The two pointers name the innermost loop and the innermost pend; each pended level has
      saved what was in force before it. */
  predicate Stacked(s: Loop) {
    && s.Valid()
    && s.env == |s.levels| - 1
    && s.jmp == |s.levels| - 2
    && (s.Top().run != 0 ==> s.Top().phase.InPass?)
    && forall i :: 0 <= i < |s.levels| - 1 ==> PendedAt(s.levels[i], i)
  }

  predicate PendedAt(l: Level, i: int) {
    l.prevEnv == i && l.prevJmp == i - 1 && l.run != 0 && l.phase.InPass? && l.env != NO_ENV
  }

  lemma NextKeepsStacked(s: Loop)
    requires Stacked(s) && CanStep(s, Next)
    ensures Stacked(Step(s, Next))
  {
    var k := s.Top().phase.kind;
    RemoveKeepsValid(s.Tab(k), s.idx);
  }

  lemma RemoveKeepsValid(t: Table, i: nat)
    requires t.Valid() && i < |t.list|
    ensures t.RemoveAt(i).Valid()
  {
  }

  lemma ApiKeepsStacked(s: Loop, c: Call)
    requires Stacked(s) && CanStep(s, Api(c))
    ensures Stacked(Step(s, Api(c))) && Step(s, Api(c)).levels == s.levels
  {
  }

  lemma PendKeepsStacked(s: Loop)
    requires Stacked(s) && CanStep(s, Pend)
    ensures Stacked(Step(s, Pend))
  {
  }

  lemma ResumeKeepsStacked(s: Loop, value: int)
    requires Stacked(s) && |s.levels| >= 2
    ensures Stacked(Resume(s, |s.levels| - 2, value))
  {
  }

  lemma StepKeepsStacked(s: Loop, act: Action)
    requires Stacked(s) && CanStep(s, act)
    ensures Stacked(Step(s, act))
  {
    match act
    case Next => NextKeepsStacked(s);
    case Api(c) => ApiKeepsStacked(s, c);
    case Pend => PendKeepsStacked(s);
    case Post(v) => ResumeKeepsStacked(s, if v == 0 then 1 else v);
    case Leave => ResumeKeepsStacked(s, 0);
    case Enter(_) =>
    case EndPass =>
    case Return =>
  }

  lemma {:induction false} RunKeepsStacked(s: Loop, acts: seq<Action>)
    requires Stacked(s) && CanRun(s, acts)
    ensures Stacked(Run(s, acts))
    decreases |acts|
  {
    hide Stacked, Step, CanStep;
    if acts != [] {
      RunKeepsStacked(s, acts[..|acts| - 1]);
      StepKeepsStacked(Run(s, acts[..|acts| - 1]), acts[|acts| - 1]);
    }
  }

  /** All states of the run are nested deeper than n levels. */
  predicate StaysAbove(s: Loop, acts: seq<Action>, n: nat)
    requires CanRun(s, acts)
    decreases |acts|
  {
    |Run(s, acts).levels| > n && (acts == [] || StaysAbove(s, acts[..|acts| - 1], n))
  }

  lemma StepLeavesOuterLevels(s: Loop, act: Action, n: nat)
    requires Stacked(s) && CanStep(s, act) && n < |s.levels| && n < |Step(s, act).levels|
    ensures Step(s, act).levels[..n] == s.levels[..n]
  {
    match act
    case Api(c) => ApiKeepsStacked(s, c);
    case Next => assert Step(s, Next).levels[..|s.levels| - 1] == s.levels[..|s.levels| - 1];
    case Pend =>
    case Post(v) =>
    case Leave =>
    case Enter(_) =>
    case EndPass =>
    case Return =>
  }

  /** What goes on in nested loops leaves the outer levels as they are: their callbacks, the
      records their envs name, and the pointers saved there. */
  lemma {:induction false} NestedLeavesOuterLevels(s: Loop, acts: seq<Action>, n: nat)
    requires Stacked(s) && n < |s.levels| && CanRun(s, acts) && StaysAbove(s, acts, n)
    ensures Run(s, acts).levels[..n] == s.levels[..n]
    decreases |acts|
  {
    hide Stacked, Step, CanStep;
    if acts != [] {
      var front := acts[..|acts| - 1];
      NestedLeavesOuterLevels(s, front, n);
      RunKeepsStacked(s, front);
      assert |Run(s, front).levels| > n;
      StepLeavesOuterLevels(Run(s, front), acts[|acts| - 1], n);
    }
  }

  /** A pend really nests: the callback is pended and a new loop starts above it. */
  predicate Nests(s: Loop) {
    CanStep(s, Pend) && PendEnv(s) != NO_ENV
  }

  /** `now` is reached from the pend in s through loops nested above it, one level deep again. */
  ghost predicate BackAbovePend(s: Loop, now: Loop)
    requires Nests(s)
  {
    && |now.levels| == |s.levels| + 1
    && exists acts :: CanRun(Step(s, Pend), acts) && StaysAbove(Step(s, Pend), acts, |s.levels|) &&
                      now == Run(Step(s, Pend), acts)
  }

  /** The callback that was running in s goes on in `back`, as if the pend had just returned; but
      d->idx and d->check stay as they are in `now`, where the post is made. */
  predicate Resumes(s: Loop, now: Loop, back: Loop, ret: int)
    requires s.Valid()
  {
    && back.env == s.env && back.jmp == s.jmp
    && |back.levels| == |s.levels|
    && back.levels[..|s.levels| - 1] == s.levels[..|s.levels| - 1]
    && back.Top().run == s.Top().run != 0 && back.Top().phase == s.Top().phase
    && back.Top().env == PendEnv(s)
    && back.Top().ret == ret
    && back.idx == now.idx && back.check == now.check
  }

  /** A pend that finds no record to pend returns 0 at once, and nothing else changes. */
  lemma EmptyPendReturns(s: Loop)
    requires Stacked(s) && CanStep(s, Pend) && PendEnv(s) == NO_ENV
    ensures Step(s, Pend) == s.(levels := s.levels[..|s.levels| - 1] + [s.Top().(ret := 0)])
  {
  }

  /** pend/post is a stack. After a pend, whatever runs in the loops nested above it (with pends
      and posts of its own), the post that brings the depth back resumes this pend and no
      other: the same callback goes on at the same level with every level below untouched,
      d->env and d->jmp are what they were before the pend, and loop_pend returns the posted
      value, or 1 for 0. The place in the pass is not restored: d->idx and d->check are those of
      the loop in which the post was made. */
  lemma PostResumesLatestPend(s: Loop, now: Loop, v: int)
    requires Stacked(s) && Nests(s) && BackAbovePend(s, now) && CanStep(now, Post(v))
    ensures Resumes(s, now, Step(now, Post(v)), if v == 0 then 1 else v)
  {
    hide Stacked, Step, PendEnv, BackAbovePend;
    StillPended(s, now);
    PostAtDepth(now, v);
  }

  /** A nested loop that returns because of loop_end resumes the pend it was called from in the same
      way, and loop_pend returns 0, which no post can make it do. */
  lemma LeaveResumesLatestPend(s: Loop, now: Loop)
    requires Stacked(s) && Nests(s) && BackAbovePend(s, now) && CanStep(now, Leave)
    ensures Resumes(s, now, Step(now, Leave), 0)
  {
    hide Stacked, Step, PendEnv, BackAbovePend;
    StillPended(s, now);
    LeaveAtDepth(now);
  }

  /** One level above the pend again, the pended level is as the pend left it. */
  lemma StillPended(s: Loop, now: Loop)
    requires Stacked(s) && Nests(s) && BackAbovePend(s, now)
    ensures Stacked(now) && |now.levels| == |s.levels| + 1
    ensures now.levels[..|s.levels| - 1] == s.levels[..|s.levels| - 1]
    ensures now.levels[|s.levels| - 1] == s.Top().(env := PendEnv(s), prevEnv := s.env, prevJmp := s.jmp)
    ensures s.Top().run != 0
  {
    hide Stacked, Step, PendEnv, StaysAbove, CanRun, Run;
    var n := |s.levels|;
    var inner := Step(s, Pend);
    var acts :| CanRun(inner, acts) && StaysAbove(inner, acts, n) && now == Run(inner, acts);
    StepKeepsStacked(s, Pend);
    PendNests(s);
    NestedLeavesOuterLevels(inner, acts, n);
    RunKeepsStacked(inner, acts);
    assert now.levels[n - 1] == now.levels[..n][n - 1] == inner.levels[n - 1];
    assert now.levels[..n - 1] == now.levels[..n][..n - 1] == inner.levels[..n - 1];
  }

  lemma PendNests(s: Loop)
    requires Stacked(s) && Nests(s)
    ensures var inner := Step(s, Pend);
            && |inner.levels| == |s.levels| + 1
            && inner.levels[..|s.levels| - 1] == s.levels[..|s.levels| - 1]
            && inner.levels[|s.levels| - 1] == s.Top().(env := PendEnv(s), prevEnv := s.env, prevJmp := s.jmp)
  {
  }

  lemma PostAtDepth(s: Loop, v: int)
    requires Stacked(s) && CanStep(s, Post(v))
    ensures var j := |s.levels| - 2;
            var back := Step(s, Post(v));
            && j >= 0
            && back.levels == s.levels[..j] + [s.levels[j].(ret := if v == 0 then 1 else v)]
            && back.env == s.levels[j].prevEnv && back.jmp == s.levels[j].prevJmp
            && back.idx == s.idx && back.check == s.check
  {
  }

  lemma LeaveAtDepth(s: Loop)
    requires Stacked(s) && CanStep(s, Leave)
    ensures var j := |s.levels| - 2;
            var back := Step(s, Leave);
            && j >= 0
            && back.levels == s.levels[..j] + [s.levels[j].(ret := 0)]
            && back.env == s.levels[j].prevEnv && back.jmp == s.levels[j].prevJmp
            && back.idx == s.idx && back.check == s.check
  {
  }

  /** loop_post only looks at d->env, which always names a loop. What it needs is d->jmp, and a
      callback may post if and only if some pend is outstanding. */
  lemma PostNeedsPend(s: Loop, v: int)
    requires Stacked(s) && s.Top().run != 0
    ensures 0 <= s.env < |s.levels|
    ensures CanStep(s, Post(v)) <==> |s.levels| >= 2
  {
  }
}
