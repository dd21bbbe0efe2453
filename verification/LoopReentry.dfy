/** A pended callback is not entered again by the loops nested above it. */
module LoopReentry {
  import opened LoopMachine
  import opened LoopStack

  function EnvFor(k: Kind, r: nat): Env {
    if k.Funcs? then Env(r, 0) else Env(0, r)
  }

  /** d->check names the pass the callback is in when its loop has no pended record yet. */
  predicate Matched(s: Loop, act: Action)
    requires s.Valid()
  {
    act.Pend? && s.levels[s.env].env == NO_ENV ==> s.Top().phase == InPass(s.check)
  }

  /** A pended callback's record is the one its env names, and is blocked. */
  predicate OwnsPend(s: Loop, l: Level) {
    l.phase.InPass? && l.env == EnvFor(l.phase.kind, l.run) && l.run in s.Tab(l.phase.kind).blocked
  }

  predicate SameCallback(l: Level, m: Level) {
    l.phase == m.phase && l.run == m.run
  }

  /** Pended records are blocked, the running one is not, and none is running twice. */
  predicate Owned(s: Loop) {
    && Stacked(s)
    && (forall i :: 0 <= i < |s.levels| - 1 ==> OwnsPend(s, s.levels[i]))
    && (forall i, j :: 0 <= i < j < |s.levels| ==> !SameCallback(s.levels[i], s.levels[j]))
    && RunnerOwned(s)
  }

  predicate RunnerOwned(s: Loop)
    requires s.Valid()
  {
    var l := s.Top();
    if l.run == 0 then l.env == NO_ENV
    else
      l.phase.InPass? &&
      var k := l.phase.kind;
      && l.run !in s.Tab(k).blocked
      && (l.env == NO_ENV ==> 1 <= s.idx <= |s.Tab(k).list| && s.Tab(k).list[s.idx - 1] == l.run)
      && (l.env != NO_ENV ==> l.env == EnvFor(k, l.run))
  }

  /** An entry is removed or passed over without being run. */
  lemma IdleNextKeepsOwned(s: Loop)
    requires Owned(s) && CanStep(s, Next) && Step(s, Next).Top().run == 0
    ensures Owned(Step(s, Next))
  {
    hide Ready;
    NextKeepsStacked(s);
  }

  /** An entry's callback is started: it is not blocked, as all pended ones are. */
  lemma StartingKeepsOwned(s: Loop)
    requires Owned(s) && CanStep(s, Next) && Step(s, Next).Top().run != 0
    ensures Owned(Step(s, Next))
  {
    NextKeepsStacked(s);
    StartedIsFree(s);
  }

  lemma StartedIsFree(s: Loop)
    requires Stacked(s) && CanStep(s, Next) && Step(s, Next).Top().run != 0
    ensures var k := s.Top().phase.kind;
            var r := s.Tab(k).list[s.idx];
            && Step(s, Next).levels == s.levels[|s.levels| - 1 := s.Top().(run := r)]
            && r !in s.Tab(k).blocked
            && Step(s, Next).funcs == s.funcs && Step(s, Next).timers == s.timers
            && Step(s, Next).idx == s.idx + 1
  {
  }

  lemma NextKeepsOwned(s: Loop)
    requires Owned(s) && CanStep(s, Next)
    ensures Owned(Step(s, Next))
  {
    NextKeepsStacked(s);
    hide Owned, Step;
    if Step(s, Next).Top().run == 0 {
      IdleNextKeepsOwned(s);
    } else {
      StartingKeepsOwned(s);
    }
  }

  /** A step that leaves the levels and the blocked records alone and only appends entries. */
  predicate OnlyAppends(s: Loop, s': Loop) {
    && s'.levels == s.levels && s'.idx == s.idx
    && s'.funcs.blocked == s.funcs.blocked && s'.timers.blocked == s.timers.blocked
    && s.funcs.list <= s'.funcs.list && s.timers.list <= s'.timers.list
  }

  lemma AppendingKeepsOwned(s: Loop, s': Loop)
    requires Owned(s) && Stacked(s') && OnlyAppends(s, s')
    ensures Owned(s')
  {
  }

  lemma ApiOnlyAppends(s: Loop, c: Call)
    requires CanStep(s, Api(c))
    ensures OnlyAppends(s, Step(s, Api(c)))
  {
  }

  lemma ApiKeepsOwned(s: Loop, c: Call)
    requires Owned(s) && CanStep(s, Api(c))
    ensures Owned(Step(s, Api(c)))
  {
    hide Step;
    ApiKeepsStacked(s, c);
    ApiOnlyAppends(s, c);
    AppendingKeepsOwned(s, Step(s, Api(c)));
  }

  /** The env a matched pend uses names the running record. */
  lemma PendEnvNamesRunner(s: Loop)
    requires Owned(s) && CanStep(s, Pend) && Matched(s, Pend)
    ensures PendEnv(s) == EnvFor(s.Top().phase.kind, s.Top().run) != NO_ENV
  {
  }

  lemma PendKeepsOwned(s: Loop)
    requires Owned(s) && CanStep(s, Pend) && Matched(s, Pend)
    ensures Owned(Step(s, Pend))
  {
    hide PendEnv, Matched;
    PendKeepsStacked(s);
    PendEnvNamesRunner(s);
  }

  lemma ResumeKeepsOwned(s: Loop, value: int)
    requires Owned(s) && |s.levels| >= 2
    ensures Owned(Resume(s, |s.levels| - 2, value))
  {
    ResumeKeepsStacked(s, value);
  }

  lemma StepKeepsOwned(s: Loop, act: Action)
    requires Owned(s) && CanStep(s, act) && Matched(s, act)
    ensures Owned(Step(s, act))
  {
    hide Owned, Step;
    match act
    case Next => NextKeepsOwned(s);
    case Api(c) => ApiKeepsOwned(s, c);
    case Pend => PendKeepsOwned(s);
    case Post(v) => BackKeepsOwned(s, act);
    case Leave => BackKeepsOwned(s, act);
    case Enter(_) => EdgeKeepsOwned(s, act);
    case EndPass => EdgeKeepsOwned(s, act);
    case Return => ReturnKeepsOwned(s);
  }

  lemma BackKeepsOwned(s: Loop, act: Action)
    requires Owned(s) && CanStep(s, act) && (act.Post? || act.Leave?)
    ensures Owned(Step(s, act))
  {
    hide Resume;
    ResumeKeepsOwned(s, if act.Leave? then 0 else if act.value == 0 then 1 else act.value);
  }

  lemma EdgeKeepsOwned(s: Loop, act: Action)
    requires Owned(s) && CanStep(s, act) && (act.Enter? || act.EndPass?)
    ensures Owned(Step(s, act))
  {
    StepKeepsStacked(s, act);
  }

  lemma ReturnKeepsOwned(s: Loop)
    requires Owned(s) && CanStep(s, Return)
    ensures Owned(Step(s, Return))
  {
    StepKeepsStacked(s, Return);
  }

  /** Every first pend of a callback in the run finds d->check naming the callback's pass. */
  predicate AllMatched(s: Loop, acts: seq<Action>)
    requires CanRun(s, acts)
    decreases |acts|
  {
    acts == [] ||
    var front := acts[..|acts| - 1];
    AllMatched(s, front) && Matched(Run(s, front), acts[|acts| - 1])
  }

  lemma {:induction false} RunKeepsOwned(s: Loop, acts: seq<Action>)
    requires Initial(s) && CanRun(s, acts) && AllMatched(s, acts)
    ensures Owned(Run(s, acts))
    decreases |acts|
  {
    hide Owned, Initial, Step, CanStep, Matched;
    if acts == [] {
      InitialOwned(s);
    } else {
      RunKeepsOwned(s, acts[..|acts| - 1]);
      StepKeepsOwned(Run(s, acts[..|acts| - 1]), acts[|acts| - 1]);
    }
  }

  lemma InitialOwned(s: Loop)
    requires Initial(s)
    ensures Owned(s)
  {
  }

  /** A state of a run from a fresh loop in which every first pend is matched. */
  ghost predicate MatchedState(now: Loop) {
    exists s, acts :: Initial(s) && CanRun(s, acts) && AllMatched(s, acts) && now == Run(s, acts)
  }

  lemma MatchedIsOwned(now: Loop)
    requires MatchedState(now)
    ensures Owned(now)
  {
    hide Owned, Initial, CanRun, Run, AllMatched;
    var s, acts :| Initial(s) && CanRun(s, acts) && AllMatched(s, acts) && now == Run(s, acts);
    RunKeepsOwned(s, acts);
  }

  /** The callback pended at level i is blocked, and no pass may start it. */
  predicate NotReentered(now: Loop, i: nat)
    requires i < |now.levels|
  {
    && now.levels[i].phase.InPass?
    && now.levels[i].run in now.Tab(now.levels[i].phase.kind).blocked
    && (CanStep(now, Next) ==> Step(now, Next).levels != [] && !SameCallback(now.levels[i], Step(now, Next).Top()))
  }

  /** A pended callback is never re-entered. In every state of such a run the record of each
      pended callback is blocked, and the callback the next step of a pass starts, if any, is
      none of the pended ones, wherever deletions have moved the entries meanwhile. */
  lemma NeverReentered(now: Loop, i: nat)
    requires MatchedState(now) && i < |now.levels| - 1
    ensures NotReentered(now, i)
  {
    hide MatchedState, Step;
    MatchedIsOwned(now);
    if CanStep(now, Next) {
      NextKeepsOwned(now);
      NextStaysAtDepth(now);
    }
  }

  lemma NextStaysAtDepth(s: Loop)
    requires CanStep(s, Next)
    ensures |Step(s, Next).levels| == |s.levels|
    ensures Step(s, Next).levels[..|s.levels| - 1] == s.levels[..|s.levels| - 1]
    ensures forall i :: 0 <= i < |s.levels| - 1 ==> Step(s, Next).levels[i] == s.levels[i]
  {
  }

  /** The condition is exact. A callback's first pend blocks the callback's own record if and
      only if d->check names the pass it runs in: slot idx - 1 of that table is then the
      running record, because a deletion asked for by the callback is only marked. */
  lemma FirstPendBlocksRunnerIff(s: Loop)
    requires Owned(s) && CanStep(s, Pend) && s.Top().env == NO_ENV
    ensures var k, r := s.Top().phase.kind, s.Top().run;
            r in Step(s, Pend).Tab(k).blocked <==> s.check == k
  {
  }

  // ------------------------------------------------------------- disabling

  predicate NeverEnables(acts: seq<Action>, r: nat) {
    forall i :: 0 <= i < |acts| ==> acts[i] != Api(SetDisabled(r, false))
  }

  lemma StepKeepsDisabled(s: Loop, act: Action, r: nat)
    requires CanStep(s, act) && r in s.disabled && act != Api(SetDisabled(r, false))
    ensures r in Step(s, act).disabled
  {
  }

  lemma {:induction false} RunKeepsDisabled(s: Loop, acts: seq<Action>, r: nat)
    requires r in s.disabled && CanRun(s, acts) && NeverEnables(acts, r)
    ensures r in Run(s, acts).disabled
    decreases |acts|
  {
    hide Step, CanStep;
    if acts != [] {
      RunKeepsDisabled(s, acts[..|acts| - 1], r);
      StepKeepsDisabled(Run(s, acts[..|acts| - 1]), acts[|acts| - 1], r);
    }
  }

  ghost predicate LeadsWithoutEnabling(s: Loop, now: Loop, r: nat) {
    exists acts :: CanRun(s, acts) && NeverEnables(acts, r) && now == Run(s, acts)
  }

  predicate MayStart(now: Loop, k: Kind, r: nat) {
    CanStep(now, Next) && now.Top().phase == InPass(k) && Step(now, Next).levels != [] && Step(now, Next).Top().run == r
  }

  /** A disabled function stays disabled, and no pass starts it, until it is enabled again. */
  lemma DisabledNeverRuns(s: Loop, now: Loop, r: nat)
    requires r != 0 && r in s.disabled && LeadsWithoutEnabling(s, now, r)
    ensures r in now.disabled && !MayStart(now, Funcs, r)
  {
    hide CanRun, Run, NeverEnables, Step;
    var acts :| CanRun(s, acts) && NeverEnables(acts, r) && now == Run(s, acts);
    RunKeepsDisabled(s, acts, r);
    DisabledIsPassed(now, r);
  }

  lemma DisabledIsPassed(s: Loop, r: nat)
    requires r != 0 && r in s.disabled
    ensures CanStep(s, Next) && s.Top().phase == InPass(Funcs) ==> Step(s, Next).Valid() && Step(s, Next).Top().run != r
  {
  }
}
