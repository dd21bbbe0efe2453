/** Where a pass goes on after a post: d->idx is moved by passes only, in whichever loop they are. */
module LoopIndex {
  import opened LoopMachine
  import opened LoopStack
  import opened LoopReentry

  /** The state behind the last step of a pass in a run, or its start if there is none. */
  function LastPassStep(s: Loop, acts: seq<Action>): Loop
    requires CanRun(s, acts)
    decreases |acts|
  {
    if acts == [] || acts[|acts| - 1].Next? || acts[|acts| - 1].EndPass? then Run(s, acts)
    else LastPassStep(s, acts[..|acts| - 1])
  }

  /** A callback has just been started, from the slot before the index. */
  predicate Started(m: Loop)
    requires m.Valid()
  {
    m.Top().run != 0 && m.Top().phase.InPass? && m.Tab(m.Top().phase.kind).At(m.idx - 1) == m.Top().run
  }

  /** With m behind the last step of a pass, the index is the one that step left. If it started no
      callback, it ended the pass, or nothing has happened since. */
  predicate SincePassStep(m: Loop, now: Loop) {
    && m.Valid()
    && now.idx == m.idx
    && (m.Top().run == 0 ==> m.idx == 0 || (now == m && m.Top().phase.InPass?))
    && (m.Top().run != 0 ==> Started(m))
  }

  lemma NextMade(s: Loop)
    requires Stacked(s) && CanStep(s, Next)
    ensures SincePassStep(Step(s, Next), Step(s, Next))
  {
    hide Ready;
    NextKeepsStacked(s);
  }

  lemma StepMade(m: Loop, s: Loop, act: Action)
    requires Stacked(s) && SincePassStep(m, s) && CanStep(s, act)
    ensures SincePassStep(if act.Next? || act.EndPass? then Step(s, act) else m, Step(s, act))
  {
    match act
    case Next => NextMade(s);
    case EndPass => StepKeepsStacked(s, act);
    case Api(c) => IndexStays(s, act);
    case Enter(_) => IndexStays(s, act);
    case Return => IndexStays(s, act);
    case Pend => IndexStays(s, act);
    case Post(_) => IndexStays(s, act);
    case Leave => IndexStays(s, act);
  }

  /** No other step moves the index, nor can it follow one that left a pass where it is. */
  lemma IndexStays(s: Loop, act: Action)
    requires CanStep(s, act) && !act.Next? && !act.EndPass?
    ensures Step(s, act).idx == s.idx
    ensures !(s.Top().run == 0 && s.Top().phase.InPass?)
  {
  }

  lemma {:induction false} RunMade(s: Loop, acts: seq<Action>)
    requires Initial(s) && CanRun(s, acts)
    ensures SincePassStep(LastPassStep(s, acts), Run(s, acts))
    decreases |acts|
  {
    hide SincePassStep, Step, CanStep;
    if acts == [] {
      assert SincePassStep(s, s) by { NothingMade(s); }
    } else {
      var front := acts[..|acts| - 1];
      RunMade(s, front);
      InitialStacked(s);
      RunKeepsStacked(s, front);
      StepMade(LastPassStep(s, front), Run(s, front), acts[|acts| - 1]);
    }
  }

  lemma NothingMade(s: Loop)
    requires Initial(s)
    ensures SincePassStep(s, s)
  {
  }

  lemma InitialStacked(s: Loop)
    requires Initial(s)
    ensures Stacked(s)
  {
  }

  /** `now` is a state of a run from a fresh loop, and m the one behind the last step of a pass. */
  ghost predicate LastIn(m: Loop, now: Loop) {
    exists s, acts :: Initial(s) && CanRun(s, acts) && m == LastPassStep(s, acts) && now == Run(s, acts)
  }

  predicate NoRecordTwice(list: seq<nat>) {
    forall i, j :: 0 <= i < j < |list| ==> list[i] != list[j]
  }

  /** The callback a pass has started last stands in slot own - 1 of its table. */
  predicate StartedBefore(m: Loop, own: nat)
    requires m.Valid() && m.Top().phase.InPass?
  {
    m.Tab(m.Top().phase.kind).At(own - 1) == m.Top().run
  }

  /** Where a pass goes on after a post, in every run. A pass whose callback pended at index `own`
      is at that index again if and only if the callback that was last started by a pass, in
      whichever loop, stands in slot own - 1 of its table; it need not be the one that posts,
      which may have pended and been resumed since. If a pass has ended since, the index is 0. */
  lemma PostKeepsIndexIff(m: Loop, now: Loop, own: nat, v: int)
    requires LastIn(m, now) && CanStep(now, Post(v))
    ensures m.Valid() && (m.Top().run != 0 ==> m.Top().phase.InPass?)
    ensures m.Top().run == 0 ==> Step(now, Post(v)).idx == 0
    ensures m.Top().run != 0 && NoRecordTwice(m.Tab(m.Top().phase.kind).list) ==>
              (Step(now, Post(v)).idx == own <==> StartedBefore(m, own))
  {
    hide LastPassStep, CanRun, Run, Initial;
    var s, acts :| Initial(s) && CanRun(s, acts) && m == LastPassStep(s, acts) && now == Run(s, acts);
    RunMade(s, acts);
    IndexStays(now, Post(v));
  }

  /** A callback that has not pended itself can post, and no record is in its table twice. */
  predicate PostsUnpended(now: Loop, v: int) {
    && CanStep(now, Post(v))
    && now.Top().env == NO_ENV
    && now.Top().phase.InPass?
    && NoRecordTwice(now.Tab(now.Top().phase.kind).list)
  }

  /** For such a callback, in a run with d->check right at each first pend, it is its own slot that
      counts. */
  lemma UnpendedPostKeepsIndexIff(now: Loop, own: nat, v: int)
    requires MatchedState(now) && PostsUnpended(now, v)
    ensures Step(now, Post(v)).idx == own <==> now.Tab(now.Top().phase.kind).At(own - 1) == now.Top().run
  {
    hide MatchedState, Step;
    MatchedIsOwned(now);
    PostAtDepth(now, v);
  }
}
