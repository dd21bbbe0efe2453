/** What the calls of the API bring about, over the runs that follow them. */
module LoopCalls {
  import opened LoopMachine
  import opened LoopPass
  import opened LoopReentry
  import opened LoopMarked

  // --------------------------------------------------------------- deleting

  /** A record in its table once that a callback deletes is not started by any pass, whatever
      happens, until it is added again. */
  lemma DeletedNeverStarted(s: Loop, now: Loop, k: Kind, r: nat)
    requires r != 0 && CanStep(s, Api(Del(k, r))) && Once(s.Tab(k), r)
    requires LeadsWithoutAdding(Step(s, Api(Del(k, r))), now, k, r)
    ensures MarkedOnce(now.Tab(k), r) && !MayStart(now, k, r)
  {
    hide LeadsWithoutAdding, MayStart;
    DeletionMarks(s, k, r);
    MarkedNeverStarted(Step(s, Api(Del(k, r))), now, k, r);
  }

  predicate Once(t: Table, r: nat) {
    forall i, j :: 0 <= i < j < |t.list| && t.list[i] == r ==> t.list[j] != r
  }

  lemma DeletionMarks(s: Loop, k: Kind, r: nat)
    requires CanStep(s, Api(Del(k, r))) && Once(s.Tab(k), r)
    ensures MarkedOnce(Step(s, Api(Del(k, r))).Tab(k), r)
  {
  }

  // ----------------------------------------------------------------- adding

  /** Only records in the table are marked. */
  predicate MarksInTable(t: Table) {
    forall r :: r in t.toDelete ==> r in t.list
  }

  /** In the table, and not to be deleted. */
  predicate Standing(t: Table, r: nat) {
    r in t.list && r !in t.toDelete
  }

  lemma RemovalKeepsOthers(t: Table, n: nat)
    requires n < |t.list| && t.list[n] in t.toDelete
    ensures MarksInTable(t) ==> MarksInTable(t.RemoveAt(n))
    ensures forall r :: Standing(t, r) ==> Standing(t.RemoveAt(n), r)
  {
    var u := t.RemoveAt(n);
    forall r | r in t.list && r != t.list[n]
      ensures r in u.list
    {
      var i :| 0 <= i < |t.list| && t.list[i] == r;
      assert u.list[if i < n then i else i - 1] == r;
    }
  }

  lemma ApiKeepsRecords(s: Loop, c: Call, k: Kind)
    requires CanStep(s, Api(c))
    ensures MarksInTable(s.Tab(k)) ==> MarksInTable(Step(s, Api(c)).Tab(k))
    ensures forall r :: Standing(s.Tab(k), r) && c != Del(k, r) ==> Standing(Step(s, Api(c)).Tab(k), r)
  {
  }

  lemma NextKeepsRecords(s: Loop, k: Kind)
    requires CanStep(s, Next)
    ensures MarksInTable(s.Tab(k)) ==> MarksInTable(Step(s, Next).Tab(k))
    ensures forall r :: Standing(s.Tab(k), r) ==> Standing(Step(s, Next).Tab(k), r)
  {
    hide MarksInTable, Standing, Ready;
    var l := s.Top().phase.kind;
    if k == l && s.Tab(k).list[s.idx] in s.Tab(k).toDelete {
      RemovalKeepsOthers(s.Tab(k), s.idx);
    }
  }

  lemma StepKeepsRecords(s: Loop, act: Action, k: Kind)
    requires CanStep(s, act)
    ensures MarksInTable(s.Tab(k)) ==> MarksInTable(Step(s, act).Tab(k))
    ensures forall r :: Standing(s.Tab(k), r) && act != Api(Del(k, r)) ==> Standing(Step(s, act).Tab(k), r)
  {
    hide Step, CanStep;
    match act
    case Next => NextKeepsRecords(s, k);
    case Api(c) => ApiKeepsRecords(s, c, k);
    case _ => OthersKeepRecords(s, act, k);
  }

  /** Over every run only records in a table are marked in it. */
  lemma {:induction false} RunKeepsMarksInTable(s: Loop, acts: seq<Action>, k: Kind)
    requires CanRun(s, acts) && MarksInTable(s.Tab(k))
    ensures MarksInTable(Run(s, acts).Tab(k))
    decreases |acts|
  {
    hide MarksInTable, Standing, Step, CanStep;
    if acts != [] {
      RunKeepsMarksInTable(s, acts[..|acts| - 1], k);
      StepKeepsRecords(Run(s, acts[..|acts| - 1]), acts[|acts| - 1], k);
    }
  }

  lemma {:induction false} RunKeepsStanding(s: Loop, acts: seq<Action>, k: Kind, r: nat)
    requires CanRun(s, acts) && Api(Del(k, r)) !in acts && Standing(s.Tab(k), r)
    ensures Standing(Run(s, acts).Tab(k), r)
    decreases |acts|
  {
    hide MarksInTable, Standing, Step, CanStep;
    if acts != [] {
      RunKeepsStanding(s, acts[..|acts| - 1], k, r);
      StepKeepsRecords(Run(s, acts[..|acts| - 1]), acts[|acts| - 1], k);
    }
  }

  ghost predicate LeadsWithoutDeleting(s: Loop, now: Loop, k: Kind, r: nat) {
    exists acts :: CanRun(s, acts) && Api(Del(k, r)) !in acts && now == Run(s, acts)
  }

  /** A record that is in its table and not to be deleted stays so over every run in which it is
      not deleted. */
  lemma StaysInTable(s: Loop, now: Loop, k: Kind, r: nat)
    requires Standing(s.Tab(k), r) && LeadsWithoutDeleting(s, now, k, r)
    ensures Standing(now.Tab(k), r)
  {
    hide CanRun, Run, Standing;
    var acts :| CanRun(s, acts) && Api(Del(k, r)) !in acts && now == Run(s, acts);
    RunKeepsStanding(s, acts, k, r);
  }

  /** Adding a record puts it into its table to stay, marked for deletion before or not, if and
      only if it was there or there was room. */
  lemma AddedStays(s: Loop, now: Loop, k: Kind, r: nat)
    requires CanStep(s, Api(Add(k, r))) && MarksInTable(s.Tab(k))
    ensures Standing(Step(s, Api(Add(k, r))).Tab(k), r) <==> r in s.Tab(k).list || |s.Tab(k).list| < s.Tab(k).max
    ensures (r in s.Tab(k).list || |s.Tab(k).list| < s.Tab(k).max) &&
            LeadsWithoutDeleting(Step(s, Api(Add(k, r))), now, k, r) ==>
              Standing(now.Tab(k), r)
  {
    hide LeadsWithoutDeleting;
    AdditionStands(s, k, r);
    if (r in s.Tab(k).list || |s.Tab(k).list| < s.Tab(k).max) &&
       LeadsWithoutDeleting(Step(s, Api(Add(k, r))), now, k, r) {
      StaysInTable(Step(s, Api(Add(k, r))), now, k, r);
    }
  }

  lemma AdditionStands(s: Loop, k: Kind, r: nat)
    requires CanStep(s, Api(Add(k, r))) && MarksInTable(s.Tab(k))
    ensures Standing(Step(s, Api(Add(k, r))).Tab(k), r) <==> r in s.Tab(k).list || |s.Tab(k).list| < s.Tab(k).max
  {
  }

  // ------------------------------------------------- disabling and enabling

  /** The next step of a pass over table k is the visit to r, which is not marked. */
  predicate Visits(s: Loop, k: Kind, r: nat) {
    CanStep(s, Next) && s.Top().phase == InPass(k) && s.Tab(k).list[s.idx] == r && r !in s.Tab(k).toDelete
  }

  /** A pass starts a function exactly when it visits it and it is neither disabled nor blocked. */
  lemma StartsIff(s: Loop, r: nat)
    requires r != 0
    ensures MayStart(s, Funcs, r) <==> Visits(s, Funcs, r) && r !in s.disabled && r !in s.funcs.blocked
  {
  }

  predicate NeverSwitched(acts: seq<Action>, r: nat) {
    forall i :: 0 <= i < |acts| ==> !(acts[i].Api? && acts[i].call.SetDisabled? && acts[i].call.rec == r)
  }

  lemma StepLeavesSwitch(s: Loop, act: Action, r: nat)
    requires CanStep(s, act) && NeverSwitched([act], r)
    ensures r in Step(s, act).disabled <==> r in s.disabled
  {
    assert [act][0] == act;
  }

  lemma {:induction false} RunLeavesSwitch(s: Loop, acts: seq<Action>, r: nat)
    requires CanRun(s, acts) && NeverSwitched(acts, r)
    ensures r in Run(s, acts).disabled <==> r in s.disabled
    decreases |acts|
  {
    hide Step, CanStep;
    if acts != [] {
      RunLeavesSwitch(s, acts[..|acts| - 1], r);
      StepLeavesSwitch(Run(s, acts[..|acts| - 1]), acts[|acts| - 1], r);
    }
  }

  ghost predicate LaterUnswitched(s: Loop, now: Loop, r: nat) {
    exists acts :: CanRun(s, acts) && NeverSwitched(acts, r) && now == Run(s, acts)
  }

  /** After loop_func_disable no pass starts the function, and after loop_func_enable every visit
      to it does that finds it unblocked, until the next such call. */
  lemma SwitchedFunction(s: Loop, now: Loop, r: nat, on: bool)
    requires r != 0 && CanStep(s, Api(SetDisabled(r, on))) && LaterUnswitched(Step(s, Api(SetDisabled(r, on))), now, r)
    ensures MayStart(now, Funcs, r) <==> Visits(now, Funcs, r) && !on && r !in now.funcs.blocked
  {
    hide CanRun, Run, NeverSwitched, MayStart, Visits;
    var switched := Step(s, Api(SetDisabled(r, on)));
    assert r in switched.disabled <==> on;
    var acts :| CanRun(switched, acts) && NeverSwitched(acts, r) && now == Run(switched, acts);
    RunLeavesSwitch(switched, acts, r);
    StartsIff(now, r);
  }

  // ------------------------------------------------------------ ending loops

  predicate NeverEnds(acts: seq<Action>) {
    forall i :: 0 <= i < |acts| ==> !(acts[i].Api? && acts[i].call.EndLoop?)
  }

  lemma StepLeavesExit(s: Loop, act: Action)
    requires CanStep(s, act) && NeverEnds([act])
    ensures Step(s, act).exit == s.exit
  {
    assert [act][0] == act;
  }

  lemma {:induction false} RunLeavesExit(s: Loop, acts: seq<Action>)
    requires CanRun(s, acts) && NeverEnds(acts)
    ensures Run(s, acts).exit == s.exit
    decreases |acts|
  {
    hide Step, CanStep;
    if acts != [] {
      RunLeavesExit(s, acts[..|acts| - 1]);
      StepLeavesExit(Run(s, acts[..|acts| - 1]), acts[|acts| - 1]);
    }
  }

  ghost predicate LaterUnended(s: Loop, now: Loop) {
    exists acts :: CanRun(s, acts) && NeverEnds(acts) && now == Run(s, acts)
  }

  /** After loop_end with a value that is not 0 no loop, nested or not, begins another pass: one
      that is not in a pass can only return the value, and if it is nested resume the pend. */
  lemma EndedLoopBeginsNoPass(s: Loop, now: Loop, v: int, edge: bool)
    requires v != 0 && CanStep(s, Api(EndLoop(v))) && LaterUnended(Step(s, Api(EndLoop(v))), now)
    ensures now.exit == v && !CanStep(now, Enter(edge))
    ensures now.Valid() && now.Top().phase == AtTop && now.Top().run == 0 ==>
              (CanStep(now, Leave) <==> |now.levels| >= 2)
  {
    hide CanRun, Run, NeverEnds;
    var ended := Step(s, Api(EndLoop(v)));
    var acts :| CanRun(ended, acts) && NeverEnds(acts) && now == Run(ended, acts);
    RunLeavesExit(ended, acts);
  }
}
