/** Deletion over whole runs, with pends and posts: a record marked for deletion is not started. */
module LoopMarked {
  import opened LoopMachine
  import opened LoopPass
  import opened LoopReentry

  /** Record r is in the table once at most, and marked if it is. */
  predicate MarkedOnce(t: Table, r: nat) {
    && (r in t.list ==> r in t.toDelete)
    && forall i, j :: 0 <= i < j < |t.list| && t.list[i] == r ==> t.list[j] != r
  }

  lemma RemoveKeepsMarked(t: Table, n: nat, r: nat)
    requires MarkedOnce(t, r) && n < |t.list|
    ensures MarkedOnce(t.RemoveAt(n), r)
  {
    var u := t.RemoveAt(n);
    assert forall i :: n <= i < |u.list| ==> u.list[i] == t.list[i + 1];
    assert forall i :: 0 <= i < n ==> u.list[i] == t.list[i];
  }

  lemma ApiKeepsMarked(s: Loop, c: Call, k: Kind, r: nat)
    requires CanStep(s, Api(c)) && c != Add(k, r) && MarkedOnce(s.Tab(k), r)
    ensures MarkedOnce(Step(s, Api(c)).Tab(k), r)
  {
    hide Step, CanStep;
    ApiOnlyAdds(s, k, r, c);
    var t, u := s.Tab(k), Step(s, Api(c)).Tab(k);
    assert forall i :: |t.list| <= i < |u.list| ==> u.list[i] == u.list[|t.list|..][i - |t.list|];
  }

  lemma NextKeepsMarked(s: Loop, k: Kind, r: nat)
    requires CanStep(s, Next) && MarkedOnce(s.Tab(k), r)
    ensures MarkedOnce(Step(s, Next).Tab(k), r)
  {
    hide MarkedOnce, Ready;
    var l := s.Top().phase.kind;
    if k == l && s.Tab(k).list[s.idx] in s.Tab(k).toDelete {
      RemoveKeepsMarked(s.Tab(k), s.idx, r);
    }
  }

  /** Pends and posts block and unblock records, and move none. */
  predicate SameRecords(t: Table, u: Table) {
    t.list == u.list && t.toDelete == u.toDelete
  }

  lemma OthersKeepRecords(s: Loop, act: Action, k: Kind)
    requires CanStep(s, act) && !act.Next? && !act.Api?
    ensures SameRecords(s.Tab(k), Step(s, act).Tab(k))
  {
  }

  lemma StepKeepsMarked(s: Loop, act: Action, k: Kind, r: nat)
    requires CanStep(s, act) && act != Api(Add(k, r)) && MarkedOnce(s.Tab(k), r)
    ensures MarkedOnce(Step(s, act).Tab(k), r)
  {
    hide Step, CanStep;
    match act
    case Next => NextKeepsMarked(s, k, r);
    case Api(c) => ApiKeepsMarked(s, c, k, r);
    case _ => OthersKeepRecords(s, act, k);
  }

  lemma {:induction false} RunKeepsMarked(s: Loop, acts: seq<Action>, k: Kind, r: nat)
    requires CanRun(s, acts) && Api(Add(k, r)) !in acts && MarkedOnce(s.Tab(k), r)
    ensures MarkedOnce(Run(s, acts).Tab(k), r)
    decreases |acts|
  {
    hide MarkedOnce, Step, CanStep;
    if acts != [] {
      RunKeepsMarked(s, acts[..|acts| - 1], k, r);
      StepKeepsMarked(Run(s, acts[..|acts| - 1]), acts[|acts| - 1], k, r);
    }
  }

  ghost predicate LeadsWithoutAdding(s: Loop, now: Loop, k: Kind, r: nat) {
    exists acts :: CanRun(s, acts) && Api(Add(k, r)) !in acts && now == Run(s, acts)
  }

  /** From a state in which r is marked and in its table once, no run that does not add it again,
      whatever callbacks do, pend and post included, comes to a pass that starts it. */
  lemma MarkedNeverStarted(s: Loop, now: Loop, k: Kind, r: nat)
    requires r != 0 && MarkedOnce(s.Tab(k), r) && LeadsWithoutAdding(s, now, k, r)
    ensures MarkedOnce(now.Tab(k), r) && !MayStart(now, k, r)
  {
    hide CanRun, Run, MarkedOnce;
    var acts :| CanRun(s, acts) && Api(Add(k, r)) !in acts && now == Run(s, acts);
    RunKeepsMarked(s, acts, k, r);
    MarkedIsRemoved(now, k, r);
  }

  lemma MarkedIsRemoved(s: Loop, k: Kind, r: nat)
    requires r != 0 && MarkedOnce(s.Tab(k), r)
    ensures !MayStart(s, k, r)
  {
    if CanStep(s, Next) && s.Top().phase == InPass(k) {
      assert s.Tab(k).list[s.idx] in s.Tab(k).list;
    }
  }
}
