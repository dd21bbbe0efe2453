/** One pass over a table, without pends: every entry is dealt with exactly once, in order. */
module LoopPass {
  import opened LoopMachine

  function Records(seen: seq<Visit>): seq<nat> {
    if seen == [] then [] else Records(seen[..|seen| - 1]) + [seen[|seen| - 1].rec]
  }

  /** The visited records that were not removed, in the order of the visits. */
  function Kept(seen: seq<Visit>): seq<nat> {
    if seen == [] then []
    else
      var v := seen[|seen| - 1];
      Kept(seen[..|seen| - 1]) + if v.removed then [] else [v.rec]
  }

  lemma OneMoreVisit(seen: seq<Visit>, v: Visit)
    ensures Records(seen + [v]) == Records(seen) + [v.rec]
    ensures Kept(seen + [v]) == Kept(seen) + if v.removed then [] else [v.rec]
  {
    assert (seen + [v])[..|seen|] == seen;
  }

  /** Entries `start` were found and `added` appended; `seen` have been visited, and the next
      one is at index idx of what is in the table now. */
  predicate PassedOver(list: seq<nat>, idx: nat, seen: seq<Visit>, start: seq<nat>, added: seq<nat>) {
    && idx <= |list|
    && Records(seen) + list[idx..] == start + added
    && list[..idx] == Kept(seen)
  }

  lemma RemoveOne(list: seq<nat>, i: nat, seen: seq<Visit>, start: seq<nat>, added: seq<nat>)
    requires PassedOver(list, i, seen, start, added) && i < |list|
    ensures PassedOver(list[..i] + list[i + 1..], i, seen + [Visit(list[i], true)], start, added)
  {
    hide Records, Kept;
    OneMoreVisit(seen, Visit(list[i], true));
    var rest := list[..i] + list[i + 1..];
    assert rest[..i] == list[..i] && rest[i..] == list[i + 1..];
    assert list[i..] == [list[i]] + list[i + 1..];
    assert Kept(seen) + [] == Kept(seen);
    assert Records(seen) + ([list[i]] + list[i + 1..]) == (Records(seen) + [list[i]]) + list[i + 1..];
  }

  lemma PassOne(list: seq<nat>, i: nat, seen: seq<Visit>, start: seq<nat>, added: seq<nat>)
    requires PassedOver(list, i, seen, start, added) && i < |list|
    ensures PassedOver(list, i + 1, seen + [Visit(list[i], false)], start, added)
  {
    hide Records, Kept;
    OneMoreVisit(seen, Visit(list[i], false));
    assert list[i..] == [list[i]] + list[i + 1..];
    assert list[..i + 1] == list[..i] + [list[i]];
    assert Records(seen) + ([list[i]] + list[i + 1..]) == (Records(seen) + [list[i]]) + list[i + 1..];
  }

  lemma AppendSome(list: seq<nat>, i: nat, seen: seq<Visit>, start: seq<nat>, added: seq<nat>, more: seq<nat>)
    requires PassedOver(list, i, seen, start, added)
    ensures PassedOver(list + more, i, seen, start, added + more)
  {
    hide Records, Kept;
    assert (list + more)[i..] == list[i..] + more && (list + more)[..i] == list[..i];
    assert Records(seen) + (list[i..] + more) == (Records(seen) + list[i..]) + more;
    assert start + (added + more) == (start + added) + more;
  }

  /** In the middle of a pass over table k that found the entries `start`. */
  predicate Passing(s: Loop, k: Kind, start: seq<nat>) {
    && s.Valid()
    && s.env == |s.levels| - 1
    && s.Top().phase == InPass(k)
    && PassedOver(s.Tab(k).list, s.idx, s.seen, start, s.added)
  }

  /** The steps of a pass whose callbacks do not pend, post or leave. */
  predicate Plain(act: Action) {
    act.Next? || act.Api? || act.Return?
  }

  lemma NextKeepsPassing(s: Loop, k: Kind, start: seq<nat>)
    requires Passing(s, k, start) && CanStep(s, Next)
    ensures Passing(Step(s, Next), k, start)
  {
    hide PassedOver;
    var t := s.Tab(k);
    if t.list[s.idx] in t.toDelete {
      RemoveOne(t.list, s.idx, s.seen, start, s.added);
    } else {
      PassOne(t.list, s.idx, s.seen, start, s.added);
    }
  }

  lemma ApiKeepsPassing(s: Loop, k: Kind, start: seq<nat>, c: Call)
    requires Passing(s, k, start) && CanStep(s, Api(c))
    ensures Passing(Step(s, Api(c)), k, start)
  {
    hide PassedOver;
    if c.Add? && c.kind == k {
      var t := s.Tab(k);
      AppendSome(t.list, s.idx, s.seen, start, s.added, t.Added(c.rec));
      AddAppends(t, c.rec);
    }
  }

  lemma AddAppends(t: Table, r: nat)
    ensures t.Add(r).list == t.list + t.Added(r)
  {
    assert t.list + [] == t.list;
  }

  lemma StepKeepsPassing(s: Loop, k: Kind, start: seq<nat>, act: Action)
    requires Passing(s, k, start) && CanStep(s, act) && Plain(act)
    ensures Passing(Step(s, act), k, start)
  {
    match act
    case Next => NextKeepsPassing(s, k, start);
    case Api(c) => ApiKeepsPassing(s, k, start, c);
    case Return =>
  }

  predicate AllPlain(acts: seq<Action>) {
    forall i :: 0 <= i < |acts| ==> Plain(acts[i])
  }

  lemma {:induction false} RunKeepsPassing(s: Loop, k: Kind, start: seq<nat>, acts: seq<Action>)
    requires Passing(s, k, start) && CanRun(s, acts) && AllPlain(acts)
    ensures Passing(Run(s, acts), k, start)
    decreases |acts|
  {
    hide Passing, Step, CanStep;
    if acts != [] {
      RunKeepsPassing(s, k, start, acts[..|acts| - 1]);
      StepKeepsPassing(Run(s, acts[..|acts| - 1]), k, start, acts[|acts| - 1]);
    }
  }

  /** `end` is where a pass entered in s may end, its callbacks doing anything but pend, post or
      end the loop. */
  ghost predicate PassMayEnd(s: Loop, edge: bool, end: Loop)
    requires CanStep(s, Enter(edge))
  {
    CanStep(end, EndPass) &&
    exists acts :: CanRun(Step(s, Enter(edge)), acts) && AllPlain(acts) && end == Run(Step(s, Enter(edge)), acts)
  }

  predicate EachOnce(start: seq<nat>, end: Loop, k: Kind) {
    && Records(end.seen) == start + end.added
    && end.Tab(k).list == Kept(end.seen)
  }

  /** Exactly once. A pass entered at index 0 has, when it ends, visited the entries it found and
      then those appended meanwhile, each once and in this order; what is left in the table is
      what it did not remove, in the same order. */
  lemma PassVisitsEachOnce(s: Loop, edge: bool, end: Loop)
    requires CanStep(s, Enter(edge)) && s.idx == 0 && s.env == |s.levels| - 1
    requires PassMayEnd(s, edge, end)
    ensures var k := if s.check.Timers? || edge then Timers else Funcs;
            EachOnce(s.Tab(k).list, end, k)
  {
    hide Run, CanRun, AllPlain;
    var k := if s.check.Timers? || edge then Timers else Funcs;
    var begun := Step(s, Enter(edge));
    var acts :| CanRun(begun, acts) && AllPlain(acts) && end == Run(begun, acts);
    assert Passing(begun, k, s.Tab(k).list);
    RunKeepsPassing(begun, k, s.Tab(k).list, acts);
    assert end.Tab(k).list[end.idx..] == [] && end.Tab(k).list[..end.idx] == end.Tab(k).list;
  }

  // ---------------------------------------------------------------- deletion

  /** Record r is still to come, once at most and marked, or is gone. */
  predicate Doomed(s: Loop, k: Kind, r: nat)
    requires s.Valid()
  {
    var t := s.Tab(k);
    && s.idx <= |t.list| && r !in t.list[..s.idx]
    && (forall i, j :: 0 <= i < j < |t.list| && t.list[i] == r ==> t.list[j] != r)
    && (r in t.list ==> r in t.toDelete)
    && s.Top().run != r
  }

  lemma NextKeepsDoomed(s: Loop, k: Kind, r: nat)
    requires CanStep(s, Next) && s.Top().phase == InPass(k) && r != 0 && Doomed(s, k, r)
    ensures Step(s, Next).Valid() && Doomed(Step(s, Next), k, r)
  {
    hide Ready;
    NextMoves(s, k);
    var t := s.Tab(k);
    assert t.list == t.list[..s.idx] + [t.list[s.idx]] + t.list[s.idx + 1..];
    if t.list[s.idx] in t.toDelete {
      RemovedStaysDoomed(t, s.idx, r);
    } else {
      assert t.list[s.idx] != r;
    }
  }

  lemma RemovedStaysDoomed(t: Table, n: nat, r: nat)
    requires t.Valid() && n < |t.list| && r !in t.list[..n]
    requires forall i, j :: 0 <= i < j < |t.list| && t.list[i] == r ==> t.list[j] != r
    requires r in t.list ==> r in t.toDelete
    ensures var u := t.RemoveAt(n);
            && n <= |u.list| && r !in u.list[..n]
            && (forall i, j :: 0 <= i < j < |u.list| && u.list[i] == r ==> u.list[j] != r)
            && (r in u.list ==> r in u.toDelete)
  {
    var u := t.RemoveAt(n);
    assert u.list[..n] == t.list[..n];
    assert forall i :: n <= i < |u.list| ==> u.list[i] == t.list[i + 1];
    assert forall i :: 0 <= i < n ==> u.list[i] == t.list[i];
  }

  /** What a call of the API may do to table k without adding r. */
  predicate OnlyAdds(t: Table, u: Table, r: nat) {
    && t.list <= u.list
    && r !in u.list[|t.list|..]
    && (r in t.toDelete ==> r in u.toDelete)
  }

  lemma AddOnlyAdds(t: Table, rec: nat, r: nat)
    requires t.Valid() && rec != 0
    ensures t.Add(rec).Valid() && (rec != r ==> OnlyAdds(t, t.Add(rec), r))
  {
    AddAppends(t, rec);
    assert t.Add(rec).list[|t.list|..] == t.Added(rec);
  }

  lemma ApiOnlyAdds(s: Loop, k: Kind, r: nat, c: Call)
    requires CanStep(s, Api(c)) && c != Add(k, r)
    ensures OnlyAdds(s.Tab(k), Step(s, Api(c)).Tab(k), r)
    ensures var s' := Step(s, Api(c)); s'.Valid() && s'.levels == s.levels && s'.idx == s.idx
  {
    hide Table.Add, Table.Added;
    var t, u := s.Tab(k), Step(s, Api(c)).Tab(k);
    if c.Add? {
      AddOnlyAdds(s.Tab(c.kind), c.rec, r);
    }
    if !(c.Add? && c.kind == k) {
      assert u.list == t.list;
    }
  }

  lemma ApiKeepsDoomed(s: Loop, k: Kind, r: nat, c: Call)
    requires CanStep(s, Api(c)) && c != Add(k, r) && Doomed(s, k, r)
    ensures Step(s, Api(c)).Valid() && Doomed(Step(s, Api(c)), k, r)
  {
    hide Step;
    ApiOnlyAdds(s, k, r, c);
    hide CanStep;
    var t, u := s.Tab(k), Step(s, Api(c)).Tab(k);
    assert forall i :: |t.list| <= i < |u.list| ==> u.list[i] == u.list[|t.list|..][i - |t.list|];
    assert u.list[..s.idx] == t.list[..s.idx];
  }

  lemma StepKeepsDoomed(s: Loop, k: Kind, r: nat, act: Action)
    requires CanStep(s, act) && Plain(act) && act != Api(Add(k, r))
    requires s.env == |s.levels| - 1 && s.Top().phase == InPass(k) && r != 0 && Doomed(s, k, r)
    ensures Step(s, act).Valid() && Doomed(Step(s, act), k, r)
  {
    match act
    case Next => NextKeepsDoomed(s, k, r);
    case Api(c) => ApiKeepsDoomed(s, k, r, c);
    case Return =>
  }

  lemma {:induction false} RunKeepsDoomed(s: Loop, k: Kind, start: seq<nat>, r: nat, acts: seq<Action>)
    requires Passing(s, k, start) && r != 0 && Doomed(s, k, r)
    requires CanRun(s, acts) && AllPlain(acts) && Api(Add(k, r)) !in acts
    ensures Run(s, acts).Valid() && Doomed(Run(s, acts), k, r)
    decreases |acts|
  {
    hide PassedOver, Doomed, Step, CanStep;
    if acts != [] {
      var front := acts[..|acts| - 1];
      RunKeepsDoomed(s, k, start, r, front);
      RunKeepsPassing(s, k, start, front);
      StepKeepsDoomed(Run(s, front), k, r, acts[|acts| - 1]);
    }
  }

  /** Record r is in the table, marked, in the pass of s, in which `now` is later; it has not been
      added again meanwhile. */
  ghost predicate LaterThanMarked(s: Loop, now: Loop, k: Kind, start: seq<nat>, r: nat) {
    && Passing(s, k, start) && r in s.Tab(k).list && Doomed(s, k, r)
    && exists acts :: CanRun(s, acts) && AllPlain(acts) && Api(Add(k, r)) !in acts && now == Run(s, acts)
  }

  predicate NotRun(now: Loop, k: Kind, r: nat) {
    now.Valid() && now.Top().run != r && (CanStep(now, EndPass) ==> r !in now.Tab(k).list)
  }

  /** Deletion in the middle of a pass. A record that is marked in s before its turn, stands in the
      table once, and is not added again is not run in the rest of the pass, whatever else
      callbacks add and delete, and is not in the table when the pass ends. */
  lemma MarkedIsNotRun(s: Loop, now: Loop, k: Kind, start: seq<nat>, r: nat)
    requires LaterThanMarked(s, now, k, start, r)
    ensures NotRun(now, k, r)
  {
    var acts :| CanRun(s, acts) && AllPlain(acts) && Api(Add(k, r)) !in acts && now == Run(s, acts);
    hide CanRun, Run, AllPlain;
    RunKeepsDoomed(s, k, start, r, acts);
    RunKeepsPassing(s, k, start, acts);
    if CanStep(now, EndPass) {
      assert now.Tab(k).list[..now.idx] == now.Tab(k).list;
    }
  }

  // -------------------------------------------------------------- termination

  /** Falls with every visit and is not raised by callbacks: entries still to be passed, each
      of which may let its callback fill the table, then entries in the table. */
  function Potential(s: Loop, k: Kind): int
    requires s.Valid()
  {
    (s.Tab(k).max - s.idx) * (s.Tab(k).max + 1) + if s.Top().run != 0 then s.Tab(k).max else |s.Tab(k).list|
  }

  function Visits(acts: seq<Action>): nat {
    if acts == [] then 0 else Visits(acts[..|acts| - 1]) + if acts[|acts| - 1].Next? then 1 else 0
  }

  lemma NextLowersPotential(s: Loop, k: Kind)
    requires CanStep(s, Next) && s.Top().phase == InPass(k)
    ensures Step(s, Next).Valid() && Step(s, Next).Tab(k).max == s.Tab(k).max
    ensures Potential(Step(s, Next), k) <= Potential(s, k) - 1
  {
    hide Potential, Ready;
    NextMoves(s, k);
    PotentialFalls(s, Step(s, Next), k);
  }

  lemma NextMoves(s: Loop, k: Kind)
    requires CanStep(s, Next) && s.Top().phase == InPass(k)
    ensures Step(s, Next).Valid() && Moves(s, Step(s, Next), k)
  {
    hide Ready;
    if s.Tab(k).list[s.idx] in s.Tab(k).toDelete {
      RemoveSplits(s.Tab(k), s.idx);
    }
  }

  /** Nothing was running; then an entry is gone, or one more is behind. */
  predicate Moves(s: Loop, s': Loop, k: Kind)
    requires s.Valid() && s'.Valid()
  {
    && s'.Tab(k).max == s.Tab(k).max && s.Top().run == 0
    && (if s'.idx == s.idx then s'.Top().run == 0 && |s'.Tab(k).list| < |s.Tab(k).list|
        else s'.idx == s.idx + 1 && |s'.Tab(k).list| == |s.Tab(k).list|)
  }

  lemma PotentialFalls(s: Loop, s': Loop, k: Kind)
    requires s.Valid() && s'.Valid() && Moves(s, s', k)
    ensures Potential(s', k) <= Potential(s, k) - 1
  {
    var m := s.Tab(k).max;
    var one := (m - s.idx) * (m + 1);
    assert (m - (s.idx + 1)) * (m + 1) == one - (m + 1);
  }

  lemma RemoveSplits(t: Table, i: nat)
    requires t.Valid() && i < |t.list|
    ensures t.RemoveAt(i).Valid() && |t.RemoveAt(i).list| == |t.list| - 1
  {
  }

  lemma OthersKeepPotential(s: Loop, k: Kind, act: Action)
    requires CanStep(s, act) && s.Top().phase == InPass(k) && (act.Api? || act.Return?)
    requires s.env == |s.levels| - 1
    ensures Step(s, act).Valid() && Step(s, act).Tab(k).max == s.Tab(k).max
    ensures Potential(Step(s, act), k) <= Potential(s, k)
  {
  }

  lemma StepLowersPotential(s: Loop, k: Kind, start: seq<nat>, act: Action)
    requires Passing(s, k, start) && CanStep(s, act) && Plain(act)
    ensures Step(s, act).Valid() && Step(s, act).Tab(k).max == s.Tab(k).max
    ensures Potential(Step(s, act), k) <= Potential(s, k) - if act.Next? then 1 else 0
  {
    hide PassedOver, Step, CanStep, Potential;
    if act.Next? {
      NextLowersPotential(s, k);
    } else {
      OthersKeepPotential(s, k, act);
    }
  }

  lemma {:induction false} RunLowersPotential(s: Loop, k: Kind, start: seq<nat>, acts: seq<Action>)
    requires Passing(s, k, start) && CanRun(s, acts) && AllPlain(acts)
    ensures Run(s, acts).Valid() && Run(s, acts).Tab(k).max == s.Tab(k).max
    ensures Potential(Run(s, acts), k) + Visits(acts) <= Potential(s, k)
    decreases |acts|
  {
    hide Passing, Potential, Step, CanStep;
    if acts == [] {
      PotentialBounds(s, k, start);
    } else {
      var front, act := acts[..|acts| - 1], acts[|acts| - 1];
      RunLowersPotential(s, k, start, front);
      RunKeepsPassing(s, k, start, front);
      StepLowersPotential(Run(s, front), k, start, act);
    }
  }

  /** A pass over table k that found `start` may go on for so many visits. */
  ghost predicate MayVisit(s: Loop, k: Kind, start: seq<nat>, visits: nat) {
    Passing(s, k, start) && exists acts :: CanRun(s, acts) && AllPlain(acts) && Visits(acts) == visits
  }

  /** A pass ends: however its callbacks add entries, it makes at most max * (max + 2) visits. */
  lemma PassEnds(s: Loop, k: Kind, start: seq<nat>, visits: nat)
    requires MayVisit(s, k, start, visits)
    ensures visits <= s.Tab(k).max * (s.Tab(k).max + 2)
  {
    hide Passing, Potential, CanRun, Run, AllPlain, Visits;
    var acts :| CanRun(s, acts) && AllPlain(acts) && Visits(acts) == visits;
    RunLowersPotential(s, k, start, acts);
    RunKeepsPassing(s, k, start, acts);
    PotentialBounds(Run(s, acts), k, start);
    PotentialBounds(s, k, start);
  }

  lemma PotentialBounds(s: Loop, k: Kind, start: seq<nat>)
    requires Passing(s, k, start)
    ensures s.Valid() && 0 <= Potential(s, k) <= s.Tab(k).max * (s.Tab(k).max + 2)
  {
    hide Records, Kept;
    var m := s.Tab(k).max;
    Times(m - s.idx, m, m + 1);
    assert m * (m + 2) == m * (m + 1) + m;
  }

  lemma Times(a: nat, b: nat, c: nat)
    requires a <= b
    ensures 0 <= a * c <= b * c
  {
    assert b * c == a * c + (b - a) * c;
    assert (b - a) * c >= 0;
  }
}
