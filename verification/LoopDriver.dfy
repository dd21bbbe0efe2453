/** loop.c as it runs: the callback arrays searched, extended and shifted in place while the
    passes walk them. Every method is tied to LoopMachine. */
module LoopDriver {
  import opened LoopMachine
  import opened LoopPass

  /** One array of callback records, with the flags kept in the records. */
  class Slots {
    const slots: array<nat>
    var toDelete: set<nat>
    var blocked: set<nat>
    ghost var len: nat

    /** A gap-free prefix of records, NULL behind it. */
    ghost predicate Valid()
      reads this, slots
    {
      && len <= slots.Length
      && (forall i :: 0 <= i < len ==> slots[i] != 0)
      && (forall i :: len <= i < slots.Length ==> slots[i] == 0)
    }

    ghost function View(): Table
      reads this, slots
      requires Valid()
    {
      Table(slots[..len], slots.Length, toDelete, blocked)
    }

    constructor (max: nat)
      ensures Valid() && fresh(slots) && View() == Table([], max, {}, {})
    {
      slots := new nat[max](_ => 0);
      toDelete, blocked, len := {}, {}, 0;
    }

    /** loop_func_add, loop_timer_add: 0 unless there is no room. */
    method Add(r: nat) returns (rc: nat)
      requires Valid() && r != 0
      modifies this`toDelete, this`len, slots
      ensures Valid() && View() == old(View()).Add(r)
      ensures var marked, room := old(r in View().list && r in toDelete), old(len) < slots.Length;
              && View().list == old(View()).list + (if !marked && room then [r] else [])
              && toDelete == (if marked then old(toDelete) - {r} else old(toDelete)) && blocked == old(blocked)
      ensures rc == 0 <==> old(r in View().list && r in toDelete) || old(len) < slots.Length
    {
      var i := 0;
      while i < slots.Length && slots[i] != 0
        invariant 0 <= i <= len
        invariant forall j :: 0 <= j < i ==> !(slots[j] == r && r in toDelete)
      {
        if slots[i] == r && r in toDelete {
          toDelete := toDelete - {r};
          return 0;
        }
        i := i + 1;
      }
      if i == slots.Length {
        return 1;
      }
      slots[i] := r;
      len := len + 1;
      assert slots[..len] == old(slots[..len]) + [r];
      rc := 0;
    }

    /** loop_func_del, loop_timer_del: 0 if the record is in the table. */
    method Del(r: nat) returns (rc: nat)
      requires Valid() && (r in View().list || len < slots.Length)
      modifies this`toDelete
      ensures Valid() && View() == old(View()).Del(r)
      ensures View().list == old(View()).list && blocked == old(blocked)
      ensures toDelete == if r in View().list then old(toDelete) + {r} else old(toDelete)
      ensures rc == 0 <==> r in View().list
    {
      var i := 0;
      while slots[i] != 0
        invariant 0 <= i <= len && (r in View().list || len < slots.Length)
        invariant forall j :: 0 <= j < i ==> slots[j] != r
        invariant i == len ==> len < slots.Length
        decreases slots.Length - i
      {
        if slots[i] == r {
          toDelete := toDelete + {r};
          return 0;
        }
        i := i + 1;
      }
      rc := 1;
    }

    /** delete_func, delete_timer: shifts the entries behind slot `at` down. */
    method DeleteAt(at: nat)
      requires Valid() && at < len < slots.Length
      modifies this`len, slots
      ensures Valid() && len == old(len) - 1 && toDelete == old(toDelete)
      ensures slots[..len] == old(slots[..at] + slots[at + 1..len])
    {
      var i := at;
      while slots[i + 1] != 0
        invariant len == old(len) && at <= i < len
        invariant forall j :: 0 <= j < at ==> slots[j] == old(slots[j])
        invariant forall j :: at <= j < i ==> slots[j] == old(slots[j + 1])
        invariant forall j :: i < j < slots.Length ==> slots[j] == old(slots[j])
        invariant i > at ==> slots[i] == old(slots[i])
        decreases slots.Length - i
      {
        slots[i] := slots[i + 1];
        i := i + 1;
      }
      slots[i] := 0;
      len := len - 1;
      assert i == len;
    }
  }

  lemma AddStep(s: Loop, k: Kind, r: nat)
    requires s.Valid() && s.Top().run != 0 && r != 0
    ensures CanStep(s, Api(Add(k, r)))
    ensures var s' := s.WithTab(k, s.Tab(k).Add(r));
            Step(s, Api(Add(k, r))) == if s.Top().phase == InPass(k) then s'.(added := s.added + s.Tab(k).Added(r)) else s'
    ensures Step(s, Api(Add(k, r))).Valid()
  {
  }

  /** How many records the calls may append to table k. */
  function Adds(calls: seq<Call>, k: Kind): nat {
    if calls == [] then 0 else Adds(calls[1..], k) + if calls[0].Add? && calls[0].kind == k then 1 else 0
  }

  function AllAdds(callbacks: seq<seq<Call>>, k: Kind): nat {
    if callbacks == [] then 0 else Adds(callbacks[0], k) + AllAdds(callbacks[1..], k)
  }

  /** The calls of the next callback, and the callbacks behind it. */
  function Made(callbacks: seq<seq<Call>>): seq<Action> {
    if callbacks == [] then [] else seq(|callbacks[0]|, i requires 0 <= i < |callbacks[0]| => Api(callbacks[0][i]))
  }

  function Behind(callbacks: seq<seq<Call>>): seq<seq<Call>> {
    if callbacks == [] then [] else callbacks[1..]
  }

  lemma MadeCalls(callbacks: seq<seq<Call>>)
    ensures var calls := if callbacks == [] then [] else callbacks[0];
            && |Made(callbacks)| == |calls|
            && forall i :: 0 <= i < |calls| ==> Made(callbacks)[i] == Api(calls[i])
  {
  }

  /** A visit, and if it starts a callback all the calls of that, and its return. */
  predicate Visited(was: Loop, callbacks: seq<seq<Call>>, trace: seq<Action>, now: seq<seq<Call>>, trace': seq<Action>)
    requires CanStep(was, Next)
  {
    if Step(was, Next).levels != [] && Step(was, Next).Top().run != 0
    then now == Behind(callbacks) && trace' == trace + [Next] + Made(callbacks) + [Return]
    else now == callbacks && trace' == trace + [Next]
  }

  predicate RealRecords(calls: seq<Call>) {
    forall c :: c in calls && (c.Add? || c.Del?) ==> c.rec != 0
  }

  /** struct loop_data, for callbacks that do not pend: one call of loop(). */
  class Scheduler {
    const funcs: Slots
    const timers: Slots
    var timer: map<nat, Timer>
    var disabled: set<nat>
    var env: Env
    var check: Kind
    var idx: nat
    var vblank: bool
    var frame: nat
    var exit: int

    // The API calls each coming callback will make. Callbacks beyond the list make none.
    var callbacks: seq<seq<Call>>

    // Where loop() is: the pass it is in and the record whose callback it is running.
    ghost var phase: Phase
    ghost var run: nat
    ghost var seen: seq<Visit>
    ghost var added: seq<nat>

    ghost const start: Loop
    ghost var trace: seq<Action>

    ghost function View(): Loop
      reads this, funcs, timers, funcs.slots, timers.slots
      requires funcs.Valid() && timers.Valid()
    {
      Loop(funcs.View(), timers.View(), timer, disabled, idx, check, 0, -1, exit,
           [Level(env, phase, run, 0, 0, -1)], seen, added)
    }

    ghost predicate Separate()
      reads this
    {
      funcs != timers && funcs.slots != timers.slots
    }

    ghost predicate Valid()
      reads this, funcs, timers, funcs.slots, timers.slots
    {
      && Separate() && funcs.Valid() && timers.Valid()
      && CanRun(start, trace)
      && View() == Run(start, trace)
      && View().Valid()
    }

    /** One slot of each array stays free whatever the coming callbacks add. */
    ghost predicate Roomy(calls: seq<Call>)
      reads this, funcs, timers
    {
      && funcs.len + Adds(calls, Funcs) + AllAdds(callbacks, Funcs) < funcs.slots.Length
      && timers.len + Adds(calls, Timers) + AllAdds(callbacks, Timers) < timers.slots.Length
      && RealRecords(calls) && forall calls' :: calls' in callbacks ==> RealRecords(calls')
    }

    constructor (funcs: Slots, timers: Slots, callbacks: seq<seq<Call>>)
      requires funcs.Valid() && timers.Valid() && funcs != timers && funcs.slots != timers.slots
      ensures Valid() && this.funcs == funcs && this.timers == timers && this.callbacks == callbacks
      ensures trace == [] && phase == AtTop && run == 0 && idx == 0 && check == Funcs && exit == 0
    {
      this.funcs, this.timers, this.callbacks := funcs, timers, callbacks;
      timer, disabled, env, check, idx, vblank, frame, exit := map[], {}, NO_ENV, Funcs, 0, false, 0, 0;
      phase, run, seen, added, trace := AtTop, 0, [], [], [];
      start := Loop(funcs.View(), timers.View(), map[], {}, 0, Funcs, 0, -1, 0, [NewLevel()], [], []);
    }

    /** The state is the one the step leads to from `before`. */
    ghost predicate Stepped(before: Loop, act: Action)
      reads this, funcs, timers, funcs.slots, timers.slots
      requires funcs.Valid() && timers.Valid()
    {
      CanStep(before, act) && View() == Step(before, act)
    }

    ghost method Record(before: Loop, act: Action)
      requires Separate() && funcs.Valid() && timers.Valid()
      requires CanRun(start, trace) && before == Run(start, trace)
      requires CanStep(before, act) && View() == Step(before, act) && View().Valid()
      modifies this`trace
      ensures Valid() && trace == old(trace) + [act] && View() == Step(before, act)
    {
      hide Step, CanStep;
      RunOneMore(start, trace, act);
      trace := trace + [act];
    }

    /** frame_update; `now` is the vertical blanking flag. */
    method FrameUpdate(now: bool) returns (edge: bool)
      requires Valid() && Roomy([])
      modifies this`vblank, this`frame
      ensures Valid() && Roomy([]) && View() == old(View())
      ensures edge <==> !old(vblank) && now
      ensures vblank == now && frame == (if edge then (old(frame) + 1) % 0x10000 else old(frame))
    {
      edge := false;
      if !vblank && now {
        edge := true;
        frame := (frame + 1) % 0x10000;
      }
      vblank := now;
    }

    // ------------------------------------------------------------------- API

    method AddRecord(k: Kind, r: nat)
      requires Valid() && run != 0 && r != 0
      modifies this, funcs, timers, funcs.slots, timers.slots
      ensures Valid() && trace == old(trace) + [Api(Add(k, r))] && Stepped(old(View()), Api(Add(k, r)))
      ensures unchanged(this`callbacks)
      ensures funcs.len <= old(funcs.len) + (if k == Funcs then 1 else 0)
      ensures timers.len <= old(timers.len) + (if k == Timers then 1 else 0)
    {
      ghost var before := View();
      AddStep(before, k, r);
      hide Step, CanStep, CanRun, Run, Table.Add, Table.Added;
      if phase == InPass(k) {
        added := added + before.Tab(k).Added(r);
      }
      if k == Funcs {
        var _ := funcs.Add(r);
      } else {
        var _ := timers.Add(r);
      }
      Record(before, Api(Add(k, r)));
    }

    method DelRecord(k: Kind, r: nat)
      requires Valid() && run != 0 && r != 0
      requires (if k == Funcs then funcs else timers).len < (if k == Funcs then funcs else timers).slots.Length
      modifies this`trace, funcs`toDelete, timers`toDelete
      ensures Valid() && trace == old(trace) + [Api(Del(k, r))] && Stepped(old(View()), Api(Del(k, r)))
    {
      ghost var before := View();
      if k == Funcs {
        var _ := funcs.Del(r);
      } else {
        var _ := timers.Del(r);
      }
      Record(before, Api(Del(k, r)));
    }

    /** loop_func_disable and _enable, loop_timer_start and _stop, auto_reload, loop_end */
    method SetField(c: Call)
      requires Valid() && run != 0 && !c.Add? && !c.Del?
      modifies this`trace, this`timer, this`disabled, this`exit
      ensures Valid() && trace == old(trace) + [Api(c)] && Stepped(old(View()), Api(c))
      ensures match c
              case SetDisabled(r, on) => disabled == if on then old(disabled) + {r} else old(disabled) - {r}
              case StartTimer(r, frames) => timer == old(timer)[r := Timer(frames % 0x10000, 0, old(TimerOf(r)).autoReload)]
              case StopTimer(r) => timer == old(timer)[r := Timer(0, old(TimerOf(r)).count, old(TimerOf(r)).autoReload)]
              case SetReload(r, on) => timer == old(timer)[r := Timer(old(TimerOf(r)).frames, old(TimerOf(r)).count, on)]
              case EndLoop(v) => exit == v
              case _ => true
      ensures !c.SetDisabled? ==> disabled == old(disabled)
      ensures !c.StartTimer? && !c.StopTimer? && !c.SetReload? ==> timer == old(timer)
      ensures !c.EndLoop? ==> exit == old(exit)
    {
      ghost var before := View();
      match c {
        case SetDisabled(r, on) => disabled := if on then disabled + {r} else disabled - {r};
        case StartTimer(r, frames) => timer := timer[r := TimerOf(r).(frames := frames % 0x10000, count := 0)];
        case StopTimer(r) => timer := timer[r := TimerOf(r).(frames := 0)];
        case SetReload(r, on) => timer := timer[r := TimerOf(r).(autoReload := on)];
        case EndLoop(v) => exit := v;
      }
      Record(before, Api(c));
    }

    function TimerOf(r: nat): Timer
      reads this`timer
    {
      if r in timer then timer[r] else Timer(0, 0, false)
    }

    method DoCall(c: Call, ghost rest: seq<Call>)
      requires Valid() && run != 0 && Roomy([c] + rest)
      modifies this, funcs, timers, funcs.slots, timers.slots
      ensures Valid() && Roomy(rest) && callbacks == old(callbacks)
      ensures trace == old(trace) + [Api(c)] && Stepped(old(View()), Api(c))
    {
      hide Valid, Stepped;
      assert ([c] + rest)[1..] == rest;
      assert c in [c] + rest && forall d :: d in rest ==> d in [c] + rest;
      match c {
        case Add(k, r) => AddRecord(k, r);
        case Del(k, r) => DelRecord(k, r);
        case _ => SetField(c);
      }
    }

    /** A pass over table k is going on that found `begun`, and a slot stays free. */
    ghost predicate Going(k: Kind, begun: seq<nat>, calls: seq<Call>)
      reads this, funcs, timers, funcs.slots, timers.slots
    {
      Valid() && Roomy(calls) && Passing(View(), k, begun)
    }

    method CallInPass(c: Call, ghost rest: seq<Call>, ghost k: Kind, ghost begun: seq<nat>)
      requires Going(k, begun, [c] + rest) && run != 0
      modifies this, funcs, timers, funcs.slots, timers.slots
      ensures Going(k, begun, rest) && run == old(run) && callbacks == old(callbacks)
      ensures trace == old(trace) + [Api(c)]
      ensures Potential(View(), k) <= old(Potential(View(), k))
    {
      hide Roomy, Passing, Potential;
      ghost var before := View();
      DoCall(c, rest);
      StepKeepsPassing(before, k, begun, Api(c));
      StepLowersPotential(before, k, begun, Api(c));
      assert run == old(run) by { ApiKeepsRun(before, c); }
    }

    /** The callback returns into its pass, which clears the pended record. */
    method Leave(k: Kind, ghost begun: seq<nat>)
      requires Going(k, begun, []) && run != 0
      modifies this`env, this`run, this`trace
      ensures Going(k, begun, []) && run == 0 && trace == old(trace) + [Return]
      ensures Potential(View(), k) <= old(Potential(View(), k))
    {
      ghost var before := View();
      StepKeepsPassing(before, k, begun, Return);
      StepLowersPotential(before, k, begun, Return);
      env := if k == Timers then env.(t := 0) else env.(f := 0);
      run := 0;
      Record(before, Return);
    }

    /** f->func_cb(f), t->timer_cb(t): the calls the callback makes, and its return. */
    method RunCallback(k: Kind, ghost begun: seq<nat>)
      requires Going(k, begun, []) && run != 0
      modifies this, funcs, timers, funcs.slots, timers.slots
      ensures Going(k, begun, []) && run == 0 && callbacks == Behind(old(callbacks))
      ensures trace == old(trace) + Made(old(callbacks)) + [Return]
      ensures Potential(View(), k) <= old(Potential(View(), k))
    {
      hide Roomy, Potential, Passing, Made, Behind, View, CanRun, Run;
      ghost var made := Made(callbacks);
      MadeCalls(callbacks);
      var calls := TakeCallback(k, begun);
      assert calls[0..] == calls && trace + made[..0] == trace;
      for i := 0 to |calls|
        invariant Going(k, begun, calls[i..]) && run != 0 && Potential(View(), k) <= old(Potential(View(), k))
        invariant callbacks == Behind(old(callbacks)) && trace == old(trace) + made[..i]
      {
        assert calls[i..] == [calls[i]] + calls[i + 1..];
        assert made[..i + 1] == made[..i] + [made[i]];
        CallInPass(calls[i], calls[i + 1..], k, begun);
      }
      assert calls[|calls|..] == [] && made[..|calls|] == made;
      Leave(k, begun);
    }

    /** What the next callback does. */
    method TakeCallback(ghost k: Kind, ghost begun: seq<nat>) returns (calls: seq<Call>)
      requires Going(k, begun, [])
      modifies this`callbacks
      ensures Going(k, begun, calls) && callbacks == Behind(old(callbacks)) && View() == old(View())
      ensures calls == if old(callbacks) == [] then [] else old(callbacks)[0]
    {
      calls := [];
      if callbacks != [] {
        calls := callbacks[0];
        callbacks := callbacks[1..];
        assert calls in old(callbacks);
      }
    }

    /** update_timer up to the callback: whether it is due. */
    method Tick(t: nat) returns (due: bool)
      modifies this`timer
      ensures (due, timer) ==
              if old(TimerOf(t)).frames != 0 && t !in timers.blocked
              then (old(TimerOf(t)).Tick().0, old(timer)[t := old(TimerOf(t)).Tick().1])
              else (false, old(timer))
    {
      var x := TimerOf(t);
      due := false;
      if x.frames != 0 && t !in timers.blocked {
        x := x.(count := (x.count + 1) % 0x10000);
        if x.count >= x.frames {
          if x.autoReload {
            x := x.(count := 0);
          } else {
            x := x.(frames := 0);
          }
          due := true;
        }
        timer := timer[t := x];
      }
    }

    ghost function TableOf(k: Kind): Slots {
      if k == Funcs then funcs else timers
    }

    /** A marked entry is met: the mark is cleared and the entries behind are shifted. */
    method RemoveHere(ghost k: Kind, tab: Slots)
      requires Valid() && run == 0 && phase == InPass(k) && tab == TableOf(k)
      requires idx < tab.len < tab.slots.Length && tab.slots[idx] in tab.toDelete
      modifies this`seen, this`trace, tab`toDelete, tab`len, tab.slots
      ensures Valid() && Stepped(old(View()), Next) && tab.len == old(tab.len) - 1 && trace == old(trace) + [Next]
    {
      ghost var before := View();
      var r := tab.slots[idx];
      tab.toDelete := tab.toDelete - {r};
      tab.DeleteAt(idx);
      seen := seen + [Visit(r, true)];
      Record(before, Next);
    }

    /** Any other entry: the index moves on, and the entry is to run if it is ready. */
    method PassHere(k: Kind, tab: Slots) returns (ready: bool)
      requires Valid() && run == 0 && phase == InPass(k) && tab == TableOf(k)
      requires idx < tab.len && tab.slots[idx] !in tab.toDelete
      modifies this`idx, this`timer, this`run, this`seen, this`trace
      ensures Valid() && Stepped(old(View()), Next) && (ready <==> run != 0) && trace == old(trace) + [Next]
    {
      ghost var before := View();
      var r := tab.slots[idx];
      idx := idx + 1;
      if k == Funcs {
        ready := r !in disabled && r !in funcs.blocked;
      } else {
        ready := Tick(r);
      }
      if ready {
        run := r;
      }
      seen := seen + [Visit(r, false)];
      Record(before, Next);
    }

    /** One iteration of the loop in run_funcs or check_timers. */
    method VisitHere(k: Kind, tab: Slots, ghost begun: seq<nat>)
      requires Going(k, begun, []) && run == 0 && tab == TableOf(k) && idx < tab.len
      modifies this, funcs, timers, funcs.slots, timers.slots
      ensures Going(k, begun, []) && run == 0
      ensures CanStep(old(View()), Next) && Visited(old(View()), old(callbacks), old(trace), callbacks, trace)
      ensures Potential(View(), k) < old(Potential(View(), k))
    {
      hide PassedOver, Potential, CanRun, Run;
      ghost var before := View();
      assert CanStep(before, Next);
      NextKeepsPassing(before, k, begun);
      NextLowersPotential(before, k);
      if tab.slots[idx] in tab.toDelete {
        RemoveHere(k, tab);
        assert Stepped(before, Next);
      } else {
        var ready := PassHere(k, tab);
        if ready {
          RunCallback(k, begun);
        }
      }
    }

    /** run_funcs and check_timers. Each entry the pass found, and then each that callbacks
        appended meanwhile, has been visited once, in order; the array is left with exactly
        those that were not removed, in order, without a gap. */
    method RunPass(k: Kind, tab: Slots, ghost begun: seq<nat>)
      requires Going(k, begun, []) && run == 0 && tab == TableOf(k)
      modifies this, funcs, timers, funcs.slots, timers.slots
      ensures Valid() && Roomy([]) && run == 0 && phase == InPass(k)
      ensures idx == tab.len
      ensures Records(seen) == begun + added && tab.View().list == Kept(seen)
    {
      hide Potential, Stepped, CanRun, Run, Records, Kept;
      while idx < tab.slots.Length && tab.slots[idx] != 0
        invariant Going(k, begun, []) && run == 0
        decreases Potential(View(), k)
      {
        PotentialBounds(View(), k, begun);
        VisitHere(k, tab, begun);
      }
      assert tab.View().list[idx..] == [] && tab.View().list[..idx] == tab.View().list;
    }

    lemma ValidTables()
      requires Valid()
      ensures funcs.Valid() && timers.Valid()
    {
    }

    /** One turn of the while in loop(); `now` is the vertical blanking flag, if it is read. */
    method Turn(now: bool)
      requires Valid() && Roomy([]) && phase == AtTop && run == 0 && idx == 0 && exit == 0
      modifies this, funcs, timers, funcs.slots, timers.slots
      ensures Valid() && Roomy([]) && phase == AtTop && run == 0 && idx == 0
      ensures funcs.Valid() && timers.Valid()
      ensures var k := if old(check) == Timers || (!old(vblank) && now) then Timers else Funcs;
              && Records(seen) == old(TableOf(k).View().list) + added
              && TableOf(k).View().list == Kept(seen)
    {
      hide Valid, Roomy, Going, Records, Kept;
      var edge := false;
      if check != Timers {
        edge := FrameUpdate(now);
      }
      var k := if check == Timers || edge then Timers else Funcs;
      assert funcs.Valid() && timers.Valid() by { ValidTables(); }
      ghost var begun := TableOf(k).View().list;
      Begin(k, edge);
      RunPass(k, if k == Funcs then funcs else timers, begun);
      End(k);
      ValidTables();
    }

    method Begin(k: Kind, ghost edge: bool)
      requires Valid() && Roomy([]) && phase == AtTop && run == 0 && idx == 0 && exit == 0
      requires k == if check == Timers || edge then Timers else Funcs
      modifies this`check, this`phase, this`seen, this`added, this`trace
      ensures funcs.Valid() && timers.Valid() && Going(k, TableOf(k).View().list, []) && check == k
    {
      ghost var before := View();
      check := k;
      phase, seen, added := InPass(k), [], [];
      Record(before, Enter(edge));
    }

    method End(k: Kind)
      requires Valid() && Roomy([]) && phase == InPass(k) && run == 0 && idx == TableOf(k).len
      modifies this`check, this`phase, this`idx, this`trace
      ensures Valid() && Roomy([]) && phase == AtTop && idx == 0
      ensures check == if k == Timers then Funcs else old(check)
    {
      ghost var before := View();
      idx := 0;
      if k == Timers {
        check := Funcs;
      }
      phase := AtTop;
      Record(before, EndPass);
    }
  }

  lemma ApiKeepsRun(s: Loop, c: Call)
    requires CanStep(s, Api(c))
    ensures Step(s, Api(c)).levels == s.levels
  {
  }
}
