/** The cooperative scheduler of loop.c as a machine: passes over the two callback tables,
    callbacks that call its API, and loop_pend/loop_post with their nested loops. */
module LoopMachine {

  /** Which table: also the two values of d->check. */
  datatype Kind = Funcs | Timers

  /** One table of callback records. `list` is the array up to its first NULL and `max` the
      number of slots; the flags live in the records. A record is a non-zero number. */
  datatype Table = Table(list: seq<nat>, max: nat, toDelete: set<nat>, blocked: set<nat>) {
    predicate Valid() {
      |list| <= max && 0 !in list
    }

    /** What the array holds at slot i. */
    function At(i: int): nat {
      if 0 <= i < |list| then list[i] else 0
    }

    /** loop_func_add, loop_timer_add: a record waiting to be deleted just loses the mark. */
    function Add(r: nat): Table {
      if r in list && r in toDelete then this.(toDelete := toDelete - {r})
      else if |list| == max then this
      else this.(list := list + [r])
    }

    function Added(r: nat): seq<nat> {
      if (r in list && r in toDelete) || |list| == max then [] else [r]
    }

    /** loop_func_del, loop_timer_del: deletion is only marked. */
    function Del(r: nat): Table {
      if r in list then this.(toDelete := toDelete + {r}) else this
    }

    /** delete_func, delete_timer: the entries behind are shifted down. */
    function RemoveAt(i: nat): Table
      requires i < |list|
    {
      this.(list := list[..i] + list[i + 1..], toDelete := toDelete - {list[i]})
    }
  }

  datatype Timer = Timer(frames: nat, count: nat, autoReload: bool) {
    /** update_timer, for a timer that is running: whether the callback is due, and the timer
        as the callback finds it. */
    function Tick(): (bool, Timer) {
      var c := (count + 1) % 0x10000;
      if c < frames then (false, this.(count := c))
      else if autoReload then (true, this.(count := 0))
      else (true, this.(count := c, frames := 0))
    }
  }

  /** struct pend_env: the record a loop has pended, 0 for NULL. */
  datatype Env = Env(f: nat, t: nat)

  datatype Phase = AtTop | InPass(kind: Kind)

  /** One call of loop() on the C stack, with the callback it is running if any, and what
      jmp_set holds in its locals while that callback is pended. */
  datatype Level = Level(env: Env, phase: Phase, run: nat, ret: int, prevEnv: int, prevJmp: int)

  /** An entry a pass has dealt with: removed, or passed over (and run, if it is ready). */
  datatype Visit = Visit(rec: nat, removed: bool)

  datatype Loop = Loop(
    funcs: Table,
    timers: Table,
    timer: map<nat, Timer>,
    disabled: set<nat>,
    idx: nat,
    check: Kind,
    env: int,              // d->env: the level whose env it points to
    jmp: int,              // d->jmp: the level whose jmp_set holds the buffer, -1 for NULL
    exit: int,
    levels: seq<Level>,    // innermost last
    seen: seq<Visit>,      // history of the pass last entered
    added: seq<nat>)       // entries appended to its table since
  {
    predicate Valid() {
      && funcs.Valid() && timers.Valid()
      && |levels| >= 1
      && 0 <= env < |levels|
      && -1 <= jmp < |levels| - 1
      && (forall i :: 0 <= i < |levels| - 1 ==> 0 <= levels[i].prevEnv <= i && -1 <= levels[i].prevJmp < i)
    }

    function Top(): Level
      requires |levels| >= 1
    {
      levels[|levels| - 1]
    }

    function WithTop(l: Level): Loop
      requires |levels| >= 1
    {
      this.(levels := levels[|levels| - 1 := l])
    }

    function Tab(k: Kind): Table {
      if k.Funcs? then funcs else timers
    }

    function WithTab(k: Kind, t: Table): Loop {
      if k.Funcs? then this.(funcs := t) else this.(timers := t)
    }

    function TimerOf(r: nat): Timer {
      if r in timer then timer[r] else Timer(0, 0, false)
    }
  }

  const NO_ENV := Env(0, 0)

  datatype Call =
    | Add(kind: Kind, rec: nat)
    | Del(kind: Kind, rec: nat)
    | SetDisabled(rec: nat, on: bool)
    | StartTimer(rec: nat, frames: int)  // kept in 16 bits
    | StopTimer(rec: nat)
    | SetReload(rec: nat, on: bool)
    | EndLoop(value: int)

  datatype Action =
    | Enter(edge: bool)  // top of the while; `edge` is what frame_update answers if asked
    | Next               // one iteration of run_funcs or check_timers
    | EndPass
    | Api(call: Call)
    | Return             // the callback returns
    | Pend
    | Post(value: int)
    | Leave              // a nested loop() returns because of loop_end

  /** A new call of loop(). */
  function NewLevel(): Level {
    Level(NO_ENV, AtTop, 0, 0, 0, -1)
  }

  /** Is the record at the front of the pass ready to run? Returns the timers after looking. */
  function Ready(s: Loop, k: Kind, r: nat): (bool, map<nat, Timer>) {
    match k
    case Funcs => (r !in s.disabled && r !in s.funcs.blocked, s.timer)
    case Timers =>
      if s.TimerOf(r).frames != 0 && r !in s.timers.blocked
      then (s.TimerOf(r).Tick().0, s.timer[r := s.TimerOf(r).Tick().1])
      else (false, s.timer)
  }

  function StepNext(s: Loop, k: Kind): Loop
    requires s.Valid() && s.idx < |s.Tab(k).list|
  {
    var r := s.Tab(k).list[s.idx];
    if r in s.Tab(k).toDelete then
      s.WithTab(k, s.Tab(k).RemoveAt(s.idx)).(seen := s.seen + [Visit(r, true)])
    else
      var (ready, timer) := Ready(s, k, r);
      var s' := s.(idx := s.idx + 1, timer := timer, seen := s.seen + [Visit(r, false)]);
      if ready then s'.WithTop(s.Top().(run := r)) else s'
  }

  function StepApi(s: Loop, c: Call): Loop
    requires s.Valid()
  {
    match c
    case Add(k, r) =>
      var s' := s.WithTab(k, s.Tab(k).Add(r));
      if s.Top().phase == InPass(k) then s'.(added := s.added + s.Tab(k).Added(r)) else s'
    case Del(k, r) => s.WithTab(k, s.Tab(k).Del(r))
    case SetDisabled(r, on) => s.(disabled := if on then s.disabled + {r} else s.disabled - {r})
    case StartTimer(r, frames) => s.(timer := s.timer[r := s.TimerOf(r).(frames := frames % 0x10000, count := 0)])
    case StopTimer(r) => s.(timer := s.timer[r := s.TimerOf(r).(frames := 0)])
    case SetReload(r, on) => s.(timer := s.timer[r := s.TimerOf(r).(autoReload := on)])
    case EndLoop(v) => s.(exit := v)
  }

  /** The env d->env points to, after the first part of loop_pend: if it names no record yet, it
      takes the one before d->idx in the table d->check names. */
  function PendEnv(s: Loop): Env
    requires s.Valid()
  {
    var e := s.levels[s.env].env;
    if e != NO_ENV then e
    else if s.check.Funcs? then e.(f := s.funcs.At(s.idx - 1))
    else e.(t := s.timers.At(s.idx - 1))
  }

  function Block(s: Loop, e: Env): Loop {
    if e.f != 0 then s.(funcs := s.funcs.(blocked := s.funcs.blocked + {e.f}))
    else s.(timers := s.timers.(blocked := s.timers.blocked + {e.t}))
  }

  function Unblock(s: Loop, e: Env): Loop {
    if e.f != 0 then s.(funcs := s.funcs.(blocked := s.funcs.blocked - {e.f}))
    else s.(timers := s.timers.(blocked := s.timers.blocked - {e.t}))
  }

  /** loop_pend: jmp_set saves d->env and d->jmp, plants a buffer, and calls loop(). */
  function StepPend(s: Loop): Loop
    requires s.Valid()
  {
    var e := PendEnv(s);
    var s1 := s.(levels := s.levels[s.env := s.levels[s.env].(env := e)]);
    if e == NO_ENV then s1.WithTop(s1.Top().(ret := 0))
    else
      var n := |s.levels|;
      var s2 := Block(s1, e).WithTop(s1.Top().(prevEnv := s.env, prevJmp := s.jmp));
      s2.(levels := s2.levels + [NewLevel()], env := n, jmp := n - 1)
  }

  /** Back in jmp_set at level j with the given value: the saved pointers are restored, and
      loop_pend unblocks the record its env names. */
  function Resume(s: Loop, j: nat, value: int): Loop
    requires s.Valid() && j < |s.levels| - 1
  {
    var l := s.levels[j];
    var s' := s.(levels := s.levels[..j] + [l.(ret := value)], env := l.prevEnv, jmp := l.prevJmp);
    Unblock(s', s'.levels[s'.env].env)
  }

  /** Whether memory allows the step: deletion shifts up to the first NULL, so one slot must be
      free, and so it must for a search that fails; loop_post jumps through d->jmp. */
  predicate CanStep(s: Loop, act: Action) {
    s.Valid() &&
    var l := s.Top();
    match act
    case Enter(_) => l.run == 0 && l.phase == AtTop && s.exit == 0
    case Next =>
      l.run == 0 && l.phase.InPass? &&
      var t := s.Tab(l.phase.kind);
      s.idx < |t.list| && (t.list[s.idx] in t.toDelete ==> |t.list| < t.max)
    case EndPass => l.run == 0 && l.phase.InPass? && s.idx >= |s.Tab(l.phase.kind).list|
    case Api(c) =>
      l.run != 0 && (c.Add? || c.Del? ==> c.rec != 0) &&
      (c.Del? ==> c.rec in s.Tab(c.kind).list || |s.Tab(c.kind).list| < s.Tab(c.kind).max)
    case Return => l.run != 0
    case Pend => l.run != 0 && (s.levels[s.env].env == NO_ENV ==> 1 <= s.idx <= s.Tab(s.check).max)
    case Post(_) => l.run != 0 && s.jmp >= 0
    case Leave => l.run == 0 && l.phase == AtTop && s.exit != 0 && |s.levels| >= 2
  }

  function Step(s: Loop, act: Action): (r: Loop)
    requires CanStep(s, act)
  {
    var l := s.Top();
    match act
    case Enter(edge) =>
      var k := if s.check.Timers? || edge then Timers else Funcs;
      s.WithTop(l.(phase := InPass(k))).(check := k, seen := [], added := [])
    case Next => StepNext(s, l.phase.kind)
    case EndPass =>
      s.WithTop(l.(phase := AtTop)).(idx := 0, check := if l.phase.kind.Timers? then Funcs else s.check)
    case Api(c) => StepApi(s, c)
    case Return =>
      var e := s.levels[s.env].env;
      var e' := if l.phase == InPass(Timers) then e.(t := 0) else e.(f := 0);
      var s' := s.WithTop(l.(run := 0));
      s'.(levels := s'.levels[s.env := s'.levels[s.env].(env := e')])
    case Pend => StepPend(s)
    case Post(v) => Resume(s, s.jmp, if v == 0 then 1 else v)
    case Leave => Resume(s, |s.levels| - 2, 0)
  }

  predicate CanRun(s: Loop, acts: seq<Action>)
    decreases |acts|, 0
  {
    acts == [] ||
    (CanRun(s, acts[..|acts| - 1]) && CanStep(Run(s, acts[..|acts| - 1]), acts[|acts| - 1]))
  }

  function Run(s: Loop, acts: seq<Action>): Loop
    requires CanRun(s, acts)
    decreases |acts|, 1
  {
    if acts == [] then s else Step(Run(s, acts[..|acts| - 1]), acts[|acts| - 1])
  }

  lemma RunOneMore(s: Loop, acts: seq<Action>, act: Action)
    requires CanRun(s, acts) && CanStep(Run(s, acts), act)
    ensures CanRun(s, acts + [act]) && Run(s, acts + [act]) == Step(Run(s, acts), act)
  {
    assert (acts + [act])[..|acts|] == acts;
  }

  /** loop() just called from outside: records may already be in the tables, none is blocked. */
  predicate Initial(s: Loop) {
    && s.funcs.Valid() && s.timers.Valid()
    && s.funcs.blocked == {} && s.timers.blocked == {}
    && s.levels == [NewLevel()] && s.env == 0 && s.jmp == -1
    && s.idx == 0 && s.check == Funcs
  }
}
