/** The waits of megawifi.c that poll from an auto-reload timer: mw_ap_assoc_wait and
    mw_sock_conn_wait, when no reply ends them. */
module Polling {
  import opened LoopMachine

  /** MW_STAT_POLL_TOUT: 250 ms at 60 frames a second, rounded. */
  const POLL := (250 * 60 / 500 + 1) / 2

  /** An int assigned to d.tout_frames, which has 16 bits. */
  function Int16(v: int): (r: int)
    ensures -0x8000 <= r < 0x8000 && (-0x8000 <= v < 0x8000 ==> r == v)
  {
    (v + 0x8000) % 0x10000 - 0x8000
  }

  /** d.timer, d.tout_frames, whether loop_post(-1) has been called, and how many polls went out. */
  datatype Wait = Wait(timer: Timer, tout: int, failed: bool, polls: nat)

  /** The start of either wait. */
  function Start(toutFrames: int): Wait {
    Wait(Timer(POLL, 0, true), Int16(toutFrames), false, 0)
  }

  /** assoc_poll_timer_cb, sock_poll_timer_cb */
  function Poll(w: Wait): Wait {
    if w.tout == 0 then w.(polls := w.polls + 1)
    else
      var left := Int16(w.tout - POLL);
      if left <= 0 then w.(tout := left, timer := w.timer.(frames := 0), failed := true)
      else w.(tout := left, polls := w.polls + 1)
  }

  /** update_timer, once a frame. */
  function Update(w: Wait): Wait {
    if w.timer.frames == 0 then w
    else
      var (due, timer) := w.timer.Tick();
      if due then Poll(w.(timer := timer)) else w.(timer := timer)
  }

  function Updates(w: Wait, n: nat): Wait {
    if n == 0 then w else Update(Updates(w, n - 1))
  }

  /** The updates it takes to give up: a whole number of polls, rounded up. */
  function GiveUp(t: nat): nat {
    (t + 14) / 15 * 15
  }

  /** From one update to the next, in whole polls and updates since the last. */
  lemma OneMore(n: nat)
    requires n > 0
    ensures n % 15 == 0 ==> n / 15 == (n - 1) / 15 + 1 && (n - 1) % 15 == 14
    ensures n % 15 != 0 ==> n / 15 == (n - 1) / 15 && n % 15 == (n - 1) % 15 + 1
  {
  }

  lemma BeforeGiveUp(t: nat, n: nat)
    requires t >= 1
    ensures n < GiveUp(t) <==> n / 15 * 15 < t
  {
  }

  /** One update of a wait that has not ended. */
  lemma WaitStep(w: Wait)
    requires w.timer.frames == 15 && w.timer.autoReload && w.timer.count < 15
    ensures w.timer.count < 14 ==> Update(w) == w.(timer := Timer(15, w.timer.count + 1, true))
    ensures w.timer.count == 14 ==>
              var left := Int16(w.tout - 15);
              Update(w) ==
              if w.tout == 0 then w.(timer := Timer(15, 0, true), polls := w.polls + 1)
              else if left <= 0 then w.(timer := Timer(0, 0, true), tout := left, failed := true)
              else w.(timer := Timer(15, 0, true), tout := left, polls := w.polls + 1)
  {
  }

  /** How many polls the 16 bits of the limit last for: a limit just above 0x7FFF is negative but
      wraps to what it should be with the first poll, a larger one is used up at once. */
  function Limit(kept: nat): nat {
    if kept <= 32782 then GiveUp(kept) else 15
  }

  lemma {:induction false} Waiting(kept: nat, n: nat)
    requires 1 <= kept < 0x10000 && n < Limit(kept)
    ensures Updates(Start(kept), n) == Wait(Timer(15, n % 15, true), Int16(kept - n / 15 * 15), false, n / 15)
    ensures n / 15 * 15 < kept
  {
    hide GiveUp, Updates;
    BeforeGiveUp(kept, n);
    if n == 0 {
      NoUpdates(Start(kept));
    } else {
      BeforeGiveUp(kept, n - 1);
      OneMore(n);
      Waiting(kept, n - 1);
      OneMoreUpdate(Start(kept), n);
      WaitStep(Updates(Start(kept), n - 1));
    }
  }

  lemma NoUpdates(w: Wait)
    ensures Updates(w, 0) == w
  {
  }

  lemma OneMoreUpdate(w: Wait, n: nat)
    requires n > 0
    ensures Updates(w, n) == Update(Updates(w, n - 1))
  {
  }

  lemma LimitIsWhole(kept: nat)
    requires 1 <= kept
    ensures Limit(kept) >= 15 && Limit(kept) % 15 == 0
    ensures if kept <= 32782 then (Limit(kept) - 1) / 15 * 15 + 15 >= kept else Limit(kept) == 15
  {
  }

  lemma {:induction false} GivenUp(kept: nat, n: nat)
    requires 1 <= kept < 0x10000 && n >= Limit(kept)
    ensures Updates(Start(kept), n).failed && Updates(Start(kept), n).timer.frames == 0
  {
    hide Limit, Start, Updates;
    LimitIsWhole(kept);
    OneMoreUpdate(Start(kept), n);
    if n == Limit(kept) {
      Waiting(kept, n - 1);
      OneMore(n);
      WaitStep(Updates(Start(kept), n - 1));
      UsedUp(kept, (n - 1) / 15 * 15);
    } else {
      GivenUp(kept, n - 1);
    }
  }

  /** The last poll finds the limit used up, or the second one below zero. */
  lemma UsedUp(kept: nat, past: nat)
    requires 1 <= kept < 0x10000 && past < kept
    requires if kept <= 32782 then kept <= past + 15 else past == 0
    ensures Int16(kept - past) != 0 && Int16(Int16(kept - past) - 15) <= 0
  {
  }

  lemma LowBitsCount(t: int)
    ensures Start(t) == Start(t % 0x10000)
  {
    assert (t + 0x8000) % 0x10000 == (t % 0x10000 + 0x8000) % 0x10000;
  }

  /** When exactly the wait fails, for every limit: only the low 16 bits of it count; with 0
      there it never does. */
  lemma FailsExactlyAt(t: int, n: nat)
    ensures var kept := t % 0x10000;
            Updates(Start(t), n).failed <==> kept != 0 && n >= Limit(kept)
  {
    hide Limit, Start, Updates;
    var kept := t % 0x10000;
    LowBitsCount(t);
    if kept == 0 {
      ZeroNeverFails(n);
    } else if n < Limit(kept) {
      Waiting(kept, n);
    } else {
      GivenUp(kept, n);
    }
  }

  /** A wait with a limit of T frames ends on time: at the first poll at which T frames are over
      and at no earlier update. */
  ghost predicate OnTime(t: nat) {
    forall n: nat :: Updates(Start(t), n).failed <==> n >= GiveUp(t)
  }

  /** It does so exactly for limits up to 32782; longer ones fail too soon or never. */
  lemma OnTimeIff(t: nat)
    requires t >= 1
    ensures OnTime(t) <==> t <= 32782
    ensures t <= GiveUp(t) < t + 15
  {
    hide Updates, Start;
    var kept := t % 0x10000;
    if t <= 32782 {
      forall n: nat
        ensures Updates(Start(t), n).failed <==> n >= GiveUp(t)
      {
        FailsExactlyAt(t, n);
      }
    } else {
      var n := if kept == 0 then GiveUp(t) else Limit(kept);
      FailsExactlyAt(t, n);
      assert kept != 0 ==> n < GiveUp(t);
    }
  }

  /** With a limit of 0 it polls every 15 updates for ever. */
  lemma {:induction false} ZeroNeverFails(n: nat)
    ensures Updates(Start(0), n) == Wait(Timer(15, n % 15, true), 0, false, n / 15)
  {
    if n > 0 {
      ZeroNeverFails(n - 1);
      OneMore(n);
      WaitStep(Updates(Start(0), n - 1));
    }
  }

  /** The module data the callbacks change. */
  class Poller {
    var frames: nat
    var count: nat
    var autoReload: bool
    var tout: int
    var failed: bool
    var polls: nat

    function View(): Wait
      reads this
    {
      Wait(Timer(frames, count, autoReload), tout, failed, polls)
    }

    constructor (toutFrames: int)
      ensures View() == Start(toutFrames)
    {
      tout := Int16(toutFrames);
      autoReload := true;
      frames, count := POLL, 0;
      failed, polls := false, 0;
    }

    method TimerCallback()
      modifies this
      ensures View() == Poll(old(View()))
    {
      if tout != 0 {
        tout := Int16(tout - POLL);
        if tout <= 0 {
          frames := 0;
          failed := true;
          return;
        }
      }
      polls := polls + 1;
    }

    method UpdateTimer()
      modifies this
      ensures View() == Update(old(View()))
    {
      if frames != 0 {
        count := (count + 1) % 0x10000;
        if count >= frames {
          if autoReload {
            count := 0;
          } else {
            frames := 0;
          }
          TimerCallback();
        }
      }
    }
  }
}
