/** mw_send_sync: a buffer of any length sent as a row of LSD frames, one at a time. */
module MwSend {
  import opened Bytes
  import opened LsdFrames
  import opened LsdMachine
  import opened LsdLink
  import opened LsdDriver
  import opened MwCall

  datatype MwErr = ErrNone | ErrSend | ErrRecv

  function Min(a: nat, b: nat): nat {
    if a < b then a else b
  }

  /** The frames `data` is cut into, `size` bytes each but the last. */
  function Chunks(ch: nat, data: seq<byte>, size: nat): seq<Frame>
    requires size > 0
    decreases |data|
  {
    if data == [] then []
    else
      var n := Min(|data|, size);
      [Frame(ch, data[..n])] + Chunks(ch, data[n..], size)
  }

  function Joined(fs: seq<Frame>): seq<byte> {
    if fs == [] then [] else fs[0].payload + Joined(fs[1..])
  }

  /** Every byte goes out once and in order, in ceil(len / size) frames, each of which lsd_send
      takes and none of which is empty. */
  lemma {:induction false} ChunksConserve(ch: nat, data: seq<byte>, size: nat)
    requires 1 <= size
    ensures Joined(Chunks(ch, data, size)) == data
    ensures |data| <= |Chunks(ch, data, size)| * size < |data| + size
    ensures ch < MAX_CH && Min(|data|, size) <= MAX_LEN ==> AllValid(Chunks(ch, data, size))
    ensures forall i :: 0 <= i < |Chunks(ch, data, size)| ==> Chunks(ch, data, size)[i].ch == ch
    decreases |data|
  {
    if data != [] {
      var n := Min(|data|, size);
      var rest := Chunks(ch, data[n..], size);
      ChunksConserve(ch, data[n..], size);
      assert data[..n] + data[n..] == data;
      assert (1 + |rest|) * size == size + |rest| * size;
    }
  }

  lemma FirstChunk(ch: nat, data: seq<byte>, sent: nat, size: nat)
    requires sent < |data| && size > 0
    ensures var n := Min(|data| - sent, size);
            Chunks(ch, data[sent..], size) == [Frame(ch, data[sent..][..n])] + Chunks(ch, data[sent + n..], size)
  {
    var n := Min(|data| - sent, size);
    assert data[sent..][n..] == data[sent + n..];
  }

  lemma NoChunk(ch: nat, data: seq<byte>, size: nat)
    requires data == [] && size > 0
    ensures Chunks(ch, data, size) == []
  {
  }

  /** End to end: whatever else happens on the link, once a sender that accepted the chunks of
      `data` after `before` is idle and its line is read, its peer has delivered `before` and
      then frames whose payloads join to exactly `data`. */
  lemma EndToEnd(now: System, s: Side, before: seq<Frame>, ch: nat, data: seq<byte>, size: nat)
    requires Reachable(now) && 1 <= size
    requires now.NodeOf(s).accepted == before + Chunks(ch, data, size)
    requires now.NodeOf(s).tx.stat == SendIdle && now.LineInto(s.Other()) == []
    ensures var got := Reassemble(now.NodeOf(s.Other()).log).0;
            && got.clean && got.partial == []
            && before <= got.frames
            && Joined(got.frames[|before|..]) == data
            && |data| <= |got.frames[|before|..]| * size < |data| + size
  {
    hide Reachable, Reassemble, Chunks;
    LinkSafety(now, s);
    ChunksConserve(ch, data, size);
    var fs := before + Chunks(ch, data, size);
    assert fs[|before|..] == Chunks(ch, data, size);
  }

  /** The peer of end s has been given `before` and then frames that join to exactly `data`. */
  predicate Carried(now: System, s: Side, before: seq<Frame>, data: seq<byte>) {
    var got := Reassemble(now.NodeOf(s.Other()).log).0;
    && got.clean && got.partial == []
    && before <= got.frames
    && Joined(got.frames[|before|..]) == data
  }

  /** That can be so, and is so as soon as everything accepted by now has gone through. */
  ghost predicate WillBeCarried(now: System, s: Side, before: seq<Frame>, data: seq<byte>) {
    && (exists later :: LeadsTo(now, later) && Carried(later, s, before, data))
    && forall later :: LeadsTo(now, later) && Quiet(now, later, s) ==> Carried(later, s, before, data)
  }

  predicate Quiet(now: System, later: System, s: Side) {
    && later.NodeOf(s).accepted == now.NodeOf(s).accepted
    && later.NodeOf(s).tx.stat == SendIdle && later.LineInto(s.Other()) == []
  }

  lemma AcceptedWillBeCarried(now: System, s: Side, before: seq<Frame>, ch: nat, data: seq<byte>, size: nat)
    requires Reachable(now) && 1 <= size
    requires now.NodeOf(s).accepted == before + Chunks(ch, data, size)
    ensures WillBeCarried(now, s, before, data)
  {
    hide Reachable, LeadsTo, Chunks, Reassemble;
    CanDeliverAll(now, s);
    var end :| LeadsTo(now, end) && AllDelivered(end, s) && end.NodeOf(s).accepted == now.NodeOf(s).accepted;
    ChunksConserve(ch, data, size);
    var fs := before + Chunks(ch, data, size);
    assert fs[|before|..] == Chunks(ch, data, size);
    assert Carried(end, s, before, data);
    forall later | LeadsTo(now, later) && Quiet(now, later, s)
      ensures Carried(later, s, before, data)
    {
      ReachableOn(now, later);
      EndToEnd(later, s, before, ch, data, size);
    }
  }

  /** What mw_send_sync does to the link: bytes move, and chunks are offered. */
  predicate OnlyChunks(was: seq<Action>, now: seq<Action>, ch: nat) {
    && was <= now
    && forall i :: |was| <= i < |now| ==>
         now[i].Transmit? || now[i].Receive? || (now[i].Send? && now[i].ch == ch && 1 <= now[i].len)
  }

  lemma OnlyChunksOn(a: seq<Action>, b: seq<Action>, c: seq<Action>, ch: nat)
    requires OnlyChunks(a, b, ch) && OnlyChunks(b, c, ch)
    ensures OnlyChunks(a, c, ch)
  {
  }

  lemma NoChunksYet(t: seq<Action>, ch: nat)
    ensures OnlyChunks(t, t, ch)
  {
  }

  lemma BytesAreChunks(a: seq<Action>, b: seq<Action>, c: seq<Action>, ch: nat)
    requires a <= b && OnlyChunks(a, b, ch) && OnlyBytes(b, c)
    ensures OnlyChunks(a, c, ch)
  {
  }

  lemma ChunksAreConsiderate(was: seq<Action>, now: seq<Action>, ch: nat, heard: set<nat>)
    requires OnlyChunks(was, now, ch) && ch in heard
    ensures AllConsiderate(now[|was|..], heard) && was + now[|was|..] == now
  {
  }

  function AfterOne(patience: seq<nat>): seq<nat> {
    if patience == [] then [] else patience[1..]
  }

  /** The timer of the next loop_pend ends it before lsd_process runs. */
  predicate NoTime(patience: seq<nat>) {
    patience == [] || patience[0] == 0
  }

  /** The next n loop_pends last for a call of lsd_process at least. */
  predicate InTime(patience: seq<nat>, n: nat) {
    n <= |patience| && forall i :: 0 <= i < n ==> patience[i] > 0
  }

  lemma MoreBytes(a: seq<Action>, b: seq<Action>, c: seq<Action>)
    requires OnlyBytes(a, b) && OnlyBytes(b, c)
    ensures OnlyBytes(a, c)
  {
  }

  /** What lsd_process does between two states is a wait. */
  lemma WaitMade(start: End, e: End, was: Seen, e2: End, now: Seen, wake: Wake)
    requires CanRun(start, was.trace) && Run(start, was.trace) == e && Shows(was, e.node)
    requires CanRun(start, now.trace) && Run(start, now.trace) == e2 && Shows(now, e2.node)
    requires was.callbacks == [] && OnlyBytesMoved(was, now, POSTS, wake)
    ensures OnlyBytes(was.trace, now.trace) && Waits(e, e2, wake)
  {
    hide CanRun, Run;
    var acts := now.trace[|was.trace|..];
    assert now.trace == was.trace + acts;
    RunSplit(start, was.trace, acts);
    assert OnlyMoves(acts) && CanRun(e, acts) && Run(e, acts) == e2;
  }

  /** A callback that posts has ended the wait between the two states, and not with an error. */
  predicate EndedWell(was: Seen, now: Seen) {
    || (was.who in POSTS && was.stat != SendIdle && now.stat == SendIdle)
    || (now.rxWho in POSTS && ToldOfData(was.log, now.log))
  }

  /** Chunk i of the data, and those from it on. */
  lemma ChunkAt(ch: nat, data: seq<byte>, sent: nat, size: nat, all: seq<Frame>, i: nat)
    requires sent < |data| && size > 0 && i <= |all| && Chunks(ch, data[sent..], size) == all[i..]
    ensures var n := Min(|data| - sent, size);
            && i < |all| && all[i] == Frame(ch, data[sent..][..n])
            && Chunks(ch, data[sent + n..], size) == all[i + 1..]
  {
    hide Chunks;
    FirstChunk(ch, data, sent, size);
    assert all[i..][0] == all[i] && all[i..][1..] == all[i + 1..];
  }

  class Sender {
    const lsd: Lsd
    var bufLen: nat  // d.buf_len
    // For each coming loop_pend, how often lsd_process runs before the timer ends the wait.
    var patience: seq<nat>

    constructor (lsd: Lsd, bufLen: nat, patience: seq<nat>)
      ensures this.lsd == lsd && this.bufLen == bufLen && this.patience == patience
    {
      this.lsd, this.bufLen, this.patience := lsd, bufLen, patience;
    }

    /** The callbacks that post are those of megawifi.c, and none makes calls. */
    ghost predicate Ready()
      reads this, lsd, lsd.uart, lsd.rxBuf
    {
      lsd.Valid() && lsd.callbacks == [] && lsd.posts == POSTS
    }

    /** The state of the link as MwCall sees it. */
    ghost function Now(): Mark
      reads lsd, lsd.uart, lsd.rxBuf
    {
      MarkOf(lsd.View().node)
    }

    /** loop_pend, ended by a callback that posts or, with Stay, by the timer. */
    method Pend() returns (wake: Wake)
      requires Ready()
      modifies this`patience, lsd, lsd.uart, lsd.rxBuf
      ensures Ready() && (lsd.rxBuf == old(lsd.rxBuf) || fresh(lsd.rxBuf))
      ensures OnlyBytes(old(lsd.trace), lsd.trace) && Waits(old(lsd.View()), lsd.View(), wake)
      ensures patience == AfterOne(old(patience))
      ensures NoTime(old(patience)) ==>
                wake == Stay && lsd.View() == old(lsd.View()) && lsd.uart.arrivals == old(lsd.uart.arrivals)
      ensures old(lsd.uart.drains) == [] ==>
                lsd.uart.drains == [] && (wake == Stay && !NoTime(old(patience)) ==> lsd.txStat == SendIdle)
      ensures old(lsd.Prompt()) && old(lsd.ToCome()) != [] && !NoTime(old(patience)) ==>
                wake == Received(StatusOf(old(lsd.ToCome())[0]))
    {
      hide Lsd.Valid, Lsd.View, Lsd.Prompt, Lsd.ToCome, OnlyBytesMoved, Waits, Shows, CanRun, Run;
      var rounds := if patience == [] then 0 else patience[0];
      patience := AfterOne(patience);
      wake := Stay;
      ghost var was, e := lsd.Look(), lsd.View();
      lsd.LooksAtRun();
      NothingMoved(was, POSTS);
      var i := 0;
      while i < rounds && wake == Stay
        invariant 0 <= i <= rounds && patience == AfterOne(old(patience))
        invariant Ready() && (lsd.rxBuf == old(lsd.rxBuf) || fresh(lsd.rxBuf))
        invariant OnlyBytesMoved(was, lsd.Look(), POSTS, wake)
        invariant i == 0 ==> wake == Stay && lsd.View() == old(lsd.View()) && lsd.uart.arrivals == old(lsd.uart.arrivals)
        invariant i == 0 ==> lsd.Prompt() == old(lsd.Prompt()) && lsd.ToCome() == old(lsd.ToCome())
        invariant old(lsd.uart.drains) == [] ==> lsd.uart.drains == [] && (i > 0 && wake == Stay ==> lsd.txStat == SendIdle)
        invariant old(lsd.Prompt()) && old(lsd.ToCome()) != [] && i > 0 ==> wake == Received(StatusOf(old(lsd.ToCome())[0]))
      {
        ghost var before := lsd.Look();
        wake := lsd.Process();
        OnlyBytesOn(was, before, lsd.Look(), POSTS, wake);
        i := i + 1;
      }
      lsd.LooksAtRun();
      WaitMade(lsd.start, e, was, lsd.View(), lsd.Look(), wake);
    }

    /** lsd_send takes a frame of this length once it is free. */
    ghost predicate Takes(ch: nat, len: nat)
      reads lsd
    {
      ch < MAX_CH && ch in lsd.chEnable && 1 <= len <= MAX_LEN
    }

    ghost predicate Taken(ch: nat, len: nat)
      reads lsd
    {
      lsd.txStat == SendIdle && Takes(ch, len)
    }

    /** The next callback of a reception is told of data. */
    ghost predicate FrameComes()
      requires lsd.Valid()
      reads lsd, lsd.uart, lsd.rxBuf
    {
      lsd.Prompt() && lsd.ToCome() != [] && lsd.ToCome()[0].Delivered?
    }

    /** lsd_send, its answer ignored. */
    method Offer(ch: nat, payload: seq<byte>)
      requires Ready() && payload != []
      modifies lsd
      ensures Ready() && lsd.rxBuf == old(lsd.rxBuf) && lsd.chEnable == old(lsd.chEnable)
      ensures old(lsd.View()).node.Valid() && lsd.View() == Offered(old(lsd.View()), Frame(ch, payload))
      ensures lsd.trace == old(lsd.trace) + [Action.Send(ch, payload, |payload|, CMD_SEND)]
      ensures old(FrameComes()) ==> FrameComes()
    {
      hide Lsd.Prompt, Lsd.ToCome;
      var _ := lsd.Send(ch, payload, |payload|, CMD_SEND);
    }

    /** One turn of the loop: the offer, and loop_pend. */
    method SendChunk(ch: nat, payload: seq<byte>) returns (wake: Wake)
      requires Ready() && payload != []
      modifies this`patience, lsd, lsd.uart, lsd.rxBuf
      ensures Ready() && (lsd.rxBuf == old(lsd.rxBuf) || fresh(lsd.rxBuf))
      ensures OnlyChunks(old(lsd.trace), lsd.trace, ch) && lsd.chEnable == old(lsd.chEnable)
      ensures old(lsd.View()).node.Valid() && Waits(Offered(old(lsd.View()), Frame(ch, payload)), lsd.View(), wake)
      ensures Turn(old(Now()), Now(), Frame(ch, payload), old(Takes(ch, |payload|)), wake)
      ensures patience == AfterOne(old(patience))
      ensures NoTime(old(patience)) ==> wake == Stay && lsd.View() == Offered(old(lsd.View()), Frame(ch, payload))
      ensures old(lsd.uart.drains) == [] ==>
                lsd.uart.drains == [] && (wake == Stay && !NoTime(old(patience)) ==> lsd.txStat == SendIdle)
      ensures old(FrameComes()) && !NoTime(old(patience)) ==> wake == Received(Complete)
    {
      hide Lsd.Valid, Lsd.View, Lsd.Prompt, Lsd.ToCome, Waits, Offered, Turn, MarkOf;
      ghost var e, f := lsd.View(), Frame(ch, payload);
      assert e.node.enabled == lsd.chEnable by { lsd.LooksAtRun(); }
      Offer(ch, payload);
      ghost var offered := lsd.trace;
      wake := Pend();
      BytesAreChunks(old(lsd.trace), offered, lsd.trace, ch);
      TurnMade(e, f, lsd.View(), wake);
      lsd.LooksAtRun();
    }

    /** Every wait has time, the transmitter keeps up, and lsd_send takes the chunks when it is free. */
    ghost predicate HasTime(ch: nat, data: seq<byte>)
      requires 1 <= bufLen
      reads this, lsd, lsd.uart
    {
      lsd.uart.drains == [] && InTime(patience, |Chunks(ch, data, bufLen)|) && Takes(ch, Min(|data|, bufLen))
    }

    /** Each wait will be ended by a send: no reception interferes, and one in progress posts. */
    ghost predicate SendsInTime(ch: nat, data: seq<byte>)
      requires 1 <= bufLen
      reads this, lsd, lsd.uart, lsd.rxBuf
    {
      HasTime(ch, data) && !Now().armed && (lsd.txStat == SendIdle || lsd.txWho in POSTS)
    }

    /** The first wait will be ended by a reception. */
    ghost predicate IsInterrupted(ch: nat, data: seq<byte>)
      requires 1 <= bufLen && lsd.Valid()
      reads this, lsd, lsd.uart, lsd.rxBuf
    {
      HasTime(ch, data) && lsd.txStat == SendIdle && Now().armed && FrameComes()
    }

    /** What is known between two turns of a call. */
    ghost predicate Between(call: Call, v0: End, i: nat)
      reads this, lsd, lsd.uart, lsd.rxBuf
      requires i <= |call.all|
    {
      && call.Valid() && call.Going(Now(), i)
      && Continues(v0, call.all, lsd.View(), call.all[i..])
      && (call.sends || call.loses ==> lsd.uart.drains == [] && InTime(patience, |call.all| - i))
    }

    /** The turn for chunk i of a call. */
    method NextChunk(ch: nat, payload: seq<byte>, ghost call: Call, ghost v0: End, ghost i: nat) returns (wake: Wake)
      requires Ready() && payload != [] && i < |call.all| && call.all[i] == Frame(ch, payload)
      requires Between(call, v0, i)
      requires call.first || call.sends || call.loses ==> Takes(ch, |payload|)
      requires i == 0 ==> call.first == Taken(ch, |payload|) && call.m0.stat == lsd.txStat
      requires i == 0 && call.loses ==> FrameComes()
      modifies this`patience, lsd, lsd.uart, lsd.rxBuf
      ensures Ready() && (lsd.rxBuf == old(lsd.rxBuf) || fresh(lsd.rxBuf))
      ensures OnlyChunks(old(lsd.trace), lsd.trace, ch) && lsd.chEnable == old(lsd.chEnable)
      ensures if Good(wake) then Between(call, v0, i + 1)
              else Outcome(call.m0, Now(), call.all, call.first, false) && !call.sends && !call.loses &&
                   Returns(v0, call.all, false, lsd.View())
      ensures patience == AfterOne(old(patience))
      ensures NoTime(old(patience)) ==> wake == Stay && lsd.View() == Offered(old(lsd.View()), Frame(ch, payload))
      ensures old(lsd.uart.drains) == [] ==> lsd.uart.drains == []
    {
      hide Lsd.Valid, Lsd.View, Lsd.Prompt, Lsd.ToCome, OnlyChunks, Waits, Offered, Turn, Returns, MarkOf;
      hide Continues, Outcome, Call.Going, Call.Valid;
      ghost var a, v := Now(), lsd.View();
      wake := SendChunk(ch, payload);
      ContinuesOn(v0, call.all, i, v, lsd.View(), wake);
      lsd.LooksAtRun();
      MarkShows(lsd.View().node);
      CallTurn(call, a, Now(), i, Takes(ch, |payload|), wake);
    }

    /** mw_send_sync, while no callback makes calls. It is a call as MwCall has it, so that success
        can be relied on as ReliableIff there says. What success means afterwards: all chunks were
        accepted if and only if the first was, and no reception whose callback posts ended a wait
        but the last. */
    method SendSync(ch: nat, data: seq<byte>) returns (err: MwErr)
      requires Ready() && 1 <= bufLen
      modifies this`patience, lsd, lsd.uart, lsd.rxBuf
      ensures Ready() && (lsd.rxBuf == old(lsd.rxBuf) || fresh(lsd.rxBuf)) && err in {ErrNone, ErrSend}
      ensures OnlyChunks(old(lsd.trace), lsd.trace, ch) && lsd.chEnable == old(lsd.chEnable)
      ensures Returns(old(lsd.View()), Chunks(ch, data, bufLen), err == ErrNone, lsd.View())
      ensures Outcome(old(Now()), Now(), Chunks(ch, data, bufLen), old(Taken(ch, Min(|data|, bufLen))), err == ErrNone)
      ensures err == ErrNone ==> NoErrorTold(old(lsd.View()).node, lsd.View().node)
      ensures NoTime(old(patience)) && data != [] ==>
                && err == ErrSend && patience == AfterOne(old(patience))
                && Chunks(ch, data, bufLen) != []
                && lsd.View() == Offered(old(lsd.View()), Chunks(ch, data, bufLen)[0])
      ensures old(lsd.uart.drains) == [] ==> lsd.uart.drains == []
      ensures old(SendsInTime(ch, data)) ==> err == ErrNone
      ensures old(IsInterrupted(ch, data)) && data != [] ==>
                && err == ErrNone && Chunks(ch, data, bufLen) != []
                && LostSecond(old(Now()), Now(), Chunks(ch, data, bufLen), |Chunks(ch, data, bufLen)|)
    {
      hide Lsd.Valid, Lsd.View, Lsd.Prompt, Lsd.ToCome, Chunks, OnlyChunks, Waits, Offered, Turn, Returns, MarkOf;
      hide Continues, Outcome, LostSecond, Call.Going, Call.Valid, Between, SendsInTime, IsInterrupted, FrameComes, NoErrorTold;
      ghost var call := Starting(ch, data);
      ghost var all, v0 := call.all, lsd.View();
      ghost var i := 0;
      var sent := 0;
      while sent < |data|
        invariant 0 <= sent <= |data| && i <= |all| && (sent == 0 <==> i == 0)
        invariant Chunks(ch, data[sent..], bufLen) == all[i..]
        invariant Ready() && (lsd.rxBuf == old(lsd.rxBuf) || fresh(lsd.rxBuf))
        invariant OnlyChunks(old(lsd.trace), lsd.trace, ch) && lsd.chEnable == old(lsd.chEnable)
        invariant Between(call, v0, i)
        invariant i == 0 ==> patience == old(patience) && lsd.View() == v0 && lsd.txStat == old(lsd.txStat)
        invariant i == 0 ==> old(FrameComes()) ==> FrameComes()
        invariant NoTime(old(patience)) ==> i == 0
        invariant old(lsd.uart.drains) == [] ==> lsd.uart.drains == []
      {
        var toSend := Min(|data| - sent, bufLen);
        ChunkAt(ch, data, sent, bufLen, all, i);
        ghost var before := lsd.trace;
        var wake := NextChunk(ch, data[sent..][..toSend], call, v0, i);
        OnlyChunksOn(old(lsd.trace), before, lsd.trace, ch);
        if !Good(wake) {
          return ErrSend;
        }
        sent := sent + toSend;
        i := i + 1;
      }
      NoChunk(ch, data[sent..], bufLen);
      Ending(call, v0);
      err := ErrNone;
    }

    lemma Ending(call: Call, v0: End)
      requires Ready() && Between(call, v0, |call.all|)
      ensures Outcome(call.m0, Now(), call.all, call.first, true) && Returns(v0, call.all, true, lsd.View())
      ensures NoErrorTold(v0.node, lsd.View().node)
      ensures call.loses && call.all != [] ==> LostSecond(call.m0, Now(), call.all, |call.all|)
    {
      hide Lsd.Valid, Lsd.View, MarkOf, Outcome, LostSecond, Call.Going, Call.Valid, Continues;
      CallEnds(call, Now());
      lsd.LooksAtRun();
      assert call.all[|call.all|..] == [];
      ContinuesToEnd(v0, call.all, lsd.View());
      SuccessMeansNoError(v0, call.all, lsd.View());
    }

    /** The call as it starts. */
    ghost method Starting(ch: nat, data: seq<byte>) returns (call: Call)
      requires Ready() && 1 <= bufLen
      ensures call.Valid() && Between(call, lsd.View(), 0) && call.m0 == Now() && call.all == Chunks(ch, data, bufLen)
      ensures Chunks(ch, data[0..], bufLen) == call.all[0..] && (data == [] ==> call.all == [])
      ensures call.first == Taken(ch, Min(|data|, bufLen)) && call.m0.stat == lsd.txStat
      ensures call.sends == SendsInTime(ch, data) && call.loses == IsInterrupted(ch, data)
      ensures call.sends || call.loses ==> Takes(ch, Min(|data|, bufLen))
      ensures call.loses ==> FrameComes()
      ensures OnlyChunks(lsd.trace, lsd.trace, ch)
    {
      hide Lsd.Valid, Lsd.View, Lsd.Prompt, Lsd.ToCome, Chunks, OnlyChunks, MarkOf, Returns;
      var all, first := Chunks(ch, data, bufLen), Taken(ch, Min(|data|, bufLen));
      lsd.LooksAtRun();
      MarkShows(lsd.View().node);
      call := Call(Now(), all, first, SendsInTime(ch, data), IsInterrupted(ch, data));
      CallStarts(call);
      NoChunksYet(lsd.trace, ch);
      assert data[0..] == data && all[0..] == all;
      if data == [] {
        NoChunk(ch, data, bufLen);
      }
    }

    /** lsd_recv for cmd_recv_cb, its answer ignored. */
    method Listen(buf: array<byte>)
      requires Ready() && CanArm(lsd.Receiver(), buf[..])
      modifies lsd
      ensures Ready() && (lsd.rxBuf == old(lsd.rxBuf) || lsd.rxBuf == buf)
      ensures lsd.View() == Step(old(lsd.View()), Action.Recv(buf[..], CMD_RECV))
      ensures buf.Length <= MAX_LEN ==> lsd.rxWho == CMD_RECV
      ensures lsd.txWho == old(lsd.txWho) && lsd.txStat == old(lsd.txStat) && lsd.log == old(lsd.log)
    {
      hide Lsd.Prompt, Lsd.ToCome;
      var _ := lsd.Recv(buf, CMD_RECV);
    }

    /** mw_recv_sync, less what it tells of the data. It returns MW_ERR_NONE if and only if the wait
        is ended by data for a reception that posts, its own unless the buffer is too long, or by
        the end of a send in progress that posts, which it cannot tell from that. When it times
        out, the reception goes on. */
    method RecvSync(buf: array<byte>) returns (err: MwErr)
      requires Ready() && CanArm(lsd.Receiver(), buf[..])
      modifies this`patience, lsd, lsd.uart, lsd.rxBuf, buf
      ensures Ready() && patience == AfterOne(old(patience))
      ensures lsd.rxBuf == old(lsd.rxBuf) || lsd.rxBuf == buf || fresh(lsd.rxBuf)
      ensures NoTime(old(patience)) ==>
                err == ErrRecv && lsd.View() == Step(old(lsd.View()), Action.Recv(old(buf[..]), CMD_RECV))
      ensures old(lsd.uart.drains) == [] ==> lsd.uart.drains == []
      ensures NoTime(old(patience)) ==> lsd.uart.arrivals == old(lsd.uart.arrivals)
      ensures buf.Length <= MAX_LEN ==> lsd.rxWho == CMD_RECV
      ensures err == if EndedWell(old(lsd.Look()), lsd.Look()) then ErrNone else ErrRecv
    {
      ghost var was := lsd.Look();
      Listen(buf);
      hide Lsd.Valid, Lsd.View, Lsd.Prompt, Lsd.ToCome, Lsd.Receiver, Waits, Step;
      ghost var e := lsd.View();
      lsd.LooksAtRun();
      var wake := Pend();
      lsd.LooksAtRun();
      WaitEndsHow(e, lsd.View(), wake);
      err := if Good(wake) then ErrNone else ErrRecv;
    }

    /** No send is in progress, and no reception that posts is under way, or it can only end the
        wait for the one chunk. */
    ghost predicate Safe(ch: nat, data: seq<byte>)
      reads this, lsd, lsd.uart, lsd.rxBuf
    {
      lsd.txStat == SendIdle && (Now().armed ==> |data| <= bufLen && Takes(ch, |data|))
    }

    /** mw_send_sync at end s of a link whose peer listens to the channel. What it does is a run
        of the system, here one in which the peer stands still. If it returns MW_ERR_NONE, having
        started safely, then in every reachable state of the system with this endpoint, whatever
        its peer did meanwhile, the peer will be given, behind what was sent before, exactly the
        caller's data. */
    method SendOverLink(ch: nat, data: seq<byte>, ghost s: Side, ghost now: System)
        returns (err: MwErr, ghost later: System)
      requires Ready() && 1 <= bufLen
      requires Reachable(now) && IsEnd(lsd.View(), now, s) && ch in now.NodeOf(s.Other()).enabled
      modifies this`patience, lsd, lsd.uart, lsd.rxBuf
      ensures Ready() && IsEnd(lsd.View(), later, s) && LeadsTo(now, later) && Reachable(later)
      ensures err == ErrNone && old(Safe(ch, data)) ==>
                forall any :: Reachable(any) && any.NodeOf(s) == lsd.View().node ==>
                                WillBeCarried(any, s, old(lsd.accepted), data)
    {
      hide Lsd.Valid, Lsd.View, Reachable, LeadsTo, Chunks, OnlyChunks, WillBeCarried, Returns, Outcome, MarkOf, CanRun, Run;
      ghost var before, e, safe := lsd.trace, lsd.View(), Safe(ch, data);
      lsd.LooksAtRun();
      MarkShows(e.node);
      ghost var takes := Takes(ch, Min(|data|, bufLen));
      err := SendSync(ch, data);
      ChunksAreConsiderate(before, lsd.trace, ch, now.NodeOf(s.Other()).enabled);
      lsd.LooksAtRun();
      later := EndRuns(lsd.start, before, lsd.trace[|before|..], now, s);
      ReachableOn(now, later);
      if err == ErrNone && safe {
        SafeAccepts(e, lsd.View(), ch, data, bufLen, takes);
        forall any | Reachable(any) && any.NodeOf(s) == lsd.View().node
          ensures WillBeCarried(any, s, e.node.accepted, data)
        {
          AcceptedWillBeCarried(any, s, e.node.accepted, ch, data, bufLen);
        }
      }
    }
  }

  lemma SafeAccepts(e: End, e2: End, ch: nat, data: seq<byte>, size: nat, takes: bool)
    requires 1 <= size && e.node.Valid() && Returns(e, Chunks(ch, data, size), true, e2)
    requires Outcome(MarkOf(e.node), MarkOf(e2.node), Chunks(ch, data, size), e.node.tx.stat == SendIdle && takes, true)
    requires takes == (ch < MAX_CH && ch in e.node.enabled && 1 <= Min(|data|, size) <= MAX_LEN)
    requires e.node.tx.stat == SendIdle && (Armed(e.node) ==> |data| <= size && takes)
    ensures e2.node.accepted == e.node.accepted + Chunks(ch, data, size)
  {
    hide Returns, Chunks, Armed;
    var all := Chunks(ch, data, size);
    if data == [] {
      NoChunk(ch, data, size);
      NothingLeftReturns(e, all, e2);
      assert e.node.accepted + [] == e.node.accepted;
    } else {
      SomeChunks(ch, data, size);
      if takes {
        ChunksTaken(e.node.enabled, ch, data, size);
        SureCarries(e, all, e2);
      }
    }
  }

  lemma SomeChunks(ch: nat, data: seq<byte>, size: nat)
    requires 1 <= size && data != []
    ensures Chunks(ch, data, size) != []
    ensures |data| <= size ==> |Chunks(ch, data, size)| == 1
  {
    if |data| <= size {
      assert data[Min(|data|, size)..] == [];
    }
  }

  lemma ChunksTaken(enabled: set<nat>, ch: nat, data: seq<byte>, size: nat)
    requires 1 <= size && ch < MAX_CH && ch in enabled && Min(|data|, size) <= MAX_LEN
    ensures AllTaken(enabled, Chunks(ch, data, size))
  {
    hide Chunks;
    ChunksConserve(ch, data, size);
  }

  /** How a chunk gets lost without notice: the first call gives up with a frame going out, and
      the second one finds it so. */
  method LosesChunk(ch: nat, first: seq<byte>, second: seq<byte>, bufLen: nat)
      returns (err1: MwErr, err2: MwErr, ghost accepted: seq<Frame>)
    requires ch < MAX_CH && first != [] && second != [] && 1 <= bufLen <= MAX_LEN
    ensures err1 == ErrSend && err2 == ErrNone
    ensures Chunks(ch, first, bufLen) != [] && Chunks(ch, second, bufLen) != []
    ensures accepted == Chunks(ch, first, bufLen)[..1] + Chunks(ch, second, bufLen)[1..]
  {
    hide Lsd.Valid, Lsd.View, Lsd.Prompt, Lsd.ToCome, Chunks, Returns, OnlyChunks, LostSecond, MarkOf, CanRun, Run;
    hide Offered, Frame.Valid, Sender.FrameComes;
    SomeChunks(ch, second, bufLen);
    FirstFrame(ch, first, bufLen);
    var sender := Waiting(ch, bufLen, [], second);
    var lsd := sender.lsd;
    OfferTaken(lsd.View(), Chunks(ch, first, bufLen)[0]);
    err1 := sender.SendSync(ch, first);
    lsd.LooksAtRun();
    MarkShows(lsd.View().node);
    err2 := sender.SendSync(ch, second);
    lsd.LooksAtRun();
    MarkShows(lsd.View().node);
    accepted := lsd.accepted;
  }

  /** After lsd_init, with a channel enabled: the first wait has no time, those for the chunks of
      the data have, and the UART keeps up. */
  method Waiting(ch: nat, bufLen: nat, inbox: seq<byte>, data: seq<byte>) returns (sender: Sender)
    requires ch < MAX_CH && 1 <= bufLen
    ensures sender.Ready() && fresh(sender) && fresh(sender.lsd) && fresh(sender.lsd.uart) && fresh(sender.lsd.rxBuf)
    ensures sender.bufLen == bufLen && NoTime(sender.patience)
    ensures InTime(AfterOne(sender.patience), |Chunks(ch, data, bufLen)|)
    ensures sender.lsd.View() == End(IDLE_NODE.(enabled := {ch}), inbox, [])
    ensures sender.lsd.chEnable == {ch} && sender.lsd.txStat == SendIdle && sender.lsd.txWho == 0
    ensures sender.lsd.uart.drains == [] && sender.lsd.uart.arrivals == []
  {
    hide Chunks;
    FewChunks(ch, data, bufLen);
    var uart := new Uart(inbox, [], []);
    var lsd := new Lsd(uart, [], POSTS);
    var _ := lsd.SetChannel(ch, true);
    var patience := [0] + seq(|data|, _ => 1);
    assert patience[1..] == seq(|data|, _ => 1);
    sender := new Sender(lsd, bufLen, patience);
  }

  lemma FirstFrame(ch: nat, data: seq<byte>, size: nat)
    requires 1 <= size <= MAX_LEN && data != [] && ch < MAX_CH
    ensures Chunks(ch, data, size) != [] && Chunks(ch, data, size)[0].Valid() && Chunks(ch, data, size)[0].ch == ch
    ensures Chunks(ch, data, size)[..1] == [Chunks(ch, data, size)[0]]
  {
  }

  /** An empty frame, as it comes over the line. */
  function EmptyFrame(ch: nat): seq<byte>
    requires ch < MAX_CH
  {
    [STX_ETX, ch * 16, 0, STX_ETX]
  }

  lemma EmptyFrameComes(rx: Rx, enabled: set<nat>, ch: nat)
    requires rx.Valid() && rx.stat == RecvStx && ch < MAX_CH && ch in enabled
    ensures FirstEvent(rx, enabled, EmptyFrame(ch)) == [Delivered(ch, [], true)]
  {
    var b := EmptyFrame(ch);
    var r1 := rx.(stat := RecvChLenH);
    var r2 := r1.(ch := ch, frameLen := 0, stat := RecvLen);
    var r3 := r2.(pos := 0, stat := RecvEtx);
    assert RecvByte(rx, enabled, STX_ETX) == (r1, []);
    assert RecvByte(r1, enabled, ch * 16) == (r2, []);
    assert RecvByte(r2, enabled, 0) == (r3, []);
    assert RecvByte(r3, enabled, STX_ETX).1 == [Delivered(ch, [], true)];
    assert b[1..] == [ch * 16, 0, STX_ETX] && b[2..] == [0, STX_ETX] && b[3..] == [STX_ETX];
    hide RecvByte;
    assert FirstEvent(r3, enabled, b[3..]) == [Delivered(ch, [], true)];
    assert FirstEvent(r2, enabled, b[2..]) == FirstEvent(r3, enabled, b[2..][1..]);
    assert FirstEvent(r1, enabled, b[1..]) == FirstEvent(r2, enabled, b[1..][1..]);
  }

  /** The other way: a reception gives up and goes on, and a frame that comes while the first chunk
      is going out ends the wait for it. The second chunk is refused. */
  method LosesChunkToReception(ch: nat, data: seq<byte>, bufLen: nat)
      returns (err1: MwErr, err2: MwErr, ghost accepted: seq<Frame>)
    requires ch < MAX_CH && 1 <= bufLen <= MAX_LEN && bufLen < |data|
    ensures err1 == ErrRecv && err2 == ErrNone
    ensures |Chunks(ch, data, bufLen)| >= 2
    ensures accepted == Chunks(ch, data, bufLen)[..1] + Chunks(ch, data, bufLen)[2..]
  {
    hide Lsd.Valid, Lsd.View, MarkOf, Chunks, Returns, OnlyChunks, Outcome, LostSecond, Sender.IsInterrupted;
    ManyChunks(ch, data, bufLen);
    SomeChunks(ch, data, bufLen);
    var sender: Sender;
    sender, err1 := ReceptionGoesOn(ch, data, bufLen);
    ghost var m0 := sender.Now();
    err2 := sender.SendSync(ch, data);
    sender.lsd.LooksAtRun();
    accepted := sender.lsd.accepted;
    LostTheSecond(m0, sender.lsd, Chunks(ch, data, bufLen));
  }

  lemma LostTheSecond(m0: Mark, lsd: Lsd, all: seq<Frame>)
    requires |all| >= 2 && LostSecond(m0, MarkOf(lsd.View().node), all, |all|) && m0.accepted == []
    ensures lsd.accepted == all[..1] + all[2..]
  {
    assert all[2..|all|] == all[2..];
  }

  /** mw_recv_sync has given up with its reception under way, and a frame is coming. */
  method ReceptionGoesOn(ch: nat, data: seq<byte>, bufLen: nat) returns (sender: Sender, err: MwErr)
    requires ch < MAX_CH && 1 <= bufLen <= MAX_LEN && data != []
    ensures sender.Ready() && fresh(sender) && fresh(sender.lsd) && fresh(sender.lsd.uart) && fresh(sender.lsd.rxBuf)
    ensures err == ErrRecv && sender.bufLen == bufLen && sender.IsInterrupted(ch, data) && sender.Now().accepted == []
  {
    hide Lsd.Valid, Chunks, FirstEvent, CanRun, Run;
    sender := Waiting(ch, bufLen, EmptyFrame(ch), data);
    var lsd := sender.lsd;
    var buf := new byte[1](_ => 0);
    err := sender.RecvSync(buf);
    lsd.LooksAtRun();
    EmptyFrameComes(lsd.Receiver(), lsd.chEnable, ch);
  }

  lemma ManyChunks(ch: nat, data: seq<byte>, size: nat)
    requires 1 <= size < |data|
    ensures |Chunks(ch, data, size)| >= 2
  {
    SomeChunks(ch, data[size..], size);
  }

  lemma FewChunks(ch: nat, data: seq<byte>, size: nat)
    requires 1 <= size
    ensures |Chunks(ch, data, size)| <= |data|
    decreases |data|
  {
    if data != [] {
      FewChunks(ch, data[Min(|data|, size)..], size);
    }
  }
}
