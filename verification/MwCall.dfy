/** A call of mw_send_sync as its waits see it: chunks offered to lsd_send, whose answer is ignored,
    each followed by a loop_pend that any callback which posts may end. */
module MwCall {
  import opened Bytes
  import opened LsdFrames
  import opened LsdMachine

  /** cmd_send_cb and cmd_recv_cb. They end in loop_post. */
  const CMD_SEND := 1
  const CMD_RECV := 2
  const POSTS := {CMD_SEND, CMD_RECV}

  /** A reception is under way whose callback posts. */
  predicate Armed(n: Node) {
    n.rx.Active() && n.rx.who in POSTS
  }

  predicate OnlyMoves(acts: seq<Action>) {
    forall i :: 0 <= i < |acts| ==> acts[i].Transmit? || acts[i].Receive?
  }

  /** Which callback that posts has been called between the two states, if any. */
  predicate Woken(was: Node, now: Node, wake: Wake) {
    && (wake.Sent? <==> was.tx.who in POSTS && was.tx.stat != SendIdle && now.tx.stat == SendIdle)
    && (wake.Received? <==> was.rx.who in POSTS && now.log != was.log)
    && (wake.Received? ==> now.log != [] && wake.status == StatusOf(now.log[|now.log| - 1]))
  }

  ghost predicate Reaches(e: End, e2: End) {
    exists acts :: OnlyMoves(acts) && CanRun(e, acts) && Run(e, acts) == e2
  }

  /** A loop_pend: bytes move until one of these callbacks ends it, or with Stay the timer. */
  ghost predicate Waits(e: End, e2: End, wake: Wake) {
    Reaches(e, e2) && Woken(e.node, e2.node, wake)
  }

  /** A chunk is offered to lsd_send. */
  function Offered(e: End, f: Frame): End
    requires e.node.Valid() && f.payload != []
  {
    Step(e, Action.Send(f.ch, f.payload, |f.payload|, CMD_SEND))
  }

  /** CMD_OK was posted. */
  predicate Good(wake: Wake) {
    wake == Sent || wake == Received(Complete)
  }

  /** With the chunks `left` to go, the call may return from e in state e2, `ok` for MW_ERR_NONE. */
  ghost predicate Returns(e: End, left: seq<Frame>, ok: bool, e2: End)
    decreases |left|, 0
  {
    e.node.Valid() &&
    if left == [] then ok && e2 == e
    else
      left[0].payload != [] &&
      exists mid: End, wake: Wake :: Waits(Offered(e, left[0]), mid, wake) && GoesOn(mid, left[1..], ok, e2, wake)
  }

  ghost predicate GoesOn(mid: End, rest: seq<Frame>, ok: bool, e2: End, wake: Wake)
    decreases |rest|, 1
  {
    if Good(wake) then Returns(mid, rest, ok, e2) else !ok && e2 == mid
  }

  // ------------------------------------------------------- what a wait keeps

  /** What moving bytes leaves alone, and what it cannot bring back. */
  predicate Moved(was: Node, now: Node) {
    && now.Valid() && now.accepted == was.accepted && now.enabled == was.enabled
    && now.tx.who == was.tx.who && now.rx.who == was.rx.who
    && (was.tx.stat == SendIdle ==> now.tx.stat == SendIdle)
    && was.log <= now.log
    && (now.rx.Active() <==> was.rx.Active() && now.log == was.log)
    && (now.log != was.log ==> was.rx.Active() && |now.log| == |was.log| + 1 && Honest(now.log[|was.log|]))
  }

  /** No callback is told of a failure with the status of success. */
  predicate Honest(event: Event) {
    event.Failed? ==> event.status != Complete
  }

  lemma MoveMoves(e: End, act: Action)
    requires CanStep(e, act) && (act.Transmit? || act.Receive?)
    ensures Moved(e.node, Step(e, act).node)
  {
  }

  lemma {:induction false} RunMoves(e: End, acts: seq<Action>)
    requires e.node.Valid() && OnlyMoves(acts) && CanRun(e, acts)
    ensures Moved(e.node, Run(e, acts).node)
    decreases |acts|
  {
    hide Step, CanStep;
    if acts != [] {
      var front := acts[..|acts| - 1];
      RunMoves(e, front);
      MoveMoves(Run(e, front), acts[|acts| - 1]);
    }
  }

  lemma WaitMoves(e: End, e2: End, wake: Wake)
    requires e.node.Valid() && Waits(e, e2, wake)
    ensures Moved(e.node, e2.node) && Woken(e.node, e2.node, wake)
  {
    hide CanRun, Run, Moved;
    var acts :| OnlyMoves(acts) && CanRun(e, acts) && Run(e, acts) == e2;
    RunMoves(e, acts);
  }

  // ------------------------------------------------------ success, and loss

  /** lsd_send takes all of them once it is free. */
  predicate AllTaken(enabled: set<nat>, fs: seq<Frame>) {
    forall i :: 0 <= i < |fs| ==> fs[i].Valid() && fs[i].ch in enabled
  }

  lemma OfferTaken(e: End, f: Frame)
    requires e.node.Valid() && f.payload != []
    ensures var n := Offered(e, f).node;
            if e.node.tx.stat == SendIdle && f.Valid() && f.ch in e.node.enabled
            then n.accepted == e.node.accepted + [f] && n.tx.stat == SendStx && n.tx.who == CMD_SEND
            else n.accepted == e.node.accepted && n.tx == e.node.tx
    ensures var n := Offered(e, f).node;
            n.Valid() && n.rx == e.node.rx && n.enabled == e.node.enabled && n.log == e.node.log
    ensures Offered(e, f).inbox == e.inbox
    ensures e.node.tx.stat != SendIdle ==> Offered(e, f) == e
  {
    assert f.payload[..|f.payload|] == f.payload;
  }

  /** One chunk and its wait, from a call that succeeds. */
  lemma FirstWait(e: End, left: seq<Frame>, e2: End) returns (mid: End, wake: Wake)
    requires left != [] && Returns(e, left, true, e2)
    ensures e.node.Valid() && left[0].payload != []
    ensures Good(wake) && Returns(mid, left[1..], true, e2)
    ensures Moved(Offered(e, left[0]).node, mid.node) && Woken(Offered(e, left[0]).node, mid.node, wake)
  {
    hide Waits, Moved, Woken, Offered;
    mid, wake :| Waits(Offered(e, left[0]), mid, wake) && GoesOn(mid, left[1..], true, e2, wake);
    OfferTaken(e, left[0]);
    WaitMoves(Offered(e, left[0]), mid, wake);
  }

  /** A reception callback has been called since, and it was told of data, or of an error. */
  predicate ToldOfData(was: seq<Event>, now: seq<Event>) {
    was < now && |now| == |was| + 1 && now[|was|].Delivered?
  }

  predicate ToldOfError(was: seq<Event>, now: seq<Event>) {
    was < now && |now| == |was| + 1 && now[|was|].Failed?
  }

  /** What ends a wait, and whether well: a frame of a send that has gone out, data, or an error. */
  lemma WaitEndsHow(e: End, e2: End, wake: Wake)
    requires e.node.Valid() && Waits(e, e2, wake)
    ensures Good(wake) <==>
              || (e.node.tx.who in POSTS && e.node.tx.stat != SendIdle && e2.node.tx.stat == SendIdle)
              || (e.node.rx.who in POSTS && ToldOfData(e.node.log, e2.node.log))
    ensures e2.node.log == e.node.log || ToldOfData(e.node.log, e2.node.log) || ToldOfError(e.node.log, e2.node.log)
    ensures e.node.rx.who in POSTS && ToldOfError(e.node.log, e2.node.log) ==> !Good(wake)
    ensures e2.node.rx.who == e.node.rx.who && e2.node.Valid() && (e2.node.log != e.node.log ==> !e2.node.rx.Active())
    ensures !e.node.rx.Active() ==> !e2.node.rx.Active() && e2.node.log == e.node.log
  {
    hide Waits;
    WaitMoves(e, e2, wake);
  }

  /** If the callback of a reception that posts has been called since, then once, and of data. */
  predicate NoErrorTold(was: Node, now: Node) {
    was.rx.who in POSTS ==> now.log == was.log || ToldOfData(was.log, now.log)
  }

  /** A call that succeeds has not been told of an error. */
  lemma {:induction false} SuccessMeansNoError(e: End, left: seq<Frame>, e2: End)
    requires Returns(e, left, true, e2)
    ensures NoErrorTold(e.node, e2.node)
    ensures !e.node.rx.Active() ==> e2.node.log == e.node.log
    decreases |left|
  {
    if left != [] {
      var mid, wake: Wake :| Waits(Offered(e, left[0]), mid, wake) && GoesOn(mid, left[1..], true, e2, wake);
      hide Returns, Waits, Offered;
      OfferTaken(e, left[0]);
      WaitEndsHow(Offered(e, left[0]), mid, wake);
      SuccessMeansNoError(mid, left[1..], e2);
    }
  }

  /** No more is accepted than is offered, and less if a send is under way at the start. */
  lemma {:induction false} AtMostAll(e: End, left: seq<Frame>, e2: End)
    requires Returns(e, left, true, e2)
    ensures |e2.node.accepted| <= |e.node.accepted| + |left|
    ensures left != [] && e.node.tx.stat != SendIdle ==> |e2.node.accepted| < |e.node.accepted| + |left|
    decreases |left|
  {
    if left != [] {
      var mid, wake := FirstWait(e, left, e2);
      hide Returns, Offered, Woken;
      OfferTaken(e, left[0]);
      AtMostAll(mid, left[1..], e2);
    }
  }

  /** A chunk that is taken has been accepted, and unless it was a reception that ended the wait,
      the next one finds no send in progress. */
  lemma FirstTaken(e: End, left: seq<Frame>, e2: End) returns (mid: End)
    requires left != [] && Returns(e, left, true, e2) && e.node.tx.stat == SendIdle && AllTaken(e.node.enabled, left)
    ensures Returns(mid, left[1..], true, e2)
    ensures mid.node.accepted == e.node.accepted + [left[0]] && mid.node.enabled == e.node.enabled
    ensures !Armed(e.node) ==> mid.node.tx.stat == SendIdle && !Armed(mid.node)
  {
    var wake: Wake;
    mid, wake := FirstWait(e, left, e2);
    hide Returns, Offered;
    OfferTaken(e, left[0]);
  }

  /** Started with no send in progress, and no reception under way that could end a wait but the
      last, the call succeeds only if all chunks have been accepted. */
  lemma {:induction false} SureCarries(e: End, left: seq<Frame>, e2: End)
    requires Returns(e, left, true, e2) && e.node.tx.stat == SendIdle && AllTaken(e.node.enabled, left)
    requires !Armed(e.node) || |left| <= 1
    ensures e2.node.accepted == e.node.accepted + left
    decreases |left|
  {
    hide Returns;
    if left == [] {
      NothingLeftReturns(e, left, e2);
      assert e.node.accepted + [] == e.node.accepted;
    } else {
      var mid := FirstTaken(e, left, e2);
      hide Armed;
      assert left == [left[0]] + left[1..];
      assert e.node.accepted + [left[0]] + left[1..] == e.node.accepted + ([left[0]] + left[1..]);
      if |left| == 1 {
        NothingLeftReturns(mid, left[1..], e2);
        assert e.node.accepted + [left[0]] + [] == e.node.accepted + [left[0]];
      } else {
        SureCarries(mid, left[1..], e2);
      }
    }
  }

  lemma NothingLeftReturns(e: End, left: seq<Frame>, e2: End)
    requires left == [] && Returns(e, left, true, e2)
    ensures e2 == e
  {
  }

  /** With a send under way whose callback does not post, and no such reception, nothing ends the
      first wait well. */
  lemma NeverGood(e: End, left: seq<Frame>, e2: End)
    requires left != [] && e.node.tx.stat != SendIdle && e.node.tx.who !in POSTS && !Armed(e.node)
    ensures !Returns(e, left, true, e2)
  {
    if Returns(e, left, true, e2) {
      var mid, wake := FirstWait(e, left, e2);
      OfferTaken(e, left[0]);
    }
  }

  // ------------------------------------------------------------ witnesses

  lemma ReachesItself(e: End)
    ensures Reaches(e, e)
  {
    assert CanRun(e, []) && Run(e, []) == e;
  }

  lemma ReachesOn(a: End, b: End, c: End)
    requires Reaches(a, b) && Reaches(b, c)
    ensures Reaches(a, c)
  {
    hide CanRun, Run;
    var first :| OnlyMoves(first) && CanRun(a, first) && Run(a, first) == b;
    var more :| OnlyMoves(more) && CanRun(b, more) && Run(b, more) == c;
    RunJoin(a, first, more);
  }

  lemma ReachesOne(e: End, act: Action)
    requires CanStep(e, act) && (act.Transmit? || act.Receive?)
    ensures Reaches(e, Step(e, act))
  {
    hide Step, CanStep;
    assert CanRun(e, []) && Run(e, []) == e;
    RunOneMore(e, [], act);
    assert OnlyMoves([] + [act]);
  }

  /** The send under way goes out. */
  lemma {:induction false} SendsOut(e: End) returns (e2: End)
    requires e.node.Valid() && e.node.tx.stat != SendIdle
    ensures Reaches(e, e2) && e2.inbox == e.inbox
    ensures e2.node == e.node.(tx := e2.node.tx, sent := e2.node.sent) && e2.node.Valid()
    ensures e2.node.tx.stat == SendIdle && e2.node.tx.who == e.node.tx.who
    decreases LeftOf(e.node.tx)
  {
    RestShrinks(e.node.tx);
    ReachesOne(e, Transmit);
    var next := Step(e, Transmit);
    hide Reaches, LeftOf, SendByte;
    TransmitOnly(e);
    if next.node.tx.stat == SendIdle {
      e2 := next;
    } else {
      e2 := SendsOut(next);
      ReachesOn(e, next, e2);
    }
  }

  lemma TransmitOnly(e: End)
    requires CanStep(e, Transmit)
    ensures var n := Step(e, Transmit).node;
            && n == e.node.(tx := n.tx, sent := n.sent) && n.tx.who == e.node.tx.who
            && n.tx == SendByte(e.node.tx).1 && Step(e, Transmit).inbox == e.inbox
  {
  }

  /** The reception under way comes to its callback. */
  lemma {:induction false} ReceivesEvent(e: End) returns (e2: End)
    requires e.node.Valid() && FirstEvent(e.node.rx, e.node.enabled, e.inbox) != []
    ensures Reaches(e, e2) && e2.node.Valid()
    ensures e2.node == e.node.(rx := e2.node.rx, log := e.node.log + FirstEvent(e.node.rx, e.node.enabled, e.inbox))
    ensures !e2.node.rx.Active()
    decreases |e.inbox|
  {
    var next := Step(e, Receive);
    ReachesOne(e, Receive);
    ReceiveOnly(e);
    hide Reaches, Step;
    if next.node.log != e.node.log {
      e2 := next;
    } else {
      e2 := ReceivesEvent(next);
      ReachesOn(e, next, e2);
    }
  }

  lemma ReceiveOnly(e: End)
    requires CanStep(e, Receive)
    ensures var n := Step(e, Receive).node;
            var (rx, events) := RecvByte(e.node.rx, e.node.enabled, e.inbox[0]);
            && n == e.node.(rx := rx, log := e.node.log + events)
            && |events| <= 1 && (events != [] ==> !rx.Active())
            && Step(e, Receive).inbox == e.inbox[1..]
  {
  }

  /** From any state a reception can be completed on an enabled channel. */
  lemma {:induction false} CanFinish(rx: Rx, enabled: set<nat>, ch: nat) returns (bytes: seq<byte>)
    requires rx.Valid() && rx.Active() && ch < MAX_CH && ch in enabled
    ensures FirstEvent(rx, enabled, bytes) != [] && FirstEvent(rx, enabled, bytes)[0].Delivered?
    decreases rx.stat == RecvStx, rx.stat == RecvChLenH, rx.stat == RecvLen, rx.stat == RecvData, |rx.buf| - rx.pos
  {
    var b := FinishingByte(rx, ch);
    FinishesOrGoesOn(rx, enabled, ch);
    RecvByteValid(rx, enabled, b);
    var (r, events) := RecvByte(rx, enabled, b);
    if events != [] {
      bytes := [b];
    } else {
      var more := CanFinish(r, enabled, ch);
      bytes := [b] + more;
      assert bytes[1..] == more;
    }
  }

  function FinishingByte(rx: Rx, ch: nat): byte
    requires ch < MAX_CH
  {
    match rx.stat
    case RecvStx => STX_ETX
    case RecvChLenH => ch * 16
    case RecvEtx => STX_ETX
    case _ => 0
  }

  lemma FinishesOrGoesOn(rx: Rx, enabled: set<nat>, ch: nat)
    requires rx.Valid() && rx.Active() && ch < MAX_CH && ch in enabled
    ensures var (r, events) := RecvByte(rx, enabled, FinishingByte(rx, ch));
            if events != [] then events[0].Delivered?
            else r.Active() &&
                 match rx.stat
                 case RecvStx => r.stat == RecvChLenH
                 case RecvChLenH => r.stat == RecvLen
                 case RecvLen => r.stat in {RecvData, RecvEtx}
                 case RecvData => r.stat == RecvEtx || (r.stat == RecvData && |r.buf| == |rx.buf| && r.pos == rx.pos + 1)
                 case _ => false
  {
  }

  lemma ReturnsOneMore(e: End, left: seq<Frame>, mid: End, wake: Wake, e2: End)
    requires e.node.Valid() && left != [] && left[0].payload != []
    requires Waits(Offered(e, left[0]), mid, wake) && Good(wake) && Returns(mid, left[1..], true, e2)
    ensures Returns(e, left, true, e2)
  {
    hide Waits, Offered;
    assert GoesOn(mid, left[1..], true, e2, wake);
  }

  lemma TakenFirst(enabled: set<nat>, left: seq<Frame>)
    requires AllTaken(enabled, left) && left != []
    ensures left[0].Valid() && left[0].ch in enabled && left[0].payload != [] && AllTaken(enabled, left[1..])
  {
  }

  /** The frame under way ends the wait, if its callback posts. */
  lemma SendEndsWait(e: End) returns (mid: End)
    requires e.node.Valid() && e.node.tx.stat != SendIdle && e.node.tx.who in POSTS
    ensures Waits(e, mid, Sent) && mid.node.Valid() && mid.node.tx.stat == SendIdle
    ensures mid.node.accepted == e.node.accepted && mid.node.enabled == e.node.enabled
  {
    hide Reaches;
    mid := SendsOut(e);
  }

  /** A reception that is to come ends the wait. */
  lemma ReceptionEndsWait(e: End) returns (mid: End)
    requires e.node.Valid() && Armed(e.node)
    requires FirstEvent(e.node.rx, e.node.enabled, e.inbox) != []
    requires FirstEvent(e.node.rx, e.node.enabled, e.inbox)[0].Delivered?
    ensures Waits(e, mid, Received(Complete)) && mid.node.Valid()
    ensures mid.node.tx == e.node.tx && mid.node.accepted == e.node.accepted && mid.node.enabled == e.node.enabled
  {
    hide Reaches, FirstEvent;
    mid := ReceivesEvent(e);
  }

  lemma OneThenRest(before: seq<Frame>, left: seq<Frame>)
    requires left != []
    ensures before + [left[0]] + left[1..] == before + left
  {
  }

  /** With nothing under way all chunks can be accepted and sent. */
  lemma {:induction false} SendsAll(e: End, left: seq<Frame>) returns (e2: End)
    requires e.node.Valid() && e.node.tx.stat == SendIdle && AllTaken(e.node.enabled, left)
    ensures Returns(e, left, true, e2) && e2.node.accepted == e.node.accepted + left
    decreases |left|
  {
    if left == [] {
      e2 := e;
    } else {
      hide Waits, Offered, Returns, AllTaken;
      TakenFirst(e.node.enabled, left);
      OfferTaken(e, left[0]);
      var mid := SendEndsWait(Offered(e, left[0]));
      e2 := SendsAll(mid, left[1..]);
      ReturnsOneMore(e, left, mid, Sent, e2);
      OneThenRest(e.node.accepted, left);
    }
  }

  /** With a send under way that posts, the first chunk is lost. */
  lemma LosesFirst(e: End, left: seq<Frame>) returns (e2: End)
    requires e.node.Valid() && e.node.tx.stat != SendIdle && e.node.tx.who in POSTS
    requires AllTaken(e.node.enabled, left) && left != []
    ensures Returns(e, left, true, e2) && e2.node.accepted == e.node.accepted + left[1..]
  {
    hide Waits, Offered, Returns, AllTaken;
    TakenFirst(e.node.enabled, left);
    OfferTaken(e, left[0]);
    var mid := SendEndsWait(e);
    e2 := SendsAll(mid, left[1..]);
    ReturnsOneMore(e, left, mid, Sent, e2);
  }

  /** With a reception under way that posts and a frame coming, the second chunk is lost. */
  lemma LosesSecond(e: End, left: seq<Frame>) returns (e2: End)
    requires e.node.Valid() && e.node.tx.stat == SendIdle && Armed(e.node) && AllTaken(e.node.enabled, left) && |left| >= 2
    requires FirstEvent(e.node.rx, e.node.enabled, e.inbox) != []
    requires FirstEvent(e.node.rx, e.node.enabled, e.inbox)[0].Delivered?
    ensures Returns(e, left, true, e2) && e2.node.accepted == e.node.accepted + left[..1] + left[2..]
  {
    hide Waits, Offered, Returns, AllTaken, FirstEvent;
    TakenFirst(e.node.enabled, left);
    var o := Offered(e, left[0]);
    OfferTaken(e, left[0]);
    var mid := ReceptionEndsWait(o);
    e2 := LosesFirst(mid, left[1..]);
    ReturnsOneMore(e, left, mid, Received(Complete), e2);
    assert left[1..][1..] == left[2..];
    assert left[..1] == [left[0]];
  }

  /** A send under way that does not post goes out, then the reception ends the wait. */
  lemma LosesFirstQuietly(e: End, left: seq<Frame>) returns (e2: End)
    requires e.node.Valid() && e.node.tx.stat != SendIdle && e.node.tx.who !in POSTS
    requires Armed(e.node) && AllTaken(e.node.enabled, left) && left != []
    requires FirstEvent(e.node.rx, e.node.enabled, e.inbox) != []
    requires FirstEvent(e.node.rx, e.node.enabled, e.inbox)[0].Delivered?
    ensures Returns(e, left, true, e2) && e2.node.accepted == e.node.accepted + left[1..]
  {
    hide Reaches, Offered, Returns, AllTaken, FirstEvent;
    TakenFirst(e.node.enabled, left);
    OfferTaken(e, left[0]);
    var out := SendsOut(e);
    var mid := ReceivesEvent(out);
    ReachesOn(e, out, mid);
    assert Waits(e, mid, Received(Complete));
    hide Waits;
    e2 := SendsAll(mid, left[1..]);
    ReturnsOneMore(e, left, mid, Received(Complete), e2);
  }

  /** Whatever comes in and whenever it does, MW_ERR_NONE means that all chunks were accepted. */
  ghost predicate Reliable(e: End, left: seq<Frame>) {
    forall inbox: seq<byte>, e2: End ::
      Returns(e.(inbox := inbox), left, true, e2) ==> e2.node.accepted == e.node.accepted + left
  }

  /** What a caller can check before the call. */
  predicate Sure(n: Node, chunks: nat) {
    if n.tx.stat == SendIdle then !Armed(n) || chunks == 1 else n.tx.who !in POSTS && !Armed(n)
  }

  /** Exactly when success can be relied on. With no send in progress: if no reception is under way
      whose callback posts, or there is only one chunk. With one in progress: only if neither its
      callback nor that of a reception posts, and then the call never succeeds. */
  lemma ReliableIff(e: End, left: seq<Frame>)
    requires e.node.Valid() && AllTaken(e.node.enabled, left) && left != []
    ensures Reliable(e, left) <==> Sure(e.node, |left|)
  {
    hide Returns, AllTaken, Armed;
    if Sure(e.node, |left|) {
      forall inbox: seq<byte>, e2: End | Returns(e.(inbox := inbox), left, true, e2)
        ensures e2.node.accepted == e.node.accepted + left
      {
        SureSucceeds(e.(inbox := inbox), left, e2);
      }
    } else {
      var inbox, e2 := UnsureFails(e, left);
      assert Returns(e.(inbox := inbox), left, true, e2);
    }
  }

  lemma SureSucceeds(e: End, left: seq<Frame>, e2: End)
    requires e.node.Valid() && AllTaken(e.node.enabled, left) && left != [] && Sure(e.node, |left|)
    requires Returns(e, left, true, e2)
    ensures e2.node.accepted == e.node.accepted + left
  {
    hide Returns, AllTaken, Armed;
    if e.node.tx.stat == SendIdle {
      SureCarries(e, left, e2);
    } else {
      NeverGood(e, left, e2);
    }
  }

  lemma UnsureFails(e: End, left: seq<Frame>) returns (inbox: seq<byte>, e2: End)
    requires e.node.Valid() && AllTaken(e.node.enabled, left) && left != [] && !Sure(e.node, |left|)
    ensures Returns(e.(inbox := inbox), left, true, e2) && e2.node.accepted != e.node.accepted + left
  {
    hide Returns, AllTaken, FirstEvent;
    inbox := e.inbox;
    if e.node.tx.stat != SendIdle && e.node.tx.who in POSTS {
      e2 := LosesFirst(e, left);
      assert e.(inbox := inbox) == e;
    } else {
      TakenFirst(e.node.enabled, left);
      inbox := CanFinish(e.node.rx, e.node.enabled, left[0].ch);
      if e.node.tx.stat == SendIdle {
        e2 := LosesSecond(e.(inbox := inbox), left);
      } else {
        e2 := LosesFirstQuietly(e.(inbox := inbox), left);
      }
    }
    assert |e2.node.accepted| < |e.node.accepted + left|;
  }

  // ---------------------------------------------------------- turn by turn

  /** What a caller sees of the link. */
  datatype Mark = Mark(accepted: seq<Frame>, stat: SendStat, who: nat, armed: bool, log: seq<Event>)

  function MarkOf(n: Node): Mark {
    Mark(n.accepted, n.tx.stat, n.tx.who, Armed(n), n.log)
  }

  lemma MarkShows(n: Node)
    ensures MarkOf(n).stat == n.tx.stat && MarkOf(n).who == n.tx.who && MarkOf(n).log == n.log
    ensures MarkOf(n).accepted == n.accepted && MarkOf(n).armed == Armed(n)
  {
  }

  /** One chunk offered and waited for; `takes` is whether lsd_send takes it if it is free. */
  predicate Turn(a: Mark, b: Mark, f: Frame, takes: bool, wake: Wake) {
    var taken := a.stat == SendIdle && takes;
    && b.accepted == a.accepted + (if taken then [f] else [])
    && b.who == (if taken then CMD_SEND else a.who)
    && a.log <= b.log
    && (b.armed <==> a.armed && b.log == a.log)
    && (wake.Received? <==> a.armed && b.log != a.log)
    && (wake.Sent? <==> b.who in POSTS && (taken || a.stat != SendIdle) && b.stat == SendIdle)
    && (a.stat == SendIdle && !taken ==> b.stat == SendIdle)
  }

  lemma TurnMade(e: End, f: Frame, mid: End, wake: Wake)
    requires e.node.Valid() && f.payload != [] && Waits(Offered(e, f), mid, wake)
    ensures Turn(MarkOf(e.node), MarkOf(mid.node), f, f.Valid() && f.ch in e.node.enabled, wake)
    ensures mid.node.Valid() && mid.node.enabled == e.node.enabled
  {
    hide Waits, Offered;
    OfferTaken(e, f);
    WaitMoves(Offered(e, f), mid, wake);
  }

  /** After i chunks from m0, all waits having ended well. `first` is whether the first was free to
      be taken. Once a reception has ended a wait, the chunk before is still going out, or one has
      been lost. */
  predicate Progress(m0: Mark, m: Mark, all: seq<Frame>, i: nat, first: bool)
    requires i <= |all|
  {
    && (i == 0 ==> m == m0)
    && (i > 0 && !first ==> |m.accepted| < |m0.accepted| + i)
    && (i > 0 && m0.stat != SendIdle && !m0.armed ==>
          m.stat == SendIdle && m.accepted == m0.accepted + all[1..i])
    && (m0.stat == SendIdle && !first && !m0.armed ==> i == 0)
    && m0.log <= m.log
    && (m.armed <==> m0.armed && m.log == m0.log)
    && (first && i > 0 ==> m.who == CMD_SEND)
    && (first && !Interrupted(m0, m) ==> m.stat == SendIdle && m.accepted == m0.accepted + all[..i])
    && (first && Interrupted(m0, m) ==>
          i > 0 &&
          if m.stat == SendIdle then |m.accepted| < |m0.accepted| + i else m.accepted == m0.accepted + all[..i])
  }

  /** A reception has ended a wait. */
  predicate Interrupted(m0: Mark, m: Mark) {
    m0.armed && m.log != m0.log
  }

  lemma ProgressOn(m0: Mark, a: Mark, b: Mark, all: seq<Frame>, i: nat, first: bool, takes: bool, wake: Wake)
    requires i < |all| && Progress(m0, a, all, i, first) && Turn(a, b, all[i], takes, wake) && Good(wake)
    requires (first ==> takes) && (i == 0 ==> first == (m0.stat == SendIdle && takes))
    ensures Progress(m0, b, all, i + 1, first)
  {
    assert all[..i + 1] == all[..i] + [all[i]];
    if i > 0 {
      assert all[1..i + 1] == all[1..i] + [all[i]];
    }
  }

  /** A wait that does not end well leaves what has been accepted a row of whole chunks. */
  lemma ProgressEnds(m0: Mark, a: Mark, b: Mark, all: seq<Frame>, i: nat, first: bool, takes: bool, wake: Wake)
    requires i < |all| && Progress(m0, a, all, i, first) && Turn(a, b, all[i], takes, wake)
    requires (first ==> takes) && (i == 0 ==> first == (m0.stat == SendIdle && takes))
    ensures first && !m0.armed ==> b.accepted == m0.accepted + all[..i + 1] <= m0.accepted + all
    ensures m0.stat == SendIdle && !first && !m0.armed ==> !Good(wake) && b.accepted == m0.accepted
  {
    assert all[..i + 1] == all[..i] + [all[i]];
    assert all == all[..i + 1] + all[i + 1..];
  }

  /** With a transmitter that keeps up, a wait for a send that posts ends well. */
  lemma GoodTurn(a: Mark, b: Mark, f: Frame, takes: bool, wake: Wake)
    requires Turn(a, b, f, takes, wake) && !a.armed && (wake == Stay ==> b.stat == SendIdle)
    requires if a.stat == SendIdle then takes else a.who in POSTS
    ensures wake == Sent
  {
  }

  /** The first wait was ended by a reception: the second chunk is refused. */
  predicate LostSecond(m0: Mark, m: Mark, all: seq<Frame>, i: nat)
    requires 1 <= i <= |all|
  {
    && !m.armed && m.who == CMD_SEND
    && if i == 1 then m.stat != SendIdle && m.accepted == m0.accepted + all[..1]
       else m.stat == SendIdle && m.accepted == m0.accepted + all[..1] + all[2..i]
  }

  lemma LosesOn(m0: Mark, a: Mark, b: Mark, all: seq<Frame>, i: nat, wake: Wake)
    requires 1 <= i < |all| && LostSecond(m0, a, all, i) && Turn(a, b, all[i], true, wake) && Good(wake)
    ensures LostSecond(m0, b, all, i + 1)
  {
    if i >= 2 {
      assert all[2..i + 1] == all[2..i] + [all[i]];
    }
  }

  lemma LosesFrom(a: Mark, b: Mark, all: seq<Frame>, wake: Wake)
    requires all != [] && a.stat == SendIdle && Turn(a, b, all[0], true, wake) && wake.Received?
    ensures LostSecond(a, b, all, 1)
  {
    assert all[..1] == [all[0]];
  }

  /** Runs of a call, chunk by chunk. */
  lemma ReturnsOn(e: End, left: seq<Frame>, mid: End, wake: Wake, ok: bool, e2: End)
    requires e.node.Valid() && left != [] && left[0].payload != [] && Waits(Offered(e, left[0]), mid, wake)
    requires GoesOn(mid, left[1..], ok, e2, wake)
    ensures Returns(e, left, ok, e2)
  {
    hide Waits, Offered, GoesOn;
  }

  /** What the call has done, with `first` whether lsd_send takes the first chunk at the start. */
  predicate Outcome(m0: Mark, m: Mark, all: seq<Frame>, first: bool, ok: bool) {
    && (all == [] ==> ok && m == m0)
    && (ok && all != [] ==>
          (m.accepted == m0.accepted + all <==> first && (!Interrupted(m0, m) || m.stat != SendIdle)))
    && (ok && all != [] && m0.stat != SendIdle && !m0.armed ==> m.accepted == m0.accepted + all[1..])
    && (first && !m0.armed ==> m.accepted <= m0.accepted + all && (ok ==> m.stat == SendIdle))
    && (all != [] && m0.stat == SendIdle && !first && !m0.armed ==> !ok && m.accepted == m0.accepted)
  }

  lemma Starts(m0: Mark, all: seq<Frame>, first: bool)
    requires first ==> m0.stat == SendIdle
    ensures Progress(m0, m0, all, 0, first)
  {
    assert m0.accepted + all[..0] == m0.accepted;
  }

  lemma Succeeds(m0: Mark, m: Mark, all: seq<Frame>, first: bool)
    requires Progress(m0, m, all, |all|, first)
    ensures Outcome(m0, m, all, first, true)
  {
    assert all[..|all|] == all;
    if all != [] {
      assert all[1..|all|] == all[1..];
      assert |m0.accepted + all| == |m0.accepted| + |all|;
    }
  }

  lemma Fails(m0: Mark, a: Mark, b: Mark, all: seq<Frame>, i: nat, first: bool, takes: bool, wake: Wake)
    requires i < |all| && Progress(m0, a, all, i, first) && Turn(a, b, all[i], takes, wake) && !Good(wake)
    requires (first ==> takes) && (i == 0 ==> first == (m0.stat == SendIdle && takes))
    ensures Outcome(m0, b, all, first, false)
  {
    ProgressEnds(m0, a, b, all, i, first, takes, wake);
  }

  /** With time, and a transmitter that keeps up, waits go on to end well. */
  lemma KeepsUp(m0: Mark, a: Mark, b: Mark, all: seq<Frame>, i: nat, first: bool, wake: Wake)
    requires i < |all| && Progress(m0, a, all, i, first) && Turn(a, b, all[i], true, wake)
    requires !m0.armed && (wake == Stay ==> b.stat == SendIdle)
    requires if m0.stat == SendIdle then first else m0.who in POSTS
    ensures wake == Sent
  {
    GoodTurn(a, b, all[i], true, wake);
  }

  lemma KeepsLosing(m0: Mark, a: Mark, b: Mark, all: seq<Frame>, i: nat, wake: Wake)
    requires 1 <= i < |all| && LostSecond(m0, a, all, i) && Turn(a, b, all[i], true, wake)
    requires wake == Stay ==> b.stat == SendIdle
    ensures wake == Sent && LostSecond(m0, b, all, i + 1)
  {
    GoodTurn(a, b, all[i], true, wake);
    LosesOn(m0, a, b, all, i, wake);
  }

  /** A chunk further on: what the call may return from there it may return from the start. */
  lemma ReturnsFurther(e: End, all: seq<Frame>, i: nat, mid: End, wake: Wake)
    requires i < |all| && e.node.Valid() && all[i].payload != [] && Waits(Offered(e, all[i]), mid, wake)
    ensures Good(wake) ==> forall ok, e2 :: Returns(mid, all[i + 1..], ok, e2) ==> Returns(e, all[i..], ok, e2)
    ensures !Good(wake) ==> Returns(e, all[i..], false, mid)
  {
    hide Waits, Offered, Returns;
    var left := all[i..];
    assert left[0] == all[i] && left[1..] == all[i + 1..];
    if Good(wake) {
      forall ok, e2 | Returns(mid, all[i + 1..], ok, e2)
        ensures Returns(e, left, ok, e2)
      {
        ReturnsOn(e, left, mid, wake, ok, e2);
      }
    } else {
      ReturnsOn(e, left, mid, wake, false, mid);
    }
  }

  lemma ReturnsAtEnd(e: End)
    requires e.node.Valid()
    ensures Returns(e, [], true, e)
  {
  }

  // ------------------------------------------------------------- the call

  /** A call under way: how it started, and whether a send, or a frame that is to come, is known to
      end each wait well. */
  datatype Call = Call(m0: Mark, all: seq<Frame>, first: bool, sends: bool, loses: bool) {
    predicate Valid() {
      && (first ==> m0.stat == SendIdle)
      && (sends ==> !m0.armed && if m0.stat == SendIdle then first else m0.who in POSTS)
      && (loses ==> first)
    }

    predicate Going(m: Mark, i: nat)
      requires i <= |all|
    {
      Progress(m0, m, all, i, first) && (loses && i > 0 ==> LostSecond(m0, m, all, i))
    }
  }

  lemma CallTurn(c: Call, a: Mark, b: Mark, i: nat, takes: bool, wake: Wake)
    requires c.Valid() && i < |c.all| && c.Going(a, i) && Turn(a, b, c.all[i], takes, wake)
    requires (c.first ==> takes) && (i == 0 ==> c.first == (c.m0.stat == SendIdle && takes))
    requires c.sends || c.loses ==> takes && (wake == Stay ==> b.stat == SendIdle)
    requires c.loses && i == 0 ==> wake == Received(Complete)
    ensures if Good(wake) then c.Going(b, i + 1) else Outcome(c.m0, b, c.all, c.first, false) && !c.sends && !c.loses
  {
    hide LostSecond, Turn, Outcome;
    if c.sends {
      KeepsUp(c.m0, a, b, c.all, i, c.first, wake);
    }
    if c.loses && i > 0 {
      KeepsLosing(c.m0, a, b, c.all, i, wake);
    } else if c.loses {
      LosesFrom(c.m0, b, c.all, wake);
    }
    if Good(wake) {
      ProgressOn(c.m0, a, b, c.all, i, c.first, takes, wake);
    } else {
      Fails(c.m0, a, b, c.all, i, c.first, takes, wake);
    }
  }

  lemma CallStarts(c: Call)
    requires c.Valid()
    ensures c.Going(c.m0, 0)
  {
    Starts(c.m0, c.all, c.first);
  }

  lemma CallEnds(c: Call, m: Mark)
    requires c.Valid() && c.Going(m, |c.all|)
    ensures Outcome(c.m0, m, c.all, c.first, true)
    ensures c.loses && c.all != [] ==> LostSecond(c.m0, m, c.all, |c.all|)
  {
    hide LostSecond, Progress, Outcome;
    Succeeds(c.m0, m, c.all, c.first);
  }

  /** What may be returned from e with `left` to go may be returned from the start. */
  ghost predicate Continues(e0: End, all: seq<Frame>, e: End, left: seq<Frame>) {
    forall ok, e2 :: Returns(e, left, ok, e2) ==> Returns(e0, all, ok, e2)
  }

  lemma ContinuesOn(e0: End, all: seq<Frame>, i: nat, e: End, mid: End, wake: Wake)
    requires i < |all| && e.node.Valid() && all[i].payload != [] && Waits(Offered(e, all[i]), mid, wake)
    requires Continues(e0, all, e, all[i..])
    ensures if Good(wake) then Continues(e0, all, mid, all[i + 1..]) else Returns(e0, all, false, mid)
  {
    hide Waits, Offered, Returns;
    ReturnsFurther(e, all, i, mid, wake);
  }

  lemma ContinuesToEnd(e0: End, all: seq<Frame>, e: End)
    requires e.node.Valid() && Continues(e0, all, e, [])
    ensures Returns(e0, all, true, e)
  {
    ReturnsAtEnd(e);
  }
}
