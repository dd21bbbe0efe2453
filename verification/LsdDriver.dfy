/** lsd.c as it runs: module state updated byte by byte over a UART, callbacks run in place.
    Every method is tied to steps of LsdMachine, so what holds over all runs of the machine
    holds of this code. */
module LsdDriver {
  import opened Bytes
  import opened LsdFrames
  import opened LsdMachine

  const UART_TX_FIFO_LEN := 16

  /** The UART as lsd.c sees it. `inbox` is all the input still to be read, of which the first
      `arrived` bytes are in the chip; `line` is what has left the transmitter and `fifo` what
      still waits in it. */
  class Uart {
    var inbox: seq<byte>
    var arrived: nat
    var fifo: seq<byte>
    var line: seq<byte>

    // How many bytes leave the FIFO before each coming look at the transmitter, and how many
    // arrive before each at the receiver: as many as there are beyond the end of either list.
    var drains: seq<nat>
    var arrivals: seq<nat>

    ghost predicate Valid()
      reads this
    {
      |fifo| <= UART_TX_FIFO_LEN && arrived <= |inbox|
    }

    ghost function Written(): seq<byte>
      reads this
    {
      line + fifo
    }

    constructor (inbox: seq<byte>, drains: seq<nat>, arrivals: seq<nat>)
      ensures Valid() && this.inbox == inbox && Written() == []
      ensures this.drains == drains && this.arrivals == arrivals
    {
      this.inbox, arrived, fifo, line := inbox, 0, [], [];
      this.drains, this.arrivals := drains, arrivals;
    }

    /** More input may have arrived since the last look. */
    method RxReady() returns (ready: bool)
      requires Valid()
      modifies this`arrived, this`arrivals
      ensures Valid()
      ensures ready <==> arrived > 0
      ensures old(arrivals) == [] ==> arrivals == [] && (ready <==> inbox != [])
    {
      arrived := if arrivals == [] || arrived + arrivals[0] > |inbox| then |inbox| else arrived + arrivals[0];
      arrivals := if arrivals == [] then [] else arrivals[1..];
      ready := arrived > 0;
    }

    method GetC() returns (b: byte)
      requires Valid() && arrived > 0
      modifies this`inbox, this`arrived
      ensures Valid() && b == old(inbox)[0] && inbox == old(inbox)[1..]
    {
      b := inbox[0];
      inbox, arrived := inbox[1..], arrived - 1;
    }

    /** The transmitter may have drained any part of its FIFO; it is ready when it is empty. */
    method TxReady() returns (ready: bool)
      requires Valid()
      modifies this`fifo, this`line, this`drains
      ensures Valid() && Written() == old(Written())
      ensures ready <==> fifo == []
      ensures old(drains) == [] ==> drains == [] && ready
    {
      var k := if drains == [] || drains[0] > |fifo| then |fifo| else drains[0];
      drains := if drains == [] then [] else drains[1..];
      line := line + fifo[..k];
      fifo := fifo[k..];
      ready := fifo == [];
    }

    /** Calling this with a full FIFO would lose the byte. */
    method PutC(b: byte)
      requires Valid() && |fifo| < UART_TX_FIFO_LEN
      modifies this`fifo
      ensures Valid() && fifo == old(fifo) + [b] && Written() == old(Written()) + [b]
    {
      fifo := fifo + [b];
    }
  }

  class Lsd {
    const uart: Uart

    // send_data
    var txStat: SendStat
    var txCh: nat
    var txBuf: seq<byte>
    var txTotal: nat
    var txPos: nat
    var txWho: nat

    // recv_data; rxBuf.Length is `max`
    var rxStat: RecvStat
    var rxCh: nat
    var rxFrameLen: nat
    var rxPos: nat
    var rxBuf: array<byte>
    var rxWho: nat

    var chEnable: set<nat>

    // The API calls each coming callback will make, in order. Callbacks beyond the list make none.
    var callbacks: seq<seq<Action>>
    // The callbacks, by `who`, that end in loop_post.
    const posts: set<nat>

    ghost var accepted: seq<Frame>
    ghost var log: seq<Event>
    ghost var sent: seq<nat>

    // What this endpoint has done since it was made.
    ghost const start: End
    ghost var trace: seq<Action>

    ghost function Transmitter(): Tx
      reads this
    {
      Tx(txStat, txCh, txBuf, txTotal, txPos, txWho)
    }

    function Receiver(): Rx
      reads this, rxBuf
    {
      Rx(rxStat, rxCh, rxFrameLen, rxPos, rxBuf[..], rxWho)
    }

    ghost function View(): End
      reads this, uart, rxBuf
    {
      End(Node(Transmitter(), Receiver(), chEnable, accepted, log, sent), uart.inbox, uart.Written())
    }

    ghost predicate Valid()
      reads this, uart, rxBuf
    {
      && uart.Valid()
      && View().node.Valid()
      && CanRun(start, trace)
      && View() == Run(start, trace)
    }

    /** lsd_init */
    constructor (uart: Uart, callbacks: seq<seq<Action>>, posts: set<nat>)
      requires uart.Valid()
      ensures Valid() && this.uart == uart && this.callbacks == callbacks && this.posts == posts && trace == []
      ensures View() == End(IDLE_NODE, uart.inbox, uart.Written()) && fresh(rxBuf)
    {
      this.uart := uart;
      txStat, txCh, txBuf, txTotal, txPos, txWho := SendIdle, 0, [], 0, 0, 0;
      rxStat, rxCh, rxFrameLen, rxPos, rxWho := RecvIdle, 0, 0, 0, 0;
      rxBuf := new byte[0];
      chEnable, this.callbacks, this.posts := {}, callbacks, posts;
      accepted, log, sent, trace := [], [], [], [];
      start := End(IDLE_NODE, uart.inbox, uart.line + uart.fifo);
      new;
      assert rxBuf[..] == [];
    }

    // ------------------------------------------------------------- reception

    method RecvAdd(b: byte) returns (called: bool)
      requires rxPos < rxBuf.Length
      modifies this`rxPos, this`rxStat, this`rxFrameLen, this`log, rxBuf
      ensures (Receiver(), log) ==
              var (rx, events) := LsdMachine.RecvAdd(old(Receiver()), b); (rx, old(log) + events)
      ensures called <==> log != old(log)
    {
      rxBuf[rxPos] := b;
      rxPos := rxPos + 1;
      called := false;
      assert old(log) + [] == old(log);
      if rxPos >= rxFrameLen {
        rxStat := RecvEtx;
      } else if rxPos >= rxBuf.Length {
        rxFrameLen := rxFrameLen - rxPos;
        rxStat := RecvPartial;
        log := log + [Delivered(rxCh, rxBuf[..][..rxPos], false)];
        called := true;
      }
    }

    /** The switch of process_recv. `called` is whether it ends in the reception callback, and
        `status` what that is told. */
    method HandleByte(b: byte) returns (called: bool, status: Status)
      requires Receiver().Valid()
      modifies this`rxStat, this`rxCh, this`rxFrameLen, this`rxPos, this`log, rxBuf
      ensures (Receiver(), log) ==
              var (rx, events) := RecvByte(old(Receiver()), chEnable, b); (rx, old(log) + events)
      ensures called <==> log != old(log)
      ensures called ==> status == StatusOf(log[|log| - 1])
    {
      called, status := false, Busy;
      assert old(log) + [] == old(log);
      match rxStat {
        case RecvStx =>
          if b == STX_ETX {
            rxStat := RecvChLenH;
          }
        case RecvChLenH =>
          if b != STX_ETX {
            rxCh := b / 16;
            rxFrameLen := b % 16 * 256;
            if rxCh >= MAX_CH || rxCh !in chEnable {
              called, status := RecvError(ErrInvalidCh);
            } else {
              rxStat := RecvLen;
            }
          }
        case RecvLen =>
          rxFrameLen := rxFrameLen + b;
          rxPos := 0;
          if rxFrameLen != 0 {
            rxStat := RecvData;
          } else {
            rxStat := RecvEtx;
          }
        case RecvData =>
          called := RecvAdd(b);
          status := Complete;
        case RecvEtx =>
          if b == STX_ETX {
            rxStat := RecvIdle;
            log := log + [Delivered(rxCh, rxBuf[..][..rxPos], true)];
            called, status := true, Complete;
          } else {
            called, status := RecvError(ErrFraming);
          }
        case _ =>
          called, status := RecvError(Error);
      }
    }

    method RecvError(error: Status) returns (called: bool, status: Status)
      modifies this`rxStat, this`log
      ensures rxStat == RecvIdle && log == old(log) + [Failed(error)] && called && status == error
    {
      rxStat := RecvIdle;
      log := log + [Failed(error)];
      called, status := true, error;
    }

    // ---------------------------------------------------------- transmission

    /** The switch of process_send. `called` is whether it ends in the completion callback. */
    method EmitByte() returns (called: bool)
      requires Transmitter().Valid() && txStat != SendIdle
      requires uart.Valid() && |uart.fifo| < UART_TX_FIFO_LEN
      modifies this`txStat, this`txPos, this`sent, uart`fifo
      ensures uart.Valid() && |uart.fifo| == old(|uart.fifo|) + 1
      ensures var (b, tx) := SendByte(old(Transmitter()));
              Transmitter() == tx && uart.Written() == old(uart.Written()) + [b] &&
              sent == (if tx.stat == SendIdle then old(sent) + [txWho] else old(sent))
      ensures called <==> txStat == SendIdle
    {
      match txStat {
        case SendStx =>
          uart.PutC(STX_ETX);
          txStat := SendChLenH;
        case SendChLenH =>
          uart.PutC(ChLenH(txCh, txTotal));
          txStat := SendLen;
        case SendLen =>
          uart.PutC(LenL(txTotal));
          txStat := SendData;
        case SendData =>
          uart.PutC(txBuf[txPos]);
          txPos := txPos + 1;
          if txPos >= txTotal {
            txStat := SendEtx;
          }
        case SendEtx =>
          uart.PutC(STX_ETX);
          txStat := SendIdle;
          sent := sent + [txWho];
      }
      called := txStat == SendIdle;
    }

    // --------------------------------------------------------------- the API

    /** Adds to the history a step that has just been taken. */
    ghost method Record(before: End, act: Action)
      requires uart.Valid() && CanRun(start, trace) && before == Run(start, trace)
      requires CanStep(before, act) && View() == Step(before, act)
      modifies this`trace
      ensures Valid() && trace == old(trace) + [act] && View() == old(View())
    {
      hide Step, CanStep;
      RunOneMore(start, trace, act);
      trace := trace + [act];
    }

    /** lsd_send */
    method StartSend(ch: nat, data: seq<byte>, len: nat, who: nat) returns (status: Status)
      requires Readable(data, len)
      modifies this`txStat, this`txCh, this`txBuf, this`txTotal, this`txPos, this`txWho, this`accepted
      ensures status == SendStatus(old(Transmitter()), chEnable, ch, len)
      ensures status == Busy <==> old(txStat) == SendIdle && ch < 4 && ch in chEnable && len <= 4095
      ensures status == ErrInProgress <==> old(txStat) != SendIdle
      ensures status == ErrInvalidCh <==> old(txStat) == SendIdle && !(ch < 4 && ch in chEnable)
      ensures status in {Busy, ErrInProgress, ErrInvalidCh, ErrFrameTooLong}
      ensures Transmitter() == if status == Busy then Tx(SendStx, ch, data, len, 0, who) else old(Transmitter())
      ensures accepted == if status == Busy then old(accepted) + [Frame(ch, data[..len])] else old(accepted)
    {
      if txStat != SendIdle {
        status := ErrInProgress;
      } else if ch >= MAX_CH || ch !in chEnable {
        status := ErrInvalidCh;
      } else if len > MAX_LEN {
        status := ErrFrameTooLong;
      } else {
        txCh, txBuf, txTotal, txWho, txPos := ch, data, len, who, 0;
        txStat := SendStx;
        accepted := accepted + [Frame(ch, data[..len])];
        status := Busy;
      }
    }

    /** lsd_recv */
    method Arm(buf: array<byte>, who: nat) returns (status: Status)
      modifies this`rxStat, this`rxPos, this`rxBuf, this`rxWho
      ensures rxBuf == old(rxBuf) || rxBuf == buf
      ensures (status, Receiver()) == LsdMachine.Arm(old(Receiver()), buf[..], who)
      ensures status == if buf.Length <= 4095 then Busy else ErrFrameTooLong
      ensures status == Busy ==>
                && rxBuf == buf && rxWho == who
                && rxStat == (match old(rxStat) case RecvIdle => RecvStx case RecvPartial => RecvData case s => s)
                && rxPos == if old(rxStat) == RecvPartial then 0 else old(rxPos)
      ensures status != Busy ==> Receiver() == old(Receiver())
    {
      if buf.Length >= MAX_LEN + 1 {
        return ErrFrameTooLong;
      }
      if rxStat == RecvIdle {
        rxStat := RecvStx;
      } else if rxStat == RecvPartial {
        rxPos := 0;
        rxStat := RecvData;
      }
      rxBuf, rxWho := buf, who;
      status := Busy;
    }

    method Send(ch: nat, data: seq<byte>, len: nat, who: nat) returns (status: Status)
      requires Valid() && Readable(data, len)
      modifies this
      ensures Valid() && callbacks == old(callbacks) && rxBuf == old(rxBuf)
      ensures trace == old(trace) + [Action.Send(ch, data, len, who)]
      ensures status == SendStatus(old(Transmitter()), old(chEnable), ch, len) && chEnable == old(chEnable)
      ensures Transmitter() == if status == Busy then Tx(SendStx, ch, data, len, 0, who) else old(Transmitter())
      ensures accepted == if status == Busy then old(accepted) + [Frame(ch, data[..len])] else old(accepted)
      ensures View() == Step(old(View()), Action.Send(ch, data, len, who))
      ensures Prompt() == old(Prompt()) && ToCome() == old(ToCome())
    {
      ghost var before := View();
      status := StartSend(ch, data, len, who);
      Record(before, Action.Send(ch, data, len, who));
    }

    method Recv(buf: array<byte>, who: nat) returns (status: Status)
      requires Valid() && CanArm(Receiver(), buf[..])
      modifies this
      ensures Valid() && callbacks == old(callbacks) && (rxBuf == old(rxBuf) || rxBuf == buf)
      ensures trace == old(trace) + [Action.Recv(buf[..], who)]
      ensures (status, Receiver()) == LsdMachine.Arm(old(Receiver()), buf[..], who)
      ensures View() == Step(old(View()), Action.Recv(buf[..], who))
      ensures Transmitter() == old(Transmitter()) && accepted == old(accepted) && chEnable == old(chEnable)
    {
      ghost var before := View();
      status := Arm(buf, who);
      Record(before, Action.Recv(buf[..], who));
    }

    /** lsd_ch_enable and lsd_ch_disable */
    method SetChannel(ch: nat, on: bool) returns (status: Status)
      requires Valid()
      modifies this
      ensures Valid() && callbacks == old(callbacks) && rxBuf == old(rxBuf)
      ensures trace == old(trace) + [if on then Enable(ch) else Disable(ch)]
      ensures status == if ch >= MAX_CH then Error else Complete
      ensures chEnable == if ch >= MAX_CH then old(chEnable) else if on then old(chEnable) + {ch} else old(chEnable) - {ch}
      ensures View() == Step(old(View()), if on then Enable(ch) else Disable(ch))
    {
      ghost var before := View();
      if ch >= MAX_CH {
        status := Error;
      } else {
        chEnable := if on then chEnable + {ch} else chEnable - {ch};
        status := Complete;
      }
      Record(before, if on then Enable(ch) else Disable(ch));
    }

    /** One call from a callback. A call its state does not admit (a buffer that loses what a
        frame has brought so far, an unreadable pointer) is not made. */
    method Call(act: Action)
      requires Valid() && !act.Transmit? && !act.Receive?
      modifies this
      ensures Valid() && callbacks == old(callbacks) && (rxBuf == old(rxBuf) || fresh(rxBuf))
      ensures trace == old(trace) + if CanStep(old(View()), act) then [act] else []
    {
      LooksAtRun();
      hide Valid;
      match act {
        case Send(ch, data, len, who) =>
          if Readable(data, len) {
            var _ := Send(ch, data, len, who);
          }
        case Recv(buf, who) =>
          var store := new byte[|buf|](i requires 0 <= i < |buf| => buf[i]);
          assert store[..] == buf;
          if CanArm(Receiver(), buf) {
            var _ := Recv(store, who);
          }
        case Enable(ch) =>
          var _ := SetChannel(ch, true);
        case Disable(ch) =>
          var _ := SetChannel(ch, false);
      }
    }

    // ------------------------------------------------------------ lsd_process

    ghost function Look(): Seen
      reads this
    {
      Seen(callbacks, accepted, chEnable, txWho, txStat, sent, rxWho, rxStat != RecvPartial && rxStat != RecvIdle, log, trace)
    }

    lemma LooksAtRun()
      requires Valid()
      ensures View().node.Valid() && CanRun(start, trace) && Run(start, trace) == View() && Shows(Look(), View().node)
    {
    }

    method DropCallback()
      requires Valid() && callbacks != [] && OnlyCalls(callbacks)
      modifies this`callbacks
      ensures Valid() && OnlyCalls(callbacks) && callbacks == old(callbacks)[1..] && View() == old(View())
    {
      callbacks := callbacks[1..];
    }

    /** The callback at the head of the list makes its calls. `posted` is whether it then leaves
        lsd_process by loop_post. */
    method RunCallback(who: nat) returns (posted: bool)
      requires Valid() && OnlyCalls(callbacks)
      modifies this
      ensures posted <==> who in posts
      ensures Valid() && OnlyCalls(callbacks) && (rxBuf == old(rxBuf) || fresh(rxBuf))
      ensures old(callbacks) == [] ==> callbacks == [] && trace == old(trace) && unchanged(this)
      ensures old(callbacks) != [] ==>
                && callbacks == old(callbacks)[1..]
                && trace == old(trace) + CallsMade(old(View()), old(callbacks)[0])
      ensures old(trace) <= trace
    {
      if callbacks != [] {
        hide CanRun, Run, CanStep, CallsMade, View, Valid;
        var calls := callbacks[0];
        ghost var before := View();
        DropCallback();
        NoCallsYet(before, calls, trace);
        for i := 0 to |calls|
          invariant Valid() && callbacks == old(callbacks)[1..] && (rxBuf == old(rxBuf) || fresh(rxBuf))
          invariant trace == old(trace) + CallsMade(before, calls[..i])
        {
          LooksAtRun();
          OneMoreCall(start, old(trace), before, calls, i);
          Call(calls[i]);
        }
        assert calls[..|calls|] == calls;
      }
      posted := who in posts;
    }

    /** Bytes the current send has yet to emit. */
    ghost function ToEmit(): nat
      reads this
    {
      LeftOf(Transmitter())
    }

    /** The first callback the input to come brings about. */
    ghost function ToCome(): seq<Event>
      reads this, uart, rxBuf
      requires Valid()
    {
      FirstEvent(Receiver(), chEnable, uart.inbox)
    }

    /** All input to come is there, and the first callback it brings about ends in loop_post. */
    ghost predicate Prompt()
      reads this, uart
    {
      uart.arrivals == [] && callbacks == [] && rxWho in posts
    }

    /** process_recv up to the callback. */
    method ReceiveStep() returns (called: bool, status: Status)
      requires Valid() && Receiver().Active() && uart.arrived > 0
      modifies this, uart`inbox, uart`arrived, rxBuf
      ensures Valid() && rxBuf == old(rxBuf) && old(uart.inbox) != [] && uart.inbox == old(uart.inbox)[1..]
      ensures Transmitter() == old(Transmitter()) && ReceivedOne(old(Look()), Look(), called, status)
      ensures Expects(old(ToCome()), ToCome(), if called then Received(status) else Stay)
    {
      hide CanRun, Run;
      ghost var before := View();
      EventStops(Receiver(), chEnable, uart.inbox[0]);
      FirstEventOn(Receiver(), chEnable, uart.inbox);
      hide FirstEvent, RecvByte;
      var b := uart.GetC();
      called, status := HandleByte(b);
      assert View() == Step(before, Receive);
      Record(before, Receive);
    }

    method ProcessRecv() returns (wake: Wake)
      requires Valid() && OnlyCalls(callbacks)
      requires Receiver().Active() && uart.arrived > 0
      modifies this, uart`inbox, uart`arrived, rxBuf
      ensures Valid() && OnlyCalls(callbacks) && (rxBuf == old(rxBuf) || fresh(rxBuf))
      ensures old(uart.arrivals) == uart.arrivals && old(uart.inbox) != [] && uart.inbox == old(uart.inbox)[1..]
      ensures old(trace) + [Receive] <= trace && OnlyBytesMoved(old(Look()), Look(), posts, wake)
      ensures old(Prompt()) ==> Transmitter() == old(Transmitter())
      ensures old(Prompt()) ==> Prompt() && Expects(old(ToCome()), ToCome(), wake)
      ensures |callbacks| < |old(callbacks)| || (callbacks == old(callbacks) && ToEmit() == old(ToEmit()))
    {
      hide OnlyBytesMoved, OnlyCalls, Valid, LeftOf, FirstEvent;
      wake := Stay;
      ghost var was := Look();
      var called, status := ReceiveStep();
      ghost var now := Look();
      if called {
        var posted := RunCallback(rxWho);
        if posted {
          wake := Received(status);
        }
      }
      ReceivedMoved(was, now, Look(), called, status, posts, wake);
    }

    /** process_send up to the callback. */
    method TransmitStep() returns (called: bool)
      requires Valid() && txStat != SendIdle && |uart.fifo| < UART_TX_FIFO_LEN
      modifies this, uart`fifo
      ensures Valid() && rxBuf == old(rxBuf) && Receiver() == old(Receiver())
      ensures |uart.fifo| == old(|uart.fifo|) + 1 && |uart.Written()| == |old(uart.Written())| + 1
      ensures LeftOf(Transmitter()) < LeftOf(old(Transmitter()))
      ensures SentOne(old(Look()), Look(), called)
    {
      hide CanRun, Run;
      ghost var before := View();
      called := EmitByte();
      assert View() == Step(before, Transmit);
      RestShrinks(before.node.tx);
      Record(before, Transmit);
    }

    method ProcessSend() returns (wake: Wake)
      requires Valid() && OnlyCalls(callbacks)
      requires txStat != SendIdle && |uart.fifo| < UART_TX_FIFO_LEN
      modifies this, uart`fifo
      ensures Valid() && OnlyCalls(callbacks) && (rxBuf == old(rxBuf) || fresh(rxBuf))
      ensures |uart.fifo| == old(|uart.fifo|) + 1 && |uart.Written()| == |old(uart.Written())| + 1
      ensures old(trace) + [Transmit] <= trace && OnlyBytesMoved(old(Look()), Look(), posts, wake)
      ensures !wake.Received? && (old(Prompt()) ==> Prompt() && ToCome() == old(ToCome()))
      ensures |callbacks| < |old(callbacks)| || (callbacks == old(callbacks) && ToEmit() < old(ToEmit()))
    {
      hide OnlyBytesMoved, OnlyCalls, Valid, LeftOf, FirstEvent;
      wake := Stay;
      ghost var was := Look();
      var called := TransmitStep();
      ghost var now := Look();
      if called {
        var posted := RunCallback(txWho);
        if posted {
          wake := Sent;
        }
      }
      SentMoved(was, now, Look(), called, posts, wake);
    }

    /** d.rx.stat > LSD_RECV_IDLE && uart_rx_ready() */
    method RecvReady() returns (ready: bool)
      requires Valid()
      modifies uart`arrived, uart`arrivals
      ensures Valid() && View() == old(View()) && ToCome() == old(ToCome())
      ensures ready <==> Receiver().Active() && uart.arrived > 0
      ensures old(uart.arrivals) == [] ==> uart.arrivals == []
      ensures old(Prompt()) ==> Prompt() && (!ready ==> ToCome() == [])
    {
      ready := false;
      if Receiver().Active() {
        ready := uart.RxReady();
      }
    }

    /** d.tx.stat > LSD_SEND_IDLE && uart_tx_ready() */
    method SendReady() returns (ready: bool)
      requires Valid()
      modifies uart`fifo, uart`line, uart`drains
      ensures Valid() && View() == old(View()) && ToCome() == old(ToCome())
      ensures ready <==> txStat != SendIdle && uart.fifo == []
      ensures old(uart.drains) == [] ==> uart.drains == [] && (ready <==> txStat != SendIdle)
      ensures old(Prompt()) ==> Prompt()
    {
      ready := false;
      if txStat != SendIdle {
        ready := uart.TxReady();
      }
    }

    /** lsd_process. It terminates whatever the callbacks do, as long as only finitely many of
        them make calls: each round moves a byte or uses up a callback. At most 16 bytes are
        written for one look at the transmitter, so none is lost, even when a completion
        callback starts the next send in the middle of the burst. Unless a callback leaves it by
        loop_post, it stops only when there is nothing to read that may be read and nothing to
        write that can be written; with a transmitter that keeps up, the send is then over. */
    method Process() returns (wake: Wake)
      requires Valid() && OnlyCalls(callbacks)
      modifies this, uart, rxBuf
      ensures Valid() && OnlyCalls(callbacks) && (rxBuf == old(rxBuf) || fresh(rxBuf))
      ensures old(trace) <= trace && OnlyBytesMoved(old(Look()), Look(), posts, wake)
      ensures wake == Stay ==> !(Receiver().Active() && uart.arrived > 0) && !(txStat != SendIdle && uart.fifo == [])
      ensures old(uart.drains) == [] ==> uart.drains == [] && (wake == Stay ==> txStat == SendIdle)
      ensures old(uart.arrivals) == [] ==> uart.arrivals == []
      ensures old(Prompt()) ==>
                && Answers(old(ToCome()), wake, Transmitter() == old(Transmitter()))
                && (wake == Stay ==> Prompt() && ToCome() == [] == old(ToCome()))
    {
      hide Valid, OnlyCalls, ToEmit, OnlyBytesMoved, View, Receiver, Transmitter, Uart.Valid, Uart.Written, ToCome, Prompt;
      NothingMoved(Look(), posts);
      var active := true;
      wake := Stay;
      while active && wake == Stay
        invariant Valid() && OnlyCalls(callbacks) && (rxBuf == old(rxBuf) || fresh(rxBuf))
        invariant old(trace) <= trace && OnlyBytesMoved(old(Look()), Look(), posts, wake)
        invariant active || wake != Stay || (!(Receiver().Active() && uart.arrived > 0) && !(txStat != SendIdle && uart.fifo == []))
        invariant old(uart.drains) == [] ==> uart.drains == [] && (active || wake != Stay || txStat == SendIdle)
        invariant old(uart.arrivals) == [] ==> uart.arrivals == []
        invariant old(Prompt()) && wake != Stay ==> Answers(old(ToCome()), wake, Transmitter() == old(Transmitter()))
        invariant old(Prompt()) && wake == Stay ==>
                    Prompt() && ToCome() == old(ToCome()) && (ToCome() != [] ==> active && Transmitter() == old(Transmitter()))
        decreases |callbacks|, |uart.inbox| + ToEmit(), active
      {
        ghost var before := Look();
        active, wake := Round();
        OnlyBytesOn(old(Look()), before, Look(), posts, wake);
      }
    }

    /** One round of lsd_process. */
    method Round() returns (active: bool, wake: Wake)
      requires Valid() && OnlyCalls(callbacks)
      modifies this, uart, rxBuf
      ensures Valid() && OnlyCalls(callbacks) && (rxBuf == old(rxBuf) || fresh(rxBuf))
      ensures old(trace) <= trace && OnlyBytesMoved(old(Look()), Look(), posts, wake)
      ensures wake == Stay && !active ==>
                !(Receiver().Active() && uart.arrived > 0) && !(txStat != SendIdle && uart.fifo == [])
      ensures active ==>
                |callbacks| < |old(callbacks)| ||
                (callbacks == old(callbacks) && |uart.inbox| + ToEmit() < |old(uart.inbox)| + old(ToEmit()))
      ensures !active ==> callbacks == old(callbacks) && uart.inbox == old(uart.inbox) && ToEmit() == old(ToEmit())
      ensures old(uart.drains) == [] ==> uart.drains == [] && (wake == Stay && !active ==> txStat == SendIdle)
      ensures old(uart.arrivals) == [] ==> uart.arrivals == []
      ensures old(Prompt()) ==> Answers(old(ToCome()), wake, Transmitter() == old(Transmitter()))
      ensures old(Prompt()) && wake == Stay ==> Prompt() && ToCome() == [] == old(ToCome())
    {
      hide Valid, OnlyCalls, ToEmit, OnlyBytesMoved, View, Receiver, Transmitter, Uart.Valid, Uart.Written, ToCome, Prompt;
      NothingMoved(Look(), posts);
      active, wake := false, Stay;
      var ready := RecvReady();
      if ready {
        active := true;
        wake := Drain();
        if wake != Stay {
          return;
        }
      }
      ready := SendReady();
      if ready {
        active := true;
        ghost var before := Look();
        wake := Burst();
        OnlyBytesOn(old(Look()), before, Look(), posts, wake);
      }
    }

    /** The receiving loop of one round. */
    method Drain() returns (wake: Wake)
      requires Valid() && OnlyCalls(callbacks) && Receiver().Active() && uart.arrived > 0
      modifies this, uart`inbox, uart`arrived, uart`arrivals, rxBuf
      ensures Valid() && OnlyCalls(callbacks) && (rxBuf == old(rxBuf) || fresh(rxBuf))
      ensures old(trace) <= trace && OnlyBytesMoved(old(Look()), Look(), posts, wake)
      ensures old(Prompt()) ==> Transmitter() == old(Transmitter())
      ensures old(uart.arrivals) == [] ==> uart.arrivals == []
      ensures old(Prompt()) ==> Prompt() && Expects(old(ToCome()), ToCome(), wake) && (wake == Stay ==> ToCome() == [])
      ensures |callbacks| < |old(callbacks)| ||
              (callbacks == old(callbacks) && |uart.inbox| < |old(uart.inbox)| && ToEmit() == old(ToEmit()))
    {
      hide Valid, Uart.Valid, Prompt, OnlyCalls, ToEmit, OnlyBytesMoved, View, Receiver, Transmitter, Uart.Written, ToCome, Expects;
      var ready := true;
      wake := ProcessRecv();
      while ready && wake == Stay
        invariant Valid() && OnlyCalls(callbacks) && (rxBuf == old(rxBuf) || fresh(rxBuf))
        invariant old(trace) <= trace && OnlyBytesMoved(old(Look()), Look(), posts, wake)
        invariant old(Prompt()) ==> Transmitter() == old(Transmitter())
        invariant old(uart.arrivals) == [] ==> uart.arrivals == []
        invariant old(Prompt()) ==> Prompt() && Expects(old(ToCome()), ToCome(), wake) && (!ready ==> ToCome() == [])
        invariant |uart.inbox| < |old(uart.inbox)|
        invariant |callbacks| < |old(callbacks)| || (callbacks == old(callbacks) && ToEmit() == old(ToEmit()))
        decreases |uart.inbox|, ready
      {
        ready := RecvReady();
        if ready {
          ghost var before := Look();
          ghost var toCome := ToCome();
          wake := ProcessRecv();
          OnlyBytesOn(old(Look()), before, Look(), posts, wake);
          if old(Prompt()) {
            ExpectsOn(old(ToCome()), toCome, ToCome(), wake);
          }
        }
      }
    }

    /** The sending loop of one round. */
    method Burst() returns (wake: Wake)
      requires Valid() && OnlyCalls(callbacks) && txStat != SendIdle && uart.fifo == []
      modifies this, uart`fifo
      ensures Valid() && OnlyCalls(callbacks) && (rxBuf == old(rxBuf) || fresh(rxBuf))
      ensures old(trace) <= trace && OnlyBytesMoved(old(Look()), Look(), posts, wake)
      ensures |uart.Written()| <= |old(uart.Written())| + 16
      ensures !wake.Received? && (old(Prompt()) ==> Prompt() && ToCome() == old(ToCome()))
      ensures |callbacks| < |old(callbacks)| || (callbacks == old(callbacks) && ToEmit() < old(ToEmit()))
    {
      hide OnlyCalls, ToEmit, OnlyBytesMoved, ToCome, View, Receiver;
      NothingMoved(Look(), posts);
      wake := Stay;
      var i := 0;
      while i < UART_TX_FIFO_LEN && txStat != SendIdle && wake == Stay
        invariant 0 <= i <= UART_TX_FIFO_LEN && |uart.fifo| == i && |uart.Written()| == |old(uart.Written())| + i
        invariant Valid() && OnlyCalls(callbacks) && (rxBuf == old(rxBuf) || fresh(rxBuf))
        invariant old(trace) <= trace && OnlyBytesMoved(old(Look()), Look(), posts, wake)
        invariant !wake.Received? && (old(Prompt()) ==> Prompt() && ToCome() == old(ToCome()))
        invariant i > 0 ==> |callbacks| < |old(callbacks)| || (callbacks == old(callbacks) && ToEmit() < old(ToEmit()))
        invariant i == 0 ==> callbacks == old(callbacks) && ToEmit() == old(ToEmit()) && txStat == old(txStat) && wake == Stay
      {
        ghost var before := Look();
        wake := ProcessSend();
        OnlyBytesOn(old(Look()), before, Look(), posts, wake);
        i := i + 1;
      }
    }
  }

  /** Those of the calls that are made, one after the other, by a callback that runs in e. */
  function CallsMade(e: End, calls: seq<Action>): seq<Action> {
    if calls == [] then []
    else
      var made, call := CallsMade(e, calls[..|calls| - 1]), calls[|calls| - 1];
      if CanRun(e, made) && CanStep(Run(e, made), call) then made + [call] else made
  }

  lemma NoCallsYet(e: End, calls: seq<Action>, trace: seq<Action>)
    ensures trace + CallsMade(e, calls[..0]) == trace
  {
  }

  lemma OneMoreCall(start: End, before: seq<Action>, e: End, calls: seq<Action>, i: nat)
    requires i < |calls| && CanRun(start, before) && Run(start, before) == e
    requires CanRun(start, before + CallsMade(e, calls[..i]))
    ensures var now := Run(start, before + CallsMade(e, calls[..i]));
            before + CallsMade(e, calls[..i + 1]) ==
            before + CallsMade(e, calls[..i]) + if CanStep(now, calls[i]) then [calls[i]] else []
  {
    hide CanStep, Run, CanRun;
    var made := CallsMade(e, calls[..i]);
    RunSplit(start, before, made);
    assert calls[..i + 1][..i] == calls[..i];
    assert before + (made + [calls[i]]) == before + made + [calls[i]];
    assert before + made + [] == before + made;
  }

  /** What lsd_process leaves alone, what it changes that others rely on, and its history. */
  datatype Seen = Seen(
    callbacks: seq<seq<Action>>, accepted: seq<Frame>, enabled: set<nat>, who: nat, stat: SendStat, sent: seq<nat>,
    rxWho: nat, active: bool, log: seq<Event>, trace: seq<Action>)

  predicate Shows(s: Seen, n: Node) {
    s.who == n.tx.who && s.stat == n.tx.stat && s.rxWho == n.rx.who && s.log == n.log && s.enabled == n.enabled && s.accepted == n.accepted
  }

  /** With no callback making calls, only bytes move: frames are neither accepted nor channels
      changed, the send in progress, if any, completes at most once, and so does the reception.
      `wake` tells whether a callback that posts was called. */
  predicate OnlyBytesMoved(was: Seen, now: Seen, posts: set<nat>, wake: Wake) {
    was.callbacks == [] ==>
      && now.callbacks == [] && now.accepted == was.accepted && now.enabled == was.enabled
      && now.who == was.who && now.rxWho == was.rxWho
      && (was.stat == SendIdle ==> now.stat == SendIdle)
      && now.sent == (if was.stat != SendIdle && now.stat == SendIdle then was.sent + [now.who] else was.sent)
      && (now.active ==> was.active && now.log == was.log)
      && (now.log != was.log ==> was.active && |now.log| == |was.log| + 1 && was.log <= now.log)
      && OnlyBytes(was.trace, now.trace)
      && Woken(was, now, posts, wake)
  }

  predicate Woken(was: Seen, now: Seen, posts: set<nat>, wake: Wake) {
    && (wake.Sent? <==> was.who in posts && was.stat != SendIdle && now.stat == SendIdle)
    && (wake.Received? <==> was.rxWho in posts && now.log != was.log)
    && (wake.Received? ==> now.log != [] && wake.status == StatusOf(now.log[|now.log| - 1]))
  }

  predicate OnlyBytes(was: seq<Action>, now: seq<Action>) {
    was <= now && forall i :: |was| <= i < |now| ==> now[i].Transmit? || now[i].Receive?
  }

  /** A byte brings about the event that was to come, or leaves it to come. */
  predicate Expects(before: seq<Event>, after: seq<Event>, wake: Wake) {
    if wake == Stay then after == before else before != [] && wake == Received(StatusOf(before[0]))
  }

  /** If a reception event is to come, that is what wakes the caller, before anything is sent; if
      none is, something else does. */
  predicate Answers(toCome: seq<Event>, wake: Wake, nothingSent: bool) {
    if toCome == [] then !wake.Received? else wake == Received(StatusOf(toCome[0])) && nothingSent
  }

  lemma ExpectsOn(a: seq<Event>, b: seq<Event>, c: seq<Event>, wake: Wake)
    requires Expects(a, b, Stay) && Expects(b, c, wake)
    ensures Expects(a, c, wake)
  {
  }

  /** A byte was read, and if `called` the reception callback is due. */
  predicate ReceivedOne(was: Seen, now: Seen, called: bool, status: Status) {
    && was.active && now == was.(active := now.active, log := now.log, trace := was.trace + [Receive])
    && (if called then was.log < now.log && |now.log| == |was.log| + 1 && status == StatusOf(now.log[|was.log|]) && !now.active
        else now.log == was.log)
  }

  /** A byte was written, and if `called` the completion callback is due. */
  predicate SentOne(was: Seen, now: Seen, called: bool) {
    && was.stat != SendIdle && now == was.(stat := now.stat, sent := now.sent, trace := was.trace + [Transmit])
    && (called <==> now.stat == SendIdle)
    && now.sent == if called then was.sent + [was.who] else was.sent
  }

  lemma NothingMoved(s: Seen, posts: set<nat>)
    ensures OnlyBytesMoved(s, s, posts, Stay)
  {
  }

  /** A callback may do more, but not if it makes no calls. */
  lemma ReceivedMoved(was: Seen, now: Seen, then_: Seen, called: bool, status: Status, posts: set<nat>, wake: Wake)
    requires ReceivedOne(was, now, called, status) && (was.callbacks == [] ==> then_ == now)
    requires wake == if called && was.rxWho in posts then Received(status) else Stay
    ensures OnlyBytesMoved(was, then_, posts, wake)
  {
  }

  lemma SentMoved(was: Seen, now: Seen, then_: Seen, called: bool, posts: set<nat>, wake: Wake)
    requires SentOne(was, now, called) && (was.callbacks == [] ==> then_ == now)
    requires wake == if called && was.who in posts then Sent else Stay
    ensures OnlyBytesMoved(was, then_, posts, wake)
  {
  }

  lemma OnlyBytesOn(a: Seen, b: Seen, c: Seen, posts: set<nat>, wake: Wake)
    requires OnlyBytesMoved(a, b, posts, Stay) && OnlyBytesMoved(b, c, posts, wake)
    ensures OnlyBytesMoved(a, c, posts, wake)
  {
  }

  lemma FirstEventOn(rx: Rx, enabled: set<nat>, bytes: seq<byte>)
    requires rx.Valid() && rx.Active() && bytes != []
    ensures var (r, events) := RecvByte(rx, enabled, bytes[0]);
            r.Valid() &&
            FirstEvent(rx, enabled, bytes) == if events != [] then events else FirstEvent(r, enabled, bytes[1..])
  {
    RecvByteValid(rx, enabled, bytes[0]);
  }

  /** A callback ends the reception, or interrupts it. */
  lemma EventStops(rx: Rx, enabled: set<nat>, b: byte)
    requires rx.Valid()
    ensures var (r, events) := RecvByte(rx, enabled, b); events != [] ==> |events| == 1 && !r.Active()
  {
  }

  /** Callbacks make API calls; bytes move in lsd_process only. */
  predicate OnlyCalls(callbacks: seq<seq<Action>>) {
    forall i, j :: 0 <= i < |callbacks| && 0 <= j < |callbacks[i]| ==>
      !callbacks[i][j].Transmit? && !callbacks[i][j].Receive?
  }
}
