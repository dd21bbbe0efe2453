/** The send and receive state machines of one LSD endpoint, one byte at a time. */
module LsdMachine {
  import opened Bytes
  import opened LsdFrames

  datatype Status =
    | ErrFraming
    | ErrInvalidCh
    | ErrFrameTooLong
    | ErrInProgress
    | Error
    | Complete
    | Busy

  datatype SendStat = SendIdle | SendStx | SendChLenH | SendLen | SendData | SendEtx

  /** `data` is the memory behind the caller's pointer and `total` the length it passed.
      `who` identifies the completion callback. */
  datatype Tx = Tx(stat: SendStat, ch: nat, data: seq<byte>, total: nat, pos: nat, who: nat) {
    /** Payload bytes that really go out: the data state emits before it compares, so a
        zero-length send still emits one. */
    function Emitted(): nat {
      if total == 0 then 1 else total
    }

    predicate Valid() {
      stat != SendIdle ==>
        ch < MAX_CH && total <= MAX_LEN && Emitted() <= |data| &&
        (stat == SendData ==> pos < Emitted()) &&
        (stat in {SendStx, SendChLenH, SendLen} ==> pos == 0)
    }

    /** The bytes the current send has yet to emit. */
    function Rest(): seq<byte>
      requires Valid()
    {
      match stat
      case SendIdle => []
      case SendStx => [STX_ETX, ChLenH(ch, total), LenL(total)] + data[..Emitted()] + [STX_ETX]
      case SendChLenH => [ChLenH(ch, total), LenL(total)] + data[..Emitted()] + [STX_ETX]
      case SendLen => [LenL(total)] + data[..Emitted()] + [STX_ETX]
      case SendData => data[pos..Emitted()] + [STX_ETX]
      case SendEtx => [STX_ETX]
    }
  }

  datatype RecvStat = RecvPartial | RecvIdle | RecvStx | RecvChLenH | RecvLen | RecvData | RecvEtx

  /** `buf` is the caller's buffer; its length is the `len` passed to lsd_recv. `who` identifies
      the reception callback. */
  datatype Rx = Rx(stat: RecvStat, ch: nat, frameLen: nat, pos: nat, buf: seq<byte>, who: nat) {
    /** The states lsd_process reads bytes in. */
    predicate Active() {
      stat != RecvPartial && stat != RecvIdle
    }

    predicate Valid() {
      && (stat != RecvIdle ==> 1 <= |buf|)
      && (stat == RecvLen ==> frameLen % 256 == 0 && frameLen < 4096)
      && (stat == RecvData ==> pos < |buf| && pos < frameLen)
      && (stat == RecvEtx ==> pos <= |buf|)
      && (stat == RecvPartial ==> 0 < frameLen)
    }
  }

  /** What the reception callback is told. `last` is whether the frame is complete (the
      state is then IDLE, else PARTIAL); the callback's own arguments do not tell. */
  datatype Event = Delivered(ch: nat, data: seq<byte>, last: bool) | Failed(status: Status)

  /** The status the reception callback is called with. */
  function StatusOf(event: Event): Status {
    if event.Delivered? then Complete else event.status
  }

  datatype Node = Node(
    tx: Tx,
    rx: Rx,
    enabled: set<nat>,
    accepted: seq<Frame>,  // history: frames lsd_send took, oldest first
    log: seq<Event>,       // history: reception callbacks
    sent: seq<nat>)        // history: send completion callbacks, by `who`
  {
    predicate Valid() {
      tx.Valid() && rx.Valid() && forall c :: c in enabled ==> c < MAX_CH
    }
  }

  /** One endpoint: its module state, the unread input, and all it has written. */
  datatype End = End(node: Node, inbox: seq<byte>, out: seq<byte>)

  const IDLE_NODE := Node(Tx(SendIdle, 0, [], 0, 0, 0), Rx(RecvIdle, 0, 0, 0, [], 0), {}, [], [], [])

  // ---------------------------------------------------------------- reception

  function RecvError(rx: Rx, status: Status): (Rx, seq<Event>) {
    (rx.(stat := RecvIdle), [Failed(status)])
  }

  function RecvComplete(rx: Rx, last: bool): seq<Event>
    requires rx.pos <= |rx.buf|
  {
    [Delivered(rx.ch, rx.buf[..rx.pos], last)]
  }

  function RecvAdd(rx: Rx, b: byte): (Rx, seq<Event>)
    requires rx.pos < |rx.buf|
  {
    var r := rx.(buf := rx.buf[rx.pos := b], pos := rx.pos + 1);
    if r.pos >= r.frameLen then
      (r.(stat := RecvEtx), [])
    else if r.pos >= |r.buf| then
      (r.(frameLen := r.frameLen - r.pos, stat := RecvPartial), RecvComplete(r, false))
    else
      (r, [])
  }

  function RecvByte(rx: Rx, enabled: set<nat>, b: byte): (Rx, seq<Event>)
    requires rx.Valid()
  {
    match rx.stat
    case RecvStx =>
      (if b == STX_ETX then rx.(stat := RecvChLenH) else rx, [])
    case RecvChLenH =>
      if b == STX_ETX then (rx, [])
      else
        var r := rx.(ch := b / 16, frameLen := b % 16 * 256);
        if r.ch >= MAX_CH || r.ch !in enabled then RecvError(r, ErrInvalidCh)
        else (r.(stat := RecvLen), [])
    case RecvLen =>
      var r := rx.(frameLen := rx.frameLen + b, pos := 0);
      (r.(stat := if r.frameLen != 0 then RecvData else RecvEtx), [])
    case RecvData =>
      RecvAdd(rx, b)
    case RecvEtx =>
      if b == STX_ETX then (rx.(stat := RecvIdle), RecvComplete(rx, true))
      else RecvError(rx, ErrFraming)
    case _ =>
      RecvError(rx, Error)
  }

  lemma RecvByteValid(rx: Rx, enabled: set<nat>, b: byte)
    requires rx.Valid()
    ensures RecvByte(rx, enabled, b).0.Valid()
  {
  }

  /** The first callback that bytes bring about, if any. */
  function FirstEvent(rx: Rx, enabled: set<nat>, bytes: seq<byte>): (events: seq<Event>)
    requires rx.Valid()
    ensures |events| <= 1
    decreases |bytes|
  {
    if !rx.Active() || bytes == [] then []
    else
      var (r, events) := RecvByte(rx, enabled, bytes[0]);
      RecvByteValid(rx, enabled, bytes[0]);
      if events != [] then events else FirstEvent(r, enabled, bytes[1..])
  }

  /** A buffer may replace another in the middle of a frame only if it holds what has been
      received so far and has room left; `pos` is not reset then. */
  predicate CanArm(rx: Rx, buf: seq<byte>) {
    && 1 <= |buf|
    && (rx.stat == RecvData ==> rx.pos < |buf| && rx.pos <= |rx.buf| && buf[..rx.pos] == rx.buf[..rx.pos])
    && (rx.stat == RecvEtx ==> rx.pos <= |buf| && rx.pos <= |rx.buf| && buf[..rx.pos] == rx.buf[..rx.pos])
  }

  /** lsd_recv */
  function Arm(rx: Rx, buf: seq<byte>, who: nat): (Status, Rx) {
    if |buf| >= MAX_LEN + 1 then (ErrFrameTooLong, rx)
    else
      var r :=
        match rx.stat
        case RecvIdle => rx.(stat := RecvStx)
        case RecvPartial => rx.(pos := 0, stat := RecvData)
        case _ => rx;
      (Busy, r.(buf := buf, who := who))
  }

  /** How lsd_process is left: at its end, or before that by loop_post from the callback of a send
      or of a reception. */
  datatype Wake = Stay | Sent | Received(status: Status)

  // ------------------------------------------------------------- transmission

  /** The byte process_send writes and the state it moves to. */
  function SendByte(tx: Tx): (byte, Tx)
    requires tx.Valid() && tx.stat != SendIdle
  {
    match tx.stat
    case SendStx => (STX_ETX, tx.(stat := SendChLenH))
    case SendChLenH => (ChLenH(tx.ch, tx.total), tx.(stat := SendLen))
    case SendLen => (LenL(tx.total), tx.(stat := SendData))
    case SendData =>
      var t := tx.(pos := tx.pos + 1);
      (tx.data[tx.pos], if t.pos >= t.total then t.(stat := SendEtx) else t)
    case SendEtx => (STX_ETX, tx.(stat := SendIdle))
  }

  /** Bytes the current send has yet to emit. */
  function LeftOf(tx: Tx): nat {
    if tx.Valid() then |tx.Rest()| else 0
  }

  lemma RestShrinks(tx: Tx)
    requires tx.Valid() && tx.stat != SendIdle
    ensures LeftOf(SendByte(tx).1) < LeftOf(tx)
  {
  }

  /** What C asks of the caller: the memory that will be read exists. */
  predicate Readable(data: seq<byte>, len: nat) {
    (if len == 0 then 1 else len) <= |data|
  }

  /** The checks of lsd_send, in its order. */
  function SendStatus(tx: Tx, enabled: set<nat>, ch: nat, len: nat): Status {
    if tx.stat != SendIdle then ErrInProgress
    else if ch >= MAX_CH || ch !in enabled then ErrInvalidCh
    else if len > MAX_LEN then ErrFrameTooLong
    else Busy
  }

  function StartSend(n: Node, ch: nat, data: seq<byte>, len: nat, who: nat): Node
    requires Readable(data, len)
  {
    if SendStatus(n.tx, n.enabled, ch, len) != Busy then n
    else n.(tx := Tx(SendStx, ch, data, len, 0, who), accepted := n.accepted + [Frame(ch, data[..len])])
  }

  // -------------------------------------------------------------------- steps

  /** Everything that can happen at an endpoint. The first two are iterations of the loops
      in lsd_process; the rest are API calls, from callbacks or from anywhere else. */
  datatype Action =
    | Transmit
    | Receive
    | Send(ch: nat, data: seq<byte>, len: nat, who: nat)
    | Recv(buf: seq<byte>, who: nat)
    | Enable(ch: nat)
    | Disable(ch: nat)

  predicate CanStep(e: End, act: Action) {
    && e.node.Valid()
    && match act
       case Transmit => e.node.tx.stat != SendIdle
       case Receive => e.inbox != [] && e.node.rx.Active()
       case Send(_, data, len, _) => Readable(data, len)
       case Recv(buf, _) => CanArm(e.node.rx, buf)
       case Enable(_) => true
       case Disable(_) => true
  }

  function Step(e: End, act: Action): (r: End)
    requires CanStep(e, act)
    ensures r.node.Valid()
  {
    var n := e.node;
    match act
    case Transmit =>
      var (b, tx) := SendByte(n.tx);
      End(n.(tx := tx, sent := if tx.stat == SendIdle then n.sent + [n.tx.who] else n.sent),
          e.inbox, e.out + [b])
    case Receive =>
      var (rx, events) := RecvByte(n.rx, n.enabled, e.inbox[0]);
      End(n.(rx := rx, log := n.log + events), e.inbox[1..], e.out)
    case Send(ch, data, len, who) => e.(node := StartSend(n, ch, data, len, who))
    case Recv(buf, who) => e.(node := n.(rx := Arm(n.rx, buf, who).1))
    case Enable(ch) => e.(node := if ch >= MAX_CH then n else n.(enabled := n.enabled + {ch}))
    case Disable(ch) => e.(node := if ch >= MAX_CH then n else n.(enabled := n.enabled - {ch}))
  }

  predicate CanRun(e: End, acts: seq<Action>)
    decreases |acts|, 0
  {
    acts == [] ||
    (CanRun(e, acts[..|acts| - 1]) && CanStep(Run(e, acts[..|acts| - 1]), acts[|acts| - 1]))
  }

  function Run(e: End, acts: seq<Action>): End
    requires CanRun(e, acts)
    decreases |acts|, 1
  {
    if acts == [] then e else Step(Run(e, acts[..|acts| - 1]), acts[|acts| - 1])
  }

  lemma RunOneMore(e: End, acts: seq<Action>, act: Action)
    requires CanRun(e, acts) && CanStep(Run(e, acts), act)
    ensures CanRun(e, acts + [act]) && Run(e, acts + [act]) == Step(Run(e, acts), act)
  {
    assert (acts + [act])[..|acts|] == acts;
  }

  /** A run in two parts. */
  lemma {:induction false} RunSplit(e: End, first: seq<Action>, more: seq<Action>)
    requires CanRun(e, first + more)
    ensures CanRun(e, first) && CanRun(Run(e, first), more) && Run(e, first + more) == Run(Run(e, first), more)
    decreases |more|
  {
    hide Step, CanStep;
    if more == [] {
      assert first + more == first;
    } else {
      var front := more[..|more| - 1];
      assert (first + more)[..|first + more| - 1] == first + front;
      RunSplit(e, first, front);
    }
  }

  lemma {:induction false} RunJoin(e: End, first: seq<Action>, more: seq<Action>)
    requires CanRun(e, first) && CanRun(Run(e, first), more)
    ensures CanRun(e, first + more) && Run(e, first + more) == Run(Run(e, first), more)
    decreases |more|
  {
    hide Step, CanStep;
    if more == [] {
      assert first + more == first;
    } else {
      var front := more[..|more| - 1];
      RunJoin(e, first, front);
      RunOneMore(e, first + front, more[|more| - 1]);
      assert first + front + [more[|more| - 1]] == first + more;
    }
  }

  /** What an endpoint does depends on its input but not on what it has written before. */
  lemma {:induction false} OutputOnlyGrows(e: End, out: seq<byte>, acts: seq<Action>)
    requires CanRun(e, acts)
    ensures e.out <= Run(e, acts).out && CanRun(e.(out := out), acts)
    ensures Run(e.(out := out), acts) == Run(e, acts).(out := out + Run(e, acts).out[|e.out|..])
    decreases |acts|
  {
    if acts == [] {
      assert e.out[|e.out|..] == [];
      assert out + [] == out;
    } else {
      var front, act := acts[..|acts| - 1], acts[|acts| - 1];
      OutputOnlyGrows(e, out, front);
      StepWrites(Run(e, front), out + Run(e, front).out[|e.out|..], act);
    }
  }

  lemma StepWrites(e: End, out: seq<byte>, act: Action)
    requires CanStep(e, act)
    ensures CanStep(e.(out := out), act) && e.out <= Step(e, act).out
    ensures Step(e.(out := out), act) == Step(e, act).(out := out + Step(e, act).out[|e.out|..])
  {
  }

  // ------------------------------------------------------------ reassembly

  /** What a reader of the callbacks knows: whole frames, the pieces of an unfinished one,
      and whether every callback fitted. */
  datatype Assembly = Assembly(frames: seq<Frame>, partial: seq<byte>, clean: bool)

  /** Joins partial deliveries; a failure, or a piece on another channel than the pieces
      before it, makes the log unclean. */
  function Reassemble(log: seq<Event>): (Assembly, nat) {
    if log == [] then (Assembly([], [], true), 0)
    else
      var (a, ch) := Reassemble(log[..|log| - 1]);
      match log[|log| - 1]
      case Failed(_) => (a.(clean := false), ch)
      case Delivered(c, data, last) =>
        var ok := a.clean && (a.partial == [] || c == ch);
        if last then (Assembly(a.frames + [Frame(c, a.partial + data)], [], ok), c)
        else (Assembly(a.frames, a.partial + data, ok), c)
  }
}
