/** Two LSD endpoints joined by byte queues: what every interleaving keeps. */
module LsdLink {
  import opened Bytes
  import opened LsdFrames
  import opened LsdMachine

  datatype Side = A | B {
    function Other(): Side {
      if A? then B else A
    }
  }

  /** Each endpoint's output is the other's input. `inbox` of an endpoint is the line into it. */
  datatype System = System(a: Node, b: Node, toA: seq<byte>, toB: seq<byte>) {
    function NodeOf(s: Side): Node {
      if s.A? then a else b
    }

    function LineInto(s: Side): seq<byte> {
      if s.A? then toA else toB
    }

    function EndOf(s: Side): End {
      End(NodeOf(s), LineInto(s), LineInto(s.Other()))
    }

    function Put(s: Side, e: End): System {
      if s.A? then System(e.node, b, e.inbox, e.out) else System(a, e.node, e.out, e.inbox)
    }
  }

  /** Index of the first accepted frame whose channel the receiving node has not read yet. */
  function FirstUnread(r: Node): nat {
    var done := |Reassemble(r.log).0.frames|;
    if r.rx.stat in {RecvIdle, RecvStx, RecvChLenH} then done else done + 1
  }

  /** A step the users of the link may take: sends carry 1..4095 bytes on a channel the peer
      listens to, and a channel is not disabled while frames on it are under way. */
  predicate Allowed(sys: System, s: Side, act: Action) {
    && CanStep(sys.EndOf(s), act)
    && (act.Send? && SendStatus(sys.NodeOf(s).tx, sys.NodeOf(s).enabled, act.ch, act.len) == Busy ==>
          1 <= act.len && act.ch in sys.NodeOf(s.Other()).enabled)
    && (act.Disable? ==>
          var accepted := sys.NodeOf(s.Other()).accepted;
          forall i :: FirstUnread(sys.NodeOf(s)) <= i < |accepted| ==> accepted[i].ch != act.ch)
  }

  function StepSystem(sys: System, s: Side, act: Action): System
    requires Allowed(sys, s, act)
  {
    sys.Put(s, Step(sys.EndOf(s), act))
  }

  predicate CanRunSystem(sys: System, run: seq<(Side, Action)>)
    decreases |run|, 0
  {
    run == [] ||
    var (s, act) := run[|run| - 1];
    CanRunSystem(sys, run[..|run| - 1]) && Allowed(RunSystem(sys, run[..|run| - 1]), s, act)
  }

  function RunSystem(sys: System, run: seq<(Side, Action)>): System
    requires CanRunSystem(sys, run)
    decreases |run|, 1
  {
    if run == [] then sys
    else
      var (s, act) := run[|run| - 1];
      StepSystem(RunSystem(sys, run[..|run| - 1]), s, act)
  }

  /** Steps of one end alone, as a run of the system. */
  function OneSided(s: Side, acts: seq<Action>): seq<(Side, Action)> {
    seq(|acts|, i requires 0 <= i < |acts| => (s, acts[i]))
  }

  /** Sends of at least one byte on channels the peer has enabled, and no disabling. */
  predicate Considerate(act: Action, heard: set<nat>) {
    (act.Send? ==> 1 <= act.len && act.ch in heard) && !act.Disable?
  }

  predicate AllConsiderate(acts: seq<Action>, heard: set<nat>) {
    forall i :: 0 <= i < |acts| ==> Considerate(acts[i], heard)
  }

  /** What an endpoint does by itself, in lsd_process for one, is a run of the system in which
      its peer stands still. */
  lemma {:induction false} OneSidedRun(sys: System, s: Side, acts: seq<Action>)
    requires CanRun(sys.EndOf(s), acts) && AllConsiderate(acts, sys.NodeOf(s.Other()).enabled)
    ensures CanRunSystem(sys, OneSided(s, acts))
    ensures RunSystem(sys, OneSided(s, acts)) == sys.Put(s, Run(sys.EndOf(s), acts))
    decreases |acts|
  {
    hide Step, CanStep;
    if acts != [] {
      var front := acts[..|acts| - 1];
      assert OneSided(s, acts)[..|acts| - 1] == OneSided(s, front);
      OneSidedRun(sys, s, front);
    }
  }

  /** After lsd_init at both ends: idle, all channels off, and on each line at most the bytes of
      line synchronisation, none of which is an STX. */
  predicate Initial(sys: System) {
    sys.a == IDLE_NODE && sys.b == IDLE_NODE && STX_ETX !in sys.toA && STX_ETX !in sys.toB
  }

  // -------------------------------------------------------- one direction

  /** Bytes still to reach the receiver for what the sender has accepted so far. */
  function Stream(s: Node, wire: seq<byte>): seq<byte>
    requires s.tx.Valid()
  {
    wire + s.tx.Rest()
  }

  /** What the receiver, having taken `got` of frame f's payload, must still read of f. */
  function ToRead(rx: Rx, f: Frame, got: nat): seq<byte>
    requires f.Valid() && got <= |f.payload|
  {
    match rx.stat
    case RecvChLenH => Body(f)
    case RecvLen => Body(f)[1..]
    case RecvEtx => [STX_ETX]
    case _ => f.payload[got..] + [STX_ETX]
  }

  /** What has been received of the current frame: the pieces handed over plus the buffer. */
  function Got(rx: Rx, partial: seq<byte>): seq<byte> {
    if (rx.stat == RecvData || rx.stat == RecvEtx) && rx.pos <= |rx.buf| then partial + rx.buf[..rx.pos]
    else partial
  }

  /** The receiver is inside frame f, having handed over `partial`, the last piece on channel `ch`. */
  predicate InFrame(rx: Rx, partial: seq<byte>, ch: nat, f: Frame)
    requires f.Valid()
  {
    && Got(rx, partial) <= f.payload
    && (partial != [] ==> ch == f.ch)
    && (rx.stat != RecvChLenH ==> rx.ch == f.ch)
    && match rx.stat
       case RecvChLenH => partial == []
       case RecvLen => partial == [] && rx.frameLen == |f.payload| / 256 * 256
       case RecvData => rx.frameLen - rx.pos == |f.payload| - |Got(rx, partial)|
       case RecvPartial => rx.frameLen == |f.payload| - |partial|
       case RecvEtx => Got(rx, partial) == f.payload
       case _ => false
  }

  /** The bytes that complete f for a receiver inside it. */
  function Owed(rx: Rx, partial: seq<byte>, f: Frame): seq<byte>
    requires f.Valid() && Got(rx, partial) <= f.payload
  {
    ToRead(rx, f, |Got(rx, partial)|)
  }

  /** `stream` is exactly what receiver r must read to complete the accepted frames it has not
      delivered, after noise if it is between frames. */
  predicate InStep(accepted: seq<Frame>, stream: seq<byte>, r: Node)
    requires AllValid(accepted)
  {
    var (a, ch) := Reassemble(r.log);
    var n := |a.frames|;
    && a.clean
    && a.frames <= accepted
    && (forall i :: FirstUnread(r) <= i < |accepted| ==> accepted[i].ch in r.enabled)
    && if r.rx.stat == RecvIdle || r.rx.stat == RecvStx then
         a.partial == [] && SkipNoise(stream) == EncodeAll(accepted[n..])
       else
         n < |accepted| && InFrame(r.rx, a.partial, ch, accepted[n]) &&
         stream == Owed(r.rx, a.partial, accepted[n]) + EncodeAll(accepted[n + 1..])
  }

  /** The invariant of the direction s -> r. */
  predicate Linked(s: Node, wire: seq<byte>, r: Node) {
    && s.Valid() && r.Valid() && AllValid(s.accepted)
    && (s.tx.stat != SendIdle ==> s.tx.total >= 1)
    && InStep(s.accepted, Stream(s, wire), r)
  }

  lemma TransmitMovesOneByte(tx: Tx)
    requires tx.Valid() && tx.stat != SendIdle && tx.total > 0
    ensures var (b, t) := SendByte(tx); t.Valid() && tx.Rest() == [b] + t.Rest()
  {
    if tx.stat == SendData {
      TransmitData(tx);
    }
  }

  lemma TransmitData(tx: Tx)
    requires tx.Valid() && tx.stat == SendData && tx.total > 0
    ensures var (b, t) := SendByte(tx); t.Valid() && tx.Rest() == [b] + t.Rest()
  {
    var b := tx.data[tx.pos];
    assert tx.data[tx.pos..tx.total] == [b] + tx.data[tx.pos + 1..tx.total];
  }

  lemma ReassembleOne(log: seq<Event>, e: Event)
    ensures Reassemble(log + [e]) ==
            var (a, ch) := Reassemble(log);
            match e
            case Failed(_) => (a.(clean := false), ch)
            case Delivered(c, data, last) =>
              var ok := a.clean && (a.partial == [] || c == ch);
              if last then (Assembly(a.frames + [Frame(c, a.partial + data)], [], ok), c)
              else (Assembly(a.frames, a.partial + data, ok), c)
  {
    assert (log + [e])[..|log|] == log;
  }

  lemma EncodeAllFrom(fs: seq<Frame>, n: nat)
    requires AllValid(fs) && n < |fs|
    ensures EncodeAll(fs[n..]) == [STX_ETX] + Body(fs[n]) + EncodeAll(fs[n + 1..])
  {
    assert fs[n..][1..] == fs[n + 1..];
  }

  // ------------------------------------------------------ steps of the sender

  lemma TransmitKeepsStream(s: Node, wire: seq<byte>)
    requires s.tx.Valid() && s.tx.stat != SendIdle && s.tx.total > 0
    ensures var (b, t) := SendByte(s.tx); t.Valid() && Stream(s.(tx := t), wire + [b]) == Stream(s, wire)
  {
    hide SendByte;
    TransmitMovesOneByte(s.tx);
    var (b, t) := SendByte(s.tx);
    assert wire + ([b] + t.Rest()) == (wire + [b]) + t.Rest();
  }

  lemma TransmitKeeps(s: Node, wire: seq<byte>, r: Node, inbox: seq<byte>)
    requires Linked(s, wire, r) && s.tx.stat != SendIdle
    ensures var e := Step(End(s, inbox, wire), Transmit); Linked(e.node, e.out, r)
  {
    hide InStep;
    TransmitKeepsStream(s, wire);
  }

  lemma EncodeAllTail(fs: seq<Frame>, n: nat, f: Frame)
    requires AllValid(fs) && f.Valid() && n <= |fs|
    ensures EncodeAll((fs + [f])[n..]) == EncodeAll(fs[n..]) + Encode(f)
  {
    EncodeAllAppend(fs[n..], f);
    assert (fs + [f])[n..] == fs[n..] + [f];
  }

  lemma AcceptKeeps(accepted: seq<Frame>, stream: seq<byte>, r: Node, f: Frame)
    requires AllValid(accepted) && f.Valid() && f.ch in r.enabled
    requires InStep(accepted, stream, r)
    ensures InStep(accepted + [f], stream + Encode(f), r)
  {
    hide InFrame, Reassemble, Owed, FirstUnread, Encode, EncodeAll, SkipNoise;
    var n := |Reassemble(r.log).0.frames|;
    assert AllValid(accepted + [f]);
    if r.rx.stat == RecvIdle || r.rx.stat == RecvStx {
      assert SkipNoise(stream + Encode(f)) == EncodeAll((accepted + [f])[n..]) by {
        SkipNoiseAppend(stream, f);
        EncodeAllTail(accepted, n, f);
      }
    } else {
      EncodeAllTail(accepted, n + 1, f);
    }
  }

  lemma SendKeeps(s: Node, wire: seq<byte>, r: Node, ch: nat, data: seq<byte>, len: nat, who: nat)
    requires Linked(s, wire, r) && Readable(data, len)
    requires SendStatus(s.tx, s.enabled, ch, len) == Busy ==> 1 <= len && ch in r.enabled
    ensures Linked(StartSend(s, ch, data, len, who), wire, r)
  {
    hide InStep;
    if SendStatus(s.tx, s.enabled, ch, len) == Busy {
      var f := Frame(ch, data[..len]);
      var t := StartSend(s, ch, data, len, who);
      AcceptKeeps(s.accepted, Stream(s, wire), r, f);
      assert t.tx.Rest() == Encode(f);
      assert s.tx.Rest() == [];
      assert Stream(t, wire) == Stream(s, wire) + Encode(f);
    }
  }

  // ---------------------------------------------------- steps of the receiver

  function Received(r: Node, b: byte): Node
    requires r.rx.Valid()
  {
    var (rx, events) := RecvByte(r.rx, r.enabled, b);
    r.(rx := rx, log := r.log + events)
  }

  /** One byte inside a frame: either nothing is reported, or the piece that filled the buffer. */
  predicate OneByteOn(rx: Rx, partial: seq<byte>, ch: nat, f: Frame, rx': Rx, events: seq<Event>)
    requires f.Valid() && InFrame(rx, partial, ch, f)
  {
    if events == [] then
      rx'.stat != RecvChLenH && InFrame(rx', partial, ch, f) &&
      Owed(rx', partial, f) == Owed(rx, partial, f)[1..]
    else
      |events| == 1 && events[0].Delivered? && events[0].ch == f.ch && !events[0].last && events[0].data != [] &&
      rx'.stat == RecvPartial && InFrame(rx', partial + events[0].data, f.ch, f) &&
      Owed(rx', partial + events[0].data, f) == Owed(rx, partial, f)[1..]
  }

  lemma HeaderByte(rx: Rx, partial: seq<byte>, ch: nat, f: Frame, enabled: set<nat>)
    requires rx.Valid() && f.Valid() && InFrame(rx, partial, ch, f)
    requires (rx.stat == RecvChLenH && f.ch in enabled) || rx.stat == RecvLen
    ensures var (r, events) := RecvByte(rx, enabled, Owed(rx, partial, f)[0]);
            events == [] && OneByteOn(rx, partial, ch, f, r, events)
  {
    if rx.stat == RecvChLenH {
      var b := ChLenH(f.ch, |f.payload|);
      assert Owed(rx, partial, f)[0] == b != STX_ETX;
      assert b / 16 == f.ch && b % 16 == |f.payload| / 256;
    } else {
      assert Owed(rx, partial, f)[0] == LenL(|f.payload|);
      assert Owed(rx, partial, f)[1..] == f.payload + [STX_ETX];
    }
  }

  lemma DataByte(rx: Rx, partial: seq<byte>, ch: nat, f: Frame, enabled: set<nat>)
    requires rx.Valid() && f.Valid() && InFrame(rx, partial, ch, f) && rx.stat == RecvData
    ensures var (r, events) := RecvByte(rx, enabled, Owed(rx, partial, f)[0]);
            OneByteOn(rx, partial, ch, f, r, events)
  {
    hide RecvByte, OneByteOn, InFrame, Owed;
    if rx.pos + 1 >= rx.frameLen {
      LastDataByte(rx, partial, ch, f, enabled);
    } else if rx.pos + 1 >= |rx.buf| {
      FillingDataByte(rx, partial, ch, f, enabled);
    } else {
      InnerDataByte(rx, partial, ch, f, enabled);
    }
  }

  lemma LastDataByte(rx: Rx, partial: seq<byte>, ch: nat, f: Frame, enabled: set<nat>)
    requires rx.Valid() && f.Valid() && InFrame(rx, partial, ch, f) && rx.stat == RecvData && rx.pos + 1 >= rx.frameLen
    ensures var (r, events) := RecvByte(rx, enabled, Owed(rx, partial, f)[0]);
            OneByteOn(rx, partial, ch, f, r, events)
  {
    NextOwed(rx, partial, ch, f);
    ByteStored(rx, partial, f);
  }

  lemma FillingDataByte(rx: Rx, partial: seq<byte>, ch: nat, f: Frame, enabled: set<nat>)
    requires rx.Valid() && f.Valid() && InFrame(rx, partial, ch, f) && rx.stat == RecvData
    requires rx.pos + 1 < rx.frameLen && rx.pos + 1 >= |rx.buf|
    ensures var (r, events) := RecvByte(rx, enabled, Owed(rx, partial, f)[0]);
            OneByteOn(rx, partial, ch, f, r, events)
  {
    NextOwed(rx, partial, ch, f);
    ByteStored(rx, partial, f);
  }

  lemma InnerDataByte(rx: Rx, partial: seq<byte>, ch: nat, f: Frame, enabled: set<nat>)
    requires rx.Valid() && f.Valid() && InFrame(rx, partial, ch, f) && rx.stat == RecvData
    requires rx.pos + 1 < rx.frameLen && rx.pos + 1 < |rx.buf|
    ensures var (r, events) := RecvByte(rx, enabled, Owed(rx, partial, f)[0]);
            OneByteOn(rx, partial, ch, f, r, events)
  {
    NextOwed(rx, partial, ch, f);
    ByteStored(rx, partial, f);
  }

  lemma NextOwed(rx: Rx, partial: seq<byte>, ch: nat, f: Frame)
    requires rx.Valid() && f.Valid() && InFrame(rx, partial, ch, f) && rx.stat == RecvData
    ensures var got := Got(rx, partial);
            && |got| < |f.payload|
            && Owed(rx, partial, f)[0] == f.payload[|got|]
            && Owed(rx, partial, f)[1..] == f.payload[|got| + 1..] + [STX_ETX]
  {
  }

  lemma ByteStored(rx: Rx, partial: seq<byte>, f: Frame)
    requires rx.stat == RecvData && rx.pos < |rx.buf|
    requires Got(rx, partial) <= f.payload && |Got(rx, partial)| < |f.payload|
    ensures var got := Got(rx, partial);
            var b := f.payload[|got|];
            partial + rx.buf[rx.pos := b][..rx.pos + 1] == got + [b] == f.payload[..|got| + 1]
  {
    var got := Got(rx, partial);
    var b := f.payload[|got|];
    assert rx.buf[rx.pos := b][..rx.pos + 1] == rx.buf[..rx.pos] + [b];
    assert partial + (rx.buf[..rx.pos] + [b]) == (partial + rx.buf[..rx.pos]) + [b];
  }

  lemma EtxByte(rx: Rx, partial: seq<byte>, ch: nat, f: Frame, enabled: set<nat>)
    requires rx.Valid() && f.Valid() && InFrame(rx, partial, ch, f) && rx.stat == RecvEtx
    ensures Owed(rx, partial, f) == [STX_ETX]
    ensures var (r, events) := RecvByte(rx, enabled, STX_ETX);
            r.stat == RecvIdle && |events| == 1 && events[0].Delivered? &&
            events[0].ch == f.ch && events[0].last && partial + events[0].data == f.payload
  {
  }

  lemma ReceiveBetweenFrames(accepted: seq<Frame>, stream: seq<byte>, r: Node)
    requires AllValid(accepted) && r.Valid() && InStep(accepted, stream, r) && stream != []
    requires r.rx.stat == RecvStx
    ensures InStep(accepted, stream[1..], Received(r, stream[0]))
  {
    hide Reassemble, Encode, Body;
    var n := |Reassemble(r.log).0.frames|;
    assert r.log + [] == r.log;
    if stream[0] == STX_ETX && n < |accepted| {
      EncodeAllFrom(accepted, n);
      assert stream[1..] == Body(accepted[n]) + EncodeAll(accepted[n + 1..]);
    }
  }

  lemma ReceiveInsideFrame(accepted: seq<Frame>, stream: seq<byte>, r: Node)
    requires AllValid(accepted) && r.Valid() && InStep(accepted, stream, r) && stream != []
    requires r.rx.stat in {RecvChLenH, RecvLen, RecvData}
    ensures InStep(accepted, stream[1..], Received(r, stream[0]))
  {
    var (a, ch) := Reassemble(r.log);
    var n := |a.frames|;
    var f := accepted[n];
    var owed := Owed(r.rx, a.partial, f);
    assert owed != [] && stream[0] == owed[0];
    assert stream[1..] == owed[1..] + EncodeAll(accepted[n + 1..]);
    assert r.rx.stat == RecvChLenH ==> FirstUnread(r) <= n;
    if r.rx.stat == RecvData {
      DataByte(r.rx, a.partial, ch, f, r.enabled);
    } else {
      HeaderByte(r.rx, a.partial, ch, f, r.enabled);
    }
    InsideFrameLifts(accepted, stream, r);
  }

  lemma InsideFrameLifts(accepted: seq<Frame>, stream: seq<byte>, r: Node)
    requires AllValid(accepted) && r.Valid() && InStep(accepted, stream, r) && stream != []
    requires r.rx.stat in {RecvChLenH, RecvLen, RecvData}
    requires var (a, ch) := Reassemble(r.log);
             var f := accepted[|a.frames|];
             var (rx, events) := RecvByte(r.rx, r.enabled, stream[0]);
             OneByteOn(r.rx, a.partial, ch, f, rx, events) &&
             stream[1..] == Owed(r.rx, a.partial, f)[1..] + EncodeAll(accepted[|a.frames| + 1..])
    ensures InStep(accepted, stream[1..], Received(r, stream[0]))
  {
    hide Owed, RecvByte, EncodeAll, Reassemble;
    var (a, ch) := Reassemble(r.log);
    var (rx, events) := RecvByte(r.rx, r.enabled, stream[0]);
    var q := Received(r, stream[0]);
    if events == [] {
      assert q.log == r.log;
    } else {
      assert q.log == r.log + [events[0]];
      ReassembleOne(r.log, events[0]);
      assert Reassemble(q.log).0.frames == a.frames;
    }
  }

  lemma ReceiveEtx(accepted: seq<Frame>, stream: seq<byte>, r: Node)
    requires AllValid(accepted) && r.Valid() && InStep(accepted, stream, r) && stream != []
    requires r.rx.stat == RecvEtx
    ensures InStep(accepted, stream[1..], Received(r, stream[0]))
  {
    hide Owed, Encode;
    var (a, ch) := Reassemble(r.log);
    var n := |a.frames|;
    EtxByte(r.rx, a.partial, ch, accepted[n], r.enabled);
    var (rx, events) := RecvByte(r.rx, r.enabled, STX_ETX);
    ReassembleOne(r.log, events[0]);
    assert r.log + events == r.log + [events[0]];
    assert stream[1..] == EncodeAll(accepted[n + 1..]);
    EncodedIsNoNoise(accepted[n + 1..]);
  }

  lemma ReceiveKeeps(s: Node, wire: seq<byte>, r: Node)
    requires Linked(s, wire, r) && wire != [] && r.rx.Active()
    ensures Received(r, wire[0]).Valid() ==> Linked(s, wire[1..], Received(r, wire[0]))
  {
    hide InStep;
    var stream := Stream(s, wire);
    assert stream[0] == wire[0] && stream[1..] == Stream(s, wire[1..]);
    if r.rx.stat == RecvStx {
      ReceiveBetweenFrames(s.accepted, stream, r);
    } else if r.rx.stat == RecvEtx {
      ReceiveEtx(s.accepted, stream, r);
    } else {
      ReceiveInsideFrame(s.accepted, stream, r);
    }
  }

  lemma ArmKeeps(accepted: seq<Frame>, stream: seq<byte>, r: Node, buf: seq<byte>, who: nat)
    requires AllValid(accepted) && r.Valid() && InStep(accepted, stream, r) && CanArm(r.rx, buf)
    ensures InStep(accepted, stream, r.(rx := Arm(r.rx, buf, who).1))
  {
    hide Reassemble, Encode, EncodeAll;
    var (a, ch) := Reassemble(r.log);
    var rx := Arm(r.rx, buf, who).1;
    assert Got(rx, a.partial) == Got(r.rx, a.partial) by {
      assert r.rx.stat == RecvPartial ==> a.partial + rx.buf[..0] == a.partial || rx == r.rx;
    }
  }

  // --------------------------------------------------------- every step

  /** Any step at the sending end keeps its outgoing direction. */
  lemma SenderStepKeeps(e: End, r: Node, act: Action)
    requires Linked(e.node, e.out, r) && CanStep(e, act)
    requires act.Send? && SendStatus(e.node.tx, e.node.enabled, act.ch, act.len) == Busy ==>
               1 <= act.len && act.ch in r.enabled
    ensures Linked(Step(e, act).node, Step(e, act).out, r)
  {
    hide InStep;
    match act
    case Transmit => TransmitKeeps(e.node, e.out, r, e.inbox);
    case Send(ch, data, len, who) => SendKeeps(e.node, e.out, r, ch, data, len, who);
    case Receive => StreamOnTx(e.node, Step(e, act).node, e.out);
    case Recv(_, _) => StreamOnTx(e.node, Step(e, act).node, e.out);
    case Enable(ch) => StreamOnTx(e.node, Step(e, act).node, e.out);
    case Disable(ch) => StreamOnTx(e.node, Step(e, act).node, e.out);
  }

  lemma StreamOnTx(s: Node, s': Node, wire: seq<byte>)
    requires s.Valid() && s'.tx == s.tx
    ensures Stream(s', wire) == Stream(s, wire)
  {
  }

  /** Any step at the receiving end keeps its incoming direction. */
  lemma ReceiverStepKeeps(s: Node, e: End, act: Action)
    requires Linked(s, e.inbox, e.node) && CanStep(e, act)
    requires act.Disable? ==>
               forall i :: FirstUnread(e.node) <= i < |s.accepted| ==> s.accepted[i].ch != act.ch
    ensures Linked(s, Step(e, act).inbox, Step(e, act).node)
  {
    match act
    case Receive => ReceiveKeeps(s, e.inbox, e.node);
    case Recv(buf, who) => ArmKeeps(s.accepted, Stream(s, e.inbox), e.node, buf, who);
    case Transmit =>
    case Send(ch, data, len, who) =>
    case Enable(ch) =>
    case Disable(ch) =>
  }

  predicate Inv(sys: System) {
    Linked(sys.a, sys.toB, sys.b) && Linked(sys.b, sys.toA, sys.a)
  }

  lemma StepKeepsInv(sys: System, s: Side, act: Action)
    requires Inv(sys) && Allowed(sys, s, act)
    ensures Inv(StepSystem(sys, s, act))
  {
    hide Linked, Step;
    SenderStepKeeps(sys.EndOf(s), sys.NodeOf(s.Other()), act);
    ReceiverStepKeeps(sys.NodeOf(s.Other()), sys.EndOf(s), act);
  }

  lemma InitialInv(sys: System)
    requires Initial(sys)
    ensures Inv(sys)
  {
    SkipNoiseOnly(sys.toA + []);
    SkipNoiseOnly(sys.toB + []);
  }

  lemma {:induction false} RunKeepsInv(sys: System, run: seq<(Side, Action)>)
    requires Initial(sys) && CanRunSystem(sys, run)
    ensures Inv(RunSystem(sys, run))
    decreases |run|
  {
    hide Inv, Initial;
    if run == [] {
      InitialInv(sys);
    } else {
      RunKeepsInv(sys, run[..|run| - 1]);
      var (s, act) := run[|run| - 1];
      StepKeepsInv(RunSystem(sys, run[..|run| - 1]), s, act);
    }
  }

  // ------------------------------------------------------------- theorems

  /** A state some run leads to from the start. */
  ghost predicate Reachable(now: System) {
    exists sys, run :: Initial(sys) && CanRunSystem(sys, run) && now == RunSystem(sys, run)
  }

  lemma ReachableInv(now: System)
    requires Reachable(now)
    ensures Inv(now)
  {
    hide RunSystem, CanRunSystem, Initial, Inv;
    var sys, run :| Initial(sys) && CanRunSystem(sys, run) && now == RunSystem(sys, run);
    RunKeepsInv(sys, run);
  }

  /** What the peer of end `s` has been given: the frames reassembled from its callbacks are a
      prefix of those `s` accepted, the pieces of the next one are a prefix of its payload, and
      no callback reported an error or a piece on a wrong channel. Once `s` is idle and its
      line has been read, the peer has exactly the accepted frames. */
  predicate DeliversInOrder(now: System, s: Side) {
    var sent := now.NodeOf(s).accepted;
    var got := Reassemble(now.NodeOf(s.Other()).log).0;
    && got.clean
    && got.frames <= sent
    && (got.partial != [] ==> |got.frames| < |sent| && got.partial <= sent[|got.frames|].payload)
    && (now.NodeOf(s).tx.stat == SendIdle && now.LineInto(s.Other()) == [] ==> AllDelivered(now, s))
  }

  predicate AllDelivered(now: System, s: Side) {
    Reassemble(now.NodeOf(s.Other()).log).0 == Assembly(now.NodeOf(s).accepted, [], true)
  }

  /** In every state of every run, both directions have delivered a prefix of what was accepted,
      in order, unchanged and without a framing error; nothing is lost or duplicated. */
  lemma LinkSafety(now: System, s: Side)
    requires Reachable(now)
    ensures DeliversInOrder(now, s)
  {
    hide Reachable, Linked;
    ReachableInv(now);
    LinkedMeans(now.NodeOf(s), now.LineInto(s.Other()), now.NodeOf(s.Other()));
  }

  lemma LinkedMeans(s: Node, wire: seq<byte>, r: Node)
    requires Linked(s, wire, r)
    ensures var got := Reassemble(r.log).0;
            && got.clean && got.frames <= s.accepted
            && (got.partial != [] ==>
                  |got.frames| < |s.accepted| && got.partial <= s.accepted[|got.frames|].payload)
            && (s.tx.stat == SendIdle && wire == [] ==> got.frames == s.accepted && got.partial == [])
  {
    hide Reassemble;
    var got := Reassemble(r.log).0;
    var n := |got.frames|;
    if s.tx.stat == SendIdle && wire == [] {
      assert Stream(s, wire) == [];
      if n < |s.accepted| {
        EncodeAllFrom(s.accepted, n);
      }
    }
    if r.rx.stat != RecvIdle && r.rx.stat != RecvStx {
      assert got.partial <= Got(r.rx, got.partial);
    }
  }

  /** Inside a frame from `s`, what the peer has handed over, what is in its buffer and the
      length still expected add up to the frame's length; what it has is a prefix of the
      payload, and the byte that comes next has room in the buffer. */
  predicate ReceptionAddsUp(now: System, s: Side) {
    var r := now.NodeOf(s.Other());
    var got := Reassemble(r.log).0;
    var sent := now.NodeOf(s).accepted;
    && (r.rx.stat == RecvData ==>
          && |got.frames| < |sent|
          && |got.partial| + r.rx.frameLen == |sent[|got.frames|].payload|
          && r.rx.pos < |r.rx.buf|
          && got.partial + r.rx.buf[..r.rx.pos] <= sent[|got.frames|].payload)
    && (r.rx.stat == RecvPartial ==>
          && |got.frames| < |sent|
          && 0 < r.rx.frameLen
          && |got.partial| + r.rx.frameLen == |sent[|got.frames|].payload|)
  }

  /** Partial reception, in every state of every run. */
  lemma PartialReceptionAddsUp(now: System, s: Side)
    requires Reachable(now)
    ensures ReceptionAddsUp(now, s)
  {
    hide Reachable, Reassemble, Stream, Owed, EncodeAll;
    ReachableInv(now);
  }

  /** Bytes between end `s` and its peer for what was accepted so far, and how many of them are
      not on the line yet. */
  function Undelivered(sys: System, s: Side): nat {
    |sys.LineInto(s.Other())| + Unsent(sys, s)
  }

  function Unsent(sys: System, s: Side): nat {
    if sys.NodeOf(s).tx.Valid() then |sys.NodeOf(s).tx.Rest()| else 0
  }

  /** What the two ends do when only the direction from `s` matters. */
  function NextStep(sys: System, s: Side): (Side, Action) {
    if sys.NodeOf(s).tx.stat != SendIdle then (s, Transmit)
    else if sys.NodeOf(s.Other()).rx.Active() then (s.Other(), Receive)
    else (s.Other(), Recv([0], 0))
  }

  lemma NextStepShrinks(sys: System, s: Side)
    requires Inv(sys)
    requires sys.NodeOf(s).tx.stat != SendIdle || sys.LineInto(s.Other()) != []
    ensures var (side, act) := NextStep(sys, s);
            Allowed(sys, side, act) &&
            var next := StepSystem(sys, side, act);
            && next.NodeOf(s).accepted == sys.NodeOf(s).accepted
            && (if act.Transmit? then Undelivered(next, s) == Undelivered(sys, s) && Unsent(next, s) < Unsent(sys, s)
                else if act.Receive? then Undelivered(next, s) < Undelivered(sys, s)
                else Undelivered(next, s) == Undelivered(sys, s) && Unsent(next, s) == Unsent(sys, s) &&
                     !sys.NodeOf(s.Other()).rx.Active() && next.NodeOf(s.Other()).rx.Active())
  {
    hide InStep, RecvByte, Tx.Rest;
    if sys.NodeOf(s).tx.stat != SendIdle {
      TransmitMovesOneByte(sys.NodeOf(s).tx);
    }
  }

  ghost predicate LeadsTo(now: System, later: System) {
    exists run :: CanRunSystem(now, run) && RunSystem(now, run) == later
  }

  lemma {:induction false} RunOn(sys: System, run: seq<(Side, Action)>, more: seq<(Side, Action)>)
    requires CanRunSystem(sys, run) && CanRunSystem(RunSystem(sys, run), more)
    ensures CanRunSystem(sys, run + more) && RunSystem(sys, run + more) == RunSystem(RunSystem(sys, run), more)
    decreases |more|
  {
    hide Allowed, StepSystem;
    if more == [] {
      assert run + more == run;
    } else {
      RunOn(sys, run, more[..|more| - 1]);
      assert (run + more)[..|run + more| - 1] == run + more[..|more| - 1];
    }
  }

  lemma LeadsOn(a: System, b: System, c: System)
    requires LeadsTo(a, b) && LeadsTo(b, c)
    ensures LeadsTo(a, c)
  {
    hide CanRunSystem, RunSystem;
    var run :| CanRunSystem(a, run) && RunSystem(a, run) == b;
    var more :| CanRunSystem(b, more) && RunSystem(b, more) == c;
    RunOn(a, run, more);
  }

  lemma StepLeads(now: System, s: Side, act: Action)
    requires Allowed(now, s, act)
    ensures LeadsTo(now, StepSystem(now, s, act))
  {
    hide Allowed, StepSystem;
    var run := [(s, act)];
    assert run[..0] == [] && CanRunSystem(now, []);
    assert CanRunSystem(now, run) && RunSystem(now, run) == StepSystem(now, s, act);
  }

  lemma NothingLeads(now: System)
    ensures LeadsTo(now, now)
  {
    hide Allowed, StepSystem;
    assert CanRunSystem(now, []) && RunSystem(now, []) == now;
  }

  lemma {:induction false} Deliver(now: System, s: Side) returns (later: System)
    requires Inv(now)
    ensures LeadsTo(now, later) && later.NodeOf(s).accepted == now.NodeOf(s).accepted
    ensures AllDelivered(later, s)
    decreases Undelivered(now, s), Unsent(now, s), if now.NodeOf(s.Other()).rx.Active() then 0 else 1
  {
    hide Allowed, StepSystem, Linked, Undelivered, Unsent, NextStep, LeadsTo, AllDelivered;
    if now.NodeOf(s).tx.stat == SendIdle && now.LineInto(s.Other()) == [] {
      later := now;
      NothingLeads(now);
      DrainedIsDelivered(now, s);
    } else {
      NextStepShrinks(now, s);
      var (side, act) := NextStep(now, s);
      var next := StepSystem(now, side, act);
      StepKeepsInv(now, side, act);
      StepLeads(now, side, act);
      later := Deliver(next, s);
      LeadsOn(now, next, later);
    }
  }

  lemma DrainedIsDelivered(now: System, s: Side)
    requires Inv(now) && now.NodeOf(s).tx.stat == SendIdle && now.LineInto(s.Other()) == []
    ensures AllDelivered(now, s)
  {
    hide Linked, Reassemble;
    LinkedMeans(now.NodeOf(s), now.LineInto(s.Other()), now.NodeOf(s.Other()));
  }

  /** No reachable state is stuck: if `s` transmits while its peer only reads and re-arms,
      with one-byte buffers even, everything accepted so far gets delivered. */
  lemma CanDeliverAll(now: System, s: Side)
    requires Reachable(now)
    ensures exists later :: LeadsTo(now, later) && AllDelivered(later, s) &&
                            later.NodeOf(s).accepted == now.NodeOf(s).accepted
  {
    hide Reachable, Inv, LeadsTo, AllDelivered;
    ReachableInv(now);
    var later := Deliver(now, s);
  }

  // ------------------------------------------- one endpoint in the system

  lemma ReachableOn(now: System, later: System)
    requires Reachable(now) && LeadsTo(now, later)
    ensures Reachable(later)
  {
    hide CanRunSystem, RunSystem, Initial;
    var sys, run :| Initial(sys) && CanRunSystem(sys, run) && now == RunSystem(sys, run);
    var more :| CanRunSystem(now, more) && RunSystem(now, more) == later;
    RunOn(sys, run, more);
  }

  /** e, whatever it has written so far, is what is at end s of the system. */
  predicate IsEnd(e: End, now: System, s: Side) {
    e.node == now.NodeOf(s) && e.inbox == now.LineInto(s)
  }

  /** What an endpoint that is end s of the system does next leads to a state of the system in
      which it still is; what it writes is on the line to its peer, behind what was there. */
  lemma EndRuns(start: End, before: seq<Action>, acts: seq<Action>, now: System, s: Side) returns (later: System)
    requires CanRun(start, before) && CanRun(start, before + acts) && IsEnd(Run(start, before), now, s)
    requires AllConsiderate(acts, now.NodeOf(s.Other()).enabled)
    ensures LeadsTo(now, later) && IsEnd(Run(start, before + acts), later, s)
    ensures later.NodeOf(s.Other()) == now.NodeOf(s.Other())
    ensures Run(start, before).out <= Run(start, before + acts).out
    ensures later.LineInto(s.Other()) ==
            now.LineInto(s.Other()) + Run(start, before + acts).out[|Run(start, before).out|..]
  {
    hide CanRun, Run, CanRunSystem, RunSystem;
    RunSplit(start, before, acts);
    var e := Run(start, before);
    OutputOnlyGrows(e, now.LineInto(s.Other()), acts);
    assert e.(out := now.LineInto(s.Other())) == now.EndOf(s);
    OneSidedRun(now, s, acts);
    later := now.Put(s, Run(now.EndOf(s), acts));
  }
}
