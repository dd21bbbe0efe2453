/** Which frames a receiver takes, where it stores them, and what it says of the others: exact
    outcomes for a receiver that is given the bytes of one frame. */
module LsdAccept {
  import opened Bytes
  import opened LsdFrames
  import opened LsdMachine
  import opened LsdResync

  // ------------------------------------------------------------ wire format

  /** The frame on the wire: 0x7E, the channel in the high four bits and the length in the other
      twelve, the payload, 0x7E. */
  lemma WireFormat(f: Frame)
    requires f.Valid()
    ensures var e, n := Encode(f), |f.payload|;
            && |e| == n + 4
            && e[0] == 0x7E == e[n + 3]
            && (var hi: int, lo: int := e[1], e[2]; hi / 16 == f.ch && hi % 16 * 256 + lo == n)
            && e[3..n + 3] == f.payload
  {
    var n := |f.payload|;
    var e := Encode(f);
    assert e == [STX_ETX, ChLenH(f.ch, n), LenL(n)] + f.payload + [STX_ETX];
  }

  // ---------------------------------------------------------------- headers

  lemma FeedStopped(rx: Rx, enabled: set<nat>, bytes: seq<byte>, bufs: seq<seq<byte>>)
    requires rx.Valid() && rx.stat == RecvIdle && UsableBuffers(bufs)
    ensures Feed(rx, enabled, bytes, bufs) == (rx, [], bytes)
  {
  }

  /** A header byte that names a channel which does not exist, or is not enabled, ends the
      reception with an error. */
  lemma HeaderRefused(rx: Rx, enabled: set<nat>, h: byte, rest: seq<byte>, bufs: seq<seq<byte>>)
    requires rx.Valid() && rx.stat == RecvChLenH && UsableBuffers(bufs)
    requires h != STX_ETX && (h / 16 >= MAX_CH || h / 16 !in enabled)
    ensures var (r, events, left) := Feed(rx, enabled, [h] + rest, bufs);
            r == rx.(stat := RecvIdle, ch := h / 16, frameLen := h % 16 * 256) &&
            events == [Failed(ErrInvalidCh)] && left == rest
  {
    FeedOne(rx, enabled, h, rest, bufs);
    FeedStopped(RecvByte(rx, enabled, h).0, enabled, rest, bufs);
  }

  /** A frame on a channel that is not enabled is refused at its header, and nothing more of it
      is read. */
  lemma RefusesOtherChannels(rx: Rx, enabled: set<nat>, f: Frame, after: seq<byte>, bufs: seq<seq<byte>>)
    requires rx.Valid() && rx.stat == RecvStx && f.Valid() && f.ch !in enabled && UsableBuffers(bufs)
    ensures var (r, events, left) := Feed(rx, enabled, Encode(f) + after, bufs);
            && r.stat == RecvIdle && r.buf == rx.buf && r.who == rx.who
            && events == [Failed(ErrInvalidCh)] && left == Encode(f)[2..] + after
  {
    hide Feed;
    WireFormat(f);
    var e := Encode(f);
    var h, rest := e[1], e[2..] + after;
    assert e + after == [STX_ETX] + ([h] + rest);
    FeedOne(rx, enabled, STX_ETX, [h] + rest, bufs);
    HeaderIsNotStx(f);
    HeaderRefused(rx.(stat := RecvChLenH), enabled, h, rest, bufs);
    assert [] + [Failed(ErrInvalidCh)] == [Failed(ErrInvalidCh)];
  }

  // ---------------------------------------------------------------- payload

  /** The buffer with `data` stored from `pos` on. */
  function Stored(buf: seq<byte>, pos: nat, data: seq<byte>): seq<byte>
    requires pos + |data| <= |buf|
  {
    buf[..pos] + data + buf[pos + |data|..]
  }

  lemma StoredOne(buf: seq<byte>, pos: nat, data: seq<byte>)
    requires data != [] && pos + |data| <= |buf|
    ensures Stored(buf[pos := data[0]], pos + 1, data[1..]) == Stored(buf, pos, data)
  {
  }

  /** The rest of a payload that the buffer has room for is stored byte by byte, in order, and no
      other byte of the buffer is touched. */
  lemma {:induction false} FeedPayload(rx: Rx, enabled: set<nat>, data: seq<byte>, rest: seq<byte>, bufs: seq<seq<byte>>)
    requires rx.Valid() && rx.stat == RecvData && UsableBuffers(bufs)
    requires rx.frameLen == rx.pos + |data| <= |rx.buf|
    ensures var r := rx.(stat := RecvEtx, pos := rx.frameLen, buf := Stored(rx.buf, rx.pos, data));
            Feed(rx, enabled, data + rest, bufs) == Feed(r, enabled, rest, bufs)
    decreases |data|
  {
    hide Feed;
    var r := RecvByte(rx, enabled, data[0]).0;
    assert data + rest == [data[0]] + (data[1..] + rest);
    FeedOne(rx, enabled, data[0], data[1..] + rest, bufs);
    assert forall s: seq<Event> :: [] + s == s;
    if |data| == 1 {
      assert data[1..] + rest == rest;
      assert Stored(rx.buf, rx.pos, data) == rx.buf[rx.pos := data[0]];
    } else {
      StoredOne(rx.buf, rx.pos, data);
      FeedPayload(r, enabled, data[1..], rest, bufs);
    }
  }

  /** The receiver of f with only the closing byte to come. */
  function AwaitingEtx(rx: Rx, f: Frame): Rx
    requires |f.payload| <= |rx.buf|
  {
    Rx(RecvEtx, f.ch, |f.payload|, |f.payload|, f.payload + rx.buf[|f.payload|..], rx.who)
  }

  lemma FeedToEtx(rx: Rx, enabled: set<nat>, f: Frame, rest: seq<byte>, bufs: seq<seq<byte>>)
    requires rx.Valid() && rx.stat == RecvStx && f.Valid() && f.ch in enabled && |f.payload| <= |rx.buf|
    requires UsableBuffers(bufs)
    ensures var n := |f.payload|;
            Feed(rx, enabled, [STX_ETX] + ([ChLenH(f.ch, n)] + ([LenL(n)] + (f.payload + rest))), bufs) ==
            Feed(AwaitingEtx(rx, f), enabled, rest, bufs)
  {
    hide Feed;
    var n := |f.payload|;
    var h, l := ChLenH(f.ch, n), LenL(n);
    assert forall s: seq<Event> :: [] + s == s;
    FeedOne(rx, enabled, STX_ETX, [h] + ([l] + (f.payload + rest)), bufs);
    HeaderIsNotStx(f);
    var r1 := rx.(stat := RecvChLenH);
    FeedOne(r1, enabled, h, [l] + (f.payload + rest), bufs);
    var r2 := r1.(ch := f.ch, frameLen := n / 256 * 256, stat := RecvLen);
    assert RecvByte(r1, enabled, h) == (r2, []) by { WireFormat(f); }
    FeedOne(r2, enabled, l, f.payload + rest, bufs);
    var r3 := r2.(frameLen := n, pos := 0, stat := RecvData);
    assert RecvByte(r2, enabled, l) == (r3, []);
    FeedPayload(r3, enabled, f.payload, rest, bufs);
    assert Stored(rx.buf, 0, f.payload) == f.payload + rx.buf[n..];
  }

  // --------------------------------------------------------------- outcomes

  /** The frame as it should be, but with another byte in place of the closing one. */
  function EndingWith(f: Frame, b: byte): seq<byte>
    requires f.Valid()
  {
    Encode(f)[..|f.payload| + 3] + [b]
  }

  lemma EndingParts(f: Frame, b: byte, after: seq<byte>)
    requires f.Valid()
    ensures var n := |f.payload|;
            EndingWith(f, b) + after ==
            [STX_ETX] + ([ChLenH(f.ch, n)] + ([LenL(n)] + (f.payload + ([b] + after))))
  {
    var head := [STX_ETX, ChLenH(f.ch, |f.payload|), LenL(|f.payload|)] + f.payload;
    assert Encode(f) == head + [STX_ETX];
    assert EndingWith(f, b) == head + [b];
  }

  /** A frame that fits the buffer is delivered in one piece if and only if the closing byte is
      0x7E; else a framing error is reported and nothing delivered. Either way the reception is
      over, no byte behind the frame is read, and the payload is at the start of the buffer, the
      rest of which is as it was. */
  lemma DeliveredOrFramingError(rx: Rx, enabled: set<nat>, f: Frame, b: byte, after: seq<byte>, bufs: seq<seq<byte>>)
    requires rx.Valid() && rx.stat == RecvStx && f.Valid() && f.ch in enabled && |f.payload| <= |rx.buf|
    requires UsableBuffers(bufs)
    ensures var (r, events, left) := Feed(rx, enabled, EndingWith(f, b) + after, bufs);
            && events == [if b == STX_ETX then Delivered(f.ch, f.payload, true) else Failed(ErrFraming)]
            && r.stat == RecvIdle && left == after
            && r.buf == f.payload + rx.buf[|f.payload|..] && r.who == rx.who
  {
    hide Feed, Encode;
    var n := |f.payload|;
    EndingParts(f, b, after);
    FeedToEtx(rx, enabled, f, [b] + after, bufs);
    var r := AwaitingEtx(rx, f);
    FeedOne(r, enabled, b, after, bufs);
    assert r.buf[..n] == f.payload;
    FeedStopped(RecvByte(r, enabled, b).0, enabled, after, bufs);
    assert forall s: seq<Event> :: s + [] == s;
  }

  /** lsd_recv on an idle receiver, then a frame that fits: it is handed over in one callback, the
      one named in the call, and it is in the buffer given in the call; if and only if its channel
      is enabled. */
  lemma ReceivedIntoBuffer(rx: Rx, buf: seq<byte>, who: nat, enabled: set<nat>, f: Frame, after: seq<byte>)
    requires rx.stat == RecvIdle && f.Valid() && |f.payload| <= |buf| <= MAX_LEN
    ensures var armed := Arm(rx, buf, who).1;
            var (r, events, left) := Feed(armed, enabled, Encode(f) + after, []);
            && armed.Valid() && r.stat == RecvIdle && r.who == who
            && events == [if f.ch in enabled then Delivered(f.ch, f.payload, true) else Failed(ErrInvalidCh)]
            && r.buf == (if f.ch in enabled then f.payload + buf[|f.payload|..] else buf)
            && left == if f.ch in enabled then after else Encode(f)[2..] + after
  {
    hide Feed, Encode;
    var armed := Arm(rx, buf, who).1;
    if f.ch in enabled {
      assert EndingWith(f, STX_ETX) == Encode(f) by { WireFormat(f); }
      DeliveredOrFramingError(armed, enabled, f, STX_ETX, after, []);
    } else {
      RefusesOtherChannels(armed, enabled, f, after, []);
    }
  }
}
