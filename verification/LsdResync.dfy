/** What a receiver makes of a given run of bytes, when it is re-armed from a given list of
    buffers each time one fills up. */
module LsdResync {
  import opened Bytes
  import opened LsdFrames
  import opened LsdMachine
  import opened LsdLink

  /** Feeds `bytes` until none is left, the frame ends, or a full buffer cannot be replaced.
      Returns the state, the callbacks, and the bytes not read. */
  function Feed(rx: Rx, enabled: set<nat>, bytes: seq<byte>, bufs: seq<seq<byte>>): (Rx, seq<Event>, seq<byte>)
    requires rx.Valid() && UsableBuffers(bufs)
    decreases |bytes|, |bufs|
  {
    if rx.Active() then
      if bytes == [] then (rx, [], [])
      else
        var (r, events) := RecvByte(rx, enabled, bytes[0]);
        var (last, more, left) := Feed(r, enabled, bytes[1..], bufs);
        (last, events + more, left)
    else if rx.stat == RecvPartial && bufs != [] then
      Feed(Arm(rx, bufs[0], rx.who).1, enabled, bytes, bufs[1..])
    else
      (rx, [], bytes)
  }

  predicate UsableBuffers(bufs: seq<seq<byte>>) {
    forall i :: 0 <= i < |bufs| ==> 1 <= |bufs[i]| <= MAX_LEN
  }

  function Room(bufs: seq<seq<byte>>): nat {
    if bufs == [] then 0 else |bufs[0]| + Room(bufs[1..])
  }

  /** The callbacks hand over `data` on channel `ch` piece by piece and mark the last one only. */
  predicate Pieces(events: seq<Event>, ch: nat, data: seq<byte>) {
    && events != []
    && events[0].Delivered? && events[0].ch == ch
    && if events[0].last then events[0].data == data && |events| == 1
       else events[0].data != [] && events[0].data <= data &&
            Pieces(events[1..], ch, data[|events[0].data|..])
  }

  /** Bytes the receiver can still store, in its buffer and in those to come. */
  function Capacity(rx: Rx, bufs: seq<seq<byte>>): int {
    if rx.stat == RecvPartial then Room(bufs)
    else if rx.stat == RecvData then |rx.buf| - rx.pos + Room(bufs)
    else |rx.buf| + Room(bufs)
  }

  lemma FeedOne(rx: Rx, enabled: set<nat>, b: byte, rest: seq<byte>, bufs: seq<seq<byte>>)
    requires rx.Valid() && UsableBuffers(bufs) && rx.Active()
    ensures var (r, events) := RecvByte(rx, enabled, b);
            var (last, more, left) := Feed(r, enabled, rest, bufs);
            Feed(rx, enabled, [b] + rest, bufs) == (last, events + more, left)
  {
    assert ([b] + rest)[1..] == rest;
  }

  /** Room left compared with payload left. */
  predicate Fits(rx: Rx, partial: seq<byte>, f: Frame, bufs: seq<seq<byte>>) {
    rx.stat != RecvEtx ==> |f.payload| - |Got(rx, partial)| <= Capacity(rx, bufs)
  }

  function Handed(partial: seq<byte>, events: seq<Event>): seq<byte> {
    if events != [] && events[0].Delivered? then partial + events[0].data else partial
  }

  lemma OneByteFits(rx: Rx, partial: seq<byte>, ch: nat, f: Frame, enabled: set<nat>, bufs: seq<seq<byte>>)
    requires rx.Valid() && f.Valid() && InFrame(rx, partial, ch, f) && f.ch in enabled
    requires rx.stat in {RecvChLenH, RecvLen, RecvData} && Fits(rx, partial, f, bufs)
    ensures var (r, events) := RecvByte(rx, enabled, Owed(rx, partial, f)[0]);
            OneByteOn(rx, partial, ch, f, r, events) && Fits(r, Handed(partial, events), f, bufs)
  {
    hide Room;
    if rx.stat == RecvData {
      DataByte(rx, partial, ch, f, enabled);
    } else {
      HeaderByte(rx, partial, ch, f, enabled);
    }
  }

  lemma OnePieceMore(e: Event, more: seq<Event>, ch: nat, partial: seq<byte>, data: seq<byte>)
    requires e.Delivered? && e.ch == ch && !e.last && e.data != []
    requires partial + e.data <= data && Pieces(more, ch, data[|partial + e.data|..])
    ensures Pieces([e] + more, ch, data[|partial|..])
  {
    assert ([e] + more)[1..] == more;
    assert data[|partial|..][|e.data|..] == data[|partial + e.data|..];
  }

  lemma OwedSomething(rx: Rx, partial: seq<byte>, ch: nat, f: Frame)
    requires f.Valid() && InFrame(rx, partial, ch, f)
    ensures Owed(rx, partial, f) != []
  {
  }

  lemma FeedEtx(rx: Rx, events: seq<Event>, f: Frame, partial: seq<byte>, enabled: set<nat>,
                after: seq<byte>, bufs: seq<seq<byte>>)
    requires UsableBuffers(bufs) && rx.stat == RecvIdle && |events| == 1 && partial <= f.payload
    requires events[0].Delivered? && events[0].ch == f.ch && events[0].last && partial + events[0].data == f.payload
    ensures Feed(rx, enabled, after, bufs) == (rx, [], after)
    ensures Pieces(events + [], f.ch, f.payload[|partial|..])
  {
    assert events + [] == events;
  }

  /** Partial reception reassembles: a receiver inside frame f, given the bytes it is owed and
      enough buffers of any sizes, hands over exactly the rest of the payload and goes idle,
      reading no byte after the frame. */
  lemma {:induction false} FeedFrame(rx: Rx, partial: seq<byte>, ch: nat, f: Frame, enabled: set<nat>,
                                     after: seq<byte>, bufs: seq<seq<byte>>)
    requires rx.Valid() && f.Valid() && InFrame(rx, partial, ch, f) && f.ch in enabled
    requires UsableBuffers(bufs) && Fits(rx, partial, f, bufs)
    ensures var (r, events, left) := Feed(rx, enabled, Owed(rx, partial, f) + after, bufs);
            r.stat == RecvIdle && left == after && Pieces(events, f.ch, f.payload[|partial|..])
    decreases |Owed(rx, partial, f)|, |bufs|
  {
    if rx.stat == RecvPartial {
      var r := Arm(rx, bufs[0], rx.who).1;
      assert Got(r, partial) == partial;
      FeedFrame(r, partial, ch, f, enabled, after, bufs[1..]);
    } else {
      FeedFrameByte(rx, partial, ch, f, enabled, after, bufs);
    }
  }

  lemma {:induction false} FeedFrameByte(rx: Rx, partial: seq<byte>, ch: nat, f: Frame, enabled: set<nat>,
                                         after: seq<byte>, bufs: seq<seq<byte>>)
    requires rx.Valid() && f.Valid() && InFrame(rx, partial, ch, f) && f.ch in enabled
    requires UsableBuffers(bufs) && Fits(rx, partial, f, bufs) && rx.Active()
    ensures var (r, events, left) := Feed(rx, enabled, Owed(rx, partial, f) + after, bufs);
            r.stat == RecvIdle && left == after && Pieces(events, f.ch, f.payload[|partial|..])
    decreases |Owed(rx, partial, f)|, |bufs|, 0
  {
    hide RecvByte, Fits, Feed, Pieces, ToRead;
    var owed := Owed(rx, partial, f);
    OwedSomething(rx, partial, ch, f);
    var b, rest := owed[0], owed[1..];
    assert owed + after == [b] + (rest + after);
    FeedOne(rx, enabled, b, rest + after, bufs);
    var (r, events) := RecvByte(rx, enabled, b);
    if rx.stat == RecvEtx {
      EtxByte(rx, partial, ch, f, enabled);
      assert rest + after == after;
      FeedEtx(r, events, f, partial, enabled, after, bufs);
    } else {
      OneByteFits(rx, partial, ch, f, enabled, bufs);
      RecvByteValid(rx, enabled, b);
      FeedFrame(r, Handed(partial, events), if events == [] then ch else f.ch, f, enabled, after, bufs);
      var more := Feed(r, enabled, rest + after, bufs).1;
      if events == [] {
        assert events + more == more;
      } else {
        assert events == [events[0]];
        OnePieceMore(events[0], more, f.ch, partial, f.payload);
      }
    }
  }

  // ------------------------------------------------------ resynchronisation

  function Sevens(k: nat): seq<byte> {
    seq(k, _ => STX_ETX)
  }

  lemma {:induction false} FeedNoise(rx: Rx, enabled: set<nat>, noise: seq<byte>, rest: seq<byte>, bufs: seq<seq<byte>>)
    requires rx.Valid() && rx.stat == RecvStx && UsableBuffers(bufs) && STX_ETX !in noise
    ensures Feed(rx, enabled, noise + rest, bufs) == Feed(rx, enabled, rest, bufs)
  {
    if noise == [] {
      assert noise + rest == rest;
    } else {
      FeedNoise(rx, enabled, noise[1..], rest, bufs);
      assert noise + rest == [noise[0]] + (noise[1..] + rest);
      FeedOne(rx, enabled, noise[0], noise[1..] + rest, bufs);
      assert forall s: seq<Event> :: [] + s == s;
    }
  }

  lemma {:induction false} FeedSevens(rx: Rx, enabled: set<nat>, k: nat, rest: seq<byte>, bufs: seq<seq<byte>>)
    requires rx.Valid() && rx.stat == RecvChLenH && UsableBuffers(bufs)
    ensures Feed(rx, enabled, Sevens(k) + rest, bufs) == Feed(rx, enabled, rest, bufs)
  {
    if k == 0 {
      assert Sevens(k) + rest == rest;
    } else {
      FeedSevens(rx, enabled, k - 1, rest, bufs);
      assert Sevens(k) + rest == [STX_ETX] + (Sevens(k - 1) + rest);
      FeedOne(rx, enabled, STX_ETX, Sevens(k - 1) + rest, bufs);
      assert forall s: seq<Event> :: [] + s == s;
    }
  }

  /** No header byte that names an existing channel can be taken for another STX. */
  lemma HeaderIsNotStx(f: Frame)
    requires f.Valid()
    ensures Body(f)[0] != STX_ETX
    ensures STX_ETX / 16 >= MAX_CH
  {
  }

  /** Resynchronisation: waiting for STX, after any noise without 0x7E, any number of 0x7E from
      one up, and a valid frame, the receiver delivers that frame and nothing else. */
  lemma Resync(rx: Rx, enabled: set<nat>, noise: seq<byte>, k: nat, f: Frame, after: seq<byte>, bufs: seq<seq<byte>>)
    requires rx.Valid() && rx.stat == RecvStx && f.Valid() && f.ch in enabled
    requires STX_ETX !in noise && 1 <= k
    requires UsableBuffers(bufs) && |f.payload| <= |rx.buf| + Room(bufs)
    ensures var (r, events, left) := Feed(rx, enabled, noise + (Sevens(k) + (Body(f) + after)), bufs);
            r.stat == RecvIdle && left == after && Pieces(events, f.ch, f.payload)
  {
    hide Feed, Pieces, Body;
    FeedNoise(rx, enabled, noise, Sevens(k) + (Body(f) + after), bufs);
    assert Sevens(k) + (Body(f) + after) == [STX_ETX] + (Sevens(k - 1) + (Body(f) + after));
    FeedOne(rx, enabled, STX_ETX, Sevens(k - 1) + (Body(f) + after), bufs);
    assert forall s: seq<Event> :: [] + s == s;
    var r := rx.(stat := RecvChLenH);
    FeedSevens(r, enabled, k - 1, Body(f) + after, bufs);
    FeedFrame(r, [], 0, f, enabled, after, bufs);
    assert f.payload[0..] == f.payload;
  }

  // ------------------------------------------------------ zero-length sends

  predicate WholeFramesOnly(events: seq<Event>) {
    forall e :: e in events && e.Delivered? ==> e.last
  }

  /** With no buffer to re-arm with, only complete frames are handed over before going idle. */
  lemma {:induction false} NoBufferNoPiece(rx: Rx, enabled: set<nat>, bytes: seq<byte>)
    requires rx.Valid()
    ensures Feed(rx, enabled, bytes, []).0.stat == RecvIdle ==> WholeFramesOnly(Feed(rx, enabled, bytes, []).1)
    decreases |bytes|
  {
    if rx.Active() && bytes != [] {
      var (r, events) := RecvByte(rx, enabled, bytes[0]);
      NoBufferNoPiece(r, enabled, bytes[1..]);
      if r.stat == RecvPartial {
        assert Feed(r, enabled, bytes[1..], []).0.stat == RecvPartial;
      } else {
        assert WholeFramesOnly(events);
      }
    }
  }

  lemma ZeroLengthArrives(tx: Tx, rx: Rx, enabled: set<nat>)
    requires tx.Valid() && tx.stat == SendStx && tx.total == 0 && tx.ch in enabled
    requires rx.Valid() && rx.stat == RecvStx
    ensures Feed(rx, enabled, tx.Rest(), []).1 ==
            [if tx.data[0] == STX_ETX then Delivered(tx.ch, [], true) else Failed(ErrFraming)]
  {
    assert tx.Rest() == [STX_ETX] + ([ChLenH(tx.ch, 0)] + ([0] + ([tx.data[0]] + [STX_ETX])));
    FeedStray(rx, enabled, tx.ch, tx.data[0]);
  }

  lemma FeedStray(rx: Rx, enabled: set<nat>, ch: nat, b: byte)
    requires rx.Valid() && rx.stat == RecvStx && ch < MAX_CH && ch in enabled
    ensures Feed(rx, enabled, [STX_ETX] + ([ChLenH(ch, 0)] + ([0] + ([b] + [STX_ETX]))), []).1 ==
            [if b == STX_ETX then Delivered(ch, [], true) else Failed(ErrFraming)]
  {
    var h := ChLenH(ch, 0);
    FeedOne(rx, enabled, STX_ETX, [h] + ([0] + ([b] + [STX_ETX])), []);
    var rx1 := rx.(stat := RecvChLenH);
    FeedOne(rx1, enabled, h, [0] + ([b] + [STX_ETX]), []);
    var rx2 := rx1.(stat := RecvLen, ch := ch, frameLen := 0);
    assert h / 16 == ch && h % 16 == 0;
    FeedOne(rx2, enabled, 0, [b] + [STX_ETX], []);
    var rx3 := rx2.(stat := RecvEtx, pos := 0);
    FeedOne(rx3, enabled, b, [STX_ETX], []);
  }

  /** lsd_send accepts a length of zero, and the data state then emits the byte behind the
      pointer all the same. The peer gets the frame that was asked for if and only if the
      length is positive or that stray byte happens to be 0x7E. */
  lemma SendArrivesIff(tx: Tx, rx: Rx, enabled: set<nat>)
    requires tx.Valid() && tx.stat == SendStx && tx.ch in enabled
    requires rx.Valid() && rx.stat == RecvStx && tx.total <= |rx.buf|
    ensures Feed(rx, enabled, tx.Rest(), []).1 == [Delivered(tx.ch, tx.data[..tx.total], true)]
            <==> tx.total >= 1 || tx.data[0] == STX_ETX
  {
    if tx.total == 0 {
      ZeroLengthArrives(tx, rx, enabled);
    } else {
      var f := Frame(tx.ch, tx.data[..tx.total]);
      assert tx.Rest() == [] + (Sevens(1) + (Body(f) + []));
      Resync(rx, enabled, [], 1, f, [], []);
      NoBufferNoPiece(rx, enabled, tx.Rest());
      var events := Feed(rx, enabled, tx.Rest(), []).1;
      assert events[0] in events;
    }
  }
}
