/** Exactly which RTP-MIDI packets the parser decodes. */
module RtpMidiPacket {
  import opened Bytes
  import opened RtpMidi
  import opened RtpMidiCodec
  import opened RtpMidiShift

  /** Commands of known length are decoded, and one SysEx behind them; what is behind that, only
      by chance. */
  predicate Decodable(events: seq<Event>) {
    events == [] ||
    if events[0].SysEx? then AllByChance(events[1..], SYSEX_END)
    else Known(events[0].status) && Decodable(events[1..])
  }

  /** Commands the parser knows the length of, with a SysEx as the last of them at most. */
  predicate Plain(events: seq<Event>) {
    forall i :: 0 <= i < |events| ==>
      if events[i].SysEx? then i == |events| - 1 else Known(events[i].status)
  }

  lemma {:induction false} PlainIsDecodable(events: seq<Event>)
    requires Plain(events)
    ensures Decodable(events)
    decreases |events|
  {
    if events != [] {
      assert forall i :: 1 <= i < |events| ==> events[i] == events[1..][i - 1];
      PlainIsDecodable(events[1..]);
    }
  }

  /** Decoding inverts encoding exactly for these lists: for every list of commands and every way
      to encode it, with or without running status and with any delta times, the parser stops at
      the end and has emitted every command in full if and only if the list is decodable. */
  lemma {:induction false} ListDecodesIff(b: seq<byte>, c: nat, end: nat, events: seq<Event>, running: byte, status: byte)
    requires ValidList(events, running) && (running == 0 || running == status)
    requires At(b, c, end, events, false)
    ensures c <= |b|
    ensures Parse(b, c, end, status) == Done(Meaning(events)) <==> Decodable(events)
    decreases |events|
  {
    hide Parse, At, Holds, Known, Event.Valid, Event.Body, Event.Message, AllByChance;
    EndIsBehind(b, c, end, events, false);
    if events == [] {
      NothingLeft(b, c, end, false, status);
    } else {
      var e, rest := events[0], events[1..];
      HeadAndTail(events, rest, running);
      if e.SysEx? {
        SysExRead(b, c, end, events, status);
        var c' := c + |e.Body()|;
        ListByChanceIff(b, c', end, rest, 0, SYSEX_END);
        EmitDecodes(e.Message(), Parse(b, c', end, SYSEX_END), Meaning(rest));
      } else if Known(e.status) {
        KnownFollows(events, rest, running, status);
        CommandRead(b, c, end, events, rest, status);
        var c' := c + |e.Body()| + |HeadDelta(rest)|;
        ListDecodesIff(b, c', end, rest, NextRunning(e, running), e.status);
        EmitDecodes(e.Message(), Parse(b, c', end, e.status), Meaning(rest));
      } else {
        UnknownSpoils(b, c, end, events, running, status);
      }
    }
  }

  lemma KnownFollows(events: seq<Event>, rest: seq<Event>, running: byte, status: byte)
    requires events != [] && rest == events[1..] && events[0].Command? && Known(events[0].status)
    requires ValidList(events, running) && (running == 0 || running == status)
    ensures events[0].explicit || (events[0].status == status && events[0].data != [])
    ensures NextRunning(events[0], running) == 0 || NextRunning(events[0], running) == events[0].status
    ensures rest == [] || IsDelta(rest[0].delta)
  {
  }

  // ------------------------------------------------------------- packets

  /** The command section of RFC 6295, section 3: flags B J Z P and the list's length, in 4 bits
      of one byte or 12 bits of two. With Z the first command has a delta time. */
  datatype Header = Header(long: bool, journal: bool, z: bool, phantom: bool) {
    function Encode(len: nat): seq<byte>
      requires len < if long then 4096 else 16
    {
      if long then [128 + Flags() + len / 256, len % 256] else [Flags() + len]
    }

    function Flags(): (f: nat)
      ensures f <= 112 && f % 16 == 0
    {
      (if journal then 64 else 0) + (if z then 32 else 0) + (if phantom then 16 else 0)
    }
  }

  /** The length the parser computes is the one the header encodes if and only if the high four
      bits of a long length are zero; else it is larger. */
  lemma LengthReadIff(h: Header, len: nat)
    requires len < if h.long then 4096 else 16
    ensures var bytes := h.Encode(len);
            && IsLongHeader(bytes[0]) == h.long
            && var got := if h.long then TwelveBitLength(bytes[0], bytes[1]) else FourBitLength(bytes[0]);
            && (got == len <==> !h.long || len < 256)
            && got >= len
  {
    if h.long {
      var hi, lo := len / 256, len % 256;
      hide Header.Flags;
      assert (128 + h.Flags() + hi) * 0x1000 + lo == (128 + h.Flags()) / 16 * 0x10000 + (hi * 0x1000 + lo);
      assert hi * 0x1000 + lo < 0x10000;
      assert TwelveBitLength(128 + h.Flags() + hi, lo) == hi * 0x1000 + lo;
    }
  }

  /** A cursor that starts in the packet never meets an end behind it. */
  lemma {:induction false} EndBehindPacket(b: seq<byte>, c: nat, end: nat, status: byte)
    requires c <= |b| < end
    ensures Parse(b, c, end, status) == Wild
    decreases |b| - c
  {
    if c < |b| {
      if b[c] == SYSEX_START {
        var e := SysExEnd(b, c + 1);
        if e < |b| {
          EndBehindPacket(b, e, end, status);
        }
      } else if b[c] >= 0x80 {
        EndBehindPacket(b, c + 1, end, b[c]);
      } else if c + BytesToEmit(status) <= |b| {
        var d := DeltaEnd(b, c + BytesToEmit(status));
        if d < |b| {
          EndBehindPacket(b, d + 1, end, status);
        }
      }
    }
  }

  /** The parser ignores Z: a first delta time is taken for commands. */
  predicate Readable(h: Header, events: seq<Event>) {
    if h.z then AllByChance(events, 0) else Decodable(events)
  }

  lemma ListReadIff(b: seq<byte>, c: nat, end: nat, h: Header, events: seq<Event>)
    requires ValidList(events, 0) && At(b, c, end, events, h.z)
    ensures c <= |b|
    ensures Parse(b, c, end, 0) == Done(Meaning(events)) <==> Readable(h, events)
  {
    if h.z {
      ListByChanceIff(b, c, end, events, 0, 0);
    } else {
      ListDecodesIff(b, c, end, events, 0, 0);
    }
  }

  /** Where the list is in a packet. */
  lemma ListInPacket(rtp: seq<byte>, h: Header, list: seq<byte>, rest: seq<byte>)
    requires |rtp| == RTP_MIDI_HEADER_LEN && |list| < if h.long then 4096 else 16
    ensures var head := h.Encode(|list|);
            var b := rtp + head + list + rest;
            var start := RTP_MIDI_HEADER_LEN + |head|;
            && Holds(b, start, list)
            && (!h.long || |list| < 256 ==> ParsePacket(b) == Parse(b, start, start + |list|, 0))
            && (h.long && |list| >= 256 && rest == [] ==> ParsePacket(b) == Wild)
  {
    hide Parse;
    var head := h.Encode(|list|);
    var b := rtp + head + list + rest;
    var start := RTP_MIDI_HEADER_LEN + |head|;
    assert b[RTP_MIDI_HEADER_LEN] == head[0];
    assert h.long ==> b[RTP_MIDI_HEADER_LEN + 1] == head[1];
    LengthReadIff(h, |list|);
    if h.long && |list| >= 256 && rest == [] {
      EndBehindPacket(b, start, start + TwelveBitLength(head[0], head[1]), 0);
    }
  }

  /** Exactly which packets are decoded: for every RTP header, every list of MIDI commands and
      every way of encoding it, with a delta time in front or not, the packet that holds the list
      and nothing behind it gives exactly the commands in full if and only if the list is
      readable and so is its length. */
  lemma PacketDecodesIff(rtp: seq<byte>, h: Header, events: seq<Event>)
    requires |rtp| == RTP_MIDI_HEADER_LEN && ValidList(events, 0)
    requires |EncodeList(events, h.z)| < if h.long then 4096 else 16
    ensures var list := EncodeList(events, h.z);
            ParsePacket(rtp + h.Encode(|list|) + list) == Done(Meaning(events))
            <==> Readable(h, events) && (!h.long || |list| < 256)
  {
    hide Parse, ParsePacket, Meaning, EncodeList, Readable, Holds;
    var list := EncodeList(events, h.z);
    var head := h.Encode(|list|);
    var start := RTP_MIDI_HEADER_LEN + |head|;
    ListInPacket(rtp, h, list, []);
    assert rtp + head + list + [] == rtp + head + list;
    ListReadIff(rtp + head + list, start, start + |list|, h, events);
  }

  /** With a recovery journal or anything else behind the list, it is still decoded. */
  lemma PacketWithJournalDecodes(rtp: seq<byte>, h: Header, events: seq<Event>, rest: seq<byte>)
    requires |rtp| == RTP_MIDI_HEADER_LEN && ValidList(events, 0) && Readable(h, events)
    requires |EncodeList(events, h.z)| < if h.long then 256 else 16
    ensures var list := EncodeList(events, h.z);
            ParsePacket(rtp + h.Encode(|list|) + list + rest) == Done(Meaning(events))
  {
    hide Parse, ParsePacket, Meaning, EncodeList, Readable, Holds;
    var list := EncodeList(events, h.z);
    var head := h.Encode(|list|);
    var start := RTP_MIDI_HEADER_LEN + |head|;
    ListInPacket(rtp, h, list, rest);
    ListReadIff(rtp + head + list + rest, start, start + |list|, h, events);
  }

  // ----------------------------------------------------------- two inputs

  /** One that fails: a pitch bend loses its second data byte. */
  lemma PitchBendFails()
    ensures ParsePacket(seq(12, _ => 0) + [3, 0xE0, 0x00, 0x40]) == Done([0xE0, 0x00])
  {
    var b := seq(12, _ => 0) + [3, 0xE0, 0x00, 0x40];
    assert DeltaEnd(b, 15) == 15;
    assert AfterEvent(b, 15, 16, 0xE0) == Parse(b, 16, 16, 0xE0) == Done([]);
    assert Parse(b, 14, 16, 0xE0) == Emit([0xE0] + b[14..15], Done([]));
    assert b[14..15] == [0x00];
  }

  /** Another: a note behind a SysEx. The byte that ends the SysEx becomes the status, and the
      delta time behind it is taken for data. */
  lemma NoteBehindSysExFails()
    ensures Parse([0xF0, 0x01, 0xF7, 0x00, 0x90, 0x3C, 0x40], 0, 7, 0) ==
            Done([0xF0, 0x01, 0xF7, 0xF7, 0x00, 0xF7, 0x40])
  {
    var b: seq<byte> := [0xF0, 0x01, 0xF7, 0x00, 0x90, 0x3C, 0x40];
    assert SysExEnd(b, 1) == 2;
    assert DeltaEnd(b, 4) == 5;
    assert Parse(b, 6, 7, 0xF7) == Emit([0xF7] + b[6..7], Done([]));
    assert Parse(b, 3, 7, 0xF7) == Emit([0xF7] + b[3..4], Parse(b, 6, 7, 0xF7));
    assert Parse(b, 2, 7, 0) == Parse(b, 3, 7, 0xF7);
    assert b[0..3] + (([0xF7] + b[3..4]) + (([0xF7] + b[6..7]) + [])) == [0xF0, 0x01, 0xF7, 0xF7, 0x00, 0xF7, 0x40];
  }

  lemma ChanceList(list: seq<Event>, change: Event)
    requires change == Command([0xC5, 0x10], 0xC5, [0x10], true) && list == [SysEx([0x00], [0x01]), change]
    ensures ValidList(list, 0) && Decodable(list)
    ensures EncodeList(list, false) == [0xF0, 0x01, 0xF7, 0xC5, 0x10, 0xC5, 0x10]
    ensures Meaning(list) == [0xF0, 0x01, 0xF7, 0xC5, 0x10]
  {
    assert list[1..] == [change];
    assert ByChance(change, SYSEX_END);
    assert EncodeList([change], true) == [0xC5, 0x10] + ([0xC5] + [0x10]);
    assert Meaning([change]) == [0xC5, 0x10];
  }

  /** And one that is right by chance: a program change whose delta time has the same bytes. */
  lemma ProgramChangeByChance()
    ensures Parse([0xF0, 0x01, 0xF7, 0xC5, 0x10, 0xC5, 0x10], 0, 7, 0) == Done([0xF0, 0x01, 0xF7, 0xC5, 0x10])
  {
    var b: seq<byte> := [0xF0, 0x01, 0xF7, 0xC5, 0x10, 0xC5, 0x10];
    var change := Command([0xC5, 0x10], 0xC5, [0x10], true);
    var list := [SysEx([0x00], [0x01]), change];
    ChanceList(list, change);
    hide Parse, Decodable, ValidList, EncodeList, Meaning;
    assert b[0..7] == b;
    ListDecodesIff(b, 0, 7, list, 0, 0);
  }
}
