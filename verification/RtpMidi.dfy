/** The RTP-MIDI command-list parser, as a function and as it is written. */
module RtpMidi {
  import opened Bytes

  const RTP_MIDI_HEADER_LEN := 12
  const SYSEX_START: byte := 0xF0
  const SYSEX_END: byte := 0xF7

  /** `Wild`: the cursor would be dereferenced behind the end of the packet. */
  datatype Outcome = Done(emitted: seq<byte>) | Wild

  // ------------------------------------------------------------- the parser

  predicate IsLongHeader(first: byte) {
    first / 128 == 1
  }

  function FourBitLength(first: byte): nat {
    first % 16
  }

  /** The first byte is shifted by 12 and the sum kept in 16 bits. */
  function TwelveBitLength(first: byte, second: byte): nat {
    (first * 0x1000 + second) % 0x10000
  }

  /** (s & 0xC0) == 0xC0 || (s & 0xD0) == 0xD0 */
  function BytesToEmit(status: byte): nat {
    if status / 64 == 3 || status / 16 == 0xD || status / 16 == 0xF then 1 else 2
  }

  /** First index from c on whose byte ends a SysEx command, or the end of b. */
  function SysExEnd(b: seq<byte>, c: nat): (e: nat)
    requires c <= |b|
    ensures c <= e <= |b|
    decreases |b| - c
  {
    if c == |b| || b[c] == SYSEX_END then c else SysExEnd(b, c + 1)
  }

  /** First index from c on whose byte ends a delta time, or the end of b. */
  function DeltaEnd(b: seq<byte>, c: nat): (e: nat)
    requires c <= |b|
    ensures c <= e <= |b|
    decreases |b| - c
  {
    if c == |b| || b[c] < 0x80 then c else DeltaEnd(b, c + 1)
  }

  /** What the packet loop emits from cursor c on, in state `status`. */
  function Parse(b: seq<byte>, c: nat, end: nat, status: byte): Outcome
    requires c <= |b|
    decreases |b| - c
  {
    if c == end then Done([])
    else if c == |b| then Wild
    else if b[c] == SYSEX_START then
      var e := SysExEnd(b, c + 1);
      if e == |b| then Wild else Emit(b[c..e + 1], Parse(b, e, end, status))
    else if b[c] >= 0x80 then
      Parse(b, c + 1, end, b[c])
    else
      var c' := c + BytesToEmit(status);
      if c' > |b| then Wild
      else
        Emit([status] + b[c..c'], AfterEvent(b, c', end, status))
  }

  /** What follows an event that has been emitted. */
  function AfterEvent(b: seq<byte>, c: nat, end: nat, status: byte): Outcome
    requires c <= |b|
    decreases |b| - c
  {
    if c == end then Done([])
    else
      var d := DeltaEnd(b, c);
      if d == |b| then Wild else Parse(b, d + 1, end, status)
  }

  function Emit(bytes: seq<byte>, then_: Outcome): Outcome {
    if then_.Wild? then Wild else Done(bytes + then_.emitted)
  }

  /** rtpmidi_processRtpMidiPacket */
  function ParsePacket(buffer: seq<byte>): Outcome {
    if |buffer| <= RTP_MIDI_HEADER_LEN then Wild
    else
      var first := buffer[RTP_MIDI_HEADER_LEN];
      if !IsLongHeader(first) then
        var start := RTP_MIDI_HEADER_LEN + 1;
        Parse(buffer, start, start + FourBitLength(first), 0)
      else if |buffer| == RTP_MIDI_HEADER_LEN + 1 then Wild
      else
        var start := RTP_MIDI_HEADER_LEN + 2;
        Parse(buffer, start, start + TwelveBitLength(first, buffer[RTP_MIDI_HEADER_LEN + 1]), 0)
  }

  /** With `emitted` out and `rest` to come, the whole is still `all` after `start`. */
  ghost predicate OnTrack(start: seq<byte>, all: Outcome, emitted: seq<byte>, rest: Outcome) {
    && (all.Wild? <==> rest.Wild?)
    && (rest.Done? ==> start + all.emitted == emitted + rest.emitted)
  }

  lemma EmitKeepsTrack(start: seq<byte>, all: Outcome, emitted: seq<byte>, bytes: seq<byte>, rest: Outcome)
    requires OnTrack(start, all, emitted, Emit(bytes, rest))
    ensures OnTrack(start, all, emitted + bytes, rest)
  {
    if rest.Done? {
      assert emitted + (bytes + rest.emitted) == (emitted + bytes) + rest.emitted;
    }
  }

  lemma ParseUnfolds(b: seq<byte>, c: nat, end: nat, status: byte)
    requires c <= |b| && c != end
    ensures c == |b| ==> Parse(b, c, end, status) == Wild
    ensures c < |b| && b[c] == SYSEX_START ==>
              var e := SysExEnd(b, c + 1);
              Parse(b, c, end, status) == if e == |b| then Wild else Emit(b[c..e + 1], Parse(b, e, end, status))
    ensures c < |b| && b[c] != SYSEX_START && b[c] >= 0x80 ==>
              Parse(b, c, end, status) == Parse(b, c + 1, end, b[c])
    ensures c < |b| && b[c] < 0x80 ==>
              var c' := c + BytesToEmit(status);
              Parse(b, c, end, status) ==
              if c' > |b| then Wild else Emit([status] + b[c..c'], AfterEvent(b, c', end, status))
  {
  }

  lemma ParseAtEnd(b: seq<byte>, end: nat, status: byte)
    requires end <= |b|
    ensures Parse(b, end, end, status) == Done([])
  {
  }

  /** The parser as it is written, with a cursor that advances and emits as it goes. */
  class Parser {
    const b: seq<byte>
    var cursor: nat
    var emitted: seq<byte>  // midi_emit

    constructor (buffer: seq<byte>)
      ensures b == buffer && cursor == 0 && emitted == []
    {
      b, cursor, emitted := buffer, 0, [];
    }

    /** emitMidiEvent */
    method EmitMidiEvent(status: byte) returns (ok: bool)
      requires cursor < |b|
      modifies this
      ensures ok <==> old(cursor) + BytesToEmit(status) <= |b|
      ensures ok ==> cursor == old(cursor) + BytesToEmit(status) &&
                     emitted == old(emitted) + ([status] + b[old(cursor)..cursor])
    {
      emitted := emitted + [status];
      var i := 0;
      while i < BytesToEmit(status)
        invariant 0 <= i <= BytesToEmit(status) && cursor == old(cursor) + i <= |b|
        invariant emitted == old(emitted) + ([status] + b[old(cursor)..cursor])
      {
        if cursor == |b| {
          return false;
        }
        emitted := emitted + [b[cursor]];
        cursor := cursor + 1;
        i := i + 1;
      }
      ok := true;
    }

    /** processSysEx: leaves the cursor on the byte that ends the command. */
    method ProcessSysEx() returns (ok: bool)
      requires cursor < |b|
      modifies this
      ensures ok <==> SysExEnd(b, old(cursor) + 1) < |b|
      ensures ok ==> cursor == SysExEnd(b, old(cursor) + 1) &&
                     emitted == old(emitted) + b[old(cursor)..cursor + 1]
    {
      emitted := emitted + [b[cursor]];
      cursor := cursor + 1;
      while cursor < |b| && b[cursor] != SYSEX_END
        invariant old(cursor) < cursor <= |b|
        invariant SysExEnd(b, cursor) == SysExEnd(b, old(cursor) + 1)
        invariant emitted == old(emitted) + b[old(cursor)..cursor]
      {
        emitted := emitted + [b[cursor]];
        cursor := cursor + 1;
      }
      if cursor == |b| {
        return false;
      }
      emitted := emitted + [b[cursor]];
      ok := true;
    }

    method SkipDelta() returns (ok: bool)
      requires cursor <= |b|
      modifies this`cursor
      ensures ok <==> DeltaEnd(b, old(cursor)) < |b|
      ensures ok ==> cursor == DeltaEnd(b, old(cursor)) + 1
    {
      while cursor < |b| && b[cursor] >= 0x80
        invariant old(cursor) <= cursor <= |b|
        invariant DeltaEnd(b, cursor) == DeltaEnd(b, old(cursor))
      {
        cursor := cursor + 1;
      }
      if cursor == |b| {
        return false;
      }
      cursor := cursor + 1;
      ok := true;
    }

    /** The packet loop: true if it gets to `end`. */
    method ProcessCommands(end: nat) returns (ok: bool)
      requires cursor <= |b|
      modifies this
      ensures ok <==> Parse(b, old(cursor), end, 0).Done?
      ensures ok ==> emitted == old(emitted) + Parse(b, old(cursor), end, 0).emitted
    {
      hide Parse, Emit, SysExEnd, DeltaEnd, BytesToEmit;
      var status: byte := 0;
      ghost var all := Parse(b, cursor, end, 0);
      while cursor != end
        invariant cursor <= |b|
        invariant OnTrack(old(emitted), all, emitted, Parse(b, cursor, end, status))
        decreases |b| - cursor
      {
        ghost var c, before := cursor, emitted;
        ParseUnfolds(b, c, end, status);
        if cursor == |b| {
          return false;
        }
        if b[cursor] == SYSEX_START {
          ok := ProcessSysEx();
          if !ok {
            return;
          }
          EmitKeepsTrack(old(emitted), all, before, b[c..cursor + 1], Parse(b, cursor, end, status));
        } else if b[cursor] >= 0x80 {
          status := b[cursor];
          cursor := cursor + 1;
        } else {
          ok := EmitMidiEvent(status);
          if !ok {
            return;
          }
          EmitKeepsTrack(old(emitted), all, before, [status] + b[c..cursor], AfterEvent(b, cursor, end, status));
          if cursor == end {
            break;
          }
          ok := SkipDelta();
          if !ok {
            return;
          }
        }
      }
      ParseAtEnd(b, end, status);
      ok := true;
    }

    method ProcessPacket() returns (ok: bool)
      requires cursor == 0 && emitted == []
      modifies this
      ensures ok <==> ParsePacket(b).Done?
      ensures ok ==> emitted == ParsePacket(b).emitted
    {
      if |b| <= RTP_MIDI_HEADER_LEN {
        return false;
      }
      var first := b[RTP_MIDI_HEADER_LEN];
      var length: nat;
      if IsLongHeader(first) {
        if |b| == RTP_MIDI_HEADER_LEN + 1 {
          return false;
        }
        length := TwelveBitLength(first, b[RTP_MIDI_HEADER_LEN + 1]);
        cursor := RTP_MIDI_HEADER_LEN + 2;
      } else {
        length := FourBitLength(first);
        cursor := RTP_MIDI_HEADER_LEN + 1;
      }
      ok := ProcessCommands(cursor + length);
    }
  }
}
