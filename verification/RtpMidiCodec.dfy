/** Every encoding of a list of complete MIDI commands, and what the parser makes of one command. */
module RtpMidiCodec {
  import opened Bytes
  import opened RtpMidi

  /** Number of data bytes MIDI gives a status: channel messages, system common, real time. */
  function DataLen(status: byte): nat {
    if status / 16 == 0xC || status / 16 == 0xD then 1
    else if status / 16 != 0xF then 2
    else if status == 0xF2 then 2
    else if status == 0xF1 || status == 0xF3 then 1
    else 0
  }

  /** A command with its encoding: the delta time before it, which the first of a list may lack,
      and whether the status byte is written or left to running status. */
  datatype Event =
    | Command(delta: seq<byte>, status: byte, data: seq<byte>, explicit: bool)
    | SysEx(delta: seq<byte>, data: seq<byte>)
  {
    predicate Valid() {
      && IsDelta(delta)
      && match this
         case Command(_, status, data, _) =>
           && IsStatus(status)
           && |data| == DataLen(status)
           && forall i :: 0 <= i < |data| ==> data[i] < 0x80
         case SysEx(_, data) => SYSEX_START !in data && SYSEX_END !in data
    }

    /** The bytes behind the delta time. */
    function Body(): seq<byte> {
      match this
      case Command(_, status, data, explicit) => (if explicit then [status] else []) + data
      case SysEx(_, data) => [SYSEX_START] + (data + [SYSEX_END])
    }

    /** The command in full, as it should reach the MIDI output. */
    function Message(): seq<byte> {
      match this
      case Command(_, status, data, _) => [status] + data
      case SysEx(_, data) => [SYSEX_START] + (data + [SYSEX_END])
    }
  }

  /** The statuses of commands other than SysEx, the undefined ones left out. */
  predicate IsStatus(status: byte) {
    0x80 <= status && status !in {0xF0, 0xF4, 0xF5, 0xF7}
  }

  /** Octets with bit 7 set in all but the last. */
  predicate EndsLow(d: seq<byte>) {
    && d != []
    && d[|d| - 1] < 0x80
    && forall i :: 0 <= i < |d| - 1 ==> d[i] >= 0x80
  }

  /** A delta time: one to four such octets. */
  predicate IsDelta(d: seq<byte>) {
    EndsLow(d) && |d| <= 4
  }

  /** The status that running status stands for after a command, 0 for none: real-time commands
      leave it as it is, system common ones and SysEx cancel it. */
  function NextRunning(e: Event, running: byte): byte {
    if e.SysEx? then 0
    else if e.status >= 0xF8 then running
    else if e.status >= 0xF0 then 0
    else e.status
  }

  predicate ValidList(events: seq<Event>, running: byte) {
    events == [] ||
    (events[0].Valid() &&
     (events[0].Command? && !events[0].explicit ==> events[0].status == running && events[0].data != []) &&
     ValidList(events[1..], NextRunning(events[0], running)))
  }

  function EncodeList(events: seq<Event>, withDelta: bool): seq<byte> {
    if events == [] then []
    else (if withDelta then events[0].delta else []) + (events[0].Body() + EncodeList(events[1..], true))
  }

  /** What should reach the MIDI output: each command in full. */
  function Meaning(events: seq<Event>): seq<byte> {
    if events == [] then [] else events[0].Message() + Meaning(events[1..])
  }

  /** The parser knows the length of this command. */
  predicate Known(status: byte) {
    BytesToEmit(status) == DataLen(status)
  }

  /** The statuses the parser knows: channel messages but pitch bend, and 0xF1 and 0xF3. */
  lemma KnownStatuses(status: byte)
    requires IsStatus(status)
    ensures Known(status) <==> status < 0xE0 || status == 0xF1 || status == 0xF3
  {
  }

  /** A list means nothing, or starts with a status that is not 0xF7. */
  lemma MeaningStarts(events: seq<Event>, running: byte)
    requires ValidList(events, running)
    ensures Meaning(events) == [] || (Meaning(events)[0] >= 0x80 && Meaning(events)[0] != SYSEX_END)
    ensures events != [] ==> Meaning(events) != [] && Meaning(events)[0] == events[0].Message()[0]
  {
  }

  // ------------------------------------------------------------ cursor lemmas

  /** b holds `s` at index c. */
  predicate Holds(b: seq<byte>, c: nat, s: seq<byte>) {
    c + |s| <= |b| && b[c..c + |s|] == s
  }

  lemma HoldsConcat(b: seq<byte>, c: nat, s: seq<byte>, t: seq<byte>)
    requires Holds(b, c, s + t)
    ensures Holds(b, c, s) && Holds(b, c + |s|, t)
  {
    assert b[c..c + |s + t|][..|s|] == b[c..c + |s|];
    assert b[c..c + |s + t|][|s|..] == b[c + |s|..c + |s + t|];
    assert (s + t)[..|s|] == s && (s + t)[|s|..] == t;
  }

  lemma HoldsOne(b: seq<byte>, c: nat, s: seq<byte>)
    requires Holds(b, c, s) && s != []
    ensures b[c] == s[0] && Holds(b, c + 1, s[1..])
  {
    assert s == [s[0]] + s[1..];
    HoldsConcat(b, c, [s[0]], s[1..]);
    assert b[c] == b[c..c + 1][0];
  }

  lemma HoldsInside(b: seq<byte>, c: nat, s: seq<byte>)
    requires Holds(b, c, s)
    ensures c + |s| <= |b|
  {
  }

  lemma {:induction false} DeltaSkipped(b: seq<byte>, c: nat, d: seq<byte>)
    requires Holds(b, c, d) && EndsLow(d)
    ensures DeltaEnd(b, c) == c + |d| - 1
    decreases |d|
  {
    HoldsOne(b, c, d);
    if |d| > 1 {
      DeltaSkipped(b, c + 1, d[1..]);
    }
  }

  lemma {:induction false} SysExFound(b: seq<byte>, c: nat, data: seq<byte>)
    requires Holds(b, c, data + [SYSEX_END]) && SYSEX_END !in data
    ensures SysExEnd(b, c) == c + |data|
    decreases |data|
  {
    HoldsOne(b, c, data + [SYSEX_END]);
    if data != [] {
      assert (data + [SYSEX_END])[1..] == data[1..] + [SYSEX_END];
      SysExFound(b, c + 1, data[1..]);
    }
  }

  lemma EmitDecodes(bytes: seq<byte>, o: Outcome, m: seq<byte>)
    ensures Emit(bytes, o) == Done(bytes + m) <==> o == Done(m)
  {
    if o.Done? {
      assert (bytes + o.emitted)[|bytes|..] == o.emitted && (bytes + m)[|bytes|..] == m;
    }
  }

  /** Two texts that start with a SysEx are the same only if it is the same one. */
  lemma SysExUnique(u: seq<byte>, v: seq<byte>, w: seq<byte>, z: seq<byte>)
    requires SYSEX_END !in u && SYSEX_END !in w
    requires [SYSEX_START] + (u + [SYSEX_END]) + v == [SYSEX_START] + (w + [SYSEX_END]) + z
    ensures u == w && v == z
  {
    var x := [SYSEX_START] + (u + [SYSEX_END]) + v;
    var y := [SYSEX_START] + (w + [SYSEX_END]) + z;
    assert forall i :: 0 <= i < |u| ==> x[1 + i] == u[i];
    assert forall i :: 0 <= i < |w| ==> y[1 + i] == w[i];
    assert x[1 + |u|] == SYSEX_END && y[1 + |w|] == SYSEX_END;
    assert u == x[1..1 + |u|] && w == y[1..1 + |w|];
    assert v == x[2 + |u|..] && z == y[2 + |w|..];
  }

  // -------------------------------------------------------- one command

  /** From c to `end`, b holds the encoding of the list. */
  predicate At(b: seq<byte>, c: nat, end: nat, events: seq<Event>, withDelta: bool) {
    Holds(b, c, EncodeList(events, withDelta)) && end == c + |EncodeList(events, withDelta)|
  }

  lemma EndIsBehind(b: seq<byte>, c: nat, end: nat, events: seq<Event>, withDelta: bool)
    requires At(b, c, end, events, withDelta)
    ensures c <= end <= |b|
  {
  }

  /** Delta time in front of a list, if there is anything in it. */
  function HeadDelta(events: seq<Event>): seq<byte> {
    if events != [] then events[0].delta else []
  }

  lemma BodyInFront(events: seq<Event>)
    requires events != []
    ensures EncodeList(events, false) == events[0].Body() + EncodeList(events[1..], true)
  {
    hide Event.Body;
    var more := events[0].Body() + EncodeList(events[1..], true);
    assert [] + more == more;
  }

  lemma DeltaInFront(events: seq<Event>)
    ensures EncodeList(events, true) == HeadDelta(events) + EncodeList(events, false)
  {
    if events != [] {
      BodyInFront(events);
    }
  }

  /** Behind the delta time. */
  lemma PastDelta(b: seq<byte>, c: nat, end: nat, events: seq<Event>)
    requires At(b, c, end, events, true)
    ensures Holds(b, c, HeadDelta(events)) && At(b, c + |HeadDelta(events)|, end, events, false)
  {
    hide Holds, EncodeList, HeadDelta;
    DeltaInFront(events);
    HoldsConcat(b, c, HeadDelta(events), EncodeList(events, false));
  }

  /** Behind the first command. */
  lemma PastBody(b: seq<byte>, c: nat, end: nat, events: seq<Event>)
    requires At(b, c, end, events, false) && events != []
    ensures Holds(b, c, events[0].Body()) && At(b, c + |events[0].Body()|, end, events[1..], true)
  {
    hide Holds, EncodeList, Event.Body;
    BodyInFront(events);
    HoldsConcat(b, c, events[0].Body(), EncodeList(events[1..], true));
  }

  /** The status byte, written or running, only sets the parser's status. */
  lemma StatusRead(b: seq<byte>, c: nat, end: nat, status: byte, e: Event) returns (c': nat)
    requires e.Command? && e.Valid() && Holds(b, c, e.Body()) && c + |e.Body()| <= end
    requires e.explicit || (e.status == status && e.data != [])
    ensures c' == c + |e.Body()| - |e.data| && Holds(b, c', e.data)
    ensures Parse(b, c, end, status) == Parse(b, c', end, e.status)
  {
    if e.explicit {
      c' := c + 1;
      HoldsConcat(b, c, [e.status], e.data);
      HoldsOne(b, c, [e.status]);
    } else {
      c' := c;
      assert [] + e.data == e.data;
    }
  }

  /** Data bytes: as many as the parser thinks go with the status are emitted after it. */
  lemma DataRead(b: seq<byte>, c: nat, end: nat, e: Event)
    requires e.Command? && e.Valid() && Holds(b, c, e.data) && e.data != [] && c + |e.data| <= end
    ensures BytesToEmit(e.status) <= |e.data|
    ensures var n := BytesToEmit(e.status);
            Parse(b, c, end, e.status) == Emit([e.status] + e.data[..n], AfterEvent(b, c + n, end, e.status))
  {
    var n := BytesToEmit(e.status);
    assert b[c] == b[c..c + |e.data|][0] == e.data[0];
    assert b[c..c + n] == b[c..c + |e.data|][..n];
  }

  /** A whole command of known length. */
  lemma BodyRead(b: seq<byte>, c: nat, end: nat, status: byte, e: Event)
    requires e.Command? && e.Valid() && Known(e.status) && Holds(b, c, e.Body()) && c + |e.Body()| <= end
    requires e.explicit || (e.status == status && e.data != [])
    ensures Parse(b, c, end, status) == Emit(e.Message(), AfterEvent(b, c + |e.Body()|, end, e.status))
  {
    hide Parse, AfterEvent, Emit, Holds;
    var d := StatusRead(b, c, end, status, e);
    DataRead(b, d, end, e);
    assert e.data[..|e.data|] == e.data;
  }

  /** After a command, the parser passes octets up to one with bit 7 clear. */
  lemma AfterOctets(b: seq<byte>, c: nat, end: nat, d: seq<byte>, status: byte)
    requires Holds(b, c, d) && EndsLow(d) && c != end
    ensures AfterEvent(b, c, end, status) == Parse(b, c + |d|, end, status)
  {
    hide Parse;
    DeltaSkipped(b, c, d);
  }

  lemma NothingLeft(b: seq<byte>, c: nat, end: nat, withDelta: bool, status: byte)
    requires At(b, c, end, [], withDelta)
    ensures c == end
    ensures Parse(b, c, end, status) == AfterEvent(b, c, end, status) == Done([])
  {
  }

  /** After a command, the parser passes the delta time and is at the next command, or done. */
  lemma AfterEventRead(b: seq<byte>, c: nat, end: nat, events: seq<Event>, status: byte)
    requires events == [] || IsDelta(events[0].delta)
    requires At(b, c, end, events, true)
    ensures At(b, c + |HeadDelta(events)|, end, events, false)
    ensures AfterEvent(b, c, end, status) == Parse(b, c + |HeadDelta(events)|, end, status)
  {
    hide Parse, AfterEvent, Holds;
    PastDelta(b, c, end, events);
    if events == [] {
      NothingLeft(b, c, end, true, status);
    } else {
      AfterOctets(b, c, end, events[0].delta, status);
    }
  }

  /** A command whose data the parser takes in full, in front of the rest of the list. */
  lemma CommandRead(b: seq<byte>, c: nat, end: nat, events: seq<Event>, rest: seq<Event>, status: byte)
    requires events != [] && rest == events[1..]
    requires events[0].Command? && events[0].Valid() && Known(events[0].status)
    requires events[0].explicit || (events[0].status == status && events[0].data != [])
    requires rest == [] || IsDelta(rest[0].delta)
    requires At(b, c, end, events, false)
    ensures var e := events[0];
            var c' := c + |e.Body()| + |HeadDelta(rest)|;
            && At(b, c', end, rest, false)
            && Parse(b, c, end, status) == Emit(e.Message(), Parse(b, c', end, e.status))
  {
    hide *;
    PastBody(b, c, end, events);
    EndIsBehind(b, c + |events[0].Body()|, end, rest, true);
    BodyRead(b, c, end, status, events[0]);
    AfterEventRead(b, c + |events[0].Body()|, end, rest, events[0].status);
  }

  /** A SysEx is emitted, and the byte that ends it becomes the status for what follows, the
      next delta time included. */
  lemma SysExRead(b: seq<byte>, c: nat, end: nat, events: seq<Event>, status: byte)
    requires events != [] && events[0].SysEx? && events[0].Valid()
    requires At(b, c, end, events, false)
    ensures var e := events[0];
            var c' := c + |e.Body()|;
            && At(b, c', end, events[1..], true)
            && Parse(b, c, end, status) == Emit(e.Message(), Parse(b, c', end, SYSEX_END))
  {
    hide Parse, Emit, EncodeList, Holds;
    PastBody(b, c, end, events);
    EndIsBehind(b, c + |events[0].Body()|, end, events[1..], true);
    hide At;
    SysExAt(b, c, end, events[0].data, status);
  }

  /** The same for any bytes from 0xF0 to the next 0xF7. */
  lemma SysExAt(b: seq<byte>, c: nat, end: nat, data: seq<byte>, status: byte)
    requires Holds(b, c, [SYSEX_START] + (data + [SYSEX_END])) && SYSEX_END !in data
    requires c + |data| + 2 <= end
    ensures Parse(b, c, end, status) ==
            Emit([SYSEX_START] + (data + [SYSEX_END]), Parse(b, c + |data| + 2, end, SYSEX_END))
  {
    var body := [SYSEX_START] + (data + [SYSEX_END]);
    HoldsOne(b, c, body);
    assert body[1..] == data + [SYSEX_END];
    SysExFound(b, c + 1, data);
    hide Parse, SysExEnd, Emit;
    var e := c + 1 + |data|;
    assert b[e] == b[c..c + |body|][1 + |data|] == SYSEX_END;
    ParseUnfolds(b, c, end, status);
    ParseUnfolds(b, e, end, status);
    assert b[c..e + 1] == body;
  }

  /** The shape of everything the parser emits once it has read a status: it starts with a
      byte from 0x80 up, which a byte below 0x80 follows unless it opens a SysEx. */
  predicate EmissionShape(m: seq<byte>) {
    m == [] || (m[0] >= 0x80 && (m[0] == SYSEX_START || (|m| >= 2 && m[1] < 0x80)))
  }

  lemma {:induction false} ParseEmitsCommands(b: seq<byte>, c: nat, end: nat, status: byte)
    requires c <= |b| && status >= 0x80 && Parse(b, c, end, status).Done?
    ensures EmissionShape(Parse(b, c, end, status).emitted)
    decreases |b| - c
  {
    if c != end && b[c] >= 0x80 && b[c] != SYSEX_START {
      ParseEmitsCommands(b, c + 1, end, b[c]);
    } else if c != end && b[c] == SYSEX_START {
      var e := SysExEnd(b, c + 1);
      assert b[c..e + 1][0] == SYSEX_START;
    } else if c != end {
      var n := BytesToEmit(status);
      assert ([status] + b[c..c + n])[1] == b[c];
    }
  }

  /** Pitch bend and song position: the second data byte is taken for a delta time. */
  lemma LongDataSpoils(b: seq<byte>, c: nat, end: nat, e: Event, after: seq<byte>)
    requires e.Command? && e.Valid() && !Known(e.status) && e.data != []
    requires Holds(b, c, e.data) && c + |e.data| <= end
    ensures Parse(b, c, end, e.status) != Done(e.Message() + after)
  {
    DataRead(b, c, end, e);
    assert BytesToEmit(e.status) == 1 && |e.data| == 2;
    var rest := AfterEvent(b, c + 1, end, e.status);
    assert b[c + 1] == b[c..c + 2][1] == e.data[1];
    assert DeltaEnd(b, c + 1) == c + 1;
    assert rest == Parse(b, c + 2, end, e.status);
    if rest.Done? {
      ParseEmitsCommands(b, c + 2, end, e.status);
      var got := [e.status] + e.data[..1] + rest.emitted;
      var want := e.Message() + after;
      assert want[2] == e.data[1] < 0x80;
      assert rest.emitted != [] ==> got[2] == rest.emitted[0];
    }
  }

  /** Commands without data: nothing is emitted for them, and what the parser emits next cannot
      start with their status and go on with another command. */
  lemma NoDataSpoils(b: seq<byte>, c: nat, end: nat, status: byte, after: seq<byte>)
    requires c <= |b| && status >= 0x80 && status != SYSEX_START
    requires after == [] || after[0] >= 0x80
    ensures Parse(b, c, end, status) != Done([status] + after)
  {
    if Parse(b, c, end, status).Done? {
      ParseEmitsCommands(b, c, end, status);
      assert after != [] ==> ([status] + after)[1] == after[0];
    }
  }

  /** A command of unknown length spoils what is read from it on. */
  lemma UnknownSpoils(b: seq<byte>, c: nat, end: nat, events: seq<Event>, running: byte, status: byte)
    requires events != [] && ValidList(events, running) && (running == 0 || running == status)
    requires events[0].Command? && !Known(events[0].status)
    requires At(b, c, end, events, false)
    ensures Parse(b, c, end, status) != Done(Meaning(events))
  {
    hide Parse, AfterEvent, Known, EncodeList;
    var e, rest := events[0], events[1..];
    PastBody(b, c, end, events);
    hide At;
    var d := StatusRead(b, c, end, status, e);
    if e.data == [] {
      MeaningStarts(rest, NextRunning(e, running));
      assert e.Message() == [e.status];
      NoDataSpoils(b, d, end, e.status, Meaning(rest));
    } else {
      LongDataSpoils(b, d, end, e, Meaning(rest));
    }
  }
}
