/** What the parser makes of a list from a delta time on that it takes for commands, as it does
    with everything behind a SysEx and with the first delta time of a list. */
module RtpMidiShift {
  import opened Bytes
  import opened RtpMidi
  import opened RtpMidiCodec

  /** The status the parser is left with by octets from 0x80 up. */
  function LastOf(octets: seq<byte>, status: byte): byte {
    if octets == [] then status else octets[|octets| - 1]
  }

  /** A command that comes out right all the same: its delta time sets the status it has, and
      ends in the octet that is its one data byte. The command itself is then skipped. */
  predicate ByChance(e: Event, status: byte) {
    && e.Command?
    && |e.data| == 1
    && e.delta != []
    && SYSEX_START !in e.delta
    && LastOf(e.delta[..|e.delta| - 1], status) == e.status
    && e.delta[|e.delta| - 1] == e.data[0]
  }

  predicate AllByChance(events: seq<Event>, status: byte) {
    events == [] || (ByChance(events[0], status) && AllByChance(events[1..], events[0].status))
  }

  // ------------------------------------------------- octets of a delta time

  predicate High(octets: seq<byte>) {
    forall i :: 0 <= i < |octets| ==> octets[i] >= 0x80
  }

  /** Each becomes the status. */
  lemma {:induction false} OctetsBecomeStatus(b: seq<byte>, c: nat, end: nat, octets: seq<byte>, status: byte)
    requires Holds(b, c, octets) && High(octets) && SYSEX_START !in octets && c + |octets| <= end
    ensures Parse(b, c, end, status) == Parse(b, c + |octets|, end, LastOf(octets, status))
    decreases |octets|
  {
    if octets != [] {
      HoldsOne(b, c, octets);
      ParseUnfolds(b, c, end, status);
      hide Parse;
      assert SYSEX_START !in octets[1..];
      OctetsBecomeStatus(b, c + 1, end, octets[1..], octets[0]);
    }
  }

  /** Where the octet is for the first time. */
  function IndexOf(octets: seq<byte>, x: byte): (i: nat)
    requires x in octets
    ensures i < |octets| && octets[i] == x && x !in octets[..i]
  {
    if octets[0] == x then 0
    else
      var i := 1 + IndexOf(octets[1..], x);
      assert octets[..i] == [octets[0]] + octets[1..][..i - 1];
      i
  }

  /** The text from an octet 0xF0 of a delta time on is taken for a SysEx. */
  lemma OctetOpensSysEx(b: seq<byte>, c: nat, end: nat, octets: seq<byte>, status: byte) returns (c': nat, st: byte)
    requires Holds(b, c, octets) && High(octets) && SYSEX_START in octets && c + |octets| <= end
    ensures c' == c + IndexOf(octets, SYSEX_START)
    ensures Holds(b, c', octets[c' - c..])
    ensures Parse(b, c, end, status) == Parse(b, c', end, st)
  {
    hide Holds, Parse, IndexOf, LastOf;
    var i := IndexOf(octets, SYSEX_START);
    var before, behind := octets[..i], octets[i..];
    assert octets == before + behind;
    HoldsConcat(b, c, before, behind);
    OctetsBecomeStatus(b, c, end, before, status);
    c', st := c + i, LastOf(before, status);
  }

  lemma SysExOpens(b: seq<byte>, c: nat, end: nat, status: byte, m: seq<byte>)
    requires c < |b| && c != end && b[c] == SYSEX_START && Parse(b, c, end, status) == Done(m)
    ensures m != [] && m[0] == SYSEX_START
  {
    ParseUnfolds(b, c, end, status);
    hide Parse;
    var e := SysExEnd(b, c + 1);
    assert b[c..e + 1][0] == SYSEX_START;
  }

  /** What is emitted for a delta time starts with 0xF0 if that is in it, and else with the status
      its octets leave. */
  lemma DeltaEmits(b: seq<byte>, c: nat, end: nat, d: seq<byte>, status: byte, m: seq<byte>)
    requires Holds(b, c, d) && EndsLow(d) && c + |d| <= end && Parse(b, c, end, status) == Done(m)
    ensures m != [] && m[0] == if SYSEX_START in d then SYSEX_START else LastOf(d[..|d| - 1], status)
  {
    var octets, low := d[..|d| - 1], d[|d| - 1..];
    assert d == octets + low;
    HoldsConcat(b, c, octets, low);
    HoldsOne(b, c + |octets|, low);
    if SYSEX_START in d {
      var c', st := OctetOpensSysEx(b, c, end, octets, status);
      HoldsOne(b, c', octets[c' - c..]);
      SysExOpens(b, c', end, st, m);
    } else {
      OctetsBecomeStatus(b, c, end, octets, status);
      ParseUnfolds(b, c + |octets|, end, LastOf(octets, status));
    }
  }

  // ----------------------------------------------------- commands misread

  /** The delta time in front of e leaves the status of e. */
  predicate SetsStatus(e: Event, status: byte)
    requires e.Valid()
  {
    e.Command? && SYSEX_START !in e.delta && LastOf(e.delta[..|e.delta| - 1], status) == e.status
  }

  /** One that does not spoils what is read from it on. */
  lemma WrongStatusSpoils(b: seq<byte>, c: nat, end: nat, e: Event, status: byte, after: seq<byte>)
    requires e.Command? && e.Valid() && !SetsStatus(e, status)
    requires Holds(b, c, e.delta) && c + |e.delta| <= end
    ensures Parse(b, c, end, status) != Done(e.Message() + after)
  {
    var want := e.Message() + after;
    assert want[0] == e.status;
    if Parse(b, c, end, status) == Done(want) {
      DeltaEmits(b, c, end, e.delta, status, want);
    }
  }

  lemma LastOctetRead(b: seq<byte>, c: nat, end: nat, e: Event, status: byte)
    requires e.Valid() && SetsStatus(e, status) && e.Body() != []
    requires Holds(b, c, e.delta + e.Body()) && c + |e.delta| + |e.Body()| <= end
    ensures var d := c + |e.delta| - 1;
            && d + 2 <= |b|
            && b[d] == e.delta[|e.delta| - 1] < 0x80 && b[d + 1] == e.Body()[0]
            && Parse(b, c, end, status) == Parse(b, d, end, e.status)
  {
    hide Parse, Holds, Event.Body;
    var octets, low := e.delta[..|e.delta| - 1], e.delta[|e.delta| - 1..];
    assert e.delta == octets + low;
    HoldsConcat(b, c, e.delta, e.Body());
    HoldsConcat(b, c, octets, low);
    HoldsOne(b, c + |octets|, low);
    HoldsOne(b, c + |e.delta|, e.Body());
    HoldsInside(b, c + |e.delta|, e.Body());
    OctetsBecomeStatus(b, c, end, octets, status);
  }

  /** With the right status, its last octet is emitted as data. */
  lemma OctetAsData(b: seq<byte>, c: nat, end: nat, e: Event, status: byte)
    requires e.Valid() && SetsStatus(e, status) && e.Body() != []
    requires Holds(b, c, e.delta + e.Body()) && c + |e.delta| + |e.Body()| <= end
    ensures var low, at := e.delta[|e.delta| - 1], c + |e.delta|;
            Parse(b, c, end, status) ==
            if BytesToEmit(e.status) == 1 then Emit([e.status, low], AfterEvent(b, at, end, e.status))
            else Emit([e.status, low, e.Body()[0]], AfterEvent(b, at + 1, end, e.status))
  {
    hide Parse, AfterEvent, Emit, Holds, Event.Body;
    LastOctetRead(b, c, end, e, status);
    var d := c + |e.delta| - 1;
    ParseUnfolds(b, d, end, e.status);
    assert b[d..d + 1] == [b[d]] && b[d..d + 2] == [b[d], b[d + 1]];
    assert [e.status] + [b[d]] == [e.status, b[d]];
    assert [e.status] + [b[d], b[d + 1]] == [e.status, b[d], b[d + 1]];
  }

  lemma NoDataMisread(b: seq<byte>, c: nat, end: nat, e: Event, status: byte, after: seq<byte>)
    requires e.Valid() && SetsStatus(e, status) && e.data == [] && e.explicit
    requires Holds(b, c, e.delta + e.Body()) && c + |e.delta| + |e.Body()| <= end
    requires after == [] || after[0] >= 0x80
    ensures Parse(b, c, end, status) != Done(e.Message() + after)
  {
    hide Parse, Holds;
    OctetAsData(b, c, end, e, status);
    var want := e.Message() + after;
    assert |want| > 1 ==> want[1] == after[0];
  }

  lemma OneByteMisread(b: seq<byte>, c: nat, end: nat, e: Event, status: byte, after: seq<byte>)
    requires e.Valid() && SetsStatus(e, status) && DataLen(e.status) == 1
    requires Holds(b, c, e.delta + e.Body()) && c + |e.delta| + |e.Body()| <= end
    ensures var low, c' := e.delta[|e.delta| - 1], c + |e.delta| + |e.Body()|;
            Parse(b, c, end, status) == Emit([e.status, low], Parse(b, c', end, e.status))
    ensures ByChance(e, status) <==> e.delta[|e.delta| - 1] == e.data[0]
    ensures !ByChance(e, status) ==> Parse(b, c, end, status) != Done(e.Message() + after)
    ensures ByChance(e, status) ==> e.Message() == [e.status, e.delta[|e.delta| - 1]]
  {
    OneByteRead(b, c, end, e, status);
    OneByteChance(e, status);
    hide Parse, ByChance, SetsStatus, Holds;
    var want := e.Message() + after;
    assert want[1] == e.data[0];
  }

  lemma OneByteRead(b: seq<byte>, c: nat, end: nat, e: Event, status: byte)
    requires e.Command? && e.Valid() && e.delta != [] && SetsStatus(e, status) && DataLen(e.status) == 1
    requires Holds(b, c, e.delta + e.Body()) && c + |e.delta| + |e.Body()| <= end
    ensures var low, c' := e.delta[|e.delta| - 1], c + |e.delta| + |e.Body()|;
            Parse(b, c, end, status) == Emit([e.status, low], Parse(b, c', end, e.status))
  {
    hide *;
    HoldsInside(b, c, e.delta + e.Body());
    OneByteBody(e);
    OctetAsData(b, c, end, e, status);
    HoldsConcat(b, c, e.delta, e.Body());
    AfterOctets(b, c + |e.delta|, end, e.Body(), e.status);
  }

  lemma OneByteBody(e: Event)
    requires e.Command? && e.Valid() && DataLen(e.status) == 1
    ensures e.Body() != [] && EndsLow(e.Body()) && BytesToEmit(e.status) == 1
  {
  }

  lemma OneByteChance(e: Event, status: byte)
    requires e.Valid() && SetsStatus(e, status) && DataLen(e.status) == 1
    ensures ByChance(e, status) <==> e.delta[|e.delta| - 1] == e.data[0]
    ensures ByChance(e, status) ==> e.Message() == [e.status, e.delta[|e.delta| - 1]]
  {
  }

  lemma TwoBytesMisread(b: seq<byte>, c: nat, end: nat, e: Event, status: byte, after: seq<byte>)
    requires e.Valid() && SetsStatus(e, status) && DataLen(e.status) > 1 && e.explicit
    requires Holds(b, c, e.delta + e.Body()) && c + |e.delta| + |e.Body()| <= end
    ensures Parse(b, c, end, status) != Done(e.Message() + after)
  {
    var want := e.Message() + after;
    assert want[2] == e.data[1];
    assert e.Body() == [e.status, e.data[0]] + [e.data[1]];
    hide Parse, AfterEvent, Holds, BytesToEmit, SetsStatus, Event.Body;
    OctetAsData(b, c, end, e, status);
    if BytesToEmit(e.status) == 1 {
      SecondByteMisread(b, c, end, e);
    }
  }

  lemma SecondByteMisread(b: seq<byte>, c: nat, end: nat, e: Event)
    requires e.Command? && e.Valid() && |e.data| == 2 && c + |e.delta| + 3 <= end
    requires Holds(b, c, e.delta + e.Body()) && e.Body() == [e.status, e.data[0]] + [e.data[1]]
    ensures var at := c + |e.delta|;
            AfterEvent(b, at, end, e.status).Done? ==> EmissionShape(AfterEvent(b, at, end, e.status).emitted)
  {
    hide Parse, AfterEvent, Event.Body, EmissionShape;
    var at := c + |e.delta|;
    HoldsConcat(b, c, e.delta, e.Body());
    HoldsConcat(b, at, [e.status, e.data[0]], [e.data[1]]);
    AfterOctets(b, at, end, [e.status, e.data[0]], e.status);
    if Parse(b, at + 2, end, e.status).Done? {
      ParseEmitsCommands(b, at + 2, end, e.status);
    }
  }

  /** Running status, where it may be used at all, stands for a command with one data byte. */
  predicate OneByteRunning(running: byte) {
    running == 0 || DataLen(running) == 1
  }

  /** The first command of what is left comes out right exactly by chance. */
  lemma CommandByChance(b: seq<byte>, c: nat, end: nat, events: seq<Event>, rest: seq<Event>, running: byte, status: byte)
    requires events != [] && rest == events[1..] && events[0].Command?
    requires ValidList(events, running) && OneByteRunning(running) && At(b, c, end, events, true)
    ensures !ByChance(events[0], status) ==> Parse(b, c, end, status) != Done(Meaning(events))
    ensures var c' := c + |events[0].delta| + |events[0].Body()|;
            ByChance(events[0], status) ==>
              At(b, c', end, rest, true) &&
              Parse(b, c, end, status) == Emit(events[0].Message(), Parse(b, c', end, events[0].status))
  {
    hide Parse, Holds, DataLen, ByChance, SetsStatus, EncodeList, At, HeadDelta, EndsLow;
    var e := events[0];
    DeltaAndBody(b, c, end, events, rest);
    if ByChance(e, status) {
      ChanceSetsStatus(e, status);
    }
    if !SetsStatus(e, status) {
      HoldsConcat(b, c, e.delta, e.Body());
      WrongStatusSpoils(b, c, end, e, status, Meaning(rest));
    } else if |e.data| == 0 {
      MeaningStarts(rest, NextRunning(e, running));
      NoDataMisread(b, c, end, e, status, Meaning(rest));
    } else if |e.data| == 1 {
      OneByteMisread(b, c, end, e, status, Meaning(rest));
    } else {
      TwoBytesMisread(b, c, end, e, status, Meaning(rest));
    }
  }

  lemma ChanceSetsStatus(e: Event, status: byte)
    requires e.Valid() && ByChance(e, status)
    ensures SetsStatus(e, status) && |e.data| == 1
  {
  }

  lemma DeltaAndBody(b: seq<byte>, c: nat, end: nat, events: seq<Event>, rest: seq<Event>)
    requires events != [] && rest == events[1..] && At(b, c, end, events, true)
    ensures var e := events[0];
            var c' := c + |e.delta| + |e.Body()|;
            Holds(b, c, e.delta + e.Body()) && At(b, c', end, rest, true) && c' <= end <= |b|
  {
    hide Event.Body, EncodeList, Holds;
    var e := events[0];
    var more := EncodeList(rest, true);
    DeltaInFront(events);
    BodyInFront(events);
    assert e.delta + (e.Body() + more) == (e.delta + e.Body()) + more;
    HoldsConcat(b, c, e.delta + e.Body(), more);
    HoldsInside(b, c + |e.delta + e.Body()|, more);
  }

  // ------------------------------------------------------- SysEx misread

  /** The octet 0xF0 in the delta time of a SysEx opens another, which ends where the real one
      does and is longer. */
  lemma LongerSysEx(b: seq<byte>, c: nat, end: nat, r: seq<byte>, e: Event, status: byte, after: seq<byte>)
    requires e.SysEx? && e.Valid() && r != [] && SYSEX_END !in r
    requires Holds(b, c, [SYSEX_START] + (r + e.Body())) && c + 1 + |r| + |e.Body()| <= end
    ensures Parse(b, c, end, status) != Done(e.Message() + after)
  {
    hide Parse;
    var data := r + [SYSEX_START] + e.data;
    assert r + e.Body() == data + [SYSEX_END];
    SysExAt(b, c, end, data, status);
    var o := Parse(b, c + |data| + 2, end, SYSEX_END);
    if o.Done? && [SYSEX_START] + (data + [SYSEX_END]) + o.emitted == e.Message() + after {
      SysExUnique(data, o.emitted, e.data, after);
    }
  }

  /** A command too many is not made good by what follows. */
  lemma {:induction false} ExtraSpoils(b: seq<byte>, c: nat, end: nat, rest: seq<Event>, running: byte, status: byte, low: byte)
    requires ValidList(rest, running) && (running == 0 || running == status) && At(b, c, end, rest, false)
    requires status >= 0x80 && status != SYSEX_START && low < 0x80
    ensures Emit([status, low], Parse(b, c, end, status)) != Done(Meaning(rest))
    decreases |rest|
  {
    hide Parse, At;
    EndIsBehind(b, c, end, rest, false);
    MeaningStarts(rest, running);
    if rest != [] && rest[0].Message()[0] == status {
      var e, more := rest[0], rest[1..];
      if |e.data| == 1 {
        CommandRead(b, c, end, rest, more, status);
        var c' := c + |e.Body()| + |HeadDelta(more)|;
        EndIsBehind(b, c', end, more, false);
        ExtraSpoils(b, c', end, more, NextRunning(e, running), status, e.data[0]);
        ExtraOfTwo(e, low, Parse(b, c', end, status), Meaning(more));
      } else {
        ExtraBeforeOther(b, c, end, rest, running, status, low);
      }
    }
  }

  lemma ExtraOfTwo(e: Event, low: byte, o: Outcome, after: seq<byte>)
    requires e.Command? && |e.data| == 1 && Emit([e.status, e.data[0]], o) != Done(after)
    ensures Emit([e.status, low], Emit(e.Message(), o)) != Done(e.Message() + after)
  {
    assert e.Message() == [e.status, e.data[0]];
    var want := e.Message() + after;
    assert want[1] == e.data[0];
    if low == e.data[0] {
      EmitDecodes(e.Message(), Emit(e.Message(), o), after);
    }
  }

  lemma ExtraBeforeOther(b: seq<byte>, c: nat, end: nat, rest: seq<Event>, running: byte, status: byte, low: byte)
    requires rest != [] && rest[0].Command? && rest[0].status == status && |rest[0].data| != 1
    requires ValidList(rest, running) && c <= |b| && status >= 0x80 && low < 0x80
    ensures Emit([status, low], Parse(b, c, end, status)) != Done(Meaning(rest))
  {
    hide Parse;
    var e, more := rest[0], rest[1..];
    MeaningStarts(more, NextRunning(e, running));
    var want := Meaning(rest);
    if e.data == [] {
      assert |want| > 1 ==> want[1] == Meaning(more)[0];
    } else if Parse(b, c, end, status).Done? {
      ParseEmitsCommands(b, c, end, status);
      assert want[2] == e.data[1];
    }
  }

  /** What follows an 0xF0 and an 0xF7 in the delta time of an empty SysEx: one octet x and the
      last one, then 0xF0 0xF7 and the rest of the list. */
  lemma OctetBehindSysEx(b: seq<byte>, c: nat, end: nat, x: byte, low: byte, e: Event, rest: seq<Event>)
    requires e.SysEx? && e.data == [] && ValidList(rest, 0) && x >= 0x80 && low < 0x80
    requires Holds(b, c, [x] + ([low] + e.Body())) && At(b, c + 2 + |e.Body()|, end, rest, true)
    ensures Parse(b, c, end, SYSEX_END) != Done(Meaning(rest))
  {
    hide Parse, At;
    MeaningStarts(rest, 0);
    EndIsBehind(b, c + 2 + |e.Body()|, end, rest, true);
    if x == SYSEX_START {
      SysExAgain(b, c, end, low, rest);
    } else {
      HoldsConcat(b, c, [x], [low] + e.Body());
      OctetsBecomeStatus(b, c, end, [x], SYSEX_END);
      OctetStartsCommand(b, c + 1, end, x, low, rest);
    }
  }

  lemma SysExAgain(b: seq<byte>, c: nat, end: nat, low: byte, rest: seq<Event>)
    requires ValidList(rest, 0) && low < 0x80 && c + 4 <= end
    requires Holds(b, c, [SYSEX_START] + ([low] + ([SYSEX_START] + ([] + [SYSEX_END]))))
    ensures Parse(b, c, end, SYSEX_END) != Done(Meaning(rest))
  {
    hide Parse;
    MeaningStarts(rest, 0);
    var data := [low, SYSEX_START];
    assert data[1] == SYSEX_START;
    assert [low] + ([SYSEX_START] + ([] + [SYSEX_END])) == data + [SYSEX_END];
    SysExAt(b, c, end, data, SYSEX_END);
    var o := Parse(b, c + 4, end, SYSEX_END);
    if o.Done? && [SYSEX_START] + (data + [SYSEX_END]) + o.emitted == Meaning(rest) {
      assert rest[0].SysEx?;
      SysExUnique(data, o.emitted, rest[0].data, Meaning(rest[1..]));
    }
  }

  lemma OctetStartsCommand(b: seq<byte>, c: nat, end: nat, x: byte, low: byte, rest: seq<Event>)
    requires ValidList(rest, 0) && x >= 0x80 && x != SYSEX_START && low < 0x80
    requires Holds(b, c, [low] + ([SYSEX_START] + ([] + [SYSEX_END]))) && At(b, c + 3, end, rest, true)
    ensures Parse(b, c, end, x) != Done(Meaning(rest))
  {
    hide Parse, AfterEvent, At, Meaning, ValidList;
    OctetRead(b, c, end, x, low, rest);
    if rest == [] {
      NothingMeant();
    } else if BytesToEmit(x) == 2 {
      LongDataFollows(rest, x);
    } else {
      DeltaOfFirst(rest);
      SkippedToNext(b, c + 1, end, x, rest);
      ExtraSpoils(b, c + 3 + |rest[0].delta|, end, rest, 0, x, low);
    }
  }

  lemma NothingMeant()
    ensures Meaning([]) == []
  {
  }

  lemma DeltaOfFirst(rest: seq<Event>)
    requires ValidList(rest, 0) && rest != []
    ensures IsDelta(rest[0].delta)
  {
  }

  lemma OctetRead(b: seq<byte>, c: nat, end: nat, x: byte, low: byte, rest: seq<Event>)
    requires x >= 0x80 && low < 0x80
    requires Holds(b, c, [low] + ([SYSEX_START] + ([] + [SYSEX_END]))) && At(b, c + 3, end, rest, true)
    ensures Holds(b, c + 1, [SYSEX_START] + ([] + [SYSEX_END]))
    ensures Parse(b, c, end, x) ==
            if BytesToEmit(x) == 1 then Emit([x, low], AfterEvent(b, c + 1, end, x))
            else Emit([x, low, SYSEX_START], AfterEvent(b, c + 2, end, x))
  {
    hide At, Holds, Parse, AfterEvent, Emit;
    EndIsBehind(b, c + 3, end, rest, true);
    HoldsConcat(b, c, [low], [SYSEX_START] + ([] + [SYSEX_END]));
    HoldsOne(b, c, [low]);
    HoldsOne(b, c + 1, [SYSEX_START] + ([] + [SYSEX_END]));
    ParseUnfolds(b, c, end, x);
    assert b[c..c + 1] == [b[c]] && b[c..c + 2] == [b[c], b[c + 1]];
    assert [x] + [b[c]] == [x, b[c]] && [x] + [b[c], b[c + 1]] == [x, b[c], b[c + 1]];
  }

  lemma LongDataFollows(rest: seq<Event>, x: byte)
    requires ValidList(rest, 0) && rest != [] && x >= 0x80 && x != SYSEX_START && BytesToEmit(x) == 2
    ensures Meaning(rest)[0] == x ==> |Meaning(rest)| >= 3 && Meaning(rest)[2] < 0x80
  {
    MeaningStarts(rest, 0);
    if rest[0].Command? && rest[0].status == x {
      assert Meaning(rest)[2] == rest[0].data[1];
    }
  }

  lemma SkippedToNext(b: seq<byte>, c: nat, end: nat, x: byte, rest: seq<Event>)
    requires rest != [] && IsDelta(rest[0].delta) && c >= 1
    requires Holds(b, c, [SYSEX_START] + ([] + [SYSEX_END])) && At(b, c + 2, end, rest, true)
    ensures var c' := c + 2 + |rest[0].delta|;
            At(b, c', end, rest, false) && AfterEvent(b, c, end, x) == Parse(b, c', end, x)
  {
    hide Parse, AfterEvent, At;
    PastDelta(b, c + 2, end, rest);
    EndIsBehind(b, c + 2, end, rest, true);
    var text := [SYSEX_START] + ([] + [SYSEX_END]);
    var octets := text + rest[0].delta;
    assert b[c..c + |octets|] == b[c..c + 2] + b[c + 2..c + |octets|];
    AfterOctets(b, c, end, octets, x);
  }

  /** The octets 0xF0 and 0xF7 in the delta time of a SysEx, with `between` in between: what is
      emitted from there can be right only up to the 0xF7. */
  lemma SysExInDelta(b: seq<byte>, c: nat, end: nat, between: seq<byte>, behind: seq<byte>, low: byte,
                     e: Event, status: byte, rest: seq<Event>)
    requires e.SysEx? && e.Valid() && ValidList(rest, 0) && low < 0x80
    requires SYSEX_END !in between && High(behind) && |between| + |behind| <= 1
    requires Holds(b, c, [SYSEX_START] + (between + [SYSEX_END]) + (behind + ([low] + e.Body())))
    requires At(b, c + 3 + |between| + |behind| + |e.Body()|, end, rest, true)
    ensures Parse(b, c, end, status) != Done(e.Message() + Meaning(rest))
  {
    hide Parse, At, Meaning, ValidList;
    var c' := c + 2 + |between|;
    EndIsBehind(b, c' + 1 + |behind| + |e.Body()|, end, rest, true);
    HoldsConcat(b, c, [SYSEX_START] + (between + [SYSEX_END]), behind + ([low] + e.Body()));
    SysExAt(b, c, end, between, status);
    var o := Parse(b, c', end, SYSEX_END);
    BehindSysExInDelta(b, c', end, between, behind, low, e, rest);
    if o.Done? && [SYSEX_START] + (between + [SYSEX_END]) + o.emitted == e.Message() + Meaning(rest) {
      SysExUnique(between, o.emitted, e.data, Meaning(rest));
    }
  }

  lemma BehindSysExInDelta(b: seq<byte>, c: nat, end: nat, between: seq<byte>, behind: seq<byte>, low: byte,
                           e: Event, rest: seq<Event>)
    requires e.SysEx? && ValidList(rest, 0) && low < 0x80
    requires High(behind) && |between| + |behind| <= 1
    requires Holds(b, c, behind + ([low] + e.Body())) && At(b, c + 1 + |behind| + |e.Body()|, end, rest, true)
    ensures between == e.data ==> Parse(b, c, end, SYSEX_END) != Done(Meaning(rest))
  {
    hide Parse, At, Meaning, ValidList;
    if behind == [] {
      assert behind + ([low] + e.Body()) == [low] + e.Body();
      HoldsConcat(b, c, [low], e.Body());
      EndIsBehind(b, c + 1 + |e.Body()|, end, rest, true);
      LowOctetSpoils(b, c, end, low, rest);
    } else if e.data == [] {
      assert behind == [behind[0]];
      OctetBehindSysEx(b, c, end, behind[0], low, e, rest);
    }
  }

  lemma LowOctetSpoils(b: seq<byte>, c: nat, end: nat, low: byte, rest: seq<Event>)
    requires ValidList(rest, 0) && low < 0x80 && Holds(b, c, [low]) && c + 1 <= end
    ensures Parse(b, c, end, SYSEX_END) != Done(Meaning(rest))
  {
    hide Parse;
    MeaningStarts(rest, 0);
    if Parse(b, c, end, SYSEX_END).Done? {
      DeltaEmits(b, c, end, [low], SYSEX_END, Parse(b, c, end, SYSEX_END).emitted);
    }
  }

  lemma SysExWrongStatus(b: seq<byte>, c: nat, end: nat, e: Event, status: byte, after: seq<byte>)
    requires e.SysEx? && e.Valid() && SYSEX_START !in e.delta && status != SYSEX_START
    requires Holds(b, c, e.delta) && c + |e.delta| <= end
    ensures Parse(b, c, end, status) != Done(e.Message() + after)
  {
    var want := e.Message() + after;
    assert want[0] == SYSEX_START;
    if Parse(b, c, end, status) == Done(want) {
      DeltaEmits(b, c, end, e.delta, status, want);
    }
  }

  lemma HeadAndTail(events: seq<Event>, rest: seq<Event>, running: byte)
    requires events != [] && rest == events[1..] && ValidList(events, running)
    ensures events[0].Valid() && ValidList(rest, NextRunning(events[0], running))
    ensures Meaning(events) == events[0].Message() + Meaning(rest)
  {
  }

  /** A SysEx is never read right from its delta time on. */
  lemma SysExNotByChance(b: seq<byte>, c: nat, end: nat, events: seq<Event>, rest: seq<Event>, running: byte, status: byte)
    requires events != [] && rest == events[1..] && events[0].SysEx? && status != SYSEX_START
    requires ValidList(events, running) && At(b, c, end, events, true)
    ensures Parse(b, c, end, status) != Done(Meaning(events))
  {
    hide Parse, At, Holds, ValidList, Meaning, Event.Valid, Event.Body, Event.Message;
    var e := events[0];
    HeadAndTail(events, rest, running);
    DeltaAndBody(b, c, end, events, rest);
    HoldsConcat(b, c, e.delta, e.Body());
    if SYSEX_START in e.delta {
      SysExOpenedEarly(b, c, end, e, status, rest);
    } else {
      SysExWrongStatus(b, c, end, e, status, Meaning(rest));
    }
  }

  /** Where a SysEx seems to open in the delta time of one: `r` of that is left, and its last octet. */
  lemma OpenedEarly(b: seq<byte>, c: nat, end: nat, e: Event, status: byte)
      returns (c': nat, r: seq<byte>, low: byte, st: byte)
    requires e.SysEx? && e.Valid() && SYSEX_START in e.delta
    requires Holds(b, c, e.delta + e.Body()) && c + |e.delta| <= end
    ensures High(r) && |r| <= 2 && low < 0x80
    ensures c' + 2 + |r| == c + |e.delta|
    ensures Holds(b, c', [SYSEX_START] + (r + ([low] + e.Body())))
    ensures Parse(b, c, end, status) == Parse(b, c', end, st)
  {
    hide *;
    var octets: seq<byte>;
    octets, low := DeltaParts(e);
    var before: seq<byte>;
    before, r := OctetsSplit(octets);
    TextSplit(b, c, octets, before, r, low, e.Body());
    c', st := OctetOpensSysEx(b, c, end, octets, status);
  }

  lemma TextSplit(b: seq<byte>, c: nat, octets: seq<byte>, before: seq<byte>, r: seq<byte>, low: byte, body: seq<byte>)
    requires octets == before + ([SYSEX_START] + r) && Holds(b, c, octets + [low] + body)
    ensures Holds(b, c, octets) && Holds(b, c + |before|, [SYSEX_START] + (r + ([low] + body)))
  {
    hide Holds;
    Regrouped(before, r, low, body);
    HoldsConcat(b, c, octets, [low] + body);
    HoldsConcat(b, c, before, [SYSEX_START] + (r + ([low] + body)));
  }

  lemma Regrouped(before: seq<byte>, r: seq<byte>, low: byte, body: seq<byte>)
    ensures var octets := before + ([SYSEX_START] + r);
            && octets + [low] + body == octets + ([low] + body)
            && octets + ([low] + body) == before + ([SYSEX_START] + (r + ([low] + body)))
  {
    assert ([SYSEX_START] + r) + ([low] + body) == [SYSEX_START] + (r + ([low] + body));
  }

  /** The octets of a delta time but the last, and that one. */
  lemma DeltaParts(e: Event) returns (octets: seq<byte>, low: byte)
    requires e.Valid()
    ensures e.delta == octets + [low] && High(octets) && |octets| <= 3 && low < 0x80
    ensures SYSEX_START in e.delta ==> SYSEX_START in octets
  {
    octets, low := e.delta[..|e.delta| - 1], e.delta[|e.delta| - 1];
    assert e.delta == octets + [low];
  }

  lemma OctetsSplit(octets: seq<byte>) returns (before: seq<byte>, r: seq<byte>)
    requires High(octets) && SYSEX_START in octets
    ensures octets == before + ([SYSEX_START] + r) && |before| == IndexOf(octets, SYSEX_START) && High(r)
  {
    hide IndexOf;
    var i := IndexOf(octets, SYSEX_START);
    before, r := octets[..i], octets[i + 1..];
  }

  lemma SysExOpenedEarly(b: seq<byte>, c: nat, end: nat, e: Event, status: byte, rest: seq<Event>)
    requires e.SysEx? && e.Valid() && ValidList(rest, 0) && SYSEX_START in e.delta
    requires Holds(b, c, e.delta + e.Body()) && At(b, c + |e.delta| + |e.Body()|, end, rest, true)
    ensures Parse(b, c, end, status) != Done(e.Message() + Meaning(rest))
  {
    hide Parse, At, Holds, Meaning, ValidList, Event.Message, Event.Body, Event.Valid, IndexOf;
    EndIsBehind(b, c + |e.delta| + |e.Body()|, end, rest, true);
    var c', r, low, st := OpenedEarly(b, c, end, e, status);
    if SYSEX_END in r {
      var j := IndexOf(r, SYSEX_END);
      var between, behind := r[..j], r[j + 1..];
      assert [SYSEX_START] + (r + ([low] + e.Body())) ==
             [SYSEX_START] + (between + [SYSEX_END]) + (behind + ([low] + e.Body()));
      SysExInDelta(b, c', end, between, behind, low, e, st, rest);
    } else {
      assert r + ([low] + e.Body()) == (r + [low]) + e.Body();
      LongerSysEx(b, c', end, r + [low], e, st, Meaning(rest));
    }
  }

  // ---------------------------------------------------------------- lists

  /** Which lists come out right from their delta time on, whatever the status: those of commands
      that do so by chance, each for the status the one before leaves. */
  lemma {:induction false} ListByChanceIff(b: seq<byte>, c: nat, end: nat, events: seq<Event>, running: byte, status: byte)
    requires ValidList(events, running) && OneByteRunning(running) && status != SYSEX_START
    requires At(b, c, end, events, true)
    ensures c <= |b|
    ensures Parse(b, c, end, status) == Done(Meaning(events)) <==> AllByChance(events, status)
    decreases |events|
  {
    hide Parse, At, ByChance;
    EndIsBehind(b, c, end, events, true);
    if events == [] {
      NothingLeft(b, c, end, true, status);
    } else {
      var e, rest := events[0], events[1..];
      if e.SysEx? {
        SysExNotByChance(b, c, end, events, rest, running, status);
        NoSysExByChance(e, status);
      } else {
        CommandByChance(b, c, end, events, rest, running, status);
        if ByChance(e, status) {
          var c' := c + |e.delta| + |e.Body()|;
          RunningByChance(e, running, status);
          ListByChanceIff(b, c', end, rest, NextRunning(e, running), e.status);
          EmitDecodes(e.Message(), Parse(b, c', end, e.status), Meaning(rest));
        }
      }
    }
  }

  lemma NoSysExByChance(e: Event, status: byte)
    requires e.SysEx?
    ensures !ByChance(e, status)
  {
  }

  lemma RunningByChance(e: Event, running: byte, status: byte)
    requires e.Valid() && ByChance(e, status) && OneByteRunning(running)
    ensures e.Command? && OneByteRunning(NextRunning(e, running)) && e.status != SYSEX_START
  {
  }
}
