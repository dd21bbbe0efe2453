# MegaWiFi link, scheduler and RTP-MIDI: a verified model

A Dafny model of the hard parts of a Mega Drive program that talks to a WiFi module over a
UART and plays MIDI received over the network. `dafny verify dfyconfig.toml` checks all of it.

- **Local symmetric data link** (`src/mw/lsd.c`). `LsdFrames` is the wire format: `STX : CH-LENH :
  LENL : DATA : ETX` with no byte stuffing. `LsdMachine` is one endpoint as a state machine, a byte
  or an API call at a time. `LsdLink` joins two endpoints by byte queues and proves what every
  interleaving of their steps keeps. `LsdResync` is about one receiver and a given run of bytes:
  reassembly, resynchronisation, zero-length sends; `LsdAccept` about which frames it takes, where it
  stores them, and what it says of the others. `LsdDriver` is the code as it runs, module state
  updated in place over a UART with a 16-byte FIFO, with callbacks that call back into the module or
  leave it by `loop_post`; each of its methods is tied to steps of `LsdMachine`. `MwCall` is a call of
  `mw_send_sync` as its waits see it, and `MwSend` the function itself on top of the driver.
- **Cooperative scheduler** (`src/mw/loop.c`). `LoopMachine` has the two callback tables, the passes
  over them, the API that callbacks use, and `loop_pend`/`loop_post` as a stack of nested loops on
  which `d->env` and `d->jmp` are plain pointers that the code saves and restores. `LoopPass`,
  `LoopStack`, `LoopReentry`, `LoopIndex`, `LoopMarked`, `LoopCalls` (what each call of the API brings
  about) and `LoopTimer` (when timers fire) prove what all its runs keep, `LoopMismatch`,
  `LoopSkip` and `LoopResumed` exhibit runs in which a property fails, and `LoopDriver` is the array code that searches, appends and
  shifts while the passes walk it.
- **RTP-MIDI command lists** (`src/rtpmidi.c`). `RtpMidi` is the parser with its cursor, `RtpMidiCodec`
  the encodings that section 3 of RFC 6295 allows for a list of complete commands, and what the parser
  makes of one command, `RtpMidiShift` what it makes of a delta time that it takes for commands, and
  `RtpMidiPacket` exactly which packets it decodes.
- **32-bit multiply and divide for a 16-bit CPU** (`boot/sega.s`). `LongArith`.
- **Text and buffers** (`src/mw/util.c`, `src/mw/megawifi.c`). `IpText` and `IpAddress` for dotted
  addresses, `StringPack` for packed string lists, `ApList` for access point records.
- **Memory pool** (`src/mw/mpool.c`). `MPool`. **Polling waits** (`src/mw/megawifi.c`). `Polling`,
  on the scheduler's timers.

## How callbacks and the outside world appear

A callback is the list of API calls it makes. In the machines the lists are the steps of a run, so
the theorems quantify over all of them. The drivers get them as data; callbacks of the link may end
in `loop_post`, which leaves `lsd_process` on the spot, and those of the scheduler return. Callbacks that
pend are in the scheduler's machine only. Which bytes arrive and when, how far the UART's transmitter
has got and the vertical blanking flag are left open: they are inputs, or arbitrary choices. Memory behind a pointer is a
sequence or an array, and each read or write must be shown to lie inside it.

## Where the code and its documentation disagree

The model follows the code. In each case below the condition is exact under which it does what its
documentation or its names suggest, or an input is shown for which it does not.

- Line 9 of the repository's `README.md` promises long headers: the high four bits of a 12-bit length
  are shifted by 12 instead of 8, which is right only when they are zero
  (`RtpMidiPacket.LengthReadIff`).
- Line 11 of the repository's `README.md` promises 3-byte events: pitch bend and song position are
  taken for 2-byte ones. The byte that ends a SysEx is taken for a status, and so everything behind
  it is read from a delta time on; so is a list that starts with a delta time, for the Z flag is
  ignored. Such a list comes out right by chance only, for the commands `RtpMidiShift.ByChance`
  describes (`RtpMidiPacket.PacketDecodesIff`; `PitchBendFails`, `NoteBehindSysExFails` and
  `ProgramChangeByChance` are inputs of each kind).
- `loop.h:213-214` says that posting zero keeps `loop_pend` from returning: `newlib/setjmp.s:14-16`
  makes it return 1 (`LoopStack.PostResumesLatestPend`).
- `loop_post` guards against a missing pend by looking at `d->env`, which is never NULL in a loop
  (`LoopStack.PostNeedsPend`).
- A callback that pends blocks its own record only if `d->check` names the pass it runs in; after a
  post out of a nested pass it may not (`LoopReentry.FirstPendBlocksRunnerIff`,
  `LoopMismatch.ReentryWithoutMatch`).
- A post does not restore `d->idx`: the outer pass goes on at its own index if and only if the callback
  that a pass has started last stands in the slot before that index, and no pass has ended since
  (`LoopIndex.PostKeepsIndexIff`). That is the posting one if it has not pended itself
  (`LoopIndex.UnpendedPostKeepsIndexIff`), else another (`LoopResumed.PostsFromElsewhere`). Entries may
  then be left out (`LoopSkip.EntriesSkipped`).
- `lsd_send` accepts a length of zero and then still sends one byte (`LsdResync.SendArrivesIff`).
- `mw_send_sync` ignores what `lsd_send` answers, and takes any `loop_post(CMD_OK)` for the end of its
  frame. Its success can be relied on, whatever comes in, exactly under the condition
  `MwCall.Sure` on the start (`MwCall.ReliableIff`). With a send still under way it drops its first
  chunk (`MwSend.LosesChunk`); with a reception under way that has timed out, it may drop its second
  (`MwSend.LosesChunkToReception`).
- `i_ldiv` fails for divisors of 2^31 and above that are below the dividend
  (`LongArith.ILDiv`); its signed callers never meet them (`LongArith.LDiv`).
- `uint8_to_str` drops an inner zero (`IpAddress.PrintedValueIff`).
- The bound check on access point records takes a name length from 128 up for a negative number
  (`ApList.CheckSoundIff`), and reads that length before it is known to be inside
  (`ApList.LooksBehindIff`).
- An empty time zone hides the servers sent with it (`StringPack.SntpRoundTrip`).
- The limit of a polling wait is kept in 16 signed bits: those above 32782 frames end it too soon or
  never (`Polling.OnTimeIff`).
- `loop_timer_start` takes an `int` and keeps 16 bits of it (`LoopTimer.TimerFiresExactly`).
- `mp_alloc` rounds lengths above 65532 to zero (`MPool.ReservedCoversIff`).

## Model

| member | source | states |
|---|---|---|
| LsdLink.LinkSafety | src/mw/lsd.c:122-243 | two endpoints, any interleaving of bytes, sends, re-arms and channel changes: what is delivered is a prefix of what `lsd_send` accepted, with no error, loss, duplicate or reordering, payloads of any bytes; all of it once the sender is idle and the line read |
| LsdLink.PartialReceptionAddsUp | src/mw/lsd.c:108-120 | in every reachable state, pieces handed over plus `frame_len` equal the header's length, what has come is a prefix of the payload, and the next byte fits the buffer |
| LsdLink.CanDeliverAll | src/mw/lsd.c:122-243 | no reachable state is stuck: bytes moving and re-arming alone can deliver everything accepted |
| LsdLink.StepKeepsInv | src/mw/lsd.c:108-335 | every step at either end keeps the invariant of both directions |
| LsdLink.OneSidedRun | src/mw/lsd.c:223-243 | whatever one endpoint does by itself, with sends of at least one byte on channels the peer listens to and no disabling, is a run of the two-ended system |
| LsdLink.EndRuns | src/mw/lsd.c:182-243 | an endpoint with any history that is at one end of a link stays so over what it does next, and what it writes is on the line behind what was there |
| LsdResync.FeedFrame | src/mw/lsd.c:108-172 | partial reception: for any buffers with room enough, the pieces joined are the rest of the payload, only the last is final, and no byte behind the frame is read |
| LsdResync.Resync | src/mw/lsd.c:126-172 | from waiting for STX: noise without 0x7E, then one or more 0x7E, then a valid frame, delivers exactly that frame |
| LsdResync.HeaderIsNotStx | src/mw/lsd.c:133-148 | no header byte of an existing channel is 0x7E, on which resynchronisation rests |
| LsdResync.SendArrivesIff | src/mw/lsd.c:189-216 | a send arrives as asked if and only if its length is positive or the stray byte of a zero-length one is 0x7E |
| LsdAccept.WireFormat | src/mw/lsd.c:189-221 | the frame byte by byte: 0x7E, channel and length in the nibbles of the header, payload, 0x7E |
| LsdAccept.HeaderRefused | src/mw/lsd.c:133-143 | a header byte naming a channel that does not exist or is not enabled ends the reception with LSD_STAT_ERR_INVALID_CH, and nothing more is read |
| LsdAccept.RefusesOtherChannels | src/mw/lsd.c:133-143 | so does every frame on a channel that is not enabled, and the buffer is not touched |
| LsdAccept.DeliveredOrFramingError | src/mw/lsd.c:122-172 | a frame that fits is delivered in one piece if and only if its closing byte is 0x7E, else reported as a framing error; the payload is in the buffer, the rest of which is as it was, and nothing behind the frame is read |
| LsdAccept.ReceivedIntoBuffer | src/mw/lsd.c:307-335 | `lsd_recv` on an idle receiver, then a frame that fits: handed over in the buffer and to the callback of that call if and only if its channel is enabled |
| LsdDriver.Lsd.HandleByte | src/mw/lsd.c:122-179 | the reception switch on module state and the caller's buffer does the machine's step, and says whether it ends in the callback |
| LsdDriver.Lsd.RecvAdd | src/mw/lsd.c:108-120 | one payload byte stored in the buffer in place |
| LsdDriver.Lsd.EmitByte | src/mw/lsd.c:189-221 | the sending switch writes the machine's byte, with the FIFO not full |
| LsdDriver.Lsd.StartSend | src/mw/lsd.c:274-305 | which of the four answers `lsd_send` gives exactly when, and what an accepted send sets up |
| LsdDriver.Lsd.Arm | src/mw/lsd.c:307-335 | `lsd_recv` takes the buffer and the callback it is given, in each state of the receiver, if and only if the buffer is below 4096 bytes, and else changes nothing |
| LsdDriver.Lsd.RunCallback | src/mw/lsd.c:101-106 | a callback makes its calls, in order, and then posts if it is one that does |
| LsdDriver.Lsd.Process | src/mw/lsd.c:223-243 | `lsd_process` is a run of the machine, ends whatever finitely many callbacks do, and never writes to a full FIFO; unless a callback leaves it by `loop_post` it stops only when nothing can be read or written; with callbacks that make no calls it only moves bytes, and says which callback has left it |
| LsdDriver.Lsd.Burst | src/mw/lsd.c:235-241 | at most 16 bytes for one look at an empty FIFO, also when a completion callback starts the next send |
| LsdDriver.Lsd.Drain | src/mw/lsd.c:229-234 | the receiving loop reads on while it may, and ends |
| MwSend.ChunksConserve | src/mw/megawifi.c:218-239 | the chunks join to the caller's data, are ceil(len / buf_len) many, and each is one `lsd_send` takes |
| MwSend.EndToEnd | src/mw/megawifi.c:218-239 | once the accepted chunks have gone out and been read, the peer's frames after those sent before join to exactly the caller's data |
| MwSend.Sender.SendOverLink | src/mw/megawifi.c:218-239 | end to end: started with no send in progress, and with no reception under way that posts or only one chunk that is taken, success means that in every reachable state with this endpoint the peer can be given, and will have been given once all has gone through, exactly the caller's data behind what was sent before; the call is a run of the system |
| MwSend.Sender.SendSync | src/mw/megawifi.c:218-239 | the function is a call as `MwCall` has it; on success all chunks were accepted if and only if the first was taken and no reception that posts ended a wait but the last; with no such reception, success from a start with a send in progress has lost exactly the first chunk, failure leaves a row of whole chunks, and a channel that is not enabled fails; given time it succeeds |
| MwCall.ReliableIff | src/mw/megawifi.c:218-239 | for every state of the endpoint: success means that all chunks were accepted, whatever comes in and whenever, if and only if no send is in progress and no reception that posts is under way or there is one chunk, or a send is in progress and neither its callback nor that of a reception posts |
| MwCall.NeverGood | src/mw/megawifi.c:226-234 | in that last case the call never succeeds |
| MwCall.LosesSecond | src/mw/megawifi.c:106-121 | from every idle start with such a reception, two chunks or more and a frame that completes it, there is a run that succeeds without the second chunk |
| MwCall.CanFinish | src/mw/lsd.c:122-172 | from every state of a reception some bytes complete it |
| MwCall.SuccessMeansNoError | src/mw/megawifi.c:111-125 | a call of `mw_send_sync` that succeeds has not been told of a reception error |
| MwCall.WaitEndsHow | src/mw/megawifi.c:99-132 | a wait ends well if and only if a send that posts has gone out or a reception that posts has brought data |
| MwSend.Sender.RecvSync | src/mw/megawifi.c:197-216 | succeeds if and only if the wait is ended by data for a reception that posts, or by the end of a send in progress that posts; on an error it fails; when it times out the reception is left under way |
| MwSend.LosesChunk | src/mw/megawifi.c:227-234 | after `lsd_init`: a call that times out with its first frame going out, then one that reports success and has lost its first chunk |
| MwSend.LosesChunkToReception | src/mw/megawifi.c:197-239 | after `lsd_init`: a reception times out, then a send starts with nothing in progress, an empty frame arrives, and success is reported with the second chunk lost |
| LoopPass.PassVisitsEachOnce | src/mw/loop.c:160-216 | a pass without pends visits the entries it found and then those appended, each once, in order, and leaves exactly those not removed, in order |
| LoopPass.MarkedIsNotRun | src/mw/loop.c:89-102 | a record marked for deletion before its turn in a pass without pends, in the table once and not added again, is not in the table at the end of the pass, nor run in it |
| LoopMarked.MarkedNeverStarted | src/mw/loop.c:160-216 | over every run, with pends and posts: a record that is marked, in its table once and not added again is not started by any pass |
| LoopCalls.DeletedNeverStarted | src/mw/loop.c:89-102 | over every run after it: a record in its table once that is deleted is not started by any pass until it is added again |
| LoopCalls.StaysInTable | src/mw/loop.c:160-216 | over every run: a record in its table and not to be deleted stays so unless it is deleted |
| LoopCalls.AddedStays | src/mw/loop.c:70-87 | adding puts a record, marked for deletion or not, into its table to stay if and only if it was there or there was room |
| LoopCalls.RunKeepsMarksInTable | src/mw/loop.c:160-216 | over every run only records in a table are marked in it |
| LoopCalls.SwitchedFunction | src/mw/loop.h:106-119 | over every run after it: a disabled function is not started, and an enabled one by every visit that finds it not blocked |
| LoopCalls.EndedLoopBeginsNoPass | src/mw/loop.c:218-236 | after `loop_end` no loop begins another pass, and a nested one can only return |
| LoopTimer.FiresAt | src/mw/loop.c:187-201 | a timer of f frames fires at update f, or every f-th if it reloads, and at no other, and one that does not reload is then stopped |
| LoopTimer.TimerFiresExactly | src/mw/loop.c:187-201 | over every run after `loop_timer_start`: a visit starts the callback if and only if it is that update of the timer, counting visits in which it is neither blocked nor marked |
| LoopTimer.StoppedNeverFires | src/mw/loop.h:147-150 | over every run after `loop_timer_stop`: no pass starts the callback until the timer is started again |
| LoopPass.PassEnds | src/mw/loop.c:160-216 | however callbacks add entries, a pass without pends makes at most max * (max + 2) visits |
| LoopStack.PostResumesLatestPend | src/mw/loop.c:247-295 | a post resumes the latest outstanding pend, which returns the posted value, with `d->env` and `d->jmp` as before the pend and all outer levels untouched, but `d->idx` and `d->check` as they are at the post |
| LoopStack.LeaveResumesLatestPend | src/mw/loop.c:247-288 | a nested loop that returns because of `loop_end` resumes the latest pend likewise, which returns 0 |
| LoopStack.RunKeepsStacked | src/mw/loop.c:218-295 | over every run the two pointers name the innermost loop and the innermost pend |
| LoopStack.PostNeedsPend | src/mw/loop.c:290-295 | a callback may post if and only if a pend is outstanding, while the guard always lets it |
| LoopReentry.NeverReentered | src/mw/loop.c:160-216 | over every run whose first pends find `d->check` right, each pended callback's record is blocked and the passes start none of the pended ones |
| LoopReentry.FirstPendBlocksRunnerIff | src/mw/loop.c:266-288 | a first pend blocks the running record if and only if `d->check` names its pass |
| LoopReentry.DisabledNeverRuns | src/mw/loop.c:164-173 | a disabled function is not run until it is enabled again |
| LoopMismatch.ReentryWithoutMatch | src/mw/loop.c:247-295 | a run from a fresh loop in which a pended timer runs again above its own pend |
| LoopIndex.PostKeepsIndexIff | src/mw/loop.c:247-295 | over every run: after a post the outer pass is at its own index if and only if the callback a pass has started last, in whichever loop, stands in the slot before it; if a pass has ended since, the index is 0 |
| LoopIndex.UnpendedPostKeepsIndexIff | src/mw/loop.c:247-295 | for a posting callback that has not pended itself, with every first pend matched, it is its own slot that counts |
| LoopResumed.PostsFromElsewhere | src/mw/loop.c:247-295 | a run from a fresh loop in which the posting callback has pended, stands elsewhere, and the outer pass is at its own index all the same |
| LoopSkip.EntriesSkipped | src/mw/loop.c:160-216 | a run from a fresh loop, every pend matched, in which a pass comes to its end without having visited an enabled function, and the nested pass without a timer |
| LoopDriver.Slots.Add | src/mw/loop.c:70-87 | the add searches and appends in the array: an entry marked for deletion loses the mark instead |
| LoopDriver.Slots.Del | src/mw/loop.c:89-102 | the delete marks the record if and only if it is there, which it answers, and changes nothing else |
| LoopDriver.Slots.DeleteAt | src/mw/loop.c:151-158 | the shift removes one entry and keeps the order and the gap-free prefix |
| LoopDriver.Scheduler.RunPass | src/mw/loop.c:160-216 | the array loop, with callbacks adding, deleting and enabling, visits each entry once and leaves the survivors in order |
| LoopDriver.Scheduler.VisitHere | src/mw/loop.c:160-216 | one visit, and if it starts a callback all the calls of that in order |
| LoopDriver.Scheduler.Turn | src/mw/loop.c:218-236 | one turn of `loop` picks the pass by `d->check` and the vertical blanking edge and makes it in full |
| LoopDriver.Scheduler.FrameUpdate | src/mw/loop.c:138-149 | an edge of the blanking flag counts one frame |
| RtpMidi.Parser.ProcessCommands | src/rtpmidi.c:57-80 | the packet loop with its cursor emits what the parser function says, or runs off the packet |
| RtpMidi.Parser.EmitMidiEvent | src/rtpmidi.c:28-35 | a status and its data bytes are emitted and passed |
| RtpMidi.Parser.ProcessSysEx | src/rtpmidi.c:40-47 | a SysEx is emitted to its end, where the cursor stays |
| RtpMidi.Parser.ProcessPacket | src/rtpmidi.c:49-83 | a whole packet: which length is read, where the list starts, and what is emitted |
| RtpMidiPacket.PlainIsDecodable | src/rtpmidi.c:49-83 | commands of known length, with a SysEx as the last of them at most, are decodable |
| RtpMidiPacket.ListDecodesIff | src/rtpmidi.c:19-83 | a list, with any delta times, any use of running status and SysEx anywhere, is decoded in full if and only if the parser knows the length of each command up to the first SysEx and what is behind that comes out right by chance |
| RtpMidiShift.ListByChanceIff | src/rtpmidi.c:57-80 | a list read from its delta time on as if that were commands comes out right if and only if each is a command with one data byte, whose delta time leaves the parser with its status, ends in that byte and holds no 0xF0 |
| RtpMidiShift.SysExNotByChance | src/rtpmidi.c:40-80 | read like that a SysEx never comes out right |
| RtpMidiCodec.KnownStatuses | src/rtpmidi.c:19-26 | those are channel messages but pitch bend, and 0xF1 and 0xF3 |
| RtpMidiPacket.LengthReadIff | src/rtpmidi.c:4-17 | the length in the header is read right if and only if it is short or below 256 |
| RtpMidiPacket.PacketDecodesIff | src/rtpmidi.c:49-83 | for every header, list and encoding, a packet is decoded if and only if the list is decodable, or comes out right by chance if Z is set, and its length is read right |
| RtpMidiPacket.PacketWithJournalDecodes | src/rtpmidi.c:49-83 | bytes behind the list do not matter |
| LongArith.ILMul | boot/sega.s:353-370 | the product from three 16-bit ones is the product modulo 2^32 |
| LongArith.ILDiv | boot/sega.s:374-470 | for a divisor not zero the answer satisfies A = B * q + r with r below B if and only if B is below 2^31 or not below A; it never returns exactly for 2^31 below A |
| LongArith.DivideTwoDigits | boot/sega.s:424-444 | long division with two digits, neither `divu` overflowing |
| LongArith.ShiftUp | boot/sega.s:447-454 | the shifted divisor stays the divisor times d2, and ends above half the dividend |
| LongArith.ShiftDown | boot/sega.s:457-465 | the subtractions keep A = B * d3 + d0 and end below the divisor; never the right answer once a bit was lost |
| LongArith.LDiv | boot/sega.s:280-295 | signed division towards zero, right for every dividend and divisor but zero |
| LongArith.LRem | boot/sega.s:314-329 | the remainder has the sign of the dividend |
| LongArith.LMul | boot/sega.s:297-312 | the signed product modulo 2^32 |
| LongArith.TruncIsDivision | boot/sega.s:280-329 | quotient and remainder so defined make up the dividend |
| IpText.IsUint8 | src/mw/util.c:7-37 | accepts a run of digits if and only if it is not empty and its value is below 256, with any zeros in front |
| IpText.ToUint8 | src/mw/util.c:170-212 | gives the value of a run of digits if it is below 256 |
| IpAddress.Validate | src/mw/util.c:39-61 | accepts exactly the texts the reader of four numbers accepts |
| IpAddress.AcceptedIffDotted | src/mw/util.c:39-61 | these are exactly four numbers below 256 joined by dots |
| IpAddress.ToBytes | src/mw/util.c:64-77 | for an accepted text, the four values |
| IpAddress.PrintUint8 | src/mw/util.c:131-155 | writes the printed number in place with its terminator |
| IpAddress.PrintAddress | src/mw/util.c:80-94 | writes the dotted text in place with its terminator |
| IpAddress.PrintedValueIff | src/mw/util.c:131-155 | the printed number has no needless zero in front, and is the right one if and only if it is not in 100-109 or 200-209 |
| IpAddress.PrintedAddressParsesBackIff | src/mw/util.c:64-94 | a printed address is always accepted, and parses back to itself if and only if no byte is in 100-109 or 200-209 |
| StringPack.ConcatStrings | src/mw/util.c:270-289 | packs all the strings or returns 0, by whether one is NULL or the room is short, and writes nothing behind it |
| StringPack.ConcatKvPairs | src/mw/util.c:291-313 | succeeds and writes exactly as `concat_strings` on keys and values in turn |
| StringPack.TokensGet | src/mw/megawifi.c:905-921 | inverts the packing: how many strings, up to the maximum, and where each starts and the empty one behind them, whatever follows that |
| StringPack.SntpPayload | src/mw/megawifi.c:887-896 | the payload is the time zone and the servers before the first missing one, packed |
| StringPack.SntpParse | src/mw/megawifi.c:923-945 | the time zone and the three servers read out of a reply, unset ones empty or missing |
| StringPack.SntpRoundTrip | src/mw/megawifi.c:876-945 | settings read back: the time zone is what it was, and the set servers are if and only if the time zone is not empty or there are none |
| ApList.WalkInverts | src/mw/megawifi.c:510-527 | the walk describes each encoded record in order and then answers 0 |
| ApList.CheckSoundIff | src/mw/megawifi.c:510-527 | the bound check keeps the position returned inside the data for exactly the name lengths below 128 |
| ApList.LooksBehindIff | src/mw/megawifi.c:510-527 | what is behind the data can change the answer exactly where one to three bytes are left |
| MPool.Pool.Init | src/mw/mpool.c:35-43 | a forced or first initialisation empties the pool from an aligned floor |
| MPool.Pool.Alloc | src/mw/mpool.c:45-60 | for every length: a block that covers it, aligned, behind the last, or NULL when it would reach the end; no room for one that rounds to zero |
| MPool.Pool.FreeTo | src/mw/mpool.c:73-79 | for every address: cuts the live blocks there if it is aligned and in use, else changes nothing |
| MPool.CutAtBlock | src/mw/mpool.c:73-79 | a cut at the start of a live block frees it and the later ones and no other |
| MPool.CutStack | src/mw/mpool.c:73-79 | a cut anywhere keeps the blocks below as they are, but for the end of the last, and none above |
| MPool.Pool.LiveBlocksAreApart | src/mw/mpool.c:35-79 | over every history live blocks are aligned, disjoint, ordered and inside the pool |
| MPool.ReservedCoversIff | src/mw/mpool.c:50 | the rounded length covers the one asked for if and only if that is at most 65532 |
| MPool.LoopInitDeinit | src/mw/loop.c:47-68 | `loop_init`, the first one or a later one, then any allocations and frees behind it, then `loop_deinit`: the pool is as it was |
| Polling.FailsExactlyAt | src/mw/megawifi.c:569-605 | for every limit, the timer update from which on the wait has failed: given by its low 16 bits |
| Polling.OnTimeIff | src/mw/megawifi.c:569-605 | a wait with a limit of T frames fails at timer update 15 * ceil(T / 15) and at no earlier one if and only if T is at most 32782 |
| Polling.ZeroNeverFails | src/mw/megawifi.c:798-836 | with a limit of 0 it polls every 15 updates for ever |
| Polling.Poller.UpdateTimer | src/mw/loop.c:187-201 | the timer fields and the callback's, updated in place |
| Polling.Poller.TimerCallback | src/mw/megawifi.c:569-581 | the limit goes down by a poll, and ends the wait when it is used up |

## Left out

- LsdLink.LinkSafety: for the uses of the link that the code supports: accepted sends carry at least one byte on a channel the peer has enabled, a channel is not disabled while frames on it are under way, and a buffer handed over in the middle of a frame holds what has come so far (the same buffer, as the polling timers do). Line noise is bytes other than 0x7E before the first frame.
- LsdDriver.Lsd.Process: the bytes behind the pointer given to `lsd_send` are taken as they are at the call; `mw_command` reuses the command buffer for the reply while it is being sent, and that aliasing is not modelled. A NULL callback is a callback that makes no calls. Callbacks that pend while `lsd_process` runs them are not modelled.
- MwSend.Sender.SendSync: `loop_pend` is rounds of `lsd_process` until a callback posts or the timer ends it, without the scheduler around it; nothing else that the loop runs meanwhile uses the link or posts.
- MwSend.Sender.SendOverLink: the run given for the call is one in which the peer stands still, so what the call reads is on the line when it starts; runs in which the peer moves meanwhile are covered by what is said of every reachable state with the same endpoint.
- LoopPass.PassVisitsEachOnce: for passes whose callbacks do not pend; with pends it fails as `LoopSkip.EntriesSkipped` shows, and which entries are then left out or visited again is not characterised beyond the index the pass goes on at.
- LoopDriver.Scheduler.RunPass: one slot stays free. With a full array the deletion and a failing search read behind it. Tables have at most 127 slots, as `int8_t` indices demand.
- Machine-level `setjmp` and `longjmp`: a jump is a return to a saved level of the stack.
- RtpMidiPacket.PacketDecodesIff: SysEx split over packets or lists, the undefined statuses 0xF4 and 0xF5, and SysEx with 0xF0 among its data.
- IpAddress.ToBytes: nothing is promised for texts that are not accepted, some of which are read past their end.
- StringPack.SntpRoundTrip: the module is taken to reply with the very payload it was sent.
- Negative lengths passed to `lsd_send` and `lsd_recv`, and a buffer of length 0.
- `lsd_send_sync`, `lsd_recv_sync`, `lsd_line_sync`, `uint16_to_str`, `uint32_to_hex_str`, `int16_to_str`, `version_to_str`, `version_cmp`: would add easy members only.
- The `mw_*` command wrappers, Wi-Fi, HTTP and flash: they fill a buffer and depend on the firmware of the module, which is not part of this model.
- `src/applemidi.c`, `src/mediator.c`, `src/main.c`, screen output, start-up, interrupt and exception code.
