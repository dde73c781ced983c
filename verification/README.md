# VoiceLife device protocols and tooling, modelled in Dafny

VoiceLife is a voice assistant for small devices that talks to an instant-messaging gateway. This project
models the parts of it in which several steps, threads or programs must agree, and proves what they keep.

* **Reminder actions.** The device reads commands from a resumable event stream, executes each at most once
  for an open window, replays cached results and moves a cursor only on acknowledgement
  (`ActionChannel`, `ActionLaws`, `ActionCursor`, `ActionClocks`). The gateway and the network are arbitrary scripts.
* **Readers.** The server-sent-events decoder and its wire format (`SseDecoder`, `SseStream`, `SseWire`, `SseLines`,
  `SseOverflow`), the JSON reader
  and quoter with a grammar of strings and a printer for all JSON trees (`JsonText`, `JsonReader`, `JsonLaws`, `JsonBodies`, `JsonTrees`,
  `JsonFieldLaws`), the WebSocket fragment assembler and the frames it is fed (`WebSocketAssembler`,
  `WebSocketFrames`), and two timestamp readers over one calendar (`CivilDate`, `Timestamps`,
  `IsoText`).
* **Pairing.** The timed session, the use case with its generations, the polling lease and the task that polls
  (`PairingController`, `PairingVerdicts`, `BindingUseCase`, `PollingLease`, `BindingPolling`).
* **Playback.** A bounded queue with back-pressure, resampling into a reserved buffer, and a close in which closers
  and the output task hand over to each other (`PcmFormat`, `Resampler`, `PlaybackPort`, `PlaybackRuns`, `PlaybackWriter`,
  `PlaybackReopen`).
* **Wake word.** The wrap-around sample ring, the drop-oldest mailbox and the worker with its generations
  (`PcmRing`, `WakeMailbox`, `WakeWorker`, `WakeOrder`, `WakeQueue`, `WakeLateFrame`).
* **Tooling.** The asset image from its packer to the device that loads it (`AssetFormat`, `AssetImage`, `AssetDevice`,
  `AssetComplete`),
  and the end-to-end runner whose results must satisfy the evidence validator (`E2eCleanup`, `E2eRunner`).

Code that changes state in place is modelled by classes and loops, each proved against a function on values; the laws
are about those functions. Concurrent code is a state machine: every region under a mutex, or every atomic access where
atomics are used inside one, is a step, and theorems quantify over all sequences of steps. Steps that are not possible in a
state leave it unchanged. Clocks, network answers, callbacks, the wake model's verdicts and scheduling are inputs.

## Where the code and its promises differ

* A frame that reaches the wake detector while `Stop` is between advancing the generation and clearing `running` is stamped
  with the Stop's generation and can still fire the sink (`WakeLateFrame.LateFrameIsCalled`); `WakeWorker.CalledForOwnFrames`
  says exactly when. The comment in `Stop` that no old callback can leak does not cover a sink the worker has already taken:
  it is called with no lock held (`WakeWorker.SilentAfterStop`, `WakeLateFrame.CallAfterStop`).
* The finalizer of the playback port says no writer remains once it may run. That needs the port not to be reopened while a thread
  stands between learning that the task is gone and entering the finalizer, be it the exited task or a closer
  (`PlaybackReopen.ReopenSafeIff`). The order of writes needs it too: the task that survives such a close may write its frame after
  frames that were accepted later (`PlaybackReopen.OrderSafeIff`). Single release, the meaning of a completed close, and the order
  in which frames leave the queue need no such assumption.
* If the first cleanup pass loses an entry to the deadline and is then interrupted with no entry left, the timeout is not reported
  (`E2eCleanup.TimeoutLost`, `E2eCleanup.CoveredIff`); the run is still reported as failed.
* The two timestamp readers scale fractions of one or two digits differently (`Timestamps.ShortFractionDiffers`).
* The event-stream decoder's header says that feeding stops accumulating after an overflow. The code drops the unfinished frame, sets
  a flag that it never reads, and goes on (`SseOverflow.GoesOnAccumulating`, `SseOverflow.FlagNeverRead`); exactly when the promise
  holds is `SseOverflow.StopsAccumulatingIff`, and the rest of the over-long frame is decoded as a frame of its own
  (`SseOverflow.TailBecomesFrame`).
* Joining `data` lines drops leading empty ones (`SseWire.BlockParsed`), which is narrower than section 9.2.6 of the WHATWG HTML standard.
* The assembler takes every frame for a message of its own and never reads the final bit of section 5.4 of RFC 6455: of a message in
  several frames it returns the first and refuses the others (`WebSocketFrames.StreamRuns`, `WebSocketFrames.MessagesExactIff`).
* A lone surrogate escape is grammatical in section 7 of RFC 8259, but the reader refuses such a string as a key or as a member's
  value, and lookup then reports every later member as absent (`JsonFieldLaws.FindExact`, `JsonFieldLaws.LoneSurrogateHidesMember`).
* The device checks an entry's bounds in 32-bit arithmetic, so an entry whose end wraps around passes and is read outside the partition
  (`AssetDevice.LoadLeavesIff`, `AssetDevice.AcceptedReadsOutside`); no image that passes verification has one (`AssetDevice.VerifiedLoads`).
* The action channel's cache key is ambiguous for trigger ids with the byte 0x1f (`ActionLaws.KeyCollision`), and a command can then
  be answered with another trigger's result (`ActionLaws.AnswerOfAnother`).
* The packer cuts names at 32 bytes; its check of the length cannot fail (`AssetImage.VerifiedIffNamesFit`).
* Branches shown to be dead: the second final poll of a pairing session, the length mismatch at the end of a push to the assembler,
  both refusals after a producer's wait, the clamp of the queue duration, the refusal of a frame without duration.

## Model

| member | source | states |
|---|---|---|
| `ActionLaws.HistoryInv` | components/voicelife_im/src/im_action_channel.cc:175-290 | over every history of runs, disconnects and replays: executions under one key are separated by a run that closed the first one's window, answers in between repeat its result, and every answer stems from an execution |
| `ActionLaws.ExecutedOncePerWindow` | components/voicelife_im/src/im_action_channel.cc:186-192 | two reportable executions of one (trigger, operation) have between them a run started at or after the expiry recorded with the first |
| `ActionLaws.AnswersAreGenuine` | components/voicelife_im/src/im_action_channel.cc:254-277 | where trigger ids carry no separator byte, every result reported is that of an earlier execution of the same operation in the same trigger |
| `ActionLaws.AnswerOfAnother` | components/voicelife_im/src/im_action_channel.cc:254-277 | for every trigger id with 0x1f in it, a history in which its command is answered with another trigger's result and never executed |
| `ActionLaws.KeyInjective` | components/voicelife_im/src/im_action_channel.cc:144-146 | the cache key determines trigger and operation when neither trigger id contains 0x1f |
| `ActionLaws.KeyCollision` | components/voicelife_im/src/im_action_channel.cc:144-146 | every trigger id that does contain 0x1f shares its keys with a different pair |
| `ActionCursor.NothingSkipped` | components/voicelife_im/src/im_action_channel.cc:194-228 | with a gateway that resumes strictly after the cursor, every command up to a trigger's cursor was dropped as mis-routed or accepted by the gateway, over every history |
| `ActionCursor.RunCounts` | components/voicelife_im/src/im_action_channel.cc:194-228 | within one run commands handled = dropped + confirmed + at most one unconfirmed; a run that reports itself finished handled every command and left none unconfirmed |
| `ActionClocks.HandledExact` | components/voicelife_im/src/im_action_channel.cc:230-278 | exactly what handling does, by owner, clock and cache: an expired command executes nothing, leaves the cache alone and is reported once as expired under its own ids and the stamp clock; a cached one is answered from the cache; any other is executed once |
| `ActionClocks.HistoryTimely` | components/voicelife_im/src/im_action_channel.cc:200-278 | over every history, each command in the log was read before its window closed; only own commands whose expiry lies after their check clock were executed or answered from the cache, and exactly the others were reported as expired |
| `ActionClocks.UnreadableIsExpired` | components/voicelife_im/src/im_action_channel.cc:137-141 | readable times are compared as read; an unreadable clock makes every command expired, and an unreadable expiry does at any clock from 1970 on |
| `ActionClocks.RunEnds` | components/voicelife_im/src/im_action_channel.cc:175-228 | which status every run ends with, on its clocks, the stream and unconfirmed commands alone, and that a run after its window does nothing |
| `ActionChannel.ImActionChannel.Run` | components/voicelife_im/src/im_action_channel.cc:175-228 | fields, log and status after a run are those of the run's specification: expiry check first, purge, open at the cursor, read loop |
| `ActionChannel.ImActionChannel.ReadLoop` | components/voicelife_im/src/im_action_channel.cc:200-227 | the read loop, ended by disconnect, end of stream, window expiry or an unconfirmed command |
| `ActionChannel.ImActionChannel.HandleCommand` | components/voicelife_im/src/im_action_channel.cc:230-278 | routing check, expiry, replay from the cache, execution, caching of reportable outcomes only; `ActionClocks.HandledExact` says what that comes to |
| `ActionChannel.ImActionChannel.Settle` | components/voicelife_im/src/im_action_channel.cc:280-290 | the cursor moves and the command counts as confirmed only when the gateway accepted the report |
| `ActionChannel.ImActionChannel.Purge` | components/voicelife_im/src/im_action_channel.cc:186-192 | exactly the results of windows still open at this time stay cached |
| `CivilDate.NextDayAddsOne` | components/voicelife_im/src/im_pairing_controller.cc:29-37 | the day count is 0 on 1970-01-01 and grows by exactly one from every valid proleptic Gregorian date to the next, all years |
| `CivilDate.DaysCountsSteps` | components/voicelife_im/src/im_pairing_controller.cc:29-37 | n calendar steps after 1970-01-01 the count is n |
| `CivilDate.DaysOrderDates` | components/voicelife_im/src/im_pairing_controller.cc:29-37 | the count orders dates exactly as the calendar does and is injective |
| `CivilDate.DayCountsAgree` | components/voicelife_im/src/im_action_channel.cc:120-131 | the action channel's own count equals the pairing controller's on every input |
| `Timestamps.IsoToEpochMillis` | components/voicelife_im/src/im_action_channel.cc:27-135 | the channel's reader computes what its grammar denotes, or refuses |
| `Timestamps.ParseIsoMillis` | components/voicelife_im/src/im_pairing_controller.cc:39-91 | the pairing reader computes what its grammar denotes, or refuses |
| `Timestamps.ReadersAgree` | components/voicelife_im/src/im_pairing_controller.cc:39-91 | on a string the channel accepts the two agree if and only if the time is not before 1970 and the fraction is absent, has at least three digits or is zero |
| `Timestamps.AcceptanceGap` | components/voicelife_im/src/im_action_channel.cc:27-135 | on a string the pairing reader accepts, the channel accepts it if and only if the separators are right and a fraction is not empty |
| `Timestamps.ShortFractionDiffers` | components/voicelife_im/src/im_pairing_controller.cc:39-91 | a tenth of a second is 1 ms to the channel and 100 ms to the pairing controller |
| `IsoText.IsoRead` | components/voicelife_im/src/im_action_channel.cc:27-135 | every timestamp printed from its numbers is read as its UTC time by both readers: the fraction's first three digits at face value, or scaled by the pairing reader, which refuses times before 1970 |
| `IsoText.AcceptedIsIso` | components/voicelife_im/src/im_action_channel.cc:27-135 | the channel accepts a string if and only if it is such a printed timestamp |
| `IsoText.IsoReadOnDate` | components/voicelife_im/src/im_pairing_controller.cc:29-91 | on the n-th calendar date after 1970-01-01 that time is n days plus the time of day less the offset |
| `IsoText.ZoneShifts` | components/voicelife_im/src/im_action_channel.cc:95-118 | a time written with an offset is the same written with Z, less the offset when ahead and more when behind |
| `SseDecoder.ChunkingIndependent` | components/voicelife_im/src/im_sse.cc:21-63 | for every stream and every cutting: no feed overflows if and only if no cut leaves an unfinished frame of the limit, and then frames, buffer and CR flag are those of a single feed; the buffer never keeps a blank line |
| `SseDecoder.FeedTwice` | components/voicelife_im/src/im_sse.cc:21-63 | two feeds in a row equal one feed of the joined bytes unless the first overflows |
| `SseDecoder.LimitDependsOnCuts` | components/voicelife_im/src/im_sse.cc:57-62 | the limit is on what a cut leaves over: the same bytes overflow or not depending on where they are cut |
| `SseOverflow.StopsAccumulatingIff` | components/voicelife_im/src/im_sse.cc:57-62 | after an overflow the buffer is empty after every later feed, as the header promises, if and only if every chunk by itself closes its last block or overflows again |
| `SseOverflow.GoesOnAccumulating` | components/voicelife_im/src/im_sse.cc:21-63 | after an overflow any unfinished text below the limit is buffered whole |
| `SseOverflow.FlagNeverRead` | components/voicelife_im/src/im_sse.cc:21-63 | with the overflow flag set or clear, any feeds give the same frames, buffer and CR flag |
| `SseOverflow.OverflowForgets` | components/voicelife_im/src/im_sse.cc:57-62 | from an overflow on, the decoder does what a new one does, but for the flag and a pending CR |
| `SseOverflow.TailBecomesFrame` | components/voicelife_im/src/im_sse.cc:57-62 | cut inside an over-long first line, the text after the cut is decoded as a frame of its own; the same bytes in one feed are one frame without an id |
| `SseDecoder.Decoder.Feed` | components/voicelife_im/src/im_sse.cc:21-63 | frames and state after a feed are those of the declarative reading of buffered text plus new bytes |
| `SseDecoder.Decoder.FoldInto` | components/voicelife_im/src/im_sse.cc:21-42 | the byte loop appends the bytes with CR, LF and CRLF folded, across feeds |
| `SseDecoder.Decoder.CutFrames` | components/voicelife_im/src/im_sse.cc:43-56 | the second loop cuts off and parses exactly the blocks that blank lines close |
| `SseDecoder.Decoder.Reset` | components/voicelife_im/src/im_sse.cc:65-69 | reset restores the initial state |
| `SseDecoder.ParseBlock` | components/voicelife_im/src/im_sse.cc:71-114 | one block parsed line by line; `SseLines.BlockMeans` says what that comes to |
| `SseWire.WireRoundTrip` | components/voicelife_im/src/im_sse.cc:21-114 | every list of well-formed frames, written with any line end and cut anywhere, is decoded to exactly that list with nothing left over |
| `SseWire.BlockRoundTrip` | components/voicelife_im/src/im_sse.cc:71-114 | one written frame reads back as itself if and only if id and event have no outer blanks and the data does not start with a line end |
| `SseWire.BlockParsed` | components/voicelife_im/src/im_sse.cc:71-114 | what any written frame reads back as: leading empty data lines are lost |
| `SseStream.PrefixFits` | components/voicelife_im/src/im_sse.cc:57-62 | no prefix of a written stream leaves as much as the limit unfinished |
| `SseStream.StreamDecoded` | components/voicelife_im/src/im_sse.cc:21-63 | any list of blocks without blank lines, written with any line end and cut anywhere, gives exactly the frames the blocks parse to, with nothing left over |
| `SseLines.BlockMeans` | components/voicelife_im/src/im_sse.cc:71-114 | every block gives the last id, the last event and the joined data values of its lines, or no frame when it has none of the three |
| `SseLines.NoFrameIff` | components/voicelife_im/src/im_sse.cc:81-111 | a block gives no frame if and only if no line starts with `id:`, `event:` or `data:`; comments, blank lines and unknown fields alone are none |
| `SseLines.MeaningOfKept` | components/voicelife_im/src/im_sse.cc:81-108 | lines that carry none of the three fields, anywhere in a block, change nothing that is read |
| `SseLines.CommentedRoundTrip` | components/voicelife_im/src/im_sse.cc:21-114 | every stream of well-formed frames with comments and unknown fields between the frames and among their lines, in any line end and cut anywhere, is decoded to exactly the frames |
| `SseLines.HeartbeatIgnored` | components/voicelife_im/src/im_sse.cc:81-83 | a comment alone, as the gateway sends for a heartbeat, gives no frame |
| `SseLines.BlankIsOptional` | components/voicelife_im/src/im_sse.cc:88-92 | one blank after the colon is taken off, and none needs to be there |
| `SseLines.TrimExact` | components/voicelife_im/src/im_sse.cc:10-17 | trimming an id or event takes off blanks and tabs at both ends and nothing else |
| `SseLines.TrimEnds` | components/voicelife_im/src/im_sse.cc:10-17 | what is left neither starts nor ends with one |
| `JsonLaws.QuoteRoundTrip` | components/voicelife_linx/src/linx_json_reader.cc:323-359 | reading back a quoted byte string gives the string and the position just past the literal, whatever follows |
| `JsonLaws.EscapeDecodes` | components/voicelife_linx/src/linx_json_reader.cc:18-121 | every scalar of the basic plane written as one escape decodes to its UTF-8 form |
| `JsonLaws.PairDecodes` | components/voicelife_linx/src/linx_json_reader.cc:18-121 | every scalar beyond it written as a surrogate pair decodes to its UTF-8 form |
| `JsonLaws.LoneSurrogatesRefused` | components/voicelife_linx/src/linx_json_reader.cc:18-121 | an escaped surrogate is accepted if and only if it is a high one right before the escape of a low one |
| `JsonLaws.Utf8IsInverted` | components/voicelife_linx/src/linx_json_reader.cc:18-121 | the UTF-8 form is the one an independent decoder after section 3 of RFC 3629 maps back |
| `JsonBodies.ReadBodyExact` | components/voicelife_linx/src/linx_json_reader.cc:18-121 | every string body of section 7 of RFC 8259 is read as exactly the bytes it denotes, unless it has a lone surrogate escape, and then it is refused |
| `JsonBodies.AcceptedIsBody` | components/voicelife_linx/src/linx_json_reader.cc:18-121 | conversely, whatever the reader accepts is such a body without lone surrogates, read as what it denotes |
| `JsonBodies.ScanOverBody` | components/voicelife_linx/src/linx_json_reader.cc:136-146 | the bracket scan leaves every such body exactly past its closing quote, lone surrogates or not |
| `JsonTrees.ScanOverValue` | components/voicelife_linx/src/linx_json_reader.cc:123-161 | the bracket scan passes over any printed value, whatever its strings, and comes out at the depth it came in with, although it counts one bracket kind |
| `JsonFieldLaws.SkipExact` | components/voicelife_linx/src/linx_json_reader.cc:123-161 | skipping stops exactly past any printed value, past a scalar at the next delimiter; the one value it refuses is a string with a lone surrogate |
| `JsonFieldLaws.FindExact` | components/voicelife_linx/src/linx_json_reader.cc:163-187 | on any printed object lookup finds the first member with the key, or its absence, exactly if and only if no earlier member has a lone surrogate in its key or string value; otherwise it reports absence |
| `JsonFieldLaws.LoneSurrogateHidesMember` | components/voicelife_linx/src/linx_json_reader.cc:163-187 | a grammatical object with a member that lookup does not find |
| `JsonFieldLaws.FirstMatchIsFirst` | components/voicelife_linx/src/linx_json_reader.cc:163-187 | first match means: that member has the key and no earlier one does |
| `JsonFieldLaws.ObjectFieldExact` | components/voicelife_linx/src/linx_json_reader.cc:279-321 | the object field is exactly the text of the member found when it is an object, refused otherwise; a missing field is refused as missing when required and left untouched when not |
| `JsonFieldLaws.StringFieldExact` | components/voicelife_linx/src/linx_json_reader.cc:193-208 | the string field is exactly the bytes that the member found denotes, refused when it is no string or has a lone surrogate; a missing field is refused as missing when required and left untouched when not |
| `JsonFieldLaws.UnsignedFieldExact` | components/voicelife_linx/src/linx_json_reader.cc:210-243 | the unsigned field is read if and only if the member found is a digit string within 32 bits; a missing field is refused as missing when required and left untouched when not |
| `JsonReader.ReadJsonString` | components/voicelife_linx/src/linx_json_reader.cc:18-121 | the string reader advances to just past the literal the grammar reads, or refuses |
| `JsonReader.ReadUnicodeAt` | components/voicelife_linx/src/linx_json_reader.cc:66-113 | the code-unit and surrogate-pair cases of an escape |
| `JsonReader.SkipJsonValue` | components/voicelife_linx/src/linx_json_reader.cc:123-161 | the skip loop computes the declarative skip |
| `JsonReader.ScanBrackets` | components/voicelife_linx/src/linx_json_reader.cc:131-153 | the bracket-counting loop with its in-string and escaped flags |
| `JsonReader.FindField` | components/voicelife_linx/src/linx_json_reader.cc:163-187 | the member loop computes the declarative lookup |
| `JsonReader.ReadStringField` | components/voicelife_linx/src/linx_json_reader.cc:193-208 | value, absence of an optional field, or the refusal |
| `JsonReader.ReadUnsignedField` | components/voicelife_linx/src/linx_json_reader.cc:210-243 | value, absence, overflow, bad tail or missing |
| `JsonReader.ReadObjectField` | components/voicelife_linx/src/linx_json_reader.cc:279-321 | the object's text, or the refusal |
| `JsonReader.Quote` | components/voicelife_linx/src/linx_json_reader.cc:323-359 | the quoting loop computes the quoted form |
| `WebSocketAssembler.CompletesExactly` | components/voicelife_linx_esp/src/websocket_fragment_assembler.cc:25-75 | from idle, a fragment sequence completes a message with its last fragment if and only if it carries exactly that message: one generation and length, right opcodes, no gap |
| `WebSocketAssembler.MessagesInOrder` | components/voicelife_linx_esp/src/websocket_fragment_assembler.cc:25-75 | any sequence of messages, each cut anyhow, comes out whole and in order |
| `WebSocketAssembler.CompletedAreCarried` | components/voicelife_linx_esp/src/websocket_fragment_assembler.cc:25-75 | in any stream whatever, a completed message is the gap-free concatenation of consecutive same-generation fragments ending there |
| `WebSocketAssembler.RejectionForgets` | components/voicelife_linx_esp/src/websocket_fragment_assembler.cc:10-13 | after a refused fragment the assembler behaves as a new one on the rest |
| `WebSocketAssembler.RefusedExactly` | components/voicelife_linx_esp/src/websocket_fragment_assembler.cc:25-64 | exactly which fragments are refused as invalid and which as a conflict, by bounds, opcode, generation, length and offset; a refusal leaves the idle state |
| `WebSocketFrames.StreamRuns` | components/voicelife_linx_esp/src/websocket_fragment_assembler.cc:25-75 | for every stream of messages after section 5.4 of RFC 6455, in any frames cut anyhow: for each message the assembler returns its first frame alone, if not empty and within the limit, and it refuses nothing if and only if every message is a single such frame |
| `WebSocketFrames.MessagesExactIff` | components/voicelife_linx_esp/src/websocket_fragment_assembler.cc:25-75 | what it returns is exactly the stream's messages if and only if each has all its bytes in a first frame that is not empty and within the limit |
| `WebSocketFrames.FinNeverRead` | components/voicelife_linx_esp/src/websocket_fragment_assembler.cc:25-75 | no push depends on the final bit |
| `WebSocketFrames.SplitMessageBreaks` | components/voicelife_linx_esp/src/websocket_fragment_assembler.cc:34-43 | a text message in two frames comes out as its first half, and the second half is refused |
| `WebSocketAssembler.Assembler.Push` | components/voicelife_linx_esp/src/websocket_fragment_assembler.cc:25-75 | state and outcome of a push; the length-mismatch refusal at its end is never reached |
| `WebSocketAssembler.Assembler.Reset` | components/voicelife_linx_esp/src/websocket_fragment_assembler.cc:77-83 | reset leaves the idle state |
| `PairingController.PollBudget` | components/voicelife_im/src/im_pairing_controller.cc:150-191 | for every monotone clock and every sequence of answers, a session of lifetime R ms makes at most 1 + R/2000 queries, at most one at or after the deadline and that one last, also when additions saturate |
| `PairingController.InactiveAfterDeadline` | components/voicelife_im/src/im_pairing_controller.cc:150-191 | any poll at or after the deadline leaves the session inactive, and it stays so |
| `PairingController.FinalPollEndsSession` | components/voicelife_im/src/im_pairing_controller.cc:150-158 | an active session never has its final poll behind it, so the branch for that case is dead |
| `PairingController.BeginPending` | components/voicelife_im/src/im_pairing_controller.cc:98-148 | a begin is answered pending if and only if the gateway gave a six-digit code and a readable, non-empty, not yet expired window no longer than asked for; the local lifetime is then bounded by the request |
| `PairingVerdicts.SessionVerdict` | components/voicelife_im/src/im_pairing_controller.cc:150-191 | over a session's whole life, each status is returned if and only if the clock, whether the gateway is asked and what it says call for it: Confirmed exactly when it was asked and answered Success, for a session with the expiry, creation time, user and platforms of the begin, with status confirmed; likewise all others |
| `PairingVerdicts.PollVerdict` | components/voicelife_im/src/im_pairing_controller.cc:150-191 | the same for one poll; the session stays active if and only if the status is Waiting, Retrying or Pending |
| `PairingVerdicts.NextPollExact` | components/voicelife_im/src/im_pairing_controller.cc:163-191 | the next poll is 3 s after an undecided answer, and 2, 4, then 5 s after retryable failures in a row, but not past the deadline |
| `PairingVerdicts.BeginVerdict` | components/voicelife_im/src/im_pairing_controller.cc:98-148 | which status a begin gives, if and only if, and what the session then remembers |
| `PairingVerdicts.BeginTimes` | components/voicelife_im/src/im_pairing_controller.cc:128-146 | deadline and first poll of a session that was begun: the server's expiry but no longer than asked for, saturating at 64 bits |
| `PairingVerdicts.UsePollVerdict` | components/voicelife_im/src/im_binding_use_case.cc:128-137 | in every history, the state a poll answers stands for that verdict on the active session, which ends exactly with a terminal one; without a session nothing changes |
| `PairingVerdicts.StatesStand` | components/voicelife_im/src/im_binding_use_case.cc:14-42 | each status is shown as the state of the same meaning |
| `PairingVerdicts.UseStartVerdict` | components/voicelife_im/src/im_binding_use_case.cc:79-126 | exactly which state a start answers from any fields, and what it changes |
| `PairingVerdicts.RebindEnds` | components/voicelife_im/src/im_binding_use_case.cc:57-77 | binding anew and changing the user end the session; naming the same user changes nothing |
| `PairingVerdicts.AbortVerdict` | components/voicelife_im/src/im_binding_use_case.cc:139-152 | an abort of the current session fails it, and any other answers the present state |
| `PairingController.PairingSessionController.Begin` | components/voicelife_im/src/im_pairing_controller.cc:98-148 | fields and result of a begin |
| `PairingController.PairingSessionController.Poll` | components/voicelife_im/src/im_pairing_controller.cc:150-191 | fields and result of a poll, and whether the gateway is asked; `PairingVerdicts.PollVerdict` says what the result means |
| `PairingController.PairingSessionController.Finish` | components/voicelife_im/src/im_pairing_controller.cc:193-201 | finishing ends the session and keeps what the result shows |
| `PairingController.PairingSessionController.Backoff` | components/voicelife_im/src/im_pairing_controller.cc:163-165 | the doubling loop gives the back-off, at most five seconds |
| `BindingUseCase.GenerationsDistinct` | components/voicelife_im/src/im_binding_use_case.cc:57-152 | generations never decrease over a history, and no two sessions share one |
| `BindingUseCase.ActiveSince` | components/voicelife_im/src/im_binding_use_case.cc:79-137 | an active session is the one its latest start created, active without a break since |
| `BindingUseCase.AbortEndsItsOwn` | components/voicelife_im/src/im_binding_use_case.cc:139-152 | an abort for a session either changes nothing or ends that very session; a stale one ends no newer session |
| `BindingUseCase.StartCarriesCode` | components/voicelife_im/src/im_binding_use_case.cc:79-126 | in every history a start answered pending or already active carries a six-digit code and a valid expiry |
| `BindingUseCase.GenerationWraps` | components/voicelife_im/src/im_binding_use_case.cc:57-66 | at its last 64-bit value the generation starts again from zero |
| `BindingUseCase.InvAlways` | components/voicelife_im/src/im_binding_use_case.cc:57-152 | the fields stay consistent over every history |
| `BindingUseCase.UseCase.BindTo` | components/voicelife_im/src/im_binding_use_case.cc:57-66 | fields after Bind |
| `BindingUseCase.UseCase.SetUser` | components/voicelife_im/src/im_binding_use_case.cc:68-77 | fields after set_user_id |
| `BindingUseCase.UseCase.StartBinding` | components/voicelife_im/src/im_binding_use_case.cc:79-126 | fields and result of Start |
| `BindingUseCase.UseCase.PollOnce` | components/voicelife_im/src/im_binding_use_case.cc:128-137 | fields and result of Poll |
| `BindingUseCase.UseCase.Abort` | components/voicelife_im/src/im_binding_use_case.cc:139-152 | fields and result of AbortPending |
| `PollingLease.LeaseConserved` | components/voicelife_runtime/src/im_binding_polling_lease.h:15-30 | over every interleaving of compare-and-swap steps with non-zero generations, acquires from empty minus releases is one exactly while the lease is held and zero otherwise |
| `PollingLease.ReleaseOfNothing` | components/voicelife_runtime/src/im_binding_polling_lease.h:27-30 | releasing generation zero from an empty lease, in any state, breaks that balance |
| `BindingPolling.NoSessionWithoutPoller` | components/voicelife_runtime/src/runtime.cc:609-650 | over every interleaving of starts, rebinds, failing task creations and polls, at most one polling task lives, and an active session has its generation on the lease and exactly one task |
| `BindingPolling.InvAlways` | components/voicelife_runtime/src/runtime.cc:609-650 | lease, worker and tasks stay consistent over every interleaving |
| `PlaybackRuns.QueueAccounted` | components/voicelife_audio_esp/src/esp32s3_pcm_audio_port.cc:587-658 | over every interleaving of producers, flush, close, reopen and output tasks, the stored duration is exactly that of the queued frames, length and duration stay within depth and budget, and frames are popped in acceptance order, each at most once |
| `PlaybackRuns.NeverClamped` | components/voicelife_audio_esp/src/esp32s3_pcm_i2s_runtime.cc:465-482 | a pop takes off exactly the frame's own duration: the clamp at zero is never reached |
| `PlaybackRuns.OverlongNeverAccepted` | components/voicelife_audio_esp/src/esp32s3_pcm_audio_port.cc:613-618 | a frame longer than the whole budget is never accepted |
| `PlaybackRuns.PushExact` | components/voicelife_audio_esp/src/esp32s3_pcm_audio_port.cc:609-658 | when a waiting frame is accepted, kept waiting or stopped, on the port's flags, the depth, the budget, the stored duration and the frame's own |
| `PlaybackRuns.AcceptedFitsScratch` | components/voicelife_audio_esp/src/esp32s3_pcm_audio_port.cc:309-330 | in every run of a mono port each accepted frame resamples into the buffer reserved at open |
| `PlaybackRuns.OneCleaner` | components/voicelife_audio_esp/src/esp32s3_pcm_audio_port.cc:730-771 | over every interleaving of close calls, timeouts and late task exits, at most one thread is in the cleanup section |
| `PlaybackRuns.ReleasedOnce` | components/voicelife_audio_esp/src/esp32s3_pcm_audio_port.cc:730-771 | no codec handle is released twice; exactly the attached handle and the one a cleaner holds are unreleased |
| `PlaybackRuns.ClosedMeansReleased` | components/voicelife_audio_esp/src/esp32s3_pcm_audio_port.cc:685-727 | a close that returned Ok has released the handle of the open it closed and of all earlier ones |
| `PlaybackRuns.InvAlways` | components/voicelife_audio_esp/src/esp32s3_pcm_audio_port.cc:685-771 | queue and close invariants hold in every reachable state |
| `PlaybackWriter.WritersAreOrderly` | components/voicelife_audio_esp/src/esp32s3_pcm_i2s_runtime.cc:465-510 | in every run that reopens the port only while no thread stands in a tail: no codec is released under a writer, and frames are written in acceptance order |
| `PlaybackReopen.ReopenSafeIff` | components/voicelife_audio_esp/src/esp32s3_pcm_audio_port.cc:728-771 | after any such run that leaves the port closed, reopening, with later opens at quiet moments, can lead to a release under a writer if and only if a thread stands in a tail at that moment |
| `PlaybackReopen.ReopenBreaks` | components/voicelife_audio_esp/src/esp32s3_pcm_audio_port.cc:741-748 | from every reachable closed port with a thread in a tail, nine steps, only the first an open, after which the handle of that open has been released while its task writes |
| `PlaybackReopen.OrderSafeIff` | components/voicelife_audio_esp/src/esp32s3_pcm_i2s_runtime.cc:465-500 | likewise, reopening can lead to frames written out of acceptance order if and only if a thread stands in a tail at that moment |
| `PlaybackReopen.OrderBreaks` | components/voicelife_audio_esp/src/esp32s3_pcm_i2s_runtime.cc:483-490 | from every reachable closed port with a thread in a tail, a continuation whose later open finds nobody in a tail, after which a frame was written before an earlier accepted one |
| `PlaybackReopen.TaskTailReachable` | components/voicelife_audio_esp/src/esp32s3_pcm_i2s_runtime.cc:501-509 | a run that closes the port while the exited task is still in its tail |
| `PlaybackReopen.CloserTailReachable` | components/voicelife_audio_esp/src/esp32s3_pcm_audio_port.cc:712-719 | a run that closes the port while a closer has finished waiting and not entered the finalizer |
| `PlaybackPort.OutputPort.OpenOutput` | components/voicelife_audio_esp/src/esp32s3_pcm_audio_port.cc:270-421 | the format and budget checks, and the state after an open that succeeds or fails at the codec or the task |
| `PlaybackPort.OutputPort.AdmitFrame` | components/voicelife_audio_esp/src/esp32s3_pcm_audio_port.cc:587-608 | a frame is refused on a port that is not open or when not playable, both said on its fields; a playable frame is admitted with the duration its samples last |
| `PlaybackPort.OutputPort.FinishPush` | components/voicelife_audio_esp/src/esp32s3_pcm_audio_port.cc:613-658 | after the wait a frame is accepted or the port has stopped: neither refusal for lack of room is ever given |
| `PlaybackPort.OutputPort.FlushOutput` | components/voicelife_audio_esp/src/esp32s3_pcm_audio_port.cc:660-673 | flush empties the queue and its duration |
| `PlaybackPort.OutputPort.BeginClose` | components/voicelife_audio_esp/src/esp32s3_pcm_audio_port.cc:685-711 | the first region of a close |
| `PlaybackPort.OutputPort.PopFrame` | components/voicelife_audio_esp/src/esp32s3_pcm_i2s_runtime.cc:468-483 | a locked pass of the output loop takes the oldest frame and exactly its duration |
| `PlaybackPort.OutputPort.BeginCleanup` | components/voicelife_audio_esp/src/esp32s3_pcm_audio_port.cc:730-754 | the finalizer detaches the handle, or finds nothing to do or another finalizer at work |
| `PlaybackPort.OutputPort.FinishCleanup` | components/voicelife_audio_esp/src/esp32s3_pcm_audio_port.cc:761-771 | the port is closed |
| `PcmFormat.PlayableHasDuration` | components/voicelife_audio_esp/src/esp32s3_pcm_audio_port.cc:44-56 | every playable frame lasts at least a millisecond, so the refusal for an underivable duration is dead |
| `PcmFormat.DurationExact` | components/voicelife_audio_esp/src/esp32s3_pcm_audio_port.cc:44-56 | a playable frame of n samples lasts the d milliseconds with d * rate <= n * 1000 < (d + 1) * rate, or one when that is none |
| `PcmFormat.DurationUnique` | components/voicelife_audio_esp/src/esp32s3_pcm_audio_port.cc:44-56 | no other number of milliseconds satisfies that |
| `Resampler.FitsReserved` | components/voicelife_audio_esp/src/esp32s3_pcm_audio_port.cc:312-329 | every mono frame within the latency budget resamples to at most the samples reserved, whatever the rates |
| `Resampler.IndexInRange` | components/voicelife_audio_esp/src/esp32s3_pcm_i2s_runtime.cc:354-358 | every source index read is in range |
| `Resampler.Resample` | components/voicelife_audio_esp/src/esp32s3_pcm_i2s_runtime.cc:346-366 | the count is the whole number of output samples the input lasts; refused if and only if that is none or does not fit; otherwise each output is the interpolation of its two neighbours rounded toward zero, lies between them and fits 16 bits |
| `Resampler.Interpolated` | components/voicelife_audio_esp/src/esp32s3_pcm_i2s_runtime.cc:359-362 | the weighted mean of two samples lies between them and is the exact quotient rounded toward zero |
| `Resampler.LineKept` | components/voicelife_audio_esp/src/esp32s3_pcm_i2s_runtime.cc:354-362 | a straight line of samples stays that line: each output is its value at the output's own time, rounded toward zero, and past the last source sample that sample |
| `Resampler.SameRateCopies` | components/voicelife_audio_esp/src/esp32s3_pcm_i2s_runtime.cc:346-366 | at equal rates the output is the input |
| `PcmRing.HandedAreBlocks` | components/voicelife_audio_esp/src/esp_multinet_wake_detector.cc:395-420 | the chunks handed out since the last reset are exactly the consecutive chunk-size blocks of all samples appended |
| `PcmRing.Ring.Append` | components/voicelife_audio_esp/src/esp_multinet_wake_detector.cc:395-405 | all samples are appended behind what is held, across the wrap, or none is |
| `PcmRing.Ring.ChunkInput` | components/voicelife_audio_esp/src/esp_multinet_wake_detector.cc:407-415 | the next chunk, in place or copied together, is the oldest chunk-size samples held |
| `PcmRing.Ring.ConsumeChunk` | components/voicelife_audio_esp/src/esp_multinet_wake_detector.cc:417-420 | exactly that chunk leaves the ring |
| `PcmRing.Ring.Reset` | components/voicelife_audio_esp/src/esp_multinet_wake_detector.cc:422-426 | reset empties the ring |
| `PcmRing.WakeNetDetector.Submit` | components/voicelife_audio_esp/src/esp_wakenet_detector.cc:55-90 | which frames are refused, said on the format's fields; while running, a frame within the maximum payload never finds the ring full; the model is shown the consecutive blocks up to the one it detects |
| `PcmRing.WakeNetDetector.Start` | components/voicelife_audio_esp/src/esp_wakenet_detector.cc:33-45 | start empties the ring |
| `PcmRing.WakeNetDetector.Stop` | components/voicelife_audio_esp/src/esp_wakenet_detector.cc:47-53 | stop empties the ring |
| `PcmRing.SampleExact` | components/voicelife_audio_esp/src/esp_wakenet_detector.cc:65-66 | a sample is the one 16-bit number whose two's complement the two bytes are, low byte first |
| `WakeMailbox.PostedIsNewest` | components/voicelife_audio_esp/src/esp_multinet_wake_detector.cc:123-131 | what is queued between two takes is the newest nine frames posted |
| `WakeMailbox.Mailbox.Post` | components/voicelife_audio_esp/src/esp_multinet_wake_detector.cc:123-131 | posting drops the oldest frame if and only if nine are held and appends the new one, on the circular array |
| `WakeMailbox.Mailbox.Take` | components/voicelife_audio_esp/src/esp_multinet_wake_detector.cc:155-163 | the oldest frame is taken |
| `WakeMailbox.Mailbox.Clear` | components/voicelife_audio_esp/src/esp_multinet_wake_detector.cc:428-432 | every slot is cleared |
| `WakeWorker.CalledOnce` | components/voicelife_audio_esp/src/esp_multinet_wake_detector.cc:49-241 | over every interleaving of Start, Stop, Submit and the worker, no Start's sink is called twice |
| `WakeWorker.CalledForOwnFrames` | components/voicelife_audio_esp/src/esp_multinet_wake_detector.cc:169-241 | for every call of a sink, the frame carries that Start's generation if and only if no Stop was under way when the frame was stamped; otherwise it carries the generation of the Stop of that session, never another session's |
| `WakeWorker.NoFrameWithoutWakeup` | components/voicelife_audio_esp/src/esp_multinet_wake_detector.cc:137-163 | semaphore tokens, gives under way and the worker's token are never fewer than the queued frames |
| `WakeWorker.SilentAfterStop` | components/voicelife_audio_esp/src/esp_multinet_wake_detector.cc:83-104 | after a Stop has returned and before the next Start, a sink can be called if and only if the worker had already taken it |
| `WakeWorker.InvAlways` | components/voicelife_audio_esp/src/esp_multinet_wake_detector.cc:49-241 | the session, stamp and wake-up invariants hold in every reachable state |
| `WakeOrder.TakenInOrder` | components/voicelife_audio_esp/src/esp_multinet_wake_detector.cc:116-163 | in every run the mailbox holds the frames posted last, and the worker took posted frames in the order of posting, each at most once and none that is still queued |
| `WakeOrder.CalledInOrder` | components/voicelife_audio_esp/src/esp_multinet_wake_detector.cc:116-241 | in every run sinks are called for posted frames, in the order of posting and at most once for each frame |
| `WakeOrder.LeavesOnlyThus` | components/voicelife_audio_esp/src/esp_multinet_wake_detector.cc:116-163 | a frame leaves the mailbox only by being taken as the oldest, by a frame posted to a full mailbox, or by a Start or Stop that empties it |
| `WakeQueue.QueuedAreOwn` | components/voicelife_audio_esp/src/esp_multinet_wake_detector.cc:49-136 | in every run, while detection is on, each queued frame has the generation of the last Start, or of the Stop under way if stamped during it |
| `WakeQueue.EmptyAfterStop` | components/voicelife_audio_esp/src/esp_multinet_wake_detector.cc:83-136 | in every run the mailbox is empty from the return of a Stop to the next Start |
| `WakeQueue.StopCutsOff` | components/voicelife_audio_esp/src/esp_multinet_wake_detector.cc:169-233 | in every run, once a Stop has issued its generation, a frame stamped before starts no scan, has no further chunk shown to the model and does not win; once detection is off, the worker passes no further check of it |
| `WakeQueue.TakenIsAdmittedIff` | components/voicelife_audio_esp/src/esp_multinet_wake_detector.cc:169-171 | a taken frame goes on to the model if and only if detection is on and its generation is current |
| `WakeLateFrame.WaitingIsCalled` | components/voicelife_audio_esp/src/esp_multinet_wake_detector.cc:154-241 | from any state, a queued frame of the current generation that matches is handed to the sink in fifteen steps of the worker |
| `WakeLateFrame.LateFrameIsCalled` | components/voicelife_audio_esp/src/esp_multinet_wake_detector.cc:83-88 | a run in which the sink of generation 1 is called for a frame of generation 2, stamped between the two first steps of Stop |
| `WakeLateFrame.CallAfterStop` | components/voicelife_audio_esp/src/esp_multinet_wake_detector.cc:237-240 | a run in which Stop returns while the worker is about to call the sink |
| `AssetImage.PackedIsVerified` | scripts/build_sparkbot_assets.py:33-125 | every image packed from files with distinct NUL-free names of at most 32 bytes passes verification |
| `AssetImage.VerifiedIffNamesFit` | scripts/build_sparkbot_assets.py:69-74 | when the disk holds exactly the packed files, the packed image passes if and only if no name exceeds 32 bytes; the packer itself refuses no name |
| `AssetImage.PacksIff` | scripts/build_sparkbot_assets.py:42-84 | packing succeeds if and only if there are GIFs, each of either version and 96 by 96, a font that is not empty, and less than 4 GiB in all |
| `AssetImage.GoodGif` | scripts/build_sparkbot_assets.py:50-58 | a GIF passes if and only if its first ten bytes are one of the two versions and 96 by 96 |
| `AssetImage.VerifyImage` | scripts/build_sparkbot_assets.py:87-125 | verification succeeds if and only if count, length, checksum and table are right, names are distinct and every entry holds the disk's bytes |
| `AssetImage.VerifyEntries` | scripts/build_sparkbot_assets.py:103-125 | the loop over the table with its set of names seen |
| `AssetImage.PackAssets` | scripts/build_sparkbot_assets.py:33-84 | the image, or the first fault found |
| `AssetImage.PackGifs` | scripts/build_sparkbot_assets.py:50-61 | rows and data of the GIFs in order, or the first faulty one |
| `AssetImage.PackTable` | scripts/build_sparkbot_assets.py:68-74 | the file table, or the refusal of a number that does not fit |
| `AssetImage.PackRow` | scripts/build_sparkbot_assets.py:69-74 | one entry of the table; the refusal of a long name is never given |
| `AssetDevice.PackedLoads` | components/voicelife_display_sparkbot/src/sparkbot_emoji_assets.cc:107-189 | what is packed from at most 13 such files is accepted by the device, whatever follows it in the partition, and loading a packed name gives exactly that file's bytes |
| `AssetDevice.PackedFontLoads` | components/voicelife_display_sparkbot/src/sparkbot_emoji_assets.cc:191-225 | likewise for the font, when packed under the name the device looks for |
| `AssetDevice.ControlledLoads` | components/voicelife_display_sparkbot/src/sparkbot_emoji_assets.cc:148-189 | for every controlled id, once a file `<id>.gif` is packed, what the device loads for the id is that file's bytes |
| `AssetDevice.ControlledExactly` | components/voicelife_display_sparkbot/src/sparkbot_emoji_assets.cc:53-59 | the controlled ids, one by one |
| `AssetDevice.FilenameExact` | components/voicelife_display_sparkbot/src/sparkbot_emoji_assets.cc:61-82 | the file name of an id is its characters and `.gif`, byte by byte |
| `AssetDevice.CorruptByteRefused` | components/voicelife_display_sparkbot/src/sparkbot_emoji_assets.cc:132-136 | an accepted partition with any single byte of its data changed is refused |
| `AssetComplete.VerifiedIsComplete` | scripts/build_sparkbot_assets.py:87-125 | an image verified for as many files as the disk has is complete: the device loads every file of the disk as its own bytes and finds no other name |
| `AssetComplete.AcceptedExactly` | components/voicelife_display_sparkbot/src/sparkbot_emoji_assets.cc:107-137 | a partition in which no entry's end wraps is accepted if and only if header, at most 13 files, table, every entry's exact end and checksum are right |
| `AssetComplete.LoadedExactly` | components/voicelife_display_sparkbot/src/sparkbot_emoji_assets.cc:167-184 | such an entry is loaded if and only if two Z stand before its data, and then as exactly its bytes |
| `AssetComplete.FontExactly` | components/voicelife_display_sparkbot/src/sparkbot_emoji_assets.cc:200-219 | the font is loaded only from an entry without a size in pixels and with data, and then like any entry |
| `AssetDevice.VerifiedLoads` | components/voicelife_display_sparkbot/src/sparkbot_emoji_assets.cc:107-189 | any image that passes verification, packed or not, is accepted, and a name is found if and only if the table has it and then gives the disk's bytes |
| `AssetDevice.LoadLeavesIff` | components/voicelife_display_sparkbot/src/sparkbot_emoji_assets.cc:167-174 | on an accepted partition, loading a name reads outside it if and only if the end of its entry, counted without wrap-around, does not fit 32 bits |
| `AssetDevice.OutsideIff` | components/voicelife_display_sparkbot/src/sparkbot_emoji_assets.cc:124-131 | the same for one entry within the checked bounds |
| `AssetDevice.AcceptedReadsOutside` | components/voicelife_display_sparkbot/src/sparkbot_emoji_assets.cc:124-131 | for every name, a partition that is accepted and from which loading that name reads outside it |
| `AssetDevice.NoWrap` | components/voicelife_display_sparkbot/src/sparkbot_emoji_assets.cc:124-131 | bounds that hold without wrap-around are what the device computes in 32 bits |
| `AssetDevice.EmojiAssets.Initialize` | components/voicelife_display_sparkbot/src/sparkbot_emoji_assets.cc:92-146 | accepted if and only if header, length, table, every entry's bounds and the checksum are right; a refusal changes nothing |
| `AssetDevice.EmojiAssets.Load` | components/voicelife_display_sparkbot/src/sparkbot_emoji_assets.cc:148-189 | the first entry with the id's file name is checked and loaded |
| `AssetDevice.EmojiAssets.LoadCommonTextFont` | components/voicelife_display_sparkbot/src/sparkbot_emoji_assets.cc:191-225 | likewise for the font, with its extra conditions |
| `AssetFormat.CalculateChecksum` | components/voicelife_display_sparkbot/src/sparkbot_emoji_assets.cc:42-48 | the 32-bit register gives the sum modulo 2^16 |
| `AssetFormat.NameRoundTrip` | scripts/build_sparkbot_assets.py:70-70 | a NUL-free name that fits its field reads back as written |
| `E2eRunner.EvidenceAlwaysValid` | scripts/e2e_evidence.py:177-211 | for every outcome of every phase, callback and clock, the evidence built from the result satisfies every rule on status, failed phase and stages |
| `E2eRunner.PassedMeansComplete` | scripts/e2e_runner.py:371-385 | a run reported as passed went through every phase, with passing assertions, and called every cleanup callback exactly once |
| `E2eRunner.PassedIff` | scripts/e2e_runner.py:320-402 | a run is reported as passed if and only if it is on the main thread with a context, every phase returns, all assertions passed and every cleanup callback finishes in time |
| `E2eRunner.FailsExactly` | scripts/e2e_runner.py:349-369 | the first phase that does not do what it should is the primary failure, with category and code by a table over outcomes, and is the verdict when cleanup has nothing to report |
| `E2eRunner.CleanupDecides` | scripts/e2e_runner.py:371-383 | a cleanup error, or else an interrupt of the cleanup, becomes the verdict |
| `E2eRunner.RefusedExactly` | scripts/e2e_runner.py:320-334 | a run off the main thread or without a context fails in prepare, with its own code |
| `E2eRunner.RulesWrittenOut` | scripts/e2e_evidence.py:177-211 | the stage rules admit exactly the written-out patterns: all passed; or passed, failed, then skipped, with cleanup on its own |
| `E2eRunner.ValidateStages` | scripts/e2e_evidence.py:177-211 | the validator's checks hold if and only if the stages follow the rules |
| `E2eRunner.BuildEvidence` | scripts/run_e2e.py:100-124 | stages before the shown failure passed, it failed, later ones skipped, cleanup on its own |
| `E2eRunner.RunE2e` | scripts/e2e_runner.py:320-402 | the result, and the cleanup entries, after a run |
| `E2eRunner.RunPhases` | scripts/e2e_runner.py:335-365 | the first failing phase with its category and code, later phases not entered; `E2eRunner.FailsExactly` is the table |
| `E2eRunner.FirstFailureSafe` | scripts/e2e_runner.py:349-365 | every code the runner derives from a phase is a safe name |
| `E2eCleanup.CoveredIff` | scripts/e2e_runner.py:150-176 | each callback never called is covered by a reported timeout, except exactly when a required entry passes the check in time and has its guard armed late, after calm callbacks, only optional entries follow, and the last of those is interrupted |
| `E2eCleanup.TimeoutLost` | scripts/e2e_runner.py:162-173 | a run in which a callback is never called and no timeout is reported |
| `E2eCleanup.EachCallbackOnce` | scripts/e2e_runner.py:371-374 | across both passes, whatever happens, each callback is called at most once |
| `E2eCleanup.RaisedReported` | scripts/e2e_runner.py:168-175 | a pass that completes reports a failed callback if and only if some callback called in it raised |
| `E2eCleanup.LateReported` | scripts/e2e_runner.py:150-173 | a pass that completes reports a timeout if and only if the deadline shows at the check, the guard or the callback of some open entry |
| `E2eCleanup.CleanIff` | scripts/e2e_runner.py:150-176 | a pass reports nothing and is not interrupted if and only if every callback left finishes in time |
| `E2eCleanup.CleanupStack.Cleanup` | scripts/e2e_runner.py:150-176 | entries, errors and interruption after a pass |
| `E2eCleanup.CleanupStack.Push` | scripts/e2e_runner.py:145-148 | a new entry is registered last, under a safe name only |

## Left out

- BindingUseCase.GenerationsDistinct: stated for histories of at most 2^64 - 1 calls, because the 64-bit generation then wraps (`BindingUseCase.GenerationWraps`).
- BindingUseCase.ActiveSince: the same bound, for the same reason.
- BindingUseCase.AbortEndsItsOwn: the same bound, for the same reason.
- BindingPolling.NoSessionWithoutPoller: the same bound, and one worker that starts sessions, as the runtime has.
- BindingPolling.InvAlways: the same bound, for the same reason.
- PollingLease.LeaseConserved: generation zero, which stands for an empty lease, is excluded; the use case never issues it below the 64-bit wrap.
- PairingController.PairingSessionController.Begin: the texts of messages are not modelled.
- E2eCleanup.CoveredIff: a second interrupt, which leaves the runner without a result, is excluded; the clock of the second pass is not behind that of the first.
- E2eRunner.EvidenceAlwaysValid: covers the rules on status, failed phase, stages and their codes, not those on ids, times, assertions, metrics, the bound of 16 cleanup errors or sensitive text.
- E2eRunner.RunE2e: an interrupt outside the phases and the cleanup callbacks is not modelled.
- AssetImage.PackAssets: the directory listing, its sorting and the decoding of names as UTF-8 are not modelled; names are bytes.
- AssetDevice.EmojiAssets.Load: what a read outside the partition returns; it is a result of its own here.
- AssetDevice.EmojiAssets.LoadCommonTextFont: the same.
- AssetDevice.EmojiAssets.Initialize: what the header of a partition shorter than 12 bytes reads as; it is a result of its own here.
- WakeWorker.CalledForOwnFrames: `Start` is called only while detection is off, by one caller at a time, as the wake gate does; generations do not wrap.
- PcmRing.WakeNetDetector.Submit: failures to load the model.
- PlaybackPort.OutputPort.OpenOutput: the profile's own validation, refusals by the platform's largest buffer size, and the direct I2S topology, which has no codec handle.
- Resampler.Resample: mono only, the one playback layout of the shipped profiles.
- CivilDate.NextDayAddsOne: years are unbounded integers; the unsigned 32-bit steps inside are modelled with their wrap-around.
- Weak memory ordering: atomics are sequentially consistent in the model.
- Liveness and real-time waits: a wait may end when its condition holds and may time out when it does not.
- Hardware, FreeRTOS, the speech model, HTTP and flash access, and all logging and statistics.
- The amplifier and `OutputIdle`, which the code updates in separate locked regions.
- `ReadBoolField` and `ExtractActionWindow`, which would only add easy members.
- The destructors of the audio port and of the wake detector.
- The final value of the MultiNet ring after a detection, and the conditioning of its samples.
- Writing evidence files, and the scan for sensitive text.
