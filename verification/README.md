# Verification of the voice assistant

Dafny models and proofs for the voice assistant device (ESP32, C), its desktop client (C) and the protocol module of
its Python demo. `dafny verify dfyconfig.toml` checks everything. Nothing here was executed against the programs.

## What is modelled

- **The WebSocket frame engine** of `tcp_transport`. `WsFrame.dfy` states sections 5.2 and 5.3 of RFC 6455 without
  reference to the code; `WsStream.dfy` says what a byte stream means to the application and what it means to be in
  step with it; `WsTransport.dfy` is the code, a class over a parent transport that may return any short read, time out
  or fail at any call. The frame-position invariant `Position.InSync` is kept by every `Read` up to a negative result or
  a read that gets nothing inside a payload, and implies that what the application sees does not depend on the chunks
  or on its buffer sizes. What must happen is stated for a `reliable` parent, one that answers every poll, reads what is
  there and writes everything, with memory and random numbers as inputs: `ReadLive` and `ControlRead` say which frames
  are delivered, answered and refused; `AnswerPing` says it of a PING byte by byte; `Connection` puts upgrade and reads
  together. Server frames are unmasked, as section 5.1 requires; that is the one assumption on the stream.
- **The device session**. `DeviceSession.dfy` is a state machine of three actors, the FSM task, the WebSocket callback
  and the wake-word callback, cut at every `vTaskDelay` and at the blocking connect, callbacks included.
  `DeviceWriters.dfy` says it flag by flag, which events and which steps set and clear each, and proves that in every run
  every flag is what its last writer made of it. `DeviceLimits.dfy` says exactly when the invariants fail. `Device.dfy` is
  the imperative code, every stretch between two waits proved equal to a step, and `AnyRun` states the results of the
  object.
- **The binary protocol and the gzip container**. `Crc32.dfy` works on bit vectors; `Gzip.dfy` has the member format of
  section 2.3 of RFC 1952, the writer and the header walk; `DesktopGzip.dfy` the growing output buffer of the desktop;
  `DoubaoProtocol.dfy` builder and parser; `PythonParser.dfy` the second parser, with Python's slices.
- **Receiving**. `Reassembly.dfy` puts chunks together in a growing buffer, for the device and the desktop;
  `ReplyText.dfy` is the reply text on the display, in C strings.
- **The desktop client's concurrency**. `SendRing.dfy` and `PlayQueue.dfy` are the ring and the linked list over real
  arrays and nodes, each section under the mutex one atomic method, with ghost ledgers that rule out a double free;
  `DesktopSession.dfy` is the state machine of main thread, input thread, service thread and signal handler with the
  condition variable between them, over the queue the ring is proved to be; `DesktopWriters.dfy` says what each step
  writes and sends; `DesktopLimits.dfy` says what does not hold, and exactly when; `Desktop.dfy` is the imperative code.

## What the proofs found

Each of these is a lemma or a contract that says exactly when it happens.

- A read that gets nothing inside a payload makes the reader take the rest of that payload for frames
  (`WsStream.ForgettingThePayload`). The same happens at a reconnect with `bytes_remaining` left over, which `ws_connect`
  does not reset (`Upgrade`).
- The masking key of a masked empty frame stays in the stream (`WsTransport.MaskedEmptyFrame`), unmasking starts
  over with every call (`WsFrame.RestartedMask`), and the key of a masked frame is read through the caller's buffer, which
  is overrun if it is shorter than four bytes (`ReadKey`).
- A frame that came with the upgrade waits in the stash until the parent has something to read (`Read`). A control frame
  whose payload is partly in the stash and partly behind it is refused (`WsTransport.AnswerPing`), and an upgrade fails
  if 4095 bytes or more come at once (`Upgrade`).
- If writing the header fails, the caller's buffer is left masked (`Write`, `WsFrame.MaskFixed`). If the parent is not
  ready to write, an empty PONG or CLOSE is taken for sent (`WsTransport.WholeFrame`).
- If the callback's delay outlasts the FSM task's, a session is forgotten, and a second one may be started while it is
  open: exactly if the device was running and no barge-in was pending (`DeviceLimits.OvertakingMatters`). LISTENING,
  SPEAKING and CONNECTED_IDLE mean what they should throughout exactly the runs in which the callback never finishes an
  exit with WakeNet off (`RightExactly`); a wake word in the delay of an exit can make it (`DeafIfDisturbed`), but need
  not (`DisturbedAndRight`). CONNECTED_IDLE does not mean that the stream is off; `StillExactly` names the steps
  that leave it on.
- The device's `gzip_decompress` returns nothing for data larger than its buffer (`Gzip.RoundTrip`); the desktop's has no
  such limit (`DesktopGzip.DecompressGrowing`). Neither the checksum nor the length in the trailer is looked at on the device
  (`Gzip.TrailerUnchecked`).
- The C and the Python parser differ on a sequence number before an event, on a declared size of zero with bytes behind
  it, on session ids of 128 bytes or more or with a NUL, and on most negative session lengths (`PythonParser.ParsersAgree`).
- The device ends a message with its frame, not with its final fragment: messages with exactly one frame
  that has a payload arrive whole, and no others (`Reassembly.FragmentsAreNotJoined`).
- A server error or Ctrl+C does not wake an input thread that waits for the greeting
  (`DesktopLimits.SleepsThroughError`, `DesktopSession.WhoWakes`); after the connection is lost main waits until a signal
  comes (`StrandedMain`); audio may follow FinishConnection, and `TidyExactly` says when.
- A reply id of 256 characters or more empties the displayed text with every update (`ReplyText.LongIdForgets`), and its
  first 255 characters are taken for it; otherwise long ids do no harm (`ReplyText.DecidesExactly`).

## Model

| member | source | states |
|---|---|---|
| WsTransport.WsTransport.ReceiveHeader | components/tcp_transport/transport_ws.c:262-278 | whatever chunks arrive, the buffer and the unread bytes together are the stream, and the buffer ends up holding the end of the header as strstr finds it; with a reliable parent that happens if and only if everything sent is shorter than 4095 bytes and strstr finds the delimiter in it |
| WsTransport.WsTransport.Upgrade | components/tcp_transport/transport_ws.c:262-404 | when the upgrade succeeds, stash and unread bytes together are the server stream behind its first CRLFCRLF, whether or not the response header copy shrank the length; the reader is in step if and only if no payload was left over from an earlier connection; with a reliable parent it succeeds if and only if the response fits and is accepted |
| WsTransport.WsTransport.DropFront | components/tcp_transport/transport_ws.c:388-401 | the residue of the buffer is moved to its front, and nothing of it is lost |
| WsTransport.WsTransport.ReadStash | components/tcp_transport/transport_ws.c:127-146 | delivers the front of the stash and keeps the rest of it |
| WsTransport.WsTransport.ReadInternal | components/tcp_transport/transport_ws.c:118-147 | takes bytes off the front of stash and parent, in order, into the right place of the buffer; nothing else changes; the stash is used up first and gives as much as it has; with an empty stash the result is what the read of the parent returned |
| WsTransport.WsTransport.ReadExact | components/tcp_transport/transport_ws.c:526-552 | all requested bytes, in order, whatever short reads there are, or an error; no error if the stash holds them or a reliable parent has them |
| WsTransport.WsTransport.ReadLead | components/tcp_transport/transport_ws.c:573-584 | FIN, opcode, mask bit and seven-bit length of the two bytes taken |
| WsTransport.WsTransport.ReadLength | components/tcp_transport/transport_ws.c:585-606 | the extended length as a 32-bit int, -1 from 2^32 on, and exactly its bytes taken |
| WsTransport.WsTransport.ReadKey | components/tcp_transport/transport_ws.c:608-617 | the masking key, taken only if there is a payload; the caller's buffer is overrun if and only if the frame is masked and the buffer shorter than four bytes |
| WsTransport.WsTransport.ReadHeader | components/tcp_transport/transport_ws.c:556-623 | the fields are those of the header at the front of the stream as RFC 6455 decodes it, and exactly the header is taken, but for the masking key of a masked empty frame; if the poll of the parent says nothing, nothing is read, and otherwise a header that is whole in the stash, or with a reliable parent anywhere, is read |
| WsTransport.ReaderRecovers | components/tcp_transport/transport_ws.c:419-447 | of a header that _ws_write built, the reader recovers fin, opcode, key and length, and takes exactly the header if and only if the frame is not both masked and empty |
| WsTransport.HeaderInStash | components/tcp_transport/transport_ws.c:562-623 | a header that is whole in the stash is the next header of the stream |
| WsTransport.WsTransport.NextHeader | components/tcp_transport/transport_ws.c:683-687 | at a frame boundary of an unmasked stream the next header is that of RFC 6455, and the reader stands behind it |
| WsTransport.HeaderParts | components/tcp_transport/transport_ws.c:570-622 | two bytes, the extended length and the key read one after the other are the decoded header |
| WsTransport.WideLength | components/tcp_transport/transport_ws.c:592-605 | the eight-byte length by bytes is the big-endian number cut to a 32-bit int |
| WsTransport.MaskedEmptyFrame | components/tcp_transport/transport_ws.c:608-617 | the reader stands behind the header if and only if the frame is not both masked and empty |
| WsTransport.WsTransport.XorInPlace | components/tcp_transport/transport_ws.c:449-451 | the loop masks the front of the array, every bit of every byte, and leaves the rest |
| WsTransport.WsTransport.BuildLead | components/tcp_transport/transport_ws.c:419-438 | the header bytes in the shortest length form |
| WsTransport.WsTransport.Prepare | components/tcp_transport/transport_ws.c:419-452 | header and the random key as RFC 6455 encodes them, and the buffer masked in place; it fails if and only if a key is needed and there is no random number |
| WsTransport.WsTransport.Write | components/tcp_transport/transport_ws.c:406-472 | what the two parent writes put on the wire for every outcome, and the caller's buffer back as it was, unless writing a masked header failed: then it is left masked; a masked payload that is reported written is at the end of the wire behind its key, exclusive or bit by bit; with a reliable parent and a random number everything is written |
| WsTransport.WsTransport.Send | components/tcp_transport/transport_ws.c:454-462 | header and body on the wire as far as the parent took them |
| WsTransport.WholeFrame | components/tcp_transport/transport_ws.c:454-471 | a result equal to the length means one whole encoded frame was written, but for an empty frame on a parent that was not ready |
| WsTransport.MaskBack | components/tcp_transport/transport_ws.c:449-470 | masking a prefix in place twice gives the buffer back |
| WsTransport.WsTransport.ReadPayload | components/tcp_transport/transport_ws.c:498-524 | takes at most what is left of the payload, unmasked, and counts it; it takes as much as there is room for, is left and one read gets |
| WsTransport.WsTransport.AnswerControl | components/tcp_transport/transport_ws.c:1032-1104 | PING, CLOSE and PONG case by case: what is written, what is returned for each result of the write, and when the header flag is cleared |
| WsTransport.HandledIsAnswered | components/tcp_transport/transport_ws.c:1052-1094 | a non-negative result means the answer is on the wire |
| WsTransport.WsTransport.HandleControl | components/tcp_transport/transport_ws.c:625-673 | a control frame of up to 125 bytes is taken whole and answered, or there is a negative result, and then either nothing was written or what a failing write put there of the answer; with a reliable parent it is refused if and only if its payload is longer, there is no memory for it, or the stash ends within it |
| WsTransport.PingReadIsPonged | components/tcp_transport/transport_ws.c:675-696 | from the result of ws_read: a read that consumed a PING put exactly one final PONG with its payload on the wire, unless that is empty and the parent was not ready |
| WsTransport.PingIsPonged | components/tcp_transport/transport_ws.c:1052-1064 | a reader of RFC 6455 finds exactly one final PONG with the payload of the PING on the wire |
| WsTransport.WsTransport.ReadBody | components/tcp_transport/transport_ws.c:704-710 | payload bytes go to the application in order and the reader stays in step; a read that gets nothing inside a payload loses it, and how much one gets is said exactly |
| WsTransport.WsTransport.PassControl | components/tcp_transport/transport_ws.c:689-696 | a control frame is passed over and the reader stays at a frame boundary |
| WsTransport.WsTransport.ReadHead | components/tcp_transport/transport_ws.c:680-702 | either the reader is inside the payload of a frame for the application, or it stands at a frame boundary, or the result is negative |
| WsTransport.WsTransport.Read | components/tcp_transport/transport_ws.c:675-713 | every call keeps the frame-position invariant up to a negative result or a read that gets nothing inside a payload; positive results are delivered, and what was taken from the stream and written is said exactly, after a negative result too; a payload with an opcode below 8 that is in the stash, or with a reliable parent anywhere, is delivered as far as there is room, empty frames are passed, and control frames are answered or refused exactly as HandleControl says |
| WsTransport.Connection | components/tcp_transport/transport_ws.c:262-713 | end to end: for every response and every list of server frames behind it, every chunking and every sequence of buffer sizes, what ws_read delivers after the upgrade is the start of the payloads with opcodes below 8, in order, and nothing of close, ping and pong frames; with a reliable parent the upgrade succeeds exactly if the response is accepted and everything fits, and then as many reads as there are bytes, into buffers that are not empty, deliver every payload |
| WsTransport.TakeAll | components/tcp_transport/transport_ws.c:675-713 | reads into any buffers deliver the start of the application data; with everything in the stash and nothing in it that has to be refused, they deliver all of it |
| WsTransport.Progress | components/tcp_transport/transport_ws.c:675-713 | a read of a stream of whole frames that is in the stash succeeds and takes at least one byte |
| WsTransport.AnswerPing | components/tcp_transport/transport_ws.c:625-696 | the bytes 0x89, length, payload at a frame boundary: with a reliable parent ws_read returns 0 and the bytes 0x8A, 128 + length, the random key and the payload masked with it go out, which RFC 6455 reads as one final PONG, if and only if the stash does not end within the payload; otherwise nothing goes out |
| WsTransport.WsTransport.StartStream | components/tcp_transport/transport_ws.c:388-403 | after the hand-off the reader is in step if and only if no payload bytes are left over |
| WsTransport.WsTransport.constructor | components/tcp_transport/transport_ws.c:786-820 | a new reader is in step with its stream |
| WsFrame.HeaderRoundTrip | components/tcp_transport/transport_ws.c:419-447 | a reader of RFC 6455 recovers FIN, opcode, key and length of every written header and takes exactly the header |
| WsFrame.FrameRoundTrip | components/tcp_transport/transport_ws.c:406-472 | the same for whole frames, whatever follows |
| WsFrame.ShortestForm | components/tcp_transport/transport_ws.c:421-438 | no header with the same meaning is shorter |
| WsFrame.LengthFormRoundTrip | components/tcp_transport/transport_ws.c:421-438 | every length below 2^31 is read back from its form |
| WsFrame.MaskTwice | components/tcp_transport/transport_ws.c:449-470 | masking is its own inverse |
| Bytes.XorIsExclusiveOr | components/tcp_transport/transport_ws.c:449-451 | the byte the code writes is the one byte in which every bit is set that is set in exactly one of the two |
| WsFrame.MaskIsMasked | components/tcp_transport/transport_ws.c:449-451 | masking is section 5.3 of RFC 6455, bit by bit, and nothing else is |
| WsFrame.EncodesShort | components/tcp_transport/transport_ws.c:419-452 | a masked frame of up to 125 bytes, byte by byte |
| WsFrame.ShortMaskedDecodes | components/tcp_transport/transport_ws.c:419-452 | a reader of RFC 6455 finds exactly that frame in these bytes |
| WsFrame.MaskFixed | components/tcp_transport/transport_ws.c:454-457 | a buffer left masked is unchanged if and only if the key is zero wherever it is used |
| WsFrame.RestartedMask | components/tcp_transport/transport_ws.c:520-522 | unmasking that starts over at the first key byte is right for every key if and only if the piece is empty or starts at a multiple of four |
| WsStream.TakePayload | components/tcp_transport/transport_ws.c:518-523 | delivering a piece of a payload keeps the frame-position invariant and conserves application data |
| WsStream.EnterPayload | components/tcp_transport/transport_ws.c:619-622 | so does reading the header of a data frame |
| WsStream.PassFrame | components/tcp_transport/transport_ws.c:689-701 | so does passing a frame that has nothing for the application |
| WsStream.DeliveredInOrder | components/tcp_transport/transport_ws.c:675-713 | what was delivered is a prefix of the application data of the stream, and all of it once the stream is read up |
| WsStream.ChunkingIndependent | components/tcp_transport/transport_ws.c:498-713 | two readers of one stream, whatever chunks and buffer sizes they saw, got one a prefix of the other, and the same at the end |
| WsStream.StreamCarriesPayloads | components/tcp_transport/transport_ws.c:689-710 | for a stream of whole server frames that is the payloads of the frames with opcodes 0 to 7, in order; those of close, ping and pong frames are not in it |
| WsStream.StreamReadable | components/tcp_transport/transport_ws.c:625-643 | a list of frames whose control frames have at most 125 bytes of payload is a stream nothing of which has to be refused |
| WsStream.ReadableAt | components/tcp_transport/transport_ws.c:675-713 | and so is what follows any frame of such a stream |
| WsStream.ForgettingThePayload | components/tcp_transport/transport_ws.c:705-708 | setting bytes_remaining to zero keeps the reader in step if and only if nothing was left |
| HttpHeader.FirstDelimiterMeaning | components/tcp_transport/transport_ws.c:291 | the delimiter found is the first, and none is missed |
| HttpHeader.FoundInStream | components/tcp_transport/transport_ws.c:270-291 | a delimiter strstr finds in the terminated buffer is the first of the whole stream |
| Device.Device.OnWakeWord | main/app_main.c:210-236 | the wake-word callback as one step of the state machine |
| Device.Device.OnTtsEnded | main/app_main.c:415-462 | event 359, up to its wait |
| Device.Device.OnWsReceive | main/app_main.c:343-521 | the WebSocket callback, up to its waits |
| Device.Device.OnWsReceiveResumed | main/app_main.c:447-452 | the callback behind its waits |
| Device.Device.StartSession | main/app_main.c:779 | the call is accounted for: whether a session is open, and whether one was started over another |
| Device.Device.OnClearCache | main/app_main.c:343-354 | event 450 |
| Device.Device.OnUserQueryEnd | main/app_main.c:356-364 | event 459 |
| Device.Device.OnSessionFinish | main/app_main.c:464-474 | events 152 and 153 |
| Device.Device.OnServerError | main/app_main.c:485-520 | a server error, up to its wait |
| Device.Device.Initialize | main/app_main.c:672-705 | clean-up and initialization |
| Device.Device.CaseConnecting | main/app_main.c:659-707 | CONNECTING up to the blocking connect |
| Device.Device.CaseConnectReturned | main/app_main.c:707-735 | CONNECTING behind it |
| Device.Device.CaseConnectedIdle | main/app_main.c:737-757 | CONNECTED_IDLE up to its first wait |
| Device.Device.CaseHandshaking | main/app_main.c:759-787 | HANDSHAKING up to the wait behind StartSession |
| Device.Device.CaseSessionStarted | main/app_main.c:787-799 | SayHello and the first test of the wait loop |
| Device.Device.CaseHelloPolled | main/app_main.c:796-815 | one round of the wait loop, and what follows it |
| Device.Device.CaseEndOfTurn | main/app_main.c:838-851 | the check of the session flag at the end of an iteration |
| Device.Device.SwitchOnState | main/app_main.c:651-852 | the switch on the application state |
| Device.Device.Iterate | main/app_main.c:629-652 | the loop head, barge-in included |
| Device.Device.MainFsm | main/app_main.c:626-856 | the FSM task from every wait to the next |
| Device.Device.Take | main/app_main.c:210-856 | one step of any of the three actors; each of the three invariants survives it if and only if its guard on the state before holds |
| Device.AnyRun | main/app_main.c:210-856 | for every possible run of the device object: it follows the state machine and the accounts; no double start if nothing overtakes, right modes if no exit finishes with WakeNet off, no stream in CONNECTED_IDLE if nothing leaves it on |
| Device.Device.constructor | main/app_main.c:955-962 | the state app_main leaves |
| DeviceSession.SessionInvariant | main/app_main.c:210-852 | in every timely run the open session, the session flag, the application state and the program point fit together |
| DeviceSession.OvertakingBreaks | main/app_main.c:787-790 | a step keeps that invariant if and only if the FSM task does not overtake a callback that still waits to end a session |
| DeviceSession.NoDoubleStart | main/app_main.c:779 | in every timely run StartSession is called only when no session is open |
| DeviceLimits.OvertakingMatters | main/app_main.c:779-799 | in any run in which the FSM task overtakes a waiting callback: without further overtaking a start over an open session is reachable if and only if the device was running and no barge-in was pending |
| DeviceLimits.GreetingDoubles | main/app_main.c:446-449 | the continuation that does it, for both waits of the callback |
| DeviceLimits.CannotDouble | main/app_main.c:629-643 | no continuation does if the FSM task is about to stop or to process a barge-in |
| DeviceLimits.AfterRun | main/app_main.c:626-856 | a continuation of a run is a run |
| DeviceLimits.RunAlive | main/app_main.c:664-730 | in every run only a client that exists is connected |
| DeviceLimits.DoubleStartIfUntimely | main/app_main.c:446-449 | one such run from the start |
| DeviceSession.RightModesStep | main/app_main.c:210-852 | a step keeps LISTENING, SPEAKING and CONNECTED_IDLE right about stream, WakeNet and query flag if and only if it does not finish an exit with WakeNet off |
| DeviceSession.ModesStep | main/app_main.c:210-852 | the auxiliary invariant, WakeNet on while the callback waits to finish an exit, survives a step if and only if that does not turn WakeNet off in such a wait |
| DeviceSession.DisturbsMeans | main/app_main.c:445-449 | which steps do, as guards on the state before the step |
| DeviceSession.ModesInvariant | main/app_main.c:210-852 | in every undisturbed run LISTENING, SPEAKING and CONNECTED_IDLE mean what they should for stream, WakeNet and query flag |
| DeviceLimits.RightExactly | main/app_main.c:210-852 | throughout a run LISTENING, SPEAKING and CONNECTED_IDLE mean what they should if and only if the callback never finishes an exit with WakeNet off |
| DeviceLimits.ModesExactly | main/app_main.c:210-852 | the auxiliary invariant holds throughout a run if and only if nothing turns WakeNet off in the wait of an exit |
| DeviceLimits.UndisturbedNeverDeafens | main/app_main.c:445-449 | which is enough for the callback never to finish an exit with WakeNet off |
| DeviceLimits.DisturbedAndRight | main/app_main.c:214-226 | and not necessary: a disturbed run in which the modes are right in every state |
| DeviceLimits.DeafIfDisturbed | main/app_main.c:214-226 | a run whose exit finishes with WakeNet off ends idle and deaf to the wake word |
| DeviceLimits.StillStep | main/app_main.c:629-852 | a step keeps the stream off in CONNECTED_IDLE if and only if it does not go there with the stream on, which is a guard on the state before |
| DeviceLimits.StillExactly | main/app_main.c:210-852 | throughout a run CONNECTED_IDLE means that the stream is off if and only if no step leaves it on |
| DeviceLimits.IdleAndStreaming | main/app_main.c:454-460 | one run that does: an event 359 in the wait of a button press |
| DeviceLimits.IdleAndStreamingAfterBargeIn | main/app_main.c:779-786 | another: a barge-in whose StartSession fails |
| DeviceWriters.StepWrites | main/app_main.c:210-852 | flag by flag the steps that set and clear it, by event number (450, 459, 359 during and behind the greeting, with and without the exit status, 152 and 153, the two recoverable error codes and all others) and by what the FSM task finds; every step writes exactly that, and goes exactly where it should |
| DeviceWriters.FlagLaw | main/app_main.c:210-852 | in any run stream, query, WakeNet, session, greeting, barge-in, running and connection flags are what their last writer in the history made of them |
| DeviceWriters.AppLaw | main/app_main.c:210-852 | in any run the application state is the one set last in the history |
| DeviceWriters.SetOnce | main/app_main.c:73-86 | a step that sets an application state sets that one and no other |
| Device.Device.OnMessage | main/app_main.c:240-522 | full responses with an event and error messages reach the session, by message type, and nothing else does |
| Crc32.AddByte | main/doubao_protocol.c:28-32 | the inner loop is eight shift steps of the register with the byte added |
| Crc32.Calc | main/doubao_protocol.c:25-34 | the loops compute the CRC-32 of section 8 of RFC 1952 |
| Crc32.MaskedPolynomial | main/doubao_protocol.c:30 | the negated low bit as a mask selects the polynomial |
| Crc32.ShiftIsLinear | main/doubao_protocol.c:30 | the bit step is linear over exclusive or |
| Crc32.WordAsBits | main/doubao_protocol.c:28-31 | adding a word and shifting is feeding its bits one by one |
| Crc32.RegisterAsBits | main/doubao_protocol.c:25-33 | the register depends on the message as a sequence of bits |
| Crc32.DriftIsLinear | main/doubao_protocol.c:25-33 | how two runs drift apart depends only on where their bits differ |
| Crc32.DrivenToZero | main/doubao_protocol.c:28-31 | at most 32 bits drive a register to zero only if they are the register |
| Crc32.BitsInjective | main/doubao_protocol.c:28-31 | different messages of equal length have different bits |
| Crc32.FourBytesAreDetected | main/doubao_protocol.c:25-34 | two messages that differ only within four consecutive bytes have different checksums |
| Crc32.BurstsAreDetected | main/doubao_protocol.c:25-34 | two messages of equal length that differ, and differ only within 32 consecutive bits, at any bit offset, have different checksums |
| Crc32.Residue | main/doubao_protocol.c:25-34 | a message followed by its checksum, lowest byte first, has the checksum 0x2144DF1C, whatever the message |
| Crc32.CrcOfBraces | main/doubao_protocol.c:47-50 | the checksum of {} is 0xA3A6BF43 |
| Gzip.CompressBraces | main/doubao_protocol.c:40-69 | the precomputed bytes are a well-formed member for the input {}: its deflate stream decodes to {}, checksum and length are right |
| Gzip.BracesTrailer | main/doubao_protocol.c:47-50 | the precomputed trailer is the CRC-32 and the length of {} |
| Gzip.BracesDeflated | main/doubao_protocol.c:47-50 | the four precomputed bytes are one final block with the fixed Huffman codes of section 3.2.6 of RFC 1951 that decodes to {} |
| Gzip.PutPlainHeader | main/doubao_protocol.c:91-101 | the ten header bytes |
| Gzip.PutTrailer | main/doubao_protocol.c:146-157 | checksum and length, lowest byte first |
| Gzip.Compress | main/doubao_protocol.c:36-162 | both paths write a member with the deflate stream of the input, or nothing if memory is out or deflate fails |
| Gzip.MemberEnds | main/doubao_protocol.c:146-157 | read back lowest byte first, the last eight bytes are the checksum and the length modulo 2^32 |
| Gzip.SkipText | main/doubao_protocol.c:180-187 | the loop stops behind the next NUL |
| Gzip.Walk | main/doubao_protocol.c:164-192 | the header walk, error cases included |
| Gzip.Decompress | main/doubao_protocol.c:164-231 | slice, buffer size in 32 bits, the second try without a zlib header, and nothing if memory is out |
| Gzip.WalkFindsStart | main/doubao_protocol.c:171-190 | for every mix of FEXTRA, FNAME, FCOMMENT and FHCRC the walk ends exactly behind the header |
| Gzip.CutShort | main/doubao_protocol.c:164-192 | a header that is cut short anywhere, or has nothing behind it, is refused |
| Gzip.NotGzip | main/doubao_protocol.c:166-168 | so is everything that does not start with 0x1F 0x8B |
| Gzip.SliceIsDeflateStream | main/doubao_protocol.c:194-199 | inflate gets exactly the deflate stream of a well-formed member if and only if that is neither empty nor 2^31 bytes or more |
| Gzip.RoundTrip | main/doubao_protocol.c:164-231 | the data comes back if and only if it fits the output buffer: eight times the member modulo 2^32, at least 4096 bytes |
| Gzip.TrailerIgnored | main/doubao_protocol.c:194-199 | other bytes in place of the trailer change what inflate gets if and only if the deflate stream is empty or 2^31 bytes or more |
| Gzip.TrailerUnchecked | main/doubao_protocol.c:194-231 | so neither checksum nor length of a member is looked at |
| DesktopGzip.InflateMore | doubao_c_version/protocol.c:68-76 | one call of inflate goes on with the output where the last one stopped |
| DesktopGzip.DecompressGrowing | doubao_c_version/protocol.c:51-91 | the doubling loop ends; it returns the whole output, whatever its size, if and only if the input is sound and no size that has to be asked for exceeds what memory grants, and the buffer is then as long as it has to be |
| DesktopGzip.NeededIsLeast | doubao_c_version/protocol.c:52-76 | the size it has to be is the smallest of the initial size doubled any number of times that the output fits, and at most twice the output if it was doubled |
| DoubaoProtocol.WriteU32 | main/doubao_ws_client.c:24-29 | four bytes, most significant first |
| DoubaoProtocol.GenerateHeader | main/doubao_protocol.c:11-22 | the four header bytes, or -1 and an untouched buffer |
| DoubaoProtocol.PutCommand | main/doubao_ws_client.c:122-160 | header, command, optional session and payload at the right places, and the buffer exactly full |
| DoubaoProtocol.BuildCommand | main/doubao_ws_client.c:102-161 | the same on the device, which never compresses, and null if memory is out |
| DoubaoProtocol.BuildCompressed | doubao_c_version/client.c:24-88 | the same on the desktop, with the payload compressed if asked for, and null if that fails or memory is out |
| DoubaoProtocol.ParseFields | main/doubao_protocol.c:259-291 | the cursor reads the fields of the body, and fails exactly when one of them is cut off |
| DoubaoProtocol.ParseResponse | main/doubao_protocol.c:239-341 | the parser, every error return included |
| DoubaoProtocol.FullRead | main/doubao_protocol.c:259-316 | a full response or acknowledgement byte by byte, with any header extension: sequence number and event if their flag bits are set, the event signed, session id, size and payload, and exactly when the message fails |
| DoubaoProtocol.ErrorRead | main/doubao_protocol.c:318-340 | an error message byte by byte: code, size and payload, whatever the header extension and flags |
| DoubaoProtocol.BuiltFields | main/doubao_ws_client.c:122-160 | every field of a built command is found where it was put |
| DoubaoProtocol.BuildParseRoundTrip | main/doubao_protocol.c:239-316 | parsing a built command gives back the event always, the session id, read as a C string, if and only if it fits its buffer and holds no NUL, the payload if and only if its length is not a multiple of 2^32 |
| DoubaoProtocol.CompressedRoundTrip | doubao_c_version/protocol.c:98-207 | with a compressed payload the parser fails if and only if that does not decompress, and otherwise returns what it decompresses to |
| DoubaoProtocol.WithoutSessionRejected | main/doubao_protocol.c:274-286 | a command built without a session is never accepted as a response |
| PythonParser.SameCursor | doubao_py_demo/protocol.py:110-117 | slices and cursor agree when the session length is not negative |
| PythonParser.NegativeLength | doubao_py_demo/protocol.py:112-115 | when they agree on a negative session length, and that they differ otherwise |
| PythonParser.SameNumbers | doubao_py_demo/protocol.py:104-109 | sequence numbers agree, events if and only if no different sequence number stands before them |
| PythonParser.ParsersAgree | doubao_py_demo/protocol.py:100-117 | for everything the C parser gets through: both parsers agree if and only if no different sequence number stands before the event, a declared size of zero has nothing behind it, and the session id fits, holds no NUL and has no negative length but one |
| PythonParser.SameMessage | doubao_py_demo/protocol.py:88-121 | the same header and body, and the same error code, size and payload |
| PythonParser.HeadersAgree | doubao_py_demo/protocol.py:43-66 | both header generators agree without an extension; a reader skips an extension if and only if its length is a multiple of four |
| Reassembly.FramesHandedOver | main/doubao_ws_client.c:195-236 | every frame with a payload reaches the parser once, whole and in order, however it is cut and whatever control frames come in between; frames without one are no events and never reach it |
| Reassembly.FragmentsAreNotJoined | main/doubao_ws_client.c:215-235 | on the device messages reach the parser whole if and only if each of them has exactly one frame with a payload, whatever empty frames and chunks they come in |
| Reassembly.TwoPieces | main/doubao_ws_client.c:215-235 | a message in two frames with a payload reaches it in two pieces |
| Reassembly.DeviceRun | main/doubao_ws_client.c:195-236 | a whole run of the device's handler |
| Reassembly.DesktopRun | doubao_c_version/client.c:139-161 | a whole run of the desktop's: every message once, whole and in order |
| Reassembly.MessagesHandedOver | doubao_c_version/client.c:139-161 | on the desktop every message reaches the parser once, whole and in order, however it is fragmented |
| Reassembly.Receiver.Append | doubao_c_version/client.c:139-151 | growing keeps the accumulated prefix, and the length stays within the capacity |
| Reassembly.Receiver.OnDeviceData | main/doubao_ws_client.c:195-236 | the handler is one step of the reassembly; without memory it drops what it has |
| Reassembly.Receiver.OnDesktopReceive | doubao_c_version/client.c:139-161 | the same on the desktop; without memory it drops the fragment |
| SendRing.RingTests | doubao_c_version/client.c:319-320 | the two index tests mean empty and 63 pending |
| SendRing.SendRing.Enqueue | doubao_c_version/client.c:326-335 | the copy joins the queue |
| SendRing.SendRing.SendRaw | doubao_c_version/client.c:316-341 | refused if and only if 63 are pending or memory is out; otherwise a fresh copy of the message is queued last |
| SendRing.SendRing.Writeable | doubao_c_version/client.c:163-183 | the oldest message is handed over and its copy freed, also when writing fails |
| SendRing.SendRing.Destroy | doubao_c_version/client.c:438-455 | every queued copy is freed, and nothing is left allocated |
| SendRing.AnyRun | doubao_c_version/client.c:163-341 | any interleaving of producers and service thread accepts and hands over exactly what a queue of at most 63 messages does, and every copy is freed exactly once |
| PlayQueue.PlayQueue.Push | doubao_c_version/audio.c:34-53 | the new node is the last of a well-formed list; without memory nothing changes |
| PlayQueue.PlayQueue.Pop | doubao_c_version/audio.c:55-77 | the first node goes to the player and holds the next block that was pushed |
| PlayQueue.PlayQueue.Release | doubao_c_version/audio.c:95-108 | the player frees the node it holds, which is allocated and in no list |
| PlayQueue.PlayQueue.Clear | doubao_c_version/audio.c:79-91 | exactly the queued nodes are freed, each once; what the player holds stays allocated |
| PlayQueue.AnyRun | doubao_c_version/audio.c:34-108 | any interleaving of decoder, player and barge-in: blocks wait, are held and are played as in a queue of blocks, and what is allocated is what waits or is held, each node once |
| PlayQueue.ListPop | doubao_c_version/audio.c:69-73 | moving head on keeps the list well formed, tail included |
| PlayQueue.BalancedPush | doubao_c_version/audio.c:34-53 | every node stays owned by exactly one of queue, player and the freed |
| PlayQueue.BalancedPop | doubao_c_version/audio.c:69-75 | popping changes the owner only, and the player gets blocks in the order of pushing |
| PlayQueue.BalancedRelease | doubao_c_version/audio.c:103-104 | a node is freed once |
| PlayQueue.BalancedDiscard | doubao_c_version/audio.c:81-87 | so is a node the loop of queue_clear frees |
| DesktopSession.GateInvariant | doubao_c_version/main.c:79-174 | in every run nothing passes the gate before the greeting ended, and no thread sleeps after it |
| DesktopSession.HelloWasTold | doubao_c_version/main.c:79-85 | the flag is set only after an event 359 was received and handled under the mutex |
| DesktopSession.GateHolds | doubao_c_version/main.c:120-174 | in every microphone or keyboard run no audio and no question is queued before the first event 359 was handled |
| DesktopSession.WhoWakes | doubao_c_version/main.c:124-128 | a sleeping thread is woken by exactly three things; clearing the running flag is none of them |
| DesktopSession.GetsThrough | doubao_c_version/main.c:124-134 | no wakeup is lost, and a thread at the gate gets through it |
| DesktopLimits.SleepsThroughError | doubao_c_version/main.c:101-107 | a run that a server error ends while the input thread still sleeps |
| DesktopLimits.StrandedStep | doubao_c_version/main.c:342-344 | with the service thread gone, a step ends the wait of main if and only if it is the signal |
| DesktopLimits.StrandedMain | doubao_c_version/main.c:342-344 | so the main thread waits through any run without a signal |
| DesktopSession.OrderInvariant | doubao_c_version/main.c:310-356 | in every run the queued commands are the prologue as far as main got, then input and at most one of each finishing command |
| DesktopSession.WireOrder | doubao_c_version/main.c:310-356 | the commands handed to lws_write start StartConnection, StartSession, SayHello in this order; then come only input and the finishing commands, each once and in order |
| DesktopLimits.ReachStranded | doubao_c_version/main.c:342-344 | a run that gets there |
| DesktopLimits.TidyStep | doubao_c_version/main.c:133-142 | a step queues input behind a finishing command if and only if the input thread, past its last test of the running flag, has data, the ring has room, and a finishing command is queued |
| DesktopLimits.TidyExactly | doubao_c_version/main.c:133-142 | in any run no input follows a finishing command if and only if no step was late in this way |
| DesktopLimits.FileIsTidy | doubao_c_version/main.c:193-198 | playing a file never is |
| DesktopLimits.LateInput | doubao_c_version/main.c:133-142 | a run in which audio follows both finishing commands |
| DesktopSession.SendsAsRing | doubao_c_version/client.c:316-341 | the queue of the state machine is, encoded, what the ring does |
| DesktopWriters.StepWrites | doubao_c_version/main.c:36-380 | flag by flag the steps that write it, and what each step sends: text goes out as ChatTextQuery, audio as TaskRequest, each unless 63 commands wait, and where each thread goes next |
| DesktopWriters.FlagLaw | doubao_c_version/main.c:36-380 | in any run both running flags are set until the first step that clears them, and the other two clear until the first that sets them |
| DesktopLimits.ReachDone | doubao_c_version/main.c:300-366 | a session by keyboard to its end, every command written |
| Desktop.Desktop.OnWsReceive | doubao_c_version/main.c:60-107 | the receive callback, up to the mutex |
| Desktop.Desktop.OnMessage | doubao_c_version/main.c:46-110 | full responses with event 359, 152 or 153 and error messages reach the session, by message type and number, and nothing else does |
| Desktop.Desktop.TellHello | doubao_c_version/main.c:82-85 | the locked section: flag, signal, unlock |
| Desktop.Desktop.WaitForHello | doubao_c_version/main.c:124-128 | one test of the wait loop under the mutex |
| Desktop.Desktop.TestRunning | doubao_c_version/main.c:130-134 | the tests of the running flag behind it |
| Desktop.Desktop.SendInput | doubao_c_version/main.c:134-172 | one pass of the sending loop |
| Desktop.Desktop.OpenSession | doubao_c_version/main.c:310-339 | main up to the input thread |
| Desktop.Desktop.PlayFile | doubao_c_version/main.c:193-198 | one pass of the file loop |
| Desktop.Desktop.ShutDown | doubao_c_version/main.c:341-366 | main from its wait loop on |
| Desktop.Desktop.Take | doubao_c_version/main.c:38-366 | one step of any thread keeps the gate and the order, and the tidiness if and only if it is not late |
| Desktop.AnyRun | doubao_c_version/main.c:38-366 | for every run of the client object: the gate, the order on the wire, and tidiness if and only if no step was late |
| Desktop.Desktop.OnSignal | doubao_c_version/main.c:38-43 | the signal handler |
| ReplyText.ShowsReply | main/app_main.c:284-296 | for every history in which no id is confused with a last one too long to be stored, the display holds the contents since the last change of the reply id, as far as they fit |
| ReplyText.StoredId | main/app_main.c:386-389 | in every history the last id is stored as far as it fits |
| ReplyText.DecidesExactly | main/app_main.c:378-383 | throughout a history the code decides as with the whole ids if and only if none is confused |
| ReplyText.AnyRun | main/app_main.c:276-404 | the same for the buffers of the display over any history |
| ReplyText.DecidesRightly | main/app_main.c:378-383 | the test against the stored id is right if and only if that id was stored whole, or the new one is neither the same nor its stored part |
| ReplyText.LongIdForgets | main/app_main.c:386-390 | in every history with a last id, an update with an id that does not fit empties the text |
| ReplyText.LongReplyLosesText | main/app_main.c:378-390 | so a reply that goes on under such an id loses its beginning |
| ReplyText.StrLen | main/app_main.c:286 | the length to the first NUL |
| ReplyText.Display.Append | main/app_main.c:394-404 | the text is extended and cut, the terminator stays inside |
| ReplyText.Display.OnReplyId | main/app_main.c:374-390 | text emptied if the id is new, and the id stored as far as it fits |
| ReplyText.Display.OnUpdate | main/app_main.c:276-300 | events 350 and 550 as one step of the display |

## Left out

- WsTransport.WsTransport.Upgrade: the HTTP request, the status line, the header walk and the accept key comparison are the parameter `verdict`, and the copy of the response header is not modelled, only its effect on `header_len`; what is in the buffers after a negative result is not said.
- WsTransport.WsTransport.Read: masked server frames are outside the stream theorem, because the code unmasks every piece from the first key byte.
- WsTransport.WsTransport.Write: lengths are those of a C int, and the random bytes are an input.
- WsTransport.WsTransport.HandleControl: what happens to a control frame on a parent that may be short is said for each result of its reads and writes; that it is answered is said for a reliable one, which also closes when it is told to.
- DeviceSession.NoDoubleStart: assumes the timing the delays in the code are there for; `DeviceLimits.OvertakingMatters` says what happens without it.
- DeviceSession.RightModesStep: excepts LISTENING while the FSM task ends a session after a button press and while the callback waits to end one.
- Gzip.BracesDeflated: decodes literals of a fixed Huffman block only; lengths and distances do not occur in the precomputed stream.
- Gzip.Compress: the deflater and the clock are parameters, and which allocation fails is not told apart; the desktop's compressor, which is zlib alone, is not modelled.
- DesktopGzip.DecompressGrowing: output sizes are not cut to 32 bits, the sizes fit a 64-bit size_t, and zlib is the class `Inflater`.
- DoubaoProtocol.BuildParseRoundTrip: the parser has memory for the payload; `ParseResponse` says what happens without.
- PythonParser.ParsersAgree: is about the fields before decompression and JSON decoding; Python's exceptions there are not modelled.
- SendRing.SendRing.SendRaw: the LWS_PRE bytes in front of a message are not part of its copy.
- PlayQueue.PlayQueue.Pop: the wait before it is any number of steps of other threads.
- DesktopSession.WireOrder: allocation never fails, and a command refused by a full ring is lost, as in the code.
- ReplyText.ShowsReply: characters are bytes, and a character of several bytes may be cut in two, as in the code.
- CONFIG_WS_DYNAMIC_BUFFER, `ws_get_payload_transport_handle`, TLS, sockets, select and the close poll: the parent is a nondeterministic read, write and poll contract.
- `client_destroy` and `main` beyond the threads and the ring: no property.
- `ogg_buffer_append`: grows as `Reassembly.Receiver.Append` does.
- `ws_tx_task` and the AFE reference collector: they drop bytes deliberately, so there is nothing conserved to prove.
- JSON, UUIDs, logging, LCD, WiFi, SNTP, NVS, audio codecs and drivers, command lines, redirects and setters: no deep property.
- Reconnection inside `esp_websocket_client`: that library is not part of this model.
- The asyncio session logic of the Python demo: it duplicates the C session logic.
