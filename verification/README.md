# A verified model of libmdr

libmdr speaks the MDR protocol of Sony headphones over a stream socket. This project models the
three layers of the library and proves what they keep, over whole runs and through the layers.

* **Framing.** `Frame.dfy` has frames, byte order and checksum; `Escaping.dfy` the byte stuffing and
  its loops over growing buffers; `Decoding.dfy` a one-pass decoder of the received stream and the
  buffered scan of the code; `Writing.dfy` a socket that records how each read and write ended, loops
  of writes, and the writing code as it stands; `FrameConn.dfy` the connection object with its two
  8192-byte buffers, over such a socket: what it answers, sends and holds is what the socket did.
* **Request engine.** `Requests.dfy` states the engine as a machine over its steps, with the history
  of submissions and completions; `RequestSafety.dfy`, `RequestProgress.dfy` and `AlternatingBit.dfy`
  prove what every run keeps, how it makes progress, and whom an acknowledgement is for when frames
  get lost; `RequestLaws.dfy` says who is answered, how a request ends, when it is retried and what
  callbacks get done. `PacketConn.dfy` is the object itself, with linked nodes updated in place, and
  each of its methods is proved to move the state as the machine says. `Deadlines.dfy` has the time
  arithmetic and `Lists.dfy` the linked lists.
* **Packets.** `Codec.dfy` says what it means for a parser and a printer to agree; `Cursor.dfy` has the
  loops of the parsing and writing macros; `Settings.dfy`, `SettingsCode.dfy`, `Equalizer.dfy` and
  `Connect.dfy` have the packets with nested or counted parts, as functions and as loops, and
  `Layouts.dfy` one packet of every kind byte by byte.
* **Device.** `Device.dfy` has the second subscription list and the support flags, `Handshake.dfy` the
  two requests behind `mdr_device_init`. `Stack.dfy` joins stream, frames and packets.

`dafny verify dfyconfig.toml` verifies everything.

## Where the code departs from its intent

Modelled as written, with the exact condition under which it matters:

* After a rejected body the scan goes on at the old index although the buffer was shifted
  (src/frameconn.c:222-235). `NextScan` does the same. `ScanConserves` says, for any bytes, which
  frames are lost by that: those completed between the skipped bytes and the next START behind them
  (`Lost`). `SkipIsHarmlessIff` is the exact condition for one skip, `PollStream` for whole streams
  with any number of rejected bodies, and `FrameAfterRejectedBodyIsLost` is a family that loses a
  frame. On streams whose delimited bodies are well-formed nothing is lost.
* The moves at src/frameconn.c:217-219 and 230-232 take two bytes more than are live. `Drop` does the
  same in a buffer with the two bytes that follow it in the struct; `MoveAsWritten` says what becomes
  of them.
* `frame_len` is a 32-bit sum (src/frameconn.c:186). A declared length of 2^32 - 7 or more wraps, and a
  block without a frame behind it is handed out: `Wrapped`, characterised by `WrappedIff`.
* `errno` is assigned instead of compared at src/packetconn.c:470, so a failing read is not reported.
  Line 246 of src/frameconn.c clears `errno`, contrary to the comment at lines 206-207.
* A write that is buffered is reported like one that is refused (src/frameconn.c:383, 404-410), so the
  engine does not count it. `CopiesAreCountedOrBuffered` relates copies to the counter over every run,
  `AtMostThreeCopiesIff` says when three tries bound the copies, `BufferedCopiesAreUnbounded` that
  nothing else does.
* Giving up on a request, or taking a packet for its reply, while a copy or an ACK is still on its way
  lets an ACK pass for the wrong request. `MisleadsIff` is the exact condition, and
  `GivingUpTooEarlyHappens` and `EarlyAnswerHappens` are runs from the start that get there.
* `reply_specifier_matches` does not look at `only_ack`, contrary to include/mdr/packetconn.h:119-121,
  and line 568 of src/packetconn.c can complete a head that was never sent: `OnlyAckIgnoresReplyIff`.
* `timespec_add` carries on `>` where `>=` is meant (src/packetconn.c:751): `AddIsExact` says when that
  shows. It does not for the constants used.
* The smart-talking case of the settings encoder has no `break` (src/packet/system.h:568):
  `EncoderRoundTripsIff`.
* A name of more than 128 bytes keeps its announced length but not its bytes
  (src/packet/connect.h:143-148): `ReencodesIff`.

Modelled in the intended form, with the code as written set beside it:

* `mdr_frameconn_flush_write` never advances its index and moves by the wrong length
  (src/frameconn.c:115-138). `FlushWrite` advances it; `FlushAsWrittenIff` says what the code does.
* `mdr_frameconn_write_frame` writes new bytes although older ones may still be buffered
  (src/frameconn.c:388-392), and tests for `EINVAL` where a blocked flush is meant (line 367).
  `WriteFrame` lets them wait; `OvertakesIff` says exactly when the code keeps the stream in order.

## Model

| member | source | states |
|---|---|---|
| Frames.ComputeChecksum | src/frame.c:49-61 | The loop over the host-order struct yields the checksum of the frame as it travels |
| Frames.HostAndWireSumsAgree | src/frameconn.c:295-326 | The swap of the length field does not change the sum of the bytes before the checksum |
| Frames.GoodChecksumEndsTheWireSum | src/frame.c:49-61 | A frame with a good checksum ends, on the wire, in the sum modulo 256 of all earlier wire bytes |
| Escaping.MasksAreBitOperations | src/frameconn.c:337 | The arithmetic masks are the bit operations of the code on every byte |
| Escaping.UnescapeInvertsEscape | src/frameconn.c:162-176 | Unescaping undoes escaping on every byte string |
| Escaping.EscapeInvertsUnescapeIff | src/frameconn.c:162-176 | Escaping restores a received body if and only if the body is canonical |
| Escaping.EscapedHasNoDelimiter | src/frameconn.c:328-345 | An escaped body holds no START and no END and is at most twice as long |
| Escaping.FrameRoundTrip | src/frameconn.c:157-199 | Every frame comes back whole from its escaped body, byte swap included, and its escaped length lies between len + 2 and 2 len + 2 |
| Layouts.ParseWireIff | src/frameconn.c:177-198 | A body gives this frame if and only if it begins with the frame's own bytes |
| Layouts.EscapedFrame | src/frameconn.c:290-358 | One frame byte by byte: field order, length with its high byte first, delimiters and escapes |
| Escaping.WrappedIff | src/frameconn.c:184-198 | A body is handed out without a frame behind it exactly when its declared length wraps in 32 bits |
| Escaping.EnsureRoom | src/frameconn.c:303-309 | One growth step is enough for the next one or two bytes and keeps what was written |
| Escaping.PutByte | src/frameconn.c:328-345 | One input byte appends its escaped form, never outside the buffer |
| Escaping.Escape | src/frameconn.c:290-358 | The block returned is exactly the escaped form of the frame |
| Escaping.UnescapeLoop | src/frameconn.c:157-176 | The loop fills its block with the unescaped body |
| Escaping.Unescape | src/frameconn.c:157-199 | The result is what the body stands for: no frame, a frame, or a wrapped block |
| Decoding.DecodeAppend | src/frameconn.c:250-288 | Decoding a stream in two parts is decoding it whole, wherever it is cut |
| Decoding.NextScanRefines | src/frameconn.c:209-248 | One buffered scan takes the first frame of the one-pass decoding and leaves the rest, or takes nothing, leaves the decoding as it was and has room for a read |
| Decoding.ScanLeavesRoom | src/frameconn.c:238-246 | On any bytes at all, a scan that finds nothing leaves room for the next read |
| Decoding.ScanConserves | src/frameconn.c:209-248 | On any bytes: the frames of the one-pass decoding are those the scan skips, then the one it finds, then those it leaves |
| Decoding.SkipConserves | src/frameconn.c:222-235 | The same for a scan that begins k bytes into what a rejected body leaves |
| Decoding.SkipIsHarmlessIff | src/frameconn.c:222-235 | Beginning k bytes in takes the next frame or nothing, as the one-pass decoding does, if and only if no START follows or nothing completes before the first that does |
| Decoding.CleanLosesNothing | src/frameconn.c:209-248 | On well-formed bodies no frame is skipped |
| Decoding.FrameAfterRejectedBodyIsLost | src/frameconn.c:222-235 | Behind an empty body, the first of any two whole frames is lost |
| Decoding.StreamDecodes | src/frameconn.c:209-248 | Escaped frames with START-free junk between them decode to that same list of frames |
| FrameConns.FrameConn.Drop | src/frameconn.c:217-220 | The move, its two bytes too many included, drops exactly the first n live bytes |
| FrameConns.FrameConn.NextFrame | src/frameconn.c:209-248 | The in-place loop, index reset and shifts included, is the scan as written, and it ends |
| FrameConns.FrameConn.Fill | src/frameconn.c:262-286 | A read moves a chunk from the socket behind the live bytes and loses nothing; it gives up if and only if the read fails, and on a socket that delivers what it has, only when nothing is there |
| FrameConns.FrameConn.Round | src/frameconn.c:252-286 | One round is one scan and at most one read, conserves the frames of the whole stream up to those it skips, and ends without a frame only when that read failed |
| FrameConns.FrameConn.ReadFrame | src/frameconn.c:250-288 | Over any split into reads and on any stream, the frames of the one-pass decoding are those skipped, the one returned and those ahead; on well-formed bodies the next one is taken; nothing is returned if and only if a read failed, one in each such call |
| FrameConns.FrameConn.TakeFrame | src/frameconn.c:250-288 | The same for a stream of well-formed bodies, counting failed reads: a socket that delivers what it has keeps no frame back |
| FrameConns.PollFrames | src/frameconn.c:250-288 | Repeated reads over any split deliver a prefix of the frames sent, all of them once the stream is drained, and all of them in as many calls as there are frames on a socket that delivers what it has |
| FrameConns.PollStream | src/frameconn.c:250-288 | Repeated reads of any stream, whatever it holds, come across every frame of its one-pass decoding; drained, they have returned all of them if and only if no call skipped any |
| FrameConns.MoveAsWritten | src/frameconn.c:217-219 | The live bytes always come out as intended, and what lies behind the buffer changes exactly when a full buffer drops one byte |
| FrameConns.OutputDecodes | src/frameconn.c:360-428 | What a writer puts out, frames cut short by hard errors among it, decodes to just the frames taken on |
| FrameConns.PeerSeesPrefix | src/frameconn.c:113-142 | Whatever part has reached the wire, the peer decodes a prefix of the frames taken on, and all of them when nothing is buffered |
| Writing.LoopCounts | src/frameconn.c:115-142 | Of the writes of a loop at most the last fails or blocks, and how the loop ends says which |
| Writing.WriteEndIff | src/frameconn.c:360-428 | A frame is broken off if and only if a write fails; sent if and only if no write fails or blocks and it fits the buffer, and then everything held and all of it is out in order; refused if and only if what the flush left leaves no room |
| FrameConns.WrittenKeeps | src/frameconn.c:360-428 | Whatever the writes take, wire plus buffer gains exactly the new frame, nothing, or the first bytes of it |
| FrameConns.FrameConn.SendNow | src/frameconn.c:388-402 | The writes are those of a loop for the frame's bytes, and the wire gains what they took |
| FrameConns.FrameConn.FlushLoop | src/frameconn.c:115-142 | The writes are those of a loop for the buffered bytes, which stops at the first that fails; what leaves the buffer is what they took and what the wire gains |
| FrameConns.FrameConn.FlushWrite | src/frameconn.c:113-142 | Under every pattern of partial, blocked and failing writes, wire plus buffer stays the same byte string; it fails if and only if one write did, blocks if and only if one blocked, and otherwise leaves the buffer empty |
| FrameConns.FrameConn.WriteFrame | src/frameconn.c:360-428 | The answer, the bytes on the wire and those held are what the writes of this call decide; wire plus buffer is always the escaped forms of the frames taken on, in order, with at most the first bytes of one that a hard error cut; a refused frame adds nothing and did not fit |
| FrameConns.FrameConn.Deliver | src/frameconn.c:388-428 | New bytes go out as far as the writes of this call took them, the rest is held, and a hard error leaves a cut piece |
| Writing.FlushAsWrittenIff | src/frameconn.c:115-138 | Flushing as written keeps the stream if and only if nothing is buffered or the first write fails |
| Writing.OvertakesIff | src/frameconn.c:388-412 | Writing as written keeps the stream in order if and only if nothing was held, or nothing of the frame is taken, or all of it is and what was held is only copies of it; hard errors included |
| Deadlines.AddIsExact | src/packetconn.c:744-758 | Addition is exact in nanoseconds; the normal form is lost exactly when the parts make one second |
| Deadlines.SubIsExact | src/packetconn.c:760-774 | Subtraction of normal times is exact and normal |
| Deadlines.CompareIsExact | src/packetconn.c:776-784 | Comparison of normal times is comparison of the instants |
| RequestSafety.StepKeeps | src/packetconn.c:379-637 | Every step keeps the invariant of queue, history, sequence bit, retries and deadlines |
| RequestSafety.RunKeeps | src/packetconn.c:379-637 | So does every run |
| RequestSafety.CloseFinishesAll | src/packetconn.c:126-160 | Teardown ends every pending request, each once, in order, with MDR_E_CLOSED |
| RequestSafety.HistoryOnlyGrows | src/packetconn.c:354-377 | No completion is taken back, changed or reordered |
| RequestSafety.EachRequestCompletesOnce | src/packetconn.c:639-682 | In every run, completions followed by pending requests are the submissions in order, and teardown completes each of the rest once |
| RequestSafety.SequenceBit | src/packetconn.c:354-377 | In every run the head has the parity of the requests finished other than in MDR_E_NO_ACK, and the next id is the opposite |
| RequestSafety.SuccessiveIds | src/packetconn.c:429-430 | Successive requests have equal ids if and only if the first of them ended in MDR_E_NO_ACK |
| RequestSafety.EachSubscriberIsToldOnce | src/packetconn.c:588-605 | A packet that answers no request is told, once each and in list order, to all subscriptions that want it, those made by callbacks of the same round included |
| RequestSafety.OnlyAckIgnoresReplyIff | src/packetconn.c:223-352 | A data packet leaves an only-ack head alone if and only if it does not match the other fields |
| RequestSafety.TransmitsIff | src/packetconn.c:397-462 | A call hands the head over if and only if it is due and not given up, first sends only when writable; it fails there if and only if that write does |
| RequestLaws.MatchesIff | src/packetconn.c:223-352 | A packet answers a request if and only if it has the type asked for and, for the types that are about one of several things, is about the same thing |
| RequestLaws.OtherKeyCompletesNothing | src/packetconn.c:223-352 | A packet of the type asked for about another thing leaves the head as it was |
| RequestLaws.MessageEndsIff | src/packetconn.c:477-624 | A message ends the head, with this outcome and this callback, if and only if it is the ACK of an only-ack head or the packet asked for |
| RequestLaws.DeadlineEndsIff | src/packetconn.c:420-441 | A head step ends the head if and only if its deadline has passed and it was acked or counted as sent three times, with MDR_E_NO_REPLY or MDR_E_NO_ACK |
| RequestLaws.AckCountsIff | src/packetconn.c:477-506 | An ACK changes anything if and only if it has the opposite bit of a head that has none yet |
| RequestLaws.AckedHeadIgnoresAcks | src/packetconn.c:479-482 | A duplicate ACK leaves everything as it was |
| RequestLaws.AckForIsTaken | src/packetconn.c:534-545 | The ACK of a data frame is an empty ACK frame with a good checksum, and a peer waiting on that frame takes it |
| RequestLaws.EveryDataFrameIsAcked | src/packetconn.c:534-545 | What a call hands over last is the ACK of the data frame it read, parsed or not, unless that write fails |
| RequestLaws.DeadlineStands | src/packetconn.c:397-506 | Over any run in which the head neither ends nor makes progress, its deadline stands |
| RequestLaws.RetriesAfterASecond | src/packetconn.c:85-88 | Over any run without progress, a head that was sent is sent again or given up exactly when more than a second has passed |
| RequestLaws.AckedHeadWaitsASecond | src/packetconn.c:498-505 | Over any run in which it does not end, an acked head is given up exactly when more than a second has passed since the ACK that counted |
| RequestLaws.AckedHeadIsNotResent | src/packetconn.c:420-441 | Over any run in which it does not end, an acked head that was sent is not sent again |
| RequestLaws.CompleteEnacts | src/packetconn.c:486-495 | A finished request's callback, if there is one, acts once, and no subscriber is told |
| RequestLaws.ExpireEnacts | src/packetconn.c:426-441 | So does the error callback of one that is given up |
| RequestLaws.DispatchEnacts | src/packetconn.c:588-605 | What all told subscribers ask for is done, in the order they were told |
| RequestLaws.DataEnacts | src/packetconn.c:568-605 | A packet is for the head or for the subscribers, never both |
| RequestLaws.ProcessFailsIff | src/packetconn.c:379-637 | A call fails if and only if the flush or the head's write does, or a data frame it reads does not parse; after a failing write nothing is read |
| RequestProgress.HeadStepSpends | src/packetconn.c:397-462 | A head step never gives steps back, and a due one uses up at least one |
| RequestProgress.RunSpends | src/packetconn.c:397-462 | Over any run the steps used up grow by at least the number of due steps |
| RequestProgress.AllFinishWithinFourSteps | src/packetconn.c:397-462 | In any run, with submissions, blocked writes and messages in between, there are at most four due steps for each request pending or submitted, and after that many none is pending |
| RequestProgress.SpacedCallsFinishAll | src/packetconn.c:379-637 | Called more than a second apart with writes that do not block, the queue drains within four calls for each request pending or submitted meanwhile |
| RequestProgress.AttemptsAreBounded | src/packetconn.c:422-423 | In every run no request is counted as sent more than three times, and only the head as sent at all |
| RequestProgress.AckedHeadIsSentIff | src/packetconn.c:399-422 | An acked head goes out again if and only if its ACK came before its first counted send |
| RequestProgress.CopiesAreCountedOrBuffered | src/packetconn.c:403-459 | In every run the copies of a request are its counted sends, at most three, and its rounds that ended buffered; for the head the counted sends are what `attempts` says |
| RequestProgress.AtMostThreeCopiesIff | src/packetconn.c:422-459 | A request given up without an ACK was handed over at most three times if and only if no write of it was buffered; a pending head, if and only if no more were than tries are left |
| RequestProgress.BufferedCopiesAreUnbounded | src/packetconn.c:403-453 | Any number of rounds with a buffered write, first sends or retries, hand over as many copies and leave the state as it was |
| RequestProgress.SentFramesAreSummed | src/packetconn.c:372-375 | In every run, each frame handed to the frame connection ends in the sum of its earlier wire bytes |
| RequestProgress.PollWriteIff | src/packetconn.c:176-216 | Poll asks for writing if and only if output is buffered or a head step taken now would change something |
| RequestProgress.PollTimeoutIsTight | src/packetconn.c:196-213 | The timeout is never past the deadline and less than a millisecond short of it, and 0 when overdue |
| RequestLaws.NoTimeoutIff | src/packetconn.c:196-213 | There is no timeout if and only if no head with a counted send is pending |
| AlternatingBit.AckIsForHead | src/packetconn.c:477-506 | Where the network invariant holds, an ACK that would be accepted was caused by the head |
| AlternatingBit.NetStepKeeps | src/packetconn.c:379-637 | Every step of host, lossy channels and device keeps the network invariant |
| AlternatingBit.EveryAckIsForTheHead | src/packetconn.c:477-506 | In every run that gives up on no request with a copy or ACK of it on its way, and takes no packet for a reply with one of an earlier request on its way, every accepted ACK was caused by a copy of the current head |
| AlternatingBit.RepliesInOrderAreFair | src/packetconn.c:568-576 | A reply the head itself caused, and any packet for an acked head, meets that condition |
| AlternatingBit.MisleadsIff | src/packetconn.c:420-441 | From any such state, a step lets some continuation accept an ACK for the wrong request if and only if it breaks the condition |
| AlternatingBit.GivingUpMisleads | src/packetconn.c:420-441 | After giving up too early, some continuation accepts an ACK for the wrong request |
| AlternatingBit.EarlyAnswerMisleads | src/packetconn.c:568-576 | So it does after a packet taken for a reply too early |
| AlternatingBit.GivingUpTooEarlyHappens | src/packetconn.c:397-441 | A run from the start gives up on a request with three copies of it on their way |
| AlternatingBit.EarlyAnswerHappens | src/packetconn.c:568-576 | A run from the start has a packet complete a request with a copy of the one before on its way |
| AlternatingBit.ProcessIsSendThenRead | src/packetconn.c:379-637 | One call of process is a sending step followed by a reading step |
| PacketConns.PacketConn.constructor | src/packetconn.c:112-124 | A new connection has empty lists and the initial state |
| PacketConns.PacketConn.StartHead | src/packetconn.c:368-376 | The head gets the next id and a checksum, and the next id flips |
| PacketConns.PacketConn.MakeRequest | src/packetconn.c:639-682 | The new node goes behind the list, and is started if it is alone |
| PacketConns.PacketConn.AdvanceFrameQueue | src/packetconn.c:354-377 | The head leaves the list and the next one is started |
| PacketConns.PacketConn.SendHead | src/packetconn.c:403-417 | The head's frame is handed over, and counted only if reported as sent |
| PacketConns.PacketConn.React | src/packetconn.c:639-711 | Whatever requests and subscriptions a callback makes are appended to the two linked lists, in order |
| PacketConns.PacketConn.ExpireHead | src/packetconn.c:422-441 | A failed head is logged over the right error, its callback acts, then it is unlinked |
| PacketConns.PacketConn.StepHead | src/packetconn.c:397-462 | The part of process about the head moves the linked nodes as the machine does |
| PacketConns.PacketConn.RetryOrExpire | src/packetconn.c:420-461 | An overdue head is sent again or given up |
| PacketConns.PacketConn.CompleteHead | src/packetconn.c:486-495 | A finished head is unlinked before its callback acts |
| PacketConns.PacketConn.TakeAck | src/packetconn.c:477-506 | An ACK is accepted only for an unacked head with the opposite bit, and completes or marks it; any other leaves nodes and deadline alone |
| PacketConns.PacketConn.DispatchLoop | src/packetconn.c:588-605 | The walk over the linked subscriptions calls exactly the matching callbacks in order, those linked behind it while it walks included |
| PacketConns.PacketConn.TakeData | src/packetconn.c:568-624 | A packet completes the head it matches or goes to the subscribers |
| PacketConns.PacketConn.TakeDataFrame | src/packetconn.c:534-566 | Every data frame is acknowledged with the opposite bit before anything else |
| PacketConns.PacketConn.TakeMessage | src/packetconn.c:477-637 | A frame is handled by its type |
| PacketConns.AckFrameComesTo | src/packetconn.c:477-506 | A frame of type ACK is not acknowledged, and counts exactly for an unacked head with the opposite bit |
| PacketConns.DataFrameComesTo | src/packetconn.c:534-624 | A data frame is acknowledged whether or not it parses, and only what parses reaches the engine |
| PacketConns.OtherFramesComeToNothing | src/packetconn.c:464-637 | Frames of other types, and calls that find no frame, are not answered and change nothing |
| PacketConns.PacketConn.ReadPart | src/packetconn.c:464-637 | What is handled is the next frame of the received stream, if its bodies are well-formed, and nothing only if a read failed; a data frame is acknowledged by writes of this call |
| PacketConns.PacketConn.FlushAndSend | src/packetconn.c:386-462 | The writing part, a failing flush ending the call: it fails if and only if a write failed, and what is refused or held back is so because a write blocked or the frame is too long |
| PacketConns.PacketConn.ProcessByAvailability | src/packetconn.c:379-637 | Over the real frame connection, one call moves the state, hands over frames and returns as the machine says, with the answers the socket gave: one reported failure for each failing write, nothing held back without a blocked one, no read left out; it keeps both lists and the invariant |
| PacketConns.PacketConn.PollNow | src/packetconn.c:176-216 | The code's answer is that of the machine |
| PacketConns.PacketConn.TellAll | src/packetconn.c:126-150 | The teardown loop logs MDR_E_CLOSED for every linked request in order |
| PacketConns.PacketConn.FreeSelf | src/packetconn.c:126-160 | Teardown leaves no request and the closed state |
| PacketConns.PacketConn.Subscribe | src/packetconn.c:684-711 | A new node goes behind the subscription list |
| PacketConns.PacketConn.RemoveSubscription | src/packetconn.c:715-742 | Exactly the named node is unlinked, head and tail kept; an unknown handle changes nothing |
| Lists.Append | src/device.c:236-249 | Appending keeps the chain, acyclic and with its tail |
| Lists.Unlink | src/device.c:396-408 | Unlinking any node keeps the chain of the others, acyclic and with its tail |
| Devices.Device.AddSubscription | src/device.c:208-252 | Both lists grow by one, and the handles still mirror the connection's list |
| Devices.Device.RemoveSubscription | src/device.c:380-414 | Both lists lose exactly the named element and still mirror each other |
| Devices.Device.RemoveAll | src/device.c:84-96 | Freeing the device empties both lists |
| Devices.Device.NoteOne | src/device.c:265-317 | A function type sets the flags that map to it and clears none |
| Devices.Device.NoteSupported | src/device.c:261-318 | A flag is set if and only if it was before or the list names a type mapped to it, whatever order and repeats |
| Handshakes.DeviceRunKeeps | src/device.c:332-378 | Every run keeps the count of begun handshakes equal to calls made plus stages pending |
| Handshakes.OneCallPerInit | src/device.c:332-378 | Every call of mdr_device_init, those made in callbacks included, leads to exactly one call of a callback of the user that is really made, by success, failure or teardown, whatever subscriptions come and go |
| Handshakes.HandlersGetTheirPacket | src/device.c:254-356 | A result handler of the handshake is always given a packet, of the type it reads |
| Handshakes.StagesAskTheirQuestion | src/device.c:199-206 | In every run a pending stage of a handshake carries the GET packet of that stage, expects just the reply to it, and has both callbacks |
| Handshakes.FollowRun | src/device.c:254-330 | Whatever the run, a fresh device ends with a flag set if and only if the list in the reply to some second stage names it |
| Codec.RoundTrip | src/packet/util.h:99-125 | A complete codec parses what it printed, at any offset and whatever follows |
| Codec.Extends | src/packet/util.h:99-125 | What is accepted stays accepted with the same value when bytes are added |
| Codec.PrefixFree | src/packet/util.h:99-125 | What is accepted is rejected when cut inside the accepted part |
| Codec.CountedCanonical | src/packet/util.h:145-179 | A counted list is accepted only from its own encoding, if that holds of its items |
| Codec.CountedComplete | src/packet/util.h:145-179 | A printed counted list is found again, if that holds of its items |
| Cursor.ParseEnums | src/packet/util.h:121-168 | The parsing loop over enumerated bytes yields the list, or the error at the first bad one |
| Cursor.WriteBytes | src/packet/util.h:204-222 | The writing loop appends exactly the bytes it was given |
| Settings.ActionFaithful | src/packet/system.h:318-352 | Actions parse exactly from their encodings |
| Settings.PresetFaithful | src/packet/system.h:297-356 | So do presets with any list of actions |
| Settings.KeyFaithful | src/packet/system.h:264-358 | So do keys with any list of presets |
| Settings.CapabilityFaithful | src/packet/system.h:176-359 | Every settings capability parses from its encoding, and an accepted payload is the encoding of what it parsed to |
| Settings.ShorterIsRejected | src/packet/system.h:187-359 | An accepted payload is read only as far as it is consumed and rejected when cut shorter |
| Settings.EncoderRoundTripsIff | src/packet/system.h:550-570 | What the encoder sends parses back if and only if it is not a smart-talking capability |
| Settings.ReencodingIsCanonical | src/packet/system.h:187-359 | Re-encoding an accepted payload gives the bytes consumed if and only if it is not smart talking |
| Layouts.AssignableSettings | src/packet/system.h:264-358 | One key with one preset with one action, byte by byte |
| Layouts.OtherSettings | src/packet/system.h:187-262 | The other kinds of settings capability, byte by byte |
| SettingsCode.ParseActions | src/packet/system.h:318-352 | The innermost parsing loop yields the list of actions |
| SettingsCode.ParsePresets | src/packet/system.h:297-356 | The middle loop yields the list of presets |
| SettingsCode.ParseKeys | src/packet/system.h:264-358 | The outer loop yields the list of keys |
| SettingsCode.CapabilityFromFrame | src/packet/system.h:176-359 | The whole capability case accepts and refuses as the specification does |
| SettingsCode.KeysLengthIsPrinted | src/packet/system.h:571-594 | The summed length is the length written, through all three levels |
| SettingsCode.LengthFitsInt | src/packet/system.h:571-594 | The sum stays within a C int for every capability |
| SettingsCode.SumLength | src/packet/system.h:571-594 | The first pass computes that length |
| SettingsCode.WriteKeys | src/packet/system.h:600-633 | The second pass appends exactly the keys' encoding, inside the buffer |
| SettingsCode.EncodeAssignable | src/packet/system.h:570-635 | The buffer of the summed length is filled exactly, with the payload |
| SettingsCode.EncodeThenParse | src/packet/system.h:570-635 | Encoding and then parsing, both by the loops, gives back the same keys and consumes the payload |
| Equalizer.NamedFaithful | src/packet/eqebb.h:160-186 | A named preset parses exactly from its encoding, whatever its name |
| Equalizer.CapabilityFaithful | src/packet/eqebb.h:143-203 | Every equaliser capability parses from its encoding, and an accepted payload is the encoding of what it parsed to |
| Equalizer.ShorterIsRejected | src/packet/eqebb.h:143-203 | An accepted payload is read only as far as it is consumed and rejected when cut shorter |
| Equalizer.CapabilityFromFrame | src/packet/eqebb.h:143-203 | The parsing loops accept and refuse as the specification does |
| Equalizer.NamesLengthIsPrinted | src/packet/eqebb.h:332-343 | The summed length 2 + name_len for each preset is the length written |
| Equalizer.EncodeEq | src/packet/eqebb.h:332-364 | The buffer of the summed length is filled exactly, with the payload |
| Equalizer.EncodeThenParse | src/packet/eqebb.h:332-364 | Encoding and then parsing, both by the loops, gives back the same capability |
| Layouts.EqualizerCapabilities | src/packet/eqebb.h:143-203 | Both kinds of equaliser capability, byte by byte |
| Connect.InfoFaithful | src/packet/connect.h:129-277 | Device information and function lists are stored byte for byte, and found again where printed |
| Connect.ShorterIsRejected | src/packet/connect.h:129-277 | An accepted payload is read only as far as it is consumed and rejected when cut shorter |
| Connect.ReencodesIff | src/packet/connect.h:139-148 | An accepted payload can be encoded again, to the bytes consumed, if and only if it is not a name announced with more than 128 bytes |
| Connect.EncoderRoundTrips | src/packet/connect.h:328-397 | Whatever the encoder writes parses back to the value it was given |
| Connect.InfoFromFrame | src/packet/connect.h:129-277 | The parsing loops accept and refuse as the specification does |
| Connect.EncodeCounted | src/packet/connect.h:352-394 | The buffer allocated for a list is filled exactly |
| Connect.EncodeThenParse | src/packet/connect.h:382-394 | A list of supported functions survives encoding and parsing by the loops |
| Layouts.DeviceInfo | src/packet/connect.h:129-277 | Every kind of device information and the function list, byte by byte |
| Connect.QueryFaithful | src/packet/connect.h:91-218 | The three GET packets are parsed from their two bytes and from no others |
| Stack.SupportListArrives | src/packet/connect.h:220-273 | The list of functions a device encodes is the list the second stage of init is given |
| Stack.ReceiveCapabilities | src/frameconn.c:250-288 | Settings capabilities sent as frames arrive as the same values in the same order, over any split into reads and with junk between them |

## Left out

- FrameConns.FrameConn.FlushWrite: models the index as advanced and the move as taking the live bytes; the code as written is `FlushAsWritten`.
- FrameConns.FrameConn.WriteFrame: models new bytes as waiting behind buffered ones; the code as written is `WriteAsWritten`.
- FrameConns.FrameConn.Drop: the two bytes behind the buffer are padding, as on a 64-bit host; where `read_buf_len` lies there, dropping one byte from a full buffer would change it (`MoveAsWritten`).
- FrameConns.FrameConn.ReadFrame: a `read` that returns 0 makes the code loop for ever; the model's socket delivers at least one byte or fails. Interrupted calls are retried inside the socket.
- Escaping.WrappedIff: for a declared length of exactly 2^32 - 7 the block is shrunk to size 0, and the C library decides whether one is handed out; the model hands one out.
- PacketConns.PacketConn.ProcessByAvailability: a wrapped block is taken for no message, because there is no frame to look at. On a stream with rejected bodies, which frame is found is what `ReadFrame` says.
- PacketConns.PacketConn.MakeRequest: starts from the frame; allocation failures, and with them the error return, are not modelled.
- AlternatingBit.EveryAckIsForTheHead: the host's own acknowledgements of data frames are not in the channel to the device, because the device's answer to them is not part of this model.
- Decoding.NextScanRefines: holds for streams whose delimited bodies are well-formed; `ScanConserves` holds for all.
- Handshakes.OneCallPerInit: the requests of the handshake are taken on; a failing allocation would call the user's error callback at once.
- Callbacks submit requests and subscribe; they do not unsubscribe, free the connection or call process again, and do nothing during teardown.
- The checksum of a received frame is not examined by the code, so nothing is claimed about it.
- Repeated data frames from the device are acknowledged and delivered every time; the code does not tell copies apart.
- Sockets, Bluetooth, the clock, `errno` and debug output are foreign; reads, writes and times are inputs. Integers in memory are little-endian.
- Memory is not freed in the model, and allocation does not fail.
- `mdr_packetconn_wait_for_result` has no definition in src/packetconn.c.
- The `mdr_device_get_` and `mdr_device_set_` functions gate and send, and add only easy members.
- src/packet/common.h, src/packet/ncasm.h and src/packet/play.h, and the packets of the modelled files that are flat lists of fields, add only easy members.
- src/packet.c and src/packet/connect_support_function.c dispatch and look up, and add only easy members.
