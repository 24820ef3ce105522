# A verified model of the camera streaming application

The application captures frames from a camera, encodes them with FFmpeg either to an MP4 file or
to a stream of MP4 fragments, and broadcasts the fragments to WebSocket clients. This project
models the parts of it that carry the difficult behaviour, and proves properties of them for all
inputs, all interleavings and all choices the surrounding libraries may make.

`dafny verify dfyconfig.toml` checks the whole project.

| file | what it models |
|---|---|
| `Pipeline.dfy` | the key listener, reader and encoder threads as atomic steps over one flag and one queue, and the main thread of the file recorder that joins them |
| `LiveSender.dfy` | the same threads with the live encoder's queue and the sender thread |
| `LiveClients.dfy` | what one client receives, from the encoder's queue through the sender to its connection |
| `ThreadSafeQueue.dfy` | the queue class |
| `BoxFilter.dfy`, `Bytes.dfy` | the reader, printer and filter of top-level MP4 boxes |
| `CodecContract.dfy` | the send/receive contract of an FFmpeg encoder and the way both encoder classes use it |
| `Handles.dfy`, `FFmpegEncoder.dfy`, `VideoStreamEncoder.dfy` | the two encoder classes, with the handles they hold |
| `Remux.dfy`, `Rounding.dfy` | the packet loop of the file remuxer and the rounding rule of its time stamps |
| `VideoStreamSocket.dfy` | the set of connected clients |
| `WebSocketFrame.dfy` | the WebSocket frame printer, with a reader written from section 5.2 of RFC 6455 |
| `Handshake.dfy` | the loop that takes the key out of a client's request |
| `Utf8.dfy`, `Utf16.dfy`, `PopCount.dfy`, `Saturate.dfy`, `Bits.dfy` | the vendored FFmpeg arithmetic, with 32-bit and 64-bit wrap-around written out |

What a library, the scheduler or a client decides is a parameter: an event of a run, an answer of
the codec, the set of library calls that fail, or the failing write of a loop. A fixed choice of
the parameters gives one execution; the results hold for every choice.

## What the proofs found

Where a property one would expect is false, there is a run or an input that shows it and, but for
the boxes that slip out of the filter, a theorem that says exactly when it holds.

- Losing a frame: `Pipeline.SomeRunLosesAFrame` gives a run, `AtMostOneLost` the bound, and `LoseIff`
  the exact states from which it can happen.
- Hanging: after recording has stopped every run is short (`Pipeline.RunsEnd`), and it ends with all
  threads ended or with the encoder thread waiting in `pop` for ever (`StuckIff`). `HangIff` says
  exactly from which states the second can happen; then the main thread never closes the encoder
  (`FileRecorder.NeverClosed`, `NeverClosedIff`). `SomeRunHangs` gives the run.
- Fragments never sent: the sender can leave before the closing buffer is pushed
  (`LiveSender.SomeRunSendsNothing`). What it missed is what is left in the queue
  (`MissedIsTheQueue`), and `MissIff` says exactly from which states it can miss anything.
- The live threads: after the stop a run is as short as the fragments still pushed and the changes of
  the clients allow (`LiveSender.LiveRunsEnd`). `StarveIff` says exactly from which states the
  sender can wait for a fragment for ever.
- `LiveClients.LateClientGetsNoInit`: a client that connects after the first broadcast never gets
  the boxes it needs to start decoding, when only the last box kept of a fragment may hold a zero
  byte in its type.
- Filtering: a box type with a zero byte is printed short. For `BoxFilter.ZERO_TYPE` a second pass then
  loses the whole box (`ZeroInTypeLosesBytes`), for another packet it changes nothing
  (`UncleanYetIdempotent`), and for a third the first pass lets out a `moov` box
  (`UncleanLetsInitOut`). `FilterIsKept` says exactly when the filter keeps its boxes byte for byte,
  `FilterTwiceIff` and `FilterTwiceIffLastClean` when filtering twice is filtering once. When only
  the last kept type may be unclean, no `ftyp` or `moov` box comes out (`NoInitComesOut`); beyond that
  the exact condition is the parse of the output itself.
- Refused frames: after one refused frame every later `Write` fails, and `Close` cannot drain what
  the codec holds back (`CodecContract.RefusedStaysRefused`, `RefusedIsNotDrained`).
  `RefusedIff` says exactly when the next frame may be refused.
- Handles left live: the live encoder leaves some exactly when an `Open` failed after its first
  library call or a flush ended at a fragment whose remuxing failed half-way
  (`VideoStreamEncoders.Lifetime`). The file encoder releases everything (`FFmpegEncoders.Lifetime`).
- Times of the live stream: a fragment's time is the frame count rescaled twice; it is the rescaled
  count, for all counts, exactly when one tick of the codec becomes one tick of the stream
  (`Remux.TwiceIsOnceIff`).
- The key of the handshake is right exactly when one blank stands before it and none behind it
  (`Handshake.KeyIffOneBlank`); HTTP allows any number at both places. The loop throws exactly for
  the requests with a line that holds the name and has its first colon at its end
  (`Handshake.ScanThrowsIff`).
- `Rounding.RShiftIsRoundedDiv`: `RSHIFT(a, b)` is `ROUNDED_DIV(a, 2^b)` exactly when `b >= 1` or
  `a > 0`; `RSHIFT(a, 0)` is `a - 1` for the others.

## Model

| member | source | states |
|---|---|---|
| ThreadSafeQueue.Queue.constructor | inc/CThreadSafeQueue.hpp:16-17 | a new queue is empty, with empty histories |
| ThreadSafeQueue.Queue.Push | inc/CThreadSafeQueue.hpp:26-30 | the value goes to the end; what was pushed stays what was popped followed by what is inside |
| ThreadSafeQueue.Queue.Pop | inc/CThreadSafeQueue.hpp:41-47 | once the wait predicate holds, the oldest value not yet popped is taken, and true returned; first in, first out over the whole history |
| ThreadSafeQueue.Queue.Empty | inc/CThreadSafeQueue.hpp:56-59 | whether nothing is inside, without changing anything |
| Pipeline.ConservedStep | src/CStreamVideo.cpp:387-419 | every atomic step keeps: captured frames are written ones, the one in hand, the queue, the reader's, in order |
| Pipeline.OwnersStep | src/CStreamVideo.cpp:387-419 | every step keeps: each live buffer has exactly one owner among queue and threads |
| Pipeline.ControlStep | src/CStreamVideo.cpp:387-419 | every step keeps the relation of the program counters to the flag and the queue that progress rests on |
| Pipeline.FramesConserved | src/CStreamVideo.cpp:387-419 | in every reachable interleaving the captured frames are those handed to Write, then the one in the encoder's hand, then the queue, then the reader's, in order; frees follow writes |
| Pipeline.CapturedAlong | src/CStreamVideo.cpp:389-396 | in every run the captured frames are those got from the camera, in order |
| Pipeline.ShownThenPushed | src/CStreamVideo.cpp:389-413 | in every run each captured frame is shown once and then pushed once, but for the one the reader has, and each popped one written, but for the one the encoder has |
| Pipeline.RecordingIff | src/CStreamVideo.cpp:283-294 | recording goes on exactly until the stop button or the store of the key listener, which only follows a q |
| Pipeline.CapturedAfterStop | src/CStreamVideo.cpp:387-396 | after the stop at most one more frame is captured, and only when the reader was already getting it |
| Pipeline.FreeIsSafe | src/CStreamVideo.cpp:404-410 | a buffer is live when it is freed, and nobody else holds it, so it is freed once |
| Pipeline.WriteIsSafe | src/CStreamVideo.cpp:404-410 | the buffer handed to Write is live, and not in the queue or the reader's hand |
| Pipeline.ReaderTouchesItsOwn | src/CStreamVideo.cpp:389-396 | until it pushes a buffer the reader is its only holder; after that it has none |
| Pipeline.AtMostOneLost | src/CStreamVideo.cpp:387-419 | when reader and encoder have ended, at most one captured frame was not written, and it is the only live buffer |
| Pipeline.SomeRunLosesAFrame | src/CStreamVideo.cpp:387-419 | a run in which one captured frame is not written |
| Pipeline.PopAfterTestNeverWaits | src/CStreamVideo.cpp:404-406 | a pop entered because the queue was seen not empty finds a frame, as there is one consumer |
| Pipeline.StuckIff | src/CStreamVideo.cpp:495-532 | no thread can step in exactly these reachable states: all have ended, or recording stopped, the reader ended, and the encoder waits on the empty queue |
| Pipeline.StepUsesUp | src/CStreamVideo.cpp:283-294 | once recording has stopped, every step of every thread makes the number of steps left smaller |
| Pipeline.RunsEnd | src/CStreamVideo.cpp:495-532 | once recording has stopped, any run in any order has at most 5 steps for each queued frame and 15 more: no livelock |
| Pipeline.LeadsToStop | src/CStreamVideo.cpp:495-532 | from every such state some run reaches a state in which all have ended or wait for ever |
| Pipeline.SafeRunsDoNotHang | src/CStreamVideo.cpp:518-531 | if the encoder is not yet waiting on the empty queue, or a frame is on its way, no continuation hangs |
| Pipeline.HangIff | src/CStreamVideo.cpp:495-532 | the exact reachable states from which some run hangs: recording still goes on, or the encoder waits in pop on the empty queue and the reader holds no frame |
| Pipeline.EncoderCanEnd | src/CStreamVideo.cpp:519-532 | from every reachable state that is not doomed, some run brings the encoder to its end |
| Pipeline.EndIff | src/CStreamVideo.cpp:519-532 | the encoder can still end exactly when it does not wait on the empty queue for a reader that will push nothing |
| Pipeline.SafeRunsDoNotLose | src/CStreamVideo.cpp:387-419 | after the stop, when the encoder waits for the reader's frame or the reader is after none, no continuation loses a frame |
| Pipeline.LosingRun | src/CStreamVideo.cpp:387-419 | from every other stopped state the run in which the encoder ends first and the reader then pushes its frame |
| Pipeline.LoseIff | src/CStreamVideo.cpp:387-419 | the exact reachable states from which some run ends with a captured frame not written |
| Pipeline.SomeRunHangs | src/CStreamVideo.cpp:283-294 | a run stopped by the key that ends in such a wait |
| Pipeline.WaitingForever | inc/CThreadSafeQueue.hpp:41-47 | no continuation ends such a wait |
| FileRecorder.CloseIsAlone | src/CStreamVideo.cpp:534-541 | the encoder is closed after all three threads have ended, everything written is freed, and at most one frame is lost |
| FileRecorder.MainInOrder | src/CStreamVideo.cpp:534-538 | in every run the main thread joins key listener, reader and encoder, closes, and cleans up, each once and in this order |
| FileRecorder.RecorderStuckIff | src/CStreamVideo.cpp:495-541 | with the main thread included, the stuck states are the finished ones, and those where main joins an encoder that waits for a reader that has ended |
| FileRecorder.RecorderRunsEnd | src/CStreamVideo.cpp:495-541 | the bound on runs holds with the main thread's five steps included |
| FileRecorder.NeverClosed | src/CStreamVideo.cpp:534-537 | once the encoder waits like that, in every continuation the file encoder is not closed |
| FileRecorder.NeverClosedIff | src/CStreamVideo.cpp:495-541 | the exact states of the whole recorder from which some run leaves the file open for ever |
| LiveSender.ImageStep | src/CStreamVideo.cpp:427-441 | every step keeps: broadcasts are the image of what was delivered, and the flag says whether there was one |
| LiveSender.OrderStep | src/CStreamVideo.cpp:427-441 | every step keeps: what was pushed is what was delivered, the sender's fragment, the queue, in order |
| LiveSender.BroadcastIsImageOfPrefix | src/CStreamVideo.cpp:427-441 | in every run the broadcasts are a prefix of what the encoder pushed, in order: the first as it is, every later one filtered |
| LiveSender.FlagsAlong | src/CStreamVideo.cpp:431-438 | in every run the initialization flag is set exactly when a broadcast was begun, a throwing one included, and the client flag is the last change |
| LiveSender.PushedAlong | src/CVideoStreamEncoder.cpp:333 | in every run what was pushed is the fragments of the encoder, each once, in order |
| LiveSender.NothingBeforeAFrame | src/CStreamVideo.cpp:403-418 | before a frame is handed to Write, and the loop has not ended, nothing is pushed or broadcast |
| LiveSender.InitOnlyInFirstBroadcast | src/CStreamVideo.cpp:431-438 | every broadcast but the first holds no top-level ftyp or moov box, when all boxes kept of its fragment but the last have types without a zero byte; when the last has such a type too, it parses completely |
| LiveSender.TakeAfterTestNeverWaits | src/CStreamVideo.cpp:427-430 | a sender that saw the queue not empty never waits for a fragment |
| LiveSender.ClosingBufferWakesSender | src/CVideoStreamEncoder.cpp:161-168 | a sender that waits for a fragment finds the closing buffer |
| LiveSender.LiveStuckIff | src/CStreamVideo.cpp:387-447 | the exact states in which none of the four threads can step |
| LiveSender.AccountedStep | src/CStreamVideo.cpp:427-441 | every step but a throwing send keeps: what was pushed is what was delivered, the sender's fragment and the queue, also after the sender has left |
| LiveSender.MissedIsTheQueue | src/CStreamVideo.cpp:427-441 | in a run without a throwing send, a sender that has left missed exactly the fragments left in the queue |
| LiveSender.NothingMissed | src/CStreamVideo.cpp:427-441 | once the encoder is closed, or can get no frame any more, a sender that has missed nothing misses nothing in any continuation without a throwing send |
| LiveSender.MissingRun | src/CStreamVideo.cpp:418-427 | while the encoder can still come to its end and is not closed, the run in which the sender leaves first and a fragment is pushed after it |
| LiveSender.MissIff | src/CStreamVideo.cpp:403-441 | the exact states from which some continuation without a throwing send leaves a pushed fragment unsent: one is missed already, or the encoder is not closed and can still come to its end |
| LiveSender.LiveStepUsesUp | src/CStreamVideo.cpp:387-447 | once recording has stopped, every step makes the work left smaller, but for a pushed fragment, which adds a round of the sender, and a change of the clients |
| LiveSender.LiveRunsEnd | src/CStreamVideo.cpp:387-447 | once recording has stopped, any run in any order has at most 5 steps for each queued frame, 4 for each queued fragment, 23 more, 5 for each fragment still pushed and one for each change of the clients |
| LiveSender.StarvedForEver | src/CStreamVideo.cpp:427-430 | a sender that waits on the empty queue when nothing more will be pushed waits in every continuation |
| LiveSender.FedNeverStarves | src/CStreamVideo.cpp:427-430 | a sender that is not waiting on the empty queue when recording has stopped never comes to wait for ever |
| LiveSender.StarvingRun | src/CStreamVideo.cpp:418-430 | from a state in which the sender waits on the empty queue, the run in which the encoder comes to its end, or hangs, without pushing a fragment |
| LiveSender.StarveIff | src/CStreamVideo.cpp:427-430 | the exact states from which the sender can come to wait for ever: while recording, all in which it has not left; after the stop, those in which it waits on the empty queue |
| LiveSender.SomeRunSendsNothing | src/CStreamVideo.cpp:427 | a run with a connected client in which the closing buffer is pushed and nothing is broadcast |
| LiveClients.ClientReceives | src/CStreamVideo.cpp:427-441 | each message of a client is the encoder's fragment at that place: the first of the run as it is, every other filtered |
| LiveClients.LateClientGetsNoInit | inc/CStreamVideo.hpp:158 | a client that opens after the first broadcast never receives a top-level ftyp or moov box, when all boxes kept of each of the encoder's fragments but the last have types without a zero byte; when the last have too, its messages parse completely |
| BoxFilter.ReadBox | src/CStreamVideo.cpp:297-320 | exactly when each error exit is taken; on success the box is the bytes at the offset, which grows by its size, at least 8, and stays inside the packet |
| BoxFilter.FilterAtoms | src/CStreamVideo.cpp:321-341 | the loop computes the recursive run over the packet |
| BoxFilter.RunIsFilter | src/CStreamVideo.cpp:321-341 | for every packet, truncated ones included, the run equals splitting into boxes, dropping ftyp and moov, and printing; undefined exactly when a reached header declares a size below 8 |
| BoxFilter.FilterByName | src/CStreamVideo.cpp:328-333 | the first box of a packet is dropped when its four characters are "ftyp" or "moov" and otherwise printed, and then the rest is filtered |
| BoxFilter.InitByName | src/CStreamVideo.cpp:328 | the boxes removed are those named "ftyp" and "moov" |
| BoxFilter.CStringEnds | src/CStreamVideo.cpp:306-308 | a type is kept up to its first zero byte |
| BoxFilter.SplitJoins | src/CStreamVideo.cpp:297-320 | boxes and tail of a packet joined give the packet |
| BoxFilter.SplitUnique | src/CStreamVideo.cpp:297-320 | any boxes followed by a tail that starts none parse into exactly these |
| BoxFilter.FilterIsKept | src/CStreamVideo.cpp:308-333 | the output is the kept boxes byte for byte exactly when no kept type holds a zero byte |
| BoxFilter.FilterConserves | src/CStreamVideo.cpp:321-341 | kept bytes, dropped bytes and the unparsed tail add up to the packet |
| BoxFilter.KeptParses | src/CStreamVideo.cpp:321-341 | the kept bytes parse completely into the kept boxes, none of them ftyp or moov |
| BoxFilter.FilterFixpoint | src/CStreamVideo.cpp:321-341 | filtering changes nothing exactly for completely parsed packets with only clean kept boxes |
| BoxFilter.FilterIdempotent | src/CStreamVideo.cpp:321-341 | filtering twice is filtering once, when no kept type holds a zero byte |
| BoxFilter.FilterTwiceIff | src/CStreamVideo.cpp:321-341 | for every packet, filtering twice is filtering once exactly when the filtered packet parses completely into boxes that are kept and have clean types |
| BoxFilter.FilterTwiceIffLastClean | src/CStreamVideo.cpp:308-333 | when only the last kept box may have an unclean type, exactly when it has a clean one |
| BoxFilter.UncleanIsNoBox | src/CStreamVideo.cpp:308-332 | what is printed for a box with an unclean type does not start with a box |
| BoxFilter.LastUncleanParses | src/CStreamVideo.cpp:308-333 | when only the last kept type is unclean, the filtered packet parses into the other kept boxes, with the print of the last as its tail |
| BoxFilter.NoInitComesOut | src/CStreamVideo.cpp:308-333 | when all kept types but the last are clean, the filtered packet holds no top-level ftyp or moov box |
| BoxFilter.UncleanYetIdempotent | src/CStreamVideo.cpp:308-332 | a packet of two boxes with unclean types for which filtering twice is filtering once |
| BoxFilter.UncleanLetsInitOut | src/CStreamVideo.cpp:308-332 | a packet without a top-level moov box that is filtered to one with |
| BoxFilter.ZeroInTypeLosesBytes | src/CStreamVideo.cpp:306-308 | the packet for which filtering twice is not filtering once |
| BoxFilter.FilterAppend | src/CStreamVideo.cpp:321-341 | filtering distributes over joining, when the first part parses completely |
| BoxFilter.PrintThenFilter | src/CStreamVideo.cpp:321-341 | printing any well-formed boxes and filtering equals printing the boxes without ftyp and moov |
| BoxFilter.Reprint | src/CStreamVideo.cpp:308-332 | a kept box is printed unchanged exactly when its type has no zero byte, and shorter otherwise |
| BoxFilter.Print | inc/CStreamVideo.hpp:18-22 | the printed box has the given type and data |
| Bytes.WriteReadU32 | src/CStreamVideo.cpp:303 | the size field read and written again is the same four bytes |
| Bytes.ReadWriteU32 | src/CStreamVideo.cpp:329 | a size written and read again is the same size |
| Bytes.ReadIsNumber | src/CStreamVideo.cpp:303 | a size is read in network byte order, the first byte counting most |
| CodecContract.FlushKeepsOrder | include/libavcodec/avcodec.h:117-122 | packets are received from the front, in order; the others are left as they were |
| CodecContract.FlushCounts | src/CFFmpegEncoder.cpp:237-267 | exactly when FlushPackets returns false, how many packets it took, and that it loses the one whose writing failed and no other |
| CodecContract.FlushHandles | src/CVideoStreamEncoder.cpp:217-249 | place by place a flush takes the packets that waited, under the frame count, all written but the one whose writing fails |
| CodecContract.FlushRound | src/CFFmpegEncoder.cpp:240-264 | one round of the loop leaves a state from which the rest of the flush leads to the same end |
| CodecContract.SendConserves | include/libavcodec/avcodec.h:130-134 | an answer to a frame keeps: packets produced are those received and those waiting, and never EAGAIN on both ends |
| CodecContract.WriteConserves | src/CFFmpegEncoder.cpp:200-229 | Write keeps that |
| CodecContract.SucceedsIff | src/CFFmpegEncoder.cpp:200-228 | a Write returns true exactly when its frame is offered and accepted, and no receive fails up to the end and no writing of a packet that waits |
| CodecContract.WriteStamps | src/CVideoStreamEncoder.cpp:207-215 | an offered frame is counted, accepted or not, one that is not writable is not; what the Write receives is added behind, under the new count |
| CodecContract.DrainConserves | src/CFFmpegEncoder.cpp:170-172 | the first part of Close keeps that |
| CodecContract.SuccessIsClean | src/CVideoStreamEncoder.cpp:190-216 | a Write that returns true leaves no packet in the codec and loses none |
| CodecContract.WriteLosesOne | src/CVideoStreamEncoder.cpp:243-247 | a Write loses one packet, and then returns false, exactly when its frame is accepted and the writing of one of its packets fails; any other Write loses none |
| CodecContract.RunConserves | src/CVideoStreamEncoder.cpp:190-252 | in every run, whatever fails, the produced packets are those received once each in order and those waiting; as many are lost as Writes lose one, and no more than returned false |
| CodecContract.NeverRefused | include/libavcodec/avcodec.h:130-134 | while all earlier Writes returned true, the next frame cannot be answered with EAGAIN |
| CodecContract.RefusedIff | include/libavcodec/avcodec.h:130-160 | the next frame may be refused exactly when the flush of the last accepted frame ended on a receive that failed with packets left, or on a write that failed before the last packet |
| CodecContract.NothingAcceptedNothingRefused | include/libavcodec/avcodec.h:130-160 | and never when no frame was accepted yet |
| CodecContract.NullFrameNotRefused | include/libavcodec/avcodec.h:140-146 | nor can the null frame of Close |
| CodecContract.ErrorFreeRunWritesAll | src/CFFmpegEncoder.cpp:166-174 | without errors every packet produced, the drained ones included, is written exactly once in production order before the trailer |
| CodecContract.RefusedStaysRefused | include/libavcodec/avcodec.h:150-160 | after a refused frame every later Write returns false and writes nothing |
| CodecContract.RefusedIsNotDrained | src/CFFmpegEncoder.cpp:170-172 | then the null frame is not accepted either, and closing makes the codec produce nothing more |
| CodecContract.SomeRunIsRefused | src/CFFmpegEncoder.cpp:221-226 | two Writes that lead there |
| CodecContract.RunCountsRise | src/CVideoStreamEncoder.cpp:207-231 | packets are received under frame counts that never fall |
| CodecContract.RunCounts | src/CVideoStreamEncoder.cpp:207 | in every run the count is the number of frames offered |
| CodecContract.RunStamps | src/CVideoStreamEncoder.cpp:207-231 | in every run what a Write receives carries the number of its frame |
| CodecContract.NoFailureIff | src/CFFmpegEncoder.cpp:200-229 | from a codec with nothing waiting, no Write of a run returns false exactly when each frame is accepted and its fault, if any, comes behind its own packets |
| CodecContract.FlawlessRun | src/CFFmpegEncoder.cpp:200-229 | such frames may all be offered, and the packets of each are received and written in order under its number |
| CodecContract.ErrorFreeHandled | src/CFFmpegEncoder.cpp:166-174 | a session without errors receives exactly the packets of its frames, each under its number, and then those of the null frame under the last one |
| Handles.AllocateSound | src/CFFmpegEncoder.cpp:31-36 | a new handle is none of the live ones, and the books stay sound: every handle obtained is live or released, never both or twice |
| Handles.ReleaseSound | src/CFFmpegEncoder.cpp:181-194 | releasing a live handle keeps the books sound |
| Handles.ReleasedAtMostOnce | src/CFFmpegEncoder.cpp:181-194 | no handle is released twice, none released is live |
| Handles.Settled | src/CFFmpegEncoder.cpp:181-196 | when none is live, every handle obtained was released exactly once |
| Handles.Library.New | src/CFFmpegEncoder.cpp:31-36 | an allocating call returns null, or a handle that was not live and now is |
| Handles.Library.Free | src/CFFmpegEncoder.cpp:181-194 | a freeing call asks for a live handle, which then is not live |
| EncoderSetup.Prepare | src/CFFmpegEncoder.cpp:31-143 | for every set of failing calls: the handles acquired are those of the calls before the first that fails, each new, and success exactly when none of these calls fails |
| EncoderSetup.PassedIsFirst | src/CFFmpegEncoder.cpp:29-158 | Open stops at the first call, in their order, that is made and fails |
| EncoderSetup.AcquiredIff | src/CFFmpegEncoder.cpp:31-153 | which calls must not fail for each field to be filled, and for Open to succeed |
| EncoderSetup.CloseOutput | src/CFFmpegEncoder.cpp:149 | after closing the file, the live handles are those of the other fields |
| EncoderSetup.FreeContext | src/CFFmpegEncoder.cpp:181-194 | frees each non-null field's handle once and nothing else |
| FFmpegEncoders.FFmpegEncoder.constructor | inc/CFFmpegEncoder.hpp:44 | a new encoder is closed and holds nothing |
| FFmpegEncoders.FFmpegEncoder.FlushPackets | src/CFFmpegEncoder.cpp:237-267 | the loop takes packets as the flush function says, ends on what is left in the codec, and the file grows by the written packets, with their times rescaled and the stream's index |
| FFmpegEncoders.FFmpegEncoder.Encode | src/CFFmpegEncoder.cpp:205-228 | session, file and result as specified for every answer |
| FFmpegEncoders.FFmpegEncoder.Write | src/CFFmpegEncoder.cpp:200-229 | the same when open; nothing changes when not |
| FFmpegEncoders.FFmpegEncoder.Close | src/CFFmpegEncoder.cpp:166-198 | drains, ends the file with one trailer, and no handle is live |
| FFmpegEncoders.PrepareFile | src/CFFmpegEncoder.cpp:31-153 | success exactly when no call fails; the live handles are those of the non-null fields wherever it stops, and the file is closed when its header fails |
| FFmpegEncoders.FFmpegEncoder.ReleaseAll | src/CFFmpegEncoder.cpp:181-197 | every handle of the struct is released |
| FFmpegEncoders.FFmpegEncoder.Finish | src/CFFmpegEncoder.cpp:168-179 | the closed file is the session's file and one trailer |
| FFmpegEncoders.FFmpegEncoder.SetUp | src/CFFmpegEncoder.cpp:29-158 | the fields hold what was acquired, and the encoder is open with a file of just the header exactly when no call fails |
| FFmpegEncoders.FFmpegEncoder.Open | src/CFFmpegEncoder.cpp:25-163 | true exactly when every call succeeds, with a file of just the header; otherwise nothing is live; a previous session is closed first |
| FFmpegEncoders.ErrorFreeFile | src/CFFmpegEncoder.cpp:166-267 | without errors the file is the header and then every produced packet once, in order: its data, position and duration, stream 0, and its own times to the nearest tick of the file |
| FFmpegEncoders.FileHolds | src/CFFmpegEncoder.cpp:254-257 | whatever fails: the file is the header and then one record for each packet written, in order, with these fields |
| FFmpegEncoders.FileInOrder | src/CFFmpegEncoder.cpp:254-257 | whatever fails: when the codec's decoding times do not fall, those in the file do not |
| FFmpegEncoders.OutgoingPresentable | src/CFFmpegEncoder.cpp:254 | a packet with pts not before dts keeps that |
| FFmpegEncoders.Perform | src/CFFmpegEncoder.cpp:25-229 | each call keeps: closed files and an open one are as many as the successful Opens |
| FFmpegEncoders.ClosedFileIsWhole | src/CFFmpegEncoder.cpp:166-179 | a closed file is a header, packets, and one trailer |
| FFmpegEncoders.Lifetime | src/CFFmpegEncoder.cpp:15-198 | for every list of calls and all failures, up to the destructor: no handle is live, each was released exactly once, and each successful Open gave one whole file |
| VideoStreamEncoders.VideoStreamEncoder.constructor | src/CVideoStreamEncoder.cpp:32 | a new encoder is closed, its queue empty |
| VideoStreamEncoders.RemuxVideo | src/CVideoStreamEncoder.cpp:254-337 | one fragment is pushed, with the data and the frame count rescaled twice as its times, and everything of its own is released; or nothing is pushed, and a failure after the first call leaves exactly one buffer live |
| VideoStreamEncoders.StampedPacket | src/CVideoStreamEncoder.cpp:300-317 | the times are the count of ticks rescaled again, the duration one tick rescaled again, and never unknown |
| VideoStreamEncoders.VideoStreamEncoder.FlushPackets | src/CVideoStreamEncoder.cpp:217-253 | the loop takes packets as the flush function says; each remuxed packet is pushed to the queue as its fragment; a buffer is lost exactly when remuxing ends the flush after its first call |
| VideoStreamEncoders.VideoStreamEncoder.Encode | src/CVideoStreamEncoder.cpp:194-215 | session, queue history, result and lost buffers as specified for every answer |
| VideoStreamEncoders.VideoStreamEncoder.Write | src/CVideoStreamEncoder.cpp:190-216 | the same when open; nothing changes when not |
| VideoStreamEncoders.VideoStreamEncoder.Finish | src/CVideoStreamEncoder.cpp:157-168 | the queue's history is a fragment for each written packet and then one closing buffer, unless that one fails; a buffer is lost exactly when the flush loses one |
| VideoStreamEncoders.VideoStreamEncoder.ReleaseAll | src/CVideoStreamEncoder.cpp:170-183 | every handle of the session is released |
| VideoStreamEncoders.VideoStreamEncoder.Close | src/CVideoStreamEncoder.cpp:155-188 | both when open; when not open nothing at all changes, and what a failed Open acquired stays live |
| VideoStreamEncoders.VideoStreamEncoder.SetUp | src/CVideoStreamEncoder.cpp:41-148 | what is acquired where it stops; the fields behind that call keep what they held |
| VideoStreamEncoders.VideoStreamEncoder.Begin | src/CVideoStreamEncoder.cpp:41-152 | true exactly when every call succeeds; a failure leaves live exactly what was acquired; nothing is pushed to the queue |
| VideoStreamEncoders.VideoStreamEncoder.Open | src/CVideoStreamEncoder.cpp:38-153 | the same after a previous session is closed: what closing it pushes to the queue, its closing buffer included, and the buffer it may lose; fields an earlier failed Open left stay where no call overwrites them |
| VideoStreamEncoders.ErrorFreeHistory | src/CVideoStreamEncoder.cpp:155-252 | after any session without errors the queue's history is what it was before, one fragment for each packet produced, in order, with its data, and the closing buffer; the packets of frame k, counted from 1, have the time of k ticks rescaled twice, the drained ones that of the last frame |
| VideoStreamEncoders.FragmentFields | src/CVideoStreamEncoder.cpp:300-317 | whatever fails: each fragment has the data of its packet, stream 0, no position, one time for pts and dts, which is its frame count in ticks, rounded to the nearest tick twice, and the duration of one tick likewise |
| VideoStreamEncoders.SessionCountsRise | src/CVideoStreamEncoder.cpp:308 | the frame counts that stamp the fragments never fall, in any session |
| VideoStreamEncoders.FragmentTimesRise | src/CVideoStreamEncoder.cpp:308-310 | nor do the fragments' times |
| VideoStreamEncoders.Perform | src/CVideoStreamEncoder.cpp:34-216 | each call keeps: the encoder's session and the queue's history are those of the step specified for the call; something leaked exactly when some Open failed after its first library call; one more buffer is lost exactly when the call's flush loses one |
| VideoStreamEncoders.PerformAll | src/CVideoStreamEncoder.cpp:34-216 | the same over every list of calls, from a new encoder: the history of the queue is that of all the steps |
| VideoStreamEncoders.Lifetime | src/CVideoStreamEncoder.cpp:34-337 | for every list of calls, up to the destructor: the history of the queue is that of all the calls and a last close; nothing at all stays live exactly when no Open failed after its first library call and no flush lost a buffer; as many buffers stay live as flushes lost one; nothing is released twice |
| Remux.RemuxPackets | src/CStreamVideo.cpp:102-116 | the loop writes the rescaled packets up to the first failing write |
| Remux.RewriteFields | src/CStreamVideo.cpp:106-109 | each packet comes out with its stream and data, its pts and dts each the nearest integer to its own time in the output stream's ticks, unknown and unbounded ones unchanged, its duration likewise, and no position |
| Remux.TicksAreNearest | include/libavutil/mathematics.h:135 | a rescaled time is the integer nearest to the exact one, t * input.num * output.den / (input.den * output.num), ties away from zero |
| Remux.RescaledFields | src/CFFmpegEncoder.cpp:254 | av_packet_rescale_ts on every field: known times and positive durations to the nearest tick, everything else unchanged |
| Remux.TwiceRescaledIs | src/CVideoStreamEncoder.cpp:308-310 | both roundings of a fragment's time written out: one tick to the nearest tick, and the count of such ticks to the nearest tick again |
| Remux.KeepsPresentable | src/CStreamVideo.cpp:106-107 | a packet with known times and pts not before dts keeps that |
| Remux.KeepsDecodingOrder | src/CStreamVideo.cpp:107 | dts of one stream stay non-decreasing, and strictly increasing when an output tick is no longer than an input tick |
| Remux.TwiceIsOnceIff | src/CVideoStreamEncoder.cpp:308-310 | a frame count rescaled tick by tick and then again is the rescaled count, for all counts, exactly when one tick becomes one tick |
| Remux.TwiceRescaledMonotone | src/CVideoStreamEncoder.cpp:308-310 | either way times do not fall as counts rise |
| Remux.StrictOrderIffFiner | src/CStreamVideo.cpp:107 | strictly increasing times always stay so exactly when input.num * output.den >= input.den * output.num |
| Rounding.RoundedDivIsNearest | include/libavutil/common.h:58 | the quotient is a nearest integer, and ties go away from zero |
| Rounding.NearestIsUnique | include/libavutil/common.h:58 | there is one such integer |
| Rounding.FloorForm | include/libavutil/common.h:58 | the same quotient by one flooring division |
| Rounding.RoundedDivMonotone | include/libavutil/common.h:58 | it keeps order, and separates numbers at least the divisor apart |
| Rounding.RShiftIsRoundedDiv | include/libavutil/common.h:56 | RSHIFT(a, b) is ROUNDED_DIV(a, 2^b) exactly when b >= 1 or a > 0 |
| Rounding.RescaleMonotone | include/libavutil/mathematics.h:135 | rescaling keeps order, strictly for a finer output |
| Rounding.RescaledTwice | include/libavutil/mathematics.h:204 | where one tick becomes two or more, rescaling them again gives more |
| Rounding.StrictIffFiner | include/libavutil/mathematics.h:135 | strictness for all times means a finer output |
| VideoStreamSockets.VideoStreamSocket.constructor | src/CVideoStreamSocket.cpp:10-15 | no clients, flag down |
| VideoStreamSockets.VideoStreamSocket.OnOpen | src/CVideoStreamSocket.cpp:32-39 | the step of an opened client; the flag says whether there are clients |
| VideoStreamSockets.VideoStreamSocket.OnClose | src/CVideoStreamSocket.cpp:41-47 | the step of a closed client; the flag says whether there are clients |
| VideoStreamSockets.VideoStreamSocket.SendVideoData | src/CVideoStreamSocket.cpp:64-70 | in any order of the set every client gets the data once; if a send throws, exactly the clients before it |
| VideoStreamSockets.FlagMeansClients | src/CVideoStreamSocket.cpp:32-47 | in every run m_client_connected is the same as a non-empty set |
| VideoStreamSockets.AwayReceivesNothing | src/CVideoStreamSocket.cpp:64-70 | a client that is not connected is sent nothing |
| VideoStreamSockets.ConnectedReceivesAll | src/CVideoStreamSocket.cpp:64-70 | a connected client is sent every broadcast, in order |
| VideoStreamSockets.ReceivesSlice | src/CVideoStreamSocket.cpp:32-70 | in every run a client's messages are the contiguous slice of all broadcasts from the first after its opening to its closing |
| WebSocketFrame.BuildFrame | src/CWebSocketServer.cpp:50-67 | the pushed bytes, countdown loop included, are the frame |
| WebSocketFrame.FrameForm | src/CWebSocketServer.cpp:50-67 | 0x82; the length itself up to 125, 126 and two octets up to 65535, 127 and eight octets above; the payload |
| WebSocketFrame.OctetAt | src/CWebSocketServer.cpp:58-64 | each octet of a length is the length shifted right by its place, most significant first |
| WebSocketFrame.NumberOfOctets | src/CWebSocketServer.cpp:58-64 | the octets of a length read in network byte order give it back |
| WebSocketFrame.OctetsOfNumber | src/CWebSocketServer.cpp:58-64 | and the octets are the only ones of that width |
| WebSocketFrame.FrameIsRead | src/CWebSocketServer.cpp:50-67 | reading a frame followed by anything gives its payload and leaves the rest |
| WebSocketFrame.AcceptedForm | src/CWebSocketServer.cpp:54-65 | any legal frame, by the minimality rule of section 5.2 of RFC 6455, has the printed form after its first octet: the shortest length form is the only one |
| WebSocketFrame.ReadsExactlyFrames | src/CWebSocketServer.cpp:50-67 | a byte string reads as a final binary message and a rest exactly when it is the printed frame followed by the rest and the length fits in 63 bits |
| WebSocketFrame.StreamRoundTripIff | src/CWebSocketServer.cpp:50-67 | joined frames read back as the list of payloads exactly when every payload is shorter than 2^63 bytes |
| WebSocketFrame.SentInjective | src/CWebSocketServer.cpp:50-67 | different lists of payloads give different byte streams |
| Handshake.ExtractKey | src/CWebSocketServer.cpp:90-99 | the loop computes the scan, with the exception of substr as an outcome |
| Handshake.ScanIsLastValue | src/CWebSocketServer.cpp:94-99 | for all requests of CRLF lines up to the blank line: the value of the last line with the name, and no exception |
| Handshake.HeaderGives | src/CWebSocketServer.cpp:95-98 | whatever lines come before, when the last line with the name begins with it: what stands behind the colon without its first character |
| Handshake.KeyIsReturned | src/CWebSocketServer.cpp:90-99 | for the last such line `Sec-WebSocket-Key: K`, whatever the others are, exactly K |
| Handshake.KeyIffOneBlank | src/CWebSocketServer.cpp:96 | for a value without blanks at its ends, and any blanks around it, the key is the value exactly when one blank stands before it and none behind it, or the value is empty with at most one blank |
| Handshake.ScanThrowsIff | src/CWebSocketServer.cpp:90-99 | for every request: the loop throws exactly when, before the end or the blank line, some line holds the name and has its first colon as its last character |
| Handshake.BareNameThrows | src/CWebSocketServer.cpp:94-96 | a name alone before a line feed makes the loop throw |
| Utf8.PutUtf8 | include/libavutil/common.h:541-559 | the macro appends the UTF-8 form of every value below 2^31 |
| Utf8.GetUtf8 | include/libavutil/common.h:488-502 | on every byte string the macro's loop, with its 32-bit wrap-around, decodes as the specification, error exits included |
| Utf8.ByteCount | include/libavutil/common.h:549 | the byte count from the logarithm is the length of the form |
| Utf8.LeadFormula | include/libavutil/common.h:551 | the first byte computed is the form's |
| Utf8.WordIsSpell | include/libavutil/common.h:498 | the accumulated word is the spelled number modulo 2^32 |
| Utf8.GoesOnIs | include/libavutil/common.h:494 | the loop test says whether the lead byte announces another byte |
| Utf8.MaskedIs | include/libavutil/common.h:501 | the final mask leaves the number without the lead byte's mark, wrapped or not |
| Utf8.RoundTrip | include/libavutil/common.h:488-559 | reading what was written gives the value and uses exactly the bytes written |
| Utf8.FormTable | include/libavutil/common.h:541-559 | the table of section 2 of RFC 2279: how many bytes each value takes, the mark of the first byte, and the six bits of each other one |
| Utf8.DecodeIff | include/libavutil/common.h:488-502 | a value and a byte count are read exactly from the form of that many bytes, shortest or not |
| Utf8.CharStays | include/libavutil/common.h:488-502 | what is read is the same whatever bytes follow |
| Utf8.ShortIff | include/libavutil/common.h:488-502 | of the two errors, bytes count as cut short exactly when others behind them would complete a character |
| Utf8.RoundTripAll | include/libavutil/common.h:488-559 | the same for every sequence of values below 2^31 |
| Utf8.ShortestForm | include/libavutil/common.h:541-559 | any bytes accepted for a value are at least as many as those written for it, and as many only when they are those |
| Utf8.PrefixFree | include/libavutil/common.h:541-559 | no written form is a proper prefix of another |
| Utf16.PutUtf16 | include/libavutil/common.h:575-587 | the macro writes, for scalar values the UTF-16 form |
| Utf16.GetUtf16 | include/libavutil/common.h:513-523 | on all units the macro decodes as the specification, error exits included |
| Utf16.PutIsForm | include/libavutil/common.h:575-587 | what is written for a scalar value is its form by section 2.1 of RFC 2781 |
| Utf16.FormTable | include/libavutil/common.h:575-587 | one unit below 0x10000, else a unit of 0xD800 to 0xDBFF and one of 0xDC00 to 0xDFFF that add up to the value |
| Utf16.DecodeIff | include/libavutil/common.h:513-523 | a value is read exactly from its form, whatever follows |
| Utf16.ShortIff | include/libavutil/common.h:513-523 | units that are not read can be completed exactly when they count as cut short and are not a low surrogate alone |
| Utf16.RoundTripIffScalar | include/libavutil/common.h:513-587 | a 32-bit word is read back exactly when it is a Unicode scalar value |
| Utf16.RoundTripAll | include/libavutil/common.h:513-587 | every sequence of scalar values is read back, with no error exit |
| Utf16.ReadIsForm | include/libavutil/common.h:513-523 | whatever is accepted is a scalar value in its form |
| PopCount.PopCount | include/libavutil/common.h:446-453 | the number of one bits of every 32-bit word |
| PopCount.PopCount64 | include/libavutil/common.h:460-463 | the number of one bits of every 64-bit word |
| PopCount.Parity | include/libavutil/common.h:465-468 | the exclusive or of all bits |
| PopCount.PairStage | include/libavutil/common.h:448 | after the first step each pair of bits holds its count |
| PopCount.NibbleStage | include/libavutil/common.h:449 | after the second each nibble holds its count |
| PopCount.OctetStage | include/libavutil/common.h:450 | after the third each octet holds its count |
| PopCount.LastStage | include/libavutil/common.h:451-452 | the last two steps add the octets |
| PopCount.ParityOfCount | include/libavutil/common.h:465-468 | the count is odd exactly when the exclusive or of the bits is one |
| PopCount.EachBitCounts | include/libavutil/common.h:446-453 | each one bit adds one to the count |
| Saturate.ClipInt32 | include/libavutil/common.h:254-258 | clamping to 32 bits, for every 64-bit value |
| Saturate.Clamp32IsNearest | include/libavutil/common.h:254-258 | the clamped value is the nearest of the 32-bit range |
| Saturate.Clamp64IsNearest | include/libavutil/common.h:371-374 | the same for 64 bits |
| Saturate.SatAdd32 | include/libavutil/common.h:318-321 | the exact sum, clamped |
| Saturate.SatSub32 | include/libavutil/common.h:342-345 | the exact difference, clamped |
| Saturate.SatDAdd32 | include/libavutil/common.h:330-333 | clamped at both stages |
| Saturate.SatDSub32 | include/libavutil/common.h:354-357 | clamped at both stages |
| Saturate.SatAdd64 | include/libavutil/common.h:371-374 | the portable path gives the exact sum, clamped |
| Saturate.SatSub64 | include/libavutil/common.h:390-394 | the portable path gives the exact difference, clamped |
| Saturate.OverflowSign | include/libavutil/common.h:372 | the sign of the branch-free word says that the operands agree in sign and the sum does not |
| Saturate.WrappedSum | include/libavutil/common.h:371 | and that is so exactly when the sum does not fit |

## Left out

- Camera capture, decoding, pixel conversion, playback, the Win32 window, and the inside of FFmpeg, websocketpp, OpenSSL and the sockets: calls into code that is not part of this model. `getFrameData` is its loop test and its three outcomes.
- Mutexes, condition variables and the atomic flag are modelled by their effect: a critical section, a load or a store is one step, and a wait is a step that is not enabled. Spurious wake-ups and memory orders weaker than sequential consistency are not modelled.
- The allocator is modelled by one promise: the address of a new frame buffer is not that of a live one.
- Allocation failures that throw `std::bad_alloc`, and output to the console.
- BoxFilter.FilterTwiceIff: where a type before the last is unclean, the condition is about the filtered packet, because the printed boxes slip into one another; only `FilterTwiceIffLastClean` puts it in terms of the packet itself.
- BoxFilter.ReadBox: a declared size below 8 ends the model with an undefined outcome, because the program then copies out of bounds; the 64-bit and uuid box headers are not read by the program either. Addresses are taken to be 64 bits wide, so `offset + 8` does not wrap.
- LiveSender.BroadcastIsImageOfPrefix: fragments with a declared size below 8 in a reached header are not considered, and it speaks of the first live run of an object, because `m_initialization_sent` is never reset.
- That the sender delivers every fragment is not claimed; `SomeRunSendsNothing` shows it is false. That `sendLiveVideoToClient` returns is not claimed: it joins a server thread nobody stops.
- LiveSender.LiveStuckIff: clients connect and disconnect at any time, without the socket's set; `LiveClients` ties the two together by the sequence of broadcasts.
- LiveSender.MissIff: that the sender can miss a fragment takes it that the codec may always give one more packet when closing drains it; in the run shown its fragment wakes a sender that waits.
- LiveSender.StarveIff: that the sender can wait for ever takes it that a client connects, and that closing pushes no fragment, because nothing was left to drain and the closing buffer failed, unless the encoder itself waits for ever.
- CodecContract.RunConserves: a send or receive that fails with an error leaves the codec as it was; what a codec loses inside itself is not modelled. What a packet's times are when the codec produces it is left open.
- VideoStreamEncoders.RemuxVideo: the bytes the muxer makes of a packet are not modelled; a fragment is the packet given to it, with its data and times. Opening and closing the buffer and allocating the codec parameters are taken to succeed, as the program does not look at their results. Its handles are in a second set of books.
- VideoStreamEncoders.VideoStreamEncoder.Write: the overflow of the frame count and of its product with a tick is not modelled, so the check for an unknown time does not fail. Time bases are positive, and are those after the header is written.
- The trailer is recorded whether or not `av_write_trailer` and `avio_close` report success, as the program ignores both.
- Remux.RemuxPackets: times are unbounded integers; `av_rescale_q_rnd` returning INT64_MIN on overflow is not modelled. Its inside is not part of this model: it is taken to be the rounding rule at include/libavutil/common.h:58, with INT64_MIN and INT64_MAX passed through.
- VideoStreamSockets.ReceivesSlice: broadcasts in which a send throws end the sender thread and are described by `SendVideoData` alone. The reply to a client's `get_epoch` message is left out.
- WebSocketFrame.BuildFrame: the frame is complete when `send` is called; a short `send` is not modelled.
- Handshake.KeyIsReturned: the request is what one `recv` call returned. The response, the hash and its encoding are left out.
- Utf8.PutUtf8: values of 2^31 and above, for which the macro shifts by more than the word's width.
- Saturate.SatAdd64: only the portable path; the other path calls compiler built-ins.
- `av_clip_int16_c`, the float clips and the other one-line helpers of the vendored headers would add only easy members.
