# Echo benchmark over UDT: model and proofs

The repository measures round-trip times of small messages over UDT, once over a
byte stream and once over datagrams. A client makes time-stamped messages of a
fixed size, a server echoes them, the client reads the time stamps back and keeps
statistics. This project models both pipelines step by step, with the code that
builds, frames, queues and measures the messages, and proves what they promise.

UDT itself is an abstract reliable FIFO channel (`Udt.dfy`): a byte channel may
accept part of an offer, either channel may refuse ("would block") or fail, and a
`recv` gives at most 102400 bytes. The classes talk to a socket whose answers are
an arbitrary script; the transition systems let every answer happen at every step.

## How it is organised

- `Framing.dfy`, `StreamClient.dfy`, `StreamServer.dfy`: the stream programs as
  classes whose methods are proved against functions.
- `StreamPipeline.dfy`: producer, client thread, two channels and server as one
  transition system over the same functions. `UDT::send`, the producer's append
  and the later `erase` are separate atomic steps. A run is any sequence of steps;
  a step that is not enabled changes nothing.
- `StreamRounds.dfy`: what the methods of the classes compute, the transition system
  reaches, for every script. `StreamDrain.dfy`: termination, and schedules that empty the
  pipeline. `StreamFairness.dfy`: every fair schedule empties it. `StreamShutdown.dfy`: when
  the client stops. `StreamCorruption.dfy`: what a partial send of the server does.
  `StreamRefinement.dfy`: every run is a run of the FIFO of whole messages in
  `MessageFifo.dfy`.
- `SequentialQueue.dfy`: the queue without threads. `ThreadsafeQueue.dfy`: the critical
  sections as a class. `QueueMonitor.dfy`: the queue as a monitor, with locking, blocking,
  notification and spurious wake-ups. `QueueLinearisation.dfy`: the monitor linearises to
  the sequential queue.
- `DgramSend.dfy`, `DgramClient.dfy`, `DgramServer.dfy`, `DgramPipeline.dfy`, `DgramRounds.dfy`,
  `DgramDrain.dfy`, `DgramFairness.dfy`, `DgramShutdown.dfy`, `DgramRefinement.dfy`: the same
  for datagrams, refining the same FIFO.
- `Decimal.dfy`, `TestStr.dfy`, `Timestamp.dfy`: the message text.
  `LatencyStats.dfy`: the statistics. `Benchmark.dfy`: clocks survive both pipelines, the
  logged and printed latencies are those of the submitted messages, and what a partial
  send of the server makes of them.
- `Seqs.dfy`, `Arithmetic.dfy`, `Wrappers.dfy`: small helpers.

## Where the code does not do what one might expect

- The stream server treats a send that was accepted in part as if nothing had been
  sent (`udt_stream_server/udt_server.cpp:230-234`), so those bytes are sent again.
  `StreamPipeline.EndToEnd` shows that the bytes are conserved if and only if this
  never happens, `Surplus` counts the duplicates, and `StreamDrain.NothingLeft` shows
  that a drained pipeline has handled the submitted messages if and only if it never
  happened. `StreamCorruption.PartialSendCorrupts` gives, for every message, a run in
  which the client handles a shifted copy; `Benchmark.PartialSendFakesClock` shows that
  a wrong clock is read from it, `StreamDrain.PartialSendsHaveNoBound` that the
  transfers need not end. The stream client handles partial sends well.
- The same holds for datagrams if a channel were to accept a message in part
  (`DgramPipeline.EndToEnd`). Empty messages are dropped on arrival.
- `test_str` promises a string of the given length. The label of a block outgrows
  its ten characters at 10^7. `TestStr.ExactLengthIff` gives the exact condition for
  every length, `TenMillionIsMissed` the first length that is missed, and
  `TestStr.IsRulerIff` shows that the positions are wrong from there on.
- The comments in `test_util.h` and `test_util.cpp` give examples that the code does
  not produce: `test_str(adf, 13)` is `adf:567890123`, and
  `test_str(asdf, 45)` also has the block `(40_56789)`. The model follows the code.
- The datagram client keeps receiving after an empty message, the datagram server
  stops; the server goes on after an error that is not one of the three fatal ones,
  the client stops. Both are modelled as they are; a server that keeps getting such
  errors never sends (`DgramFairness.PassingErrorsStall`).
- Differences of clocks and their sums are kept in 32-bit ints.
  `LatencyStats.LatencyIsDelay` and `IntSumIsSum` say exactly when they are right.

## Model

| member | source | states |
|---|---|---|
| Udt.Socket.Recv | udt_bench_mark/udt_stream_client/udt_client.h:55 | the next result of the channel; of a longer chunk exactly the first 102400 bytes, and the rest stays |
| Udt.Socket.RecvMsg | udt_bench_mark/udt_dgram_client/udt_client.h:60 | the next message; of a longer one exactly the first 102400 bytes, and the rest is lost |
| Framing.Reframer.RecvFunc | udt_bench_mark/udt_stream_client/main.cpp:102-115 | one call hands over exactly the full blocks of residue and chunk, in order, keeps the rest, and terminates |
| Framing.ChunkIndependent | udt_bench_mark/udt_stream_client/main.cpp:102-115 | after any list of chunks, the messages are the blocks of their concatenation and the residue its remainder |
| Framing.BlockIsSlice | udt_bench_mark/udt_stream_client/main.cpp:106-110 | block i is the i-th slice of n bytes of the stream |
| Framing.BlocksAndResidue | udt_bench_mark/udt_stream_client/main.cpp:106-112 | the residue is a suffix shorter than n and the blocks take all other bytes |
| Framing.BlocksOfMessages | udt_bench_mark/udt_stream_client/main.cpp:102-115 | messages of n bytes each are recovered one by one from their concatenation |
| StreamServer.Connection.DoRecvMsg | udt_bench_mark/udt_stream_server/udt_server.cpp:238-267 | gives the received bytes, and nothing for no data, an error or length zero |
| StreamServer.Connection.TryRecvMsg | udt_bench_mark/udt_stream_server/udt_server.cpp:189-199 | terminates, appends all inbound bytes up to the first call that gives none, and leaves exactly the results after it |
| StreamServer.InboundIsEverything | udt_bench_mark/udt_stream_server/udt_server.cpp:189-199 | with nothing but data in the channel these are all its bytes, in order, and nothing is left |
| StreamServer.InboundStops | udt_bench_mark/udt_stream_server/udt_server.cpp:189-199 | in general, all bytes before the first call that gives none, and the results after that call are left |
| StreamServer.Connection.DoSendMsg | udt_bench_mark/udt_stream_server/udt_server.cpp:211-236 | what enters the channel, and a return value of 0 unless all was accepted |
| StreamServer.Connection.TrySendMsg | udt_bench_mark/udt_stream_server/udt_server.cpp:201-209 | erases the buffer after a whole send and nothing after any other; one call is made, and none on an empty buffer |
| StreamServer.Connection.WorkOnce | udt_bench_mark/udt_stream_server/udt_server.cpp:171-184 | one round of the worker, buffer, wire and both scripts: receive everything, then at most one send of the whole buffer |
| StreamServer.ServeKeeps | udt_bench_mark/udt_stream_server/udt_server.cpp:189-209 | on every run, erased bytes followed by the buffer are the received bytes |
| StreamServer.EchoLaw | udt_bench_mark/udt_stream_server/udt_server.cpp:201-236 | on every run, sent plus buffered exceeds received by exactly the partially accepted bytes; the echo is faithful iff no send was partial |
| StreamClient.Client.SendMsg | udt_bench_mark/udt_stream_client/udt_client.cpp:49-52 | appends the message to the buffer |
| StreamClient.Client.DoSendMsg | udt_bench_mark/udt_stream_client/udt_client.cpp:128-147 | accepted count or 0; it stops the client iff the send failed with a hard error |
| StreamClient.Client.TrySendMsg | udt_bench_mark/udt_stream_client/udt_client.cpp:118-126 | buffer, flag and socket after one attempt to send |
| StreamClient.TrySendConserves | udt_bench_mark/udt_stream_client/udt_client.cpp:118-147 | wire followed by buffer never changes; the buffer changes iff the wire does |
| StreamClient.Client.DoRecvMsg | udt_bench_mark/udt_stream_client/udt_client.cpp:149-183 | hands non-empty data to the callback; it stops the client iff the error was one of the three fatal ones |
| StreamClient.Client.RunOnce | udt_bench_mark/udt_stream_client/udt_client.cpp:214-222 | one round of the loop: send, receive, send, receive |
| StreamPipeline.EraseRemovesOnlyAccepted | udt_bench_mark/udt_stream_client/udt_client.cpp:118-126 | with appends between send and erase: submitted is accepted followed by the buffer without its k bytes to be erased, k never exceeds the buffer, and the erase leaves exactly the unaccepted bytes |
| StreamPipeline.EndToEnd | udt_bench_mark/udt_stream_server/udt_server.cpp:189-236 | in every reachable state, submitted bytes are handled messages, residue, return channel, server buffer, forward channel and unaccepted bytes, iff no server send was partial |
| StreamPipeline.Surplus | udt_bench_mark/udt_stream_server/udt_server.cpp:230-234 | otherwise the pipeline holds exactly the partially accepted bytes too many |
| StreamPipeline.EmittedMessages | udt_bench_mark/udt_stream_client/main.cpp:102-115 | messages of the framing size are handled whole, in order, as a prefix of those submitted, when the server's sends are whole |
| StreamCorruption.PartialSendCorrupts | udt_bench_mark/udt_stream_server/udt_server.cpp:230-234 | for every message m of 2 to 102400 bytes, a run that submits only m, framed by its length, in which the client handles m with its first byte doubled; that is m iff all bytes of m are equal |
| StreamPipeline.BacklogBound | udt_bench_mark/udt_stream_client/main.cpp:149-163 | under every schedule at most 25000 bytes and one message wait in the client |
| StreamPipeline.BacklogIsTight | udt_bench_mark/udt_stream_client/main.cpp:149-163 | for every non-empty message, a run that submits only this message reaches exactly 25000 bytes and one message |
| StreamRounds.ClientTrySend | udt_bench_mark/udt_stream_client/udt_client.cpp:118-126 | for every script, the result of TrySendMsg is the state reached by the steps of the transition system |
| StreamRounds.ClientRound | udt_bench_mark/udt_stream_client/udt_client.cpp:214-222 | and the result of a whole round of Run |
| StreamRounds.ServerRecvLoop | udt_bench_mark/udt_stream_server/udt_server.cpp:189-199 | for every script the channel can follow, so is the result of the server's receive loop |
| StreamRounds.ServerRound | udt_bench_mark/udt_stream_server/udt_server.cpp:171-184 | and that of a whole round of the worker |
| StreamShutdown.StopsOnErrors | udt_bench_mark/udt_stream_client/udt_client.cpp:128-183 | on every run, the client has been told to stop iff the run contains a hard error of a send or a fatal error of a recv |
| StreamShutdown.NeverEndsByItself | udt_bench_mark/udt_stream_client/udt_client.cpp:207-222 | without such an error it is running and its loop has not ended |
| StreamShutdown.StopsWithinARound | udt_bench_mark/udt_stream_client/udt_client.cpp:214-222 | once told to stop, its loop ends after nine of its own steps at the most, whatever the channels answer |
| StreamShutdown.ClosedIsFinal | udt_bench_mark/udt_stream_client/udt_client.cpp:214-226 | after that it takes no step, and neither sends nor hands over a byte |
| StreamDrain.RunMeasure | udt_bench_mark/udt_stream_client/udt_client.cpp:207-222 | exact balance of every run: bytes moved, measure lost, four moves per submitted byte, one per duplicated byte |
| StreamDrain.TransfersAreBounded | udt_bench_mark/udt_stream_client/udt_client.cpp:207-222 | once the producer stops, all further transfers together move no more bytes than the measure, when the server's sends are whole |
| StreamDrain.PartialSendsHaveNoBound | udt_bench_mark/udt_stream_server/udt_server.cpp:201-236 | otherwise there is no bound: from every live state with two bytes in the server's buffer, runs without new messages and with partial sends move any number of bytes |
| StreamDrain.OneMessageHasNoBound | udt_bench_mark/udt_stream_server/udt_server.cpp:201-236 | every single message of two bytes or more leads to such a state |
| StreamDrain.NothingLeft | udt_bench_mark/udt_stream_client/main.cpp:102-115 | with nothing left to move, consumed is submitted iff no server send was partial, and for messages of the framing size exactly the submitted ones were handled with no residue iff no server send was partial |
| StreamDrain.Progress | udt_bench_mark/udt_stream_client/udt_client.cpp:214-222 | while bytes are left and the client runs, some schedule without new messages moves one |
| StreamDrain.Drain | udt_bench_mark/udt_stream_client/udt_client.cpp:214-222 | from every such state some schedule leaves nothing to move |
| StreamDrain.EverythingCanArrive | udt_bench_mark/udt_stream_server/udt_server.cpp:171-209 | every run of a live client extends to one that has handled exactly the submitted messages |
| StreamFairness.TransfersDrain | udt_bench_mark/udt_stream_client/udt_client.cpp:207-222 | any run in segments, each moving a byte while one is left, leaves nothing to move after as many segments as the measure |
| StreamFairness.FairMoves | udt_bench_mark/udt_stream_client/udt_client.cpp:207-222 | five turns of the client's thread and two of the server's, in any order, move a byte while one is left, when the channels grant what they can |
| StreamFairness.FairRunsDeliver | udt_bench_mark/udt_stream_server/udt_server.cpp:171-209 | after any run of a live client, every fair continuation of as many segments as the measure has handled exactly the submitted messages |
| StreamFairness.FairRunsExist | udt_bench_mark/udt_stream_client/udt_client.cpp:207-222 | from every live state there are fair runs of any length |
| StreamRefinement.StepRefines | udt_bench_mark/udt_stream_client/main.cpp:102-115 | a submission is a put, a receive delivers zero or more messages, all other steps stutter |
| StreamRefinement.StreamIsFifo | udt_bench_mark/udt_stream_client/main.cpp:102-115 | every run with equal-size messages and whole server sends is a run of the message FIFO with the same puts and deliveries |
| ThreadsafeQueue.Queue.Push | udt_bench_mark/udt_dgram_client/threadsafe_queue.hpp:25-30 | appends one value, as the sequential queue does, and keeps the FIFO history |
| ThreadsafeQueue.Queue.TryPop | udt_bench_mark/udt_dgram_client/threadsafe_queue.hpp:46-63 | gives and removes the oldest value, or reports that there is none, with the answer of the sequential queue |
| ThreadsafeQueue.Queue.GrabAll | udt_bench_mark/udt_dgram_client/threadsafe_queue.hpp:75-85 | gives the whole queue and leaves it empty, as the sequential queue does |
| QueueLinearisation.Linearisable | udt_bench_mark/udt_dgram_client/threadsafe_queue.hpp:20-90 | under every interleaving, the calls that have come back and the one about to, in order, are calls of a sequential queue with the same answers, and that queue then holds what this one holds |
| QueueLinearisation.OwnCalls | udt_bench_mark/udt_dgram_client/threadsafe_queue.hpp:20-90 | on every run, the calls of a thread that have come back are the calls it made, in order, but for the one in which it still is |
| QueueMonitor.RemovalsAreFifo | udt_bench_mark/udt_dgram_client/threadsafe_queue.hpp:25-85 | under every interleaving, values removed in lock order followed by the contents are the values pushed in lock order |
| QueueMonitor.EachValueOnce | udt_bench_mark/udt_dgram_client/threadsafe_queue.hpp:31-85 | two removals are disjoint stretches of the pushed values |
| QueueMonitor.NotifyWakesOne | udt_bench_mark/udt_dgram_client/threadsafe_queue.hpp:25-30 | a push wakes exactly one sleeper, if there is one |
| QueueMonitor.NoLostWakeup | udt_bench_mark/udt_dgram_client/threadsafe_queue.hpp:25-45 | while a thread sleeps un-notified, the queue is no longer than the woken threads plus what the mutex owner still owes |
| QueueMonitor.WaiterCanPop | udt_bench_mark/udt_dgram_client/threadsafe_queue.hpp:31-37 | with the mutex free, a value queued and a sleeper, a woken thread exists that takes the oldest value next |
| QueueMonitor.ReachablePops | udt_bench_mark/udt_dgram_client/threadsafe_queue.hpp:25-85 | from every reachable state with a value and a sleeper, at most five steps without a new call hand a value over |
| DgramSend.DrainSendsPrefix | udt_bench_mark/udt_dgram_client/udt_client.cpp:126-147 | the send loop sends exactly the messages before the first that is not accepted as a whole and keeps the rest; that one send gives the code, the remaining script, and a truncated copy if it was accepted in part |
| DgramSend.ArrivingUnchanged | udt_bench_mark/udt_dgram_client/udt_client.cpp:185-219 | messages arrive unchanged iff each is non-empty and at most 102400 bytes long |
| DgramClient.Client.SendMsg | udt_bench_mark/udt_dgram_client/udt_client.cpp:52-55 | pushes one message onto the locked queue |
| DgramClient.Client.TryGrabMsg | udt_bench_mark/udt_dgram_client/udt_client.cpp:121-124 | the private buffer becomes the queue, the queue becomes empty |
| DgramClient.Client.DoSendOneMsg | udt_bench_mark/udt_dgram_client/udt_client.cpp:149-178 | the three return codes, what enters the channel, and when the client stops |
| DgramClient.Client.TrySendMsg | udt_bench_mark/udt_dgram_client/udt_client.cpp:126-147 | terminates with the buffer, wire and flag that the script determines |
| DgramClient.Client.DoRecvMsg | udt_bench_mark/udt_dgram_client/udt_client.cpp:180-220 | calls back on a non-empty message; goes on after every message, empty ones too |
| DgramClient.Client.TryRecvMsg | udt_bench_mark/udt_dgram_client/udt_client.cpp:239-247 | terminates and delivers every non-empty message before the first refusal or error |
| DgramClient.DeliversEverything | udt_bench_mark/udt_dgram_client/udt_client.cpp:180-247 | with only messages in the channel, exactly the arriving ones are delivered, in order |
| DgramClient.DeliveryStops | udt_bench_mark/udt_dgram_client/udt_client.cpp:180-247 | in general, those before the first refusal or error, the results after it are left, and the client stops iff it was a fatal error |
| DgramClient.Client.RunOnce | udt_bench_mark/udt_dgram_client/udt_client.cpp:256-267 | one round, with both scripts: grab into an empty buffer, send, receive |
| DgramServer.Connection.DoRecvMsg | udt_bench_mark/udt_dgram_server/udt_server.cpp:261-295 | the message, and whether to go on, for each of the four kinds of result |
| DgramServer.Connection.TryRecvMsg | udt_bench_mark/udt_dgram_server/udt_server.cpp:195-205 | terminates and queues the messages received before the loop stops |
| DgramServer.CollectsUpToEmpty | udt_bench_mark/udt_dgram_server/udt_server.cpp:195-205 | the arriving messages before the first empty one are queued, in order |
| DgramServer.CollectionStops | udt_bench_mark/udt_dgram_server/udt_server.cpp:195-205 | in general, the messages before the first empty message, refusal or fatal error; other errors are passed over |
| DgramServer.Connection.TrySendMsg | udt_bench_mark/udt_dgram_server/udt_server.cpp:207-228 | terminates with the queue and wire that the script determines |
| DgramServer.Connection.WorkOnce | udt_bench_mark/udt_dgram_server/udt_server.cpp:177-190 | one round of the worker, with both scripts: receive, then send |
| DgramPipeline.EndToEnd | udt_bench_mark/udt_dgram_client/udt_client.cpp:121-147 | in every reachable state, also after the client has stopped, delivered followed by in transit is what was submitted, as it arrives, iff no send was accepted in part |
| DgramPipeline.Surplus | udt_bench_mark/udt_dgram_server/udt_server.cpp:207-259 | otherwise there is exactly one message too many for every partial send |
| DgramPipeline.DeliversSubmitted | udt_bench_mark/udt_dgram_server/udt_server.cpp:177-228 | non-empty messages up to 102400 bytes: submitted is delivered followed by in transit |
| DgramPipeline.DeliveredIsSubmittedIff | udt_bench_mark/udt_dgram_client/udt_client.cpp:180-220 | once drained, delivered is submitted iff no message was empty or too long |
| DgramPipeline.BacklogBound | udt_bench_mark/udt_dgram_client/main.cpp:134-148 | under every schedule at most three messages in the queue and three in the buffer |
| DgramPipeline.BacklogIsTight | udt_bench_mark/udt_dgram_client/main.cpp:134-148 | six waiting messages are reached |
| DgramRounds.ClientSendLoop | udt_bench_mark/udt_dgram_client/udt_client.cpp:126-147 | for every script, the result of the client's send loop is the state reached by its steps, truncated copies counted |
| DgramRounds.ClientRecvLoop | udt_bench_mark/udt_dgram_client/udt_client.cpp:239-247 | for every script the channel can follow, so is the result of the client's receive loop, whether it ends with no data, a passing or a fatal error |
| DgramRounds.ClientEmptiesChannel | udt_bench_mark/udt_dgram_client/udt_client.cpp:239-247 | in particular it can empty the channel and has then delivered exactly the arriving messages |
| DgramRounds.ClientRound | udt_bench_mark/udt_dgram_client/udt_client.cpp:256-267 | a whole round of Run |
| DgramRounds.ServerRecvLoop | udt_bench_mark/udt_dgram_server/udt_server.cpp:195-205 | the server's receive loop, which stops at an empty message and goes on after a passing error |
| DgramRounds.ServerSendLoop | udt_bench_mark/udt_dgram_server/udt_server.cpp:207-228 | the server's send loop |
| DgramRounds.ServerRound | udt_bench_mark/udt_dgram_server/udt_server.cpp:177-190 | a whole round of the worker |
| DgramShutdown.StopsOnErrors | udt_bench_mark/udt_dgram_client/udt_client.cpp:149-220 | on every run, the client has been told to stop iff the run contains a failed or partial send or a fatal error of a recvmsg |
| DgramShutdown.NeverEndsByItself | udt_bench_mark/udt_dgram_client/udt_client.cpp:249-267 | without such an error it is running and its loop has not ended |
| DgramShutdown.StopsWithinARound | udt_bench_mark/udt_dgram_client/udt_client.cpp:256-267 | once told to stop, its loop ends at its next test: after four of its own steps besides those that move a message |
| DgramShutdown.ClosedIsFinal | udt_bench_mark/udt_dgram_client/udt_client.cpp:256-271 | after that it takes no step and delivers nothing |
| DgramDrain.TransfersAreBounded | udt_bench_mark/udt_dgram_client/udt_client.cpp:249-267 | once the producer stops, all further transfers together take out no more messages than the measure |
| DgramDrain.Progress | udt_bench_mark/udt_dgram_client/udt_client.cpp:256-267 | while any stage holds a message and the client runs, some schedule without new messages lowers the measure |
| DgramDrain.EverythingCanArrive | udt_bench_mark/udt_dgram_server/udt_server.cpp:177-228 | every run of a live client extends to one that has delivered exactly the arriving messages |
| DgramFairness.TransfersDrain | udt_bench_mark/udt_dgram_client/udt_client.cpp:249-267 | any run in segments, each moving a message while one is left, leaves nothing to move after as many segments as the measure |
| DgramFairness.FairMoves | udt_bench_mark/udt_dgram_client/udt_client.cpp:249-267 | four turns of the client's thread and two of the server's, in any order, move a message while one is left, when the channels grant what they can |
| DgramFairness.FairRunsDeliver | udt_bench_mark/udt_dgram_server/udt_server.cpp:177-228 | after any run of a live client, every fair continuation of as many segments as the measure has delivered exactly the arriving messages |
| DgramFairness.FairRunsExist | udt_bench_mark/udt_dgram_client/udt_client.cpp:249-267 | from every live state there are fair runs of any length |
| DgramFairness.PassingErrorsStall | udt_bench_mark/udt_dgram_server/udt_server.cpp:195-205 | a server that gets one non-fatal error after another stays in its receive loop and changes nothing |
| DgramRefinement.StepRefines | udt_bench_mark/udt_dgram_client/udt_client.cpp:249-267 | a push is a put, a delivery a delivery, every other step stutters |
| DgramRefinement.DgramIsFifo | udt_bench_mark/udt_dgram_client/udt_client.cpp:249-267 | every run without partial sends is a run of the message FIFO with the same puts and deliveries |
| TestStr.TestStr | udt_bench_mark/udt_dgram_client/test_util.cpp:4-58 | the loops compute the string of the specification function |
| TestStr.LengthLaw | udt_bench_mark/udt_dgram_client/test_util.cpp:12-55 | the length is n to n plus the digits beyond seven, and n below 10^7 |
| TestStr.ExactLengthIff | udt_bench_mark/udt_dgram_client/test_util.cpp:30-55 | for every n, the length is n iff the prefix fills it, or n < 10^7, or n lies within ten of a block boundary |
| TestStr.TenMillionIsMissed | udt_bench_mark/udt_dgram_client/test_util.cpp:34-43 | at n = 10^7 the string is one too long |
| TestStr.IsTiled | udt_bench_mark/udt_dgram_client/test_util.cpp:30-54 | for every n of 20 or more: the prefix, a colon and "=" up to ten characters, then blocks one after the other, each with its position in decimal, however many digits, then digits |
| TestStr.IsRuler | udt_bench_mark/udt_dgram_client/test_util.cpp:30-54 | below 10^7: the prefix, a colon and "=" up to ten characters; each full block is "(", the position of its last character in decimal, "_", fill, ")"; every fill and tail character is 0x30 plus its position modulo ten |
| TestStr.IsRulerIff | udt_bench_mark/udt_dgram_client/test_util.cpp:30-54 | from 20 characters on, the blocks show their positions iff n < 10^7 |
| TestStr.ShortStrings | udt_bench_mark/udt_dgram_client/test_util.cpp:10-25 | below 20 characters, or filled by the prefix: prefix, colon, then 0x30 plus the position modulo ten, cut to length |
| Timestamp.RoundTrip | udt_bench_mark/udt_dgram_client/main.cpp:20-39 | the clock of a message is read back iff it fits a long long |
| Timestamp.MessageText | udt_bench_mark/udt_dgram_client/main.cpp:20-27 | below 10^7 the whole text of a message: the clock, an underscore, a colon, and the ruler |
| Timestamp.TimeIsBeforeUnderscore | udt_bench_mark/udt_dgram_client/main.cpp:29-39 | of any message, the number before the first underscore as uint64_t, and 0 without one |
| Timestamp.AtollIs | udt_bench_mark/udt_dgram_client/main.cpp:37-38 | white space, a sign or none, digits, any rest: the number with its sign, saturated to a long long |
| Timestamp.AtollOfNothing | udt_bench_mark/udt_dgram_client/main.cpp:37-38 | without a digit after white space and sign it is 0 |
| Timestamp.UnderscoreFollows | udt_bench_mark/udt_dgram_client/main.cpp:19-27 | the first underscore comes right after the printed clock |
| Timestamp.NoRoomForClock | udt_bench_mark/udt_dgram_client/main.cpp:29-36 | a message of just the digits reads as time 0 |
| Timestamp.MessageSize | udt_bench_mark/udt_dgram_client/main.cpp:20-27 | the message has the requested size iff its test string has |
| LatencyStats.Recorder.HandleOneMsg | udt_bench_mark/udt_stream_client/main.cpp:53-100 | the state after one message, with the loops for sums and maximum |
| LatencyStats.LogAndWindowsAgree | udt_bench_mark/udt_stream_client/main.cpp:53-100 | on every run: reported windows and the current one are the log, sizes are ten and count mod 10, flushed and pending bytes are the bytes handled |
| LatencyStats.ReportsSaid | udt_bench_mark/udt_stream_client/main.cpp:73-97 | on every run, line i is about intervals 10 i to 10 i + 9 and the log up to there: their maximum, the int sum divided by ten towards zero, and the mean that C computes from the int sum and a size_t |
| LatencyStats.RatesTold | udt_bench_mark/udt_stream_client/main.cpp:88-93 | on every run, line i has a rate iff more than 10000 ms have passed since the last line with one; it is the floor of ten times the bytes handled since then by the time passed, modulo 2^64 as in C |
| LatencyStats.ReportsTruthful | udt_bench_mark/udt_stream_client/main.cpp:73-97 | while the sum fits an int, every line gives the maximum and the floor means of its ten intervals and of the log so far, none above its maximum |
| LatencyStats.IntSumWraps | udt_bench_mark/udt_stream_client/main.cpp:75-83 | the int sum of any intervals is the true sum modulo 2^32 |
| LatencyStats.IntSumIsSum | udt_bench_mark/udt_stream_client/main.cpp:75-83 | the int sum of non-negative intervals is the true sum iff that is below 2^31 |
| LatencyStats.LatencyIsDelay | udt_bench_mark/udt_stream_client/main.cpp:55-66 | the stored interval is the time that passed modulo 2^32, and that time itself iff it fits a 32-bit int |
| Benchmark.StreamClocks | udt_bench_mark/udt_stream_client/main.cpp:53-56 | the k-th message handled over the stream carries the k-th clock, for any chunking and interleaving with whole server sends |
| Benchmark.DgramClocks | udt_bench_mark/udt_dgram_client/main.cpp:52-56 | the k-th datagram delivered carries the k-th clock when no send is partial |
| Benchmark.HandledIsMeasured | udt_bench_mark/udt_stream_client/main.cpp:53-100 | for any list of handled messages, interval k in the log is the time from making to handling message k iff that time fits an int, and flushed and pending bytes are count times size |
| Benchmark.StreamLatencies | udt_bench_mark/udt_stream_client/main.cpp:53-115 | so under every schedule with whole server sends the stream client logs, in order, the elapsed times of the messages submitted, each exactly iff it fits an int |
| Benchmark.DgramLatencies | udt_bench_mark/udt_dgram_client/main.cpp:52-99 | and the datagram client those of its messages, when no send is partial |
| Benchmark.StreamPrints | udt_bench_mark/udt_stream_client/main.cpp:73-97 | every line of the stream client has the rate of the submitted messages handled since the last rate; and while their times are non-negative and sum up to less than 2^31, line i is the maximum and the floor mean of times 10 i to 10 i + 9 and the floor mean of all up to there |
| Benchmark.DgramPrints | udt_bench_mark/udt_dgram_client/main.cpp:52-99 | and so are the lines of the datagram client |
| Benchmark.PartialSendCorrupts | udt_bench_mark/udt_stream_server/udt_server.cpp:230-234 | for every clock and size with room for the clock, a run framed by that size whose client handles a message that was not submitted |
| Benchmark.PartialSendFakesClock | udt_bench_mark/udt_stream_server/udt_server.cpp:230-234 | for every positive clock of up to 17 digits, a run whose client reads a clock of more than twice the real one |

## Left out

- UDT: sockets, options, bind, listen, accept, connect and close; only the channel contract is kept. That `recvmsg` drops what does not fit its buffer is part of that contract.
- Run, WorkThread and main as endless loops: their positions are program counters of the transition systems, one round of each is a method (`RunOnce`, `WorkOnce`).
- Memory-level races on the stream client's unlocked `send_msg_buf_`: every string operation is one atomic step.
- Time: clocks are arbitrary inputs; sleeps do nothing. Fairness is a number of turns in finite segments of a run, not a property of infinite runs.
- StreamPipeline.EmittedMessages: whole server sends are sufficient, not necessary, for the prefix in every state, because duplicates may still be under way or equal the bytes they displace; for a drained pipeline `StreamDrain.NothingLeft` gives the exact condition.
- A test_str_size of 0 (the reframing loop would not end) and sizes below the digits of the clock (the size wraps around) are excluded by preconditions.
- LatencyStats.Recorder.HandleOneMsg: byte counters are unbounded, a sum that overflows an int wraps around, the rate is kept in tenths as an integer, and `get_cur_time_str` is not modelled.
- `atoll` outside the range of long long saturates, as the common C library does; the C standard leaves it undefined.
- The server's `udt_running_` and the accept loop; `grab_all2`, `RecvMsg`, `udt_eid_`; console output, arguments, signals; the copies of `test_util.cpp` and `threadsafe_queue.hpp`.
