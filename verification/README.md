# Verification of mesytec-mcpd

mesytec-mcpd reads neutron data from MCPD and MDLL modules over UDP. A readout
thread receives packets, writes them to a listfile and hands the valid ones to
consumers: per source statistics and histograms, or a tap that feeds a Python
queue. A request/response protocol configures the modules, a converter turns
`.mdat` files into listfiles, and the GUI keeps a device setup as JSON.

This project models that data path and protocol code in Dafny and proves
properties of it. `dafny verify dfyconfig.toml` checks everything.

* **Concurrency.** `BoundedQueue` (util::Queue), `WorkerLifecycle`
  (ReadoutWorker across its two threads) and `GilProtocol` (WorkerBase and
  PyQueueTap: the start/stop mutex, the interpreter lock and a queue that can be
  full or shut down) are transition systems whose atomic steps are the locked
  regions of the code, with wait sets, woken threads and notifications still owed
  as explicit state. Their theorems quantify over every interleaving.
  `GilQueues` and `GilCalls` say over whole runs what start() and stop() achieve, which
  queue a worker gets, and why a packet is kept, dropped or refused. `PyTap` is the tap
  and its queue as objects, for the order of the packets.
* **Readout.** `ReadoutWorker` is the packet loop as a class, run against every
  behaviour of its source, listfile and consumers. `Replay` compares a live run
  with the replay of the listfile it wrote.
* **Statistics and histograms.** `Stats`, `Histograms`, `Histogrammers` and `Daq`
  are the classes that update maps and arrays in place. `LossAccounting` says what
  the counters mean after a whole run, `Events` is the slow event decoder, and
  `Counting` and `Folds` hold the mathematics they share.
* **Commands.** `Checksums`, `Commands` and `Transactions`: request packets, their
  XOR checksum, the five-attempt retry loop against any network, and the id search.
* **Formats.** `Mdat` is the converter's loop, which reads too much and seeks back.
* **Setup.** `Setup` is the setup of the GUI, its normal form and its JSON tree.

In the classes, ghost fields keep the history (packets delivered, events filled)
and `Valid()` ties the real fields to it, so each method says what it did to the
history and lemmas say what that means for the fields. Packets are byte images of
the packed structs on a little endian machine.

## Findings

Properties that hold only under a condition; each is proved together with the
exact condition, and where it matters with an input for which it fails.

* Replay can deliver packets that the live run rejected, because a listfile record
  always has the full size: `Replay.SameDeliveriesIff` is the exact condition,
  `Replay.EmptyDatagramIsReplayed` an instance.
* The vector form of `make_command_packet` cuts the payload size to 16 bits, so a
  payload of 65536 words or more can be shortened silently:
  `Commands.PayloadIsWholeIff`.
* The checksum notices a change of any one word, except some changes of
  `bufferLength` itself: `Commands.LengthChangeMissedIff`.
* A packet returns from its word form unchanged exactly when nothing follows its
  `bufferLength` words: `Commands.PacketRoundTripIff`.
* An accepted response may end in bytes of an earlier, refused datagram. What a
  caller reads of it is new exactly as far as the accepted datagram reaches
  (`Transactions.TailMayBeStale`). Among the datagrams with which a version is
  reported at all, the version is new exactly for those that contain its words
  (`Transactions.VersionIsFreshIff`), and
  `Transactions.StaleVersion` is an exchange that reports the data of the answer to
  another command as the version.
* The byte swap loop of `mdat2mcpdlst.cc` counts bytes where `dataLen` counts words,
  so the last words of every record keep their byte order: `Mdat.WordIsSwappedIff`.
* The read loop of `mdat2mcpdlst.cc` need not end. It runs forever exactly when some
  turn starts where an earlier one did, which shows after as many turns as the file
  has bytes, and two (`Mdat.EndsIff`); `Mdat.ComesBackIff` says which headers send it
  back where. With `headerLength == bufferLength + 25` it writes the same record
  forever (`Mdat.StuckForever`), also behind any mdat header and a sound packet
  (`Mdat.StuckFile`).
* Statistics and histograms are cleared under separate locks, so packets can fall
  between. The neutron counter then differs from the histogram totals by exactly the
  neutrons of these packets (`Daq.Daq.ConsumersDiffer`, `Daq.Daq.ConsumersAgreeIff`);
  `Daq.ClearBetween` is a run in which it does.
* `ReadoutWorker::start()` sets `running_` before it constructs the thread. When that
  throws, `isRunning()` stays true, also after `stop()`; this is the only way
  (`WorkerLifecycle.NothingAfterStop`, `WorkerLifecycle.RunningWithoutThread`).
* Trigger events carry a 21 bit value; the comment at mcpd_core.h:520 says 32 bit.
  The model follows the code.

## Model

| member | source | states |
|---|---|---|
| BoundedQueue.Queue.PushLocked | src/mesytec-mcpd/util/thread_safe_queue.h:38-47 | the locked region appends the item and counts one unfinished task |
| BoundedQueue.Queue.TryPush | src/mesytec-mcpd/util/thread_safe_queue.h:49-59 | refuses exactly when size equals capacity, otherwise appends without counting a task |
| BoundedQueue.Queue.PopLocked | src/mesytec-mcpd/util/thread_safe_queue.h:61-72 | takes the oldest item and nothing else |
| BoundedQueue.Queue.TryPop | src/mesytec-mcpd/util/thread_safe_queue.h:74-85 | takes the oldest item, or reports emptiness and changes nothing |
| BoundedQueue.Queue.TaskDone | src/mesytec-mcpd/util/thread_safe_queue.h:87-94 | throws exactly without unfinished tasks, wakes all joins exactly when the count reaches 0 |
| BoundedQueue.StepConserves | src/mesytec-mcpd/util/thread_safe_queue.h:38-100 | every step of every thread keeps: pushed items = popped items then content, size within capacity, unfinished = pushes minus tasks done |
| BoundedQueue.StepKeepsCovered | src/mesytec-mcpd/util/thread_safe_queue.h:38-85 | every step keeps: while a thread is parked, items or free slots are covered by woken threads and notifications still owed |
| BoundedQueue.QueueInvariant | src/mesytec-mcpd/util/thread_safe_queue.h:38-100 | in every interleaving, spurious wakeups included, conservation holds and no wakeup is lost |
| BoundedQueue.NeverAllParked | src/mesytec-mcpd/util/thread_safe_queue.h:38-85 | with capacity and nobody woken or owing, producers and consumers are never both parked; parked consumers mean empty, parked producers mean full |
| BoundedQueue.WakeupIsOnItsWay | src/mesytec-mcpd/util/thread_safe_queue.h:61-72 | a consumer parked beside items has a woken consumer or an owed notification somewhere |
| BoundedQueue.JoinReturnsWhenDone | src/mesytec-mcpd/util/thread_safe_queue.h:87-100 | join() returns exactly when completed pushes equal successful task_done() calls |
| BoundedQueue.ActsByHistory | src/mesytec-mcpd/util/thread_safe_queue.h:38-85 | in every interleaving push and try_push add their item exactly while fewer than capacity items are pushed and not popped, pop and try_pop take the oldest such item, and nothing else adds or takes any |
| BoundedQueue.CanTakeIff | src/mesytec-mcpd/util/thread_safe_queue.h:38-100 | exactly which step each thread can take next; a parked thread only a spurious wakeup |
| PyTap.PyQueueTap.Consume | src/mesytec-mcpd/mcpd_py_lib.cc:35-58 | the packet is kept, dropped or refused as the queue decides, has to wait, or is refused by an exception that is passed on; kept packets stand in the queue's history in the order given, dropped counts the drops, and after one refusal all are refused |
| PyTap.PyQueueTap.OthersMayAct | src/mesytec-mcpd/mcpd_py_lib.cc:119-123 | get() and shutdown() by others keep that |
| PyTap.PyQueueTap.Finished | src/mesytec-mcpd/mcpd_py_lib.cc:60-64 | shuts the queue down and leaves its content to the readers |
| PyTap.PyQueueTap.NothingIsLost | src/mesytec-mcpd/mcpd_py_lib.cc:35-58 | given = taken out + still in the queue + dropped + refused |
| GilProtocol.InitInv | src/mesytec-mcpd/mcpd_py_lib.cc:66-70 | a new worker satisfies the lock, call and queue invariants |
| GilProtocol.CallerStepKeeps | src/mesytec-mcpd/mcpd_py_lib.cc:72-134 | every step inside start(), stop() and queries keeps the invariant |
| GilProtocol.WorkerStepKeeps | src/mesytec-mcpd/mcpd_py_lib.cc:35-64 | every step of the worker thread, inside consume() and finished() too, keeps the invariant |
| GilProtocol.NextKeeps | src/mesytec-mcpd/mcpd_py_lib.cc:18-134 | so does every step of any thread, Python code included |
| GilProtocol.StepsKeep | src/mesytec-mcpd/mcpd_py_lib.cc:18-134 | the invariant holds in every state of every run |
| GilProtocol.NobodyWaitsWithGil | src/mesytec-mcpd/mcpd_py_lib.cc:14-26 | lock order: no caller that waits for the mutex, the GIL or the worker holds the GIL, and the worker holds it only inside put(), what() and shutdown() |
| GilProtocol.HolderMoves | src/mesytec-mcpd/mcpd_py_lib.cc:35-64 | whoever holds the GIL can give it up in its next step |
| GilProtocol.ShutWorkerMoves | src/mesytec-mcpd/mcpd_py_lib.cc:117-123 | a worker whose queue is shut down is never blocked in put() |
| GilProtocol.OwnerMoves | src/mesytec-mcpd/mcpd_py_lib.cc:78-127 | the holder of the mutex can step, or else the GIL holder or the worker it waits for, and no other |
| GilProtocol.NoDeadlock | src/mesytec-mcpd/mcpd_py_lib.cc:78-134 | in every reachable state the next step in what a call under way waits for, along the chain caller, mutex holder, worker, GIL holder, is possible without anybody else's help |
| GilProtocol.WorkerEffect | src/mesytec-mcpd/mcpd_py_lib.cc:35-64 | each step of a worker told to quit, with its queue shut, lowers the rank |
| GilProtocol.CallerEffect | src/mesytec-mcpd/mcpd_py_lib.cc:78-127 | no step of a call gives a packet to the tap, only the launch in start() makes a worker run, and each step brings its call nearer the end: at most eight of its own |
| GilProtocol.StopStep | src/mesytec-mcpd/mcpd_py_lib.cc:108-127 | while stop() waits, no step raises the rank of the worker and each of the worker's own lowers it |
| GilProtocol.StopIsBounded | src/mesytec-mcpd/mcpd_py_lib.cc:108-127 | in every run stop() waits for at most eight worker steps, however full the queue is and also when put() fails |
| GilProtocol.StopProgresses | src/mesytec-mcpd/mcpd_py_lib.cc:108-127 | while stop() waits the join can return, the worker can move, or Python code can release the GIL |
| GilProtocol.QuietUntilLaunch | src/mesytec-mcpd/mcpd_py_lib.cc:78-127 | after the worker has ended no packet is put, dropped or refused until the next launch |
| GilProtocol.ShutQueuesOnlyShrink | src/mesytec-mcpd/mcpd_py_lib.cc:60-64 | a queue that was shut down stays shut and never grows again |
| GilProtocol.EndedQueueIsShut | src/mesytec-mcpd/mcpd_py_lib.cc:60-64 | an ended worker leaves its queue shut |
| GilProtocol.PacketsAreAccountedFor | src/mesytec-mcpd/mcpd_py_lib.cc:35-58 | in every run each packet for which consume() was called is kept, dropped or refused exactly once or still in hand; a blocking tap drops nothing, no queue outgrows its capacity |
| GilProtocol.ReadInOrder | src/mesytec-mcpd/mcpd_py_lib.cc:35-58 | in every run Python code reads the kept packets of a queue in the order given, from the first on without a gap, and none is lost |
| GilProtocol.LogsOnlyGrow | src/mesytec-mcpd/mcpd_py_lib.cc:35-64 | in every run the packets given to a tap, their fates and those read are only ever continued |
| GilQueues.NewWorkerNewQueue | src/mesytec-mcpd/mcpd_py_lib.cc:91-105 | in every run a worker that starts to run is not told to quit, and its queue is the newest one: open, empty, without calls or history, and never used by a worker before |
| GilQueues.FatesHaveReasons | src/mesytec-mcpd/mcpd_py_lib.cc:35-58 | in every run a packet is kept only by an open queue with room, dropped only by a non-blocking tap at a full one, and refused only by a queue shut down before or after a failed put() |
| GilQueues.ShutsHaveReasons | src/mesytec-mcpd/mcpd_py_lib.cc:60-123 | only stop() and an ending worker shut a queue down, and only an immediate stop() empties it |
| GilCalls.StopLeavesNoWorker | src/mesytec-mcpd/mcpd_py_lib.cc:108-127 | in every run stop() ends only without a worker, or with one that was told to quit, has ended and left its queue shut |
| GilCalls.StartLaunchesOrDeclines | src/mesytec-mcpd/mcpd_py_lib.cc:78-106 | in every run start() declines without touching anything, always so while a worker runs, or leaves a running worker that is not told to quit |
| GilCalls.StartCanGoOn | src/mesytec-mcpd/mcpd_py_lib.cc:83-89 | without a running worker start() need not decline |
| GilCalls.GilIsGivenBack | src/mesytec-mcpd/mcpd_py_lib.cc:18-26 | in every run a caller holds the GIL after a call exactly if it held it before |
| GilCalls.ErrorHasReason | src/mesytec-mcpd/mcpd_py_lib.cc:47-57 | an exception of put() is stored exactly when it was logged, ends the loop, and leaves only by a query or with its worker |
| GilCalls.GetCanMove | src/mesytec-mcpd/mcpd_py_lib.cc:60-64 | the oldest packet of a queue can always be read once the GIL is free, also after a shutdown |
| GilCalls.PutCanMove | src/mesytec-mcpd/mcpd_py_lib.cc:35-45 | the worker can pass a packet it has read into an open queue with room |
| GilCalls.BlockedPutGoesOn | src/mesytec-mcpd/mcpd_py_lib.cc:42-45 | a put() that waits at a full queue can finish as soon as one packet was read |
| GilCalls.PutWithoutRoom | src/mesytec-mcpd/mcpd_py_lib.cc:46-57 | at a full queue put() waits or drops the packet, depending on the kind of tap; at a shut one it refuses it and the tap gives up |
| GilCalls.GivenUpTap | src/mesytec-mcpd/mcpd_py_lib.cc:37-38 | a tap that has seen ShutDown refuses packets at once, without the GIL, and never puts again |
| GilCalls.QueryCanMove | src/mesytec-mcpd/mcpd_py_lib.cc:129-149 | rethrowException() can take a stored exception away, other queries leave it |
| WorkerLifecycle.ControlKeepsInv | src/mesytec-mcpd/readout_worker.cc:23-71 | start(), also when it fails to start the thread, stop() and rethrowException() keep the invariant |
| WorkerLifecycle.LoopKeepsInv | src/mesytec-mcpd/readout_worker.cc:79-148 | every step of the loop thread keeps the invariant, and lowers the rank once quit is set |
| WorkerLifecycle.InvHolds | src/mesytec-mcpd/readout_worker.cc:23-148 | the invariant holds in every state of every interleaving |
| WorkerLifecycle.FinishedOnceAndLast | src/mesytec-mcpd/readout_worker.cc:135-147 | once isRunning() is false after a start, finished() was called once for every consumer, last, and nothing follows |
| WorkerLifecycle.NothingAfterStop | src/mesytec-mcpd/readout_worker.cc:23-54 | after stop() returned there is no further write, delivery, finished() call or run of the loop, and isRunning() is false unless the thread could not be started |
| WorkerLifecycle.RunningWithoutThread | src/mesytec-mcpd/readout_worker.cc:23-30 | a worker whose thread could not be started is running for good |
| WorkerLifecycle.AtMostOnce | src/mesytec-mcpd/readout_worker.cc:23-30 | the loop runs at most once and a stored exception is rethrown at most once |
| WorkerLifecycle.JoinMakesProgress | src/mesytec-mcpd/readout_worker.cc:32-37 | while stop() joins, the loop thread can move and only gets closer to its exit |
| WorkerLifecycle.JoinIsBounded | src/mesytec-mcpd/readout_worker.cc:32-37 | stop() waits for at most 2 * consumers + 9 steps of the loop thread |
| WorkerLifecycle.StartCanMove | src/mesytec-mcpd/readout_worker.cc:23-30 | start() goes through when there is no thread and the source is still there |
| WorkerLifecycle.StopCanMove | src/mesytec-mcpd/readout_worker.cc:32-54 | stop() goes through between calls once the loop has exited; it sets the quit flag and drops the source |
| WorkerLifecycle.PacketReachesAll | src/mesytec-mcpd/readout_worker.cc:85-126 | a packet can be read, written, counted and given to every consumer in order, after which the loop goes on |
| ReadoutWorker.ReadoutWorker.Loop | src/mesytec-mcpd/readout_worker.cc:79-148 | for every sequence of read results, failures and quits: listfile, deliveries, all counters, all their earlier values and the finished() calls are functions of the packets before the one that ended the loop, and of how far that got; a failed write may leave the file cut anywhere before its record's end |
| ReadoutWorker.EndsAtTheFirst | src/mesytec-mcpd/readout_worker.cc:85-133 | the loop ends exactly at the first quit flag, end of data, failed read, failed write or exception of a consumer that sees the packet; the last three are stored as an exception |
| ReadoutWorker.ReceiveWhole | src/mesytec-mcpd/readout_worker.cc:79-148 | a run in which modules send datagrams with as many bytes as they claim delivers every one of them to every consumer, in order, and counts none as invalid |
| ReadoutWorker.ReadoutWorker.OnePass | src/mesytec-mcpd/readout_worker.cc:85-126 | one pass extends the listfile, counters, snapshots and deliveries by its packet, or ends the loop; after a throw they show how far the packet got |
| ReadoutWorker.ReadoutWorker.OnePacket | src/mesytec-mcpd/readout_worker.cc:99-125 | the same for one packet |
| ReadoutWorker.ReadoutWorker.WriteAndCount | src/mesytec-mcpd/readout_worker.cc:99-111 | writes before counting and counts all at once, so every snapshot has listfileBytes = 1472 * packets and invalidPackets <= packets |
| ReadoutWorker.ReadoutWorker.Deliver | src/mesytec-mcpd/readout_worker.cc:121-125 | every consumer up to the one that throws sees the packet, the later ones do not |
| ReadoutWorker.ReadoutWorker.Finish | src/mesytec-mcpd/readout_worker.cc:135-147 | finished() once for each consumer, then not running |
| ReadoutWorker.FailedWriteKeepsRecords | src/mesytec-mcpd/packet_io.cc:160-164 | the complete records of a file after a failed write are the first of the packets counted |
| ReadoutWorker.RecordAndReplay | src/mesytec-mcpd/readout_worker.cc:79-148 | the loop run live and run again on the listfile it wrote: the replay delivers the valid complete records, and the consumers of both see the same packets exactly when none was merely too short |
| Packets.ValidEventsInBounds | src/mesytec-mcpd/mcpd_core.h:480-502 | in packets that pass the length checks every event lies inside the 715 data words and get_event() throws exactly behind the last one |
| Packets.EventCountOfAny | src/mesytec-mcpd/mcpd_core.h:480-484 | the event count of every packet: the whole events in the data words, and with a negative data length 0 or a huge number near 2^64 |
| Packets.FieldsReadBack | src/mesytec-mcpd/mcpd_core.h:29-57 | a packet laid out field by field reads back as these fields |
| Packets.DatagramIsValidIff | src/mesytec-mcpd/packet_io.cc:44-52 | the received datagrams that are valid, by their size and their words 0 and 2 |
| Packets.WholeDatagramIsValidIff | src/mesytec-mcpd/packet_io.cc:44-52 | a datagram that has as many bytes as it claims is valid, and no proper part of it is |
| Packets.SplitJoin48 | src/mesytec-mcpd/mcpd_core.h:435-458 | joining three words and splitting again gives the words |
| Packets.JoinSplit48 | src/mesytec-mcpd/mcpd_core.h:435-458 | splitting a 48 bit value and joining again gives the value |
| Packets.JoinIsSum | src/mesytec-mcpd/mcpd_core.h:435-443 | the shifts and ors of the code are the sum the model uses |
| Events.FieldsAreQuotients | src/mesytec-mcpd/mcpd_core.h:329-388 | the shift and mask of each field are the quotient and remainder the model uses |
| Events.EncodeUndoesDecode | src/mesytec-mcpd/mcpd_core.h:546-592 | decoded fields fit their widths and re-encode to the same 48 bits, for all three layouts |
| Events.DecodeUndoesEncode | src/mesytec-mcpd/mcpd_core.h:546-592 | every body that fits its layout is decoded from its own encoding: no two fields overlap |
| Events.Layouts | src/mesytec-mcpd/mcpd_core.h:546-592 | the bit positions of the fields in the three event formats |
| Events.WordsSurviveDecoding | src/mesytec-mcpd/mcpd_core.h:546-597 | decode_event on a valid packet succeeds, gives the words back and a full timestamp below 2^48 + 2^19 |
| Events.BodiesAreDecoded | src/mesytec-mcpd/mcpd_core.h:546-597 | the event list used by the histograms is what decode_event returns one by one |
| Stats.CountEvents | src/mesytec-mcpd/source_stats.cc:10-22 | the counting loop finds the triggers of the slow decoder; the other events are its neutrons |
| Stats.SourceStatsCollector.Consume | src/mesytec-mcpd/source_stats.cc:24-46 | exactly the entry of the packet's source changes, by one packet |
| Stats.SourceStatsCollector.GetTotals | src/mesytec-mcpd/source_stats.cc:55-72 | each total is the sum over all sources |
| Stats.SourceStatsCollector.Reset | src/mesytec-mcpd/source_stats.cc:74-79 | zeroes every source, keeps the sources, forgets the buffer number baseline |
| Stats.SourceStatsCollector.Clear | src/mesytec-mcpd/source_stats.cc:81-85 | forgets all sources |
| LossAccounting.GapCountsMissing | src/mesytec-mcpd/source_stats.h:34-44 | the 16 bit gap is the count of missing unbounded numbers for steps of 1 to 0x7fff, a jump for steps back |
| LossAccounting.LossOfNext | src/mesytec-mcpd/source_stats.cc:27-33 | what one more packet of a source adds to its loss and jump counters, by the distance of the numbers modulo 2^16 |
| LossAccounting.LossOfSource | src/mesytec-mcpd/source_stats.cc:27-37 | the loss counters of a source depend on its own buffer numbers only, however sources interleave |
| LossAccounting.LossIsExact | src/mesytec-mcpd/source_stats.cc:27-37 | for forward numbers taken mod 2^16, across any number of wraparounds: no jump, and lost = last - first + 1 - packets |
| LossAccounting.NoJumpsIffForward | src/mesytec-mcpd/source_stats.cc:27-37 | no jump is counted exactly when some forward sequence explains the received numbers |
| LossAccounting.TotalsCountEverything | src/mesytec-mcpd/source_stats.cc:38-79 | from zeroed counters, after reset() as after clear(), totals count each delivered packet once; events = neutrons + triggers in total and per source |
| LossAccounting.EntryOfSource | src/mesytec-mcpd/source_stats.cc:35-46 | after any run the entry of a source holds the sums of bytes and events of its own packets, and the last* fields of its last packet |
| LossAccounting.SameSourceIff | src/mesytec-mcpd/source_stats.h:14-32 | two packets belong to the same source exactly with the same sender and device id byte |
| LossAccounting.CountedTypes | src/mesytec-mcpd/source_stats.cc:10-14 | events are counted for buffer types 1 and 2 only, then all there are |
| Histograms.MdllHistograms.Fill | src/mesytec-mcpd/histogrammers.cc:25-47 | after any fills each bin counts the decoded MDLL neutrons with that field value, and no access leaves an array |
| Histograms.MdllHistograms.FillEvent | src/mesytec-mcpd/histogrammers.cc:31-46 | one neutron adds one to its amplitude, x, y and xy bin; a trigger adds nothing |
| Histograms.MdllHistograms.Clear | src/mesytec-mcpd/histogrammers.cc:49-55 | all bins zero, with an empty history |
| Histograms.MdllHistograms.MarginalsAgree | src/mesytec-mcpd/histogrammers.cc:42-45 | each row sum of xy is its y bin and each column sum its x bin |
| Histograms.MdllHistograms.TotalsAgree | src/mesytec-mcpd/histogrammers.cc:25-47 | amplitude, x, y and xy have the same total |
| Histograms.MdllHistograms.BinsCount | src/mesytec-mcpd/histogrammers.cc:25-47 | every bin counts the decoded MDLL neutrons with its value, or its pair of values |
| Histograms.McpdHistograms.Fill | src/mesytec-mcpd/histogrammers.cc:57-78 | after any fills each amplitude and position bin counts the decoded neutrons of its module, channel and value |
| Histograms.McpdHistograms.FillEvent | src/mesytec-mcpd/histogrammers.cc:63-77 | one neutron adds one to one amplitude and one position bin; a trigger adds nothing |
| Histograms.McpdHistograms.Clear | src/mesytec-mcpd/histogrammers.cc:80-84 | all bins zero, with an empty history |
| Histograms.McpdHistograms.SlicesAgree | src/mesytec-mcpd/histogrammers.cc:75-76 | the amplitude and the position slice of every module and channel have equal sums |
| Histograms.McpdHistograms.TotalsAgree | src/mesytec-mcpd/histogrammers.cc:57-78 | both arrays sum up to the number of decoded neutrons |
| Histograms.McpdHistograms.BinsCount | src/mesytec-mcpd/histogrammers.cc:57-78 | every bin counts the decoded neutrons of its module and channel with its value |
| Histograms.IndexIsBijection | src/mesytec-mcpd/histogrammers.h:50-53 | index() reaches every cell of the flat array |
| Histograms.IndexIsInjective | src/mesytec-mcpd/histogrammers.h:50-53 | index() stays inside the array and different triples have different cells |
| Histogrammers.MdllHistogrammer.Consume | src/mesytec-mcpd/histogrammers.h:68-78 | a packet of the matching type extends the history of its source; others leave no trace |
| Histogrammers.MdllHistogrammer.ClearHistograms | src/mesytec-mcpd/histogrammers.h:98-104 | zeroes all histograms and keeps the sources |
| Histogrammers.MdllHistogrammer.Clear | src/mesytec-mcpd/histogrammers.h:106-111 | forgets all sources |
| Histogrammers.McpdHistogrammer.Consume | src/mesytec-mcpd/histogrammers.h:68-78 | the same for MCPD packets |
| Histogrammers.McpdHistogrammer.ClearHistograms | src/mesytec-mcpd/histogrammers.h:98-104 | zeroes all histograms and keeps the sources |
| Histogrammers.McpdHistogrammer.Clear | src/mesytec-mcpd/histogrammers.h:106-111 | forgets all sources |
| Daq.Daq.Deliver | src/mesytec-mcpd/daq.cc:41-48 | the three consumers of the list see the same packet, one after the other |
| Daq.Daq.DeliverToStats | src/mesytec-mcpd/readout_worker.cc:121-125 | the statistics see the packet first, under their own lock |
| Daq.Daq.DeliverToMdll | src/mesytec-mcpd/readout_worker.cc:121-125 | then the MDLL histogrammer, whatever was cleared meanwhile |
| Daq.Daq.DeliverToMcpd | src/mesytec-mcpd/readout_worker.cc:121-125 | then the MCPD histogrammer, whatever was cleared meanwhile |
| Daq.Daq.ResetStats | src/mesytec-mcpd/source_stats.cc:74-79 | a reset at any time, also during a delivery, restarts the statistics and leaves the histograms |
| Daq.Daq.ClearStats | src/mesytec-mcpd/daq.cc:76 | the same for a clear of the statistics |
| Daq.Daq.ZeroMdll | src/mesytec-mcpd/daq.cc:70 | zeroes the MDLL histograms at any time and nothing else |
| Daq.Daq.ZeroMcpd | src/mesytec-mcpd/daq.cc:71 | zeroes the MCPD histograms at any time and nothing else |
| Daq.Daq.ForgetMdll | src/mesytec-mcpd/daq.cc:77 | forgets the MDLL sources at any time and nothing else |
| Daq.Daq.ForgetMcpd | src/mesytec-mcpd/daq.cc:78 | forgets the MCPD sources at any time and nothing else |
| Daq.Daq.ClearHistograms | src/mesytec-mcpd/daq.cc:68-72 | both kinds one after the other; with nothing in between they start over at the same packet |
| Daq.Daq.ClearSources | src/mesytec-mcpd/daq.cc:74-79 | all three one after the other; with nothing in between they start over at the same packet |
| Daq.Daq.ConsumersDiffer | src/mesytec-mcpd/daq.cc:41-79 | for every interleaving of deliveries and clears: neutronEvents of a source exceeds its histogram totals by exactly the neutrons of the packets between the clears |
| Daq.Daq.ConsumersAgreeIff | src/mesytec-mcpd/daq.cc:41-79 | they agree exactly when these neutrons cancel out |
| Daq.Daq.ConsumersAgree | src/mesytec-mcpd/daq.cc:41-79 | so after clears at the same packet, neutronEvents of every source = MDLL amplitude total + MCPD amplitude total |
| Daq.ClearBetween | src/mesytec-mcpd/daq.cc:68-72 | after a packet with neutrons and a clear of the histograms alone the consumers disagree |
| Daq.Daq.TotalsSinceReset | src/mesytec-mcpd/source_stats.cc:55-79 | getTotals() counts every packet since the last reset or clear, and its events are neutrons or triggers |
| Daq.Daq.MdllBinsCount | src/mesytec-mcpd/histogrammers.h:68-78 | after any calls each bin of a source is the number of such neutrons in its MDLL packets since the clear |
| Daq.Daq.McpdBinsCount | src/mesytec-mcpd/histogrammers.h:68-78 | the same for every module, channel and value of an MCPD |
| Daq.NeutronsSplitByType | src/mesytec-mcpd/source_stats.cc:10-22 | a packet weighs as much in the statistics as in both histogrammers together |
| Replay.ReceiveInto | src/mesytec-mcpd/packet_io.cc:87-110 | a reused packet holds the datagram and zeros behind it, nothing stale |
| Replay.ListfilePacketSource.Read | src/mesytec-mcpd/packet_io.cc:121-140 | the next complete record at full size without a sender, or the end of data |
| Replay.ReadAll | src/mesytec-mcpd/packet_io.cc:121-140 | reading to the end delivers the complete records in order |
| Replay.RecordsOfListfile | src/mesytec-mcpd/packet_io.cc:160-164 | reading undoes writing |
| Replay.TruncatedListfile | src/mesytec-mcpd/packet_io.cc:121-134 | a listfile cut anywhere yields exactly floor(length / 1472) records |
| Replay.ReplayAcceptsMore | src/mesytec-mcpd/packet_io.cc:44-52 | replay accepts a packet exactly when the live run did or rejected it for its byte count alone |
| Replay.ReplayDeliversLivePackets | src/mesytec-mcpd/readout_worker.cc:99-125 | replay delivers every live packet in order plus only packets rejected for their byte count |
| Replay.SameDeliveriesIff | src/mesytec-mcpd/readout_worker.cc:99-125 | live and replay deliver the same exactly when no packet was merely too short |
| Replay.EmptyDatagramIsReplayed | src/mesytec-mcpd/packet_io.cc:44-52 | an empty datagram is rejected live and accepted on replay |
| Replay.TooShortIff | src/mesytec-mcpd/packet_io.cc:44-52 | which datagrams are rejected live and accepted on replay, by their size and their words 0 and 2 |
| Replay.ReplayAddsUp | src/mesytec-mcpd/source_stats.h:14-32 | what one device id sent from several addresses adds up under the source (0, id) of the replay |
| Replay.ReplayCounters | src/mesytec-mcpd/source_stats.cc:38-42 | packet, event, neutron and trigger counts of the replay are the sums over all live addresses |
| Replay.ReplayBins | src/mesytec-mcpd/histogrammers.h:68-78 | so is every histogram bin |
| Replay.ReplayAgreesWithLive | src/mesytec-mcpd/packet_io.cc:87-164 | receive, write, read back, deliver, count: without too short packets the replay shows what the live run showed |
| Checksums.XorBits | src/mesytec-mcpd/mcpd_core.h:395-396 | the number operation of the model is the exclusive or of the bits at every position |
| Checksums.XorAllReplace | src/mesytec-mcpd/mcpd_core.h:390-399 | replacing one word changes the checksum by the exclusive or of old and new word |
| Commands.CalculateChecksum | src/mesytec-mcpd/mcpd_core.h:390-399 | the exclusive or of the first bufferLength words |
| Commands.PrepareCommandPacket | src/mesytec-mcpd/mcpd_functions.cc:116-138 | fails exactly when data and terminator do not fit and then leaves dest alone; otherwise dest is the prepared packet |
| Commands.PreparedSumsToZero | src/mesytec-mcpd/mcpd_functions.cc:134-135 | the exclusive or over the bufferLength words of every prepared packet is 0 |
| Commands.OneWordChangeIsNoticed | src/mesytec-mcpd/mcpd_core.h:390-399 | changing any one of those words but bufferLength makes it non-zero |
| Commands.LengthChangeMissedIff | src/mesytec-mcpd/mcpd_core.h:390-399 | a change of bufferLength is missed in exactly three cases |
| Commands.PreparedDetermines | src/mesytec-mcpd/mcpd_functions.cc:125-135 | type, command byte, id, payload and terminator can be read back from the packet |
| Commands.PreparedWords | src/mesytec-mcpd/mcpd_functions.cc:125-135 | every word of a prepared packet but the checksum |
| Commands.MakeCommandPacket | src/mesytec-mcpd/mcpd_functions.h:48-60 | the prepared packet for the size cut to 16 bits, or the all-zero packet |
| Commands.PayloadIsWholeIff | src/mesytec-mcpd/mcpd_functions.h:48-60 | the payload is carried whole exactly up to 725 words; a wrapped size gives a sound packet with part of it |
| Commands.CommandPacketFromData | src/mesytec-mcpd/mcpd_functions.h:55-63 | the words, cut at or filled up with zeros to the packet size |
| Commands.PacketToData | src/mesytec-mcpd/mcpd_functions.h:65-75 | bufferLength words, zeros behind the end of the packet |
| Commands.PacketRoundTripIff | src/mesytec-mcpd/mcpd_functions.h:55-75 | packet to words and back is the identity exactly when only zeros follow the bufferLength words |
| Commands.DataRoundTripIff | src/mesytec-mcpd/mcpd_functions.h:55-75 | words to packet and back is the identity exactly for no words, or when the first word is their number and only zeros lie beyond the packet |
| Commands.PreparedRoundTrip | src/mesytec-mcpd/mcpd_functions.h:55-75 | prepared packets survive the way to words and back |
| Transactions.CommandTransaction | src/mesytec-mcpd/mcpd_functions.cc:47-104 | against every network: 1 to 5 sends, all but the last indecisive, and the result of the last one, or a timeout after five |
| Transactions.ExchangeIsUnique | src/mesytec-mcpd/mcpd_functions.cc:47-104 | that determines error code, number of sends and response |
| Transactions.ErrorCodeIff | src/mesytec-mcpd/mcpd_functions.cc:55-103 | each error code exactly for which last outcome and response: socket errors as they are, the error byte of the answer as device error, a timeout after five attempts without an answer |
| Transactions.CmdBytes | src/mesytec-mcpd/mcpd_core.h:408-426 | command number and error value are the two bytes of cmd |
| Transactions.SuccessMeans | src/mesytec-mcpd/mcpd_functions.cc:81-99 | success means buffer type and command number match, without an error byte unless ignored |
| Transactions.TimedOutIff | src/mesytec-mcpd/mcpd_functions.cc:55-103 | timed out exactly after five indecisive attempts |
| Transactions.WideCommandNeverSucceeds | src/mesytec-mcpd/mcpd_functions.cc:88-93 | a command number above one byte is never accepted |
| Transactions.TailMayBeStale | src/mesytec-mcpd/mcpd_functions.cc:27-39 | the first n bytes of a response accepted with a datagram are the same after every history exactly when the datagram has n bytes |
| Transactions.AcceptedAfterRefused | src/mesytec-mcpd/mcpd_functions.cc:81-99 | a refused full datagram shines through behind the shorter one accepted after it |
| Transactions.GetVersion | src/mesytec-mcpd/mcpd_functions.cc:147-173 | version words of the accepted response, a protocol error below two data words, zero fpga version below three |
| Transactions.VersionMeans | src/mesytec-mcpd/mcpd_functions.cc:147-173 | error code and version fields in terms of the words of the response |
| Transactions.VersionRequestWords | src/mesytec-mcpd/mcpd_functions.cc:147-155 | every word of the version request but the checksum |
| Transactions.VersionIsFreshIff | src/mesytec-mcpd/mcpd_functions.cc:147-173 | for every datagram: whether a version is ever reported with it, and that this version depends on it alone exactly when it contains the words reported |
| Transactions.StaleVersion | src/mesytec-mcpd/mcpd_functions.cc:147-173 | the answer to another command is refused, yet its data is reported as the version |
| Transactions.FindMcpdId | src/mesytec-mcpd/mcpd_py_commands.cc:292-319 | at most 256 * 5 sends; id k exactly when k succeeds and every smaller id ended in a mismatch, another error is thrown, nothing found after 256 mismatches |
| Transactions.ProbesFollow | src/mesytec-mcpd/mcpd_py_commands.cc:305-308 | each probe goes on with the first send after those of the probe before it, of which there are one to five |
| Transactions.SearchIs | src/mesytec-mcpd/mcpd_py_commands.cc:305-319 | the first id whose probe does not end in device error 128 decides the result: that id, its error, or nothing found |
| Transactions.ProbeOfDevice | src/mesytec-mcpd/mcpd_py_commands.cc:305-315 | probing a device with id d, which answers version requests at any length behind cmd and others as it likes, succeeds for d and mismatches otherwise, despite timeouts |
| Transactions.SearchFindsDevice | src/mesytec-mcpd/mcpd_py_commands.cc:292-319 | the search finds such a device |
| Mdat.InFile.Read | extras/mcpd-cli/mdat2mcpdlst.cc:121-122 | stream semantics: short reads set eof and fail, a stream that is not good reads nothing |
| Mdat.InFile.Tell | extras/mcpd-cli/mdat2mcpdlst.cc:164 | -1 on a stream that is not good |
| Mdat.InFile.Seek | extras/mcpd-cli/mdat2mcpdlst.cc:166-174 | clears eof, fails on a negative target, may go behind the end |
| Mdat.ConvertInPlace | extras/mcpd-cli/mdat2mcpdlst.cc:131-158 | header swap, swap loop and zero fill, byte by byte |
| Mdat.SwapFromRunId | extras/mcpd-cli/mdat2mcpdlst.cc:139-144 | swaps the words among the first dataLen bytes from runId on and nothing else |
| Mdat.ZeroTail | extras/mcpd-cli/mdat2mcpdlst.cc:154-158 | clears the data words from dataLen on, none for a negative dataLen |
| Mdat.SeekBack | extras/mcpd-cli/mdat2mcpdlst.cc:164-174 | from both stream states the read can leave, the stream is good and trailingBytes back, or failed in front of the file |
| Mdat.Turn | extras/mcpd-cli/mdat2mcpdlst.cc:112-202 | over-reading and seeking back, whichever way the stream ended up, refines looking at the packet and its separator in place |
| Mdat.ConvertAll | extras/mcpd-cli/mdat2mcpdlst.cc:112-213 | the loop computes the records and the return value of the plain parser |
| Mdat.RecordIsLocal | extras/mcpd-cli/mdat2mcpdlst.cc:131-160 | a record depends only on the bytes of its own packet |
| Mdat.StepTakesPacket | extras/mcpd-cli/mdat2mcpdlst.cc:112-202 | a turn takes exactly the packet and separator that stand at its position |
| Mdat.TurnCases | extras/mcpd-cli/mdat2mcpdlst.cc:112-202 | what a turn makes of any file at any position, a separator position outside the file included |
| Mdat.ForeignSeparator | extras/mcpd-cli/mdat2mcpdlst.cc:184-201 | a packet before eight foreign bytes is the last record, whatever follows, and the return value is 1 |
| Mdat.ParseFramedThen | extras/mcpd-cli/mdat2mcpdlst.cc:112-213 | after any well-formed packets the parser goes on with what follows |
| Mdat.FramedIsParsed | extras/mcpd-cli/mdat2mcpdlst.cc:112-213 | well-formed packets with separators give one record each, in order, and return value 0 |
| Mdat.TruncatedIsParsed | extras/mcpd-cli/mdat2mcpdlst.cc:124-193 | a file cut anywhere in a packet or separator: what is recorded and returned |
| Mdat.ConversionIsLossless | extras/mcpd-cli/mdat2mcpdlst.cc:131-160 | different packets have different records |
| Mdat.WordIsSwappedIff | extras/mcpd-cli/mdat2mcpdlst.cc:131-158 | for every word of the packet whether it ends up little endian, big endian or zero |
| Mdat.AdvancesIff | extras/mcpd-cli/mdat2mcpdlst.cc:146-174 | a turn that goes on moves forward exactly when headerLength < bufferLength + 25 |
| Mdat.EndsIff | extras/mcpd-cli/mdat2mcpdlst.cc:112-208 | the loop ends exactly when no turn starts where an earlier one did, which |file| + 2 turns decide |
| Mdat.ComesBackIff | extras/mcpd-cli/mdat2mcpdlst.cc:146-174 | a header sends the loop back to an earlier turn exactly when headerLength exceeds bufferLength + 25 by half the bytes in between |
| Mdat.EndsWhenAdvancing | extras/mcpd-cli/mdat2mcpdlst.cc:112-208 | if every turn of the run moves forward the loop ends within one turn per byte, and one more |
| Mdat.StuckForever | extras/mcpd-cli/mdat2mcpdlst.cc:112-208 | headerLength = bufferLength + 25 after a separator repeats the same record forever |
| Mdat.StuckFile | extras/mcpd-cli/mdat2mcpdlst.cc:112-208 | such bytes exist behind every prefix and a sound packet |
| Setup.MergeSettings | src/gui/config.py:13-18 | defaults updated with the known keys, an exception exactly when a known key holds no dict |
| Setup.DefaultsAreTheLast | src/gui/config.py:14 | the defaults of a key are those of the last command with that key |
| Setup.MergedValues | src/gui/config.py:13-18 | every argument has the value given for it or else its default, whichever others are missing; an exception exactly for a known key without a dict |
| Setup.MergeIsIdentityIff | src/gui/config.py:13-18 | the result has exactly the keys and arguments of the commands, and exactly such values are returned unchanged |
| Setup.DeviceConfig.Normalize | src/gui/config.py:47-52 | settings merged and MPSDs adapted in place; an exception leaves the device alone |
| Setup.NormalizeKeeps | src/gui/config.py:47-52 | every given value of a known argument, the first eight MPSDs of an MCPD and everything else of the device survive |
| Setup.DefaultMpsdValues | src/gui/config.py:21-24 | a new MPSD is absent and has the default of every command |
| Setup.NormalizeIsIdentityIff | src/gui/config.py:47-52 | the result is in normal form (8 MPSDs exactly for mcpd), and exactly normal forms are left alone |
| Setup.NormalizeIsIdempotent | src/gui/config.py:47-52 | normalizing twice is normalizing once, for every device |
| Setup.CommonDefaults | src/gui/commands.py:105-201 | the tables share no key, so every type has the common settings unaltered |
| Setup.RetypeKeepsCommon | src/gui/device_panel.py:335-341 | a type change gives the normal form of the new type and keeps the common settings |
| Setup.CommonSettingsSurvive | src/gui/config.py:46-52 | so does any sequence of type changes |
| Setup.DetourForgets | src/gui/config.py:46-52 | type specific settings and MPSDs are at their defaults after a detour over another type |
| Setup.SetupIsLoadedNormal | src/gui/config.py:85-93 | whatever is loaded is in normal form |
| Setup.LoadedDeviceKeeps | src/gui/config.py:61-72 | what is loaded for a device keeps every value that was given and has the defaults for the others |
| Setup.LoadedMpsdKeeps | src/gui/config.py:26-28 | the same for an MPSD |
| Setup.NameAndAddressSuffice | src/gui/config.py:61-72 | a device needs a name and an address to be loaded, and nothing else |
| Setup.MpsdLoadsIff | src/gui/config.py:26-28 | exactly which entries can be loaded as an MPSD |
| Setup.DeviceLoadsIff | src/gui/config.py:61-72 | exactly which entries can be loaded as a device |
| Setup.SetupLoadsIff | src/gui/config.py:85-93 | a setup is loaded exactly if each of its devices is, in order and with the other values as given |
| Setup.EmptySetup | src/gui/config.py:85-93 | an empty setup has the default values |
| Setup.SetupRoundTripIff | src/gui/config.py:82-93 | saving and loading gives the same setup exactly for setups in normal form |
| Setup.LoadSaveLoad | src/gui/config.py:82-93 | saving and loading again what was loaded changes nothing |
| Setup.IntOfDecimal | src/gui/config.py:61-72 | int() of the decimal digits of a number is the number |
| Setup.ItemsIff | src/gui/config.py:85-93 | which values can stand where a list is expected, and with which entries |
| Setup.UnderscoreBetweenDigits | src/gui/config.py:61-72 | int() ignores one underscore between digits and refuses others |
| Setup.FalseIff | src/gui/config.py:26-28 | which loaded values count as false |
| Setup.IntOfString | src/gui/config.py:61-72 | int() of digits with a sign and blanks around is the signed number, and fails with a foreign character or without digits |
| Setup.IntOfFloat | src/gui/config.py:61-72 | int() of a floating point number rounds towards zero |

## Left out

- 64 bit counters and histogram bins are unbounded numbers; 16 bit buffer numbers wrap around as in the code.
- Sockets, files, clocks, logging and pybind11: their results are parameters or steps that may happen at any time. Formatting a malformed response for the log can read behind the packet; that is not modelled.
- Condition variables and `queue.Queue` with `shutdown` behave as documented; that is an assumption.
- Consumers, listfiles and sources fail only with exceptions derived from std::exception.
- WorkerLifecycle has one controlling thread for start() and stop(), as both callers of ReadoutWorker do; queries and rethrowException() may come from any thread.
- GilProtocol: a worker there ends its loop at any read, for any reason, constructing the worker thread succeeds (WorkerLifecycle has the failure), and shutdown() of a queue does not throw. A stored exception takes and gives back the GIL for its destruction in one step.
- Histogrammers: the two instances of the class template are written out.
- Closing a listfile may fail to write what is still buffered; only a failing write is modelled.
- ReadoutWorker.ReadoutWorker.Loop: the number of bytes is counted live, but replay counts full records, so byte counters do not survive replay.
- LossAccounting.LossIsExact: loss counts of addresses that share a device id do not add up in a replay, and reordered packets count as jumps; neither is promised.
- Stats.SourceStatsCollector.GetTotals: the order in which the map is visited is arbitrary, and the order of SourceKey plays no role.
- Commands.CalculateChecksum: a bufferLength above 736 would read behind the packet and is required away.
- Transactions: the order of error categories and conditions, and connecting the socket before the search.
- Mdat: starts behind the mdat header, whose skip depends on stream state details; a dataLen above 715 makes the code read behind the data array, which ends the model's run as undefined. I/O errors that set badbit are not modelled.
- Transactions.TailMayBeStale: about datagrams that reach behind cmd (10 bytes); a shorter one can only be accepted with header fields that are stale themselves.
- Setup.SetupRoundTripIff: about the tree that json.loads() returns; the text layer, rounding, infinities and NaN, and int() of strings with other than ASCII characters are not modelled.
- Setup.DeviceConfig.Normalize: MPSD entries are values, so sharing one MpsdConfig object between lists is not captured.
- The getters of the collectors, receive buffer sizes and localPort of Daq, per-command wrappers, the command line tools, ROOT output and all Qt code.
