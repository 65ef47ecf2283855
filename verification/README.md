# pvAccess: framing, monitor queues, channel search

A Dafny model of the parts of pvAccessCPP that are hardest to get right, with proofs over all
inputs and all runs.

- **TCP framing** (`Receiver`, `Sender`, `RoundTrip`, over `Frames`, `Framing`, `Dispatch`).
  Both halves of `AbstractCodec` as classes over a byte array with position and limit. The send
  half cuts messages into first, middle and last segments whenever its buffer fills, and sends
  large blocks past the buffer. The receive half reassembles them inside one array that it
  reuses in place. `Dispatch.Ideal` says, without buffers and chunks, which messages a byte
  stream holds; the receiver is proved to dispatch exactly those, and `RoundTrip.Exchange` puts
  sender, network and receiver together.
- **Monitor queues** (`ClientModel`/`ClientQueue`, `PipelineModel`/`PipelineServer`,
  `FifoModel`/`MonitorFifo`, over `Updates` and `Elements`). Each queue is a class whose
  elements are recycled and overwritten in place, proved to follow a state machine over values;
  the theorems about all runs are about the state machines. `PipelineRuns` and `FifoRuns` say from the
  calls of a run alone what comes of it; `ClientUser` is about what reaches the user of the client
  queue, `FifoWakeups` about a consumer or a source that sleeps until the FIFO notifies it.
- **Credit protocol** (`Credit`). Server queue, send window, two FIFO wires and client queue as
  one state machine over all interleavings, restarts of the client included.
- **Channel search** (`BackOff`, `SearchFrame`, `Search`). The back-off counter, the datagrams,
  and how channels are packed into them.
- **Connect reservations** (`Reservation`). The per-destination lock under any interleaving.

The network is a parameter. `Receiver.Codec.wire` lists the chunks that reads will deliver: an
empty chunk is a read that finds nothing, and the end of the list is a lost connection. The message
handlers are a function from the messages handled before, the command and the bytes read so far to
the number of bytes they want next. Time, thread scheduling and the connection state enter as arguments or as events of a run.

## What turned out false

- *An ack threshold never exceeds the queue size.* The clamp tests the default instead of the
  request, so a larger request stands. `Credit.OptionsAndDeadlock`: for every request, the stream can
  come to a standstill without a restart if and only if the threshold exceeds the smaller one of the
  two queues, both read from that request. `Credit.DeadlockStays`: a standstill is for good.
- *The server queue is at least as long as the client's* (`src/pipelineService/pv/pipelineService.h:70`).
  The server reads the size only if it is a text. `Credit.ServerLongEnough`: it is if and only if the
  size is absent, or a text the server reads as no less than the client, or no more than the session's
  own least size or two. `Credit.ShortServer` is how it fails, and `Credit.DefaultStalls` a request that
  is served and can stall with the default threshold.
- *A restart of the client leaves the credit alone.* `start` recycles elements that were not polled
  without acking them. `Credit.DeadlockExactly`: runs that leak that way can stall if and only if the
  threshold exceeds what is left of the smaller queue; `Credit.RestartsStarve`: so they can with any
  options.
- *`init` starts with a full pool.* A pending overrun element survives. `ClientQueue.StrategyQueue.Init`:
  the pool is right if and only if no overrun is pending, and has one element too many otherwise.
  `ClientModel.OverrunReached`: as many responses as there are elements make an overrun pending.
  `ClientQueue.StrategyQueue.TakeLeftOver`: after the next `start` the first response is put into that
  element, which has the earlier structure.
- *The client reports the end of the stream when everything has been handed out.* An overrun element
  does not count as queued, and a restart drops what was not polled. `ClientUser.EndAfterAll`: it does if
  and only if no element is parked and no restart has recycled one that was not polled;
  `ClientModel.EarlyEnd` and `ClientUser.RestartLoses` are runs of either kind.
- *A user that applies only the changed fields of what it polls has the structure shown.*
  `ClientUser.ChangedFieldsSuffice`: what is shown is the user's own structure together with what
  recycled updates wrote in fields not told since; the two are the same if and only if that is what the
  user has anyway, so always without such restarts. `ClientUser.RestartHides` is a run in which they differ.
- *A consumer of the monitor FIFO that polls until it gets nothing and then waits for an event misses
  nothing.* `poll` withholds the last element while no other is free, and nothing tells when that is over.
  `FifoWakeups.OversleepsExactly`: a waiting consumer can oversleep if and only if its last poll gave it
  nothing although something was queued; `FifoWakeups.Oversleeps` is such a run. For the pipeline monitor
  it is true (`PipelineModel.NeverOversleeps`).
- *A source of the monitor FIFO is told when there is room again.* `FifoWakeups.RoomSignalled`: it is
  exactly when the number of free slots rises above the mark, unless an ack did it and left just one
  empty element; `FifoWakeups.RoomMissed` is a run of the latter kind.
- *The client is told the end of every stream.* `Credit.EndArrives`: it is, once everything is polled, if
  the session ended the stream. A monitor that is destroyed with nothing queued and nobody awake tells
  nothing unless the session still ends it (`Credit.AbandonedStays`).
- *The copy to the start of the receive buffer preserves the bytes.* `Receiver.ForwardCopySafe`: it
  does, for all contents, if and only if the destination does not start inside the source, and
  otherwise (`Receiver.SmearedCopy`) exactly for bytes that repeat at the distance moved. `EnsureData`
  asks for the former just where it copies. `Receiver.ReachOverlap` is a handler that brings a new
  connection into such a state, and `Receiver.OverlapGarbles` the wrong bytes it then gets.
- *The limit put on a frame is its end.* The signed size is kept in an unsigned variable.
  `Receiver.FrameEndRight`: a negative size puts the limit before the position, or passes for a huge one.
- *A finished monitor FIFO reports its end.* `FifoModel.EndIsReported` and `FifoModel.SilentEnd`: it
  does if and only if it was not stopped and empty when it finished.
- *A frame's size and count fields match its entries.* `Search.PairRight`: they do if and only if the
  frame has an entry. `Search.PackedRight`: a round sends no frame without one if and only if it is
  empty, or its first and last names fit a frame and no two neighbours are both too long.
- *A reservation is the last to refer to its mutex once it has cleaned up.* `Reservation.LastReference`:
  it is if and only if no other thread refers to the mutex; `Reservation.FinalCheckFails` is a run in
  which one does.
- *No mutex is left over.* `Reservation.OrphanedBy`: one is exactly when a thread cleans up while others
  still refer to the mutex and all of them have cleaned up; `Reservation.LeftOverExactly` says the same
  of whole runs, and `Reservation.LeftOver` is such a run. It stays until the destination is reserved
  again (`Reservation.OrphanStays`), and a reservation that meets no other one then clears it
  (`Reservation.NextUseErases`).

## Model

| member | source | states |
|---|---|---|
| Bytes.WordBytes | src/remote/codec.cpp:600-600 | the bytes written for a 32-bit field are the ones that read back as it, in either byte order |
| Frames.PayloadAfterAdvance | src/remote/codec.cpp:415-526 | reading m bytes of a message leaves the payload without its first m bytes, across segments and control frames |
| Frames.GluedPayload | src/remote/codec.cpp:462-515 | joining the next segment to the rest of the current one does not change the payload |
| Frames.GluedAdvance | src/remote/codec.cpp:462-515 | nor where a read that spans both segments ends |
| Receiver.ForwardCopySafe | src/remote/codec.cpp:371-374 | a byte-wise forward copy is right for all contents exactly if the destination does not start inside the source |
| Receiver.SmearedCopy | src/remote/codec.cpp:371-374 | a destination inside the source gets the right bytes exactly if they repeat at the distance moved |
| Receiver.FrameEndRight | src/remote/codec.cpp:216-219 | the end of a frame as computed in 64 bits lies at or behind its start exactly if the size is not negative, or so negative that it passes for a huge one |
| Receiver.Codec.constructor | src/remote/codec.cpp:84-120 | the buffer has the selected size and starts empty |
| Receiver.Codec.Read | src/remote/codec.cpp:1314-1355 | a read appends a prefix of what is to come, touches nothing before the position, and fails only at the end of the stream |
| Receiver.Codec.CopyUnread | src/remote/codec.cpp:371-374 | the buffer afterwards is the forward copy of the unread bytes, whatever overlaps |
| Receiver.Codec.ReadToBuffer | src/remote/codec.cpp:349-412 | no byte is lost or reordered, the safe area is untouched, a chunk that suffices is the last one read, and the connection is lost only if too few bytes are left |
| Receiver.Codec.ProcessHeader | src/remote/codec.cpp:140-168 | the header fields are those of the next frame; a bad magic closes the connection |
| Receiver.Codec.ProcessReadSegmented | src/remote/codec.cpp:306-346 | finds the next segment behind control frames exactly if the stream has one |
| Receiver.Codec.SaveToSafeArea | src/remote/codec.cpp:470-476 | the rest of the segment is saved, and what lies behind it is untouched |
| Receiver.Codec.RestoreBeforePosition | src/remote/codec.cpp:498-501 | the saved bytes stand right before the segment, which is untouched |
| Receiver.Codec.ReadSplit | src/remote/codec.cpp:438-460 | SPLIT: the reader's place in the message is unchanged and the bytes asked for are buffered, or the stream is too short |
| Receiver.Codec.ReadNextSegment | src/remote/codec.cpp:462-514 | SEGMENTED: the reader sees the rest of the segment and the next one as one, or the payload is too short |
| Receiver.Codec.EnsureData | src/remote/codec.cpp:415-526 | the next n payload bytes are available in one piece if and only if the message has them; payload and place are unchanged; terminates |
| Receiver.ReachOverlap | src/remote/codec.cpp:438-514 | from a new connection, a request across two segments leaves the bytes that have arrived across the fixed start position |
| Receiver.OverlapGarbles | src/remote/codec.cpp:371-374 | a larger request there copies them onto themselves, and they are not the bytes of the message any more |
| Receiver.Codec.PostProcessApplicationMessage | src/remote/codec.cpp:258-304 | moves to the frame header behind the segment, whatever the handler left; closes exactly if the end of the segment has not arrived, and then some of it is unread, so the branch for nothing unread is unreachable |
| Receiver.Codec.ProcessApplicationMessage | src/remote/codec.cpp:219-230 | the handler reads what it would read of the logical payload, and fails exactly if that is too short |
| Receiver.Codec.ProcessMessage | src/remote/codec.cpp:216-244 | one message handled refines one step of the ideal dispatch |
| Receiver.Codec.ProcessFrame | src/remote/codec.cpp:190-244 | so does any frame, control frames and empty continuations included |
| Receiver.Codec.ProcessReadNormal | src/remote/codec.cpp:171-256 | while open the reader is at a frame header and owes exactly the messages not handled |
| Receiver.Codec.ReceiveThread | src/remote/codec.cpp:1122-1158 | under every chunking the messages handled are the ideal ones, all of them if handlers read whole segments |
| Dispatch.RefinesTransitive | src/remote/codec.cpp:171-304 | runs of the read loop compose |
| Dispatch.ConsumeSynced | src/remote/codec.cpp:258-304 | between the segment a message starts in and the one its handler ends in lie whole frames |
| Dispatch.MessageHandled | src/remote/codec.cpp:216-244 | after a message the stream is at a frame header and one ideal message is done |
| Dispatch.MessageCutOff | src/remote/codec.cpp:274-298 | closing over a segment that has not arrived loses no message already handled |
| Dispatch.FrameSkipped | src/remote/codec.cpp:193-205 | control frames and empty continuations change nothing but the place and the byte order |
| Framing.EncodeAppend | src/remote/codec.cpp:718-737 | the bytes of a frame sequence grow by the bytes of the frame added |
| Framing.SegmentSteps | src/remote/codec.cpp:642-657 | flags set at the end of a segment make it a first or middle segment |
| Framing.LastSteps | src/remote/codec.cpp:658-670 | flags set at the end of a message make it a whole message or a last segment |
| Sender.Codec.constructor | src/remote/codec.cpp:84-120 | starts with nothing sent and no message in hand |
| Sender.Codec.CloseFrame | src/remote/codec.cpp:633-641 | the finished frame's size field is the payload that follows |
| Sender.Codec.EndMessage | src/remote/codec.cpp:629-691 | the message in hand is suspended with its payload, or completed as an item |
| Sender.Codec.OpenFrame | src/remote/codec.cpp:594-600 | a header stands behind the finished frames and the payload in hand is kept |
| Sender.Codec.FlushSendBuffer | src/remote/codec.cpp:718-737 | everything finished is sent, and the message in hand is kept |
| Sender.Codec.EnsureBuffer | src/remote/codec.cpp:693-711 | makes the room asked for with at most one flush exactly if the request is not above the limit; keeps the message; terminates |
| Sender.Codec.Flush | src/remote/codec.cpp:739-750 | completes the message, or continues it behind a new header |
| Sender.Codec.StartMessage | src/remote/codec.cpp:586-606 | leaves the sender behind a header with the room asked for, a continuation header re-emitted by a flush included |
| Sender.Codec.SendBlock | src/remote/codec.cpp:977-990 | a block sent past the buffer is a segment of the message with the right size |
| Sender.Codec.DirectSerialize | src/remote/codec.cpp:958-998 | blocks of 64 KiB or more are added to the message in hand, smaller ones are left to the caller |
| Sender.Codec.PutControlMessage | src/remote/codec.cpp:609-621 | a control message is added between messages |
| Sender.Codec.PutChunked | src/remote/codec.cpp:714-716 | any number of bytes goes through the buffer into one message |
| Sender.Codec.ProcessSender | src/remote/codec.cpp:886-919 | a sender adds exactly the messages it wrote, each with all of its bytes, and succeeds if its requests fit |
| Sender.Codec.FinishMessage | src/remote/codec.cpp:739-750 | ends the message in hand; after an urgent one everything is with the socket |
| Sender.Codec.ProcessSendQueue | src/remote/codec.cpp:833-870 | what is sent is a frame sequence of the grammar that says exactly what the senders say, in order, every frame marked with the direction it travels |
| RoundTrip.HeaderOf | src/remote/codec.cpp:140-155 | the header of an encoded frame reads back as its fields |
| RoundTrip.PayloadLeft | src/remote/codec.cpp:462-515 | the payload a reader has ahead is the rest of the message sent |
| RoundTrip.ConsumeWhole | src/remote/codec.cpp:171-526 | a handler that reads a whole message gets it and stops in front of whole frames |
| RoundTrip.SomeHandlerReads | src/remote/codec.cpp:415-431 | whatever is sent, handlers within the limit of a single request can read all of it |
| RoundTrip.IdealIsSent | src/remote/codec.cpp:171-526 | the ideal dispatch of an encoded frame sequence is the list of messages it says |
| RoundTrip.SizesAreOk | src/remote/codec.cpp:636-640 | frames of the grammar carry no negative size |
| RoundTrip.FirstOrder | src/remote/pv/codec.h:341-347 | the receiver's initial byte order does not matter if the first message sets it |
| RoundTrip.Transmit | src/remote/codec.cpp:833-870 | the bytes of a list of jobs are frames that say the list |
| RoundTrip.Deliver | src/remote/codec.cpp:171-526 | a receiver of such bytes dispatches the list under every chunking |
| RoundTrip.Exchange | src/remote/codec.cpp:171-998 | every list of jobs arrives as the same list of messages at handlers that read to the end, under every segmentation, buffer size, byte order and chunking |
| Updates.MergeKeepsEffect | src/client/monitor.cpp:309-317 | one merged update has the effect of all it stands for |
| Updates.MergedBits | src/client/monitor.cpp:312-314 | a field of a merged update is overrun exactly if two updates changed it or one was flagged |
| ClientModel.StepFaithful | src/remoteClient/clientContextImpl.cpp:1908-2097 | every call keeps the pool and what each element tells |
| ClientModel.EveryRun | src/remoteClient/clientContextImpl.cpp:1882-2097 | over every run elements are conserved, every call is defined, a response finds a place, and the next element tells exactly the updates after those that have left the queue, polled or recycled |
| ClientModel.TellsBits | src/remoteClient/clientContextImpl.cpp:1924-1933 | its changed and overrun bits are those of the updates it tells |
| ClientModel.AcksScheduled | src/remoteClient/clientContextImpl.cpp:2036-2081 | over every run the releases counted and the ack scheduled are what the calls say: by the first release on a live connection that makes them enough |
| ClientUser.EveryRun | src/remoteClient/clientContextImpl.cpp:1908-2097 | over every run each update received is told, recycled by a restart, or still there, in order of receipt; a poll tells exactly the next ones; and a user that applies changed fields has the effect of all it was told |
| ClientUser.ChangedFieldsSuffice | src/remoteClient/clientContextImpl.cpp:1949-2006 | after every poll the structure shown is the user's own one with what restarts made it miss; when the two are the same |
| ClientUser.RestartHides | src/remoteClient/clientContextImpl.cpp:2083-2097 | a run in which they are not |
| ClientModel.EndsOnce | src/remoteClient/clientContextImpl.cpp:1975-2001 | a stream closed once has its end reported once or still due, over every run |
| ClientUser.EndAfterAll | src/remoteClient/clientContextImpl.cpp:1975-2097 | when the end is reported, over every run, the user has been told everything received exactly if nothing is parked and no restart has recycled what was not polled |
| ClientUser.RestartLoses | src/remoteClient/clientContextImpl.cpp:2083-2097 | a run in which an update is recycled and the end is reported with nothing told |
| ClientModel.EarlyEnd | src/remoteClient/clientContextImpl.cpp:1975-2034 | a run in which an update is handed out after the end |
| ClientModel.OverrunReached | src/remoteClient/clientContextImpl.cpp:1940-1947 | as many responses as there are free elements, without a poll, leave an overrun pending |
| ClientQueue.StrategyQueue.Init | src/remoteClient/clientContextImpl.cpp:1882-1905 | a fresh pool of the queue size if no overrun was pending, and one element more in circulation otherwise |
| ClientQueue.StrategyQueue.SquashUpdate | src/remoteClient/clientContextImpl.cpp:1914-1938 | an update in overrun is merged into the overrun element alone |
| ClientQueue.StrategyQueue.Fill | src/remoteClient/clientContextImpl.cpp:1949-1961 | a recycled element, even the newest one, shows the newest structure with the update |
| ClientQueue.StrategyQueue.Response | src/remoteClient/clientContextImpl.cpp:1908-1973 | follows the model, and leaves elements the user holds alone |
| ClientQueue.StrategyQueue.Poll | src/remoteClient/clientContextImpl.cpp:1990-2006 | hands out the oldest queued element, or reports the end exactly if it is due |
| ClientQueue.StrategyQueue.Unlisten | src/remoteClient/clientContextImpl.cpp:1975-1988 | reports the end at once exactly if nothing is queued, and otherwise leaves it to a poll |
| ClientQueue.StrategyQueue.Release | src/remoteClient/clientContextImpl.cpp:2009-2064 | frees the element, queues a parked one and schedules an ack when due; ignores elements of another structure |
| ClientQueue.StrategyQueue.Send | src/remoteClient/clientContextImpl.cpp:2066-2081 | the ack carries every release since the last one |
| ClientQueue.StrategyQueue.Start | src/remoteClient/clientContextImpl.cpp:2083-2097 | in any state everything not polled is free again, an overrun element last; a valid queue follows the model |
| ClientQueue.StrategyQueue.TakeLeftOver | src/remoteClient/clientContextImpl.cpp:1882-1947 | after an `init` with an overrun pending and a `start`, the next response takes the left-over element of the earlier structure |
| PipelineModel.EveryRun | src/pipelineService/pipelineServer.cpp:127-288 | over every run elements are conserved and handed out once, in order; the end is reported at most once, with nothing filled, and nothing comes after it |
| PipelineModel.CreditSpent | src/pipelineService/pipelineServer.cpp:158-215 | credit granted is credit left plus elements handed out |
| PipelineModel.NeverOversleeps | src/pipelineService/pipelineServer.cpp:127-274 | in no run does a listener that polls until it gets nothing sleep while there is something to poll |
| PipelineRuns.RunExactly | src/pipelineService/pipelineServer.cpp:127-288 | from the calls alone: which updates polls hand out, and that the end is reported once if some call ends or polls an ended stream with everything handed out, and otherwise never |
| PipelineRuns.EndIsReported | src/pipelineService/pipelineServer.cpp:168-173 | a stream ended or destroyed, and polled after everything was handed out, has its end reported |
| PipelineServer.PipelineMonitor.constructor | src/pipelineService/pipelineServer.cpp:99-111 | all elements are free, and they are as many as the queue size |
| PipelineServer.PipelineMonitor.Start | src/pipelineService/pipelineServer.cpp:127-148 | follows the model, in its notification too |
| PipelineServer.PipelineMonitor.Poll | src/pipelineService/pipelineServer.cpp:158-184 | hands out the element queued first and reports the end as the model says; every element stays in exactly one place |
| PipelineServer.PipelineMonitor.Release | src/pipelineService/pipelineServer.cpp:186-190 | an element handed out is free again |
| PipelineServer.PipelineMonitor.ReportRemoteQueueStatus | src/pipelineService/pipelineServer.cpp:192-215 | adds credit, and notifies as the model does |
| PipelineServer.PipelineMonitor.GetFreeElement | src/pipelineService/pipelineServer.cpp:243-252 | the element freed last goes to the session and nowhere else, or there is none |
| PipelineServer.PipelineMonitor.Fill | src/pipelineService/pipelineServer.cpp:243-274 | writing an element of the session changes no element that is queued or handed out |
| PipelineServer.PipelineMonitor.PutElement | src/pipelineService/pipelineServer.cpp:254-274 | an element of the session is queued last, and stays with it if the stream has ended |
| PipelineServer.PipelineMonitor.Done | src/pipelineService/pipelineServer.cpp:276-288 | reports the end at once exactly if nothing is filled and it was not reported |
| PipelineServer.PipelineMonitor.Destroy | src/pipelineService/pipelineServer.cpp:217-230 | cancels the session exactly if the stream had not ended |
| Credit.StepInv | src/server/responseHandlers.cpp:2079-2217 | every step of either party or a wire is defined and keeps credit, order, the window, the elements it keeps, and the server awake while it can send |
| Credit.NeverMerges | src/remoteClient/clientContextImpl.cpp:1908-1967 | an update on the wire always finds a free client element |
| Credit.AcksOnTime | src/remoteClient/clientContextImpl.cpp:2188-2213 | for every request and run an ack is scheduled exactly from the release on that makes as many as were asked for, one if fewer than one was, and half the queue size by default; it carries them all |
| Credit.EveryRun | src/server/responseHandlers.cpp:1851-2217 | in every reachable state every step is defined, credit adds up to the client queue with what restarts leaked and elements to the server queue, the next element polled tells exactly one update put, nothing is sent outside the window, and the server is awake while it can send |
| Credit.NoDeadlock | src/remoteClient/clientContextImpl.cpp:2036-2097 | no run comes to a standstill if the ack threshold and what restarts leaked are at most the smaller queue |
| Credit.DeadlockReachable | src/remoteClient/clientContextImpl.cpp:2036-2097 | some run does if they are more |
| Credit.DeadlockExactly | src/remoteClient/clientContextImpl.cpp:2036-2097 | both, as an if and only if for every amount leaked |
| Credit.DeadlockStays | src/server/responseHandlers.cpp:2110-2217 | whatever happens after a standstill, the client gets no further update |
| Credit.EndInOrder | src/server/responseHandlers.cpp:2110-2180 | the end arrives at the client only after everything put; an ended queue that is polled empty keeps the server awake until the end is sent |
| Credit.EndArrives | src/server/responseHandlers.cpp:2150-2180 | once everything is polled from a stream its session has ended, the requester and the wire alone bring the end to the client |
| Credit.AbandonedStays | src/pipelineService/pipelineServer.cpp:217-230 | a monitor destroyed with nothing queued and nobody awake tells the client nothing, unless its session still ends the stream |
| Credit.QueueSize | src/remoteClient/clientContextImpl.cpp:2152-2161 | the queue size used is at least two |
| Credit.ServerLongEnough | src/pipelineService/pipelineServer.cpp:75-96 | exactly which requests give the server a queue at least as long as the client's |
| Credit.ShortServer | src/pipelineService/pipelineServer.cpp:75-96 | a numeric size above two and the session's least size makes it shorter, the same size in a text does not |
| Credit.OptionsAndDeadlock | src/remoteClient/clientContextImpl.cpp:2142-2213 | for every request the stream can come to a standstill exactly if the ack threshold exceeds the smaller queue, with both sizes read from the request; with which options that is so |
| Credit.DefaultStalls | src/pipelineService/pipelineServer.cpp:379-396 | a request that the server serves and that can stall with the default threshold |
| Credit.RestartsStarve | src/remoteClient/clientContextImpl.cpp:2083-2097 | with restarts it can for every request |
| FifoModel.GroupedEffect | src/client/monitor.cpp:309-317 | applying merged groups is applying the updates |
| FifoModel.StepInv | src/client/monitor.cpp:194-497 | every call keeps pool, meaning, flow count and end of stream |
| FifoModel.EveryRun | src/client/monitor.cpp:130-513 | over every run every call is defined, there is an element to post into, elements are those of the pool plus those forced less those scrapped, the effect of all updates to tell is kept, and the flow count is acks minus queued elements |
| FifoModel.TryPostMeans | src/client/monitor.cpp:207-257 | an update that says something is queued if there is room, and by force in any case with exactly one element more; any other post changes nothing |
| FifoRuns.NothingLost | src/client/monitor.cpp:207-318 | over every run what was handed out and is queued has exactly the effect of all posts that say something, but for those made without force when there was no room |
| FifoRuns.ReturnedExactly | src/client/monitor.cpp:436-489 | over every run the elements waiting for an ack are exactly the releases since some point less the credit acked since, for the point where that is most |
| FifoRuns.AllBack | src/client/monitor.cpp:436-489 | once everything is polled, released and acked the pool is full again |
| FifoModel.ElementBits | src/client/monitor.cpp:296-314 | overrun bits of every element mark exactly fields overwritten by merging or flagged |
| FifoModel.NeverOverdrawn | src/client/monitor.cpp:207-257 | unforced posting never overdraws credit |
| FifoModel.RoomPromised | src/client/monitor.cpp:207-257 | after a `tryPost` that returned true the next one with something to tell is queued, whatever happens in between short of a post |
| FifoModel.EndOfStream | src/client/monitor.cpp:194-205 | the end is reported at most once, with nothing queued, and nothing is handed out after |
| FifoModel.EndIsReported | src/client/monitor.cpp:194-205 | it is reported exactly if the FIFO was not stopped and empty at the end |
| FifoModel.SilentEnd | src/client/monitor.cpp:203-204 | a run in which the end is never reported |
| MonitorFifo.Fifo.Open | src/client/monitor.cpp:130-174 | one element more than the count, all empty |
| FifoModel.FreeCountMeans | src/client/monitor.cpp:506-513 | of updates with something to tell exactly as many in a row get in without force as the free count says |
| FifoRuns.FreshTakes | src/client/monitor.cpp:506-513 | a fresh FIFO takes exactly as many updates without force as it has slots, or credit with pipelining |
| FifoRuns.LastStays | src/client/monitor.cpp:506-513 | without pipelining, posting what fits never uses the last empty element, so that polls withhold nothing |
| FifoWakeups.OversleepsExactly | src/client/monitor.cpp:207-497 | over every run a consumer that waits can oversleep before it polls again exactly if its last poll gave it nothing although something was queued |
| FifoWakeups.Oversleeps | src/client/monitor.cpp:395-497 | a run in which one does |
| FifoWakeups.RoomSignalled | src/client/monitor.cpp:423-497 | exactly when a source is told that there is room again |
| FifoWakeups.RoomMissed | src/client/monitor.cpp:489-497 | a run in which it is not told |
| FifoWakeups.EventRaised | src/client/monitor.cpp:243-245 | an event becomes due exactly with a post that has to be told while the FIFO runs with nothing queued |
| FifoWakeups.QuietWhileStopped | src/client/monitor.cpp:386-393 | a stopped FIFO raises no event |
| FifoWakeups.OpenedReports | src/client/monitor.cpp:130-192 | a FIFO raises no event before it is started, and reports that it is connected and that it is closed once each |
| MonitorFifo.Fifo.Squash | src/client/monitor.cpp:309-317 | the element queued last tells the merge, and the others are unchanged |
| MonitorFifo.Fifo.TryPost | src/client/monitor.cpp:207-257 | follows the model; tells whether there is room |
| MonitorFifo.Fifo.Post | src/client/monitor.cpp:260-318 | follows the model, and leaves polled elements alone |
| MonitorFifo.Fifo.Poll | src/client/monitor.cpp:395-421 | hands out the oldest unless it is the last left; reports the end when due |
| MonitorFifo.Fifo.Release | src/client/monitor.cpp:423-457 | takes the element back unless it is foreign or surplus, first among the empty or last among the returned; signals upstream exactly when the model does |
| MonitorFifo.Fifo.ReportRemoteQueueStatus | src/client/monitor.cpp:467-497 | credits the flow and empties as many returned elements as are acked, those returned first first |
| MonitorFifo.Fifo.Start | src/client/monitor.cpp:358-384 | runs, and signals exactly if it was stopped with something queued |
| MonitorFifo.Fifo.Finish | src/client/monitor.cpp:194-205 | ends the stream, and asks for a report exactly if running and empty |
| MonitorFifo.Fifo.Notify | src/client/monitor.cpp:320-356 | delivers pending reports once |
| MonitorFifo.Fifo.Close | src/client/monitor.cpp:182-192 | drops the selection, keeps what is queued, and has the closing reported, once |
| BackOff.PowersOfTwo | src/remote/channelSearchManager.cpp:378-381 | the bit trick recognises exactly the powers of two |
| BackOff.RangeKept | src/remote/channelSearchManager.cpp:349-357 | the counter stays in 1..256 |
| BackOff.NoSearchNoTicks | src/remote/channelSearchManager.cpp:346-361 | through ticks and boosts a channel waits no longer than its counter says |
| BackOff.SearchedEvery128 | src/remote/channelSearchManager.cpp:59-67 | any stretch with 128 ticks contains a search |
| BackOff.ClimbCount | src/remote/channelSearchManager.cpp:346-361 | after n ticks up to 256 there were floor(log2 n) + 1 searches |
| BackOff.SteadyCount | src/remote/channelSearchManager.cpp:353-356 | then one more in 128 ticks |
| SearchFrame.FrameBack | src/remote/blockingUDPTransport.cpp:296-387 | a receiver that knows nothing but the datagram gets from it exactly what was put in: version, sequence number, reply flags, address and port, protocol and channels |
| SearchFrame.SetPayload | src/remote/channelSearchManager.cpp:270-270 | patching the size field changes that field only |
| SearchFrame.SetCount | src/remote/channelSearchManager.cpp:271-271 | patching the count changes that field only |
| SearchFrame.SetCast | src/remote/channelSearchManager.cpp:239-242 | patching the reply flags changes that field only |
| Search.RoomTight | src/remote/channelSearchManager.cpp:262-265 | exactly when an entry is put into the frame: if it fits with four bytes to spare, none for a long name |
| Search.PackedRight | src/remote/channelSearchManager.cpp:249-297 | one round asks once and in order for every channel whose name fits, for no other, and no frame outgrows a datagram; exactly which rounds send a frame without entries |
| Search.Oversize | src/remote/channelSearchManager.cpp:283-291 | a channel whose name fits no frame is not asked for, and sends empty frames |
| Search.PairRight | src/remote/channelSearchManager.cpp:232-273 | both datagrams of a frame fit, a receiver gets from each the same request but for the reply flags, and size and count fields are right exactly if the frame has entries |
| Search.DatagramsRight | src/remote/channelSearchManager.cpp:232-246 | of a list of frames receivers get each one twice, in order, directly addressed first, with consecutive sequence numbers |
| Search.NumberIs | src/remote/channelSearchManager.cpp:200-200 | sequence numbers count up by one on a 32-bit counter |
| Search.Manager.InitializeSendBuffer | src/remote/channelSearchManager.cpp:197-230 | an empty frame with the next sequence number |
| Search.Manager.AddEntry | src/remote/channelSearchManager.cpp:249-273 | adds an entry exactly if there is room, with all fields kept right |
| Search.Manager.FlushSendBuffer | src/remote/channelSearchManager.cpp:232-246 | sends the frame twice, with and without the unicast flag, and starts anew |
| Search.Manager.Generate | src/remote/channelSearchManager.cpp:275-297 | packs one entry, sending a full frame first |
| Search.Manager.Callback | src/remote/channelSearchManager.cpp:313-376 | every counter ticks, and exactly the packed frames of the channels due are sent |
| Search.Manager.Boost | src/remote/channelSearchManager.cpp:299-311 | every channel is due at the next tick, so that the next round asks for all of them |
| Reservation.StepInv | src/remote/transportRegistry.cpp:36-69 | every step of every thread keeps the locks straight |
| Reservation.EveryInterleaving | src/remote/transportRegistry.cpp:36-69 | reservations for one destination share the mutex in the map, and at most one of them is live |
| Reservation.LastReference | src/remote/transportRegistry.cpp:61-68 | the last reference is left exactly if no other thread refers to the mutex |
| Reservation.FinalCheckFails | src/remote/transportRegistry.cpp:61-68 | a run in which three references are left |
| Reservation.OrphanedBy | src/remote/transportRegistry.cpp:59-69 | a step leaves a mutex over exactly if it cleans up while others refer to the mutex and all of them have cleaned up |
| Reservation.OrphanStays | src/remote/transportRegistry.cpp:42-69 | a mutex left over stays exactly until its destination is reserved again |
| Reservation.LeftOverExactly | src/remote/transportRegistry.cpp:36-69 | when all reservations of a run are gone an entry is left exactly if some clean-up stranded it and nobody entered afterwards |
| Reservation.NextUseErases | src/remote/transportRegistry.cpp:36-69 | a reservation that meets no other one clears the entry |
| Reservation.LeftOver | src/remote/transportRegistry.cpp:63-66 | two overlapping reservations that leave a mutex nobody refers to |

## Left out

- Receiver.Codec.ReceiveThread: streams with a negative size field are excluded (`SizesOk`), here and in the methods it calls. The limit then lies before the position (`Receiver.FrameEndRight`), and what the buffer class, which is foreign, makes of that is not part of this model.
- Receiver.Codec.EnsureData: requests that copy unread bytes onto themselves are excluded by the precondition; `Receiver.SmearedCopy` says what becomes of the bytes.
- Senders that start no message, or put a control message inside one: the code then patches or skips bytes of another frame.
- Sender.Codec.ProcessSendQueue: a byte order that changes while a connection sends (`setByteOrder`).
- Receiver.Codec.ProcessApplicationMessage: handlers ask for at most 512 bytes at a time; a larger request succeeds only if the bytes happen to be buffered, as `EnsureData` states.
- Sender.Codec.DirectSerialize: blocks of 2 GiB or more, whose size overflows the size field.
- Handlers that look at how many bytes happen to be buffered (`getRemaining`), which depends on the chunks, that throw, or close the connection themselves.
- Alignment (`alignData`, `alignBuffer`), and the commented-out markers in `endMessage`.
- Credit.EveryRun: acks travel on a live connection; a reconnect starts a new subscription.
- ClientQueue.StrategyQueue.Release: elements of an earlier epoch with the same structure, and double releases, are excluded by the precondition.
- ClientQueue.StrategyQueue.Response: bit sets are flat; hierarchical compression of changed and overrun bits is foreign.
- Callbacks of the client's queue and their exceptions.
- PipelineServer.PipelineMonitor.ReportRemoteQueueStatus: negative counts, which the code casts to huge ones.
- PipelineServer.PipelineMonitor.PutElement: elements the session does not have are excluded by the precondition.
- PipelineServer.PipelineMonitor.Release: elements that are not handed out are excluded by the precondition.
- MonitorFifo.Fifo.Open: re-opening; one epoch is modelled. The flow count is unbounded.
- MonitorFifo.Fifo.Release: double releases are excluded by the precondition.
- `getStats`, request mask extraction, option parsing other than queue size and ack threshold.
- BackOff.SearchedEvery128: a penalised re-registration in the stretch, which resets the counter.
- SearchFrame.FrameBack: datagrams with a negative size field, and origin tags.
- Search.Manager.Callback: the pause after ten frames, and registration during a round.
- Sockets, threads, timers, logging, security, the CA provider, RPC and get/put clients: I/O or thin layers over foreign code.
