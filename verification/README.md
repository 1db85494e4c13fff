# Verified model of the capture path of the kernel module

The kernel module records system calls and other kernel events into per-CPU ring buffers that
user space maps and reads. This project models that path in Dafny and proves what it promises.

- **The ring.** `ring_layout`, `ring_stats`, `ring_protocol` and `attempt` describe one producer and
  one reader at the grain of single stores; `gate` puts the preemption gate in front; `buffer_dim`
  covers the accepted sizes and the doubled mapping. `recorder` is the recording attempt itself, in
  place on the buffer, proved to be a run of the protocol; `admission` says when it inserts its
  event and which counter moves. `pipeline` lets the reader in between the stores of such attempts
  and follows their events to the decoder.
- **The serializer.** `params`, `user_memory`, `payload`, `serializer` and `filler` model the cursor
  that fills an event; `pushes` says exactly what one push leaves; `decoder` is the decoder of
  libscap and the round trip; `dynamic_index` follows the type index of dynamic parameters.
  `scatter`, `vector_io`, `argv` and `poll_list` are the fillers that work on lists, `vector_data`
  what a vectored call carries in its event.
- **Consumers.** `tracepoints`, `registry` and `device` model open, close and the tracepoint calls;
  `consumers`, `histories` and `sessions` say which calls succeed, which rings are open and what
  each task asks for, over whole runs; `requests`, `stealing` and `collisions` say when consumers
  can take tracepoints from each other; `lingering` says which of them are listed without an open
  ring; `rcu` is the lock-free walk over the consumer list.
- **Sampling.** `sampling` is the dropping mode, `drop_markers` what its markers guarantee.
- **CPU time.** `scaling` and `cputime` are the scaled user and system times.
- **Versions.** `version` is the packed version number.

Conventions. State that the driver changes in place is a class with `modifies` clauses; each method
is tied to a function on values, and the lemmas about whole runs are about that function. What runs
concurrently is a state machine whose steps may interleave freely. Kernel facilities that can
succeed or fail (allocation, tracepoint registration, reads of user memory) are parameters. A user
pointer is the sequence of bytes that can be read from it on. `bytes` has what the modules share.

Results that may surprise:

- A consumer's id is the number of consumers at the time it opens, so ids can coincide after a close.
  `Stealing.CanStealIff` says exactly when a disable or a close can then detach another consumer's
  tracepoint, `Collisions.FailedOpenStealsIff` exactly when an open that fails does.
- A marker that cannot be inserted may be overtaken by its counterpart. `DropMarkers.BreaksIff` gives
  the states in which the next call can do that.
- A refused request for dropping mode leaves it on; right after opening every droppable event is then
  dropped (`Sampling.RejectedEnableDropsAll`).
- The index of a dynamic parameter is overwritten when a user string has no space behind it. The next
  push then fails, so only a filler that ended in such a string could record a wrong index
  (`DynamicIndex.OverwriteIsLast`); keyctl, which alone has dynamic strings, never does
  (`DynamicIndex.KeyctlDelivers`).
- The space check of the poll list is made modulo 2^64. `PollList.CheckedFitsIff` says for exactly
  which counts passing it means that there is space.
- A first open on a CPU that is not online fails and yet lists its consumer, which stays until the task
  opens and closes an online ring (`Lingering.IdleIff`).
- The CPU-time scaling divides by zero exactly when the factors are together 64 bits wider than the
  total (`Scaling.DivisorVanishesIff`); for a part of the total that takes run times of 2^63 and more
  (`Scaling.DivisorNonZero`). With k bits dropped the result stays within the run time if the rest of
  the total is at least 2^k - 1, and one tick less is not enough (`Scaling.ScaledWithinRuntime`,
  `Scaling.OneTickShort`).
- The comment on the string copier speaks of reading up to the terminator; the code reads whole chunks
  of four bytes, so a string can be lost when the bytes behind it are unreadable
  (`UserMemory.ChunkedCopyExact`).

`dafny verify dfyconfig.toml` checks all files together.

## Model

| member | source | states |
|---|---|---|
| `RingLayout.FreePlusUsed` | driver/main.c:1716-1722 | Producer and reader arithmetic agree: free plus readable is dim - 1, so a full ring is never taken for an empty one, and one subtraction wraps tail + used to head |
| `RingLayout.UnreadKept` | driver/main.c:1713-1766 | Whatever is written within the free space seen by a possibly stale snapshot leaves every unread byte as it was |
| `RingLayout.AnyTailInside` | driver/main.c:1713-1766 | Whatever number user space has stored in tail, the space an attempt may write lies in the buffer, the run-over in its first pages, and the next head in the ring |
| `RingLayout.WrappedEventReadsBack` | driver/main.c:1876-1896 | An event written across the end, its run-over copied to the front, reads back whole through the doubled mapping |
| `RingProtocol.StepInv` | driver/main.c:1710-1907 | Every step of producer and reader, in any interleaving, keeps the queue, history, reader and producer invariants |
| `RingProtocol.FifoRefinement` | driver/main.c:1710-1907 | In every run the events read are, byte for byte and in order, a prefix of those recorded; no access outside the buffers, no corrupt event, head and tail in range, head == tail iff nothing is unread |
| `RingProtocol.UnreadStable` | driver/main.c:1742-1766 | No step of a recording attempt, successful or not, changes an unread byte |
| `RingProtocol.HeldBlockStable` | userspace/libscap/ringbuffer/ringbuffer.h:55-111 | Whatever the producer does meanwhile, the block user space holds keeps its bytes until tail is advanced |
| `RingProtocol.NextDelivers` | userspace/libscap/ringbuffer/ringbuffer.h:166-290 | The reader's next event is exactly the oldest event of its block, and the length check never fires |
| `RingProtocol.CatchUp` | userspace/libscap/ringbuffer/ringbuffer.h:55-111 | From every reachable state the reader alone can go on to read everything recorded |
| `RingProtocol.CountersConserved` | driver/main.c:1708-1928 | In every run since a reset, n_evts is the number of events recorded + n_drops_buffer + n_drops_pf + skipped + the attempt under way, and the category counters sum to at most n_drops_buffer |
| `RingStats.FinishConserves` | driver/main.c:1908-1928 | Each way an attempt can end accounts for it exactly once |
| `Gate.MutualExclusion` | driver/main.c:1688-1707 | With any nesting and any reopenings at most one context is past the gate, the counter is the number of contexts inside, never negative, and a lone context is admitted |
| `Gate.ZeroingBreaksTheGate` | driver/main.c:490-498 | Had the reset cleared the counter, two contexts could be admitted at once and the counter could end at -1 |
| `Gate.NegativeCounterLosesAll` | driver/main.c:490-498 | A negative counter with nobody inside never recovers: no context is ever admitted again |
| `GatedRing.SingleProducer` | driver/main.c:1688-1959 | Any run of many contexts behind the gate is a run of the one-producer protocol |
| `GatedRing.GatedFifo` | driver/main.c:1688-1959 | The FIFO guarantee for any number of contexts behind the gate |
| `BufferDim.BitTrick` | driver/ppm_ringbuffer.h:29-32 | x & (x - 1) is zero exactly for powers of two |
| `BufferDim.AcceptedSizes` | driver/ppm_ringbuffer.h:29-32 | A size is accepted iff page size and size are 2^i and 2^i * 2^j with j >= 2 |
| `BufferDim.Mmap` | driver/main.c:1115-1255 | The mapping request is refused exactly when it does not fit; otherwise the two loops map every page of the ring, then every page again |
| `BufferDim.MappingIsWrap` | driver/main.c:1197-1238 | The byte behind any offset of the doubled mapping is the one after a single subtraction of dim, so u and u + dim alias |
| `Params.KindOf` | driver/ppm_param_helpers.h:29-182 | Every type the serializer handles gets a width between the decoder's minimum and maximum length for that type |
| `Params.Handled` | driver/ppm_events.c:521-819 | Every type whose lengths are known is handled except eight; three of them as strings, one as a byte buffer |
| `UserMemory.CopyFromUser` | driver/ppm_events.c:86-98 | Returns 0 exactly when the whole range is readable, and then the bytes are copied; nothing outside the range changes |
| `UserMemory.StrncpyFromUser` | driver/ppm_events.c:111-161 | -1 or the length with terminator, which is what reading four bytes at a time finds; that many bytes are copied |
| `UserMemory.ChunkedCopyExact` | driver/ppm_events.c:111-161 | The chunked copier finds a length iff a byte-by-byte bounded copy does and every chunk it touches is readable |
| `Payload.UserStringShape` | driver/ppm_events.c:522-551 | A user string arrives whole, or as a prefix that fills the space and ends in a terminator, or empty exactly when a touched chunk is unreadable |
| `Payload.KernelStringShape` | driver/ppm_events.c:552-607 | A kernel string arrives whole or cut to the space, always terminated |
| `Payload.EncodedShape` | driver/ppm_events.c:521-819 | For every type: it fits, it is the value or a prefix of it, and its length is one the decoder allows |
| `Payload.PushedFits` | driver/ppm_events.c:465-830 | A pushed parameter fits the space, its length fits 16 bits and lies between the type's minimum and maximum |
| `Payload.DynamicIndexArrives` | driver/ppm_events.c:489-560 | Of one push: the index of a dynamic parameter is in front of the value iff it is 0 or the value is not a user string with no space left behind the index |
| `Pushes.UserBuffer` | driver/ppm_events.c:610-665 | A user buffer is refused iff its first 16 bytes do not fit with a byte to spare; otherwise it arrives as the most that length, space and, beyond 16 bytes, snap length allow, or as nothing iff that or the first 16 bytes cannot be read |
| `Pushes.KernelBuffer` | driver/ppm_events.c:666-680 | A kernel buffer arrives as the most that length and snap length allow, and is refused iff that does not fit with a byte to spare |
| `Pushes.Socket` | driver/ppm_events.c:692-720 | A socket or descriptor value is refused iff it does not fit with a byte to spare; otherwise it arrives whole, or as nothing iff it cannot be read |
| `Pushes.Nothing` | driver/ppm_events.c:681-690 | Null pointers and buffers without bytes arrive as empty values |
| `Pushes.Number` | driver/ppm_events.c:722-810 | A number arrives as its low bytes, and is refused iff its width exceeds the space |
| `Pushes.Text` | driver/ppm_events.c:522-607 | A string is never refused while there is space; it arrives whole or cut to the space, and as nothing iff it is a user string with an unreadable chunk |
| `Pushes.CutOnce` | driver/ppm_events.c:522-607 | There is only one way to cut a string to a space |
| `Pushes.Refused` | driver/ppm_events.c:489-490 | Without space everything is refused as buffer full; with space a type that is not handled is a bug |
| `Pushes.Indexes` | driver/ppm_events.c:496-519 | A dynamic parameter is its index and then what the chosen type leaves in the space behind it, with the same failures |
| `Serializer.Store` | driver/ppm_events.c:821-828 | An integer store leaves the low bytes, lowest first, and touches nothing else |
| `Serializer.PutStr` | driver/ppm_events.c:522-607 | The string branch writes exactly the specified bytes inside the space; without space it overwrites the byte before it |
| `Serializer.PutUserBuf` | driver/ppm_events.c:609-665 | The user buffer branch: lookahead first, then what snaplen and space leave |
| `Serializer.PutBuf` | driver/ppm_events.c:609-690 | The byte buffer branch writes exactly the specified bytes, or fails with buffer full |
| `Serializer.PutSock` | driver/ppm_events.c:692-720 | The socket and fd-list branch writes exactly the specified bytes, or fails with buffer full |
| `Serializer.PutValue` | driver/ppm_events.c:521-819 | The whole switch over types, within the space |
| `Serializer.FillerArgs.constructor` | driver/main.c:1764-1813 | The cursor starts behind the length array with all the space |
| `Serializer.FillerArgs.PushEmptyParam` | driver/ppm_events.c:434-456 | Pushes exactly one empty entry, or reports a bug when there are enough already |
| `Serializer.FillerArgs.ValToRing` | driver/ppm_events.c:465-830 | Appends exactly the specified bytes as the next parameter, or fails with the specified code and pushes nothing; writes stay in the event's space, and the sizes never underflow |
| `Filler.RunFiller` | driver/main.c:1813-1850 | A filler that is a list of pushes leaves exactly the specified values, and stops with the code of its first failure |
| `Filler.RunFits` | driver/ppm_events.c:824-828 | Whatever a filler pushes fits the space and has lengths the decoder allows |
| `DynamicIndex.ArriveIff` | driver/ppm_events.c:489-560 | Of whole fillers: whenever an event is filled, all its indices are in place iff no push overwrote one |
| `DynamicIndex.OverwriteIsLast` | driver/ppm_events.c:489-560 | A push that overwrites its index leaves no space, so in an event that is filled nothing is pushed after it |
| `DynamicIndex.LastPushDelivers` | driver/ppm_events.c:465-560 | A filler whose last push is not of a user string delivers all its indices |
| `DynamicIndex.RecordedIndices` | driver/main.c:1813-1860 | The same of every event that an attempt records: its indices are right iff no push overwrote one, and only the last push can have |
| `DynamicIndex.KeyctlDelivers` | driver/ppm_fillers.c:8633-8818 | keyctl, the one event with dynamic strings, always delivers its indices: its last argument is a number |
| `DynamicIndex.IndexCanBeLost` | driver/ppm_events.c:489-560 | A filler that ended in such a string could have index 1 recorded as index 0 |
| `Decoder.DecodeParams` | userspace/libscap/scap_event.c:99-154 | Returns all parameters, or none when the length array or a value does not fit the event |
| `Decoder.DecodesExactly` | userspace/libscap/scap_event.c:99-154 | For length entries of any size, values come out of the decoder iff their length entries and data area lie in the event |
| `Decoder.SizedRoundTrip` | userspace/libscap/scap_event.c:99-154 | With length entries of any size the decoder gets the first min(table, nparams) parameters of an event |
| `Decoder.HeaderRoundTrip` | driver/ppm_events_public.h:2261-2270 | Reading a written header gives it back |
| `Decoder.EventRoundTrip` | userspace/libscap/scap_event.c:99-154 | Decoding the bytes of an event gives back its header and exactly its values |
| `Recorder.Ring.constructor` | driver/main.c:2413-2461 | A fresh ring is an initial state of the protocol |
| `Recorder.Ring.Reset` | driver/main.c:2480-2505 | A reset with no attempt under way is the protocol's reset |
| `Recorder.Ring.Snapshot` | driver/main.c:1708-1714 | Counting the event and reading head and tail is the protocol's snapshot |
| `Recorder.Ring.WriteEvent` | driver/main.c:1742-1873 | Writes the event of the pushed values at head when all parameters were pushed, else reports the filler's code; touches nothing beyond its limit |
| `Recorder.Ring.Publish` | driver/main.c:1876-1907 | Copies the run-over to the front and moves head, wrapping it with one subtraction |
| `Recorder.Ring.Perform` | driver/main.c:1713-1928 | Whatever number is in tail: an attempt writes within its limit, inside the buffer, and copies the run-over; it ends as specified, moves exactly that counter, and head stays in the ring |
| `Recorder.Ring.Record` | driver/main.c:1710-1959 | An attempt, in place on the buffer, is a run of the protocol that makes exactly the specified attempt: it ends as specified, moves exactly that counter, and records exactly the event of the values pushed |
| `Admission.NoRoomIff` | driver/main.c:1716-1742 | For a fresh snapshot in any reachable state an attempt finds no room iff header and length array do not fit behind the unread events with a byte to spare |
| `Admission.NumbersEnding` | driver/main.c:1742-1873 | An attempt whose filler pushes numbers: exactly which ending it has; it inserts iff all parameters are pushed and header, length array and widths fit behind the unread events |
| `Admission.NumbersFill` | driver/main.c:1813-1850 | Such a filler succeeds iff the widths fit, and leaves exactly the numbers pushed |
| `Admission.NumbersRecorded` | driver/main.c:1742-1873 | The event it inserts has the request's header fields and carries exactly those numbers |
| `Admission.FailureCounts` | driver/main.c:1908-1926 | Per failure code exactly which counter moves, by one; the counter of the category only for want of space |
| `Admission.OtherCounts` | driver/main.c:1876-1910 | An insertion, a missing room and a missing parameter each move one counter and none of a category |
| `Recorder.EventDecodes` | driver/main.c:1735-1860 | A recorded event decodes to its header, whose length is header + 2 * nparams + lengths, and to its values |
| `Recorder.InsertionPublishes` | driver/main.c:1850-1860 | Every attempt that ends in an insertion publishes a decodable event, whatever its filler |
| `Pipeline.EndToEnd` | userspace/libscap/scap_event.c:99-154 | In every interleaving of attempts and reads the ring records exactly the events of the attempts that insert one, and user space has decoded, in order, the headers and values of the first of them |
| `Pipeline.StepInv` | driver/main.c:1710-1959 | A reader step between any two stores of an attempt leaves the attempt able to finish, with the same ending and the same event |
| `Pipeline.NeverBlocked` | driver/main.c:1710-1959 | After every run the attempt under way can make all its remaining stores, and then the ring has recorded exactly the events of all attempts that insert one |
| `Pipeline.PlanExists` | driver/main.c:1742-1907 | From every reachable state every request can be attempted |
| `Attempt.RecordSafely` | driver/main.c:1742-1907 | Any complete event within the limit can be written and committed by protocol steps, which keep the invariant |
| `Tracepoints.ForcedInv` | driver/main.c:604-739 | Whichever registrations fail, attached iff referred to, and kernel calls of each managed tracepoint alternate |
| `Tracepoints.KernelCalled` | driver/main.c:613-725 | The kernel is called for a tracepoint exactly once if that attaches or detaches it or its registration fails, and otherwise not |
| `Tracepoints.ReferredIff` | driver/main.c:613-725 | After a request the consumer refers to a tracepoint iff it asked for it, up to the first failing registration; from there on as before |
| `Tracepoints.Stop` | driver/main.c:612-738 | The walk stops at the first registration that fails |
| `Device.Driver.ForceTpSet` | driver/main.c:604-739 | Settles every tracepoint up to the first failing registration and none behind it; the failing one counts as processed |
| `Device.Driver.ForceOne` | driver/main.c:613-725 | One tracepoint: its reference and attached bits and the kernel call made, if any |
| `Device.Driver.SetConsumerTracepoints` | driver/main.c:300-316 | The mask follows the request up to and including a failing bit |
| `Device.Driver.FindConsumer` | driver/main.c:318-331 | The first consumer of a given thread, if there is one |
| `Device.Driver.CheckRemoveConsumer` | driver/main.c:333-364 | A consumer without open rings gives up its tracepoints and leaves the list; any other stays |
| `Device.Driver.OpenDevice` | driver/main.c:369-524 | Opening, with every error path, is the specified transition |
| `Device.Driver.ReleaseDevice` | driver/main.c:526-589 | Closing, with every error path, is the specified transition |
| `Device.Driver.SetTracepoint` | driver/main.c:1066-1091 | Enabling or disabling one tracepoint is the specified transition |
| `Consumers.TpMask` | driver/main.c:1066-1091 | Only the tracepoint named enters or leaves the mask, and iff no registration below it fails; all others stay |
| `Sessions.SetTpCodeIs` | driver/main.c:1066-1091 | A tracepoint call fails iff the task has no consumer or the tracepoint does not exist, each with its code, and then does nothing |
| `Sessions.AsksIff` | driver/main.c:1066-1091 | In every run a task asks for exactly the tracepoints whose last effective call by its present consumer turned them on |
| `Sessions.OpenCodeIs` | driver/main.c:369-524 | An open succeeds iff the ring was not open and its CPU is online and the task has or gets a consumer; each other outcome has its code |
| `Sessions.ReleaseCodeIs` | driver/main.c:526-589 | A close succeeds iff the ring is open; otherwise it is busy and does nothing |
| `Sessions.OpenRings` | driver/main.c:369-589 | No call opens or closes a ring other than the one it names |
| `Sessions.OpenIff` | driver/main.c:369-589 | In every run a ring is open iff an open of it succeeded and the task has not closed it since |
| `Registry.StepInv` | driver/main.c:369-589 | Every call keeps: attached iff referred to, alternation, references owned by listed consumers, one consumer per task, at most max_consumers |
| `Registry.EveryRun` | driver/main.c:344-348 | In every run from module start; and once the last consumer is gone nothing is referred to or attached |
| `Lingering.StepIdle` | driver/main.c:461-478 | A consumer comes to be listed without an open ring only by a first open on a CPU that is not online, and ceases to be only by opening an online ring |
| `Lingering.IdleIff` | driver/main.c:461-478 | In every run from module start exactly the consumers of such opens, not followed by an open of an online ring, are listed without an open ring; no close and no other task removes them |
| `Lingering.AllOpenIff` | driver/main.c:461-478 | Every listed consumer has an open ring iff each such open was followed by one of an online ring |
| `Requests.OpenKeepsDistinctIff` | driver/main.c:388-412 | A first open keeps ids distinct iff no listed consumer holds the current count as its id |
| `Requests.BitsFollowMasks` | driver/main.c:300-316 | While every first open finds its id free, a consumer's bit implies its mask; where no registration failed the two are equal |
| `Stealing.TraceDetachesIff` | driver/main.c:635-640 | A request detaches a tracepoint iff it is not wanted and the caller alone refers to it |
| `Stealing.CanStealIff` | driver/main.c:604-739 | Some sequence of enables, disables and closes by the listed consumers can detach a tracepoint another one asks for iff there are two consumers and two ids coincide or a consumer lacks its bit |
| `Collisions.FailedOpenStealsIff` | driver/main.c:516-517 | A first open that fails in its rings detaches a tracepoint a listed consumer asks for iff there is room for a consumer and only the id it would have had refers to that tracepoint |
| `Collisions.OpenCanStealIff` | driver/main.c:344-348 | Enables and disables of the listed consumers can lead to such an open iff there is room and one of them holds the next id |
| `Collisions.FreshRunNeverSteals` | driver/main.c:369-589 | While every first open finds its id free and no registration fails, no call of any kind detaches what another consumer asks for |
| `Collisions.FailedOpenRobs` | driver/main.c:344-348 | A run from module start after which a failed open takes the only tracepoint of the only consumer |
| `Collisions.IdsCanCollide` | driver/main.c:388-412 | A run of four opens and closes that gives two consumers one id, after which stealing is possible |
| `Rcu.StepInv` | driver/main.c:333-364 | Every pointer step of readers and of the mutex holder keeps the list linked and every walk accounted for |
| `Rcu.NeverFreed` | driver/main.c:1559-1571 | In every run the consumer a walk stands on, the one it goes to next, and any consumer with an open ring are not freed |
| `Rcu.EveryConsumerOnce` | driver/main.c:1559-1571 | In every run a walk, when it ends, has visited nobody twice and everybody that was in the list in all states from its beginning on |
| `Rcu.RemovalCompletes` | driver/main.c:333-364 | In every run an unlinked consumer can be freed: the walks it waits for can each end by themselves, and then it is |
| `Sampling.Consumer.Record` | driver/main.c:1633-1645 | A call records the due marker, samples, then records the event, as specified; nesting depth at most two |
| `Sampling.Consumer.RecordDropE` | driver/main.c:1354-1375 | The enter marker is recorded or left due |
| `Sampling.Consumer.RecordDropX` | driver/main.c:1461-1482 | The exit marker is recorded or left due |
| `Sampling.Consumer.DropEvent` | driver/main.c:1514-1557 | Whether the event is dropped, and which marker that calls for |
| `Sampling.Consumer.EnableDroppingMode` | driver/main.c:911-934 | Turns dropping mode on, also when the ratio is refused; the interval is then an exact fraction of a second iff the ratio was accepted or it already was one |
| `Sampling.Consumer.DisableDroppingMode` | driver/main.c:901-910 | Afterwards no event of any kind is dropped at any time, and the interval is a whole second |
| `DropMarkers.ExactIff` | driver/main.c:901-934 | Over every run of calls, enables and disables, interval * ratio is one second iff it was at the start or a disable or an accepted enable has occurred |
| `DropMarkers.ExactSinceOpening` | driver/main.c:498-502 | From opening on it is iff such a call has occurred: opening itself does not set it |
| `Sampling.RejectedEnableDropsAll` | driver/main.c:911-925 | A refused enable right after opening drops every event that may be dropped |
| `Sampling.KeptShare` | driver/main.c:1539-1552 | The nanoseconds of any whole number of seconds in which a sampled event is not dropped are exactly one ratio-th |
| `Sampling.DroppedIff` | driver/main.c:1539-1541 | With an exact fraction a sampled event is dropped iff the clock's remainder times the ratio is a second or more |
| `Sampling.FlagsDecide` | driver/main.c:1520-1538 | Outside dropping mode nothing is dropped; in it stateless and always-drop events are, and never-drop events are not unless stateless |
| `Sampling.EnabledShare` | driver/main.c:911-934 | After an enable with an accepted ratio exactly one ratio-th of the time is kept, whatever went before |
| `Sampling.ValidRatioIff` | driver/main.c:914-922 | The accepted ratios are the powers of two up to 128 |
| `Sampling.StretchFollowsClock` | driver/main.c:1539-1554 | A sampled event starts or ends a dropped stretch according to whether it is dropped itself; no other event does |
| `DropMarkers.RunAdds` | driver/main.c:1633-1645 | Over every run the ring gets exactly the events that are not dropped and find room, in order |
| `DropMarkers.MarkerTellsClock` | driver/main.c:1514-1557 | While markers fit, the last marker tells whether the latest sampled event is dropped |
| `DropMarkers.MarkersEnclose` | driver/main.c:1514-1557 | From opening on, while every marker fits, markers alternate, enter first, the last one tells whether a stretch is being dropped, and what is recorded in dropping mode between them is never to be dropped |
| `DropMarkers.BreaksIff` | driver/main.c:1633-1638 | Some next call breaks the alternation exactly in the states named |
| `DropMarkers.FailedMarkersBreak` | driver/main.c:1633-1638 | A run with failed insertions after which an exit marker stands alone |
| `Scaling.Reduced` | driver/ppm_cputime.c:156-182 | The loop terminates with both factors and the total below 2^32 |
| `Scaling.ScaleStime` | driver/ppm_cputime.c:153-190 | Computes the specified quotient; no variable leaves 64 bits |
| `Scaling.ReducedDrops` | driver/ppm_cputime.c:156-182 | The loop drops exactly k = max(0, bits(total) - 32, bits(stime) + bits(rtime) - 64) bits, and leaves total k bits narrower |
| `Scaling.ScaledBound` | driver/ppm_cputime.c:153-190 | With k = max(0, bits(total) - 32, bits(stime) + bits(rtime) - 64), result * (total - 2^k + 1) <= stime * rtime whenever total >= 2^k |
| `Scaling.DivisorVanishesIff` | driver/ppm_cputime.c:153-190 | The division is by zero iff total is 0 or both factors are non-zero and bits(stime) + bits(rtime) >= 64 + bits(total) |
| `Scaling.DivisorNonZero` | driver/ppm_cputime.c:153-190 | No division by zero when 0 < total, stime <= total and rtime < 2^63 |
| `Scaling.DivisorCanVanish` | driver/ppm_cputime.c:153-190 | A division by zero with rtime = 2^63 |
| `Scaling.ScaledExact` | driver/ppm_cputime.c:153-190 | In the 32-bit range the exact floor quotient, at most rtime when stime <= total |
| `Scaling.ScaledRounded` | driver/ppm_cputime.c:153-190 | Where no bit is dropped the result is the floor quotient with the larger factor rounded down to its highest 32 bits |
| `Scaling.ScaledWithinRuntime` | driver/ppm_cputime.c:153-190 | With k bits dropped the result is at most rtime whenever total - stime >= 2^k - 1 |
| `Scaling.ScaledCanExceedRuntime` | driver/ppm_cputime.c:153-190 | Times for which the result exceeds rtime |
| `Scaling.OneTickShort` | driver/ppm_cputime.c:153-190 | That is sharp: whenever 2^31 <= t * 2^k < r < 2^32, the times stime = t * 2^k + 1 and rtime = r * 2^k with total - stime = 2^k - 2 drop k bits and give a result above rtime |
| `CpuTime.Advance` | driver/ppm_cputime.c:201-206 | The counter ends at or above its old value and the new one, whatever other CPUs do, within one round more than they interfere; alone it is the maximum |
| `CpuTime.PrevCputime.Adjust` | driver/ppm_cputime.c:212-264 | One call leaves the specified counters, never lower ones |
| `CpuTime.SeriesMonotone` | driver/ppm_cputime.c:212-264 | Over any series of calls neither reported time decreases |
| `CpuTime.SplitFailsIff` | driver/ppm_cputime.c:242-256 | A call divides by zero iff both times are non-zero and the scaling does |
| `CpuTime.SplitSum` | driver/ppm_cputime.c:242-256 | Whatever precision is lost, the two parts add up to rtime modulo 2^64 |
| `CpuTime.SplitShare` | driver/ppm_cputime.c:242-256 | No user time: all run time is system time, and the other way round; in the 32-bit range system time gets its share, rounded down, and user time the rest |
| `CpuTime.AdjustedLeast` | driver/ppm_cputime.c:238-261 | A call that is behind leaves the least counters no lower than before and than the split; one that is not leaves them as they are |
| `CpuTime.SeriesNeverBehind` | driver/ppm_cputime.c:212-264 | Over any series, a call that succeeds leaves counters whose unbounded sum is at least its rtime |
| `CpuTime.SplitExact` | driver/ppm_cputime.c:242-256 | Where the user time makes up for the bits dropped the parts add up to rtime without wrapping |
| `CpuTime.SeriesCatchesUp` | driver/ppm_cputime.c:212-264 | With run times below 2^63 and user times that make up for the bits dropped, every call succeeds and the reported 64-bit sum is at least rtime |
| `CpuTimeRace.StepInv` | driver/ppm_cputime.c:201-264 | Every load and exchange of concurrent calls keeps the counters from decreasing |
| `CpuTimeRace.ReportsNeverDecrease` | driver/ppm_cputime.c:212-264 | In every interleaving a call reports at least what had been reported when it began |
| `CpuTimeRace.SoloCall` | driver/ppm_cputime.c:212-264 | Left alone, the stepwise call does what the sequential one does, whenever that succeeds |
| `Scatter.TotalLen` | driver/ppm_events.c:1266-1268 | The sum of the lengths in the vector on the page, modulo 2^64 |
| `Scatter.IovReads` | driver/ppm_events.c:1252-1259 | An entry written as an address and a length, 64 bits each, is read back from the page as that buffer and length |
| `Scatter.Merge` | driver/ppm_events.c:1295-1335 | Merges what is wanted of the buffers that the vector on the page names, behind it, or reports a fault |
| `Scatter.GatherIsPrefix` | driver/ppm_events.c:1295-1335 | Whenever merging succeeds the bytes are the first min(sum, room) of the concatenated buffers, also where a buffer cannot be read beyond that |
| `Scatter.GatherFailsIff` | driver/ppm_events.c:1295-1335 | Merging fails iff some buffer cannot be read as far as it is wanted |
| `Scatter.ReadSizeBoundsData` | driver/ppm_events.c:1270-1276 | A read reports min(sum, retval), which bounds the data delivered |
| `VectorIo.ParseBufs` | driver/ppm_events.c:1230-1349 | Fetches the vector into the page, then pushes exactly the specified size and data in front of whatever the filler pushes next, or fails with the specified code; when it pushes nothing the cursor is untouched |
| `VectorData.ParsedEnds` | driver/ppm_events.c:1230-1349 | Exactly how a request ends: buffer full iff the vector does not fit the page, a fault iff the vector or a wanted part of a buffer cannot be read |
| `VectorData.DataPushed` | driver/ppm_events.c:1270-1349 | A data request that succeeds pushes the first n bytes of the concatenated buffers, n the least of their sum, the room in the page (and the result, for a read) and the snap length; nothing if the call transferred nothing |
| `VectorData.SizePushed` | driver/ppm_events.c:1262-1290 | A size request pushes the vector's size, for a read at most the result, both as 64-bit words, in 32 bits |
| `VectorData.BothPushed` | driver/ppm_events.c:1262-1349 | A request for both pushes that size and then that data |
| `VectorData.BothTyped` | driver/ppm_events.c:1262-1349 | A table with an unsigned 32-bit entry and then a byte buffer suits every request for both |
| `VectorIo.NothingBeforeFault` | driver/ppm_events.c:1230-1349 | Asked for one part only, it has pushed nothing when it reports unreadable memory |
| `VectorIo.RecoveredPushesOne` | driver/ppm_fillers.c:4144-4149 | With the fallback, each part pushes exactly one entry unless the vector is too long |
| `VectorIo.ParseOr` | driver/ppm_fillers.c:4178-4183 | The part with its fallback pushes exactly the specified entry |
| `VectorIo.WritevX` | driver/ppm_fillers.c:4107-4290 | The writev and pwritev fillers push exactly the specified list: result, data or nothing, descriptor, size or zero, position; they stop with the code of the first failure |
| `VectorIo.WritevComplete` | driver/ppm_fillers.c:4107-4290 | That list fits the event's table, and when it succeeds there is exactly one entry per parameter, whatever could not be read |
| `VectorData.WritevCarries` | driver/ppm_fillers.c:4107-4290 | A writev or pwritev that succeeds carries its result, that prefix of its buffers or nothing if they cannot be read, its descriptor, the size modulo 2^32 or zero, and the position |
| `Argv.Accumulate` | driver/ppm_fillers.c:629-670 | The storage holds the specified bytes, the last one a terminator |
| `Argv.AccumulatedIsReference` | driver/ppm_fillers.c:629-670 | For every list that is what copying the strings byte by byte, one behind the other, leaves; a string with an unreadable chunk contributes nothing |
| `Argv.StorageIs` | driver/ppm_fillers.c:629-670 | Where each string is readable or cannot be read in the room left for it: the readable ones in order, cut to the page with a final terminator; uncut they are exact |
| `PollList.PollParseFds` | driver/ppm_fillers.c:3445-3511 | For every count for which passing the space check means that there is space: succeeds iff both lists fit the page and the serialized one the event, and then pushes one entry that decodes to the descriptors and flags given, or to none if they cannot be read; otherwise pushes nothing |
| `PollList.CheckedFitsIff` | driver/ppm_fillers.c:3465-3466 | Passing the space check, which is made modulo 2^64, means that there is space iff the sum does not wrap or what it wraps to is refused; where it does not wrap the check is exact |
| `PollList.CheckCanWrap` | driver/ppm_fillers.c:3465-3466 | A count that passes the check without there being space: 2^63 |
| `PollList.PollFdReads` | driver/ppm_fillers.c:3490-3506 | Each entry carries the descriptor, and the flags asked for on entry, returned on exit |
| `PollList.PolledIs` | driver/ppm_fillers.c:3472-3506 | The list has one entry per structure, in order, and none if one of them cannot be read |
| `PollList.ListRoundTrip` | driver/ppm_events_public.h:2161-2161 | Decoding a serialized list gives it back |
| `Version.PackExtract` | driver/ppm_api_version.h:12-35 | Extracting gives the components back iff they are in range; bit 63 is clear |
| `Version.ExtractPack` | driver/ppm_api_version.h:12-35 | Packing what was extracted gives the word back iff bit 63 is clear |
| `Version.OrderPreserved` | driver/ppm_api_version.h:12-35 | Packed order is lexicographic order, as section 11 of Semantic Versioning 2.0.0 has it for plain versions |
| `Version.CompatibleIsAtLeast` | userspace/libscap/scap_api_version.c:25-59 | Compatible iff the majors are equal and the packed number is at least the required one |

## Left out

- Most fillers: a filler is a list of pushes with a final code; their choice of values from kernel structures is not modelled.
- Event, flag, filler and syscall tables: an event is its list of parameter types; poll flag translation is a parameter.
- `compute_snaplen`: its protocol heuristics are a parameter of each push, any number.
- `fd_to_socktuple`, `pack_addr`, cgroup, inode and tty lookups: reads of kernel structures.
- The syscall filters in front of the recorder (tracepoint mask, syscall mask, failed calls): they only choose which attempts are made.
- CPU hotplug, the sendmmsg and recvmmsg loop, sentinel builds, 32-bit compatibility variants and kernel version branches.
- A reset of the ring while an attempt is under way is covered by the gate only, not by the FIFO results.
- Memory ordering: stores are taken to become visible in program order, as the two barriers in the code provide.
- Byte order: words are little-endian, as on the supported hosts.
- Counters of the ring are unbounded; 64-bit wrap-around, n_preemptions and n_context_switches are not modelled.
- The choice among several rings in `ringbuffer_next` and the threshold that delays a refill.
- Consumer ids are elements of a set; the shift `1 << id` is defined only below 32, so the results are about max_consumers <= 32.
- The tracepoint hit counter, and grace periods of tracepoint unregistration.
- Scaling.ScaledWithinRuntime: one direction; with less than 2^k - 1 left of the total it depends on the bits dropped whether the result exceeds the run time.
- User memory is taken not to change while one event is recorded.
- PollList.PollParseFds: what the loop does with a count that passes the space check by wrapping; `PollList.CheckedFitsIff` says which counts these are.
