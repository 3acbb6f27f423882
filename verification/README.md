# Verified model of ipmb

ipmb is an inter-process message bus. Endpoints join a bus under an identifier; the first one that may becomes the
controller and routes for the others. A message names its recipients by a Boolean expression over labels, can wait for a
recipient that is not there yet, and can carry descriptors and shared memory regions. This project models the state
machines behind that and proves what they keep, for all inputs, all runs and all interleavings. System calls, clocks and
other processes are parameters that may take any value.

| files | component |
|---|---|
| `bus_model`, `bus_proofs`, `bus_theorems`, `bus_outcomes`, `bus_channels`, `bus_controller` | the controller's loop: admission, routing, parking, replay, housekeeping |
| `label`, `version` | labels, label expressions, version compatibility |
| `ref_counts`, `ref_count_theorems`, `shared_memory` | the cross-process reference counter of a shared memory region |
| `memory_registry`, `memory_registry_theorems`, `memory_registry_object` | the cache of regions and its free callbacks |
| `exclusive_reuse` | registry and reference counter together |
| `endpoint`, `endpoint_object` | sending, receiving and rejoining by several threads that share one connection |
| `io_hub` | the queue and eventfd handshake between senders and the sleeping hub |
| `words`, `linux_frame`, `windows_frame` | the wire frames, written into and read from byte buffers |
| `js_local_buffer` | the rendezvous of promises and messages in the Node.js binding |

Most modules work on values; each class beside them has the fields the program has, changes them in place, and every method
is proved to compute the function that the theorems are about. `dafny verify dfyconfig.toml` checks everything.

How to read the main models:

- **Bus.** A `Bus` holds the controller's fields, whether its local receiver is still open, and the history of the run: what
  arrived, what was delivered to whom, what was dropped. A `Turn` is one result of the hub's `recv` with the outcome of
  every send in that iteration. Sends only ever succeed or disconnect, as in the platform code. Arrivals are numbered; the
  number and the arrival time are not on the wire.
- **Reference counts.** Every increment that has not been taken back is a token that says why: a live handle, an increment
  of a send that is not settled, a copy in flight, a copy taken from a socket but not settled, or a copy nobody can give
  back any more (a rejected or lost packet, a crashed process). The steps are single atomic operations.
- **Registry.** The reading of a counter during the search and the one during maintenance are separate parameters, because
  other processes run in between.
- **Endpoint.** A thread that saw a disconnect under the read lock remembers the epoch; the model adds the number of the
  connection, which does not wrap around, so that "newer" has a meaning.

Where the code differs from what one might expect of it, the code is followed:

- Replay tries a parked message before it looks at its expiry (`ipmb/src/bus_controller.rs:80-87`), so an expired message
  can be delivered. `JoinDelivers` says exactly when; `LateDeliveryHappens` is an example.
- Eviction after 5 seconds runs the free callback of a region that is still in use elsewhere
  (`ipmb/src/memory_registry.rs:69-77`). `MaintenanceFires` has the exact condition, and `FiresWhileHeld` is an
  example.
- Epochs wrap around at 2^32, so a thread that sleeps through a multiple of 2^32 rejoins does tear down a newer connection.
  `TearsDownIff` has the exact condition, and `NewerIsTornDown` shows that it happens.
- The receiver offers room for four descriptors; a frame with more reads as a disconnect, and so does a frame of 2^32 bytes
  or more, whose length is kept in 32 bits. `FrameRoundTrip` has the exact condition.
- A request of size 0 never reuses a region, because its range of sizes is empty. `BestFit` includes this case.

## Model

| member | source | states |
|---|---|---|
| `BusTheorems.DeliveryIsFifo` | `ipmb/src/bus_controller.rs:53-95` | Over every run, what one endpoint (or the controller's own queue) has received is a subsequence of what arrived at the controller, in arrival order, although messages are parked and replayed |
| `BusTheorems.NothingStranded` | `ipmb/src/bus_controller.rs:70-94` | In every reachable state no parked message matches a registered endpoint, nor the controller's own label while its local receiver is open |
| `BusTheorems.NoDoubleDelivery` | `ipmb/src/bus_controller.rs:100-159` | Two deliveries of one message in a run are multicast deliveries to different targets; a delivered message is not parked as well |
| `BusTheorems.MessagesConserved` | `ipmb/src/bus_controller.rs:68-95` | Every message that arrived has exactly one fate: delivered to somebody, parked until arrival time plus ttl, or dropped no earlier than that |
| `BusTheorems.ParkedIsUnexpired` | `ipmb/src/bus_controller.rs:239-241` | After an iteration with housekeeping everything parked expires later than now; an iteration that is skipped leaves the buffer alone |
| `BusTheorems.MulticastSweep` | `ipmb/src/bus_controller.rs:121-137` | A multicast reaches exactly the matching endpoints whose send succeeds and unregisters exactly the matching ones whose send fails |
| `BusTheorems.UnicastSweep` | `ipmb/src/bus_controller.rs:121-137` | A unicast reaches the first registered endpoint that takes it and nobody else; only the matching endpoints before that one are unregistered |
| `BusTheorems.JoinDelivers` | `ipmb/src/bus_controller.rs:77-91` | When an endpoint joins, a parked message is delivered if and only if the newcomer matches and no send to it has failed so far; expiry plays no part |
| `BusTheorems.ReplayDelivers` | `ipmb/src/bus_controller.rs:80-87` | Replay delivers a queued message that only one endpoint wants if and only if that endpoint is registered, matches, and has taken everything before it |
| `BusTheorems.LateDeliveryHappens` | `ipmb/src/bus_controller.rs:80-87` | A concrete run in which a message with a time to live of 1 is delivered 99 time units after it has expired |
| `BusTheorems.ParkedOutlivesExpiry` | `ipmb/src/bus_controller.rs:65-87` | A message parked by an empty controller is delivered to a matching client whose request is the next thing served, however late; failed receives and foreign versions may come in between |
| `BusProofs.SweepKeeps` | `ipmb/src/bus_controller.rs:121-137` | Whoever loses registration in a pass over the endpoints matched the message and failed its send; the rest stay, in order |
| `BusProofs.SweepReaches` | `ipmb/src/bus_controller.rs:121-137` | Only matching endpoints that stay registered get the message, one at most for a unicast; if nobody got it, no matching endpoint is left |
| `BusProofs.StepKeepsInv` | `ipmb/src/bus_controller.rs:53-95` | Every iteration keeps order, unique delivery, conservation, and that nobody registered wants what is parked |
| `BusProofs.HandleKeepsInv` | `ipmb/src/bus_controller.rs:100-159` | One routing attempt, with what follows for its message, keeps that invariant for the rest of the replay queue |
| `BusProofs.Reachable` | `ipmb/src/bus_controller.rs:50-97` | The invariant holds after every finite run, for all arrivals, send outcomes and clock readings |
| `BusOutcomes.ArrivalOutcome` | `ipmb/src/bus_controller.rs:68-76` | Exactly which endpoints get a message in the iteration in which it arrives, whether the controller's own queue does, and, if nobody does, whether it is parked or dropped |
| `BusOutcomes.SweepReachesExactly` | `ipmb/src/bus_controller.rs:121-137` | An endpoint is reached if and only if it matches and its send succeeds, and for a unicast it is the first such one |
| `BusOutcomes.UnregisteredIff` | `ipmb/src/bus_controller.rs:121-137` | In an iteration an endpoint is unregistered if and only if it is found dead, or a send to it was tried and failed: of the arriving message or of a replayed one, and of a unicast only if no endpoint before it took the message |
| `BusOutcomes.AdmittedOnce` | `ipmb/src/bus_controller.rs:161-229` | In every run each registered endpoint stems from exactly one connect request, which had a compatible version and the token and whose positive ack was delivered |
| `BusOutcomes.NoTwoAlike` | `ipmb/src/bus_controller.rs:213-227` | In every reachable state no two registered endpoints share both label and reply channel, nor an identifier |
| `BusOutcomes.NewcomerIff` | `ipmb/src/bus_controller.rs:161-229` | A connect request leaves its sender registered if and only if version and token are right, the ack went out, nobody is registered with the same label and the same channel, the newcomer is not found dead, and no send to it fails in the replay |
| `BusOutcomes.LocalOpenIff` | `ipmb/src/bus_controller.rs:139-149` | In every run the controller's own queue is open if and only if it has refused no message that arrived for it |
| `BusOutcomes.LocalQueueIsServed` | `ipmb/src/bus_controller.rs:139-143` | If the queue never refuses, it gets every arriving message that the controller's label validates and that is a multicast or that no endpoint took |
| `BusOutcomes.LastCheckIs` | `ipmb/src/bus_controller.rs:231-237` | Remotes are checked at iterations more than 30 seconds apart, as the turns alone say |
| `BusOutcomes.ArrivalsAreTheTurns` | `ipmb/src/bus_controller.rs:53-76` | The arrivals that order and conservation are about are exactly the ordinary messages of the turns, in order |
| `BusChannels.ChannelHistory` | `ipmb/src/bus_controller.rs:161-229` | A reply channel presented once stays empty if and only if its ack could not be sent; otherwise it carries the one matching refusal, or one positive ack first and then only messages its own label validates, in arrival order; an admitted client has a compatible version and the token, and so accepts every frame the controller forwards |
| `BusChannels.ChannelsOk` | `ipmb/src/bus_controller.rs:120-229` | At every moment the content of a reply channel is what the controller's verdict on its connect request allows |
| `BusControllers.BusController.RunOnce` | `ipmb/src/bus_controller.rs:53-95` | One iteration of the loop on the fields in place computes the specified step and leaves the swap buffer empty |
| `BusControllers.BusController.HandlePacket` | `ipmb/src/bus_controller.rs:70-91` | Parks what remains of a message with time to live, drops it without, and replays after a connection |
| `BusControllers.BusController.ReplayBuffer` | `ipmb/src/bus_controller.rs:78-90` | Draining the buffer through the swap buffer computes the specified replay, entry by entry |
| `BusControllers.BusController.HandleMessage` | `ipmb/src/bus_controller.rs:100-159` | Routes a message and says whether it remains, or registers an endpoint, without touching the buffers |
| `BusControllers.BusController.SendToEndpoints` | `ipmb/src/bus_controller.rs:121-137` | The retain pass: who stays, who gets the message, in which order |
| `BusControllers.BusController.EndpointConnect` | `ipmb/src/bus_controller.rs:161-229` | Admission: the version and token checks, the ack, and the check for an existing registration |
| `BusControllers.BusController.DetectReachable` | `ipmb/src/bus_controller.rs:231-237` | More than 30 seconds after the last check, dead remotes are unregistered |
| `BusControllers.BusController.MaintainBuffer` | `ipmb/src/bus_controller.rs:239-241` | Removes exactly the expired entries and keeps the order of the others |
| `Labels.LabelList.Insert` | `ipmb/src/label.rs:10-16` | Appends an element unless it is there |
| `Labels.LabelList.Remove` | `ipmb/src/label.rs:18-20` | Removes every occurrence of an element |
| `Labels.LabelList.All` | `ipmb/src/label.rs:22-29` | True if and only if every given element is in the label |
| `Labels.LabelList.Extend` | `ipmb/src/label.rs:41-49` | Building a label inserts the items one by one |
| `Labels.InsertedAllIsSet` | `ipmb/src/label.rs:41-49` | A label that was built by insertion holds exactly the given elements, each once |
| `Labels.RemoveUndoesInsert` | `ipmb/src/label.rs:10-20` | Removal undoes an insertion if and only if the element was new |
| `Labels.ValidateSeesOnlyElements` | `ipmb/src/label.rs:88-97` | Matching depends on the set of elements of a label, not on their order or number |
| `Labels.ChainsSelect` | `ipmb/src/label.rs:79-97` | A chain of and selects the labels that contain all its elements, a chain of or those that contain any, and their negations the others |
| `Versions.CompatibleIffSameLine` | `ipmb/src/lib.rs:559-565` | Versions are compatible if and only if they belong to one line: the same major number from 1.0 on, the same minor number before |
| `RefCounts.NextKeepsInv` | `ipmb/src/platform/mod.rs:43-112` | Every atomic step of every process keeps: the counter is the number of increments not taken back, and each unsettled increment belongs to one pending operation |
| `RefCounts.NextConserves` | `ipmb/src/platform/mod.rs:139-149` | Every atomic step moves the counter and the tokens that explain it alike |
| `RefCountTheorems.RunsAreSound` | `ipmb/src/platform/linux/encoded_message.rs:120-176` | The invariant holds in every interleaving of new, clone, drop, send, failed send, receive, loss and crash over any number of processes |
| `RefCountTheorems.CounterConserved` | `ipmb/src/platform/mod.rs:139-149` | In every reachable state the counter equals live handles, plus unsettled increments, plus copies in flight, plus copies lost, modulo 2^32 |
| `RefCountTheorems.CounterNeverTooLow` | `ipmb/src/platform/linux/encoded_message.rs:103-118` | Below 2^32 references the counter is never less than live handles plus copies in flight |
| `RefCountTheorems.CounterNeverUnderflows` | `ipmb/src/platform/mod.rs:139-149` | Every decrement finds a positive counter and lowers it by one |
| `RefCountTheorems.CounterAtRest` | `ipmb/src/platform/linux/encoded_message.rs:161-176` | With nothing pending, only live handles and leaks count |
| `RefCountTheorems.FailedSendLeavesNothing` | `ipmb/src/platform/linux/encoded_message.rs:168-173` | When a failed send has undone its increments none of them is left |
| `RefCountTheorems.SentIsInFlight` | `ipmb/src/platform/linux/encoded_message.rs:161-176` | A completed send puts all attached regions in flight in order, each with an increment of its own, and changes no counter |
| `RefCountTheorems.ReceiverOwns` | `ipmb/src/platform/linux/encoded_message.rs:120-127` | A receive that comes to its end has given the receiving process a live handle to every region of the packet |
| `RefCountTheorems.OneMeansAlone` | `ipmb/src/memory_registry.rs:39` | A process reads 1 from an idle handle of its own if and only if nothing else anywhere refers to the region |
| `RefCountTheorems.ExclusiveUntilTouched` | `ipmb/src/memory_registry.rs:37-49` | After that reading, whatever the other processes do, no reference can appear until the owner uses the handle |
| `RefCountTheorems.ReuseIsExclusive` | `ipmb/src/memory_registry.rs:39-47` | When the owner then clones the handle, its handle and the clone are all the references there are |
| `ExclusiveReuse.AllocReusesExclusively` | `ipmb/src/memory_registry.rs:37-49` | A region that alloc serves from the cache belongs to the registry's entry and the caller alone, in all processes and whatever these did between the reading of the counter and the clone |
| `ExclusiveReuse.HeldIsNotReused` | `ipmb/src/memory_registry.rs:37-39` | A cached region to which anybody else refers when its counter is read is not handed out |
| `RefCountTheorems.LeakPreventsReuse` | `ipmb/src/platform/linux/encoded_message.rs:103-118` | A region of which a copy was lost is never again found with a count of 1 while it has a live handle |
| `SharedMemories.SharedMemory.RefCountInner` | `ipmb/src/platform/mod.rs:139-149` | Load, add or subtract by the sign of the amount, wrapping at 32 bits, returning the value before |
| `SharedMemories.SharedMemory.New` | `ipmb/src/platform/mod.rs:63-88` | A new region starts with one reference and its size in the header |
| `SharedMemories.SharedMemory.FromObject` | `ipmb/src/platform/mod.rs:90-112` | A handle made from an object reads the stored size and counts itself |
| `SharedMemories.SharedMemory.Send` | `ipmb/src/platform/linux/encoded_message.rs:161-176` | A successful send raises the count of each attached region once per attachment; a failed one leaves all counts as they were |
| `SharedMemories.SharedMemory.Receive` | `ipmb/src/platform/linux/encoded_message.rs:120-127` | Adopting a region and taking back the sender's increment leaves the count as the sender left it |
| `MemoryRegistries.FindFacts` | `ipmb/src/memory_registry.rs:37-49` | The search finds the first eligible entry under the smallest eligible key of the range, and nothing if and only if there is none |
| `MemoryRegistryTheorems.BestFit` | `ipmb/src/memory_registry.rs:37-64` | A positive request gets a region of at least its size and less than twice; the smallest cached one that nobody else holds and whose tag agrees if there is one, otherwise a new one of exactly that size |
| `MemoryRegistryTheorems.AllocFailsIff` | `ipmb/src/memory_registry.rs:42-59` | Allocation fails if and only if the clone or creation it needs fails, and then accepts no callback |
| `MemoryRegistryTheorems.CallbackFate` | `ipmb/src/memory_registry.rs:29-80` | In every history an accepted callback has run, or is pending in exactly one entry, never both; entries lie under the key that is their size |
| `MemoryRegistryTheorems.CallbacksNeverTakenBack` | `ipmb/src/memory_registry.rs:98-104` | What has run and what was accepted only grows |
| `MemoryRegistryTheorems.MaintenanceFires` | `ipmb/src/memory_registry.rs:67-80` | Maintenance runs a pending callback if and only if its region is idle or its entry is 5 seconds old, held elsewhere or not |
| `MemoryRegistryTheorems.FiresWhileHeld` | `ipmb/src/memory_registry.rs:69-77` | A history of two calls in which a callback runs while its region is held elsewhere |
| `MemoryRegistryTheorems.EvictedIff` | `ipmb/src/memory_registry.rs:69-77` | Maintenance keeps a region in the cache if and only if it was allocated from within the last 5 seconds, used or not, and takes nothing from its entry but the callback of an idle region |
| `MemoryRegistryTheorems.AllocatedIsCached` | `ipmb/src/memory_registry.rs:37-64` | What an allocation hands out is cached under its size, with the time, the tag and the callback of this call |
| `MemoryRegistryTheorems.AllocMaintains` | `ipmb/src/memory_registry.rs:37-65` | Every allocation, unless it fails to clone what it found, keeps of all other regions exactly those allocated from within the last 5 seconds, and runs exactly the callbacks of those that nobody holds or that are that old |
| `MemoryRegistryTheorems.EvictedHasFired` | `ipmb/src/memory_registry.rs:67-80` | After maintenance a callback that was pending has run if and only if it is pending no more; eviction leaves none behind |
| `MemoryRegistryTheorems.NewCallbackIsPending` | `ipmb/src/memory_registry.rs:39-64` | A successful allocation accepts its callback, leaves it pending in the entry of the region handed out, and its own maintenance does not run it |
| `MemoryRegistryTheorems.OldCallbackHasRun` | `ipmb/src/memory_registry.rs:42-47` | When a cached region is handed out again the callback its entry still had has run |
| `MemoryRegistryTheorems.HistoryKeepsInv` | `ipmb/src/memory_registry.rs:14-85` | Keys are sizes, regions are distinct, and callbacks are accounted for after every sequence of calls |
| `MemoryRegistryObjects.MemoryRegistry.AllocInner` | `ipmb/src/memory_registry.rs:29-65` | The nested search loop over the map in place, and both ways of serving a request, compute the specified allocation |
| `MemoryRegistryObjects.MemoryRegistry.TakeCached` | `ipmb/src/memory_registry.rs:39-48` | Serving from the cache: time stamp, clone, new guard in place of the old one, maintenance |
| `MemoryRegistryObjects.MemoryRegistry.Maintain` | `ipmb/src/memory_registry.rs:67-80` | The outer retain over all vectors computes the specified maintenance; empty vectors go |
| `MemoryRegistryObjects.MemoryRegistry.MaintainVector` | `ipmb/src/memory_registry.rs:69-77` | The inner retain over one vector: idle entries lose their guard, old entries go, and no callback is run twice |
| `MemoryRegistryObjects.MemoryRegistry.Alloc` | `ipmb/src/memory_registry.rs:15-17` | Allocation without a callback keeps the registry's invariant |
| `MemoryRegistryObjects.MemoryRegistry.AllocWithFree` | `ipmb/src/memory_registry.rs:19-27` | Allocation with a new callback keeps the registry's invariant |
| `Endpoints.NextKeepsInv` | `ipmb/src/lib.rs:127-387` | Every step of every thread keeps: epochs follow the connections, a closed reader has no hub, each connection is replaced once |
| `Endpoints.ExactHandOff` | `ipmb/src/lib.rs:127-194` | In every interleaving, counting the frames that were delivered and the messages that entered the local queue, a send that returned Ok has handed its message off exactly once, any other not at all |
| `Endpoints.SendTryOutcome` | `ipmb/src/lib.rs:142-191` | An attempt returns Ok if the frame was delivered or the endpoint is the controller, and otherwise goes to rejoin |
| `Endpoints.RecvTryOutcome` | `ipmb/src/lib.rs:207-378` | A turn of a live receiver goes to rejoin if and only if its hub is missing or reports a disconnect, goes on after a foreign message, and otherwise ends the call |
| `Endpoints.TearsDownIff` | `ipmb/src/lib.rs:142-176` | A stale thread replaces the current connection if and only if it is a client's and the number of rejoins since is a multiple of 2^32; it then becomes client or controller with the reader closed if it was, or loses its hub and returns the error |
| `Endpoints.NewerIsTornDown` | `ipmb/src/lib.rs:158-169` | There is a run in which a thread replaces a connection that is newer than the one it saw break |
| `Endpoints.NeverTearsDownNewer` | `ipmb/src/lib.rs:286-323` | With fewer than 2^32 rejoins in its stale window a thread changes only the connection that it saw disconnect |
| `Endpoints.ReplacedOnce` | `ipmb/src/lib.rs:158-169` | Each connection is replaced once, in order; equal epochs are replaced only a multiple of 2^32 rejoins apart |
| `Endpoints.ServerIsTerminal` | `ipmb/src/lib.rs:182-191` | Once the endpoint is the controller no thread replaces it, and every send succeeds at once |
| `Endpoints.ReaderStateHolds` | `ipmb/src/lib.rs:218-257` | A closed reader has no io hub, is closed if and only if the receiver was dropped, and no recv reaches either expect |
| `Endpoints.GoneIsForever` | `ipmb/src/lib.rs:382-387` | The reader stays closed through every later rejoin, as client or as controller |
| `Endpoints.FailedRejoinLeaves` | `ipmb/src/lib.rs:158-169` | A failed rejoin leaves the old connection without a hub, with the reader open unless the receiver was dropped |
| `Endpoints.NextRecvGoesToRejoin` | `ipmb/src/lib.rs:218-222` | However long after a failed rejoin, with any steps of other threads in between, the next recv goes to rejoin without touching the missing hub, unless another thread has replaced the connection |
| `Endpoints.NextRecvRepairs` | `ipmb/src/lib.rs:218-254` | With any steps of other threads before it gets the write lock, such a recv joins exactly once if nobody has replaced the connection, which on success gives it a hub or a queue, and otherwise leaves the newer connection alone |
| `EndpointObjects.Endpoint.RejoinSection` | `ipmb/src/lib.rs:147-177` | The section under the write lock: nothing if somebody else was faster, otherwise a new connection with the reader closed if it was |
| `EndpointObjects.Endpoint.Send` | `ipmb/src/lib.rs:127-194` | For any number of disconnects the loop hands off exactly once on success; unless the frame went out all region counts are as before |
| `EndpointObjects.Endpoint.Recv` | `ipmb/src/lib.rs:205-379` | With a live receiver neither expect is reached, the first deciding turn decides the result, and the reader is left open |
| `EndpointObjects.Join` | `ipmb/src/lib.rs:410-533` | The join loop computes the specified verdict on what look-up and registration report |
| `EndpointObjects.JoinVerdict` | `ipmb/src/lib.rs:432-530` | The verdict of join is given by the first attempt that ends the loop, by its own outcome or as the sixth denial or sixth timeout, and the loop goes on if and only if no attempt does |
| `IoHubs.NextKeepsInv` | `ipmb/src/platform/linux.rs:297-355` | Every step of the hub or a sender keeps: a hub about to sleep has no queued message without an owed wake, unless the eventfd is set |
| `IoHubs.NoLostWakeUp` | `ipmb/src/platform/linux.rs:297-355` | Whenever the hub sleeps on a zero eventfd every queued message belongs to a sender that still owes its wake |
| `IoHubs.ClearNeverBlocks` | `ipmb/src/platform/linux/io_mul.rs:71-80` | The hub never reads the eventfd at zero |
| `IoHubs.QueueIsFifo` | `ipmb/src/platform/linux.rs:298-308` | What the hub took and what is queued is exactly what senders enqueued, in that order |
| `IoHubs.DrainOutcome` | `ipmb/src/platform/linux.rs:316-354` | The waker event resets the eventfd, a known socket ends the call, everything else is passed over, and then the queue is tried again |
| `IoHubs.SleeperDelivers` | `ipmb/src/platform/linux.rs:297-319` | A sleeping hub with a queued message whose wake was written can be woken and takes that message |
| `IoHubs.IoHub.Recv` | `ipmb/src/platform/linux.rs:290-356` | The receive loop takes at most one message per call, the oldest, and clears the eventfd only when it is set, under any interference |
| `LinuxFrames.FrameRoundTrip` | `ipmb/src/platform/linux/encoded_message.rs:59-141` | Parsing an encoded frame gives back selector, payload, objects and regions if and only if there are at most four attachments and the frame is shorter than 2^32 bytes, otherwise a disconnect |
| `LinuxFrames.FrameFate` | `ipmb/src/platform/linux/encoded_message.rs:59-141` | Every well-formed frame is cut off, refused for its version, refused for its selector, found to claim too many regions, or parsed to its parts, in that order |
| `LinuxFrames.WrapNeverShows` | `ipmb/src/util/mod.rs:23-41` | In every frame that reaches the parser the 32-bit rounding of the selector length agrees with the writer's, and both lengths are read as written |
| `LinuxFrames.ForeignFrameRefused` | `ipmb/src/platform/linux/encoded_message.rs:101-110` | A frame is refused with its sender's version if and only if that version is not compatible |
| `LinuxFrames.EncodeInner` | `ipmb/src/platform/linux.rs:364-400` | Writes a frame of exactly 12 plus the two rounded lengths, every word aligned and in bounds |
| `LinuxFrames.AllocBuffer` | `ipmb/src/platform/linux.rs:442-456` | Allocates whole units, the fewest that hold the size |
| `LinuxFrames.Attach` | `ipmb/src/platform/linux.rs:402-423` | The descriptors sent are the objects followed by the objects behind the regions |
| `LinuxFrames.FromLocal` | `ipmb/src/platform/linux/encoded_message.rs:101-141` | The parser in place computes the specified parse, reading aligned words within the buffer |
| `WindowsFrames.FullPassParses` | `ipmb/src/platform/windows/mod.rs:389-556` | After any earlier full or partial patching for any remotes, a full pass makes the frame parse to exactly the new handles, split into objects and regions, with selector and payload untouched, unless version, selector or region count are refused |
| `WindowsFrames.PatchKeepsFrame` | `ipmb/src/platform/windows/mod.rs:389-415` | Patching the slots for a remote changes nothing else of the frame, however far it gets |
| `WindowsFrames.FullPatchHolds` | `ipmb/src/platform/windows/mod.rs:400-415` | A complete pass leaves every slot with the new handle |
| `WindowsFrames.FrameFate` | `ipmb/src/platform/windows/mod.rs:494-556` | Every well-formed frame with known slots is refused for its version, refused for its selector, found to claim too many regions, or parsed to its handles, split by the region count, with selector and payload |
| `WindowsFrames.SendHelper` | `ipmb/src/platform/windows/mod.rs:389-442` | Patches the slots in place up to the first handle that cannot be duplicated, and puts the frame on the wire if and only if all could and the pipe takes it |
| `WindowsFrames.EncodeInner` | `ipmb/src/platform/windows/mod.rs:559-607` | Writes everything of a frame but the slots |
| `WindowsFrames.FromPipe` | `ipmb/src/platform/windows/mod.rs:494-556` | The parser in place computes the specified parse: handles first, then the version check, selector and payload, reading aligned words within the buffer |
| `WindowsFrames.ReadHandles` | `ipmb/src/platform/windows/mod.rs:507-517` | Collects the handles from the slots in order |
| `Words.EndiannessIsByteOrder` | `ipmb/src/platform/linux/encoded_message.rs:101-102` | Storing words low byte first and storing them high byte first are both byte orders as the frame modules assume them |
| `Words.AlignFacts` | `ipmb/src/util/mod.rs:23-41` | The rounded length is the next multiple of four |
| `LocalBuffers.NeverBothWaiting` | `ipmb-js/src/lib.rs:386-429` | Over any interleaving promises and messages never wait for each other at the same time |
| `LocalBuffers.SettledAtMostOnce` | `ipmb-js/src/lib.rs:186-212` | Every promise handed out is pending or settled, not both, and never settled twice |
| `LocalBuffers.ResultsInOrder` | `ipmb-js/src/lib.rs:447-462` | The k-th result given to a promise is the k-th that arrived, the others are buffered in order, and an older promise got an older result |
| `LocalBuffers.CleanTakesExpired` | `ipmb-js/src/lib.rs:386-412` | A time-out rejects exactly the promises whose deadline has passed and keeps the others in order |
| `LocalBuffers.DeadlinesAreKept` | `ipmb-js/src/lib.rs:186-212` | Every call of recv before the first close gets a promise, and each pending promise keeps the deadline that its own call gave |
| `LocalBuffers.TimeoutTakesLate` | `ipmb-js/src/lib.rs:386-412` | A time-out rejects a pending promise if and only if its call gave a timeout and that time is over |
| `LocalBuffers.TimedOutIsLate` | `ipmb-js/src/lib.rs:386-412` | No promise is ever timed out early, and none without a timeout |
| `LocalBuffers.ArrivalsAreCounted` | `ipmb-js/src/lib.rs:454-461` | Every arriving result is buffered or given to a promise |
| `LocalBuffers.CloseRejectsPending` | `ipmb-js/src/lib.rs:414-429` | The close action rejects every pending promise as closed and leaves earlier settlements and buffered results alone |
| `LocalBuffers.NothingPendingAfterClose` | `ipmb-js/src/lib.rs:414-429` | After the close action nothing is pending, and nothing ever will be |
| `LocalBuffers.StepKeepsInv` | `ipmb-js/src/lib.rs:186-462` | Every event keeps the pairing of promises and results |
| `LocalBuffers.LocalBuffer.Recv` | `ipmb-js/src/lib.rs:186-212` | A closed buffer gives no promise; otherwise the promise takes the oldest result or joins the list |
| `LocalBuffers.LocalBuffer.Deliver` | `ipmb-js/src/lib.rs:454-461` | A result goes to the oldest promise or joins the list |
| `LocalBuffers.LocalBuffer.CleanTimeouts` | `ipmb-js/src/lib.rs:386-412` | The index loop that removes from the list it walks computes an order-preserving filter |
| `LocalBuffers.LocalBuffer.CloseAction` | `ipmb-js/src/lib.rs:414-429` | Rejects every promise of the list it takes, in order |

## Left out

- System calls and what the kernel does inside them (sockets, epoll, kqueue, completion ports, mmap, passing descriptors): their outcomes are parameters.
- bincode and serde: selector and payload are byte strings, and the decoder is a function parameter about which nothing is assumed but the one selector it must recognise.
- The macOS frames and ports: of the same shape as Linux, but a send there can report success for a message that was not sent.
- The C and C++ bindings, the derive macro, the examples and the build files: wrappers without a state machine.
- Windows security descriptors, anonymous pipes and the fetching of process handles: a fetch request is an arrival that changes nothing on the bus.
- The raw bytes of ancillary data: attachments are a sequence of descriptors, objects before regions.
- Uniqueness of endpoint identifiers: the program draws random UUIDs, the model counts.
- `MemoryRegion::map`, page rounding and the cached mapping: address arithmetic without protocol.
- `vec_take`: not used by the program.
- The clock: the controller reads it once per iteration, and the model takes any value; sums of instants and durations do not overflow.
- WindowsFrames.FullPassParses: for frames shorter than 2^32 bytes; `WriteFile` takes a 32-bit length, and what the binding makes of a longer one is not part of this model.
- WindowsFrames.SendHelper: likewise.
- LinuxFrames.FromLocal: input whose sizes point beyond the received bytes is excluded, since the program reads out of bounds there; the parse of such input is `Undefined`.
- WindowsFrames.FromPipe: likewise.
- RefCountTheorems.CounterNeverTooLow: for fewer than 2^32 references to one region, and likewise in the other statements that read the counter as a number; with more it wraps around.
- RefCountTheorems.RunsAreSound: a received message is assumed to declare as many regions as are attached, which `EndpointSender::send` sees to; a declared number larger than that makes the program panic, which is `Panics` in the frame modules.
- SharedMemories.SharedMemory.Send: the calls of one process without interference; interference is in `RefCounts`, whose steps use the same wrapping arithmetic.
- MemoryRegistryObjects.MemoryRegistry.AllocInner: doubling the requested size must not overflow a machine word, which the program does not check.
- MemoryRegistryTheorems.CallbackFate: says which callbacks have run, not in which order those of one maintenance run, and callbacks do not call back into the registry.
- EndpointObjects.Join: whether it ever ends; when the identifier is in use it looks up again without a pause, so it may spin, and pauses have no length here.
- EndpointObjects.Endpoint.Recv: the total time of a call; each turn starts its timeout anew.
- EndpointObjects.Endpoint.Send: a finite script of what the world does bounds the number of turns; the state machine in `Endpoints` has no such bound.
- Endpoints.ServerIsTerminal: the thread of a local controller is assumed to live as long as its process, so its queue does not disconnect.
- IoHubs.NoLostWakeUp: the eventfd is an unbounded counter; 2^64 - 1 wakes without a read do not occur.
- LocalBuffers.ResultsInOrder: N-API calls succeed, and the closing thread runs its action.
- Overflow checks of debug builds, which turn some of the wrap-arounds above into panics.
