# Verification of the Crossgram bridge

A Dafny model of the parts of Crossgram where correctness spans operations, threads or whole runs,
with proofs of what those parts promise. `dafny verify dfyconfig.toml` checks all of it.

| file | models |
|---|---|
| `PlayoutRing.dfy` | the multi-consumer playout ring, every atomic access a step, any interleaving |
| `PlayoutCalls.dfy` | the calls made on that ring: what each push and pop has done when it returns, and undisturbed calls |
| `PlayoutDrops.dfy` | the counter of dropped playout frames over that ring, any interleaving |
| `CaptureRing.dfy` | the single-producer, single-consumer capture ring, likewise |
| `PcmBridge.dfy` | the queues and the 10 ms / 20 ms reassembly as classes over arrays, used by one thread |
| `BridgeLifecycle.dfy` | the two packed admission words and Stop, Drain, Join and Destroy, any interleaving |
| `SessionLifecycle.dfy` | the seven-state session with its locks, counters and the adapter's access gate, any interleaving |
| `SessionCalls.dfy` | the results of the calls of a session by phase and answers, and undisturbed calls |
| `SessionBridge.dfy` | the session over the packed words of its bridge: a refinement of the session with a gate |
| `MessageIds.dfy`, `SlotAllocator.dfy` | Telegram message IDs: buckets, epochs and the outward search for free IDs |
| `Projection.dfy` | the projection of messages onto parts, and the order of IDs over runs of ingests |
| `ProjectionTime.dfy` | the placing of messages by time over runs: epochs, buckets, slots |
| `SearchMasks.dfy` | kinds of messages, scans under masks, trimming and reuse |
| `SharedMedia.dfy` | the filters of shared media against what the messages contain |
| `PartIndexCache.dfy` | the cache of scans under interleaved requests, completions, failures, evictions and invalidations |
| `PartIndexReuse.dfy` | which scans serve which requests, in terms of the events |
| `LoginTokens.dfy` | QR login tokens: four maps that agree, single use |
| `LoginTokenIssues.dfy` | issues and claims in terms of the entries alone, and the order of the entries |
| `UpdateJournal.dfy` | the store of update deliveries in memory and its retention |
| `UpdateCounters.dfy` | pts, seq and dates of accounts and channels, and the deliveries they number |
| `UpdateHistories.dfy` | retention, payloads, claims and dates in terms of the events |
| `PromiseLocks.dfy` | the promise-chain locks: authorization reservations, touch lock, write queue |
| `RichText.dfy` | entity ranges to nested rich text and blocks |
| `RichTextKinds.dfy` | what each kind of entity looks like, and which messages are articles |
| `Srp.dfy` | SRP verifier, challenge, check and the store of challenges |
| `JpegScan.dfy` | the JPEG scanner against a grammar of streams |
| `Arithmetic.dfy`, `FiniteSets.dfy` | facts about remainders and about finite sets |

Concurrent code is a transition system: shared memory, one program counter per thread, one atomic
access per step, and theorems about every state that any schedule reaches. Code that updates objects
in place is a class whose methods state the whole new state as a function of the old one; the theorems
over runs are lemmas about those functions. Clocks, random values and hashes are parameters.

## Where the code does less than one might expect

Each of these follows from a theorem that states the exact condition, or is shown by a concrete case.

- The search index cache says that a scan without kinds answers every mask. It leaves out service
  messages, so it does not answer a request for phone calls (`SearchMasks.ReuseIsExact`).
- `searchPartIndexMany` promises one result per mask, in order; repeated masks are merged first
  (`SearchMasks.OneResultPerMask`).
- IDs are out of order after the fallback of the allocator, or when the native sequence of an issued
  part is changed past a neighbour (`Projection.IngestKeepsOrder`, `Projection.IngestKeepsKeyOrder`).
- A second `Session::Join` can return OK before the parameters are wiped: they are wiped exactly if
  a failed Start wiped them or the first Join no longer stands before its wiping
  (`SessionLifecycle.SecondJoinAndWipe`; a case is `SessionLifecycle.SecondJoinMayPrecedeWipe`).
- A `Session::Join` called from inside a callback is refused or waits for ever
  (`SessionLifecycle.CallbackBlocksJoin`).
- A neighbour with the empty order key passes for none: the bounds are those of the neighbours exactly
  if the nearest smaller key is not empty (`Projection.KeysAreNeighbours`; a case in which the order is
  lost although the gap has room is `Projection.EmptyKeyLosesOrder`).
- A message with a native sequence is placed by that alone, whatever its order key: the order by key is
  kept by every possible allocation exactly if `Projection.SafeByKey` holds before the call
  (`Projection.SafetyDecidesKeyOrder`).
- The counter of dropped playout frames counts a push once, however many frames it dropped: it is exact
  exactly if no push dropped twice (`PlayoutDrops.CounterIsBounded`).
- An empty login token passes for none, after which the indexes can disagree
  (`LoginTokens.IssueKeepsAgreement`).
- A reservation released before its wait is resolved admits its successors too early
  (`PromiseLocks.ReleaseKeepsOrder`).
- An honest SRP client is refused when its public key happens to be 1
  (`Srp.HonestClientIsAccepted`).

## Model

| member | source | states |
|---|---|---|
| PlayoutRing.StepInv | native/tgcalls-shim/src/pcm_bridge.cpp:99-144 | one atomic load, store or compare-and-swap of any thread keeps the invariant of the multi-consumer ring, for any capacity of at least 2 and any number of pushing and popping threads |
| PlayoutRing.RunInv | native/tgcalls-shim/src/pcm_bridge.cpp:99-144 | the invariant holds after every interleaving |
| PlayoutRing.InitialInv | native/tgcalls-shim/src/pcm_bridge.cpp:146-152 | a new ring satisfies the invariant, and so does one that was reset, whatever frames its cells still hold |
| PlayoutRing.Fifo | native/tgcalls-shim/src/pcm_bridge.cpp:99-144 | the n-th dequeue ticket takes the frame of the n-th enqueue ticket, and every ticket is taken at most once |
| PlayoutRing.ExclusiveCells | native/tgcalls-shim/src/pcm_bridge.cpp:105-109 | no cell is read or written by one thread while another writes or reads it |
| PlayoutRing.NothingLost | native/tgcalls-shim/src/pcm_bridge.cpp:99-144 | every ticket handed out by a push is taken, being taken, stored with its own frame, or still being stored |
| PlayoutRing.PositionsStaySmall | native/tgcalls-shim/src/pcm_bridge.cpp:101-109 | at most `capacity` tickets are open, and no stored sequence number runs further ahead |
| PlayoutRing.CapacityOneOverwrites | native/tgcalls-shim/src/pcm_bridge.cpp:102-108 | with one cell, "full" and "free for the next position" are the same number, and the second push overwrites the first frame |
| PlayoutCalls.PushStoresItsFrame | native/tgcalls-shim/src/pcm_bridge.cpp:99-125 | over every schedule a push that has returned stored its own frame under one ticket, handed out after it began and to no other call; what it took it dropped, and only if at a moment of the call the next cell was not free |
| PlayoutCalls.PopTakesOneFrame | native/tgcalls-shim/src/pcm_bridge.cpp:127-144 | over every schedule a pop that has returned delivers one frame that no other call took, the one of its ticket, or none, and then at a moment of the call the oldest ticket had no frame in its cell |
| PlayoutCalls.EveryTicketHasACall | native/tgcalls-shim/src/pcm_bridge.cpp:99-144 | every ticket handed out and every frame taken belongs to a push or pop, running or returned |
| PlayoutCalls.CallsAreOrdered | native/tgcalls-shim/src/pcm_bridge.cpp:99-144 | a push, or pop, that begins after another has returned has the later ticket |
| PlayoutCalls.NextKeeps | native/tgcalls-shim/src/pcm_bridge.cpp:99-144 | one atomic step of any thread keeps what ties the place of every thread to the call it is in |
| PlayoutCalls.NoRoomMeans | native/tgcalls-shim/src/pcm_bridge.cpp:104-113 | the next cell is not free only if the ring is full or a thread is in the middle of a pop a lap behind |
| PlayoutCalls.NothingMeans | native/tgcalls-shim/src/pcm_bridge.cpp:132-141 | the oldest ticket has no frame only if the ring is empty or a thread is in the middle of a push of it |
| PlayoutCalls.SoloPush | native/tgcalls-shim/src/pcm_bridge.cpp:99-125 | with all others idle, a push ends having stored its frame; exactly when the ring was full it has taken the oldest frame, and that one only, delivered to nobody |
| PlayoutCalls.SoloPop | native/tgcalls-shim/src/pcm_bridge.cpp:127-144 | with all others idle, a pop delivers the oldest frame exactly when there is one, and changes nothing otherwise |
| PlayoutDrops.StepBalances | native/tgcalls-shim/src/pcm_bridge.cpp:118-125 | one atomic step of any thread keeps the balance of frames dropped and pushes counted |
| PlayoutDrops.RunBalances | native/tgcalls-shim/src/pcm_bridge.cpp:118-125 | the balance holds after every interleaving |
| PlayoutDrops.CounterIsBounded | native/tgcalls-shim/src/pcm_bridge.cpp:118-202 | over every schedule the counter never exceeds the frames discarded; it lacks one for each push that has dropped and is not done, and one for each frame dropped by a push that had dropped one before, so between pushes it is exact exactly if no push dropped twice |
| PlayoutDrops.SoloPushCounts | native/tgcalls-shim/src/pcm_bridge.cpp:118-202 | undisturbed, a push is counted as a drop exactly if it found the ring full |
| CaptureRing.ProducerStepInv | native/tgcalls-shim/src/pcm_bridge.cpp:73-80 | an atomic step of the producer keeps the invariant of the one-slot-empty ring, for any capacity |
| CaptureRing.ConsumerStepInv | native/tgcalls-shim/src/pcm_bridge.cpp:82-88 | an atomic step of the consumer keeps it |
| CaptureRing.RunInv | native/tgcalls-shim/src/pcm_bridge.cpp:73-88 | the invariant holds after every interleaving of producer and consumer |
| CaptureRing.DeliveredIsPrefix | native/tgcalls-shim/src/pcm_bridge.cpp:73-88 | what the consumer got is a prefix, in order, of what the producer was told was accepted, at most `capacity` frames behind |
| CaptureRing.SlotsDiffer | native/tgcalls-shim/src/pcm_bridge.cpp:76-85 | the slot being written is never the slot being read |
| CaptureRing.SoloPush | native/tgcalls-shim/src/pcm_bridge.cpp:73-80 | undisturbed, a push is refused exactly when the ring holds `capacity` frames |
| CaptureRing.SoloPop | native/tgcalls-shim/src/pcm_bridge.cpp:82-88 | undisturbed, a pop is refused exactly when the ring is empty, and else delivers the oldest frame |
| PcmBridge.CaptureQueue.Push | native/tgcalls-shim/src/pcm_bridge.cpp:73-80 | in place: appends to the abstract queue exactly when there is room |
| PcmBridge.CaptureQueue.Pop | native/tgcalls-shim/src/pcm_bridge.cpp:82-88 | in place: removes and gives the oldest frame exactly when there is one |
| PcmBridge.CaptureQueue.Reset | native/tgcalls-shim/src/pcm_bridge.cpp:90-93 | empties the queue |
| PcmBridge.PlayoutQueue.TryPush | native/tgcalls-shim/src/pcm_bridge.cpp:99-116 | in place, on sequence numbers: appends exactly when there is room |
| PcmBridge.PlayoutQueue.Pop | native/tgcalls-shim/src/pcm_bridge.cpp:127-144 | removes and gives the oldest frame exactly when there is one |
| PcmBridge.PlayoutQueue.PushDroppingOldest | native/tgcalls-shim/src/pcm_bridge.cpp:118-125 | always stores the frame; drops the oldest one, and says so, exactly when the queue was full |
| PcmBridge.PlayoutQueue.Reset | native/tgcalls-shim/src/pcm_bridge.cpp:146-152 | empties the queue |
| PcmBridge.NextWraps | native/tgcalls-shim/src/pcm_bridge.cpp:75-86 | the next index of the capture ring is the successor modulo the number of slots |
| PcmBridge.SlotIsRemainder | native/tgcalls-shim/src/pcm_bridge.cpp:102-102 | the slot computed by stepping is the remainder of the position |
| PcmBridge.CapturePath.PushCapture20ms | native/tgcalls-shim/src/pcm_bridge.cpp:154-163 | status for each case, and acceptance of exactly the samples given, with `accepted == delivered + rest + queued` kept as invariant |
| PcmBridge.CapturePath.PopCapture10ms | native/tgcalls-shim/src/pcm_bridge.cpp:165-182 | status for each case, silence whenever it is not OK, and delivery of exactly the next 10 ms |
| PcmBridge.CapturePath.Reset | native/tgcalls-shim/src/pcm_bridge.cpp:237-240 | the part of Drain that empties capture |
| PcmBridge.PlayoutPath.PushPlayout10ms | native/tgcalls-shim/src/pcm_bridge.cpp:184-202 | undisturbed, two slices make one frame; the queue keeps the newest frames and the drop counter grows by exactly the frames lost |
| PcmBridge.PlayoutPath.PopPlayout20ms | native/tgcalls-shim/src/pcm_bridge.cpp:204-219 | gives the oldest frame, or silence |
| PcmBridge.PlayoutPath.Reset | native/tgcalls-shim/src/pcm_bridge.cpp:238-242 | the part of Drain that empties playout, keeping the drop counter |
| PcmBridge.DeliveredIsPrefix | native/tgcalls-shim/src/pcm_bridge.cpp:154-182 | the slices delivered with status OK concatenate to a prefix of the accepted frames, and the missing part is exactly what is held back and queued |
| PcmBridge.KeepNewest | native/tgcalls-shim/src/pcm_bridge.cpp:196-201 | assembled frames are the dropped, the played and the queued ones, and the queue is the newest of them |
| PcmBridge.AssembleFrame | native/tgcalls-shim/src/pcm_bridge.cpp:189-198 | a second half completes the frame whose first half was kept |
| BridgeLifecycle.StepInv | native/tgcalls-shim/src/pcm_bridge.cpp:34-71 | one atomic step of any callback or lifecycle operation keeps the invariant of the two packed words, spurious compare-and-swap failures included |
| BridgeLifecycle.RunInv | native/tgcalls-shim/src/pcm_bridge.cpp:221-278 | the invariant holds after every interleaving of callbacks, Stop, Drain, Join and Destroy |
| BridgeLifecycle.WordsCountThreads | native/tgcalls-shim/src/pcm_bridge.cpp:34-65 | the low 31 bits of each word are exactly the number of threads admitted through it |
| BridgeLifecycle.SettledStays | native/tgcalls-shim/src/pcm_bridge.cpp:34-47 | the top bits are never cleared, and a count that reached zero after its bit was set stays zero, over every further run |
| BridgeLifecycle.ResetsAreAlone | native/tgcalls-shim/src/pcm_bridge.cpp:230-245 | while Drain resets the queues no callback is inside and no other thread holds the lock |
| BridgeLifecycle.NoCallbackAfterDrain | native/tgcalls-shim/src/pcm_bridge.cpp:230-245 | once Drain has seen zero after Stop, no callback is ever inside again |
| BridgeLifecycle.LifecycleOrder | native/tgcalls-shim/src/pcm_bridge.cpp:230-256 | joined implies drained implies stopped with no callback inside |
| BridgeLifecycle.DestroyOnce | native/tgcalls-shim/src/pcm_bridge.cpp:258-278 | Destroy returns true at most once, after Join, with no operation or callback inside |
| BridgeLifecycle.NothingAfterDestroy | native/tgcalls-shim/src/pcm_bridge.cpp:258-278 | after that no thread ever gets inside, whatever runs |
| BridgeLifecycle.SoloCallback | native/tgcalls-shim/src/pcm_bridge.cpp:34-47 | a callback is admitted exactly while the stop bit is not set and one more can be counted, even if the word it loaded is out of date, and leaves the word as it was |
| BridgeLifecycle.SoloAdmission | native/tgcalls-shim/src/pcm_bridge.cpp:49-65 | a lifecycle operation is admitted exactly while Destroy has not begun and one more can be counted |
| BridgeLifecycle.SpuriousFailureRetries | native/tgcalls-shim/src/pcm_bridge.cpp:34-61 | a spurious failure makes a thread try again and refuses nobody |
| BridgeLifecycle.SoloStop | native/tgcalls-shim/src/pcm_bridge.cpp:221-228 | undisturbed, Stop succeeds and sets the stop bit, whatever callbacks are inside |
| BridgeLifecycle.SoloDrain | native/tgcalls-shim/src/pcm_bridge.cpp:230-245 | undisturbed, Drain succeeds exactly when the bridge is stopped |
| BridgeLifecycle.SoloJoin | native/tgcalls-shim/src/pcm_bridge.cpp:247-256 | undisturbed, Join succeeds exactly when the bridge is stopped and drained |
| BridgeLifecycle.SoloDestroy | native/tgcalls-shim/src/pcm_bridge.cpp:258-278 | with nobody inside, Destroy succeeds exactly when the bridge is joined |
| SessionLifecycle.StepInv | native/tgcalls-shim/src/session.cpp:79-231 | one step of Start, Stop, Join, a callback, a call from inside one, or an adapter call keeps the invariant of phase, locks and counters; callbacks may be null, and adapter and bridge may fail |
| SessionLifecycle.RunInv | native/tgcalls-shim/src/session.cpp:79-231 | the invariant holds after every interleaving of any number of threads |
| SessionLifecycle.StepRely | native/tgcalls-shim/src/session.cpp:276-305 | no step admits a callback unless the phase is Starting or Started, and the phase only moves forward |
| SessionLifecycle.JoinQuiesces | native/tgcalls-shim/src/session.cpp:197-231 | when the Join that made the transition has returned, with whatever result: no callback in flight, parameters wiped, no adapter callback holding the session; the bridge is stopped, drained and joined exactly if it refused none of its operations, as an OK result tells; all of it for ever |
| SessionLifecycle.NothingAdmittedAfterStop | native/tgcalls-shim/src/session.cpp:276-299 | once the phase has left Starting and Started nothing is admitted in any later run |
| SessionLifecycle.CountersCountThreads | native/tgcalls-shim/src/session.cpp:276-305 | both in-flight counters are exactly the numbers of threads inside |
| SessionLifecycle.OneTransitionAtATime | native/tgcalls-shim/src/session.cpp:167-206 | Start, Stop and Join transitions never overlap |
| SessionLifecycle.JoinedIsQuiet | native/tgcalls-shim/src/tgcalls_production_adapter.cpp:47-75 | in every joined state callbacks and access gate are quiet; the bridge is quiet exactly if it refused nothing; the parameters are wiped exactly if a failed Start wiped them or no Join stands before its wiping |
| SessionLifecycle.SecondJoinAndWipe | native/tgcalls-shim/src/session.cpp:203-229 | whenever a second Join has returned OK, the parameters are wiped exactly if a failed Start wiped them or the first Join no longer stands before its wiping |
| SessionLifecycle.FailedStartWipes | native/tgcalls-shim/src/session.cpp:79-118 | a Start that failed and returned has wiped the parameters |
| SessionLifecycle.CallbackBlocksJoin | native/tgcalls-shim/src/session.cpp:197-231 | as long as a callback does not move no Join gets past its wait or returns OK, whatever the other threads do; so one called from inside the callback is refused or waits for ever |
| SessionLifecycle.SecondJoinMayPrecedeWipe | native/tgcalls-shim/src/session.cpp:203-229 | concrete case: a reachable state in which a second Join has returned OK while the parameters are not wiped |
| SessionCalls.ResultsAreExplained | native/tgcalls-shim/src/session.cpp:79-231 | over every run a call that returns has exactly the result, and makes the transition exactly when, the phase it saw and the answers of adapter and bridge say: for Start, Stop, Join, ReceiveSignaling and the PCM calls |
| SessionCalls.StartedMeansStarted | native/tgcalls-shim/src/session.cpp:79-118 | a session is Started, or a Start has returned OK for it, only if its adapter answered that it has started; a Start fails, and wipes, only if it answered that it has not |
| SessionCalls.SoloStart | native/tgcalls-shim/src/session.cpp:79-99 | undisturbed, a Start of a new session whose adapter starts makes it Started and returns OK |
| SessionCalls.SoloFailingStart | native/tgcalls-shim/src/session.cpp:101-118 | if its adapter fails, it reports to the error callback, stops bridge and adapter, leaves the session Stopped and wiped, and fails |
| SessionCalls.SoloLaterStart | native/tgcalls-shim/src/session.cpp:79-83 | in any other phase Start changes nothing: OK if Started, else refused |
| SessionCalls.SoloStop | native/tgcalls-shim/src/session.cpp:167-195 | undisturbed, Stop takes a new or started session to Stopped and is OK exactly if bridge and adapter are |
| SessionCalls.SoloLaterStop | native/tgcalls-shim/src/session.cpp:167-179 | Stop is OK in a stopped or joined session, refused while joining, and else waits |
| SessionCalls.SoloJoin | native/tgcalls-shim/src/session.cpp:197-231 | undisturbed, Join takes a stopped session to Joined, unbound and wiped, whatever adapter and bridge answer, and is OK exactly if all answers are good |
| SessionCalls.SoloOtherJoin | native/tgcalls-shim/src/session.cpp:197-206 | Join is OK in a joined session, waits while starting or stopping, and is else refused |
| SessionCalls.SoloReceive | native/tgcalls-shim/src/session.cpp:122-146 | undisturbed, data goes to the adapter exactly in a started session, an error being reported; the result is that of the adapter |
| SessionCalls.SoloPcm | native/tgcalls-shim/src/session.cpp:148-165 | undisturbed, a PCM call gets into the bridge exactly if the session is started and the bridge admits it |
| SessionCalls.SoloOutbound | native/tgcalls-shim/src/session.cpp:248-261 | an outbound callback runs exactly while the session is starting or started and has one; it is counted while it runs, and an exception is reported |
| SessionCalls.SoloAccess | native/tgcalls-shim/src/tgcalls_production_adapter.cpp:47-69 | an adapter callback obtains the session exactly while it is bound, and is counted until it gives it back |
| SessionBridge.StepSimulates | native/tgcalls-shim/src/pcm_bridge.cpp:34-71 | every atomic step of a session over the packed words of its bridge is one step of the session with its gate, or is not seen by it |
| SessionBridge.RunSimulates | native/tgcalls-shim/src/pcm_bridge.cpp:221-256 | and so is every run, step by step |
| SessionBridge.WholeRefinesSession | native/tgcalls-shim/src/session.cpp:167-231 | what a session sees of any reachable state over the packed words is a reachable state of the session with its gate |
| SessionBridge.NothingIsRefused | native/tgcalls-shim/src/session.cpp:167-231 | the order of the calls of a session is one the bridge never refuses, for fewer than 2^31 - 1 threads |
| SessionBridge.JoinQuiescesWhole | native/tgcalls-shim/src/session.cpp:197-231 | when the Join that made the transition has returned, the stop bit is set and the count of callbacks zero, the bridge is drained and joined, the parameters are wiped and nobody is in the bridge, in a callback or holding the session; all of it for ever |
| MessageIds.BucketStartIs | packages/bridge/src/message-id.ts:44-46 | the bucket of an ID is the one multiple of 16 at most 15 below it |
| MessageIds.FirstMessageIsCentred | packages/bridge/src/message-id.ts:19-34 | the first message of a scope lands exactly in the middle of the ID space |
| MessageIds.ClampingExtends | packages/bridge/src/message-id.ts:36-42 | clamping agrees with the exact bucket where there is one, never leaves the ID space, and keeps the order of time |
| MessageIds.WindowIsTight | packages/bridge/src/message-id.ts:25-34 | the exact bucket fails exactly outside the window whose 16 slots fit the ID space |
| SlotAllocator.BucketRange | packages/bridge/src/message-store.ts:3083-3094 | every ID strictly inside the bounds lies in a bucket of the range, and the range never leaves the ID space |
| SlotAllocator.PreferredIsWithin | packages/bridge/src/message-store.ts:3096-3107 | the preferred ID is strictly between the neighbours whenever any ID is |
| SlotAllocator.PreferredIsNearest | packages/bridge/src/message-store.ts:3096-3107 | between two neighbours the search begins in the middle, beside a single one right next to it, and else in the middle of all IDs |
| SlotAllocator.MiddleOut | packages/bridge/src/message-store.ts:3110-3123 | the values from the middle outwards, one side and the other in turn, every value at its place; a permutation every prefix of which is a run of adjacent values |
| SlotAllocator.AvailableBetween | packages/bridge/src/message-store.ts:2440-2454 | exactly the free IDs of a range, ascending |
| SlotAllocator.TakeFromBucket | packages/bridge/src/message-store.ts:2440-2463 | takes only free IDs of the bucket, and all of them unless the count is reached; then those from the middle outwards, or the smallest |
| SlotAllocator.RankOfBucket | packages/bridge/src/message-store.ts:2427-2439 | the walk over distances visits every bucket exactly once: a bucket has one rank and a rank one bucket |
| SlotAllocator.FirstSlots | packages/bridge/src/message-store.ts:2455-2463 | of every bucket, with its free IDs in order and n of them taken, those taken are the first n, or, with centring, the first n from the middle outwards |
| SlotAllocator.RankIsReached | packages/bridge/src/message-store.ts:2423-2427 | the walk reaches every bucket that can hold an ID in bounds |
| SlotAllocator.SweepDistance | packages/bridge/src/message-store.ts:2427-2463 | both buckets of a distance, the preferred side first, leave nothing free behind unless the count is reached |
| SlotAllocator.Collect | packages/bridge/src/message-store.ts:2420-2466 | terminates with distinct free IDs in bounds, all of them if fewer than the count, nearest buckets first, and in each bucket the slots in their turn |
| SlotAllocator.Allocate | packages/bridge/src/message-store.ts:2406-2473 | returns exactly `count` distinct ascending free IDs; all strictly between the neighbours whenever the gap has that many, else all of the gap and the rest elsewhere; fails exactly when the whole scope has too few; nearest buckets first, and in each bucket the slots in their turn, centred or not as asked |
| Projection.NearestBoundAll | packages/bridge/src/message-store.ts:2494-2525 | in an ordered table the parts of the nearest neighbours, by native sequence or by order key, bound those of all others |
| Projection.NeighboursDecide | packages/bridge/src/message-store.ts:2494-2525 | a message keeps its conversation (or scope) ordered exactly when its IDs lie strictly between its nearest neighbours |
| Projection.RoomDecides | packages/bridge/src/message-store.ts:2468-2470 | allocated IDs are in bounds exactly when the bounds hold enough free IDs |
| Projection.IngestDecidesTrack | packages/bridge/src/message-store.ts:2263-2395 | wherever its IDs were looked for, an ingest keeps an order exactly when the parts that stay and the IDs it adds all lie between the neighbours in that order |
| Projection.IngestKeepsTrack | packages/bridge/src/message-store.ts:2263-2395 | where the bounds are those of the neighbours, an ingest keeps the order it looks for them in exactly when the parts that stay fit their place and the gap has room for the missing ones |
| Projection.IngestLeavesTrack | packages/bridge/src/message-store.ts:2325-2335 | it changes nothing of the order of other conversations and scopes |
| Projection.IngestKeepsOrder | packages/bridge/src/message-store.ts:2345-2385 | an ingest keeps all conversations ordered by native sequence exactly when its request fits |
| Projection.IngestKeepsKeyOrder | packages/bridge/src/message-store.ts:2526-2559 | placed by its order key, and its nearest smaller key not the empty one, a message keeps all scopes ordered by key exactly when its request fits |
| Projection.IngestDecidesKeyOrder | packages/bridge/src/message-store.ts:2263-2395 | any ingest, by native sequence, order key, both or neither, keeps all scopes ordered by key exactly when its IDs land between the neighbours by key |
| Projection.SafetyDecidesKeyOrder | packages/bridge/src/message-store.ts:2345-2385 | every allocation open to a request keeps all scopes ordered by key exactly if, before the call, the parts that stay and all IDs the allocation may draw from lie between the neighbours by key |
| Projection.FittingIsSafe | packages/bridge/src/message-store.ts:2526-2559 | placed by its order key, and its nearest smaller key not the empty one, a request is safe exactly when it fits |
| Projection.KeysAreNeighbours | packages/bridge/src/message-store.ts:2540-2545 | the bounds read for an order key are those of its nearest neighbours exactly if the nearest smaller key is not the empty one |
| Projection.OnlyTheGapMatters | packages/bridge/src/message-store.ts:2345-2385 | unless an issued part gets another place, the only way to lose the order is a gap with too few free IDs |
| Projection.IngestKeepsIdsUnique | packages/bridge/src/message-store.ts:2358-2385 | no two parts of a scope ever share an ID |
| Projection.IssuedIdsNeverChange | packages/bridge/src/message-store.ts:2324-2335 | an issued part keeps its ID and scope as long as it stays, and other messages are untouched |
| Projection.IngestCompletes | packages/bridge/src/message-store.ts:2308-2385 | afterwards the message has exactly the planned parts, all in its scope and of the present scheme |
| Projection.PartsAfterIngest | packages/bridge/src/message-store.ts:2308-2385 | every part after an ingest: those of a message that is in its scope and of the present scheme stay with their IDs up to the planned number and learn sequence and key from the request, the others of the message are new with the added IDs in order, and nothing else changes |
| Projection.RunKeepsShape | packages/bridge/src/message-store.ts:2263-2395 | uniqueness and dense ordinals after every run of ingests, in any arrival order, failures included |
| Projection.RunKeepsOrder | packages/bridge/src/message-store.ts:2345-2385 | over every run in which each ingest that changed the table fitted, a smaller native sequence has smaller IDs on all its parts |
| Projection.FirstMisfitLosesOrder | packages/bridge/src/message-store.ts:2345-2385 | the first ingest of a run that does not fit loses the order |
| Projection.RunDecidesKeyOrder | packages/bridge/src/message-store.ts:2263-2395 | over every run of any requests the scopes are ordered by key all along exactly if every ingest that changed the table landed between the neighbours by key |
| Projection.RunKeepsKeyOrder | packages/bridge/src/message-store.ts:2526-2559 | over every run of any requests, each safe or without effect, a smaller key has smaller IDs on all its parts |
| Projection.FirstMisfitLosesKeyOrder | packages/bridge/src/message-store.ts:2526-2559 | the first ingest of such a run that is placed by its order key, its nearest smaller key not the empty one, and does not fit loses the order |
| Projection.EmptyKeyLosesOrder | packages/bridge/src/message-store.ts:2540-2542 | concrete case: the gap above a neighbour with the empty key has room, and yet every allocation near the preferred ID puts the new part below it |
| Projection.FullGapLosesOrder | packages/bridge/src/message-store.ts:2468-2470 | concrete case: between neighbours with adjacent IDs the fallback search loses the order |
| Projection.ResequencingLosesOrder | packages/bridge/src/message-store.ts:2325-2335 | concrete case: an in-place update of the native sequence loses the order |
| Projection.Store.KeepParts | packages/bridge/src/message-store.ts:2308-2335 | migrates, shrinks and renews the parts in place, and reports what went |
| Projection.Store.AddParts | packages/bridge/src/message-store.ts:2345-2385 | allocates and appends what is missing, nearest to the time or between the neighbours, from the middle of a bucket exactly if the request has a native sequence or an order key; fails exactly when the timestamp is needed and no safe integer, or the scope has too few IDs |
| Projection.Store.EnsureProjection | packages/bridge/src/message-store.ts:2263-2395 | the whole ingest: outcome for each case, the new table, rollback on failure, and both orders kept exactly when the request fits or lands between its neighbours |
| ProjectionTime.EpochIsThatOfTheFirst | packages/bridge/src/message-store.ts:2475-2492 | over every run a scope has an epoch exactly once a message was placed by time in it, and it is for ever that of the first such message |
| ProjectionTime.PlacedAtItsTime | packages/bridge/src/message-store.ts:2352-2366 | an ingest by time puts all its parts into the bucket of its second, counted from the first message placed by time in the scope and clamped to the ID space, whenever that bucket has enough free IDs |
| ProjectionTime.SlotsAtItsTime | packages/bridge/src/message-store.ts:2455-2463 | there they get the first free slots, or those from the middle outwards exactly if the message has a native sequence |
| ProjectionTime.TimeOrdersIds | packages/bridge/src/message-store.ts:2345-2385 | of two such ingests into different buckets the one of the earlier time has the smaller IDs, whichever came first |
| ProjectionTime.LaterSecondsHaveGreaterIds | packages/bridge/src/message-store.ts:2263-2395 | and so have the parts of the table at every later time |
| SearchMasks.MessageSearchKinds | packages/bridge/src/message-search.ts:96-115 | the loop computes the mask of the message |
| SearchMasks.MediaKindsAreMedia | packages/bridge/src/message-search.ts:74-83 | media never contribute a message-level kind or the service kind |
| SearchMasks.MatchIsSelected | packages/bridge/src/message-search.ts:163-172 | a part that matches a mask belongs to a message that every scan with a larger mask selects; the scan without kinds selects it exactly when it is no phone call |
| SearchMasks.TrimSort | packages/bridge/src/message-store.ts:1063-1067 | trimming and the stable sort commute |
| SearchMasks.LargerScan | packages/bridge/src/message-store.ts:1048-1068 | a scan under a larger mask, trimmed, is the own scan of the mask |
| SearchMasks.UnfilteredScan | packages/bridge/src/message-store.ts:1240-1243 | the scan without kinds, trimmed, is the own scan exactly unless phone calls are wanted and there are some |
| SearchMasks.ReuseIsExact | packages/bridge/src/message-store.ts:1169-1173 | a cached scan that is taken to cover a mask answers it correctly exactly unless its mask is 0, phone calls are wanted and there are some |
| SearchMasks.ManyIsEach | packages/bridge/src/message-store.ts:1051-1107 | the combined scan, cached or not, gives every mask its own result exactly unless a cached scan without kinds is reused for existing phone calls |
| SearchMasks.OneResultPerMask | packages/bridge/src/message-store.ts:1045-1057 | results correspond to the masks one to one exactly when no mask is repeated |
| SearchMasks.DedupeIsByFirst | packages/bridge/src/message-store.ts:1056-1056 | repeated masks are merged in the order of their first occurrence |
| SharedMedia.FilterFindsItsParts | packages/bridge/src/message-search.ts:74-180 | for every filter of shared media the search under its mask gives exactly the visible, indexed parts the filter is for: by kind of the media itself, or the first part of a message that has a link, mentions the user or is a phone call |
| SharedMedia.MediaBits | packages/bridge/src/message-search.ts:74-83 | which media each kind is for |
| SharedMedia.HitsDescend | packages/bridge/src/message-store.ts:1160-1160 | hits come in descending order of their Telegram IDs |
| PartIndexCache.NextValid | packages/bridge/src/message-store.ts:1072-1107 | every event keeps keys, insertion order, entries and the size limit consistent |
| PartIndexCache.InvalidationRemoves | packages/bridge/src/message-store.ts:1198-1210 | an invalidation leaves nothing under a key it concerns |
| PartIndexCache.KeysOnlyMoveForward | packages/bridge/src/message-store.ts:1091-1107 | a key only ever names what it named before or the newest scan: a finished orphan is never put back |
| PartIndexCache.StaleStaysOut | packages/bridge/src/message-store.ts:1072-1107 | after an invalidation only scans begun later are found under the key, over every run |
| PartIndexCache.Freshness | packages/bridge/src/message-store.ts:1072-1107 | a request made after its conversations were invalidated is served by a scan begun after the invalidation |
| PartIndexCache.ServedScanCovers | packages/bridge/src/message-store.ts:1077-1091 | whatever serves a request scanned for the same key with a covering mask |
| PartIndexCache.ConcurrentRequestsShare | packages/bridge/src/message-store.ts:1077-1091 | whoever asks for the same while a scan has just begun shares it; a new scan is never evicted at once |
| PartIndexCache.RowsComeFromTheirScan | packages/bridge/src/message-store.ts:1092-1102 | rows in an entry are those its own scan completed with, and never too many |
| PartIndexCache.Store.Request | packages/bridge/src/message-store.ts:1072-1091 | in place: reuse or begin a scan, evicting the oldest keys over the limit |
| PartIndexCache.Store.Complete | packages/bridge/src/message-store.ts:1092-1102 | what follows the await: rows and time go into the entry, or a result that is too large takes its own key out |
| PartIndexCache.Store.Fail | packages/bridge/src/message-store.ts:1103-1106 | what follows a failed await: the key goes only if it still names the entry |
| PartIndexCache.Store.Trim | packages/bridge/src/message-store.ts:1189-1195 | the eviction loop |
| PartIndexCache.Store.Invalidate | packages/bridge/src/message-store.ts:1198-1204 | the invalidation loop over the map in insertion order |
| PartIndexCache.Store.Clear | packages/bridge/src/message-store.ts:1206-1210 | drops everything |
| PartIndexReuse.ServedByTheSame | packages/bridge/src/message-store.ts:1077-1091 | over every run whatever serves a request was begun by a request for the same session, conversations in any order, terms, sender and times, under no mask or one with all kinds wanted |
| PartIndexReuse.SettledIsYoung | packages/bridge/src/message-store.ts:1079-1082 | rows that are served are those their scan completed with less than 30 seconds before, at most 40,000 |
| PartIndexReuse.SharedIsRunning | packages/bridge/src/message-store.ts:1081-1081 | a scan that is shared has neither completed nor failed |
| PartIndexReuse.SettledServes | packages/bridge/src/message-store.ts:1092-1102 | after a scan has completed under its key it serves the same question exactly for 30 seconds |
| PartIndexReuse.TooLargeIsForgotten | packages/bridge/src/message-store.ts:1095-1099 | a result of more rows is kept for nobody |
| PartIndexReuse.KeysChangeOnlySo | packages/bridge/src/message-store.ts:1091-1210 | a key is forgotten exactly for the reasons of the program: a ninth key coming, a result too large, a failure, an invalidation that concerns it, clearing; and added only by a scan that begins |
| LoginTokens.DeleteValid | packages/bridge/src/login-token.ts:151-162 | deleting an entry keeps all four maps in agreement |
| LoginTokens.ExpiredValid | packages/bridge/src/login-token.ts:134-139 | so does expiry of any entries |
| LoginTokens.ClearedHasRoom | packages/bridge/src/login-token.ts:66-69 | after clearing there is room for one more entry |
| LoginTokens.ClearedHasSourceRoom | packages/bridge/src/login-token.ts:61-65 | after clearing the source has room for one more token |
| LoginTokens.IssueKeepsAgreement | packages/bridge/src/login-token.ts:49-76 | an issue keeps the limits always, throwing or not, and the indexes exactly when what clearing left of the auth key can be replaced |
| LoginTokens.IssueNeedsNoEmptyToken | packages/bridge/src/login-token.ts:49-76 | it keeps them always if no entry has the empty token |
| LoginTokens.IssueSparesApproved | packages/bridge/src/login-token.ts:66-69 | an issue never takes away what another auth key has that is live and approved, however full the store is |
| LoginTokens.IssuedTokenLives | packages/bridge/src/login-token.ts:69-70 | an issued token expires at a whole second, less than a second before its lifetime is over, and can be approved until a second before |
| LoginTokens.EmptyTokenBreaksAgreement | packages/bridge/src/login-token.ts:52-70 | concrete case: after the empty token, the next issue before the cleanup leaves an entry no index leads to |
| LoginTokens.EntryStep | packages/bridge/src/login-token.ts:49-116 | how each operation can change one entry: identity set once by approval, claimed set by a claim and cleared only by a rollback |
| LoginTokens.NextKeepsAgreement | packages/bridge/src/login-token.ts:49-162 | every operation keeps the agreement |
| LoginTokens.RunAgrees | packages/bridge/src/login-token.ts:49-162 | after any run and any clock, throwing issues included, without empty tokens: indexes agree, claimed implies approved, both limits hold |
| LoginTokens.ClaimIsEntitled | packages/bridge/src/login-token.ts:78-99 | a claim succeeds only for the auth key that issued the token, with an identity approved after the issue |
| LoginTokens.ApprovedOnce | packages/bridge/src/login-token.ts:78-85 | a token is approved at most once |
| LoginTokens.NoSecondClaim | packages/bridge/src/login-token.ts:91-116 | between two successful claims of a token there is a rollback, and both are equal |
| LoginTokens.NoClaimAfterCommit | packages/bridge/src/login-token.ts:101-104 | after a commit no claim of the token succeeds |
| LoginTokens.ClaimByAuthKey | packages/bridge/src/login-token.ts:95-99 | an auth key can claim exactly when it has a live, approved, unclaimed, non-empty token |
| LoginTokenIssues.DecisionIsVerdict | packages/bridge/src/login-token.ts:49-68 | an issue is decided by the entries alone: with which refusal it fails, and that it succeeds else |
| LoginTokenIssues.IssueExchanges | packages/bridge/src/login-token.ts:49-76 | an issue that succeeds adds its entry and takes away what the auth key had or, where that was nothing and the store is full, the oldest entry neither approved nor claimed; and nothing else but what has expired |
| LoginTokenIssues.RefusalOnlyExpires | packages/bridge/src/login-token.ts:49-68 | an issue that fails takes away what has expired and nothing else |
| LoginTokenIssues.OrderIsThatOfIssues | packages/bridge/src/login-token.ts:134-149 | over every run without empty tokens the entries are in the order of their last issues, so the oldest is the one issued first |
| LoginTokenIssues.OtherEventsAre | packages/bridge/src/login-token.ts:78-127 | what approvals, claims, commits, rollbacks and look-ups do to all entries |
| LoginTokens.LoginTokenStore.IssueToken | packages/bridge/src/login-token.ts:49-76 | every branch of issue, its result and the whole new state, whatever the clock shows at each of its five readings |
| LoginTokens.LoginTokenStore.ApproveToken | packages/bridge/src/login-token.ts:78-85 | gives the auth key exactly when the token is live and neither approved nor claimed; sets the identity and the index, else deletes what has expired |
| LoginTokens.LoginTokenStore.ClaimEntry | packages/bridge/src/login-token.ts:111-116 | gives a claim exactly when the token is live, approved, unclaimed and of this auth key, and marks it claimed |
| LoginTokens.LoginTokenStore.ClaimApprovedForAuthKey | packages/bridge/src/login-token.ts:95-99 | claims the token the index has for the auth key, unless it is empty |
| LoginTokens.LoginTokenStore.CommitClaim | packages/bridge/src/login-token.ts:101-104 | deletes the entry of a claim exactly when it is claimed by that auth key |
| LoginTokens.LoginTokenStore.RollbackClaim | packages/bridge/src/login-token.ts:106-109 | clears the mark of a claim exactly when the entry is claimed by that auth key |
| LoginTokens.LoginTokenStore.ExpiresAt | packages/bridge/src/login-token.ts:87-89 | gives the expiry of a live token; an expired entry is deleted by being looked at |
| LoginTokens.LoginTokenStore.Expire | packages/bridge/src/login-token.ts:134-139 | the expiry loop |
| LoginTokens.LoginTokenStore.EvictOldest | packages/bridge/src/login-token.ts:141-149 | the eviction loop: the oldest entry neither approved nor claimed |
| LoginTokens.LoginTokenStore.Remove | packages/bridge/src/login-token.ts:151-162 | the four-map deletion |
| UpdateCounters.StepConserves | packages/bridge/src/message-store.ts:1878-1968 | an allocation continues where its scope stands and moves it by exactly what it hands out; other events leave a started scope alone |
| UpdateCounters.ChannelsLeaveAccountAlone | packages/bridge/src/message-store.ts:1943-1968 | channel reservations and deliveries never move account pts |
| UpdateCounters.PreparedOnce | packages/bridge/src/message-store.ts:1929-1936 | preparing a known event again allocates nothing |
| UpdateCounters.Contiguous | packages/bridge/src/message-store.ts:1878-1968 | over every run consecutive intervals of a scope are contiguous |
| UpdateCounters.FirstAllocation | packages/bridge/src/message-store.ts:1888-1890 | the first interval of an account begins at 1, that of a channel where the account stands |
| UpdateCounters.Disjoint | packages/bridge/src/message-store.ts:1878-1968 | with counts that are not negative the intervals of a scope are disjoint and in order |
| UpdateCounters.PtsAreConserved | packages/bridge/src/message-store.ts:1878-1968 | a scope moves by exactly the sum of what it hands out |
| UpdateCounters.PushesHaveIncreasingSeqs | packages/bridge/src/message-store.ts:1907-1920 | no two pushes of an account share a seq, and later ones have greater ones |
| UpdateCounters.StepSeq | packages/bridge/src/message-store.ts:1877-1905 | pushes take consecutive seqs, reserving pts for an answer takes none |
| UpdateCounters.DatesFallOnlyByAdvancePts | packages/bridge/src/message-store.ts:1895-1902 | the date of an account falls exactly when pts are reserved with an earlier date |
| UpdateCounters.DeliveryCarriesItsInterval | packages/bridge/src/message-store.ts:1938-1968 | a new delivery is stored with its interval, the next seq and a date no earlier than before, if any are retained at all |
| UpdateCounters.DeliveriesAreStable | packages/bridge/src/message-store.ts:1922-2000 | the numbers of a delivery never change while it is stored, whatever is claimed, filled, discarded or pruned |
| UpdateCounters.DeliveryStep | packages/bridge/src/message-store.ts:1922-2000 | a delivery stored after an event had the same numbers before, or the event created it with the interval and seq it allocated |
| UpdateCounters.DeliveryWasAllocated | packages/bridge/src/message-store.ts:1922-2000 | over every run a stored delivery carries the interval that one event allocated for it and no other since |
| UpdateCounters.PreparedAnew | packages/bridge/src/message-store.ts:1922-2000 | a delivery discarded or pruned and prepared again gets an interval after the one it had and a greater seq |
| UpdateCounters.StoredAreDisjoint | packages/bridge/src/message-store.ts:1922-2000 | the intervals of the deliveries stored for a scope are disjoint at every time |
| UpdateCounters.RunAgrees | packages/update-store-memory/src/index.ts:37-146 | over every run the list of a scope names exactly its deliveries, each once, no more than are retained |
| UpdateCounters.WindowHasNoHoles | packages/update-store-memory/src/index.ts:97-146 | while a delivery is stored, so is every later one of its scope that was not discarded by its key: a client at or after the oldest one misses nothing |
| UpdateHistories.DroppedOnlySo | packages/update-store-memory/src/index.ts:37-146 | a delivery is dropped exactly when it is discarded by its key, or is the oldest of its scope, as many as are retained are stored, and a new one comes |
| UpdateHistories.ListIsInOrder | packages/update-store-memory/src/index.ts:47-51 | the list of a scope is in the order of creation, over every run |
| UpdateHistories.ContentIsHistory | packages/bridge/src/message-store.ts:1922-1980 | a stored delivery has its payload exactly if it was filled since it was created, and its claim is from when it was last prepared |
| UpdateHistories.DiscardIsExact | packages/bridge/src/message-store.ts:1991-2000 | a delivery is discarded exactly while nothing has filled it and, if it must be abandoned, 30 seconds after it was last prepared |
| UpdateHistories.AccountDate | packages/bridge/src/message-store.ts:1878-1961 | over every run the date of an account is that of the last reservation of its own pts or the latest pushed since, and its qts never move |
| UpdateHistories.ChannelDate | packages/bridge/src/message-store.ts:1888-1961 | how far each event moves the date of a channel |
| UpdateJournal.CreationAgrees | packages/update-store-memory/src/index.ts:37-53 | a creation, and the pruning it ends with, keeps list and deliveries in agreement |
| UpdateJournal.RemovalAgrees | packages/update-store-memory/src/index.ts:70-80 | a removal keeps them in agreement |
| UpdateJournal.PruningAgrees | packages/update-store-memory/src/index.ts:134-146 | so does pruning |
| UpdateJournal.MemoryUpdateStore.Create | packages/update-store-memory/src/index.ts:37-53 | gives what is stored under a known key, else stores, lists and prunes |
| UpdateJournal.MemoryUpdateStore.Remove | packages/update-store-memory/src/index.ts:70-80 | removes a delivery and its entry in the list, and the list with its last entry |
| UpdateJournal.MemoryUpdateStore.Prune | packages/update-store-memory/src/index.ts:134-146 | the pruning loop: the oldest of a list go until it is no longer than what is retained |
| UpdateCounters.Store.AdvancePts | packages/bridge/src/message-store.ts:1878-1905 | refuses counts that are no positive safe integer, else moves the scope alone and gives its new pts |
| UpdateCounters.Store.AdvanceUpdateState | packages/bridge/src/message-store.ts:1907-1920 | moves pts by the count and seq by one, and never the date back |
| UpdateCounters.Store.PrepareUpdateDelivery | packages/bridge/src/message-store.ts:1922-1968 | numbers a new delivery, also when storing it fails after its transaction, and gives it even if none are retained; a known one is only claimed again |
| UpdateCounters.Store.SetUpdatePayload | packages/bridge/src/message-store.ts:1978-1980 | fills a stored delivery and changes nothing else |
| UpdateCounters.Store.DiscardUpdateDelivery | packages/bridge/src/message-store.ts:1982-2000 | removes a delivery exactly when it has no payload and, if it must be abandoned, its claim is 30 seconds old |
| UpdateCounters.Store.PruneUpdateDeliveries | packages/bridge/src/message-store.ts:2691-2693 | prunes the list of the account and leaves counters and channels alone |
| PromiseLocks.NextStructured | packages/bridge/src/active-sessions.ts:36-55 | reserve, enter and release keep the map in step with the newest reservation of every key |
| PromiseLocks.ReleaseKeepsOrder | packages/bridge/src/active-sessions.ts:47-52 | a release keeps the order exactly when the releaser's own wait had been resolved |
| PromiseLocks.MutualExclusion | packages/bridge/src/active-sessions.ts:36-55 | in every run of timely releases, whoever has entered a key did so after every earlier reservation was released: at most one inside, in order |
| PromiseLocks.MapIsExact | packages/bridge/src/active-sessions.ts:43-52 | the map holds a key exactly when its newest reservation is unreleased; nothing leaks |
| PromiseLocks.TerminalFences | packages/bridge/src/active-sessions.ts:68-99 | until a terminal reservation is released no reservation of its key follows and none is accepted |
| PromiseLocks.RejectedByTerminal | packages/bridge/src/active-sessions.ts:40-40 | a reservation is rejected only by an unreleased terminal one |
| PromiseLocks.RejectionIsExact | packages/bridge/src/active-sessions.ts:38-43 | over every run a reservation is rejected exactly if a terminal one of its key was accepted before and not released since; else it is accepted under the next number |
| PromiseLocks.AcceptedStays | packages/bridge/src/active-sessions.ts:38-52 | an accepted reservation is logged with its own key and flag, and is released exactly if it was asked to be |
| PromiseLocks.EntersWhenFree | packages/bridge/src/active-sessions.ts:46-46 | where the earlier reservations of its key are released, a reservation that waits enters |
| PromiseLocks.EarlyReleaseAdmitsTwo | packages/bridge/src/active-sessions.ts:47-52 | concrete case: an early release lets a third reservation in while the first is inside |
| PromiseLocks.SectionsAreSerial | packages/bridge/src/message-store.ts:2695-2734 | the write queue and the touch lock: sections under one key run one after the other in the order of reservation, none rejected |
| PromiseLocks.NeverTerminal | packages/bridge/src/active-sessions.ts:137-149 | the touch lock never reserves terminally |
| PromiseLocks.ReservationQueue.Reserve | packages/bridge/src/active-sessions.ts:38-45 | rejects exactly under a fence; else the new reservation, with its key and flag, is the tail and waits for the old one |
| PromiseLocks.ReservationQueue.Release | packages/bridge/src/active-sessions.ts:47-52 | resolves once; the map entry goes only if it is still one's own |
| RichText.SortSorts | packages/bridge/src/dialogs.ts:7283-7284 | the wrapping order is a stable sort by later offset, then shorter length |
| RichText.ContainedIsInside | packages/bridge/src/dialogs.ts:7283-7284 | nesting is proper: an entity within another ends up inside it |
| RichText.CoversAll | packages/bridge/src/dialogs.ts:7274-7282 | between neighbouring boundaries an entity covers everything or nothing |
| RichText.SegmentEntities | packages/bridge/src/dialogs.ts:7272-7284 | the entities applied to a segment are those that cover each of its positions |
| RichText.ApplyRenders | packages/bridge/src/dialogs.ts:7285-7301 | wrapping shows exactly the styles of the entities in order, a custom emoji replacing what is inside it |
| RichText.MakeSegment | packages/bridge/src/dialogs.ts:7282-7301 | the inner loop |
| RichText.MakeTlRichText | packages/bridge/src/dialogs.ts:7265-7305 | rendered, the result shows at every position exactly the code unit with the stack of styles of the valid inline entities covering it |
| RichText.ConversionKeepsText | packages/bridge/src/dialogs.ts:7265-7305 | the leaves spell the text |
| RichText.StylesAreThoseCovering | packages/bridge/src/dialogs.ts:7283-7301 | custom emoji exactly where a convertible one covers; elsewhere the styles are exactly those of the convertible covering entities |
| RichTextKinds.EachKindLooksSo | packages/bridge/src/dialogs.ts:7285-7301 | a custom emoji is seen exactly where one covers that the options know, and then one of those; elsewhere bold exactly where a bold entity covers, and so on for every style, links and mentions as the options say |
| RichTextKinds.ArticleIs | packages/bridge/src/platform.ts:972-981 | a message is an article exactly if it has only texts and still images, with a text that is not blank between two images |
| RichTextKinds.RowIs | packages/bridge/src/dialogs.ts:7246-7247 | the row of a media part is the first with its index and its media |
| RichText.QuotedTogether | packages/bridge/src/dialogs.ts:7230-7243 | between neighbouring quote boundaries everything is quoted or nothing |
| RichText.MakeTextBlocks | packages/bridge/src/dialogs.ts:7228-7244 | the blocks of a text part show its text, a position quoted exactly if a valid quote covers it |
| RichText.MakeTlArticleMedia | packages/bridge/src/dialogs.ts:7219-7257 | the article shows part by part exactly its texts and photos; its photos are those of the media parts, in order and as often as they occur; refused exactly when the message is no article or a photo has no row |
| RichText.ArticleKeepsText | packages/bridge/src/dialogs.ts:7228-7244 | the leaves across blocks spell the texts that are not blank |
| Srp.ServerPower | packages/bridge/src/login-srp.ts:133-134 | the server's secret is the generator to the power (a + u x) b |
| Srp.ClientPower | packages/bridge/src/login-srp.ts:91-91 | the secret of section 2.6 of RFC 5054 is the same power |
| Srp.SecretsAgree | packages/bridge/src/login-srp.ts:56-134 | both sides compute the same secret for every x, a, b, u, k, g and modulus |
| Srp.NumberSurvives | packages/bridge/src/login-srp.ts:37-43 | numbers below 256^n survive the encoding to n bytes |
| Srp.BytesSurvive | packages/bridge/src/login-srp.ts:37-43 | bytes survive the decoding to a number |
| Srp.PasswordHashesAgree | packages/bridge/src/login-srp.ts:45-55 | server and client compute the same number from a password and the salts |
| Srp.HonestClientIsAccepted | packages/bridge/src/login-srp.ts:126-147 | a client that knows the password, and composes hash and proof itself as the protocol says, is accepted exactly when its public key is more than 1 |
| Srp.OnlyTheSecretIsAccepted | packages/bridge/src/login-srp.ts:126-147 | for any hash, a proof of a secret is accepted exactly if it names the challenge, the public key is in range and the secret is that of the server, or the hash collides on the two secrets or the two inputs of the proofs |
| Srp.ChallengeLivesFiveMinutes | packages/bridge/src/login-srp.ts:79-112 | a challenge that is neither replaced nor deleted is found for exactly five minutes, failed checks notwithstanding |
| Srp.SrpChallengeStore.BeginChallenge | packages/bridge/src/login-srp.ts:79-95 | prunes, makes the challenge from the verifier, and replaces the one before |
| Srp.SrpChallengeStore.GetChallenge | packages/bridge/src/login-srp.ts:97-100 | prunes, then gives what is left for the auth key |
| Srp.SrpChallengeStore.DeleteChallenge | packages/bridge/src/login-srp.ts:102-104 | deletes the challenge of the auth key and no other |
| Srp.SrpChallengeStore.Prune | packages/bridge/src/login-srp.ts:106-111 | the loop that drops what has expired |
| JpegScan.JpegDimensions | packages/bridge/src/image-dimensions.ts:50-67 | the scanner terminates on every byte array, never reads out of bounds, and computes `Scan` |
| JpegScan.SkipToMarker | packages/bridge/src/image-dimensions.ts:54-55 | the two inner loops |
| JpegScan.StreamIsScanned | packages/bridge/src/image-dimensions.ts:50-67 | on every stream of the grammar: the sizes of its first complete frame header, unless one is zero |
| JpegScan.WhatIsFoundIsStream | packages/bridge/src/image-dimensions.ts:50-67 | whenever sizes are found, the bytes are a stream of the grammar with these sizes |
| JpegScan.ScanIsExact | packages/bridge/src/image-dimensions.ts:50-71 | sizes are found exactly on those streams |
| JpegScan.ReadsSegment | packages/bridge/src/image-dimensions.ts:57-64 | a written segment is read back: marker, length, payload and what follows |
| JpegScan.MarkersAgree | packages/bridge/src/image-dimensions.ts:57-71 | the scanner takes for frame headers and for markers without a segment exactly those of table B.1 of ITU-T T.81 |
| JpegScan.ReadPrefix | packages/bridge/src/image-dimensions.ts:6-26 | the bounded prefix of the chunks of a source |
| JpegScan.PrefixIsEnough | packages/bridge/src/image-dimensions.ts:6-26 | what is found in a bounded prefix is what would be found in the whole source |

## Left out

- C++ memory orders and fairness: atomics are sequentially consistent, waits are guarded steps, and nothing is claimed about progress of blocked threads.
- PlayoutRing.StepInv: positions and sequence numbers are unbounded; the program's `size_t` wraps after 2^64 pushes. `PlayoutRing.PositionsStaySmall` bounds their distance.
- PcmBridge.PlayoutPath.PushPlayout10ms: one thread at a time; what the drop counter says under interleaving is `PlayoutDrops.CounterIsBounded`.
- PcmBridge.CapturePath.PushCapture20ms: whether the callback gate admits the caller is a parameter; the gate itself is modelled in `BridgeLifecycle.dfy`.
- PcmBridge.CaptureQueue.Push: frames are values in an array, so overlapping copies of sample buffers are not modelled.
- SessionLifecycle.StepInv: the 32-bit in-flight counters are unbounded, the tgcalls instance is any adapter that may succeed or fail, and sample data are those of `PcmBridge.dfy`. A call from inside a callback is a call by another thread of the model, during which the thread of the callback does not move.
- SessionCalls.SoloReceive: what Receive and the outbound callback check of their data and its length before the first lock is left out.
- SessionBridge.NothingIsRefused: for fewer than 2^31 - 1 threads, as with more the packed counters are full and admission fails.
- Projection.IngestKeepsKeyOrder: order keys are named by their place in the order of the database, the empty key being 0; what holds of messages that also have a native sequence is `Projection.IngestDecidesKeyOrder`.
- Projection.Store.EnsureProjection: media, grouped IDs and the projection plan are left out; a plan is its number of parts, and part rows of a message are numbered without gaps.
- SlotAllocator.Allocate: the rows of a scope are a set of IDs read once per call; the transaction around it is atomic.
- SearchMasks.MessageSearchKinds: whether a text or card holds a link is part of the input, as link detection is a library; search texts and their normalisation are left out.
- SearchMasks.ReuseIsExact: rows are read in one order; the program reads batches concurrently, which can change the order among equal IDs of different scopes.
- PartIndexCache.Freshness: speaks of the part index only; the caches of counts and of search pages store their results without the check for orphans.
- PartIndexCache.Store.Complete: entries are values in a map named by numbers instead of objects, which is what their identity checks need.
- LoginTokens.LoginTokenStore.IssueToken: the parsing of login URLs is left out.
- UpdateCounters.Disjoint: `advanceUpdateState` and `prepareUpdateDelivery` take counts from their callers unchecked, so that they are not negative is a premise.
- UpdateCounters.Store.PrepareUpdateDelivery: publishing and the reading of deliveries are left out; every delivery has been claimed, so rows of older versions without a claim are not modelled.
- UpdateJournal.MemoryUpdateStore.Prune: of the stores of deliveries the one in memory is modelled; the one in the database prunes in batches and is left out.
- PromiseLocks.MutualExclusion: promises settle in any order the waiting allows; errors thrown inside a section are releases like any other.
- RichText.MakeTlRichText: offsets are integers, as the program filters out others first.
- RichText.MakeTlArticleMedia: a photo is its row ID; sizes, thumbnails and file references are left out.
- Srp.HonestClientIsAccepted: modular powers are specified, not computed; the hash, the exclusive or and the stretching of passwords are arbitrary functions, and the prime is any modulus of 256 bytes.
- JpegScan.JpegDimensions: PNG, GIF and WebP headers are fixed offsets without a hard property.
- Database backends, RPC registration, HTTP routes, dashboards, React pages, the mini-app, account provisioning, thumbnails, TOTP and message serialization: plumbing, or easy members only.
