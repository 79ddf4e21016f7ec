# Verified model of the relay-protection gateway

A Dafny model of the core of the smart-grid relay-protection gateway, with proofs of what its parts promise. Four
separable cores are modelled, each in the form of the Go source: objects whose methods update fields are classes,
algorithms with loops are methods with invariants, and both are proved against functions on values about which the
lemmas speak.

1. **Logic graph** (`LogicModel`, `Topology`, `Edges`, `LogicGraph`, `Evaluation`, `Runs`, `Interlock`, `Lockouts`,
   `Engine`). Nodes are linked objects changed in place. Kahn's sort is sound and complete for graphs with parallel edges
   and self-loops. One pass computes the only solution of the node equations, so neither the order that map iteration
   picks nor any clock reading shows in the result. Whole runs give the memory of latches and timers, the interlock of the
   overcurrent scheme and the gating by lockouts.
2. **Capture path** (`NextPow2`, `Fifo`, `Rings`, `Spsc`, `Pipeline`, `MacFilter`, `Capture`). Both rings refine a bounded
   FIFO, wrapping counters included. `Spsc` splits the lock-free ring into single loads, byte copies and stores and proves
   safety and linearizability over every interleaving of one producer and one consumer, and that what is published is what
   the calls were given. Read off the actions of the two loops, frames are conserved and stay in order from wire to
   channel. The Bloom filter in front of the exact set answers like the set, for any hash.
3. **BER and GOOSE data** (`Ber`, `BerRoundTrip`, `Integers`, `DataDecoder`). The two header scanners agree on all bytes,
   the iterator tiles its input, a byte string parses exactly when an element in definite form stands at its front, and
   decoding inverts an encoder written from ITU-T X.690, sections 8.1.2, 8.1.3 and 8.3, for elements, integers and nested
   data.
4. **Differential protection** (`Window`, `Phasors`, `Restraint`, `Differential`). Circular windows refine the history,
   the relay's state after any run is a function of the last cycles, it is secure against through faults and counts its
   trips exactly; the restraint characteristic is continuous, monotone or convex under exact conditions.

Conventions: 64-bit counters are numbers below 2^64 with explicit wrap-around; `float64` is `real`; sine, cosine and
arctangent are arbitrary functions and `hypot` any function with the square-root property; hashes and the room in a
channel are arbitrary functions; clock readings are parameters, one per visited node where the code reads the clock there.

## What the code does that its names do not suggest

- Timers. `Evaluate` stores a node's own old output in `PrevValue`, and the timer then compares its input with it, so
  the delay restarts at every evaluation at which input and output differ. A timer with an on-delay never rises from
  false and one with an off-delay never falls (`Runs.TimerHeld` is exact, `Runs.OnDelayCounterexample` shows a run). In
  the overcurrent scheme stages II and III therefore never trip (`Interlock.InterlockHolds`).
- The data decoder switches on the tag number before the class. Context-specific elements [1] to [4] are decoded as
  BOOLEAN, INTEGER, BIT STRING and OCTET STRING; the float branch is never reached (`DataDecoder.NoFloats`).
- `nextPow2Uint64` gives 0 for 0 and above 2^63; the rings then take 8 slots (`Rings.RoundCapacity`).
- A Bloom snapshot taken before any target was added rejects every frame when the filter is in use
  (`Capture.HighPerfGOOSECapture.TargetsPass`).
- A batch of inputs with a bad id stops half way and keeps what was set (`LogicGraphs.LogicGraph.SetInputs`).
- The threshold jumps when the breakpoints are out of order and the slopes differ; ordered slopes alone do not make it
  convex, they must not be negative either (`Restraint.ContinuousIff`, `Restraint.ConvexIff`).
- The relay uses its characteristic and not the five restraint settings next to it; the two sets of defaults differ above
  a restraint of 1.5 (`Restraint.DefaultsAgreeIff`).

## Model

| member | source | states |
|---|---|---|
| `LogicGraphs.LogicGraph.TopologicalSort` | pkg/logic/dag.go:140-179 | Kahn's sort, whatever order the map iterations take: it fails on the empty graph, otherwise it succeeds exactly when the graph is acyclic, and then returns every node once with the source of every edge (parallel edges and self-loops included) before its target |
| `Topology.KahnOutcome` | pkg/logic/dag.go:160-178 | comparing the number of sorted nodes with the number of nodes decides acyclicity: equal exactly when there is no cycle, and then the result is a topological order |
| `Topology.StuckIsCyclic` | pkg/logic/dag.go:174-176 | when the queue runs dry early the graph has an actual cycle, found by walking back along unreleased inputs |
| `Topology.SortedIsTopological` | pkg/logic/dag.go:160-178 | a complete run is a permutation of the nodes with sources before targets |
| `Topology.TopologicalIsAcyclic` | pkg/logic/dag.go:140-179 | a graph with a topological order has no cycle |
| `Topology.ReleaseOutput` | pkg/logic/dag.go:166-171 | one decrement keeps the counting invariant: a degree is the number of input entries (parallel edges counted separately) not yet released, never negative, and a node enters the queue exactly when it reaches zero |
| `LogicGraphs.LogicGraph.KahnRun` | pkg/logic/dag.go:148-172 | the whole loop nest ends with an empty queue and the invariant on everything sorted |
| `LogicGraphs.LogicGraph.InDegrees` | pkg/logic/dag.go:148-151 | initial degrees are the lengths of the input lists |
| `LogicGraphs.LogicGraph.Sources` | pkg/logic/dag.go:153-158 | the initial queue holds each node of degree zero once, in an arbitrary order |
| `LogicGraphs.LogicGraph.DrainQueue` | pkg/logic/dag.go:160-172 | the outer loop keeps the invariant and terminates |
| `LogicGraphs.LogicGraph.ReleaseOutputs` | pkg/logic/dag.go:166-171 | the inner loop releases every output entry of one node, enqueuing the ones that become free |
| `LogicGraphs.LogicGraph.BuildTopology` | pkg/logic/dag.go:181-192 | stores the order on success; on failure the old order, the wiring and all node states stay |
| `Topology.TopologicalIsEvaluationOrder` | pkg/logic/dag.go:398-401 | a topological order is fit for the evaluation loop |
| `LogicGraphs.LogicGraph.constructor` | pkg/logic/dag.go:86-90 | an empty graph without order |
| `LogicGraphs.LogicGraph.AddNode` | pkg/logic/dag.go:92-110 | registers an unconnected node, refuses a known id and then changes nothing |
| `LogicGraphs.LogicGraph.AddEdge` | pkg/logic/dag.go:112-130 | appends to both edge lists in place, the same node's lists for a self-loop; an unknown id changes nothing; no node state changes |
| `Edges.AddNodeKeeps` | pkg/logic/dag.go:92-110 | adding a node keeps edge lists closed and mirrored |
| `Edges.AddEdgeKeeps` | pkg/logic/dag.go:112-130 | adding an edge keeps Inputs and Outputs mirror images with multiplicity |
| `Edges.AddEdgeAt` | pkg/logic/dag.go:126-127 | exactly one entry is added at each end and every other list stays |
| `LogicGraphs.LogicNode.constructor` | pkg/logic/dag.go:76-84 | a node starts false, unlatched and unconnected |
| `LogicGraphs.LogicNode.AllInputsTrue` | pkg/logic/dag.go:203-210 | the AND and NAND loop answers whether every input is true |
| `LogicGraphs.LogicNode.AnyInputTrue` | pkg/logic/dag.go:216-223 | the OR and NOR loop answers whether some input is true |
| `LogicGraphs.LogicNode.InputParity` | pkg/logic/dag.go:261-265 | the XOR loop gives the parity of the inputs |
| `LogicGraphs.LogicNode.EvaluateTimer` | pkg/logic/dag.go:291-326 | the timer branch by branch, with its restamping of LastChanged |
| `LogicGraphs.LogicNode.Evaluate` | pkg/logic/dag.go:194-289 | every gate type, with the latch and timer side effects |
| `LogicGraphs.LogicNode.Visit` | pkg/logic/dag.go:403-412 | one turn of the evaluation loop: PrevValue becomes the node's own old value before it is evaluated |
| `LogicGraphs.LogicNode.SetInput` | pkg/logic/dag.go:328-341 | sets and stamps an input node, ignores any other |
| `LogicGraphs.LogicNode.ResetLatch` | pkg/logic/dag.go:474-479 | clears a latch, leaves any other node |
| `LogicGraphs.LogicGraph.Evaluate` | pkg/logic/dag.go:383-429 | the in-place pass over linked node objects equals the pass on values: state, changed flag, signals in order; without an order it fails and changes nothing |
| `LogicGraphs.LogicGraph.VisitOne` | pkg/logic/dag.go:403-424 | updating one node object changes that entry of the graph state and nothing else |
| `LogicGraphs.LogicGraph.SetInput` | pkg/logic/dag.go:349-361 | succeeds exactly for an input node, distinguishes the two errors, and changes nothing on failure |
| `LogicGraphs.LogicGraph.SetInputs` | pkg/logic/dag.go:432-436 | a batch succeeds exactly when every id is an input node; on failure exactly the inputs set before the bad id stay set |
| `LogicGraphs.LogicGraph.EvaluateIncremental` | pkg/logic/dag.go:431-439 | a batch followed by one pass; on failure the partial batch stays |
| `LogicGraphs.LogicGraph.GetOrAddInputNode` | pkg/logic/dag.go:363-381 | returns the existing input node or a new one; a known id of another type is an error |
| `LogicGraphs.LogicGraph.ResetLatches` | pkg/logic/dag.go:469-481 | every latch cleared in place, all other nodes unchanged, in any iteration order |
| `LogicGraphs.LogicGraph.ResetOne` | pkg/logic/dag.go:473-480 | resetting one node object changes that entry of the graph state and nothing else |
| `Evaluation.TimerIsTimeFree` | pkg/logic/dag.go:291-326 | because PrevValue holds the node's own old output, a visit's result never depends on the clock: it is a function of inputs, own value, latch and the signs of the delays |
| `Evaluation.PassNode` | pkg/logic/dag.go:398-425 | after a whole pass every non-input node is its visit applied to the final values of its inputs |
| `Evaluation.PassSolves` | pkg/logic/dag.go:383-429 | one pass in any legal order satisfies every node equation |
| `Evaluation.UniqueSolution` | pkg/logic/dag.go:194-289 | the node equations have at most one solution when a legal order exists |
| `Evaluation.PassReports` | pkg/logic/dag.go:409-422 | Changed is true exactly when some value differs, and the signals are those of the final values |
| `Evaluation.TripListCount` | pkg/logic/dag.go:414-422 | each firing trip output contributes its signal exactly once |
| `Evaluation.SignalMultiplicity` | pkg/logic/dag.go:409-422 | in any graph, state and legal order a signal occurs once when it names a node that is an OUTPUT, is a trip output and ends up true, with that node's device, id and name and the start time, and never otherwise |
| `Evaluation.GatesAfterPass` | pkg/logic/dag.go:194-289 | what every gate shows after a pass in terms of the values its sources show, empty input lists and parallel edges included |
| `Evaluation.ParityCounts` | pkg/logic/dag.go:257-265 | the XOR loop is true iff the number of true inputs is odd |
| `Evaluation.Stamps` | pkg/logic/dag.go:403-412 | PrevValue and LastChanged after a visit |
| `Evaluation.TimerDelays` | pkg/logic/dag.go:291-326 | the timer alone, for any PrevValue: a changed input restarts the delay, an unchanged one switches the output once the delay has elapsed |
| `Evaluation.Confluence` | pkg/logic/dag.go:153-158 | the order map iteration happens to pick does not matter: any two legal orders, with any clock readings, give the same values, latches, Changed and multiset of trip signals |
| `Evaluation.LatchAfterPass` | pkg/logic/dag.go:267-275 | a latch ends a pass latched exactly when it was or its first input is true |
| `Evaluation.SolutionIsStable` | pkg/logic/dag.go:383-429 | the values after a pass solve the equations that start from them |
| `Evaluation.Fixpoint` | pkg/logic/dag.go:383-429 | a second evaluation with nothing in between, after any time, changes no value and no latch, reports no change and repeats the trip list |
| `Evaluation.AddedInputKeepsOrder` | pkg/logic/dag.go:363-381 | an input node added after the order was built leaves that order legal |
| `Runs.StepLatch` | pkg/logic/dag.go:267-275 | what one input change, evaluation or reset does to a latch |
| `Runs.StepTimer` | pkg/logic/dag.go:291-326 | what one event does to a timer, no clock reading involved |
| `Runs.LatchRemembers` | pkg/logic/dag.go:469-481 | over every run from fresh nodes a latch is true exactly when its first input was true at some evaluation since the last ResetLatches |
| `Runs.TimerNeverRises` | pkg/logic/dag.go:309-316 | over every run a timer with an on-delay that starts false stays false |
| `Runs.TimerNeverFalls` | pkg/logic/dag.go:317-325 | over every run a connected timer with an off-delay that is true stays true |
| `Runs.TimerHeld` | pkg/logic/dag.go:299-325 | exactly when the delays do their job: input held true through a run of any duration, the timer ends true iff it has no on-delay or was true; held false, iff it has an off-delay and was true |
| `Runs.InputKept` | pkg/logic/dag.go:398-401 | evaluations do not touch an input node |
| `Runs.OnDelayCounterexample` | pkg/logic/dag.go:403-411 | the 500 ms timer still false after its input was true for 1000 ms |
| `Interlock.ConnectInputs` | pkg/config/config.go:183-198 | connecting edges appends each node's sources in edge order and keeps its parameters |
| `Interlock.SchemeNode` | pkg/config/config.go:166-198 | the built graph has exactly the edges of the scheme |
| `Interlock.SchemeIsAcyclic` | pkg/config/config.go:183-198 | the scheme has no cycle, so building its topology succeeds |
| `Interlock.GateBySources` | pkg/logic/dag.go:194-289 | the gate equations read off the set of sources, whatever the order of the input list |
| `Interlock.OnlyBreakersTrip` | pkg/config/config.go:179-181 | the only trip outputs are the three breakers |
| `Interlock.TripValue` | pkg/config/config.go:165-199 | each breaker output is true exactly on start, no lockout and a stage that is through its timer |
| `Interlock.TripsAllOrNone` | pkg/config/config.go:165-199 | from any state, in any legal order, an evaluation emits one signal for each of A, B, C or none at all, and which is decided by start, lockout, the stages and the delayed timers' values |
| `Interlock.InterlockHolds` | pkg/config/config.go:165-199 | after every run from fresh nodes an evaluation trips iff in_i_start, not in_lockout and in_i1_oper: the delayed stages never contribute |
| `Interlock.BreakerTripsIff` | pkg/config/config.go:159-163 | with any lockout table in force, the trip of one breaker is delivered iff that condition holds and the breaker itself is not locked out |
| `Lockouts.LockedOutIffHeld` | pkg/logic/engine.go:151-166 | over every run a device is locked out iff its last SetLockout was followed by no clear of it and no tick at or after start + duration; an ended lockout never returns by itself |
| `Lockouts.PassedAreUnheld` | pkg/logic/engine.go:244-263 | the number of signals a dispatch lets through, judged by the history alone |
| `Lockouts.TripCountIsDelivered` | pkg/logic/engine.go:255-255 | over every run tripCount is, modulo 2^64, the number of dispatched signals whose device had no standing lockout |
| `Lockouts.PassedCount` | pkg/logic/engine.go:250-253 | dispatch removes all signals of a locked-out device and keeps every other with its multiplicity |
| `Engine.ProtectionEngine.constructor` | pkg/logic/engine.go:74-84 | no lockouts, counters at zero |
| `Engine.ProtectionEngine.SetLockout` | pkg/logic/engine.go:265-276 | starts or restarts a lockout |
| `Engine.ProtectionEngine.ClearLockout` | pkg/logic/engine.go:278-285 | ends a lockout, ignores an unknown id |
| `Engine.ProtectionEngine.IsLockedOut` | pkg/logic/engine.go:287-295 | whether the device has an active lockout |
| `Engine.ProtectionEngine.CheckTimers` | pkg/logic/engine.go:151-166 | every expired active lockout is cleared, in any iteration order, and nothing else changes |
| `Engine.ProtectionEngine.DispatchTrips` | pkg/logic/engine.go:244-263 | delivers the signals of devices that are not locked out, in order, and counts exactly those |
| `Engine.ProtectionEngine.SetInputsBatch` | pkg/logic/engine.go:185-204 | a batch, one evaluation, one dispatch; a bad id or a missing order leaves the counters alone, delivers nothing and keeps the inputs set so far |
| `NextPow2.SmearOnce` | internal/capture/ringbuffer.go:46-51 | each shift-or line doubles the run of ones below the top bit |
| `NextPow2.SmearFills` | internal/capture/ringbuffer.go:46-51 | the six lines fill every bit below the top bit of a 64-bit word |
| `NextPow2.SmearPlusOne` | internal/capture/ringbuffer.go:44-54 | what the routine yields for every 64-bit argument |
| `NextPow2.NextPow2Uint64` | internal/capture/ringbuffer.go:44-54 | the least power of two >= v for 1 <= v <= 2^63, and 0 for v = 0 and v > 2^63 |
| `Rings.RoundCapacity` | internal/capture/ringbuffer.go:24-28 | the capacity is the least power of two that is at least 8 and the request; a negative request gives 8, except the least int64, which gives 2^63 |
| `Rings.LockFreeRingBuffer.constructor` | internal/capture/ringbuffer.go:24-42 | an empty ring of at least 8 slots |
| `Rings.LockFreeRingBuffer.SlotIndex` | internal/capture/ringbuffer.go:65-66 | masking the wrapped 64-bit counter is reducing the unbounded serial number |
| `Rings.LockFreeRingBuffer.Distance` | internal/capture/ringbuffer.go:60-60 | head - tail in wrapping arithmetic is the number of packets held |
| `Rings.LockFreeRingBuffer.Enqueue` | internal/capture/ringbuffer.go:56-77 | a bounded FIFO enqueue of bytes, length and timestamp, refused exactly when `capacity` packets are held, before and after the counters wrap |
| `Rings.LockFreeRingBuffer.Dequeue` | internal/capture/ringbuffer.go:79-100 | yields the oldest packet intact, or nothing and no change when empty |
| `Rings.LockFreeRingBuffer.DequeueBatch` | internal/capture/ringbuffer.go:102-111 | the oldest min(held, len) packets in order, the remaining buffers untouched |
| `Rings.LockFreeRingBuffer.Size` | internal/capture/ringbuffer.go:123-127 | the number of packets held |
| `Rings.SPSCLockFreeQueue.constructor` | internal/capture/ringbuffer.go:158-175 | an empty queue of at least 8 slots |
| `Rings.SPSCLockFreeQueue.Ends` | internal/capture/ringbuffer.go:181-184 | one slot stays free, so equal indices mean empty and adjacent ones full |
| `Rings.SPSCLockFreeQueue.Enqueue` | internal/capture/ringbuffer.go:177-196 | a bounded FIFO enqueue that holds capacity - 1 packets |
| `Rings.SPSCLockFreeQueue.Dequeue` | internal/capture/ringbuffer.go:198-215 | yields the oldest packet intact, or nothing when empty |
| `Rings.SPSCLockFreeQueue.Size` | internal/capture/ringbuffer.go:232-237 | both branches give the number of packets held |
| `Fifo.Store` | internal/capture/ringbuffer.go:68-73 | copying into a slot, grown when too short, leaves exactly the packet readable |
| `Fifo.CapacitiesAgreeIff` | internal/capture/ringbuffer.go:177-184 | the two rings give the same answers on a run exactly when no enqueue meets a queue already holding the smaller bound |
| `Spsc.RunKeeps` | internal/capture/ringbuffer.go:56-100 | the invariant of every reachable state when every load, copied byte and store is a step of its own |
| `Spsc.InterleavingSafe` | internal/capture/ringbuffer.go:56-100 | over every interleaving of one producer and one consumer: 0 <= head - tail <= capacity, taken packets are a prefix of the published ones, the slot being written is never the one being read, the reader never meets a changed slot |
| `Spsc.ProducerRefinesFifo` | internal/capture/ringbuffer.go:56-77 | every producer step is invisible or an accepted FIFO enqueue; a refusal was decided at a moment when the ring was full |
| `Spsc.ConsumerRefinesFifo` | internal/capture/ringbuffer.go:79-100 | every consumer step is invisible or a FIFO dequeue of the oldest packet; an empty answer was decided at a moment when the ring was empty |
| `Spsc.RunRefinesFifo` | internal/capture/ringbuffer.go:56-100 | after any interleaving the ring holds what the atomic bounded FIFO holds after the same operations in order of effect |
| `Spsc.PublishedAreArguments` | internal/capture/ringbuffer.go:56-77 | over every run the packets published and then the one in flight are, in order and whole, the arguments of the Enqueue calls that did not meet a full ring |
| `Spsc.TakenAreArguments` | internal/capture/ringbuffer.go:56-100 | what Dequeue has taken is the front of those arguments |
| `Spsc.OpsCarryArguments` | internal/capture/ringbuffer.go:56-77 | the enqueues that take effect carry exactly those arguments |
| `Spsc.DroppedAreRefusals` | internal/capture/ringbuffer.go:60-63 | dropped counts, modulo 2^64, the refused calls, but for one refused and not yet counted |
| `Spsc.ProcessedAreTaken` | internal/capture/ringbuffer.go:97-98 | processed counts, modulo 2^64, the packets taken, but for one taken and not yet counted |
| `Pipeline.CaptureConserves` | internal/capture/high_perf_capture.go:231-245 | one step of the capture loop keeps the frame balance |
| `Pipeline.DispatchConserves` | internal/capture/high_perf_capture.go:300-318 | one step of the dispatch loop keeps the frame balance |
| `Pipeline.FramesConserved` | internal/capture/high_perf_capture.go:231-245 | over every interleaving, modulo 2^64: received = filtered + dropped + sent + in the ring + in the hands of the two loops |
| `Pipeline.AliveInOrder` | internal/capture/high_perf_capture.go:300-318 | sent, batched, ringed and pending frames together are a subsequence of those the pre-filter passed |
| `Pipeline.SentInOrder` | internal/capture/high_perf_capture.go:300-318 | over every interleaving the frames on the channel are a subsequence, in order and byte for byte, of those the pre-filter passed |
| `Pipeline.RunIsItsHistory` | internal/capture/high_perf_capture.go:231-245 | over every interleaving, read off the actions: the frames that passed are exactly those taken whose next step the pre-filter admits, the bounded ring is a queue of those that then found room, the channel holds exactly those it had room for when offered, and received, filtered, queued and sent count their events modulo 2^64 |
| `Pipeline.DroppedAreLost` | internal/capture/high_perf_capture.go:240-242 | dropped counts, modulo 2^64, the frames refused by the full ring and by the full channel, but for those not yet counted |
| `Pipeline.CollectsAll` | internal/capture/ringbuffer.go:102-111 | a batch ends exactly when it is full or the ring is empty |
| `MacFilter.SetBitSets` | internal/capture/bloomfilter.go:163-163 | the shift-mask-or line sets bit pos and no other |
| `MacFilter.TestBitTests` | internal/capture/bloomfilter.go:178-178 | the shift-mask-and expression reads bit pos |
| `MacFilter.MACBloomFilter.constructor` | internal/capture/bloomfilter.go:18-36 | an empty bit vector with m = 64 * words |
| `MacFilter.MACBloomFilter.Add` | internal/capture/bloomfilter.go:153-166 | sets exactly the k probes of the MAC, for any hash, with the sums wrapping at 2^64 |
| `MacFilter.MACBloomFilter.Test` | internal/capture/bloomfilter.go:168-183 | true exactly when every probe is set |
| `MacFilter.MACBloomFilter.TestFast` | internal/capture/bloomfilter.go:185-200 | the same on a snapshot |
| `MacFilter.MACBloomFilter.BitsSnapshot` | internal/capture/bloomfilter.go:202-209 | a copy of the bits |
| `MacFilter.MACBloomFilter.Clear` | internal/capture/bloomfilter.go:211-219 | no bit set |
| `MacFilter.KeyInjective` | internal/capture/bloomfilter.go:263-268 | six-byte MACs have different keys |
| `MacFilter.RepresentsAdd` | internal/capture/bloomfilter.go:153-166 | the bit vector stays exactly the union of the added MACs' probes |
| `MacFilter.AddedIsCovered` | internal/capture/bloomfilter.go:168-183 | no false negative |
| `MacFilter.MACExactFilter.constructor` | internal/capture/bloomfilter.go:253-261 | no MAC added |
| `MacFilter.MACExactFilter.Add` | internal/capture/bloomfilter.go:270-276 | keeps map and Bloom bits representing the added set |
| `MacFilter.MACExactFilter.Contains` | internal/capture/bloomfilter.go:278-288 | among six-byte MACs true exactly for those added since the last Clear, for any hash, k and m; for any bytes it never misses an added one |
| `MacFilter.MACExactFilter.Clear` | internal/capture/bloomfilter.go:296-303 | nothing added |
| `Capture.HighPerfGOOSECapture.constructor` | internal/capture/high_perf_capture.go:92-107 | no snapshot yet, counters at zero |
| `Capture.HighPerfGOOSECapture.RefreshBloomSnapshot` | internal/capture/high_perf_capture.go:128-131 | the snapshot covers every added bit |
| `Capture.HighPerfGOOSECapture.AddTargetMAC` | internal/capture/high_perf_capture.go:120-126 | a six-byte MAC becomes a target and the snapshot follows; any other length is ignored |
| `Capture.HighPerfGOOSECapture.TargetsPass` | internal/capture/high_perf_capture.go:254-276 | every GOOSE multicast frame to a target is admitted; with the Bloom filter on, a snapshot taken and no target, no frame is |
| `Capture.HighPerfGOOSECapture.FastPreFilter` | internal/capture/high_perf_capture.go:254-276 | decides admission and counts Bloom rejects, and only those |
| `Capture.HighPerfGOOSECapture.CaptureFrame` | internal/capture/high_perf_capture.go:231-250 | one frame is filtered, dropped or queued, and exactly the counters of that outcome move |
| `Capture.HighPerfGOOSECapture.DispatchBatch` | internal/capture/high_perf_capture.go:300-318 | empties one batch of the ring; each frame is sent, byte for byte, or counted as dropped |
| `Capture.HighPerfGOOSECapture.OfferFrames` | internal/capture/high_perf_capture.go:306-317 | the sending loop: every frame is sent or counted as dropped |
| `Capture.OfferedAt` | internal/capture/high_perf_capture.go:306-317 | exactly the frames that find room are sent, each at its place among them |
| `Capture.GooseHeaderIs` | internal/capture/high_perf_capture.go:255-265 | at least 14 bytes, destination prefix 01-0C-CD, EtherType 0x88B8 in network order |
| `Ber.ScanTagOctets` | internal/decoder/ber.go:59-72 | the high-tag-number loop accumulates base-128 digits in 32 bits |
| `Ber.ReadLengthOctets` | internal/decoder/ber.go:77-100 | short and long form by the shift loop; indefinite form and more than four octets are invalid |
| `Ber.ParseBER` | internal/decoder/ber.go:44-109 | the header parser with all its error cases |
| `Ber.GetElementLength` | internal/decoder/ber.go:232-278 | the second, independent scanner |
| `Ber.ScannersAgree` | internal/decoder/ber.go:232-278 | on any bytes ParseBER succeeds exactly when GetElementLength does and the element fits; then headers agree, 2 <= total <= len(data) and the content is where both say |
| `Ber.BERIterator.constructor` | internal/decoder/ber.go:304-309 | starts at the front |
| `Ber.BERIterator.HasMore` | internal/decoder/ber.go:330-332 | true before the end |
| `Ber.BERIterator.Next` | internal/decoder/ber.go:311-328 | yields the element at the index and strictly advances past it, or stays where it is on an error or at the end |
| `Ber.ElementsUnfold` | internal/decoder/ber.go:311-328 | one step of the iterator is one step of the list of all elements |
| `BerRoundTrip.ParseEncoded` | internal/decoder/ber.go:44-109 | decoding any X.690 definite-length encoding (any class, primitive or constructed, tag number below 2^32, short or long length form), followed by any bytes, gives the element back and its exact length |
| `BerRoundTrip.IterateEncoded` | internal/decoder/ber.go:311-328 | iterating over a concatenation of encodings returns exactly the encoded list |
| `BerRoundTrip.IteratesIffTiled` | internal/decoder/ber.go:311-328 | the iterator runs through to the end exactly on concatenations of well-formed elements, whose parts are then the elements yielded |
| `BerRoundTrip.TilesGiveElements` | internal/decoder/ber.go:311-328 | a concatenation of well-formed elements is iterated without error |
| `BerRoundTrip.ElementsGiveTiles` | internal/decoder/ber.go:311-328 | the consumed slices concatenate to the input |
| `BerRoundTrip.ParseAppend` | internal/decoder/ber.go:44-109 | bytes behind an element do not change how it parses |
| `BerRoundTrip.ParsePrefix` | internal/decoder/ber.go:44-109 | an element parses the same when cut off at its own length |
| `BerRoundTrip.ElementParses` | internal/decoder/ber.go:44-109 | on all bytes: identifier octets, definite length octets and content at the front are what the parser finds, field by field, and what the scanner measures |
| `BerRoundTrip.ParsedIsElement` | internal/decoder/ber.go:44-109 | on all bytes, conversely: whatever parses starts with identifier octets, then one length octet below 128 or an octet 128+n with n from 1 to 4 and n big-endian octets, then the content, and the fields are those |
| `BerRoundTrip.ParsesIff` | internal/decoder/ber.go:44-109 | a byte string parses exactly when such an element stands at its front |
| `BerRoundTrip.WellFormedIff` | internal/decoder/ber.go:311-328 | the parts the iterator tiles its input with are exactly such elements |
| `BerRoundTrip.BadLengthRejected` | internal/decoder/ber.go:84-93 | a first length octet 0x80 or above 0x84 is invalid for both scanners, whatever follows |
| `BerRoundTrip.OtherErrorsAreTruncation` | internal/decoder/ber.go:44-109 | and every other failure of the parser is truncation |
| `Integers.ShiftIn` | internal/decoder/ber.go:149-151 | one turn of the 64-bit shift loop loses nothing but sign fill |
| `Integers.SignedPattern` | internal/decoder/ber.go:145-152 | the final 64-bit pattern, read as int64, is the two's-complement value |
| `Integers.DecodeInteger` | internal/decoder/ber.go:133-153 | the shift loop computes the arithmetic two's-complement value within int64, with every error case |
| `Integers.IntOctetsInverse` | internal/decoder/ber.go:145-152 | two's-complement octets determine the value |
| `Integers.IntegerRoundTrip` | internal/decoder/ber.go:133-153 | decoding returns the encoded value for every int64 and every content length 1 to 8 that can hold it, minimal or not |
| `Integers.OctetsOfValue` | internal/decoder/ber.go:145-152 | conversely the value and the length determine the octets |
| `DataDecoder.ParseAllDataLoop` | pkg/goose/parser.go:140-161 | the loop over the iterator terminates and computes the recursive decoding, data length as the measure through nested structures |
| `DataDecoder.KeepsElements` | pkg/goose/parser.go:140-161 | it succeeds exactly when the bytes iterate to the end, keeps the order and leaves out exactly the elements that do not decode |
| `DataDecoder.SucceedsIffTiled` | pkg/goose/parser.go:140-161 | the decoder accepts exactly the concatenations of well-formed elements |
| `DataDecoder.TotalBound` | pkg/goose/parser.go:140-226 | the attributes at all depths together are at most half the bytes |
| `DataDecoder.TotalOfBound` | pkg/goose/parser.go:163-302 | the same for one element and its content |
| `DataDecoder.NoFloats` | pkg/goose/parser.go:163-226 | no input yields a float attribute at any depth: the tag number is switched on before the class |
| `DataDecoder.DataRoundTrip` | pkg/goose/parser.go:140-161 | decoding an encoded list gives its meaning back: booleans of any octet, int64, bit, octet and visible strings and structures in any class, context-specific [0], [5], [7] and [8] complete or short, structures to any depth, and elements that stand for no attribute |
| `DataDecoder.DatumRoundTrip` | pkg/goose/parser.go:163-302 | the same for one element |
| `DataDecoder.DecodersDemand` | internal/decoder/ber.go:119-200 | on any encoding: each primitive decoder demands its own tag number, then its own content length; a boolean is true for every octet but zero |
| `DataDecoder.ExtractBooleanValues` | pkg/goose/parser.go:308-333 | the loop enters the booleans of the common prefix of attributes and names |
| `DataDecoder.ExtractedIffDecided` | pkg/goose/parser.go:308-333 | a name is entered exactly when some position under it holds a boolean (its own or a structure's first member), and the last such position gives the value |
| `DataDecoder.BooleanShown` | pkg/goose/parser.go:317-329 | an attribute stands for a boolean exactly when it is one or is a structure whose first member is one |
| `DataDecoder.ExtractedShows` | pkg/goose/parser.go:308-333 | a name gets a value exactly when the last attribute under it that shows a boolean shows that value, stated on the attributes' fields |
| `Window.ChannelBuffer.constructor` | pkg/sv/buffer.go:16-25 | five cycles of zeros, nothing pushed |
| `Window.ChannelBuffer.Push` | pkg/sv/buffer.go:27-33 | the slots go on holding the last BufferSize values of the whole history, across every wrap |
| `Window.ChannelBuffer.GetLastN` | pkg/sv/buffer.go:35-48 | the last min(n, BufferSize) elements of BufferSize zeros followed by the history |
| `Window.ChannelBuffer.AvailableSamples` | pkg/sv/buffer.go:50-55 | min(pushes, BufferSize) |
| `Window.ChannelBuffer.Reset` | pkg/sv/buffer.go:61-68 | an empty history again |
| `Window.ThreePhaseBuffer.constructor` | pkg/sv/buffer.go:263-268 | nothing pushed |
| `Window.ThreePhaseBuffer.Push` | pkg/sv/buffer.go:270-279 | the slots go on holding the last Size samples |
| `Window.ThreePhaseBuffer.GetLastN` | pkg/sv/buffer.go:281-297 | the last min(n, Count) samples of the history, never a slot that was not filled |
| `Window.Overwrite` | pkg/sv/buffer.go:27-33 | overwriting the slot of the next serial number moves the window by one |
| `Window.ReadSlots` | pkg/sv/buffer.go:41-45 | reading round the end from the computed start gives the last n in order |
| `Phasors.BuildTables` | pkg/sv/buffer.go:139-148 | one cycle of cosine and sine |
| `Phasors.DFTProcessor.constructor` | pkg/sv/buffer.go:129-137 | tables of one cycle |
| `Phasors.DFTProcessor.ComputePhasor` | pkg/sv/buffer.go:150-167 | the correlation with both tables over the first cycle of samples, zero when there are fewer |
| `Phasors.DFTProcessor.ComputePhasorFromBuffer` | pkg/sv/buffer.go:183-190 | the phasor of the last cycle pushed, zero before there is one |
| `Phasors.DftLinear` | pkg/sv/buffer.go:150-167 | the difference of two phasors is the phasor of the sample-wise difference, for any tables |
| `Phasors.DftMean` | pkg/sv/buffer.go:150-167 | the mean of two phasors is the phasor of the sample-wise mean |
| `Phasors.DftMultiple` | pkg/sv/buffer.go:150-167 | a multiple of the samples gives the multiple of the phasor |
| `Phasors.DftRecovers` | pkg/sv/buffer.go:139-167 | with tables orthogonal over the cycle the samples a cos(2 pi k/n) - b sin(2 pi k/n) give the phasor (a, b) |
| `Phasors.ZeroSequenceIs` | pkg/sv/buffer.go:118-120 | three times it is the sum of the phase currents; equal currents are their own, cancelling ones have none |
| `Phasors.ZeroSequenceProcessor.constructor` | pkg/sv/buffer.go:203-212 | four empty buffers, the zero phasor |
| `Phasors.ZeroSequenceProcessor.PushSamples` | pkg/sv/buffer.go:214-229 | appends (Ia+Ib+Ic)/3 to the history and keeps LastPhasor the phasor of its last cycle |
| `Phasors.ZeroSequenceProcessor.Ready` | pkg/sv/buffer.go:241-243 | true exactly when at least one cycle was pushed |
| `Phasors.ZeroSequenceProcessor.GetI0Phasor` | pkg/sv/buffer.go:231-235 | the phasor of the last cycle of zero-sequence current, zero before there is one |
| `Phasors.Triangle` | pkg/sv/types.go:129-135 | triangle inequality and its reverse for Add and Sub |
| `Phasors.ScaledMagnitude` | pkg/sv/types.go:137-139 | scaling multiplies the magnitude by the absolute factor |
| `Phasors.AddUndoesSub` | pkg/sv/types.go:129-135 | adding back what was subtracted restores the phasor |
| `Phasors.ScaleAdds` | pkg/sv/types.go:137-139 | scaling adds up over factors and the factor 1 changes nothing |
| `Phasors.PolarForm` | pkg/sv/types.go:118-127 | magnitude and angle give the coordinates back |
| `Restraint.ContinuousIff` | pkg/sv/differential.go:27-37 | the threshold is Lipschitz-continuous, with the steeper slope as constant, exactly when the breakpoints are in order or the slopes are equal |
| `Restraint.ThresholdRises` | pkg/sv/differential.go:27-37 | MinTrip up to the first breakpoint, then Slope1, then Slope2 per unit, and the size of the jump when the breakpoints are out of order |
| `Restraint.LeastConstant` | pkg/sv/differential.go:27-37 | with the breakpoints in order and apart the steeper slope is the least Lipschitz constant |
| `Restraint.MonotoneIff` | pkg/sv/differential.go:27-37 | exactly when more restraint never lowers the threshold, for all five parameters |
| `Restraint.ConvexIff` | pkg/sv/differential.go:27-37 | exactly when the threshold is convex: with ordered breakpoints, 0 <= Slope1 <= Slope2 |
| `Restraint.NotClose` | pkg/sv/differential.go:27-37 | with breakpoints out of order and different slopes the threshold jumps, whatever the constant |
| `Restraint.DefaultShape` | pkg/sv/differential.go:17-25 | the default characteristic is continuous, monotone and convex |
| `Restraint.DefaultsAgreeIff` | pkg/sv/differential.go:197-206 | the default settings and the default characteristic decide alike exactly up to a restraint of 1.5 |
| `Differential.DifferentialWithinTwiceRestraint` | pkg/sv/differential.go:117-131 | for CTRatio >= 0 the differential quantity is at most twice the restraint quantity for all phasor pairs; for CTRatio <= 0 the comparison is reversed |
| `Differential.CalculationsAgreeIff` | pkg/sv/differential.go:184-187 | the stand-alone differential current and the relay's agree exactly when CTRatio >= 0 or the phasors are equal |
| `Differential.RestraintOfMagnitudes` | pkg/sv/differential.go:122-131 | the restraint quantity depends on the two magnitudes alone and is symmetric in the sides |
| `Differential.OpposedIff` | pkg/sv/differential.go:120-120 | the difference is as long as both phasors together exactly when they are opposed |
| `Differential.TwiceRestraintIffOpposed` | pkg/sv/differential.go:120-131 | for CTRatio > 0 the differential quantity is twice the restraint quantity exactly when the phasors are opposed |
| `Differential.InPhase` | pkg/sv/differential.go:120-131 | for phasors in phase the restraint quantity is the scaled length of the restraint phasor and the differential quantity the scaled difference of the lengths |
| `Differential.RestraintCurrentAgrees` | pkg/sv/differential.go:189-195 | the stand-alone restraint current agrees with the relay's |
| `Differential.OneSideZero` | pkg/sv/differential.go:27-46 | with one side at zero, ordered breakpoints, MinTrip < 2*Breakpoint1 and slopes <= 2, the relay trips iff the scaled magnitude exceeds MinTrip |
| `Differential.DifferentialProtection.constructor` | pkg/sv/differential.go:79-87 | default settings and characteristic, not tripped, count zero |
| `Differential.DifferentialProtection.SidePhasors` | pkg/sv/differential.go:110-118 | both last-cycle phasors, and whether both sides are ready |
| `Differential.DifferentialProtection.Evaluate` | pkg/sv/differential.go:109-163 | one evaluation on the objects equals the evaluation on values; not ready changes nothing |
| `Differential.DifferentialProtection.PushSideM` | pkg/sv/differential.go:93-96 | one sample for side M, then one evaluation |
| `Differential.DifferentialProtection.PushSideN` | pkg/sv/differential.go:98-101 | one sample for side N, then one evaluation |
| `Differential.DifferentialProtection.PushBothSides` | pkg/sv/differential.go:103-107 | one sample for each side, then one evaluation |
| `Differential.RunDecides` | pkg/sv/differential.go:93-163 | after every run of single-sided and joint calls the histories are all zero-sequence currents pushed and the trip is a function of their last cycles alone |
| `Differential.RunFilters` | pkg/sv/differential.go:117-134 | after every run the differential and the restraint phasor are the filter of the sample-wise difference and mean of the last cycles |
| `Differential.JointAppends` | pkg/sv/differential.go:103-107 | a joint call appends a third of each side's phase sum to that side |
| `Differential.SideAppends` | pkg/sv/differential.go:93-101 | a single-sided call appends to its own side only |
| `Differential.RunQuantities` | pkg/sv/differential.go:130-136 | after every run the two quantities shown are those of the last cycles' phasors |
| `Differential.ProportionalFeed` | pkg/sv/differential.go:117-136 | after any run whose last cycle on side N is k times that on side M, the quantities shown are |1-k| and (1+|k|)/2 times the scaled length of M's phasor; for k <= 0 the first is exactly twice the second |
| `Differential.SlopeInRange` | pkg/sv/differential.go:130-142 | with CTRatio >= 0, after every run the slope shown is the quotient of the two quantities, or 0 without restraint, and lies between 0 and 2 |
| `Differential.TripCountIsEdges` | pkg/sv/differential.go:138-148 | in every run TripCount is, modulo 2^64, the number of false-to-true edges of Trip |
| `Differential.RestoredAfterOneCycle` | pkg/sv/differential.go:103-163 | whatever came before, after one cycle of joint calls with equal zero-sequence currents the relay is not tripped (MinTrip >= 0, monotone threshold) |
| `Differential.ThroughFaultSecure` | pkg/sv/differential.go:103-163 | on every run of such calls the relay never trips and counts nothing |
| `Differential.OrderedIsMonotone` | pkg/sv/differential.go:27-37 | ordered breakpoints and slopes that are not negative make the threshold monotone |
| `Differential.TripsOnSingleFeed` | pkg/sv/differential.go:103-163 | when for one cycle only side M carries zero-sequence current, the relay trips iff that cycle's scaled magnitude exceeds MinTrip |

## Left out

- Process wiring, the network client, libpcap and cgo calls, the kernel filter strings, the sampled-value frame parser, the sampled-value engine and the waveform generators.
- The values of the hash, the floating-point sizing of the Bloom filter and its false-positive estimate.
- Rounding, NaN and infinities of `float64`; sample rates below 50, for which the first push fails.
- The GOOSE header loop and its scalar fields; `DecodeTimeStamp`, `DecodeSequence`, `DecodeContextSpecific` and `SkipElement`, which returns the length without the content and has no caller.
- Mutexes, the event channel and its goroutine, trip handlers, the evaluation-time statistics and the node lists by type that only the getters read.
- Aliasing of byte slices: slices are values, and a copy into a slot is a new value of that slot.
- The queue and the order of the sort hold node ids where the source holds node pointers; ids are the keys of the node map.
- LogicGraphs.LogicGraph.AddNode: asks for a node without edges, because the source offers no way to connect a node before it is added.
- LogicGraphs.LogicGraph.GetOrAddInputNode: the new node's time stamp is 0 where the source leaves the zero time.
- Engine.ProtectionEngine.CheckTimers: is one step, without the moment between reading the table and clearing entries.
- Engine.ProtectionEngine.SetInputsBatch: names the inputs already set on failure only as a subset, because map iteration picks which.
- Spsc.InterleavingSafe: covers one producer and one consumer, as the capture and dispatch loops use the ring; several producers, Reset and Size during use are outside the protocol.
- Rings.SPSCLockFreeQueue.Enqueue: is modelled as one sequential operation, because its plain, unsynchronised fields have no interleaving semantics of their own.
- Pipeline.FramesConserved: takes ring operations as single steps, which Spsc.RunRefinesFifo justifies, and excludes concurrent changes of the target list.
- DataDecoder.DataRoundTrip: the encoder writes lengths in four octets and integers in eight; other length forms and contents are covered by BerRoundTrip.ParseEncoded and Integers.IntegerRoundTrip.
- Phasors.DftRecovers: takes the orthogonality of the cosine and sine tables over a cycle as given, since the two functions are arbitrary.
- Phasors.PolarForm: takes as given that radius and angle of the library functions belong together.
- Differential.OneSideZero: asks for the conditions in its row and says nothing about characteristics outside them.
- Differential.ThroughFaultSecure: speaks of joint calls; single-sided calls shift the two windows against each other, and Differential.RunDecides says what the relay then does.
- Differential.DifferentialProtection.Evaluate: leaves out the event handler and the two time stamps.
