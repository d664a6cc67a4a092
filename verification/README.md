# Verified models of the Raptor tooling and board logic

Dafny models of the parts of the Raptor repository whose behaviour is hardest to see by reading
them, with proofs of what they promise. `dafny verify dfyconfig.toml` checks everything.

Code that changes state is modelled twice: as a function from state to state, about which the
theorems are proved, and as a class or method with the source's loops and updates, whose
postcondition ties it to that function.

## The components

**Occupancy pipeline** (`Pipeline*.dfy`, from `docs/scripts/pipeline_model.py`). `Pipeline` has the
state, the eleven phases and `Run`, the state after n steps. `PipelineInvariant`,
`PipelineBackEnd` and `PipelineRuns` prove phase by phase what every reachable state keeps;
`PipelineProgress` and `PipelineStall` prove when a run drains, how soon, and when it never does;
`PipelineTheorems` has the theorems about runs; `PipelineRates` and `PipelineFills` say how far every
queue must move in each step. `PipelineLoops` and `PipelineMachine` are the loops
and the object, `PipelineSimulate` the simulation. An instruction's `committed`, `issued` and `iq`
fields are kept as sets and a map of listing indices.

**Gigabit RGMII receiver** (`Rgmii*.dfy`, from `fpga/litex/cm005_oversample.py`). `RgmiiSampling`
proves that the eight-samples-per-clock edge logic with any lane advances is a decoder that looks at
one sample at a time. `RgmiiFrames` is the frame protocol; `RgmiiTheorems` proves that clean frames
are whole, against a record of the wire that a decoder makes on its own, told nothing of the
receiver's state. `RgmiiEndToEnd` joins the two, `RgmiiTransmit` puts a transmitter in front of them,
from whose bits on the lanes the frames come out as they were sent, and `RgmiiReceiver` is the
registers. A clock is steady there when edges of one kind are at least eight samples apart and 156
words never pass without an edge.

**Shared-counter check** (`Smp*.dfy`, from `linux/distro-boot/smp_check.c`). Any number of threads
and iterations, one atomic step at a time, in any order. `winners` and `readAt` record the past and
decide nothing. The floating-point value is a real number: the source only adds halves, which are
exact.

**Cache simulators** (`Lru*.dfy`, `ICache.dfy`, from `nemu/sim`). The specification of the LRU cache
is the recency list of each set's history. The direct-mapped simulator agrees with the one-way LRU
simulator exactly when the line size and the number of lines are powers of two: the LRU simulator
takes bit lengths, so otherwise it splits a line in two or lets two lines share a set.

**Ethernet frame queue** (`FrameQueue*.dfy`, from `fpga/litex/cm005_bridge_queue.py`). The LiteEth
packet writer and reader and the descriptor FIFO are not part of the repository; `FrameQueue` states
what the queue relies on. The writer starts a frame only when a descriptor is free, writes words in
order, and finishes only a frame within the size limit whose words it has written. The reader is done
exactly when its frame's last beat is accepted. The FIFO accepts while it holds fewer descriptors
than slots, and shows its head. `FrameQueueArrivals` adds the beats on the queue's input: the writer
finishes only the frame that has arrived last, once, with the words of its beats, and not when its last
beat showed an error. `FrameQueueProgress` is about an eager reader, one that starts when it may and
takes every beat: it says to the clock when each frame has left.

**Directives and macros** (`Preprocessor.dfy`, `Macro*.dfy`, from
`docs/scripts/extract_portal_data.py`). The stack loop against nested blocks; the evaluator that
removes a macro from the environment while its definition is evaluated, against plain unfolding of
definitions. A macro that mentions itself does not always come to nothing: `X` defined as one
conditional whose branch not taken is `X` has a value. `NoValueExactlyWhenStuck` says exactly when a
macro has none, and `Strict` is a test on definitions that is enough. `MacroText` has the
parenthesis-counting loops, on any text; `MacroParse` the grammar of Python's arithmetic, which stands
for Python's parser; `MacroTokens` the whole evaluator on tokens, which on the text of an expression
gives the expression's value; `MacroLaws` says in plain arithmetic what every operator and every order
of two operators comes to; `MacroLoops` is the loops.

**Tower of Hanoi** (`Hanoi*.dfy`, from `app/demos/hanoi.c`), **newc archives** (`Newc*.dfy`, from
`linux/build_linux.py` and `linux/raptor_linux.py`), **MDIO serialiser** (`Mdio.dfy`, from
`fpga/litex/cm005.py`), **Mandelbrot demo** (`Mandelbrot.dfy`, from `app/demos/mandelbrot.c`),
**out-of-context export** (`Closure.dfy`, from `fpga/ooc/export.py`) and **partition copy**
(`SparseCopy.dfy`, from `linux/distro_boot.py`) are each a specification with its methods beside it.
`Arith.dfy`, `Collections.dfy` and `Options.dfy` are shared helpers.

## Model

| member | source | states |
|---|---|---|
| PipelineTheorems.InOrderExactlyOnce | docs/scripts/pipeline_model.py:180-331 | after any number of steps the retired list, ROB and front-end queues read in order are 0 to fetch_i - 1, each once, and every ROB entry is in exactly one of undispatched, an issue queue, executing, completing, done |
| PipelineTheorems.DispatchInProgramOrder | docs/scripts/pipeline_model.py:246-269 | within an issue-queue kind nothing is dispatched before an older instruction, in any reachable state |
| PipelineTheorems.SourcesAlwaysReady | docs/scripts/pipeline_model.py:133-134 | in every reachable state every instruction's sources are ready |
| PipelineTheorems.ExactTiming | docs/scripts/pipeline_model.py:205-244 | an instruction issued in cycle t with delay d counts down exactly, is completing after cycle t + d and done after cycle t + d + 1 |
| PipelineTheorems.RetiresOneBurst | docs/scripts/pipeline_model.py:180-203 | every step retires a maximal prefix of finished ROB entries within the width, a store alone and a control transfer last |
| PipelineTheorems.QueuesWithinCapacity | docs/scripts/pipeline_model.py:246-311 | no queue ever exceeds its capacity |
| PipelineTheorems.FreedSlotsStayTaken | docs/scripts/pipeline_model.py:227-269 | with reclaiming on, slots freed in a step count as taken in it: what a queue holds afterwards and what it let go together never exceed its capacity |
| PipelineRates.EveryStepMovesMost | docs/scripts/pipeline_model.py:271-331 | in every step of every run each in-order boundary, from fetching to allocation, moves as many instructions as there are, the width allows and there is room for, taking L1I responses only when they have arrived, and every request gets its response time |
| PipelineFills.EveryStepFills | docs/scripts/pipeline_model.py:227-269 | in every step of every run each issue queue issues its oldest entries, as many as it has ports, with their full delays; at most the width is dispatched, and an entry is left undispatched only if its queue is full or older ones use up the width |
| PipelineTheorems.DoneOnTime | docs/scripts/pipeline_model.py:51-244 | with any presets an instruction that issues in cycle m with its delay d by domain executes from then on, is completing after m + d + 1 steps and done after m + d + 2 |
| PipelineTheorems.QueuesByKind | docs/scripts/pipeline_model.py:66-78 | in every reachable state each issue queue holds only its own kinds of instruction, within its entry of the configuration |
| PipelineTheorems.DefaultPresets | docs/scripts/pipeline_model.py:21-43 | presets that are missing or zero give the default configuration |
| PipelineBackEnd.RetireCountIsBurst | docs/scripts/pipeline_model.py:180-203 | the commit loop retires a burst: done, within the width, stores alone, control last, nothing more possible |
| PipelineBackEnd.BurstUnique | docs/scripts/pipeline_model.py:180-203 | the conditions of a burst leave only one number of instructions |
| PipelineBackEnd.PickParts | docs/scripts/pipeline_model.py:227-244 | issuing splits a queue into two in-order parts with nothing lost and no more than the ports issued |
| PipelineBackEnd.PickOldest | docs/scripts/pipeline_model.py:227-244 | when all sources are ready the oldest entries issue, as many as there are ports |
| PipelineBackEnd.DispatchOverKeeps | docs/scripts/pipeline_model.py:246-269 | dispatch keeps tables, queues and per-kind order and moves only entries whose queue has room |
| PipelineRuns.IssueOverKeeps | docs/scripts/pipeline_model.py:227-244 | issuing keeps the invariant whatever the order in which the queues are visited |
| PipelineFills.IssueOverOldest | docs/scripts/pipeline_model.py:227-244 | issuing over the queues in any order takes the oldest entries of each, as many as it has ports, and leaves what executes alone |
| PipelineRuns.IssueAnyOrder | docs/scripts/pipeline_model.py:227-244 | issuing over any two orders of the same queues gives the same state |
| PipelineRuns.OneStagePerStep | docs/scripts/pipeline_model.py:313-331 | no instruction moves more than one of twelve stages in a step, and none moves back |
| PipelineRuns.StepKeepsStructure | docs/scripts/pipeline_model.py:313-331 | a whole step keeps the structural invariant and advances the execution tables as timed |
| PipelineRates.StepMovesMost | docs/scripts/pipeline_model.py:271-331 | one step from any safe state moves every in-order boundary as far as contents, width and room allow |
| PipelineRates.OneMost | docs/scripts/pipeline_model.py:280-289 | the conditions of such a move leave only one number |
| PipelineFills.StepFills | docs/scripts/pipeline_model.py:227-269 | one step from any safe state issues the oldest entries up to the ports and dispatches as much as the queues and the width take |
| PipelineRuns.RunSafe | docs/scripts/pipeline_model.py:313-331 | every reachable state satisfies the structural and the timing invariant |
| PipelineInvariant.FrontEndKeeps | docs/scripts/pipeline_model.py:280-311 | the six front-end moves keep the queues consecutive and move each instruction at most one stage |
| PipelineRates.FrontEndRates | docs/scripts/pipeline_model.py:280-311 | the six front-end moves each go as far as contents, width and room allow, and requests get their response times |
| PipelineInvariant.FrontEndHead | docs/scripts/pipeline_model.py:280-311 | the oldest instruction short of the ROB always advances, unless it still waits for its L1I response |
| PipelineProgress.HeadProgress | docs/scripts/pipeline_model.py:313-331 | every step retires the oldest instruction or brings it closer to retiring |
| PipelineProgress.MeasureDrops | docs/scripts/pipeline_model.py:313-346 | every step from an undrained reachable state lowers a measure bounded by the program length times a constant |
| PipelineProgress.DrainedWhenAllRetired | docs/scripts/pipeline_model.py:333-346 | the drained test holds exactly when every instruction has retired |
| PipelineProgress.DrainsInTime | docs/scripts/pipeline_model.py:349-389 | a live configuration is drained after any number of steps from the linear bound on |
| PipelineStall.NeverDrains | docs/scripts/pipeline_model.py:180-346 | a configuration with a width, capacity or port count below one that the program needs never drains |
| PipelineStall.DrainsExactlyWhenLive | docs/scripts/pipeline_model.py:333-389 | a program drains if and only if it is empty or the configuration is live for it, and then within the bound |
| PipelineStall.PresetsAreLive | docs/scripts/pipeline_model.py:21-43 | presets that are not negative always give a live configuration, with the bound per instruction |
| PipelineLoops.Retire | docs/scripts/pipeline_model.py:180-203 | the commit loop computes the specified retirement |
| PipelineLoops.Finish | docs/scripts/pipeline_model.py:205-214 | the completion loop moves exactly the arrived entries to done and stamps their destinations |
| PipelineLoops.Advance | docs/scripts/pipeline_model.py:216-225 | the execution loops count down and move exactly the finished entries to completing |
| PipelineLoops.Start | docs/scripts/pipeline_model.py:227-244 | one queue's issue loop issues the specified entries with their delays and reclaim counts |
| PipelineLoops.Enqueue | docs/scripts/pipeline_model.py:246-269 | the dispatch loop fills the issue queues as specified |
| PipelineLoops.Admit | docs/scripts/pipeline_model.py:271-278 | the allocation loop moves the specified prefix into the ROB |
| PipelineLoops.Move | docs/scripts/pipeline_model.py:280-286 | a queue-to-queue move takes the longest prefix within width and room |
| PipelineLoops.Respond | docs/scripts/pipeline_model.py:300-306 | the response loop takes the leading L1I entries that have arrived and fit |
| PipelineLoops.Request | docs/scripts/pipeline_model.py:307-311 | the request loop fetches consecutive indices with their arrival cycle |
| PipelineMachine.Model.Issue | docs/scripts/pipeline_model.py:227-244 | the loop over the five queues does the whole issue phase |
| PipelineMachine.Model.Step | docs/scripts/pipeline_model.py:313-331 | the object's step is exactly the abstract step |
| PipelineSimulate.Simulate | docs/scripts/pipeline_model.py:349-389 | the simulation fails exactly when the model has not drained within the limit, stops at the first drained step, records every step, and never fails for a live configuration whose limit reaches the bound |
| RgmiiSampling.WordIsSerial | fpga/litex/cm005_oversample.py:163-199 | a word with at most one edge of each kind decodes as its samples do one at a time |
| RgmiiSampling.WordsAreSerial | fpga/litex/cm005_oversample.py:158-199 | a whole stream of well-formed words decodes as its samples do one at a time, across word boundaries |
| RgmiiSampling.AdvanceShiftsLanes | fpga/litex/cm005_oversample.py:147-156 | the words read with an advance are the lane one word late shifted by that many samples, for every advance 0 to 7 |
| RgmiiSampling.DecoderRefinesSerial | fpga/litex/cm005_oversample.py:147-199 | the decoder with any lane advances gives the events of the serial decoder on the shifted lanes |
| RgmiiSampling.ClearingLowestBit | fpga/litex/cm005_oversample.py:182-183 | the malformed test holds exactly when more than one edge bit is set |
| RgmiiTransmit.PeriodsDecode | fpga/litex/cm005_oversample.py:158-199 | clock periods that carry symbols, as bits on six lanes with the low nibble and valid before the rising edge, the high nibble and valid xor error before the falling edge, decode one sample at a time to those symbols, the last one still under way |
| RgmiiTransmit.LanesDecode | fpga/litex/cm005_oversample.py:147-199 | from the bits on the lanes the one-sample decoder gets back exactly the symbols sent: their bytes, valid bits and errors |
| RgmiiFrames.HeldUntilAccepted | fpga/litex/cm005_oversample.py:207-217 | an offered beat does not change until it is accepted |
| RgmiiTheorems.RunsAreMaximal | fpga/litex/cm005_oversample.py:192-199 | the runs of the record are exactly the uninterrupted stretches of valid bytes between two idle bytes |
| RgmiiTheorems.ClockKeeps | fpga/litex/cm005_oversample.py:200-256 | one clock keeps the relation between frame registers, wire, run under way and open output frame |
| RgmiiTheorems.ClockInSync | fpga/litex/cm005_oversample.py:200-256 | a clock that sets no fault keeps the receiver following the wire exactly |
| RgmiiTheorems.CleanFramesAreRuns | fpga/litex/cm005_oversample.py:200-256 | under any back-pressure, glitches and timeouts the clean frames delivered are, in order, maximal runs of the wire |
| RgmiiTheorems.OpenFrameIsOwed | fpga/litex/cm005_oversample.py:200-256 | an open output frame always has pending or closing set |
| RgmiiTheorems.NothingLostWithoutFault | fpga/litex/cm005_oversample.py:200-256 | while fault is clear the frames delivered are exactly the runs, with their error marks |
| RgmiiTheorems.NoFaultWhenReady | fpga/litex/cm005_oversample.py:200-256 | with a far side always ready and no break on the wire fault stays clear |
| RgmiiTheorems.IdleCountsQuietWords | fpga/litex/cm005_oversample.py:177-186 | the idle counter is the number of words without an edge, up to 156 |
| RgmiiTheorems.BreaksExactlyOnGlitchOrTimeout | fpga/litex/cm005_oversample.py:180-186 | a word breaks the record exactly when it has two edges of one kind or 156 words without an edge came before it |
| RgmiiTransmit.SteadyNeverBreaks | fpga/litex/cm005_oversample.py:177-186 | a clock that is steady enough never breaks the record |
| RgmiiTransmit.SentIsSeen | fpga/litex/cm005_oversample.py:192-199 | sending frames of bytes with idle symbols between and around them makes exactly their nonempty ones the runs of the record |
| RgmiiEndToEnd.RecordOfEvents | fpga/litex/cm005_oversample.py:158-199 | a record without breaks lists the word decoder's events |
| RgmiiEndToEnd.FramesOfSerialDecoder | fpga/litex/cm005_oversample.py:119-256 | without breaks or back-pressure the frames are the runs seen by the one-sample decoder on the shifted lanes |
| RgmiiTransmit.FramesArrive | fpga/litex/cm005_oversample.py:119-256 | with a steady clock and a far side that is always ready the frames delivered from the sampled lanes are exactly the frames sent, byte for byte and with their error marks |
| RgmiiReceiver.ScanEdges | fpga/litex/cm005_oversample.py:164-175 | the scan over eight positions finds the edges, the last of each kind winning |
| RgmiiReceiver.Edge | fpga/litex/cm005_oversample.py:192-199 | latching and pairing give the word decoder's result |
| RgmiiReceiver.Registers.UpdateFrame | fpga/litex/cm005_oversample.py:208-256 | the frame registers change as the transition function says |
| RgmiiReceiver.Registers.Clock | fpga/litex/cm005_oversample.py:147-256 | one clock edge of all registers is the transition function |
| SmpTheorems.NoLostUpdates | linux/distro-boot/smp_check.c:26-35 | in every interleaving each counter equals the increments completed modulo the word, and exactly when the total cannot overflow |
| SmpTheorems.FailureMeansOvertaken | linux/distro-boot/smp_check.c:29-31 | a swap that fails but not spuriously was overtaken by another thread's success since its read |
| SmpTheorems.SwapsExactlyWhenNotOvertaken | linux/distro-boot/smp_check.c:29-31 | without overflow a swap that is not spurious succeeds if and only if no swap succeeded since its read |
| SmpTheorems.ExitsByFailuresAlone | linux/distro-boot/smp_check.c:36-58 | once all threads finish both counters and all values are complete, and the exit status is 0 exactly when no affinity call or processor check failed |
| SmpTheorems.FailuresAreBadTurns | linux/distro-boot/smp_check.c:22-37 | the failures counted are exactly the failed affinity calls and the off-processor sightings of every 128th iteration; the value comparison never adds one |
| SmpTheorems.PassesWithoutBadTurns | linux/distro-boot/smp_check.c:22-58 | the check passes if and only if its schedule has no such turn |
| SmpTheorems.EffectiveStepsDescend | linux/distro-boot/smp_check.c:16-39 | every step that is not a spurious failure lowers a measure, overtaken swaps included |
| SmpTheorems.NoDeadlock | linux/distro-boot/smp_check.c:24-39 | until all threads have finished some thread can step |
| SmpTheorems.NobodyStartsEarly | linux/distro-boot/smp_check.c:22-26 | in every schedule, while some thread has not set its affinity nobody has passed the barrier: both counters are 0, no swap has happened and every value is the number of its thread |
| SmpTheorems.TurnsTakeEffect | linux/distro-boot/smp_check.c:16-39 | outside the compare-and-swap a turn changes where its thread is exactly when it is not done and, at the barrier, every thread has set its affinity; other threads stay as they are |
| SmpTheorems.EverySchedulesWorkIsBounded | linux/distro-boot/smp_check.c:16-58 | the steps of any schedule that are not spurious failures are bounded, and where none is left all threads are done |
| SmpMachine.Machine.Take | linux/distro-boot/smp_check.c:16-39 | a thread's turn on the shared memory is the abstract step |
| SmpMachine.Machine.Join | linux/distro-boot/smp_check.c:52-58 | after the join the comparison gives 0 exactly when nothing failed, else 5 |
| SmpMachine.RunSchedule | linux/distro-boot/smp_check.c:41-58 | the mutable program under a schedule reaches the state of the abstract run |
| LruCache.DecodeIsBlock | nemu/sim/mem_sim.py:33-42 | set and tag together are the block number |
| LruCache.SameLineSameBlock | nemu/sim/mem_sim.py:33-42 | two addresses have the same set and tag if and only if they are in the same block |
| LruTheorems.RecencyByLastUse | nemu/sim/mem_sim.py:44-75 | earlier in the recency list means last used later |
| LruTheorems.ResidentByDistance | nemu/sim/mem_sim.py:44-75 | a tag is resident if and only if fewer distinct tags than ways were used since it was |
| LruTheorems.EntriesAreResident | nemu/sim/mem_sim.py:44-75 | a set updated use by use holds exactly the most recent distinct tags up to the ways |
| LruTheorems.Inclusion | nemu/sim/mem_sim.py:44-75 | after the same uses a set with more ways holds, first and in the same order of recency, every tag that one with fewer does, dirty where that is dirty |
| LruTheorems.MoreWaysMoreHits | nemu/sim/mem_sim.py:44-75 | with the same sets more ways never hit less often |
| LruTheorems.DirtyMeansWrittenSinceBroughtIn | nemu/sim/mem_sim.py:53-68 | a line is dirty if and only if it was written since it was last brought in |
| LruMachine.DCacheSimulator.AccessCache | nemu/sim/mem_sim.py:44-75 | an access hits exactly when recency says so and leaves every set as recency says |
| LruMachine.DCacheSimulator.UpdateSet | nemu/sim/mem_sim.py:51-75 | hit, fill and eviction by time stamps keep the set equal to its recency order |
| LruMachine.DCacheSimulator.TagsResident | nemu/sim/mem_sim.py:44-75 | the tags in a set are those the recency specification makes resident |
| LruMachine.SimulateTrace | nemu/sim/mem_sim.py:110-127 | a whole trace counts exactly the hits that recency predicts |
| LruMachine.LargerHoldsSmaller | nemu/sim/mem_sim.py:44-75 | of two simulators with the same block size, sets and trace the one with more ways holds every line of the other, dirty where that is dirty, and has hit at least as often |
| ICache.AgreesOnPow2 | nemu/sim/icache_sim.py:13-28 | for power-of-two line size and count the direct-mapped cache hits exactly when the one-way LRU cache does |
| ICache.AgreesExactlyOnPow2 | nemu/sim/icache_sim.py:13-28 | the two simulators agree on all traces if and only if both are powers of two |
| ICache.ICacheSimulator.AccessCache | nemu/sim/icache_sim.py:21-28 | an access hits exactly when the line holds the address's block, and stores it |
| ICache.SimulateICache | nemu/sim/icache_sim.py:31-46 | the counts and hit rate of all ranges, and that it divides by zero exactly when the line size is zero, the cache has no line, or there is no address |
| FrameQueueTheorems.FramesLeaveInOrder | fpga/litex/cm005_bridge_queue.py:60-83 | frames leave in arrival order with exactly their stored words |
| FrameQueueTheorems.NothingIsOverwritten | fpga/litex/cm005_bridge_queue.py:35-83 | occupied slots are the ring range ending before write_slot, a frame being written is in none of them, and every waiting frame is stored whole |
| FrameQueueTheorems.FreeDescriptorAtFinish | fpga/litex/cm005_bridge_queue.py:43-54 | a descriptor is always free when the writer finishes a frame |
| FrameQueueTheorems.CountersBalance | fpga/litex/cm005_bridge_queue.py:52-58 | received less forwarded is the descriptor level, modulo the counters |
| FrameQueueTheorems.CountersCountEvents | fpga/litex/cm005_bridge_queue.py:52-56 | received, dropped and errors count the finished frames, the drops and the drops with an error, modulo the counters |
| FrameQueueTheorems.ClockKeeps | fpga/litex/cm005_bridge_queue.py:35-83 | every clock in which writer and reader keep their promises keeps the queue's invariant |
| FrameQueueProgress.ClockSpends | fpga/litex/cm005_bridge_queue.py:66-83 | every clock with an eager reader brings the release of the waiting frames one clock closer |
| FrameQueueProgress.ReleaseTakes | fpga/litex/cm005_bridge_queue.py:66-83 | with an eager reader the first m frames are released exactly when as many clocks have passed as their words, starts and releases need |
| FrameQueueProgress.EveryFrameLeaves | fpga/litex/cm005_bridge_queue.py:66-83 | with an eager reader every accepted frame is sent and its descriptor released within as many clocks as all slots need for the longest frame |
| FrameQueueMachine.EthernetFrameQueue.Tick | fpga/litex/cm005_bridge_queue.py:48-83 | one clock edge of registers, memory, sticky error and reader states is the transition function |
| FrameQueueArrivals.ErrorSeenMeansErrorInFrame | fpga/litex/cm005_bridge_queue.py:36-51 | after any run the sticky bit says exactly whether the frame under way has had an error, and the last beat showed the writer an error if and only if some beat of its frame had one |
| FrameQueueArrivals.OnlyCleanFramesLeave | fpga/litex/cm005_bridge_queue.py:14-83 | every frame that leaves is, word for word, a whole arrived frame with no error in any beat, in order of arrival and none twice |
| FrameQueueArrivals.FramesAreTheBeats | fpga/litex/cm005_bridge_queue.py:48-51 | the arrived frames and the beats of the next one are all accepted beats, in order |
| Preprocessor.LoopRunsBlocks | docs/scripts/extract_portal_data.py:393-425 | in any context a block's lines change the macros as the block means, or not at all when inactive, and restore the stack |
| Preprocessor.StackLoopIsBlockMeaning | docs/scripts/extract_portal_data.py:393-425 | every properly nested series of lines is the text of some blocks and the loop computes their meaning with an empty stack again |
| Preprocessor.ParseDefines | docs/scripts/extract_portal_data.py:393-425 | the loop's macro map, for nested lines the meaning of their blocks |
| Preprocessor.DefinedNames | docs/scripts/extract_portal_data.py:393-425 | for any lines the defined names are the predefined ones and those given a value |
| Preprocessor.LastDefineCounts | docs/scripts/extract_portal_data.py:393-425 | after any lines a definition counts exactly where the lines are active, and replaces the value of its name alone |
| Preprocessor.OnePartCounts | docs/scripts/extract_portal_data.py:393-425 | of a conditional with nested parts exactly the lines of one part count, for `ifdef` and for `ifndef` |
| MacroEval.EvalIsUnfolding | docs/scripts/extract_portal_data.py:437-517 | an expression has a value if and only if unfolding definitions reaches it in finitely many steps, cyclic definitions included |
| MacroEval.DepthOfEnvironmentSuffices | docs/scripts/extract_portal_data.py:452-456 | evaluation equals unfolding as deep as the environment is large |
| MacroEval.UnfoldingIsResolved | docs/scripts/extract_portal_data.py:452-454 | a value found by unfolding never needs macros whose own values take deeper unfolding |
| MacroEval.CyclesHaveNoValue | docs/scripts/extract_portal_data.py:452-471 | in every environment, macros whose definitions all fail whenever none of them has a value have none |
| MacroEval.NoValueExactlyWhenStuck | docs/scripts/extract_portal_data.py:452-517 | a macro has no value if and only if it is in a set of names whose definitions all fail with the set unvalued and every other name at its own value |
| MacroEval.StrictCyclesHaveNoValue | docs/scripts/extract_portal_data.py:452-471 | in every environment, macros whose definitions each need one of them, in an operand, a test or both branches, have no value: cycles of any length |
| MacroEval.StrictNeeds | docs/scripts/extract_portal_data.py:467-471 | an expression that passes this test on its syntax has no value when those names have none, whatever the others have |
| MacroEval.DirectCycle | docs/scripts/extract_portal_data.py:452-456 | in every environment a macro that its own definition needs has no value |
| MacroEval.ResolveIsFixedPoint | docs/scripts/extract_portal_data.py:452-454 | the value of a macro is the value of its definition with every name, itself included, at its own value |
| MacroEval.FloorRoundsDown | docs/scripts/extract_portal_data.py:499-501 | division rounds down for every sign of the operands |
| MacroEval.UnusedCycle | docs/scripts/extract_portal_data.py:452-471 | a macro that mentions itself only in the branch not taken has a value |
| MacroLaws.SumsAndProducts | docs/scripts/extract_portal_data.py:497-517 | for all numbers a sum, a difference and a product have the value of arithmetic |
| MacroLaws.Quotients | docs/scripts/extract_portal_data.py:499-501 | a quotient is the one number whose remainder is smaller than the divisor and has its sign, and there is none exactly for 0 |
| MacroLaws.Shifts | docs/scripts/extract_portal_data.py:502-505 | a shift by one more doubles, or halves and rounds down; a negative count has none |
| MacroLaws.Comparisons | docs/scripts/extract_portal_data.py:506-513 | each comparison is 1 or 0 as the numbers compare |
| MacroLaws.Signs | docs/scripts/extract_portal_data.py:497-517 | a number, its negation and the plus sign |
| MacroLaws.Branches | docs/scripts/extract_portal_data.py:467-471 | a conditional is its first branch exactly when the test is not 0 |
| MacroLaws.Operands | docs/scripts/extract_portal_data.py:497-517 | an operator works on the values of its operands, whatever they are, and has none if one of them has none |
| MacroText.HasTopLevelQuestion | docs/scripts/extract_portal_data.py:428-434 | the loop finds a question mark exactly when one is outside all parentheses |
| MacroText.FindConditional | docs/scripts/extract_portal_data.py:457-466 | on any text the loop finds the first outer colon that has an outer question mark before it, and the last such question mark, or that there is none |
| MacroText.TopLevelOfRender | docs/scripts/extract_portal_data.py:457-466 | where the outer question mark and colon of a rendered expression are |
| MacroText.CutConditional | docs/scripts/extract_portal_data.py:457-471 | any text is cut where its conditional is, and otherwise not |
| MacroText.CutOfRender | docs/scripts/extract_portal_data.py:457-471 | a rendered conditional is cut into exactly its three parts and nothing else is cut |
| MacroText.StripGroups | docs/scripts/extract_portal_data.py:443-451 | on any text the loop removes pairs of parentheses that enclose the whole until there is none |
| MacroText.StripOfRender | docs/scripts/extract_portal_data.py:443-451 | stripping a rendered expression removes exactly the groups that are all of it |
| MacroParse.ParseOfRender | docs/scripts/extract_portal_data.py:499-517 | Python's grammar of arithmetic gives the text of every grammatical expression its value, comparisons of comparisons none |
| MacroLaws.TwoOperators | docs/scripts/extract_portal_data.py:493-517 | which of any two operators in a text without parentheses applies first, and that two comparisons have no value |
| MacroLaws.Precedence | docs/scripts/extract_portal_data.py:493-517 | for all a, b and c the texts a + b * c, a * b + c, a - b - c, a - b + c and a < b - c have the values that arithmetic gives them, and a < b < c none |
| MacroLaws.SignFirst | docs/scripts/extract_portal_data.py:493-517 | a minus sign applies before every operator that follows its number |
| MacroLaws.Parentheses | docs/scripts/extract_portal_data.py:493-517 | parentheses apply before everything |
| MacroLaws.MacroIsItsValue | docs/scripts/extract_portal_data.py:493-496 | with a macro defined as the text a + b, the macro times c is (a + b) * c |
| MacroTokens.FoldOfTerm | docs/scripts/extract_portal_data.py:472-492 | folding conditional groups in the text of arithmetic is the text of the folded arithmetic, or fails where it fails |
| MacroTokens.SubstituteOfTerm | docs/scripts/extract_portal_data.py:493-496 | substituting macros in the text of arithmetic is the text of the arithmetic with macros replaced by their values |
| MacroTokens.TextRefinesEval | docs/scripts/extract_portal_data.py:437-517 | on the text of a grammatical expression the token evaluator gives the value of the expression, and has one if and only if unfolding reaches it, when each macro that it can reach has the text of a grammatical expression or a text without a value; other macros may have any text |
| MacroTokens.UnknownIsValueless | docs/scripts/extract_portal_data.py:437-517 | a text with a token that the evaluator does not know, and without a question mark, has no value whatever the macros are |
| MacroLoops.Fold | docs/scripts/extract_portal_data.py:472-492 | the folding loop computes the specified folding, on any tokens |
| MacroLoops.Substitute | docs/scripts/extract_portal_data.py:493-496 | the macro substitution computes the specified one, on any tokens |
| MacroLoops.Evaluate | docs/scripts/extract_portal_data.py:437-517 | the evaluator ends on every token sequence and every environment and computes the specified value |
| Hanoi.SolveTransfers | app/demos/hanoi.c:73-78 | from any legal pegs whose other tops exceed the moved disks every move is legal and exactly the top disks are transferred |
| Hanoi.SolveLength | app/demos/hanoi.c:73-78 | the recursion makes 2^n - 1 moves |
| Hanoi.NoShorterWay | app/demos/hanoi.c:73-92 | no legal sequence that gets n disks from one peg to another is shorter than 2^n - 1 moves |
| Hanoi.SolveIsShortest | app/demos/hanoi.c:73-92 | the recursion is as short as any legal sequence with its effect |
| Hanoi.RunKeepsLegal | app/demos/hanoi.c:64-71 | legal moves keep every state legal |
| HanoiMachine.Towers.MoveDisk | app/demos/hanoi.c:64-71 | the three writes on the array rows are one legal move, within bounds |
| HanoiMachine.Towers.Transfer | app/demos/hanoi.c:73-78 | the recursion on the array makes exactly the specified moves and counts them |
| HanoiMachine.SolveTowers | app/demos/hanoi.c:13-18 | the initial stack ends on the last peg after 2^n - 1 moves and no legal way is shorter |
| NewcTheorems.HexBack | linux/build_linux.py:40 | eight hexadecimal digits read back as the value |
| NewcTheorems.HexDigits | linux/build_linux.py:40 | the digits and their places: the last counts ones, each before it sixteen times as much |
| NewcTheorems.HeaderLayout | linux/build_linux.py:36-42 | every field of a record is where the newc format has it, as eight digits |
| NewcTheorems.RecordBack | linux/build_linux.py:38-42 | one record reads back, whatever follows it |
| NewcTheorems.ArchiveBack | linux/build_linux.py:33-43 | an archive of representable records reads back as those before the first named as the trailer: as all of them if and only if none has that name |
| NewcTheorems.RecordsAreAligned | linux/build_linux.py:33-43 | every header and every content of an archive starts at an offset that is a multiple of four |
| NewcWriters.Overlay | linux/build_linux.py:33-43 | the overlay keeps what was there, starts aligned, and reads back as its files, each with its name and content as an executable regular file of root, up to the first named as the trailer: as all of them if and only if none has that name |
| NewcWriters.ExportRootfs | linux/raptor_linux.py:224-249 | the export writes the tree, the device nodes and the trailer, and fails exactly on an extracted copy of another type, a special file or an existing device |
| NewcWriters.ExportReadsBack | linux/raptor_linux.py:224-249 | the exported archive reads back as its records up to the first named as the trailer: as all of them if and only if the tree has no file of that name |
| NewcWriters.ExportedFiles | linux/raptor_linux.py:232-248 | every record has the name, mode, owner and content that the file system says, and the last are the devices with their numbers |
| NewcWriters.TrailerFileHidesDevices | linux/raptor_linux.py:232-249 | a tree with a file "TRAILER!!!" at its top is exported without failing, and only its root directory is read back |
| NewcWriters.InodesDistinct | linux/raptor_linux.py:232-248 | inode numbers of all records but the trailer are nonzero and distinct |
| NewcWriters.PathsFirst | linux/raptor_linux.py:232-248 | every directory but the root comes before everything beneath it |
| NewcWriters.DirectoriesFirst | linux/raptor_linux.py:184-248 | all directories, the root included, come before everything beneath them if and only if no name begins with a byte below the full stop |
| NewcWriters.PlusBeforeRoot | linux/raptor_linux.py:184-232 | a file named "+" is written before the root directory |
| Mdio.FrameLayout | fpga/litex/cm005.py:183-188 | the number shifted out is preamble, start, write, address, register, turnaround and value |
| Mdio.Sending | fpga/litex/cm005.py:192-210 | the registers at every half period, and that the bits sampled so far are the prefix of the three frames |
| Mdio.SendsEverything | fpga/litex/cm005.py:192-210 | from settle + 384 half periods on it is done and the sampled bits are exactly the three frames |
| Mdio.NotDoneEarly | fpga/litex/cm005.py:192-210 | it is not done before that cycle |
| Mdio.DataChangesOnFallingEdges | fpga/litex/cm005.py:192-210 | once settled the data changes only where the clock falls |
| Mdio.ResetReplays | fpga/litex/cm005.py:192-195 | a reset at any time replays the whole sequence |
| Mdio.Serialiser.Clock | fpga/litex/cm005.py:192-210 | one clock edge of the registers is the transition function |
| Mandelbrot.StaysSmall | app/demos/mandelbrot.c:34-40 | the escape test keeps the next point and all intermediate values small |
| Mandelbrot.OrbitSmall | app/demos/mandelbrot.c:32-41 | every point of the iteration up to escape is small |
| Mandelbrot.NextIsSquarePlus | app/demos/mandelbrot.c:32-41 | in units of 1/4096 the next point is the square of the point plus c, off by less than one unit in the real part and short by less than two in the imaginary; a point that escapes is more than 2 away, and one that is two units of rounding further does escape |
| Mandelbrot.Iterate | app/demos/mandelbrot.c:32-41 | no operation leaves 32 bits and the count is the first escaping iteration or the limit |
| Mandelbrot.CountIsFirst | app/demos/mandelbrot.c:32-41 | only one count has no escape before it and is an escape or the limit |
| Mandelbrot.Shade | app/demos/mandelbrot.c:43-46 | the character is the table's at eleven sixty-fourths of the count, which is always in the table |
| Mandelbrot.Render | app/demos/mandelbrot.c:15-49 | every character of every row is that of the first escaping iteration of its point, and nothing overflows |
| Closure.Dependencies | fpga/ooc/export.py:42-53 | the worklist ends on every module graph and returns exactly the reachable modules, failing only for an unknown name |
| Closure.SameReach | fpga/ooc/export.py:42-53 | designs that agree on the reachable modules reach the same ones |
| Closure.ReachDecides | fpga/ooc/export.py:42-53 | with equal texts the closures are equal if and only if no word names a module of only one design |
| Closure.KeyDecides | fpga/ooc/export.py:42-176 | packs whose texts of a block's modules agree hash the same text if and only if no word of those modules names a module of only one of them |
| Closure.TextsDoNotFixKey | fpga/ooc/export.py:176 | two packs with the same text of every module that the first reaches, and different keys |
| Closure.TextsInOrder | fpga/ooc/export.py:176 | the texts of the modules are hashed in the order of the list with a line break between |
| Closure.GlobalsAndWrapperDecide | fpga/ooc/export.py:176 | with the rest unchanged the hashed text is the same if and only if the globals are, and if and only if the wrapper is |
| Closure.PartsAreNotMarked | fpga/ooc/export.py:176 | changed together, the globals and the wrapper can give the same hashed text |
| Closure.OneSortedListing | fpga/ooc/export.py:53 | a set of names has only one sorted listing |
| Closure.SliceOfFlatten | fpga/ooc/export.py:159-163 | slicing a flattened array port gives back each element |
| SparseCopy.Ext4Partition | linux/distro_boot.py:70-90 | it succeeds exactly when the table is sound and has one ext4 partition, which it returns, inside the disk |
| SparseCopy.LittleEndianBack | linux/distro_boot.py:75-85 | little-endian fields read back as the value written |
| SparseCopy.EightBytes | linux/distro_boot.py:75-85 | the first of eight bytes counts ones and each other 256 times as much as the one before |
| SparseCopy.TableAsWritten | linux/distro_boot.py:70-80 | a table with its numbers at bytes 72, 80 and 84 of the second sector is read as those numbers, and refused exactly outside the limits |
| SparseCopy.PartitionAsWritten | linux/distro_boot.py:81-86 | an entry with its first and last sector at bytes 32 and 40 is the partition from the one to the end of the other |
| SparseCopy.CopyChunks | linux/distro_boot.py:93-106 | the copy that seeks over zero chunks and truncates is exactly the stretch of the disk |
| SparseCopy.ExtractPartition | linux/distro_boot.py:93-106 | extraction gives exactly the root partition and fails only when finding it fails |

## Left out

- Pipeline occupancy labels, register names parsed from operands, the rounded instructions per cycle and the shape of the JSON output: display only.
- PipelineSimulate.Simulate: an execution list is a set per unit kind, so the order within it is not modelled.
- Pipeline object fields are grouped into the in-order line, the issue queues and the tables; sharing between lists does not arise in the source.
- The 100 Mb/s receiver (`CM005RX100Samples`) and the native receiver (`RKRGMIIReceive`): the gigabit receiver has the harder form of the same questions.
- RgmiiReceiver.Registers: the registers of the frame protocol and of the output beat are grouped into two records.
- Clock-domain crossing, input delays and metastability of the sampled lanes: analogue.
- Threads of the shared-counter check that are created late behave as threads not yet scheduled, so creation is not a step; the failure statuses 1 to 4 of its main program are left out.
- Weak memory: all atomics in the shared-counter check are sequentially consistent in the source, so interleaving is enough.
- LruMachine.DCacheSimulator.constructor: requires at least one set, because with none the source fails on its first access.
- LruMachine.DCacheSimulator: a line is a value in its set's list, not an object; nothing else refers to one.
- The rounded hit rate and report tables of the cache simulators, and the average access times.
- FrameQueueMachine.EthernetFrameQueue.constructor: does not need the slot count to be a power of two, which the source demands for its address bits.
- The three-port switch (`cm005_switch.py`): which queue feeds an output is decided by LiteX's packet arbiter, which is not part of the repository; the two queues behind an input take the same beats, each as the queue modelled here does.
- The internals of the LiteEth packet writer and reader: stated as promises in FrameQueue.
- The classification of source lines and macro definitions by regular expressions, `elsif`, trailing commas, and number literals in other bases: the models start from classified lines and tokens.
- MacroParse.Parse: stands for Python's own parser; a minus or plus sign is a different token from the operator, as the token before it decides.
- MacroTokens.EvalText: tokens that a substitution puts side by side stay apart, where two digits in the source's text would run together; no expression has them side by side.
- MacroEval: conditionals nested without parentheses, which the source says it does not support, have no expression; MacroTokens.EvalText says what becomes of their text.
- MacroEval: shifts by huge amounts, which exhaust memory in the source, simply have a value.
- Screen drawing of the demos; the Langton and life demos, whose promise is the very rule that their step applies; and the donut and matrix demos, which only draw.
- HanoiMachine.Towers: the two-dimensional array is three rows; the disk count is a parameter instead of 8.
- Reading metadata and contents of the root filesystem from `debugfs` and the host: parameters of the export.
- NewcWriters.ExportRootfs: takes the names already sorted, as Python's `sorted` returns them.
- Name encoding: names are byte sequences.
- The MDIO hand-over to software, which selects another source for two wires once done is set, and the power-on reset counter, which counts down to zero and starts again on a restart.
- Closure.Dependencies: returns the set; the sorted list of it is unique by Closure.OneSortedListing.
- Hash functions: the theorems are about the text that is hashed.
- Closure.KeyDecides: compares packs whose texts agree; the hashed text does not say where a part ends (Closure.PartsAreNotMarked), so packs with different texts can hash the same.
- FrameQueueProgress.EveryFrameLeaves: speaks of an eager reader; one that never takes a beat holds its frame for ever.
- RgmiiTransmit.FramesArrive: the clock low before the first edge and after the last; a stream cut within a period is not covered.
- Stamp files of `fpga/ooc/build.py`, locking, downloads and subprocesses.
- SparseCopy.CopyChunks: that a read inside the file may return fewer bytes than asked for is not modelled.
- The floor-plan packing of the portal data and its other reports.
