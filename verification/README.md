# Verified model of the emulator framework's hard core

A Dafny 4.11 model of the layers of the framework that decide whether an emulated
machine is analysed, executed, heard, saved and shown correctly, with proofs about
whole runs, whole files and every interleaving. `dafny verify dfyconfig.toml` checks
everything.

## What is modelled

- **Control-flow analysis** (`Graphs`, `FlowGraph`, `LoopAnalysis`, `ControlFlow`,
  `DependencyQuery`, `Provenance`). Captured evidence becomes a graph with its
  transpose; an iterative two-pass search with explicit stacks publishes the
  structural cycles, and the proof follows the stack through colours, finishing order
  and transpose to "exactly the cyclic components, each once". Routine bodies, the
  bounded dependency walk, the ancestry walk and the callee closure are work-list
  loops proved against reachability.
- **Portable intermediate representation** (`IR`, `IrValidator`, `IrBuilder`,
  `IrInterpreter`, `IrArithmetic`, `IrSemantics`, `IrService`). The validator accepts
  exactly the well-formed blocks; the builder hands out nothing else; the interpreter
  object, with its value table, agrees with a straight-line meaning over mathematical
  signed and unsigned arithmetic for every accepted instruction and every host; the
  service's prepare step is characterised by an if-and-only-if and its execute step
  never reaches a fatal branch on a block it prepared.
- **Threaded block cache** (`BlockCache`, `BlockCoherence`). Direct slots, per-page live
  counters, generations and eviction are arrays and objects that refine a plain log of
  insertions. Memory is what addresses show of its cells, with the work-memory mirror,
  devices that change behind the cache, and cartridges that show a cell more than once.
  A block stays right under every guest write and every hardware change if and only if
  it is guarded, which its header tells; over every run in which translations are handed
  bytes that are still right, each hit on a guarded block returns guest memory. Every way
  of leaving this guarantee is a lemma over all translations concerned.
- **Audio output transport** (`AudioTransport`, `AudioHistory`). Two single-producer
  rings, the drain gate, epochs and priming as atomic steps of an emulation lane, a
  worker, any number of callbacks and a control lane. A history carried along a run
  says of every published block what became of it, and why.
- **Work-stealing pool** (`ThreadPool`, `PoolHistory`). Lock-level steps of submitters,
  workers, a canceller and the thread that shuts down; a history of what each of them
  met says that none gives up without a reason.
- **Formats** (`Crc`, `CrcRemainder`, `SaveState`, `SaveStateLayout`, `PngFilter`, `Png`,
  `PngReading`, `Json`, `JsonDocuments`). The CRC-32 register is linear and loses nothing,
  so every burst of up to 32 bits is caught, and it is the remainder of polynomial
  division; the accepted save-state files are characterised exactly, and their bytes laid
  out; PNG filtering follows the standard and is inverted in place, any file of chunks is
  decoded as its chunk list says, and the capture writer's files decode back to the
  pixels; JSON strings survive escaping and parsing, every accepted `\u` escape is a
  Unicode scalar value, and nested documents with any white space are read as what they
  mean.
- **Pacing, caches, queues** (`Timing`, `VisualKeys`, `VisualOverrides`,
  `VisualService`, `TraceQueues`). Pacing without drift, a memo that is exactly as good
  as its key, a byte-budgeted least-recently-used cache, reloads that lose no pack, and
  wrap-safe queues.

`Bits` holds bitwise operations on natural numbers and `Wrappers` what may be absent.
Where the source updates state in place the model has a class or a loop (`Cache`,
`Machine`, `Interpreter`, `Service`, `BlockBuilder`, `Parser`, `TimingEngine`,
`FixedSpscQueue`, the search loops, the CRC and PNG loops), each tied to a
specification. Lanes that interleave are state machines over their atomic steps, and a
run is any sequence of steps.

## Results that differ from what one might expect

- An operation that reads its own result passes validation, and reads zero
  (`IrSemantics.SelfReferenceIsAccepted`, `IrSemantics.SelfReferenceReadsZero`).
- A translated block can be offered stale in exactly these cases (`BlockCoherence.GuardedExactly`,
  `BlockCoherence.SteadyExactly`, `BlockCoherence.OfferedAsHandedOver`):
  - its first instruction wraps around the address space, so that the overlap test does
    not see its bytes (`BlockCoherence.WrappedBlockGoesStale`);
  - it begins or ends in the mirror 0xE000..0xFDFF: blocks are stored under the raw
    program counter, while writes strike the work memory behind the mirror
    (`BlockCoherence.MirroredBlockGoesStale`);
  - it begins or ends in sprite memory or device registers, which change without an
    invalidation (`BlockCoherence.DeviceBlockGoesStale`);
  - one of its bytes is also shown at an address outside the block, as in the window of a
    cartridge whose 512 cells fill 8 KiB (`BlockCoherence.UnseenChangeGoesStale`);
  - it was handed bytes that memory no longer shows: the first instruction is stored as it
    was fetched before it ran, so `LD (HL),A` over itself
    (`BlockCoherence.SelfOverwriteGoesStale`) and a fetch under the halt bug
    (`BlockCoherence.HaltBugFetchGoesStale`) leave a stale block behind.
- A source block of the current epoch is left out if it is published between the new
  epoch and the skip of the source ring in `bumpTransportEpochLocked`: the stamp is new,
  the ring is emptied all the same (`AudioHistory.CurrentBlockIsSkipped`). Of the blocks
  of the current epoch these are the only ones
  (`AudioHistory.EngineHearsPublishedInOrder`).
- The bytes behind the NUL of a chunk name are outside the save-state checksum
  (`SaveState.PaddingIsUnprotected`).
- A 2048 by 2048 capture is written but not read back: the limits file
  (machine/VisualPackLimits.hpp:22-25) counts four bytes a pixel, the decoder also counts
  one filter byte a row (`Png.LargestSquareIsRejected`; `Png.CaptureRoundTrip` gives the
  exact bound).
- Two different descriptors can share a memo key, and the second is then answered with
  the first one's replacement. That happens exactly when machine, label and palette
  register do not hold equally many `|` each (`VisualKeys.KeysTellApart`,
  `VisualService.MemoIsRightExactly`); label and palette register
  (`VisualService.SeparatorsConfuseTheMemo`) or machine and label
  (`VisualService.MachineAndLabelShareTheirKey`) are enough.

## Model

| member | source | states |
|---|---|---|
| `FlowGraph.IndexLocations` | space/Analysis.cpp:129 | the location index names every location, points at an instruction there, and calls a location ambiguous exactly when two instructions share it |
| `FlowGraph.Destination` | space/Analysis.cpp:140 | an edge has a destination exactly when it names one or its target location has exactly one instruction, and then it is that one |
| `FlowGraph.AddEdge` | space/Analysis.cpp:143 | both graphs gain the one edge and the second stays the transpose of the first |
| `FlowGraph.BuildGraph` | space/Analysis.cpp:129-144 | the graph holds exactly the edges the evidence justifies, its companion exactly their reversals |
| `FlowGraph.SuccessorsByFlow` | space/Analysis.cpp:143 | by its flow: nothing follows a halt or a stop, only fallthroughs follow a call or a return, and all its evidence follows any other instruction |
| `FlowGraph.RoutineBody` | space/Analysis.cpp:203-208 | a routine body is exactly what the entry reaches without entering another entry |
| `FlowGraph.BodiesCoverReachableCode` | space/Analysis.cpp:203-208 | whatever some entry reaches lies in some routine body |
| `FlowGraph.BodyHasOneEntry` | space/Analysis.cpp:203-208 | a body contains no entry but its own |
| `FlowGraph.BodyExitsAreConflicts` | space/Analysis.cpp:206-213 | an edge leaves a body only into another routine's entry, so the listed boundary conflicts are all its exits |
| `LoopAnalysis.PushSuccessors` | space/Analysis.cpp:151 | the stack gains exactly the unvisited successors |
| `LoopAnalysis.SearchFrom` | space/Analysis.cpp:149-151 | one depth-first search extends a finishing order by everything newly reachable |
| `LoopAnalysis.FinishingOrder` | space/Analysis.cpp:148-151 | the first pass yields every node once, in an order in which each node's later-finished edges stay inside what it reaches |
| `LoopAnalysis.Collect` | space/Analysis.cpp:153-154 | the transposed walk gathers exactly what reaches the root through nodes not yet taken |
| `LoopAnalysis.CollectedIsComponent` | space/Analysis.cpp:152-154 | taken in reverse finishing order, what is gathered is the strongly connected component of the root |
| `LoopAnalysis.Boundary` | space/Analysis.cpp:156-158 | entries and exits are exactly the edges crossing the component boundary inwards and outwards |
| `LoopAnalysis.FindLoops` | space/Analysis.cpp:147-163 | for every finite closed graph the published loops are exactly the cyclic components, each once, with exact boundaries, and the index maps each member to its loop |
| `LoopAnalysis.CyclicMeansOnCycle` | space/Analysis.cpp:155 | the test for two members or a self-edge holds exactly when the node lies on a cycle |
| `LoopAnalysis.LoopsAreCycles` | space/Analysis.cpp:147-163 | an instruction is in a published loop exactly when control can leave it and come back |
| `LoopAnalysis.SameLoopIsMutual` | space/Analysis.cpp:152-158 | two indexed instructions share a loop exactly when each reaches the other |
| `ControlFlow.StructuralCycles` | space/Analysis.cpp:129-163 | from captured evidence to published cycles: looping means a cycle of justified edges |
| `DependencyQuery.Expand` | space/Analysis.cpp:305-307 | one step of the walk queues exactly the new targets one level deeper |
| `DependencyQuery.DependencyPath` | space/Analysis.cpp:300-309 | the answer lists only reachable items at their true distance, nearest first, each once, and flags those cut by the depth; it is cut off if and only if more than 16384 items lie within the depth, and then behind the first item that shows it; otherwise it lists all of them |
| `Provenance.Trace` | space/Analysis.cpp:191-194 | the ancestry path is the start and its ancestors in order, each once, at most 64; truncation is reported exactly when a new ancestor was still to come; the source is the last hardware read on the path |
| `Provenance.UntruncatedIsComplete` | space/Analysis.cpp:191-195 | an untruncated walk met every ancestor, cycles included, and has a source exactly when some ancestor reads hardware |
| `Provenance.Callees` | space/Analysis.cpp:215-216 | the closure holds exactly the routines callable directly or through others |
| `IrValidator.EnterResult` | inst_cycle/IntermediateRepresentation.hpp:295-312 | the result checks pass exactly when the result is present where required, typed, non-zero and new, and the table then gains it before any operand is looked at |
| `IR.TypedByTable` | inst_cycle/IntermediateRepresentation.hpp:174-419 | operand counts, operand kinds, operand and result types are those of a table by opcode and position |
| `IrValidator.CheckOperands` | inst_cycle/IntermediateRepresentation.hpp:314-328 | operands pass exactly when they fit the host ABI and read values defined by this or an earlier operation with that type |
| `IrValidator.CheckOperations` | inst_cycle/IntermediateRepresentation.hpp:285-451 | the scan stops at the first ill-formed operation, and passes exactly when there is none |
| `IrValidator.RetiresOnce` | inst_cycle/IntermediateRepresentation.hpp:430-451 | the two counting checks cannot fail once the positions of retirement and exit have been checked |
| `IrValidator.CheckInstruction` | inst_cycle/IntermediateRepresentation.hpp:280-459 | an instruction passes exactly when it is well formed, cycle selector included |
| `IrValidator.CheckGuards` | inst_cycle/IntermediateRepresentation.hpp:471-500 | guards pass exactly when each is well formed and no two are equal |
| `IrValidator.CheckInstructions` | inst_cycle/IntermediateRepresentation.hpp:264-466 | the block scan passes exactly when instructions are well formed, contiguous, and only the last transfers control |
| `IrValidator.Validate` | inst_cycle/IntermediateRepresentation.hpp:255-502 | the validator accepts exactly the well-formed blocks, and everything before a named instruction was well formed |
| `IrBuilder.NumbersAreFresh` | inst_cycle/IntermediateRepresentation.hpp:552-568 | values the builder numbers are never zero and never defined twice |
| `IrBuilder.EmittedResultsPass` | inst_cycle/IntermediateRepresentation.hpp:552-582 | a builder's results fail validation only for a forbidden, missing or void result, never for their number |
| `IrBuilder.BlockBuilder.EmitValue` | inst_cycle/IntermediateRepresentation.hpp:552-568 | refused outside an instruction; otherwise the block is the old one with one operation of a fresh number appended to the open instruction, and nothing else changed |
| `IrBuilder.BlockBuilder.EndInstruction` | inst_cycle/IntermediateRepresentation.hpp:590-596 | closes the instruction with exactly one appended retirement, and changes nothing else |
| `IrBuilder.EndedFits` | inst_cycle/IntermediateRepresentation.hpp:598-610 | the end the builder computes, wrapping, is never why a block is refused |
| `IrBuilder.BlockBuilder.Finish` | inst_cycle/IntermediateRepresentation.hpp:598-610 | hands out exactly what was built, ended at its last byte and well formed, if and only if no instruction is open and all but the end is well formed |
| `IrInterpreter.Interpreter.ExecuteOperation` | inst_cycle/IntermediateRepresentationInterpreter.hpp:147-234 | one operation of the object makes exactly the host call, value and flags of the step function, or throws where it is undefined |
| `IrInterpreter.Interpreter.Execute` | inst_cycle/IntermediateRepresentationInterpreter.hpp:37-60 | executing an instruction gives the log, result and cycle condition of a run, and throws exactly where a table index is out of range |
| `Bits.DigitByDigit` | inst_cycle/IntermediateRepresentationInterpreter.hpp:63-137 | and, or and xor work digit by digit, wherever their operands have digits |
| `IrArithmetic.BinaryAgrees` | inst_cycle/IntermediateRepresentationInterpreter.hpp:63-137 | every binary opcode computed with masks, shifts and sign flips equals its meaning over integers of the operand width |
| `IrArithmetic.ArithmeticAgrees` | inst_cycle/IntermediateRepresentationInterpreter.hpp:112-128 | the arithmetic right shift, filled by mask and xor, is repeated signed halving |
| `IrArithmetic.SignedLessAgrees` | inst_cycle/IntermediateRepresentationInterpreter.hpp:130-137 | comparing with flipped sign bits is comparing the signed values |
| `IrSemantics.LoopSimulates` | inst_cycle/IntermediateRepresentationInterpreter.hpp:45-55 | the interpreter's loop, with its exit skip, keeps step with the straight-line evaluation and drops nothing |
| `IrSemantics.AcceptedRunsAsMeant` | inst_cycle/IntermediateRepresentationInterpreter.hpp:37-60 | for every accepted instruction and every host: no index out of range, retirement reached, and log, values, branch, exit and selector are those of the meaning |
| `IrSemantics.AcceptedCallsInWidth` | inst_cycle/IntermediateRepresentationInterpreter.hpp:139-234 | an accepted instruction hands the host only in-width register and memory values |
| `IrSemantics.ExitsOnlyBeforeRetirement` | inst_cycle/IntermediateRepresentation.hpp:437-444 | in an accepted instruction an exit is the last operation before retirement |
| `IrSemantics.SelfReferenceReadsZero` | inst_cycle/IntermediateRepresentationInterpreter.hpp:39-45 | an accepted operation that reads its own result reads zero |
| `IrSemantics.SelfReferenceIsAccepted` | inst_cycle/IntermediateRepresentation.hpp:303-328 | such an operation is accepted: a concrete instruction |
| `IrService.ValidateGuardProfile` | inst_cycle/IrExecutionService.cpp:26-95 | accepted exactly when instructions equal the copied source prefix and the four required guards match the profile |
| `IrService.SourceIsCopied` | inst_cycle/IrExecutionService.cpp:46-56 | the wrap-free range test holds exactly for non-empty copies that end within the guest's addresses |
| `IrService.CodeGuardCoversBlock` | inst_cycle/IrExecutionService.cpp:43-91 | when profile and validation accept, the code guard spans exactly guestStart to guestEnd with no gap and equals the source bytes |
| `IrService.CheckLimits` | inst_cycle/IrExecutionService.cpp:141-174 | true exactly when every count and byte total is within its limit |
| `IrService.Service.Prepare` | inst_cycle/IrExecutionService.cpp:186-247 | a block is prepared if and only if ABI, limits, validation, guard profile, core, adapter and state all accept |
| `IrService.Service.Compile` | inst_cycle/IrExecutionService.cpp:103-116 | the portable backend never declines a well-formed block |
| `IrService.Service.Execute` | inst_cycle/IrExecutionService.cpp:118-132 | the backend declines foreign artifacts and bad indices without a host effect, and otherwise runs the instruction |
| `IrService.Service.TryExecute` | inst_cycle/IrExecutionService.cpp:249-297 | an unprepared or foreign artifact and a bad index are fatal, a rejected guard is not, and all leave the host untouched; on a prepared block and an index in range nothing fatal happens, the host sees exactly the meaning, and the four result fields are those of the meaning: retirement, branch, exit, and a cycle condition that holds exactly when the named taken condition is one |
| `BlockCache.StruckTouchesPage` | inst_cycle/BlockTranslator.hpp:160-161 | a block the overlap test strikes touches some page of the range |
| `BlockCache.TouchesExactly` | inst_cycle/BlockTranslator.hpp:253-270 | a block touches exactly the pages its addresses lie on, the wrapped part included |
| `BlockCache.QuietRangeStrikesNothing` | inst_cycle/BlockTranslator.hpp:152-155 | with all page counters of the range at zero, skipping the scan changes nothing |
| `BlockCache.LiveStrike` | inst_cycle/BlockTranslator.hpp:235-238 | striking a block lowers the live count of exactly its pages by one |
| `BlockCache.Cache.AdjustActivePages` | inst_cycle/BlockTranslator.hpp:253-270 | every page the block touches, wrapped or not, changes by one, and no other |
| `BlockCache.Cache.Lookup` | inst_cycle/BlockTranslator.hpp:115-126 | hits exactly when the last logged block at the address is still valid, returns that block and an index at that address; the generation test rejects nothing more |
| `BlockCache.Cache.Insert` | inst_cycle/BlockTranslator.hpp:128-145 | the log gains the block, after being emptied when full; an empty block changes nothing |
| `BlockCache.Cache.InvalidateBlock` | inst_cycle/BlockTranslator.hpp:235-244 | one entry becomes invalid, its slots and page counts with it, and nothing else |
| `BlockCache.Cache.RangeHasActivePage` | inst_cycle/BlockTranslator.hpp:272-281 | true exactly when some page of the range has a live block |
| `BlockCache.Cache.InvalidateRange` | inst_cycle/BlockTranslator.hpp:147-165 | the outcome is that of striking every overlapping entry, with or without the page skip |
| `BlockCache.Cache.Invalidate` | inst_cycle/BlockTranslator.hpp:167-174 | the block offered at the address is struck |
| `BlockCache.Cache.InvalidateAll` | inst_cycle/BlockTranslator.hpp:176-190 | every entry is void under a new generation |
| `BlockCache.Cache.Clear` | inst_cycle/BlockTranslator.hpp:222-227 | the log is empty and the generation is the next one |
| `BlockCoherence.WriteKeepsCoherent` | cores/gameboy/GameBoyMemoryMap.cpp:384-418 | after a guest write and its invalidation every standing guarded block still equals memory |
| `BlockCoherence.OverlapTestSeesLinearBlocks` | inst_cycle/BlockTranslator.hpp:160-161 | the overlap test sees a write to each of a block's bytes if and only if the block does not wrap |
| `BlockCoherence.SizedWriteStrikesItsBytes` | cores/gameboy/gameboy.cpp:2955-2983 | an invalidation of several bytes, split in two where it wraps, strikes exactly the linear blocks that hold one of them |
| `BlockCoherence.MirrorStands` | cores/gameboy/gameboy.cpp:3197-3203 | the mirror is the 7680 bytes from 0xE000 on, standing for those 8192 bytes before |
| `BlockCoherence.GuardedExactly` | cores/gameboy/gameboy.cpp:2955-2983 | a block that equals memory is struck or still equals it under every guest write and every hardware change, if and only if no byte is a device's and every address showing one of its bytes is one where a write is seen |
| `BlockCoherence.SteadyExactly` | cores/gameboy/gameboy.cpp:3197-3203 | where only the mirror shows a cell twice, a translated block stays coherent under every change if and only if it neither wraps nor begins or ends in the mirror or on a device, which its header tells in numbers |
| `BlockCoherence.TranslationMatches` | cores/gameboy/gameboy.cpp:2827-2873 | a translated block equals memory if and only if the bytes fetched for its first instruction still do |
| `BlockCoherence.WrapsExactly` | cores/gameboy/gameboy.cpp:2827-2873 | a translated block wraps exactly when its very first instruction does, and then holds nothing else; otherwise its instructions lie inside it, in its page or just behind |
| `BlockCoherence.OfferedAsHandedOver` | cores/gameboy/GameBoyMachine.cpp:757-765 | the dispatch right behind a translation hits, and is offered stale bytes if and only if stale bytes were handed over |
| `BlockCoherence.FetchedIsFaithful` | cores/gameboy/gameboy.cpp:1829-1852 | fetched bytes are right for a block, memory unchanged, if and only if the fetch was plain or the bytes from the program counter on are all the same |
| `BlockCoherence.EveryHitIsCoherent` | inst_cycle/BlockTranslator.hpp:115-190 | over every run whose translations are handed bytes that are still right, each hit on a guarded block, or a steady one where only the mirror shows a cell twice, equals guest memory of that moment at the address asked for |
| `BlockCoherence.UnseenChangeGoesStale` | inst_cycle/BlockTranslator.hpp:157-164 | whatever the translation, a change of its first byte at an address where the block does not see it is offered stale |
| `BlockCoherence.WrappedBlockGoesStale` | inst_cycle/BlockTranslator.hpp:157-164 | every translation whose first instruction wraps is offered stale after a write that changes its first byte |
| `BlockCoherence.MirroredBlockGoesStale` | cores/gameboy/gameboy.cpp:2955-2957 | so is every translation in the mirror, after a write through the mirror or to the work memory behind it |
| `BlockCoherence.DeviceBlockGoesStale` | cores/gameboy/GameBoyMemoryMap.cpp:296-310 | and every translation on a device, after hardware changes its first byte |
| `BlockCoherence.SelfOverwriteGoesStale` | cores/gameboy/gameboy.cpp:2831-2834 | `LD (HL),A` over itself in work memory leaves a steady block with the opcode that is no longer there |
| `BlockCoherence.HaltBugFetchGoesStale` | cores/gameboy/gameboy.cpp:1842-1849 | under the halt bug every longer instruction whose next byte differs from its opcode is stored and offered with its opcode as that byte |
| `BlockCoherence.Machine.InvalidateForWrite` | cores/gameboy/gameboy.cpp:2955-2983 | taken back from the mirror, a write strikes everything below 0x8000 or at the boot register, else the written range, in two parts when it wraps |
| `BlockCoherence.Machine.Store` | cores/gameboy/GameBoyMemoryMap.cpp:384-418 | a guest write changes the cell its address shows and strikes what the cache sees of it |
| `BlockCoherence.Machine.Copy` | cores/gameboy/gameboy.cpp:2827-2873 | the copying loop yields the translation of the specification: fetched bytes first, then memory to the end of the page |
| `BlockCoherence.Machine.Run` | inst_cycle/BlockTranslator.hpp:115-281 | the real cache with its slots, counters and skips produces the hits and the outcome of the plain log, for every run |
| `AudioTransport.StepKeepsInv` | machine/AudioService.hpp:438-563 | every atomic step of every lane keeps the gate, rings, locks, epochs and sample accounts |
| `AudioTransport.ReadyRingProtocol` | machine/AudioService.hpp:460-563 | in every interleaving at most one drain is inside the gate, none during a reset, no slot is written while read, depth stays within the ring, drained blocks are a prefix of those produced since the reset |
| `AudioTransport.QueuedBlocksAreCurrent` | machine/AudioService.hpp:962-971 | outside a bump in progress every queued ready block carries the current epoch |
| `AudioTransport.OldBlocksNeverAppended` | machine/AudioService.hpp:767-838 | from any moment on no block stamped with an older epoch reaches the engine, even one published later |
| `AudioTransport.SamplesAccounted` | machine/AudioService.hpp:509-563 | requested samples are ready audio, silence and priming silence, with nothing missing |
| `AudioTransport.SourceRingProtocol` | machine/AudioService.hpp:438-458 | the worker holds the oldest waiting block, at most eight wait, and no slot is overwritten while its block waits or is in the worker's hands |
| `AudioTransport.RefusedWhenEightWait` | machine/AudioService.hpp:438-447 | a source block is refused exactly when eight wait |
| `AudioTransport.IdleWhenFull` | machine/AudioService.hpp:486-494 | the worker drops what it would render exactly when every slot but one is taken |
| `AudioTransport.TurnedAwayWhenTaken` | machine/AudioService.hpp:722-742 | a callback is turned away exactly when another one drains or a reset is under way |
| `AudioTransport.SilentWhenEmpty` | machine/AudioService.hpp:534-546 | a primed callback gives nothing but silence, counted as such, exactly when nothing is queued |
| `AudioTransport.CopiesOldest` | machine/AudioService.hpp:548-561 | what a callback copies is the oldest block queued, as many samples as both sides have room for, the rest being silence |
| `AudioTransport.PrimesAtTarget` | machine/AudioService.hpp:935-946 | draining opens when two blocks are queued, or all but one slot of a smaller ring, and not before |
| `AudioTransport.ResetFindsNoReader` | machine/AudioService.hpp:948-960 | while a reset runs no callback is inside the gate or holds a slot and the active bit is down, so storing zero erases nothing |
| `AudioHistory.EngineHearsPublishedInOrder` | machine/AudioService.hpp:767-838 | over every run each published block waits, is in the worker's hands, was heard, or was left out; the engine is given exactly the heard ones, in publication order; what is left out is older than the current epoch or was published amid a bump, and of the blocks of the current epoch exactly those published amid a bump are left out |
| `AudioHistory.WithoutBumpAllIsHeard` | machine/AudioService.hpp:767-838 | without a bump every block taken from the ring is given to the engine, in order |
| `AudioHistory.DrainLeavesNothing` | machine/AudioService.hpp:767-775 | a drain that has ended has taken everything published before it read the write index |
| `AudioHistory.SourcesStayInOrder` | machine/AudioService.hpp:438-458 | what reaches the engine is a subsequence of what was published, each publication at most once |
| `AudioHistory.CurrentBlockIsSkipped` | machine/AudioService.hpp:962-971 | a run in which a block of the current epoch is left out: published between the new epoch and the skip of the source ring |
| `ThreadPool.TasksUpdate` | machine/BackgroundThreadPool.hpp:371-405 | replacing one deque changes the tally of queued tasks by what was put in and taken out |
| `ThreadPool.StepKeepsInv` | machine/BackgroundThreadPool.hpp:124-236 | every lock-level step keeps conservation, counters, caps and the drain after a stop |
| `ThreadPool.TasksAreConserved` | machine/BackgroundThreadPool.hpp:147-236 | in every run accepted tasks are exactly those finished, cancelled, queued or executing; queued tasks fit reservations, deques and the total cap; the pending counter is true |
| `ThreadPool.NeverTwice` | machine/BackgroundThreadPool.hpp:345-405 | a task accepted once is finished or cancelled at most once in total |
| `ThreadPool.ShutdownLeavesNothing` | machine/BackgroundThreadPool.hpp:124-142 | once all workers have left, every deque is empty and every accepted task was finished or cancelled exactly as often as accepted |
| `ThreadPool.NoWorkerLeavesWorkBehind` | machine/BackgroundThreadPool.hpp:319-343 | a worker leaves only when nothing is queued, although its scan takes one lock at a time |
| `ThreadPool.OneWorkerIsFirstInFirstOut` | machine/BackgroundThreadPool.hpp:371-383 | with one worker and no cancellation, tasks complete in the order in which they were accepted, in every interleaving |
| `PoolHistory.TurnedAwayForAReason` | machine/BackgroundThreadPool.hpp:181-236 | over every run a task is turned away only from a pool that is stopping, or with as many tasks queued or about to be as the cap allows, or after every deque was full when the submitter looked at it |
| `PoolHistory.RestsForAReason` | machine/BackgroundThreadPool.hpp:319-343 | over every run a worker looks for a stop only after every deque was empty when it looked at it |
| `PoolHistory.TakesOldestStealsNewest` | machine/BackgroundThreadPool.hpp:371-405 | a worker takes the oldest task of its own deque and the newest of another's, and touches no third |
| `Crc.Compute` | machine/SaveState.cpp:79-89 | the nested loop computes the register function |
| `CrcRemainder.Crc32IsRemainder` | machine/SaveState.cpp:79-89 | the checksum, its complement taken back and its bits read from the highest power, is the remainder, and the only one, of the message times x^32, with 32 ones added in front, by the generator of RFC 1952 given by its exponents |
| `CrcRemainder.RegisterDivides` | machine/SaveState.cpp:82-87 | after any bytes and from any start the register is congruent to the message times x^32 plus the start pushed in front of it |
| `CrcRemainder.RemainderIsUnique` | machine/SaveState.cpp:79-89 | a polynomial has only one remainder by the generator |
| `Crc.ShiftLinear` | machine/SaveState.cpp:84-86 | one shift of the register is linear over xor |
| `Crc.ClockKeepsNonzero` | machine/SaveState.cpp:84-86 | a non-zero 32-bit register never becomes zero |
| `Crc.RegisterDifference` | machine/SaveState.cpp:79-89 | two registers drift apart exactly as the clocked difference of their inputs |
| `Crc.CollideExactly` | machine/SaveState.cpp:79-89 | equally long inputs collide if and only if their difference, clocked through, vanishes |
| `Crc.BurstIsDetected` | machine/SaveState.cpp:79-89 | every error burst of at most 32 bits changes the checksum, wherever it starts |
| `Crc.FourByteCorruptionIsDetected` | machine/SaveState.cpp:79-89 | inputs of one length that differ, and only within four consecutive bytes, have different checksums |
| `SaveState.Write` | machine/SaveState.cpp:200-224 | writing gives the stamped encoding, or for the first chunk that cannot be framed the error that names its fault |
| `SaveState.Read` | machine/SaveState.cpp:91-179 | the reader with its checks in order gives the decoding, error cases included |
| `SaveState.ReadBody` | machine/SaveState.cpp:137-179 | the chunk loop reads all chunks or stops at the first failure, and checks the checksum of the re-encoded payload |
| `SaveState.AcceptedExactly` | machine/SaveState.cpp:91-179 | a file is read as a state if and only if it is that state framed with known header, limits, right checksum, nothing trailing, and any filler behind a name's NUL |
| `SaveState.RoundTrip` | machine/SaveState.cpp:51-75 | writing and reading back is the identity if and only if the mode is known, chunks number at most 4096, and sizes and names are storable |
| `SaveState.PaddingIsUnprotected` | machine/SaveState.cpp:146-159 | changing bytes behind a name's NUL changes nothing that is read, checksum or not |
| `SaveState.ChangedData` | machine/SaveState.cpp:163-169 | changed chunk data is accepted if and only if there is no checksum or the checksums collide |
| `SaveState.DataCorruptionIsDetected` | machine/SaveState.cpp:138-169 | with a checksum, a change inside four consecutive bytes of one chunk's data is always rejected |
| `SaveState.LoadsExactly` | machine/SaveState.cpp:181-198 | each of the four answers to a saved state, for any core and cartridge, exactly: no core set, another core, another cartridge, or the state |
| `SaveState.BoundToCartridge` | machine/SaveState.cpp:181-198 | a state loads for its own cartridge and not for one that differs within four bytes |
| `SaveStateLayout.HeaderLayout` | machine/SaveState.cpp:51-59 | the file begins with the five letters and, lowest byte first, version, core, cartridge hash, checksum mode and number of chunks |
| `SaveStateLayout.ChunkLayout` | machine/SaveState.cpp:61-74 | behind the chunks before it stand a chunk's size, its name filled with zeros to 32 bytes, and its data |
| `SaveStateLayout.TrailerLayout` | machine/SaveState.cpp:200-224 | with checksum mode one the file ends with the CRC-32 of all before it, otherwise with the last chunk |
| `SaveStateLayout.AcceptableSpelledOut` | machine/SaveState.cpp:105-160 | which states are stored and read back, in numbers |
| `SaveStateLayout.RefusedUnread` | machine/SaveState.cpp:98-108 | a file without its five letters, or too short for its header, is refused as such |
| `SaveStateLayout.RefusedBeforeChunks` | machine/SaveState.cpp:98-136 | which error a file is refused with before its first chunk is read, from the words it holds and its size |
| `PngFilter.PaethIsNearest` | machine/PngDecode.cpp:27-40 | the predictor is the neighbour nearest to left + up - upLeft, ties going to left, then up |
| `PngFilter.RowRecovered` | machine/PngDecode.cpp:146-174 | decoding undoes filtering of a row, for every filter |
| `PngFilter.LineRecovered` | machine/PngDecode.cpp:146-174 | filtering undoes decoding of a line, so a line stands for one row only |
| `PngFilter.ImageRecovered` | machine/PngDecode.cpp:139-175 | for every image and choice of filters per row, decoding the filtered lines gives the image |
| `PngFilter.LinesRecovered` | machine/PngDecode.cpp:139-175 | every stream of lines is the filtered form of what it decodes to |
| `PngFilter.ReconstructRow` | machine/PngDecode.cpp:140-174 | the inner loop writes the unfiltered row behind the rows above it and disturbs none of them |
| `PngFilter.Reconstruct` | machine/PngDecode.cpp:138-175 | the in-place loops succeed exactly when all filter types are known, and then leave the decoded rows, every byte of which stands for its coded byte as section 6 of RFC 2083 says |
| `PngFilter.RowStands` | machine/PngDecode.cpp:146-174 | a decoded byte is the coded one plus, modulo 256, nothing, the left, the upper, the halved sum of both rounded down, or the nearest neighbour, by filter type |
| `PngFilter.ImageStands` | machine/PngDecode.cpp:139-175 | the same for every byte of a whole image, with zeros beyond its left and upper edge |
| `PngFilter.FilteringIsUndone` | machine/PngDecode.cpp:138-175 | on the filtered stream of any image the loops yield that image |
| `Png.Write` | machine/VisualCaptureWriter.cpp:190-258 | the writer's loops produce signature, header, compressed rows and end, or refuse empty resources |
| `Png.AppendChunk` | machine/VisualCaptureWriter.cpp:75-85 | a chunk is framed by its big-endian length and the CRC-32 of type and data |
| `Png.DecodePng` | machine/PngDecode.cpp:44-199 | the decoder's chunk walk and rendering give the decoding, error cases included |
| `Png.AssemblePixels` | machine/PngDecode.cpp:183-195 | each pixel is assembled from its own channels, opaque when there is no alpha |
| `Png.WrittenIsWalked` | machine/PngDecode.cpp:64-112 | in a written file the walk finds exactly the header and the compressed rows, or rejects the dimensions |
| `Png.RawIsStream` | machine/VisualCaptureWriter.cpp:216-228 | the writer's raw bytes are the unfiltered lines of the standard |
| `Png.PixelIsPainted` | machine/VisualCaptureWriter.cpp:219-227 | each pixel of the assembled rows has its resource's palette colour |
| `Png.CaptureRoundTrip` | machine/VisualCaptureWriter.cpp:190-258 | a written capture decodes if and only if both sides are at most 2048 and (4w+1)h at most 16 MiB, and then to the palette colours pixel by pixel |
| `Png.WrittenLayout` | machine/VisualCaptureWriter.cpp:229-258 | byte by byte: signature, the header chunk with width, height, eight bits and colour type six, the compressed rows, the end chunk, each with its length and CRC-32 in place |
| `Png.PaletteSpelledOut` | machine/VisualCaptureWriter.cpp:194-205 | the four shades of green |
| `Png.LargestSquareIsRejected` | machine/PngDecode.cpp:123-129 | a 2048 by 2048 capture is rejected by the inflated limit |
| `PngReading.ReadsAnyFile` | machine/PngDecode.cpp:44-199 | any file of chunks without a refused header gives the picture of its last header and of all its data chunks together, pixel by pixel, or the error of the first check that fails; other chunks, checksums, and whatever stands behind the end chunk do not matter |
| `PngReading.RefusesAnyFile` | machine/PngDecode.cpp:80-103 | the first header that is refused decides the error: its length, zero sides, sides above 2048, or its format |
| `PngReading.RefusesCutChunk` | machine/PngDecode.cpp:64-71 | a chunk that reaches beyond the file is refused |
| `PngReading.WalkPieces` | machine/PngDecode.cpp:64-112 | walking over chunks keeps the last header and gathers the data |
| `PngReading.FiltersSupported` | machine/PngDecode.cpp:169-171 | the rows are taken exactly when every line begins with one of the five filter types |
| `Json.JsonEscaped` | machine/VisualCaptureWriter.cpp:17-58 | the loop escapes byte by byte |
| `Json.EscapedIsPrintable` | machine/VisualCaptureWriter.cpp:45-52 | the escaped form holds no control byte |
| `Json.EscapedBack` | machine/VisualPackManifest.cpp:164-216 | reading an escaped string gives the original bytes and stops at its quote |
| `Json.StringRoundTrip` | machine/VisualPackManifest.cpp:56-65 | for every byte string, parsing the quoted escaped form as a document gives that string |
| `Json.EscapesAreScalars` | machine/VisualPackManifest.cpp:297-320 | every accepted escape is a Unicode scalar value whose appended bytes decode back to it |
| `Json.ScalarsHaveEscapes` | machine/VisualPackManifest.cpp:297-320 | every scalar value has an escape, a surrogate pair where needed, that is accepted as it |
| `Json.Utf8Back` | machine/VisualPackManifest.cpp:322-347 | the bytes appended for a scalar value are its shortest UTF-8 form |
| `Json.StringsStayWellFormed` | machine/VisualPackManifest.cpp:164-216 | from well-formed UTF-8 text only well-formed UTF-8 strings are made |
| `Json.Parser.ParseUnicodeEscape` | machine/VisualPackManifest.cpp:280-320 | accepts exactly single units and proper pairs, and moves past exactly those digits |
| `Json.Parser.ParseString` | machine/VisualPackManifest.cpp:164-216 | succeeds exactly on a string, with its bytes, and stops behind its quote |
| `Json.Parser.ParseNumber` | machine/VisualPackManifest.cpp:218-238 | takes the longest sign, digits, point and digits and asks the conversion about exactly those |
| `Json.Parser.ParseObject` | machine/VisualPackManifest.cpp:103-136 | reads the members in order, the first of two equal names staying, and stays within the text |
| `Json.Parser.ParseArray` | machine/VisualPackManifest.cpp:138-162 | reads the items in order and stays within the text |
| `Json.Parser.ParseValue` | machine/VisualPackManifest.cpp:68-101 | the recursive parser terminates, never leaves the text, and gives the value of the specification |
| `Json.Parser.Parse` | machine/VisualPackManifest.cpp:56-65 | a document is one value with nothing but white space around it |
| `Json.SkipsWhiteSpace` | machine/VisualPackManifest.cpp:240-245 | exactly the six white-space bytes of the C locale at the front are skipped |
| `Json.HexDigitsBothCases` | machine/VisualPackManifest.cpp:266-278 | hexadecimal digits are read in both cases, and nothing else is one |
| `Json.LiteralsSpelledOut` | machine/VisualPackManifest.cpp:68-101 | the literals, the quote, the backslash and the digits |
| `Json.EscapesOfTheStandard` | machine/VisualPackManifest.cpp:181-216 | the eight short escapes of section 7 of RFC 8259, and no others |
| `JsonDocuments.DocumentRoundTrip` | machine/VisualPackManifest.cpp:56-162 | every document, however deep and with whatever white space before its tokens, is read as what it means, equal names and empty lists included |
| `JsonDocuments.ReadableExactly` | machine/VisualPackManifest.cpp:56-162 | the values some document is read as are exactly those whose every number is one the scanner takes whole and the conversion accepts |
| `Timing.CyclesAreConserved` | machine/TimingService.cpp:200-251 | over every run with any control changes, what the clock granted and what unmetered charges overdrew equal budget, charges and discards |
| `Timing.PacingNeverDrifts` | machine/TimingService.cpp:200-251 | over every throttled run what was executed, each instruction counted as at least the minimum, plus discards, exceeds elapsed time times clock by at most the largest instruction less the minimum, and falls behind by at most the catch-up cap |
| `Timing.ChargedIsExecuted` | machine/TimingService.cpp:238-251 | the engine's account of what was charged is what the run executed |
| `Timing.ChargeTakes` | machine/TimingService.cpp:238-251 | a metered charge takes the larger of minimum and retired cycles off the budget; an unmetered one stops at zero |
| `Timing.UpdateGrants` | machine/TimingService.cpp:200-225 | an update adds elapsed time times clock and discards exactly what exceeds the cap; paused it adds nothing |
| `Timing.ControlApplies` | machine/TimingService.cpp:171-186 | new controls keep the budget and set the clock; a speed that is not positive counts as one |
| `Timing.ExecutesWhenAllowed` | machine/TimingService.cpp:227-251 | a paused engine executes once per step asked for, an unthrottled one always, a throttled one with a minimum in hand |
| `Timing.WakeIsBounded` | machine/TimingService.cpp:313-336 | the batch wake lies between now and one interval later |
| `Timing.WakesWhenDue` | machine/TimingService.cpp:313-336 | the wake is now while there is work, an interval later while there is none, otherwise when the budget is filled, kept between the two |
| `Timing.BatchIsFull` | machine/TimingService.cpp:319-335 | when the batch is due the budget holds an interval's cycles, or what catching up allows if less, and at least one instruction |
| `Timing.DelayFills` | machine/TimingService.cpp:324-329 | the delay is the least whole number of nanoseconds that fills the budget to its target |
| `Timing.WakingEnables` | machine/TimingService.cpp:313-336 | updating at an uncapped wake, or later, always lets an instruction execute |
| `Timing.WakingOnTimeKeepsCycles` | machine/TimingService.cpp:324-335 | waking when due discards less than one nanosecond's worth of cycles |
| `VisualKeys.KeysTellApart` | machine/VisualOverrideService.cpp:691-706 | descriptors that share a key are equal, all fifteen fields, if and only if machine, label and palette register hold equally many separators each |
| `VisualKeys.KeysAreUnique` | machine/VisualOverrideService.cpp:691-706 | without separators in the three texts, equal keys mean equal descriptors |
| `VisualOverrides.BestIsUnique` | machine/VisualOverrideService.cpp:296-303 | at most one rule is beaten by none and beats all earlier ones |
| `VisualOverrides.BestIsMaximal` | machine/VisualOverrideService.cpp:296-303 | the best rule is maximal in specificity, then pack priority, then lowest order, then first position |
| `VisualOverrides.MatchesExactly` | machine/VisualOverrideService.cpp:708-757 | a rule matches exactly the descriptors of its kind that agree with every field it names, and only if it names a content, source or palette-aware hash |
| `VisualOverrides.TargetsExactly` | machine/VisualOverrideService.cpp:24-30 | a pack is for the machines it lists, else for the one it names, else for all |
| `VisualOverrides.ScanPack` | machine/VisualOverrideService.cpp:289-304 | the loop over one pack keeps the best so far |
| `VisualOverrides.Scan` | machine/VisualOverrideService.cpp:282-306 | the scan finds nothing exactly when nothing matches, and otherwise the best rule by specificity, priority, order and position |
| `VisualService.SumWithout` | machine/VisualOverrideService.cpp:962-963 | the byte total loses exactly the bytes of the image removed |
| `VisualService.Oldest` | machine/VisualOverrideService.cpp:953-958 | the victim is the least recently used image, and there is one unless the cache is empty |
| `VisualService.EvictFor` | machine/VisualOverrideService.cpp:947-967 | fails exactly for a request above the limit; otherwise it makes room, evicts only images older than all kept, and none in vain |
| `VisualService.Insert` | machine/VisualOverrideService.cpp:889-900 | an image within the limit is always cached, and the byte counter stays the sum of the entries |
| `VisualService.ReloadJob` | machine/VisualOverrideService.cpp:177-204 | rereads the packs whose stamps moved, fails as a whole if one does not parse, keeps paths and order |
| `VisualService.RereadsWhatMoved` | machine/VisualOverrideService.cpp:177-204 | a pack whose stamp stands is kept; one that moved becomes what its manifest now says under the same path, or fails |
| `VisualService.AnswersAreOwnExactly` | machine/VisualOverrideService.cpp:273-280 | a remembered answer is for the descriptor at hand if and only if the first asker under its key has equally many separators, text by text |
| `VisualService.BarlessAnswersAreOwn` | machine/VisualOverrideService.cpp:273-280 | without separators every remembered answer is for the descriptor at hand |
| `VisualService.MemoIsRightExactly` | machine/VisualOverrideService.cpp:273-306 | of two descriptors that share a key, the first one's choice is the second one's too under every set of packs, if and only if they have equally many separators, text by text |
| `VisualService.ShiftsShareTheirKey` | machine/VisualOverrideService.cpp:691-706 | a separator in label and palette register lets descriptors differing in five fields share a key |
| `VisualService.SeparatorsConfuseTheMemo` | machine/VisualOverrideService.cpp:273-280 | such a pair shares its key, and some packs give the first a replacement that a fresh scan does not give the second |
| `VisualService.MachineAndLabelShareTheirKey` | machine/VisualOverrideService.cpp:691-706 | so does a pair that moves kind, size and format between machine and label |
| `VisualService.Service.Resolve` | machine/VisualOverrideService.cpp:267-341 | from memory or by scan, the choice is the fresh best rule for whoever first asked under this key; with equally many separators it is what a fresh scan gives the descriptor at hand |
| `VisualService.Run` | machine/VisualOverrideService.cpp:84-341 | over every run of questions, loads, reload requests, polls and reloads in which no two descriptors share a key with different separators, every answer is that of a fresh scan of the packs of that moment, and the packs evolve as specified |
| `VisualService.Service.LoadImage` | machine/VisualOverrideService.cpp:847-935 | a hit returns the cached image and makes it the newest; otherwise exactly a decode of at most 64 MiB is returned and cached, at once without a background decoder, else only if it was submitted under the current generation; over any run whatever is evicted was last asked for before everything kept |
| `VisualService.Service.LoadPack` | machine/VisualOverrideService.cpp:84-99 | a manifest that does not parse changes nothing; otherwise the pack goes last, the generation moves on and every cache is emptied |
| `VisualService.Service.RequestReload` | machine/VisualOverrideService.cpp:165-211 | accepted exactly when packs exist, no reload is pending and the task was queued |
| `VisualService.Service.PollReload` | machine/VisualOverrideService.cpp:213-246 | a reload still running changes nothing; one that ended is taken over exactly when no pack was loaded meanwhile, a stamp moved and all parse; then every moved pack is reread, the generation moves on and every cache is emptied; no pack is ever lost |
| `VisualService.Service.ReloadChanged` | machine/VisualOverrideService.cpp:101-163 | all packs are reread or none, and none is lost |
| `TraceQueues.WrappedDifference` | machine/FixedSpscQueue.hpp:18 | the difference of wrapped counters is the true one, and wrapped counters are equal exactly when the true ones are |
| `TraceQueues.RingStepKeepsInv` | machine/FixedSpscQueue.hpp:16-29 | every atomic step of either lane keeps the ring, wherever the counters stand |
| `TraceQueues.RefusedWhenFull` | machine/FixedSpscQueue.hpp:18 | a push is refused exactly when a capacity of values is unread |
| `TraceQueues.EmptyWhenDrained` | machine/FixedSpscQueue.hpp:25 | a pop is empty exactly when all pushed values were popped |
| `TraceQueues.LanesTouchDifferentSlots` | machine/FixedSpscQueue.hpp:19-26 | the slot being written is never the one being read |
| `TraceQueues.FirstInFirstOut` | machine/FixedSpscQueue.hpp:16-29 | popped is a prefix of pushed, at most a capacity behind, in every interleaving from any counter values |
| `TraceQueues.FixedSpscQueue.Push` | machine/FixedSpscQueue.hpp:16-22 | refused, changing nothing, exactly when full; otherwise the value goes last |
| `TraceQueues.FixedSpscQueue.Pop` | machine/FixedSpscQueue.hpp:23-29 | the oldest unread value, or nothing exactly when there is none |
| `TraceQueues.CapturedWithoutGaps` | space/Capture.hpp:89-117 | popped records are a gap-free prefix of those offered; at most one loss; with the flag down nothing is missing |
| `TraceQueues.LossIsFinal` | space/Capture.hpp:89-117 | from a loss or a stop on, no run accepts another record or counts another loss, and what was accepted can still be popped |
| `TraceQueues.BudgetIsNeverExceeded` | space/Capture.hpp:47-54 | under any race, spurious failures included, the counter is what is granted and not released, and stays within the maximum |
| `TraceQueues.RefusedExactly` | space/Capture.hpp:47-54 | over every run a reservation is refused exactly when it did not fit beside the counter it saw; one that fits an unchanged counter is granted in full, any other looks again |

## Left out

- Instruction, dependency and routine identifiers are numbers instead of strings, and set and map iteration takes any order; the order in which the JSON lists things is not modelled.
- The analyser's byte budget (`Exhausted` empties the result), hardware roles, findings, the choice of entries, the supplier and copy rules that build the ancestry map, and the document shape.
- `LoopAnalysis.FindLoops`: the repetition counts and the transfers attached to a loop are not modelled.
- `Provenance.Trace`: which dependencies read hardware is a parameter.
- `IrValidator.Validate`: guards and opcodes of unknown numeric kind cannot be written in the model, so those two rejections are missing.
- `IrBuilder.BlockBuilder.EmitValue`: the value counter does not wrap at 2^32, and the block's exit kind and interrupt flag are not kept.
- `IrInterpreter.Interpreter.Execute`: the host is any function from the calls so far to the next reply and never throws; an exception from a host is not modelled.
- `IrService.Service.Prepare`: the answers of the core and state adapters are parameters, and an adapter that throws answers no; messages are not kept.
- `IrService.Service.TryExecute`: only the portable backend; native code is not part of this model.
- `BlockCache.Cache.AdjustActivePages`: page counters are unbounded where the source has 32 bits, and statistics counters are left out.
- `BlockCoherence.EveryHitIsCoherent`: it promises bytes only for guarded blocks and for translations handed bytes that are still right; the lemmas under "Results that differ" show why and exactly when. A write carries the byte it leaves behind, so writes that memory drops or masks are included; longer writes are several. Opcode tables and the byte and instruction limits of a translation appear as the lengths it is given.
- `loadProgram`, which fills a store the machine does not use, and memory replaced by restoring a state, which voids the cache as a remap does.
- The audio engine, the output pipeline and sample values: blocks have identities and lengths only. Configuring the ring is initialisation, and playback liveness under priming is not claimed.
- `AudioTransport.ReadyRingProtocol`: atomics are sequentially consistent steps; the weaker orderings of the source are not modelled.
- `ThreadPool.TasksAreConserved`: one start per run, one canceller and one shutting-down thread; emptying one deque is one step. Waiting, waking, categories and timings are left out.
- `SaveState.Write`: the temporary file, the rename and I/O failures.
- `Png.CaptureRoundTrip`: zlib is a pair of functions of which inflating undoes deflating on the rows at hand.
- `Json.Parser.ParseNumber`: a number keeps its literal, and whether the C library converts it is a parameter; floating-point values are not modelled. Stack depth is unbounded.
- The manifest reader behind the JSON parser (field types, rule specificity, path checks).
- `Timing.PacingNeverDrifts`: exact arithmetic instead of doubles, whole nanoseconds, and a minimum instruction charge that is not negative; execution slices, sleep heuristics and statistics are left out.
- `VisualService.Service.LoadImage`: file sizes, unreadable files and animation groups are part of a failed decode; use counters and generations do not wrap.
- `VisualService.Service.PollReload`: capture completions polled by the same call, warnings and diagnostics counters.
- `TraceQueues.CapturedWithoutGaps`: the watchpoint, origin classification and lane ownership test of a push; memory orderings are sequentially consistent.
- Emulator entry point, configuration, frontends, plugins, the processor cores, video engine and mailbox, and the machine lifecycle coordinator.
