# nvllm, modelled in Dafny

This project models the parts of the repository whose correctness is hardest to see from the
code, and proves what they are for. `dafny verify dfyconfig.toml` checks everything.

| files | what they model |
|---|---|
| `GraphPartition`, `PartitionRun`, `PartitionExamples`, `MemoryPlan` | the backward pass that gives every compiled graph partition its inputs, outputs and deallocations, an execution of the partitions under those signatures, and the memory planning pass |
| `CumemChunks`, `CumemState`, `CumemRuns`, `CumemDevice`, `CumemAllocator` | the chunked (ROCm) form of the sleep-mode allocator: sizes with 64-bit wrap-around, the device, runs of malloc, free, sleep and wake, and the C++ code over a driver that may refuse any call |
| `BlessFiles`, `BlessProtocol`, `BlessBlocked`, `BlessEvidence`, `BlessExact`, `BlessHost` | the rename protocol that promotes a cache and its manifest or keeps a rejected cache as evidence, over any sequence of runs, each cut off after any file operation |
| `BuildSweep`, `BuildTimes`, `NinjaLog` | the event sweep that shares build time among parallel steps, and the log reader before it |
| `FlatLogprobs`, `PyLists`, `Options` | log probabilities in flat lists against a plain list of dictionaries |
| `BadWords` | the bad-word filter, per step and over whole generations |
| `DpChunks` | lockstep chunking across data-parallel ranks |
| `Int8Quant` | the error bound of per-token quantization |
| `IndexRanges` | the printer of layer index ranges, with a reader for what it prints |

Code that updates things step by step is written as methods and classes, proved against
specification functions; the main theorems are lemmas about those functions. The allocator is a
class over a `Device` object whose calls fail at will; a ghost counter, `faults`, counts the clean-up
calls (unmap, release, address free) that the driver refused although they were legal, so that
"nothing leaks" can be stated exactly, and `denials` the calls for memory, addresses or access that it
refused although they were legal, so that success can be stated too. The device also knows which mapped ranges are accessible:
giving access needs a range that is mapped throughout, and unmapping takes access away.

## What the proofs turned up

Where the code and its own comments or documentation disagree, the model follows the code.

- `is_none_layout` documents that a buffer without storage is never a partition input. The inputs are
  filtered before the freed names are added, and before aliases become real names, so such a buffer can
  be an input (`StoragelessInputs` says exactly when). A partition that frees one that it did not produce
  asks for something no one can hand it: the partitioned run goes through exactly when no partition does
  (`PartitionedRunIsCorrect`), and `StoragelessRunFails` is a graph of two nodes on which it does not.
- A graph output that is a mutation alias is returned under its real name and never crossed off the
  unmet names (`LeftoverUnmet`, with an example in `AliasIsLeftOver`). No other produced name is left over.
- The overflow guard of the configured chunk size leaves room for values that round up to a chunk
  size of zero, and then the chunk count divides by zero (`ChunkCanRoundToZero`). The chunk count itself can
  wrap, which gives no chunks (`ChunksSum` says exactly when). Then nothing is mapped, giving access
  fails and malloc returns a null pointer, so a pointer from malloc always has its chunks (`MyMalloc`).
- `error_code` is sticky. Entered with an old error, `create_and_map` takes its first created chunk for
  a failure and keeps that chunk's new handle live, so handles leak exactly when the driver created one
  (`CreateAndMap`, `PythonCreateAndMap`).
- Freeing an allocation that sleeps releases the handle values it had when it was awake (`MyFree`). If the
  driver has given one of them to another allocation since, that one loses its memory; nothing in the
  code rules that out (`SleeperCanShareHandle`). Device memory stays in order exactly when that has not
  happened (`SleeperFreedIsSafe`).
- A failing `cuMemSetAccess` is not rolled back and leaves the chunks mapped but inaccessible, a failing callback leaks the reservation, and a malloc
  that could not map leaves its table entry behind (`MyMalloc`).
- `my_free` gives the address back exactly when the caller's size is the reserved one, that is, when it
  is a multiple of the granularity (`MyFree`, `ReservedIsAskedFor`).
- The comment that the last manifest write is atomic does not hold: writing truncates first. A run cut
  there tears the installed manifest, and that is the only way anything promoted is ever damaged
  (`NothingPromotedIsLost`, with an example in `OneCutTears`). Renames are atomic, as POSIX.1-2017 requires of `rename`.
- A config can be blessed again exactly when no earlier event has stuck it (`CanBeBlessedAgain`). Four things
  do: a re-bless cut after promoting the new cache and before archiving the old one (`OneCutBlocks`); a
  re-bless, even a complete one, after one that was cut between setting the old cache aside and
  promoting the new one (`CompleteRunBlocks`); the cut that tears the manifest (`OneCutTears`); and a
  first bless cut between its two renames (`OneCutOfFirstBlessSticks`). From then on every run is refused
  or stops before it changes anything promoted, whatever leftovers are removed.
- `ReadTargets` documents a result sorted by duration; the code returns the order of first records.
- The comment on the build-time warning says half a second; the code compares with 500 seconds. The
  warning is not part of the model, but `Summarize` says when the two sums it compares are equal.
- A slice of `FlatLogprobs` with a negative step loses its items; `SliceIsListSlice` says exactly when
  that is harmless, and `ReversedLosesItems` shows two positions where it is not. An empty slice raises instead of being empty.
- Quantized values survive the cast to eight bits exactly when there are eight bits or fewer
  (`CastIsExact`).

## Model

| member | source | states |
|---|---|---|
| GraphPartition.IsNoneLayout | vllm/env_override.py:209-227 | a mutation output without a layout is without storage exactly when the buffer behind it lacks a layout; any other name exactly when it lacks one itself |
| GraphPartition.UnionOfOutputs | vllm/env_override.py:232-235 | the loop collects exactly the names that nodes of the partition produce |
| GraphPartition.UnionOfLastUsage | vllm/env_override.py:262-264 | the loop collects exactly the names that nodes of the partition use last |
| GraphPartition.SignatureStep | vllm/env_override.py:229-328 | one turn of the loop gives the partition's signature and the unmet names for the partition before it, and a returned name lacks a node exactly when the lookup would raise |
| GraphPartition.CollectBackwards | vllm/env_override.py:229-328 | going from last to first, every signature is the one with respect to the needs of all later partitions; the pass stops exactly when some lookup raises |
| GraphPartition.ComputeSignatures | vllm/env_override.py:229-330 | the result is in forward order, flags are paired with partitions from the end and each signature carries its partition's flag, and KeyError comes exactly when an allocated name to return has no node |
| PartitionRun.PartitionedRunIsCorrect | vllm/env_override.py:206-330 | for every well-formed graph, split and kernel: the partitioned run goes through exactly when no partition frees a buffer without storage that it did not produce; then every allocated graph output is there at the end, all values are those of the unpartitioned run, and nothing freed is still held |
| PartitionRun.PartitionsAgree | vllm/env_override.py:229-330 | from any point between two partitions the remaining ones run through under that same condition, and then keep the invariant: agreement with the whole-graph run, nothing freed or without storage, everything unmet present |
| PartitionRun.PartitionAgrees | vllm/env_override.py:237-328 | one partition call under its signature, its constants included, runs through and keeps that invariant when every buffer that it frees from elsewhere has storage |
| PartitionRun.PartitionFails | vllm/env_override.py:269-279 | otherwise it cannot be handed all its inputs and fails |
| PartitionRun.ConstantsAreVisible | vllm/env_override.py:309-311 | the constants in a partition's signature are all that its nodes need |
| PartitionRun.ConstantsAreExact | vllm/env_override.py:309-311 | they are exactly the constants with a layout that its nodes read or write |
| PartitionRun.WholeRunSucceeds | vllm/env_override.py:206-207 | the unpartitioned run of a well-formed graph never misses an operand |
| PartitionRun.BodyAgrees | vllm/env_override.py:239-285 | inside a partition every operand is present although only the inputs were moved in and storage is dropped after its last use, and the final store holds exactly inputs and stores less what was freed |
| PartitionRun.OperandIsThere | vllm/env_override.py:239-274 | every operand of the next node is a constant, or came in or was stored, and is not yet freed |
| PartitionRun.InputsAreOlder | vllm/env_override.py:241-274 | an input is a real name or a constant, existed before the partition, some node of the partition mentions it, and it is without storage only if the partition frees it without having produced it |
| PartitionRun.StoresAreNewOrInputs | vllm/env_override.py:258-260 | whatever a partition stores to, through any alias, is storage it produced or took in |
| PartitionRun.NeededIsHandedOn | vllm/env_override.py:287-301 | storage needed later is exported by the partition or was never moved into it |
| PartitionRun.OutputIsKept | vllm/env_override.py:291-307 | every output came in or was stored by the partition, and the partition did not free it |
| PartitionRun.OutputIsWanted | vllm/env_override.py:237-301 | nothing is handed out without need: an output came in and is handed on, or is behind a name that the partition produced and that the graph returns or a later partition takes in |
| PartitionRun.FreedIsMet | vllm/env_override.py:326-328 | freed storage is not behind any name that is still unmet |
| PartitionRun.SignaturesNeverRaise | vllm/env_override.py:303-307 | on a well-formed graph the lookup of the nodes to return never raises |
| PartitionRun.DeallocatedIsGone | vllm/env_override.py:281-285 | no partition receives a name that an earlier partition deallocated |
| PartitionRun.InputIsHandedOnUnlessFreed | vllm/env_override.py:287-297 | an input is an output too exactly when the partition does not deallocate it |
| PartitionRun.LeftoverUnmet | vllm/env_override.py:326-328 | a produced name is still unmet before the first partition exactly when it is a graph output and a mutation alias |
| PartitionRun.StoragelessInputs | vllm/env_override.py:209-213 | a buffer without storage is never an output, and is an input exactly when the partition frees it without having produced it or touches it under an alias that has storage |
| PartitionRun.MutatedBufferIsInput | vllm/env_override.py:216-256 | a partition that touches a mutation output without a layout takes in the buffer behind it |
| PartitionExamples.SampleInputs | vllm/env_override.py:216-256 | in the example graph the partition that only reads the mutation output has the mutated buffer as its one input |
| PartitionExamples.StoragelessRunFails | vllm/env_override.py:269-274 | a well-formed graph of two nodes whose run fails when they are in two partitions, and goes through in one |
| PartitionExamples.AliasIsLeftOver | vllm/env_override.py:299-301 | a well-formed graph whose output is an alias that a partition produces and that is still unmet at the end |
| PartitionExamples.SampleIsWellFormed | vllm/env_override.py:206-227 | the theorems above are about something: a graph with a mutation output that has no layout and with a freed buffer is well-formed |
| MemoryPlan.Wrapper.DropPointless | vllm/env_override.py:160-166 | a prefix remains, everything dropped was a planning line for no output, and the last remaining line is not |
| MemoryPlan.Wrapper.PlanLines | vllm/env_override.py:169-180 | the pass succeeds exactly when subgraphs are properly nested, and then each planning line is planned with the state built by the earlier lines of its own subgraph and no others; when it fails, the lines before the first one that lacks a state are planned and the others are as they were |
| MemoryPlan.Wrapper.MemoryPlanReuse | vllm/env_override.py:124-180 | both together: success depends on nesting alone, and the kept lines are planned as if the dropped ones had never been there |
| MemoryPlan.OwnerIsUnique | vllm/env_override.py:175-178 | at every line one subgraph is the innermost open one |
| MemoryPlan.StartsEmpty | vllm/env_override.py:175-176 | a subgraph starts with an empty planning state |
| MemoryPlan.TrimmedIsNested | vllm/env_override.py:160-166 | dropping planning lines from the end does not change whether the lines are nested |
| CumemChunks.ConfiguredChunk | csrc/cumem_allocator.cpp:24-42 | a positive number of megabytes that fits 64 bits is used, and otherwise the default; the size is positive, fits 64 bits and is a whole number of megabytes |
| CumemChunks.AlignUpIsExact | csrc/cumem_allocator.cpp:341 | rounding up gives the next multiple of the granularity when the sum fits 64 bits, and zero when it wraps |
| CumemChunks.ChunkCanRoundToZero | csrc/cumem_allocator.cpp:36-41 | a configured size that passes the guard rounds to chunk size zero at a granularity of 2 MB |
| CumemChunks.FillChunks | csrc/cumem_allocator.cpp:369-391 | the loop fills in the chunk sizes that the lemmas below are about |
| CumemChunks.ChunksSum | csrc/cumem_allocator.cpp:369-391 | the chunks add up to the aligned size exactly when the rounding of the chunk count does not wrap |
| CumemChunks.ChunksFit | csrc/cumem_allocator.cpp:369-391 | the chunks never exceed the aligned size, and fall short of it exactly when there are none because their count wraps |
| CumemChunks.ChunksAreAligned | csrc/cumem_allocator.cpp:362-391 | every chunk is a positive multiple of the granularity and no larger than the chunk size |
| CumemChunks.ChunkOffset | csrc/cumem_allocator.cpp:160-179 | the running offset at chunk i is i full chunks |
| CumemState.ChunksAreDisjoint | csrc/cumem_allocator.cpp:160-179 | different chunks occupy disjoint ranges inside the allocation |
| CumemState.ChunkOf | csrc/cumem_allocator.cpp:160-179 | every address of the allocation lies in one of its chunks, so the chunks leave no gap |
| CumemRuns.RunsAreSafe | csrc/cumem_allocator.cpp:95-560 | over every run of malloc, free, sleep and wake: mapped ranges are pairwise disjoint and inside reservations, each live handle is mapped exactly once, and live physical memory is the total of the aligned sizes of the awake allocations, none when all sleep |
| CumemRuns.StepKeepsInv | csrc/cumem_allocator.cpp:321-560 | each step keeps the invariant behind that |
| CumemRuns.AsleepHoldsNothing | csrc/cumem_allocator.cpp:216-259 | asleep, an allocation has no live handle and no mapped range meets its addresses, while its reservation stays |
| CumemRuns.SleepThenWake | csrc/cumem_allocator.cpp:588-751 | sleep and then wake restores the same mapped ranges at the same addresses, with new handles for this allocation only |
| CumemRuns.SleeperCanShareHandle | csrc/cumem_allocator.cpp:228-233 | while an allocation sleeps, malloc may get a handle value that it still remembers |
| CumemDevice.Device.MemSetAccess | csrc/cumem_allocator.cpp:182-187 | success needs every address of the range mapped, and makes exactly the mapped ranges inside it accessible as well |
| CumemDevice.Device.UnmapEach | csrc/cumem_allocator.cpp:216-226 | all chunks are tried; no error means all are unmapped, and legal calls without a driver fault give no error; access is lost exactly where a mapping is |
| CumemDevice.Device.ReleaseEach | csrc/cumem_allocator.cpp:228-233 | the same for releasing handles |
| CumemAllocator.Allocator.CreateHandles | csrc/cumem_allocator.cpp:150-159 | one new handle per chunk, or from a clean start none, and then only because the driver denied one; from an old error it fails, and one new handle for the first chunk stays live exactly when the driver created it |
| CumemAllocator.Allocator.RollBackMaps | csrc/cumem_allocator.cpp:164-177 | without a driver fault the roll-back restores handles and mapped ranges as they were before the call |
| CumemAllocator.Allocator.MapEach | csrc/cumem_allocator.cpp:160-179 | the first n chunks are mapped one after another from the base address, and n is short exactly of the chunk that failed, which the driver denied or which could not legally be mapped |
| CumemAllocator.Allocator.MapChunks | csrc/cumem_allocator.cpp:160-179 | all chunks are mapped, always so if the range is free and the driver denies nothing, or without a driver fault the device is as it was before the handles were created |
| CumemAllocator.Allocator.CreateAndMap | csrc/cumem_allocator.cpp:95-193 | success from a clean start whenever the range is free, the chunks fill it and the driver denies nothing; all or nothing for a create or map failure at any chunk, from a clean start; afterwards the whole range is mapped and every chunk accessible, and a failure gives access to nothing; a failure to set access rights leaves everything mapped; from an old error it fails and leaks the first chunk's new handle, if the driver created one |
| CumemAllocator.Allocator.UnmapAndRelease | csrc/cumem_allocator.cpp:195-261 | handles and mapped ranges are gone unless the outcome is a failure, and the address is then reserved again, lost, or moved and given back; a legal call without driver fault fails exactly when the address cannot be freed with the passed size; if every mapped range was accessible, those that remain are |
| CumemAllocator.Allocator.PythonUnmapAndRelease | csrc/cumem_allocator.cpp:588-684 | a sleep that does not raise is a sleep step; for an awake allocation without driver fault all that can go wrong is losing the address, and no other is lost or gained; errors are raised and cleared; access to every mapped range is kept |
| CumemAllocator.Allocator.PythonCreateAndMap | csrc/cumem_allocator.cpp:686-751 | from a clean start a sleeping allocation wakes whenever the driver denies nothing; a wake that does not raise is a wake step that leaves every chunk, and every mapped range, accessible; one that raises gives access to nothing; one that raises from a clean start changes nothing on the device unless only the access rights failed; handle cells that were not filled keep their values; from an old error it raises and leaks the first chunk's new handle, if the driver created one |
| CumemAllocator.Allocator.MapNew | csrc/cumem_allocator.cpp:412-446 | a new allocation is registered and mapped, or without driver fault its address is freed again, with the registration left behind |
| CumemAllocator.Allocator.ReserveAligned | csrc/cumem_allocator.cpp:334-353 | the rounded size is reserved apart from all other reservations, or nothing changes |
| CumemAllocator.Allocator.MyMalloc | csrc/cumem_allocator.cpp:321-449 | in a reachable state, from a clean start and if the driver denies nothing, success exactly when no rounding of sizes comes to zero or wraps; success in a reachable state is a malloc step; every chunk behind the pointer is accessible, access to every mapped range is kept, and a failure gives access to nothing; a failing callback leaks a new reservation; a failure after it leaves a table entry for a new address, over an unchanged device, or with address, handles and mappings all leaked if only the access rights failed; division by zero exactly when rounding the chunk size wraps, once the address is reserved; an old error makes every malloc fail |
| CumemAllocator.Allocator.MyFree | csrc/cumem_allocator.cpp:452-560 | an unknown pointer changes nothing; without driver fault an allocation in place gives back all memory, and its address exactly when the caller's size is the reserved one; one with nothing mapped gives back its address in the same case and has its remembered handle values released; without any error it is a free step; access to every mapped range is kept |
| CumemAllocator.AwakeOrAddressOnly | csrc/cumem_allocator.cpp:452-560 | in every reachable state an awake allocation is in place and a sleeping one has its address only |
| CumemAllocator.AccessibleExactlyAwake | csrc/cumem_allocator.cpp:182-226 | with access to every mapped range, an address of an allocation is accessible exactly while the allocation is awake |
| CumemAllocator.SleeperFreedIsSafe | csrc/cumem_allocator.cpp:228-233 | freeing a sleeping allocation leaves device memory in order exactly when no handle value that it remembers is in use |
| CumemAllocator.AwakeCanBeGivenBack | csrc/cumem_allocator.cpp:216-241 | for an awake allocation every unmap, release and address free is legal |
| CumemAllocator.MallocIsStep | csrc/cumem_allocator.cpp:321-449 | reserving, registering and backing an allocation is an enabled malloc step of the run model |
| CumemAllocator.ReservedIsAskedFor | csrc/cumem_allocator.cpp:341 | the reserved size is the size asked for exactly when that is a multiple of the granularity |
| BlessProtocol.NothingPromotedIsLost | scripts/bless_cute_full_cache.py:953-1025 | after any sequence of runs cut off anywhere, everything ever promoted survives whole in exactly one place, except a manifest torn by a run that was cut while rewriting it |
| BlessProtocol.PromotedSurvives | scripts/bless_cute_full_cache.py:953-1025 | whatever is in a canonical place after some events survives whatever comes later, with that one exception |
| BlessProtocol.ActiveIsRecoverable | scripts/bless_cute_full_cache.py:852-855 | at every such point the active manifest's cache is in place or one rename away, a manifest set aside has its cache set aside, and archived pairs belong together |
| BlessProtocol.EventIsFine | scripts/bless_cute_full_cache.py:93-238 | one run or clean-up loses nothing and keeps the cross-run invariant, tears the manifest exactly in that one window, and blocks the config exactly when it strands a cache; it changes nothing promoted in a blocked one |
| BlessProtocol.ReblessIsFine | scripts/bless_cute_full_cache.py:953-1025 | a re-bless cut after any command is in order; if not cut it installs the new pair, unless leftovers or a cache set aside are in the way, and then it changes nothing promoted; which cuts leave the config blocked |
| BlessProtocol.FirstAcceptIsFine | scripts/bless_cute_full_cache.py:953-997 | a first bless never tears anything; if not refused and not cut it installs the pair |
| BlessProtocol.RejectIsExact | scripts/bless_cute_full_cache.py:1038-1047 | a rejected run moves its staged cache to its evidence path and changes nothing else; cut before the rename, or with that path taken, the cache stays in staging |
| BlessProtocol.RejectIsFine | scripts/bless_cute_full_cache.py:1038-1047 | a rejected run touches nothing promoted and keeps the cross-run invariant |
| BlessEvidence.EvidenceAfter | scripts/bless_cute_full_cache.py:1042-1047 | evidence appears exactly by a rejected run that is not cut, holds that run's staged cache, and no event changes evidence that is there |
| BlessEvidence.RejectedIsKept | scripts/bless_cute_full_cache.py:1038-1047 | over every sequence of events: a rejected run that is not cut leaves staging free and its cache as evidence, and nothing later touches it; cut, it leaves the cache in staging |
| BlessProtocol.ManifestAside | scripts/bless_cute_full_cache.py:990-992 | setting the old manifest aside never replaces another one, because a manifest set aside implies a cache set aside |
| BlessExact.RefusedIsExact | scripts/bless_cute_full_cache.py:953-973 | a run that finds leftovers, or a pair that it must not replace, changes nothing but staging |
| BlessExact.FirstBlessIsExact | scripts/bless_cute_full_cache.py:974-997 | a first bless that is not cut installs its cache and manifest, empties staging and changes nothing else |
| BlessExact.ReblessIsExact | scripts/bless_cute_full_cache.py:974-1025 | a re-bless that is neither cut nor blocked installs its pair with the manifest marked, archives the old pair under its own number, empties staging and changes nothing else |
| BlessBlocked.CanBeBlessedAgain | scripts/bless_cute_full_cache.py:93-1025 | after any runs and clean-ups, each cut off anywhere, removing leftovers and re-blessing installs a new pair exactly when no event so far has stuck the config; once one has, nothing promoted ever changes again |
| BlessBlocked.StuckNext | scripts/bless_cute_full_cache.py:953-1025 | one event leaves a config stuck exactly when it was stuck before or the event strands a cache, tears the manifest or cuts a first bless in two |
| BlessBlocked.InstallsUnlessStuck | scripts/bless_cute_full_cache.py:953-1025 | without leftovers a passing re-bless that is not cut installs its pair exactly when there are not two caches in place, no torn manifest and no cache without a manifest |
| BlessBlocked.StuckIsFrozen | scripts/bless_cute_full_cache.py:115-136 | no run and no clean-up changes anything promoted in a stuck config |
| BlessBlocked.OneCutOfFirstBlessSticks | scripts/bless_cute_full_cache.py:995-997 | one first bless cut between its two renames is enough |
| BlessBlocked.OneCutBlocks | scripts/bless_cute_full_cache.py:985-994 | one re-bless of an installed pair, cut after 5 to 8 commands, blocks it |
| BlessBlocked.CompleteRunBlocks | scripts/bless_cute_full_cache.py:985-1016 | after a cut between setting the old cache aside and promoting the new one, and the clean-up, a complete re-bless blocks the config |
| BlessBlocked.OneCutTears | scripts/bless_cute_full_cache.py:1021-1025 | one re-bless cut before its last command leaves the manifest that it installed torn, and no re-bless ever installs again |
| BlessHost.Host.WriteText | scripts/bless_cute_full_cache.py:975 | a text is truncated and then filled, and a cut can fall in between |
| BlessHost.Host.ArchiveOldFiles | scripts/bless_cute_full_cache.py:1001-1025 | the archive step does what the command list says, under every cut |
| BlessHost.Host.PromoteOverOld | scripts/bless_cute_full_cache.py:988-994 | the same for promoting over an older pair |
| BlessHost.Host.PromoteFirstTime | scripts/bless_cute_full_cache.py:995-997 | the same for a first promotion |
| BlessHost.Host.Accept | scripts/bless_cute_full_cache.py:953-1025 | the whole accept phase does what the plan for the current files says, under every cut and every refused rename |
| BlessHost.Host.Bless | scripts/bless_cute_full_cache.py:93-238 | a whole run does what the protocol model says, keeps the cross-run invariant and loses nothing; rejected, it leaves its staged cache as evidence and nothing else changed; evidence of earlier runs stays |
| BuildSweep.SortEvents | tools/report_build_time_ninja.py:223-228 | the events are a permutation sorted by time, starts before stops at the same time |
| BuildSweep.OpenIsRunning | tools/report_build_time_ninja.py:229-256 | between two events at different times, the started and not stopped steps are exactly those whose interval covers the gap |
| BuildSweep.WeightIsDifference | tools/report_build_time_ninja.py:240-253 | the growth of the accumulated share between a step's two events is the step's weight: the sum over time of its equal share |
| BuildSweep.WeightsAddUp | tools/report_build_time_ninja.py:221-256 | on every time grid the weights of all steps add up to the time during which some step runs |
| BuildSweep.HandleEvent | tools/report_build_time_ninja.py:245-254 | a stop finds its own step running, and the books are right after every event |
| BuildSweep.Sweep | tools/report_build_time_ninja.py:229-256 | the loop gives every step its weight, the running set it returns is empty, and the total is the busy time |
| BuildTimes.WeightBounds | tools/report_build_time_ninja.py:74-89 | a weighted duration is between zero and the duration |
| BuildTimes.BusyIsGridFree | tools/report_build_time_ninja.py:201-206 | the busy time does not depend on the grid it is measured on |
| BuildTimes.WeightIsGridFree | tools/report_build_time_ninja.py:201-206 | nor does a step's weight |
| BuildTimes.BusyIsLengthIffNoGap | tools/report_build_time_ninja.py:258-259 | the busy time is the whole length exactly when there is no idle gap |
| BuildTimes.GapsAreIdleMoments | tools/report_build_time_ninja.py:258-259 | no idle gap means that some step runs at every moment |
| BuildTimes.CollectEvents | tools/report_build_time_ninja.py:207-221 | two events per step, the earliest start, the latest end and the sum of durations |
| BuildTimes.Summarize | tools/report_build_time_ninja.py:207-256 | for every list of steps, simultaneous and zero-length ones included: the weights are right on every grid, within bounds, and add up to the busy time, which is the length exactly when some step runs at every moment; the total of the durations |
| NinjaLog.LastBuildIsGreedy | tools/report_build_time_ninja.py:114-143 | the last build is coherent, and it starts at a record that the build before it could not take |
| NinjaLog.SameBuild | tools/report_build_time_ninja.py:124-143 | the two tests of the code succeed exactly when the next record can be from the same build |
| NinjaLog.Keep | tools/report_build_time_ninja.py:124-143 | the targets are emptied exactly when the next record cannot be from the same build and not everything is shown |
| NinjaLog.AddRecord | tools/report_build_time_ninja.py:120-147 | one record keeps the targets a grouping of the records of the last build |
| NinjaLog.ReadTargets | tools/report_build_time_ninja.py:104-148 | the result groups by command exactly the well-formed records of the last build (or all), in order of first record, with its times and all names in order; a log of another version is refused |
| PyLists.AtCountsFromEnd | vllm/logprobs.py:110-120 | an index from -n to n - 1 finds an element, a negative one counted from the end, and any other raises |
| PyLists.CutIsSubsequence | vllm/logprobs.py:129-132 | a slice between two bounds is the stretch between their places, negative ones counted from the end and none beyond the ends, and empty when they are reversed |
| PyLists.ReversedSlice | vllm/logprobs.py:121-133 | a slice with only the step -1 is the list backwards |
| PyLists.TailIsRest | vllm/logprobs.py:121-133 | a slice without an end is the rest from its start |
| PyLists.StrideIsEveryKth | vllm/logprobs.py:121-133 | a slice with only a step k has the elements at 0, k, 2k, .. up to the end |
| FlatLogprobs.Container.Append | vllm/logprobs.py:63-72 | one more position with the given items, nothing else changed |
| FlatLogprobs.Container.AppendFast | vllm/logprobs.py:74-93 | the lists grow by the token ids, log probabilities, ranks and texts at each index, up to the end of the shortest argument; one more position spans them |
| FlatLogprobs.ItemsOfCall | vllm/logprobs.py:183-206 | item i of a call has the arguments' token, log probability and text at i and rank i, or the sampled one's for 0; it is there exactly when no list ends before it and it was asked for |
| FlatLogprobs.AppendedDenotes | vllm/logprobs.py:63-93 | appending a position appends its dictionary to the list that the container stands for |
| FlatLogprobs.Container.Extend | vllm/logprobs.py:95-98 | the dictionaries of all positions are appended in order |
| FlatLogprobs.Container.Iterate | vllm/logprobs.py:146-152 | iteration gives the list that the container stands for |
| FlatLogprobs.GetItemIsListItem | vllm/logprobs.py:110-120 | indexing is list indexing, negative and out-of-range indices included |
| FlatLogprobs.SliceIsListSlice | vllm/logprobs.py:121-133 | a slice with positive step is valid and stands for the list slice; IndexError exactly for an empty one; with negative step it acts as the list slice exactly when it has one position or no items |
| FlatLogprobs.ReversedLosesItems | vllm/logprobs.py:121-133 | for any two positions of one item, the reversed slice does not act as the reversed list |
| FlatLogprobs.LastItemWins | vllm/logprobs.py:113-120 | for a repeated token the entry of the last item counts |
| FlatLogprobs.FirstItemIsShadowed | vllm/logprobs.py:186-188 | the sampled token's own item is not seen when the token is also among the others |
| FlatLogprobs.RanksOfItems | vllm/logprobs.py:184-190 | the sampled token's rank comes first, then 1, 2, ..; asking for all cuts nothing off and asking for n keeps at most n + 1 |
| FlatLogprobs.AppendForNextPosition | vllm/logprobs.py:175-206 | whichever container the request has, one position is appended to what it stands for: it has exactly the tokens that the call reaches, each with the log probability, rank and text at the token's last index |
| FlatLogprobs.ContainersAgree | vllm/logprobs.py:175-206 | after every sequence of calls the flat container answers every index as the plain list does |
| BadWords.GeneratedIsClean | vllm/logits_process.py:56-87 | a generation that starts without bad words and picks only tokens above minus infinity never contains one |
| BadWords.CleanIsGenerated | vllm/logits_process.py:56-87 | where the model itself excludes nothing, every text without bad words can be generated |
| BadWords.CleanNext | vllm/logits_process.py:66-83 | one more token keeps a text free of bad words exactly when it completes none |
| BadWords.PrefixMatch | vllm/logits_process.py:70-80 | the prefix comparison and the last token together say that the word would be completed |
| BadWords.MarkWord | vllm/logits_process.py:70-83 | exactly the token that completes this word becomes minus infinity |
| BadWords.NoBadWords.CheckTokenIdsBounds | vllm/logits_process.py:106-121 | the complaint lists exactly the ids outside the vocabulary, and there is one exactly when some id is |
| BadWords.NoBadWords.InitWordBias | vllm/logits_process.py:89-104 | the bias marks exactly the one-token words; it stays unset exactly when an id is outside the vocabulary |
| BadWords.NoBadWords.LastTokenBias | vllm/logits_process.py:64-83 | the bias marks exactly the tokens that complete a longer word; an empty word raises |
| BadWords.NoBadWords.Process | vllm/logits_process.py:56-87 | a logit becomes minus infinity exactly when its token completes a bad word and is unchanged otherwise; ValueError and IndexError exactly for bad ids and empty words |
| DpChunks.CeilDivIsLeast | vllm/forward_context.py:65-67 | the share is the least that lets all ranks hold the tokens |
| DpChunks.ShareOf | vllm/forward_context.py:62-70 | rank k of group r gets the share of group r's tokens |
| DpChunks.SharesHoldAllTokens | vllm/forward_context.py:62-70 | the shares hold all tokens and waste less than one per rank |
| DpChunks.EveryTokenOnce | vllm/forward_context.py:82-87 | the first C chunks of a rank process each of its first limit * C tokens once, and after its last token one dummy token per chunk |
| DpChunks.ChunkedLocalSizes | vllm/forward_context.py:73-88 | every rank's size is between 1 and the limit, and is its number of tokens in this chunk, or one |
| DpChunks.CumulativeSumAt | vllm/forward_context.py:180-185 | entry i of the running totals is the sum of the shares of ranks 0 to i |
| DpChunks.CuTokensAt | vllm/forward_context.py:180-185 | the entry of rank k of group r is the shares of all ranks of earlier groups and k + 1 shares of group r |
| DpChunks.CuTokensTotal | vllm/forward_context.py:180-185 | the last total is at least the number of tokens and exceeds it by at most sp - 1 per data-parallel rank |
| Int8Quant.ErrorIsHalfAStep | vllm/_xpu_ops.py:112-137 | for every row, dequantizing gives an error of at most half the scale, symmetric (from 2 bits) and asymmetric (from 1 bit) |
| Int8Quant.RowIsNearRange | vllm/_xpu_ops.py:119-132 | scale and zero point bring every value to within a half of the range |
| Int8Quant.ClampIsHarmless | vllm/_xpu_ops.py:133-137 | clamping costs no more than rounding for such values |
| Int8Quant.CastIsExact | vllm/_xpu_ops.py:137 | the cast keeps all quantized values exactly when there are eight bits or fewer |
| Int8Quant.StoredErrorIsHalfAStep | vllm/_xpu_ops.py:112-142 | the bound holds for what is stored, for up to eight bits |
| Int8Quant.ScaleIsLeast | vllm/_xpu_ops.py:119-131 | of the scales from 1e-5 on, exactly those from the code's on make the row fit: no smaller one does, and it is 1e-5 exactly when the span is at most 1e-5 times the largest value |
| Int8Quant.WholeRangeIsUsed | vllm/_xpu_ops.py:119-137 | above 1e-5 the whole range is used: symmetric, some element becomes plus or minus the largest value; asymmetric, the largest and the smallest element are exactly all the steps apart |
| Int8Quant.StoredErrorIsBounded | vllm/_xpu_ops.py:112-142 | for up to eight bits, the error is at most half of any step from 1e-5 on that makes the row fit |
| IndexRanges.FormatIndexRanges | vllm/model_inspection.py:44-58 | the printed ranges hold exactly the given numbers, ascend with gaps exactly when no number is repeated, and for natural numbers are read back from the text |
| IndexRanges.ExampleText | vllm/model_inspection.py:45 | the documented example is printed as documented |
| IndexRanges.RoundTrip | vllm/model_inspection.py:54-58 | printed ranges of natural numbers are read back |
| IndexRanges.SeparatedIsLeast | vllm/model_inspection.py:44-58 | ranges with gaps between them are the fewest that hold their numbers |

## Left out

- Order inside the ordered name sets and `symbol_inputs` of a partition signature: names are sets here.
- The compiler's own generated call of a partition is not in the repository; `RunPartition` stands for it: inputs are moved in, outputs are moved out, storage is dropped after its last use.
- `WellFormed` states what a scheduler graph guarantees (each name produced once and before its use, a mutation depends on what it mutates, a buffer freed under its real name when nothing needs it any more; graph inputs and the buffers behind mutation aliases have a layout, and an alias without one is a mutation output); the repository does not state it.
- `should_partition_patched` and the other patches in `vllm/env_override.py`: they depend on compiler internals that are not in the repository.
- The branch of the allocator without chunks (not ROCm): it keeps its handle when mapping fails, so it is not all-or-nothing.
- Context setup, the interpreter lock, reference counts, failing host `malloc`, and host memory of the handle cells; the Python side is a table from pointers to allocations and a flag for the callback's success. A missing or malformed answer of the free callback is an unknown pointer.
- Error codes: only whether there is an error, not which one is reported first.
- `strtoull` parsing: the setting is unset, unparsable or a number. Loop counters and device addresses are unbounded; sizes wrap at 64 bits.
- Freeing an allocation that sleeps is not a step of the runs, since it can break them; `MyFree` says what it does.
- Docker, HTTP polling, hashing, trial evaluation, the evidence summary and the README table of the bless script; whether the trials passed is an input. Directories are renamed whole, and a file is whole or torn.
- One config hash at a time; archive names carry the run's number instead of a time stamp, so two runs within one second are not modelled.
- BuildTimes.Summarize: an empty list of steps is excluded, since the code indexes the first event; start times are not negative and no later than end times, as ninja writes them.
- Printing, `GetExtension` and the per-extension statistics of the build report; splitting and number parsing of log lines (a line is malformed or a record).
- Floating-point rounding everywhere: times, logits and quantized values are exact reals.
- `__setitem__`, `__delitem__` and `insert` of `FlatLogprobs`, which only raise.
- BadWords.NoBadWords.Process: requires that the vocabulary does not change between calls; tokenization of the bad words is an input.
- The context managers of `vllm/forward_context.py`, which set and reset one field.
- Quantization with one symmetric bit, where the code divides by zero, rows without elements, and the other functions of `vllm/_xpu_ops.py`.
- Reading back negative indices: a minus sign is also the range separator. The tree printer around `_format_index_ranges`.
- Declarations and wrappers for kernels that are not in the repository (`vllm/_custom_ops.py`, `vllm/_aiter_ops.py`, `csrc/ops.h` and the like), and the configuration, logging, network and set-up code.
