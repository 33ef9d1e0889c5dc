# Linux diagnostic tools: the algorithms between the kernel surfaces

The repository holds three tools. `mem-map-viewer` rebuilds the address space of a process from
system calls, `mini-strace` follows system calls through ptrace, and `fd-inspector` looks for
descriptor leaks. This project models the algorithms that sit between the kernel surfaces and the
printed reports, and proves properties of whole runs of them.

Every operation that updates state step by step in the source is a method here, over a class where
the source has one, and its contract ties the new state to a function of the old. The theorems are
about those functions.

| files | what they model |
|---|---|
| `Machine`, `Sorting`, `Strings`, `Numerals`, `Vectors` | machine integers, sorting, the order of strings, printed numbers, sums over `real` |
| `Regions`, `RegionNames` | regions, mapping identity, the address map a list denotes, and when regions share a name |
| `VmaFunctions`, `VmaModel`, `VmaPieces` | the interval model: operations as functions, the class that performs them, and what they do to file positions and page counts |
| `AddressSpace`, `VmaRefinement` | canonical lists, and the refinement of a per-address semantics over whole runs |
| `RegionIndex` | the sorted index with its binary search |
| `TraceFunctions`, `TraceLoop` | the ptrace stop machine: the step function, and the class that performs it |
| `TraceProperties`, `TracePairing`, `TraceEndings`, `TraceRuns` | numbering, the event cap, entry/exit pairing, injection, tasks, signals and deaths over every interleaving, and a traced command from launch to end |
| `Seccomp` | the filter compiler, with an interpreter for the LD, JEQ and RET instructions it emits |
| `PerfFunctions`, `PerfRing`, `PerfProperties` | the ring-buffer reader: decoding, the loops, round trips and conservation |
| `Growth` | the least-squares trend, over `real` |
| `JsonText`, `JsonFields`, `SnapshotJson`, `JsonSearches`, `SnapshotRoundTrip` | escaping, field searches, the snapshot printer and parser, what the searches match on any text, and which snapshots survive |
| `FdTable`, `LeakDetector` | the open-descriptor table as a function of its history; leak attribution |
| `Diff`, `Reconcile` | bucket sums, diffs and summaries; the comparison with the kernel's own list |

Where the code is narrower than one might expect:

* A brk that grows the heap moves the end of the first heap region over whatever is there.
  `BrkKeepsCanonical` gives the exact condition under which this is harmless, `RunCanonical` carries
  it over whole traces in both directions, and `BrkCanOverlap` gives a trace that breaks the list.
* The snapshot parser finds the end of a region by a lazy match up to a closing brace before `]}` or
  the next region, does not undo escapes, refuses the sign of a process id and drops empty regions.
  `SnapshotSurvives` gives the exact condition under which a printed snapshot comes back;
  `ListEndIsLost` gives a plain label that does not.
* The two ways of reading a ptrace syscall stop agree exactly when the pending flag agrees with the
  kind of the stop (`ReadingsAgree`), which alternation per thread guarantees over whole runs.
* The fixed filter of the memory tracer decides by syscall number alone, whatever the architecture.
* munmap and mprotect copy the file offset into the pieces they split off: the file positions of a
  piece are right exactly when it begins where the region did (`UnmapCopies`, `ProtectCopies`).
* Identity leaves out offset, fd, the deleted flag and page counts: the theorems about address maps
  speak of identities, while `VmaPieces` says what becomes of the other fields.

## Model

| member | source | states |
|---|---|---|
| `Regions.SameMappingIdentity` | mem-map-viewer/src/util.cpp:141-147 | Two regions may merge exactly when their identities (kind, four permission bits, inode, device, path, label, provenance) are equal |
| `VmaRefinement.RunRefines` | mem-map-viewer/src/vma_model.cpp:40-236 | Whole runs: from any disjoint non-empty seed, over any events whose brk steps run into no other region and any reseeding from disjoint non-empty snapshots after an exec, the region list denotes the address map that folding the per-address meaning of the steps gives, heap base included |
| `VmaRefinement.RunCanonical` | mem-map-viewer/src/vma_model.cpp:50-236 | Whole runs, reseeding included: every state is sorted, disjoint, non-empty and fully merged if and only if no brk step runs into another region |
| `VmaRefinement.EventRefines` | mem-map-viewer/src/vma_model.cpp:50-93 | One event: the result is canonical if and only if the event is clear, and a clear event does to every address what its per-address meaning says; failed events change nothing, exec empties the map |
| `VmaRefinement.StepRefines` | mem-map-viewer/src/tracer.cpp:368-376 | One step of the tracer: an event, or an exec followed by a model seeded from what `/proc` shows then; if that cannot be read the exec event alone counts |
| `VmaRefinement.BrkKeepsCanonical` | mem-map-viewer/src/vma_model.cpp:190-217 | brk keeps the list canonical if and only if no other region meets `[heap.begin, new_brk)` |
| `VmaRefinement.BrkCanOverlap` | mem-map-viewer/src/vma_model.cpp:196-201 | A named seed and a named trace (mprotect inside the heap, then brk) whose final list is not canonical |
| `VmaRefinement.BrkRefines` | mem-map-viewer/src/vma_model.cpp:190-217 | A clear brk resizes the run of addresses that starts at the lowest heap address, or creates the heap at the remembered base |
| `VmaRefinement.HeapIsLowest` | mem-map-viewer/src/vma_model.cpp:192-196 | The heap the code finds first is the one with the lowest address of kind heap |
| `VmaRefinement.RunIsRegion` | mem-map-viewer/src/vma_model.cpp:219-236 | In a canonical list a region is exactly the run of addresses with its identity that begins at it |
| `VmaRefinement.RemapRefines` | mem-map-viewer/src/vma_model.cpp:166-188 | mremap under any overlap of the two ranges: every mapped address of the old range within the new size reappears at the same distance from the new start with its identity; every other address keeps its state, less the old range unless DONTUNMAP is set |
| `VmaRefinement.RemapAt` | mem-map-viewer/src/vma_model.cpp:166-188 | The same, address by address |
| `VmaRefinement.OldRangeAfterRemap` | mem-map-viewer/src/vma_model.cpp:166-188 | For every setting of the flag bits, an old address outside the new range is still mapped after mremap if and only if DONTUNMAP (4) is set |
| `VmaRefinement.MappedRegionIs` | mem-map-viewer/src/vma_model.cpp:57-70 | The region an mmap event adds, from the fields of the event: range, file, permissions, label, kind by path and executable start, provenance "event", no page counts |
| `VmaRefinement.RemapThereAndBack` | mem-map-viewer/src/vma_model.cpp:166-188 | Moving a range to an unmapped place and back restores the list |
| `VmaRefinement.RangeEventsCommute` | mem-map-viewer/src/vma_model.cpp:108-164 | munmap and mprotect events on disjoint ranges commute |
| `VmaRefinement.MapRefines` | mem-map-viewer/src/vma_model.cpp:99-106 | Mapping overrides its range and nothing else |
| `VmaRefinement.UnmapRefines` | mem-map-viewer/src/vma_model.cpp:108-132 | Unmapping erases its range and nothing else |
| `VmaRefinement.ProtectRefines` | mem-map-viewer/src/vma_model.cpp:134-164 | Protecting replaces the permissions and the provenance of the mapped addresses of its range and nothing else |
| `VmaPieces.ClipKeepsPositions` | mem-map-viewer/src/vma_model.cpp:26-36 | A clipped region covers the intersection, and where there is a file every address keeps its file position; nothing else changes |
| `VmaPieces.UnmapCopies` | mem-map-viewer/src/vma_model.cpp:119-128 | Each piece is a copy, page counts included, and its file positions are right if and only if it begins where the region did |
| `VmaPieces.ProtectCopies` | mem-map-viewer/src/vma_model.cpp:145-160 | The same of protecting, with permissions and provenance replaced inside the range |
| `VmaPieces.MoveCopies` | mem-map-viewer/src/vma_model.cpp:178-187 | A moved piece is the clipped piece at another place |
| `VmaPieces.JoinAddsCounts` | mem-map-viewer/src/vma_model.cpp:225-231 | Joining keeps the file position and all else of the left region and adds the three page counts |
| `VmaPieces.StepTime` | mem-map-viewer/src/vma_model.cpp:50-54 | The snapshot carries the time of the last step, even of a failed event |
| `AddressSpaces.SortAndMergeCorrect` | mem-map-viewer/src/vma_model.cpp:219-236 | Sorting and merging a disjoint list gives a canonical list with the same address map |
| `AddressSpaces.SortAndMergeIdempotent` | mem-map-viewer/src/vma_model.cpp:219-236 | Sorting and merging a canonical list changes nothing |
| `AddressSpaces.SortAndMergeNothing` | mem-map-viewer/src/vma_model.cpp:219-236 | Nothing changes, offsets and page counts included, when the list ascends and no neighbours can be joined |
| `AddressSpaces.CanonicalUnique` | mem-map-viewer/src/vma_model.cpp:219-236 | Two canonical lists with the same address map have equal sequences of (begin, end, identity) |
| `AddressSpaces.UnmapRangeAt` | mem-map-viewer/src/vma_model.cpp:108-132 | `unmap_range` address by address, and it keeps the list canonical |
| `AddressSpaces.ProtectRangeAt` | mem-map-viewer/src/vma_model.cpp:134-164 | `protect_range` address by address, and it keeps the list canonical |
| `AddressSpaces.MapRegionAt` | mem-map-viewer/src/vma_model.cpp:99-106 | `map_region` address by address, and it keeps the list canonical |
| `VmaModels.VmaModel.constructor` | mem-map-viewer/src/vma_model.cpp:40-48 | The seeded state: sorted and merged, heap base from the first heap region |
| `VmaModels.VmaModel.ApplyEvent` | mem-map-viewer/src/vma_model.cpp:50-93 | One event takes the old state to the state its function gives |
| `VmaModels.VmaModel.Map` | mem-map-viewer/src/vma_model.cpp:99-106 | New region list as a function of the old |
| `VmaModels.VmaModel.Unmap` | mem-map-viewer/src/vma_model.cpp:108-132 | New region list as a function of the old: right pieces keep their offset, both pieces keep the page counts |
| `VmaModels.VmaModel.Protect` | mem-map-viewer/src/vma_model.cpp:134-164 | New region list as a function of the old: the middle piece gets all four permission bits and provenance "event" |
| `VmaModels.VmaModel.CopyPieces` | mem-map-viewer/src/vma_model.cpp:166-174 | The clipped pieces, with the offset moved by the clip where there is a source |
| `VmaModels.VmaModel.Remap` | mem-map-viewer/src/vma_model.cpp:166-188 | New region list as a function of the old: pieces copied before anything is unmapped; the grown tail is not mapped |
| `VmaModels.VmaModel.MoveBrk` | mem-map-viewer/src/vma_model.cpp:190-217 | New regions and heap base as a function of the old |
| `VmaModels.VmaModel.SortAndMergeRegions` | mem-map-viewer/src/vma_model.cpp:219-236 | Sorted by begin and merged in place into the last region, the page counts added |
| `VmaModels.Reconstruct` | mem-map-viewer/src/tracer.cpp:358-376 | Seeding the model, applying every event and reseeding after an exec: the snapshot is the final state, canonical, and its address map is the fold of the steps |
| `RegionNames.SharedKey` | mem-map-viewer/src/util.cpp:103-105 | Two regions share a key if and only if they share kind and source name |
| `RegionNames.SourceNames` | mem-map-viewer/src/util.cpp:88-101 | The source name: path, else label, else inode in decimal, else none |
| `RegionIndexes.RegionIndex.constructor` | mem-map-viewer/src/util.cpp:159-172 | Non-empty regions, sorted by begin then end |
| `RegionIndexes.RegionIndex.Find` | mem-map-viewer/src/util.cpp:174-187 | The binary search returns what a lookup by scanning back from the upper bound returns |
| `RegionIndexes.IndexIsSorted` | mem-map-viewer/src/util.cpp:166-171 | The index ascends by begin, then by end, whatever the regions |
| `RegionIndexes.LookupScans` | mem-map-viewer/src/util.cpp:174-187 | On a sorted disjoint index the lookup agrees with a scan of all regions |
| `RegionIndexes.IndexFindsTheRegion` | mem-map-viewer/src/util.cpp:159-187 | For disjoint regions in any input order the index finds a region if and only if it is in the list and contains the address |
| `RegionIndexes.IndexOfTrace` | mem-map-viewer/src/util.cpp:159-187 | Built on the snapshot of any clear trace, the index computes the folded per-address map |
| `TraceLoops.TraceSession.constructor` | mini-strace/src/tracer.cpp:50-58 | The state a launched child starts from; a dump of the generated filter has taken number 1 if there was one |
| `TraceLoops.TraceSession.MatchingInjection` | mini-strace/src/injection.cpp:28-62 | Counters bumped once for a syscall with a rule; the errno of the first rule that fires |
| `TraceLoops.TraceSession.BeginSyscall` | mini-strace/src/trace_loop.cpp:162-217 | The whole new state at a syscall entry, either way it is read |
| `TraceLoops.TraceSession.CompleteSyscall` | mini-strace/src/trace_loop.cpp:219-259 | The whole new state at a syscall exit, either way it is read |
| `TraceLoops.TraceSession.EmitEvent` | mini-strace/src/trace_loop.cpp:140-160 | The whole new state when an event is written or filtered |
| `TraceLoops.TraceSession.DumpTargetFilters` | mini-strace/src/seccomp.cpp:282-308 | The whole new state when the filters of a process are dumped once |
| `TraceLoops.TraceSession.SyscallStopped` | mini-strace/src/trace_loop.cpp:261-289 | The labelled stop decides by its label, the other by the pending flag |
| `TraceLoops.TraceSession.PtraceEvent` | mini-strace/src/trace_loop.cpp:344-366 | Children join the maps; exec keeps the pending entry |
| `TraceLoops.TraceSession.HandleStatus` | mini-strace/src/trace_loop.cpp:409-460 | The whole new state after any wait status |
| `TraceLoops.TraceSession.EventLoop` | mini-strace/src/trace_loop.cpp:389-470 | The loop takes statuses until no task is left or the cap is reached |
| `TracePairing.ReadingsAgree` | mini-strace/src/trace_loop.cpp:261-289 | The labelled reading and the register reading of a stop have the same effect if and only if the pending flag agrees with the kind of the stop |
| `TracePairing.RunPairs` | mini-strace/src/trace_loop.cpp:195-305 | For every interleaving in which entries and exits alternate per thread, the syscalls written are exactly each entry joined with the next exit of its thread, in the order of the exits |
| `TracePairing.ReadingNeverMatters` | mini-strace/src/trace_loop.cpp:195-305 | Choosing either reading, stop by stop, gives the same final session, the log included |
| `TracePairing.ExitCompletes` | mini-strace/src/trace_loop.cpp:219-259 | An exit clears the pending flag and writes one syscall record, unless filtered |
| `TracePairing.UninjectedExit` | mini-strace/src/trace_loop.cpp:219-259 | An exit nothing was injected into is written as an error with errno n if and only if it returned -n for some n from 1 to 4095, and with errno 0 otherwise |
| `TracePairing.RunTasks` | mini-strace/src/trace_loop.cpp:344-366 | Who is traced, and in which process, as the history of follows and deaths says |
| `TracePairing.TracksStep` | mini-strace/src/trace_loop.cpp:261-366 | One status keeps the pending entry of every thread, exec included, and drops it only at exit or death |
| `TracePairing.FiringRuleIsFirst` | mini-strace/src/injection.cpp:28-46 | The rule chosen is the first of the list whose number matches and whose `when` is 0 or the count |
| `TracePairing.CountByNumber` | mini-strace/src/injection.cpp:28-46 | The counter of a syscall is the number of its entries on all threads |
| `TracePairing.InjectionByCount` | mini-strace/src/injection.cpp:28-62 | The k-th entry of a syscall over all threads is injected if and only if some rule has `when` 0 or k; the errno is that of the first such rule |
| `TraceProperties.HandleUnique` | mini-strace/src/trace_loop.cpp:140-193 | One status keeps the sequence numbers of written and pending records distinct |
| `TraceProperties.RunNumbersUnique` | mini-strace/src/trace_loop.cpp:389-470 | No two records of a run share a sequence number, dumps included |
| `TraceProperties.HandleCounts` | mini-strace/src/lifecycle.cpp:68-146 | One status writes at most one counted record, and the event count follows the log |
| `TraceProperties.RunCounts` | mini-strace/src/trace_loop.cpp:389-470 | The event count is the number of records written other than dumps |
| `TraceProperties.CapHolds` | mini-strace/src/trace_loop.cpp:389-395 | With a cap, the final event count never exceeds it |
| `TraceProperties.LoopStops` | mini-strace/src/trace_loop.cpp:391-396 | Each status is taken with tasks left and room below the cap; the loop stops only without one or the other |
| `TraceProperties.DumpStep` | mini-strace/src/seccomp.cpp:282-308 | A process not settled yet has all its filters dumped, or one record that they cannot be read |
| `TraceProperties.RunSettled` | mini-strace/src/seccomp.cpp:282-308 | Over any run a process is dumped by one thread only, or found unreadable once, and only when asked for |
| `TraceEndings.RunEnding` | mini-strace/src/trace_loop.cpp:409-432 | Exit code, signal and killed flag, from the last death of the launched child |
| `TraceEndings.RunNotices` | mini-strace/src/lifecycle.cpp:68-146 | The signal, exit and death records are those of the statuses, in order, each with its process, delivery and primary flag |
| `TraceRuns.LaunchedRun` | mini-strace/src/tracer.cpp:50-107 | Whole runs of the loop from the session the program starts with: no two records share a number, the count is that of the records other than dumps, and it stays within the cap |
| `TraceRuns.LaunchedCalls` | mini-strace/src/tracer.cpp:50-107 | The syscalls written are the exits joined with their entries, for the statuses the loop takes before it stops |
| `TraceRuns.LaunchedEnding` | mini-strace/src/tracer.cpp:50-107 | The exit code and signal are those of the last death of the command; the signals and deaths written are those taken, in order, with process and delivery |
| `TraceRuns.LaunchedStops` | mini-strace/src/trace_loop.cpp:391-396 | The loop stops early only when the history leaves no traced task or the cap is reached, and never goes on otherwise |
| `TraceRuns.TraceCommand` | mini-strace/src/tracer.cpp:50-107 | The same of the launching code: filter dump, session, event loop and result |
| `Seccomp.NamedSyscallsFromFilters` | mini-strace/src/seccomp.cpp:41-58 | Exactly the filters the table knows, sorted by number, then name |
| `Seccomp.BuildTraceProgram` | mini-strace/src/seccomp.cpp:60-81 | For 1 to 200 resolved syscalls there is a program of 2n+5 instructions that reaches a RET inside the code on every input and returns TRACE if and only if the architecture is x86_64 and the table number of some filter name has the reported number as its low 32 bits; otherwise there is none |
| `Seccomp.SelectsItself` | mini-strace/src/seccomp.cpp:74-77 | Where all numbers of the table are below 2^32, a number is selected if and only if a filter name has it |
| `Seccomp.ListedByNumber` | mini-strace/src/seccomp.cpp:51-57 | The syscalls are listed by number, then name |
| `Seccomp.EmitCode` | mini-strace/src/seccomp.cpp:67-80 | The instructions pushed one by one are the head, the chain and the final ALLOW |
| `Seccomp.ChainDecides` | mini-strace/src/seccomp.cpp:74-78 | Running a chain of compare-and-return pairs decides membership, for lists of any length |
| `Seccomp.HeadDecides` | mini-strace/src/seccomp.cpp:69-80 | A program with any list checks the architecture first and then membership |
| `Seccomp.VmaFilterAgrees` | mem-map-viewer/src/tracer.cpp:225-243 | The fixed filter returns TRACE exactly on the numbers `is_vma_syscall` accepts; it does not look at the architecture |
| `PerfRings.PerfRing.CopyFromRing` | mem-map-viewer/src/perf_sampler.cpp:105-112 | The bytes copied are those at the positions modulo the ring size |
| `PerfRings.PerfRing.ReadBytes` | mem-map-viewer/src/perf_sampler.cpp:163-170 | A read below the head yields the bytes of the stream the ring shows |
| `PerfRings.SampleReport.Bucket` | mem-map-viewer/src/perf_sampler.cpp:142-152 | The first bucket with the key, or a new one at the end |
| `PerfRings.SampleReport.Handle` | mem-map-viewer/src/perf_sampler.cpp:171-196 | What one record does to the whole report |
| `PerfRings.ReadRecord` | mem-map-viewer/src/perf_sampler.cpp:162-198 | A record is consumed exactly when its header frames a whole record below the head that fits the ring |
| `PerfRings.TakeRecord` | mem-map-viewer/src/perf_sampler.cpp:162-198 | One turn of the loop advances the tail and leaves the rest of the drain to do |
| `PerfRings.ParseSamples` | mem-map-viewer/src/perf_sampler.cpp:154-200 | The report and the new tail are those of draining the stream; a tail past the head is left where it is |
| `PerfProperties.HeaderRoundTrip` | mem-map-viewer/src/perf_sampler.cpp:163-167 | A header is decoded from its eight little-endian bytes |
| `PerfProperties.FirstRecord` | mem-map-viewer/src/perf_sampler.cpp:162-198 | The next well-formed record is framed and handed over whole |
| `PerfProperties.FramingRoundTrip` | mem-map-viewer/src/perf_sampler.cpp:154-200 | Any sequence of well-formed records is read back exactly, in order, and the tail ends at the head |
| `PerfProperties.DrainInParts` | mem-map-viewer/src/perf_sampler.cpp:154-200 | Draining in two calls gives the report and tail of draining in one |
| `PerfProperties.WrittenShows` | mem-map-viewer/src/perf_sampler.cpp:105-112 | Bytes written modulo the ring size show the new bytes and keep those not overrun |
| `PerfProperties.PipeRefinesQueue` | mem-map-viewer/src/perf_sampler.cpp:154-200 | One write that fits, or one drain, does to the ring what it does to a queue of records |
| `PerfProperties.RunPipeIsQueue` | mem-map-viewer/src/perf_sampler.cpp:154-200 | Whole runs: any interleaving of writes that fit and drains hands over the records of a first-in first-out queue, across every wrap-around |
| `PerfProperties.ReadPipe` | mem-map-viewer/src/perf_sampler.cpp:154-200 | The reading loop on the shared page is the reading step of that ring, so the queue law holds of it |
| `PerfProperties.WrapHarmless` | mem-map-viewer/src/perf_sampler.cpp:162-168 | The tests on a record, made in wrapping arithmetic, are right for every tail and every size if and only if the head is below the wrap by the stated margin |
| `PerfProperties.ProcessConserves` | mem-map-viewer/src/perf_sampler.cpp:171-196 | One record keeps the total equal to the sum of the buckets |
| `PerfProperties.DrainConserves` | mem-map-viewer/src/perf_sampler.cpp:154-200 | For arbitrary ring bytes the total stays the sum of the buckets, modulo 2^64 |
| `PerfProperties.DrainKeeps` | mem-map-viewer/src/perf_sampler.cpp:154-200 | Whatever one record keeps, a drain of arbitrary bytes keeps |
| `PerfProperties.AddSampleCounts` | mem-map-viewer/src/perf_sampler.cpp:185-191 | A sample adds one to its own bucket and to no other |
| `PerfProperties.KeysCounted` | mem-map-viewer/src/perf_sampler.cpp:171-196 | Each bucket counts exactly the samples whose address, or else instruction pointer, lies in a region of that key, or in none |
| `PerfProperties.SampleRoundTrip` | mem-map-viewer/src/perf_sampler.cpp:171-183 | Instruction pointer, address and weight are each read from their own place; cpu-clock samples carry neither address nor weight |
| `PerfProperties.SampleFiled` | mem-map-viewer/src/perf_sampler.cpp:171-191 | A sample is filed under the region holding its address if the event carries one that is not zero, else under that holding its instruction pointer, else as unknown; that hotspot gains one sample and the weight and takes its place, and no other changes |
| `PerfProperties.OtherRecords` | mem-map-viewer/src/perf_sampler.cpp:192-196 | A lost record adds its count, any other kind changes nothing |
| `PerfProperties.BrokenOffSample` | mem-map-viewer/src/perf_sampler.cpp:114-132 | What a record breaks off before is read as zero |
| `PerfProperties.LostRoundTrip` | mem-map-viewer/src/perf_sampler.cpp:192-196 | The lost count is the second word of its record |
| `Growth.TrendFor` | mem-map-viewer/src/growth_detector.cpp:88-133 | The loops compute the slope and R² of the least-squares line; fewer than two samples give zeros |
| `Growth.ColumnIs` | mem-map-viewer/src/growth_detector.cpp:97-100 | The series fitted is that of the sizes, or of the resident sizes |
| `Growth.Means` | mem-map-viewer/src/growth_detector.cpp:94-102 | The means of the indices and of the values |
| `Growth.Spreads` | mem-map-viewer/src/growth_detector.cpp:103-111 | The two sums of products of deviations |
| `Growth.Variations` | mem-map-viewer/src/growth_detector.cpp:117-126 | The total and the residual sum of squares |
| `Growth.SpreadPositive` | mem-map-viewer/src/growth_detector.cpp:112-114 | For two or more samples the spread of the indices is positive: the zero branch is not taken |
| `Growth.NormalEquations` | mem-map-viewer/src/growth_detector.cpp:115-126 | The residuals are orthogonal to the constant and to the index |
| `Growth.LineCost` | mem-map-viewer/src/growth_detector.cpp:115-126 | The residual sum of any line is that of the fit plus two squares |
| `Growth.FitIsBest` | mem-map-viewer/src/growth_detector.cpp:88-133 | No line has a smaller residual sum than the computed one |
| `Growth.VariationSplits` | mem-map-viewer/src/growth_detector.cpp:117-126 | ss_total = ss_residual + slope² · ss_xx |
| `Growth.RSquaredInRange` | mem-map-viewer/src/growth_detector.cpp:127-132 | R² lies in [0, 1] before the clamp, so the clamp never changes it |
| `Growth.MonotoneSlope` | mem-map-viewer/src/growth_detector.cpp:88-133 | A sequence that never decreases has a slope of at least 0 |
| `Growth.CheckTrend` | mem-map-viewer/src/growth_detector.cpp:151-165 | Each flag is left true if and only if its field of the samples never decreases, and then the matching slope is at least 0 |
| `JsonText.JsonEscape` | mem-map-viewer/src/output.cpp:11-42 | Escaping, as a loop; unescaping by section 7 of RFC 8259 gives the input back |
| `JsonText.UnescapeEscape` | mem-map-viewer/src/output.cpp:11-42 | For every string, unescaping undoes escaping |
| `JsonText.EscapeIsIdentity` | mem-map-viewer/src/output.cpp:11-42 | A string is left as it is if and only if it has no quote, backslash or control character; otherwise it grows |
| `JsonSearches.EscapeWidths` | mem-map-viewer/src/output.cpp:11-42 | Which characters stay, which have a short escape, and which a numeric one |
| `Numerals.PrintRoundTrip` | mem-map-viewer/src/json_parse.cpp:20-36 | Reading a printed decimal or hexadecimal number gives the number |
| `Numerals.PrintIsCanonical` | mem-map-viewer/src/output.cpp:51-59 | Printed numbers have lower-case letters and no leading zero |
| `JsonFields.FieldsAnswer` | mem-map-viewer/src/json_parse.cpp:20-72 | Every field printed among others of distinct names is found again with its value, whatever its type |
| `JsonSearches.SearchIsLeftmost` | mem-map-viewer/src/json_parse.cpp:20-72 | On any text the search captures at the leftmost match of its pattern, and fails only if there is none |
| `JsonSearches.DigitRunIsLongest` | mem-map-viewer/src/json_parse.cpp:20-54 | A run of digits is taken whole |
| `JsonSearches.LargeDecimal` | mem-map-viewer/src/json_parse.cpp:29-36 | A decimal value beyond 64 bits is read as the largest one |
| `JsonSearches.LargeHexadecimal` | mem-map-viewer/src/json_parse.cpp:20-27 | The same of hexadecimal values |
| `JsonSearches.LargeSignedValues` | mem-map-viewer/src/json_parse.cpp:41-54 | A signed value beyond 32 bits is the fallback |
| `JsonSearches.AbsentField` | mem-map-viewer/src/json_parse.cpp:20-72 | A field that is not there has its default |
| `JsonSearches.PidKeepsLowBits` | mem-map-viewer/src/json_parse.cpp:128 | The process id is the value read, modulo 2^32 |
| `JsonSearches.ClosesMeans` | mem-map-viewer/src/json_parse.cpp:131-132 | The look-ahead holds if and only if some choice of comma and white space is followed by the next region or the end of the list |
| `JsonSearches.CutIsShortest` | mem-map-viewer/src/json_parse.cpp:131-132 | On any text the lazy match ends at the first closing brace on the line that the look-ahead accepts, and fails only if there is none |
| `JsonSearches.NoSnapshot` | mem-map-viewer/src/json_parse.cpp:160-162 | Text without a region is an error if and only if it does not speak of regions |
| `JsonFields.SkipFields` | mem-map-viewer/src/json_parse.cpp:20-72 | A search looks past fields of other names, whatever their values |
| `JsonFields.NotTheKey` | mem-map-viewer/src/json_parse.cpp:65-72 | No quoted text is taken for a key unless it is the name and a colon follows |
| `SnapshotJson.Writer.Put` | mem-map-viewer/src/output.cpp:55-82 | One field appended to the stream |
| `SnapshotJson.PrintRegionJson` | mem-map-viewer/src/output.cpp:55-82 | The text of a region appended to the stream |
| `SnapshotJson.PrintSnapshotJson` | mem-map-viewer/src/output.cpp:417-429 | The text of a snapshot |
| `SnapshotJson.CollectRegions` | mem-map-viewer/src/json_parse.cpp:135-159 | One region parsed per match, empty ones dropped |
| `SnapshotJson.ParseSnapshotJson` | mem-map-viewer/src/json_parse.cpp:125-164 | The parsed snapshot, or the error when there is neither a region nor the word for them |
| `SnapshotJson.CutString` | mem-map-viewer/src/json_parse.cpp:131-132 | The lazy match runs through a string value if and only if no end of a region lies inside it |
| `SnapshotRoundTrip.CutMeans` | mem-map-viewer/src/json_parse.cpp:131-132 | That condition place by place: a closing brace, an optional comma, white space, and what ends the list |
| `SnapshotRoundTrip.StringSurvives` | mem-map-viewer/src/json_parse.cpp:65-72 | A string value reads back right if and only if it is clean |
| `SnapshotRoundTrip.CleanRegionParsed` | mem-map-viewer/src/json_parse.cpp:135-155 | A region of clean strings comes back field by field; an empty provenance becomes "unknown" |
| `SnapshotRoundTrip.UnreadFields` | mem-map-viewer/src/output.cpp:55-82 | Size and probe, which the parser passes over, are printed right |
| `SnapshotRoundTrip.OtherKinds` | mem-map-viewer/src/json_parse.cpp:86-121 | Every word that is no kind is read as the unknown kind |
| `SnapshotRoundTrip.RegionSurvives` | mem-map-viewer/src/json_parse.cpp:135-155 | A region comes back, negative fd and deleted flag included, if and only if its three strings are clean and its provenance is not empty |
| `SnapshotRoundTrip.RegionsSurvive` | mem-map-viewer/src/json_parse.cpp:131-159 | The same of a list of regions, each match ending at its own region |
| `SnapshotRoundTrip.SnapshotSurvives` | mem-map-viewer/src/json_parse.cpp:125-164 | Round trip, for every snapshot: parsing the printed text gives it back, all but the probes, if and only if the process id is not negative, the regions are not empty, their strings are clean and their provenance is not empty |
| `SnapshotRoundTrip.PrintAndParse` | mem-map-viewer/src/output.cpp:417-429 | The same of the printing and parsing loops |
| `SnapshotRoundTrip.NegativePidLost` | mem-map-viewer/src/json_parse.cpp:29-36 | A negative process id is printed with its sign and read back as 0 |
| `SnapshotRoundTrip.ParsedNotEmpty` | mem-map-viewer/src/json_parse.cpp:156-158 | Every parsed region is non-empty |
| `SnapshotRoundTrip.ListEndIsLost` | mem-map-viewer/src/json_parse.cpp:131-132 | A label that needs no escape and is nevertheless lost |
| `SnapshotRoundTrip.BracelessIsClean` | mem-map-viewer/src/json_parse.cpp:65-72 | Strings without quote, backslash, control character and closing brace are clean |
| `FdTable.TraceState.EraseMatching` | fd-inspector/ebpf/fd_leak_tracer.cpp:555-598 | The three clearing loops: what they remove and how many |
| `FdTable.TraceState.HandleEvent` | fd-inspector/ebpf/fd_leak_tracer.cpp:724-760 | The whole new table and all counters after one event |
| `FdTable.Replay` | fd-inspector/ebpf/fd_leak_tracer.cpp:724-760 | A history of events, from the empty table |
| `FdTable.TableIsHistory` | fd-inspector/ebpf/fd_leak_tracer.cpp:555-598 | A descriptor is in the table if and only if an OPEN of it is followed by no CLOSE of it, no range that covers it as an unsigned number, no EXIT of its process and no EXEC it does not survive; the table holds the last such OPEN |
| `FdTable.EventsCounted` | fd-inspector/ebpf/fd_leak_tracer.cpp:732-760 | The event counters are the numbers of events of each type |
| `FdTable.OpensConserved` | fd-inspector/ebpf/fd_leak_tracer.cpp:724-760 | OPEN count = table size + overwrites + plain-close hits + range_closed + exec_closed + exit_cleared |
| `LeakDetector.NewTargets` | fd-inspector/src/leak_detector.cpp:47-63 | The new keys, each once: exactly those of the last sample that the first does not have |
| `LeakDetector.AddedMeans` | fd-inspector/src/leak_detector.cpp:47-63 | The same of the specification the loop is proved against |
| `LeakDetector.BucketCounts` | fd-inspector/src/leak_detector.cpp:65-71 | Every key with the number of its entries |
| `LeakDetector.GrowthBuckets` | fd-inspector/src/leak_detector.cpp:73-93 | One bucket for each key that grew, by its growth, in order; the growths sum to at least the growth of the total |
| `LeakDetector.SharedLeakKey` | fd-inspector/src/leak_detector.cpp:34-45 | Two entries share a key if and only if they share their type and what they are known by |
| `LeakDetector.SharedLeakKeyCases` | fd-inspector/src/leak_detector.cpp:34-45 | Peers of one protocol are told apart by address, other entries by target, nameless ones by inode |
| `LeakDetector.GrowthOrder` | fd-inspector/src/leak_detector.cpp:86-91 | Buckets are listed by growth, the larger first, then by key |
| `LeakDetector.CountsType` | fd-inspector/src/leak_detector.cpp:16-22 | The count of a type is the number of positions that have it |
| `LeakDetector.CountsWaiting` | fd-inspector/src/leak_detector.cpp:24-32 | The count of waiting sockets is the number of positions in CLOSE_WAIT |
| `LeakDetector.IsMonotonicNonDecreasing` | fd-inspector/src/leak_detector.cpp:95-102 | True if and only if no later total is smaller than an earlier one |
| `LeakDetector.NewTargetsGrew` | fd-inspector/src/leak_detector.cpp:47-93 | Each new target is a bucket with its count in the last sample |
| `LeakDetector.CountByType` | fd-inspector/src/leak_detector.cpp:16-22 | Every type with the number of its entries |
| `LeakDetector.CountWaiting` | fd-inspector/src/leak_detector.cpp:24-32 | The number of sockets in CLOSE_WAIT |
| `LeakDetector.MeasureGrowth` | fd-inspector/src/leak_detector.cpp:124-138 | The growth fields: totals, monotonic flag, per-type growth and sockets waiting |
| `LeakDetector.Attribute` | fd-inspector/src/leak_detector.cpp:139-140 | New targets and growth buckets, and how they fit together |
| `LeakDetector.CheckLeak` | fd-inspector/src/leak_detector.cpp:106-152 | Every field of the report and when each verdict is given; a suspected report always names a key that grew |
| `Diff.BucketSnapshot` | mem-map-viewer/src/diff.cpp:16-26 | Every key with the sums over its regions |
| `Diff.SummarizeSnapshot` | mem-map-viewer/src/diff.cpp:30-48 | Exactly the buckets, each once, in strictly ascending order; their sizes sum to the total region size |
| `Diff.DiffSnapshots` | mem-map-viewer/src/diff.cpp:50-86 | Exactly the keys that changed, by their deltas, in order of size |
| `Diff.DiffBuckets` | mem-map-viewer/src/growth_detector.cpp:49-86 | The same entries, ordered by growth |
| `Diff.DiffOfSame` | mem-map-viewer/src/diff.cpp:50-86 | A snapshot does not differ from itself |
| `Diff.DiffOfSwapped` | mem-map-viewer/src/diff.cpp:50-86 | Swapping the snapshots negates the diff entry by entry, in the same order |
| `Diff.DiffsTelescope` | mem-map-viewer/src/diff.cpp:50-86 | Per key, the deltas of two steps add up to the delta of both |
| `Diff.EntryIsDelta` | mem-map-viewer/src/diff.cpp:62-75 | The entry of a key, or its absence, is the difference of the buckets |
| `Diff.ChangeLeadsTo` | mem-map-viewer/src/diff.cpp:62-75 | In every field the earlier bucket plus the listed change is the later bucket: exactly as signed words, and modulo 2^64 |
| `Diff.NewKeyGrows` | mem-map-viewer/src/diff.cpp:62-75 | A key only the second snapshot has is listed with positive size and count |
| `Diff.DiffOrder` | mem-map-viewer/src/diff.cpp:77-84 | The larger change of size first, whichever way it goes, then by key |
| `Diff.GrowthOrder` | mem-map-viewer/src/growth_detector.cpp:76-84 | The larger resident growth first, then the larger size growth, then by key |
| `Diff.SummaryOrder` | mem-map-viewer/src/diff.cpp:41-46 | The larger bucket first, then by key |
| `Diff.OneRegionBucket` | mem-map-viewer/src/diff.cpp:16-26 | The bucket of one region |
| `Diff.BucketsAdd` | mem-map-viewer/src/diff.cpp:16-26 | The buckets of two lists together are the sums of their buckets |
| `Diff.MergeKeepsBuckets` | mem-map-viewer/src/vma_model.cpp:219-236 | Sorting and merging changes no size, RSS or PSS of any bucket |
| `Reconcile.IndexRegions` | mem-map-viewer/src/reconcile.cpp:13-21 | Non-empty regions by range, the last of equal ranges |
| `Reconcile.ReconcileSnapshots` | mem-map-viewer/src/reconcile.cpp:52-99 | Every field of the report: process id, source and sizes of the two snapshots, and exactly the ranges missing, extra and differing, counted and listed in order |
| `Reconcile.CompareSnapshots` | mem-map-viewer/src/reconcile.cpp:61-99 | The counts and the list alone |
| `Reconcile.CompareTruth` | mem-map-viewer/src/reconcile.cpp:64-78 | The first loop lists exactly the missing ranges and the metadata that disagrees |
| `Reconcile.FindExtra` | mem-map-viewer/src/reconcile.cpp:79-86 | The second loop adds exactly the extra ranges |
| `Reconcile.ReportPartitions` | mem-map-viewer/src/reconcile.cpp:52-99 | truth - missing = observed - extra = agreeing + metadata mismatches |
| `Reconcile.CleanReport` | mem-map-viewer/src/reconcile.cpp:52-99 | Nothing is reported if and only if both indexes have the same ranges with the same metadata |
| `Reconcile.CleanSnapshots` | mem-map-viewer/src/reconcile.cpp:33-37 | Of two snapshots: nothing is reported if and only if they have the same ranges, each with the same kind, permissions and source name |
| `Reconcile.SameMetadataMeans` | mem-map-viewer/src/reconcile.cpp:33-37 | Regions agree if and only if kind, all four permissions and source name do |
| `Reconcile.DescriptionsDiffer` | mem-map-viewer/src/reconcile.cpp:23-31 | A description shows kind and permissions |
| `Reconcile.IndexHolds` | mem-map-viewer/src/reconcile.cpp:13-21 | The region indexed for a range is the last non-empty one that has it |
| `Reconcile.MismatchesByRange` | mem-map-viewer/src/reconcile.cpp:88-97 | Mismatches are listed by begin, then end |
| `Reconcile.SwappedReport` | mem-map-viewer/src/reconcile.cpp:52-99 | Swapping the sides swaps missing and extra, for any symmetric comparison |
| `Reconcile.SwappedSnapshots` | mem-map-viewer/src/reconcile.cpp:33-37 | The comparison of regions is one, so this holds of any two snapshots |
| `Sorting.SortSorts` | mem-map-viewer/src/diff.cpp:77-84 | Sorting sorts, for every strict weak order the program sorts by |
| `Sorting.AscendingUnique` | mem-map-viewer/src/diff.cpp:77-84 | A strictly ascending list is determined by its elements |
| `Sorting.InsertSort` | mem-map-viewer/src/diff.cpp:77-84 | The sort in place computes the specified list |
| `Strings.Lexicographic` | mem-map-viewer/src/diff.cpp:83 | Strings are compared at the first place they differ, a prefix being the smaller |
| `Strings.StringOrder` | mem-map-viewer/src/diff.cpp:83 | The order of strings is total and transitive, so ties by key are decided |

## Left out

- JsonFields.FieldsAnswer: a search is written as the leftmost place where the key and a value match, with digit runs taken whole; the steps of the engine's backtracking are not modelled.
- JsonText.UnescapeEscape: characters stand for bytes; surrogate pairs, which escaping never writes, are not read.
- Growth.TrendFor: doubles are modelled as `real`; rounding is idealised away.
- Growth.Means: doubles are modelled as `real`.
- Growth.Spreads: doubles are modelled as `real`.
- Growth.Variations: doubles are modelled as `real`.
- Growth.RSquaredInRange: over `real`; on rounded doubles the clamp may still act.
- PerfRings.ParseSamples: the head lies below 2^64 by the margin `WrapHarmless` shows to be exact, and the tail by a header; nearer to 2^64 the reader's sums wrap, and whether its loop ends is not modelled. The data area holds at least a header. The final sort of the hotspots is not modelled.
- PerfRings.ReadRecord: the same margins.
- PerfRings.TakeRecord: the same margins.
- RegionIndexes.RegionIndex.Find: the index holds copies of the regions instead of pointers to them.
- Sorting.InsertSort: `std::sort` is modelled as an insertion sort; the two can differ only where elements tie.
- Diff.DiffSnapshots: the signed subtraction of deltas is unbounded; the source does not define its overflow.
- TraceProperties.RunNumbersUnique: sequence, event, injection and descriptor counters are unbounded, without the wrap at 2^64.
- TracePairing.RunPairs: a thread keeps its id between entry and exit; exec from a thread other than the leader is not modelled.
- TraceLoops.TraceSession.constructor: a launched child; attaching to running tasks is not modelled.
- TraceLoops.TraceSession.HandleStatus: a ptrace failure, which the loop reports and passes over, and the resuming of tasks are not modelled.
- TraceLoops.TraceSession.EmitEvent: descriptor tracking, argument decoding and the observers of the pipeline are not modelled.
- Seccomp.BuildTraceProgram: the table of syscall names is an input.
- FdTable.TraceState.HandleEvent: the descriptors still live after an exec are an input; target text, stacks and symbols are not modelled.
- LeakDetector.SharedLeakKey: the names of the descriptor types are a table taken over from the source.
- LeakDetector.CheckLeak: the samples are an input, and the sentences of the verdict are an enumeration.
- Reconcile.ReconcileSnapshots: the truth snapshot is an input.
- Reconcile.DescriptionsDiffer: of the description's text only kind and permissions are pinned; the source name and label can run together.
- VmaModels.Reconstruct: the steps are an input, with what `/proc` shows after an exec; the pairing of entries and exits that produces them is not modelled.
- All kernel surfaces (ptrace, waitpid, prctl, perf_event_open, netlink, libbpf, `/proc` and cgroup reads): their results are inputs or statuses.
- Detaching from tasks when the cap is reached.
- Argument decoders, errno and flag names, timestamps, table and text rendering, command lines.
- `mini-strace/src/state.cpp`: a best-effort guess at descriptors and mappings that promises no agreement with the kernel.
- Deny explanation, event correlation, cgroup observation, symbolisation and the plain counters: cascades of thresholds that would add only easy members.
- The BPF program that runs in the kernel, and the memory tracer's own pairing of entries and exits.
