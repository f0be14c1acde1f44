# Checkpoint, scheduling and trace tools: a verified model

This project models the stateful tools around the gem5 simulator in this repository and proves what they are for.

- **Lapidary checkpoints.** GDB dumps a process; its regions are laid out in physical memory by a running sum, once as
  a page table for gem5 and once as a region table for the writer of the flat memory image. Two checkpoints can be
  merged into one image at a distance of 2 GiB. Main result: a load through the page table returns the byte that was
  dumped (or the byte of the backing file, or zero), also after a merge.
- **The parallel simulation scheduler.** Rounds of launches, a wait loop with timeouts, a straggler loop and resume from
  a saved summary, as a state machine over every sequence of environments. Main results: the exit guarantee,
  conservation of checkpoints, no launch twice, no overshoot without a timeout, and that `start` returns.
- **The pipeline viewer.** A bounded reorder queue over an almost sorted trace, which refines one stable sort of the
  whole, and the timeline renderer that wraps ticks into cells.
- **The checkpoint upgrader.** Dependency-driven batches with forward dependencies, legacy versions and downgraders,
  and exactly which orders they force.
- **Trace codecs.** Varint framing of messages (section "Base 128 Varints" of the Protocol Buffers encoding
  specification), and the text printer and parser of dependency records.
- **The checkpoint aggregator.** Concatenated memories, relocated page addresses, renamed sections.
- **Two smaller pieces.** Copyright-year ranges, and the recursive cache and tester tree with its closed-form count.

Objects and loops that update state in the source are classes and methods here, each proved equal to a specification
function; the theorems are lemmas about those functions. The methods that stand for a whole tool also carry a contract
in the source's own terms (regions, polls, fields of a line, sections of a file, bytes), with definitions that the
specification functions do not use, so that the two descriptions check each other. Memory images are handled as a journal of writes: `Replay`
performs them one by one on a buffer, `Effect` says what they leave at one address, and the theorems follow from the
second. The environment (readiness of tasks, result files, the clock, the order in which a set or dictionary is walked)
is an arbitrary input everywhere.

Where a property does not hold of the code as it is, the code is kept, a lemma gives the failing case, and a theorem
gives the exact condition under which the property holds: `MessageFraming.FramingRoundTrip`,
`DependencyTrace.TraceRoundTrip`, `YearRanges.YearsRoundTrip`, `CheckpointAggregator.RelocationExact`,
`CheckpointAggregator.FinalSize`, `CheckpointUpgrader.LegacyOrderForced`, `CheckpointUpgrader.LegacyOrderExact`,
`Timeline.PrintInst`. The limits of two more are shown to be sharp by `MergedImage.OverlapCorrupts` and
`ReorderQueue.BoundIsSharp`.

Code and comments disagree in two places, and the model follows the code. The header of `util/cpt_upgrader.py` (lines
60-65) says that a migration that depends on a downgraded tag waits for the downgrade; the loop does the opposite
(`CheckpointUpgrader.DowngradeNeverAwaited`, `CheckpointUpgrader.AwaitingDowngradeAborts`). The docstring of
`decodeMessage` says it returns False if no message could be read; it also does so for an empty message
(`MessageFraming.FramingRoundTrip`).

## Modules

| file | models |
|---|---|
| `PhysicalImage.dfy`, `MemoryLayout.dfy`, `CheckpointImage.dfy`, `MergedImage.dfy` | `lapidary/GDBProcess.py`, `lapidary/CheckpointConvert.py`, `lapidary/CreateCombined.py` |
| `EvenSelection.dfy`, `ParallelSimulation.dfy` | `lapidary/Utils.py`, `lapidary/ParallelSim.py` |
| `StableSort.dfy`, `ReorderQueue.dfy`, `Timeline.dfy` | `util/o3-pipeview.py` |
| `CheckpointUpgrader.dfy` | `util/cpt_upgrader.py` |
| `MessageFraming.dfy`, `DependencyTrace.dfy` | `util/protolib.py`, `util/decode_inst_dep_trace.py`, `util/encode_inst_dep_trace.py` |
| `CheckpointAggregator.dfy` | `util/checkpoint_aggregator.py` |
| `YearRanges.dfy` | `util/find_copyrights.py` |
| `CacheTree.dfy` | `configs/example/memcheck.py` |
| `Text.dfy`, `Bits.dfy` | Python's numbers in text, split, join and strip; bit operations on unbounded integers |
| `Basics.dfy`, `Arithmetic.dfy` | types and facts that several modules share |

## Model

| member | source | states |
|---|---|---|
| CheckpointImage.CreateGem5Checkpoint | lapidary/GDBProcess.py:220-255 | end to end, from the process itself: byte k of every region that is converted reads, through the page table and the image, as byte k of the last segment that starts with the region and goes that far; else as the byte of the backing file at the region's offset plus k, if the file is there, goes that far, and some segment does not hold the region's start; else as 0. The null page is mapped, and no other address is. The image is 4 GiB long if the layout fits. It fails exactly when the regions have not one stack or a segment breaks the converter's assertions |
| CheckpointImage.RegionsRead | lapidary/CheckpointConvert.py:42-86 | the reads of every region and of the null page, for any order of the mapping dictionary |
| CheckpointImage.ExpectedGives | lapidary/CheckpointConvert.py:46-86 | which source a byte comes from: last matching segment, then file unless the start is 0 or every segment holds it, then zero |
| CheckpointImage.StackRegions | lapidary/GDBProcess.py:236-237 | the stack assertion in terms of the regions: exactly one converted region has "stack" in its name |
| CheckpointImage.OutsideUnmapped | lapidary/GDBProcess.py:155-170 | an address above the null page in no converted region has no page |
| CheckpointImage.ConversionPreservesMemory | lapidary/CheckpointConvert.py:42-86 | for every well-formed process, core dump and order of the mapping dictionary, reading any mapped virtual address through the page-expanded table gives the expected byte |
| CheckpointImage.MappingHoldsExpected | lapidary/CheckpointConvert.py:46-86 | after both loops each mapping's bytes are its own: last matching segment, else backing file, else zero, whatever other mappings wrote |
| CheckpointImage.OutsideStaysZero | lapidary/CheckpointConvert.py:42-86 | no write reaches a byte outside the kept mappings, such as the room of a dropped region |
| CheckpointImage.ReadBack | lapidary/CheckpointConvert.py:72-86 | page walk and image agree for any listing of the dictionary |
| CheckpointImage.WritesOfFileEffect | lapidary/CheckpointConvert.py:51-69 | a mapping gets its file's bytes exactly if some segment does not hold its start, and only as far as the file reaches |
| CheckpointImage.FileWritesEffect | lapidary/CheckpointConvert.py:46-69 | the first loop leaves each mapping its own file's bytes, independent of the other mappings and of order |
| CheckpointImage.SegmentWritesEffect | lapidary/CheckpointConvert.py:72-86 | the second loop gives a byte to the last segment that starts at the mapping and is that long, and changes nothing else |
| CheckpointImage.ImageKeepsSize | lapidary/CheckpointConvert.py:42-43 | a layout that fits in the memory size leaves the image exactly that long |
| CheckpointImage.WriteFile | lapidary/CheckpointConvert.py:52-69 | the seek-and-write loop over segments equals its journal |
| CheckpointImage.WriteImage | lapidary/CheckpointConvert.py:45-86 | both loops on the shared buffer equal the journal; succeeds iff every segment is loadable |
| CheckpointImage.CreatePmemFile | lapidary/CheckpointConvert.py:34-88 | the image is the journal replayed on zeros; succeeds iff every segment is loadable |
| PhysicalImage.ReplayByte | lapidary/CheckpointConvert.py:42-86 | at each address of the image the last covering write wins |
| PhysicalImage.EffectShifted | lapidary/CreateCombined.py:60-62 | moving all writes by a base moves their effect by that base |
| MemoryLayout.PhysicalAddresses | lapidary/GDBProcess.py:133-143 | each region starts at the sum of the sizes of all regions in front of it, dropped ones included |
| MemoryLayout.ExpandPages | lapidary/GDBProcess.py:160-166 | the page loop adds one entry for each page of the region |
| MemoryLayout.CreateMappings | lapidary/GDBProcess.py:146-172 | the one walk builds either the region table or the page table of the same list of kept regions |
| MemoryLayout.KeptIsSubset | lapidary/GDBProcess.py:155-170 | every entry comes from a region that was not filtered out, at that region's running sum |
| MemoryLayout.KeptIsComplete | lapidary/GDBProcess.py:155-170 | every region not filtered out has an entry with its address, size, offset and name |
| MemoryLayout.KeptIndexed | lapidary/GDBProcess.py:146-172 | entries are numbered in order, with flags 0 |
| MemoryLayout.KeptSeparate | lapidary/GDBProcess.py:133-172 | entries of a well-formed process share no virtual and no physical byte |
| MemoryLayout.KeptDetermined | lapidary/GDBProcess.py:133-172 | two entries at one physical address are the same entry |
| MemoryLayout.KeptBelowTotal | lapidary/GDBProcess.py:137-141 | every entry ends below the total of all region sizes |
| MemoryLayout.KeptAligned | lapidary/GDBProcess.py:115-118 | virtual starts and sizes are page multiples, no entry is empty, and an entry at physical address 0 is a single page, so the page expansion's special case for 0 does no harm |
| MemoryLayout.TableLookup | lapidary/GDBProcess.py:168 | the region dictionary loses no entry: each is found under its start address |
| MemoryLayout.FindStack | lapidary/GDBProcess.py:236-237 | the assertion holds exactly when one mapping of the table, and only one, is named a stack |
| MemoryLayout.TranslateAfterAdd | lapidary/GDBProcess.py:160-166 | expanding one region redirects exactly the addresses inside it |
| MemoryLayout.PageFields | lapidary/GDBProcess.py:160-166 | every field of the entry of one page: index, physical and virtual address, size, offset, flags, name |
| MemoryLayout.PagesTranslate | lapidary/GDBProcess.py:155-170 | the page table maps every address of a kept region to the same offset in its physical range |
| MemoryLayout.PagesUnmapped | lapidary/GDBProcess.py:155-170 | an address in no kept region is not mapped |
| MemoryLayout.TranslateInjective | lapidary/GDBProcess.py:133-172 | distinct mapped virtual addresses never share a physical byte |
| MergedImage.CheckpointHandle.constructor | lapidary/CreateCombined.py:50-62 | loading moves every physical address by the base and nothing else |
| MergedImage.CheckpointHandle.TemplateMappings | lapidary/CreateCombined.py:69-94 | the handle's page expansion is that of the relocated mappings |
| MergedImage.Merge | lapidary/CreateCombined.py:138-191 | the image is the first checkpoint's journal, then the second's, on zeros; succeeds iff all segments are loadable |
| MergedImage.MergeCheckpoints | lapidary/CreateCombined.py:239-248 | merge isolation, end to end: through its own relocated page table each program reads from the merged image, at every virtual address, what its separate conversion gives, which for every mapping is its dump, its file or zero; two layouts below 2 GiB leave the image exactly 4 GiB long; fails exactly when a checkpoint has not one stack or a segment is not loadable |
| MergedImage.MergedReads | lapidary/CreateCombined.py:138-191 | both programs read dump, file or zero at every byte of every mapping of the merged checkpoint |
| MergedImage.MergeAtTwoGiB | lapidary/CreateCombined.py:225-245 | the same of the specification, for a first layout below 2 GiB |
| MergedImage.MergedSize | lapidary/CreateCombined.py:127-142 | two layouts below 2 GiB never make the merged image grow |
| MergedImage.OneStackEach | lapidary/CreateCombined.py:199-202 | the template assertions hold exactly when each checkpoint has one stack |
| MergedImage.MergeIsolation | lapidary/CreateCombined.py:138-191 | physically separate checkpoints do not see each other in a shared image |
| MergedImage.RelocatedJournal | lapidary/CreateCombined.py:60-62 | relocation commutes with image writing: the writes are the same ones, shifted |
| MergedImage.RelocationInvisible | lapidary/CreateCombined.py:60-94 | a relocated checkpoint reads from its own image what the unmoved one reads |
| MergedImage.ProcessIsLaid | lapidary/GDBProcess.py:146-172 | what the GDB engine dumps meets the conditions of the merge |
| MergedImage.OverlapCorrupts | lapidary/CreateCombined.py:144-191 | the 2 GiB condition is needed: wherever two layouts share a byte, some core dump of the second changes what the first reads |
| EvenSelection.EvenGaps | lapidary/Utils.py:115-117 | neighbouring picks are n // m or n // m + 1 apart |
| EvenSelection.Increasing | lapidary/Utils.py:115-118 | picks never repeat a position when there are enough items |
| EvenSelection.InRange | lapidary/Utils.py:115-118 | no pick is past the end |
| EvenSelection.PickExact | lapidary/Utils.py:108-123 | exactly the requested number of distinct keys, or all keys if there are fewer |
| EvenSelection.PickPositions | lapidary/Utils.py:115-118 | the picked keys stand at positions of the list: the first at n // (2 m), neighbours n // m or one more apart |
| ParallelSimulation.ExitGuarantee | lapidary/ParallelSim.py:218-315 | in every run, whenever `start` has returned, the target is met or nothing is pending or outstanding and every considered checkpoint has a final status |
| ParallelSimulation.Conservation | lapidary/ParallelSim.py:224-268 | at every point of every run each considered checkpoint is in exactly one of pending, outstanding, finished; the three task dictionaries have the same keys; the success counter is the number of 'successful' statuses |
| ParallelSimulation.NoRelaunch | lapidary/ParallelSim.py:222-236 | no checkpoint is launched twice, the launched ones are those that left the pending set, and there are at most as many rounds as checkpoints |
| ParallelSimulation.NoOvershoot | lapidary/ParallelSim.py:218-274 | in a run without a round timeout successes never exceed the larger of the target and the restored count |
| ParallelSimulation.Returns | lapidary/ParallelSim.py:218-315 | `start` returns: once a run has made as many steps with something due (a launch, or a task that is ready or out of time) as 3 pending + outstanding + 2, at most 3 considered + 2, it has returned, whatever the order of completions, timeouts and idle polls |
| ParallelSimulation.StepProgress | lapidary/ParallelSim.py:218-315 | a step with something due brings the run strictly closer to its end, and any other step changes nothing |
| ParallelSimulation.RunProgress | lapidary/ParallelSim.py:218-315 | over every run the steps with something due never exceed what the distance to the end has shrunk by |
| ParallelSimulation.DrivenReturns | lapidary/ParallelSim.py:241-315 | a run in which every pass finds something due returns within 3 considered + 2 steps |
| ParallelSimulation.OvershootAfterTimeout | lapidary/ParallelSim.py:269-274 | the timeout condition is needed: from any state with one success missing and two checkpoints pending some run exceeds the target |
| ParallelSimulation.LaunchRoundTakes | lapidary/ParallelSim.py:218-236 | a round takes exactly min(needed, pending), at least one, and the pending set shrinks by just those |
| ParallelSimulation.LaunchedEvenly | lapidary/ParallelSim.py:221-236 | which checkpoints a round launches and in which order: evenly spaced over the sorted pending ones, all of them if fewer are left than needed |
| ParallelSimulation.LaunchAllExact | lapidary/ParallelSim.py:230-236 | every chosen checkpoint gets a task of its own with its start time, behind those that were there |
| ParallelSimulation.LaunchRoundKeeps | lapidary/ParallelSim.py:218-236 | a launch round keeps the scheduler invariant |
| ParallelSimulation.WaitPassKeeps | lapidary/ParallelSim.py:241-279 | one pass of the wait loop keeps it, for any readiness, results and clock |
| ParallelSimulation.StragglerPassKeeps | lapidary/ParallelSim.py:285-315 | one pass of the straggler loop keeps it |
| ParallelSimulation.FinishKeeps | lapidary/ParallelSim.py:249-258 | popping a task from the three dictionaries and recording its status keeps the partition, the keys and the counters |
| ParallelSimulation.Step | lapidary/ParallelSim.py:218-315 | every step from a state with the invariant ends in one |
| ParallelSimulation.RunFrom | lapidary/ParallelSim.py:186-318 | so does every run |
| ParallelSimulation.RunContinues | lapidary/ParallelSim.py:224-236 | over a run the target and the considered set stay, nothing returns to the pending set, and launches are only appended |
| ParallelSimulation.Tally | lapidary/ParallelSim.py:59-79 | the walk over the saved summary, in any order, leaves the checkpoints without a final status and counts the successes and failures |
| ParallelSimulation.MarkNotRun | lapidary/ParallelSim.py:97-104 | exactly the remaining checkpoints are set to 'not run' |
| ParallelSimulation.Resume | lapidary/ParallelSim.py:53-152 | a resumed scheduler satisfies the invariant with the restored counts and the capped target; the checkpoints it considers are exactly those found to which the summary gives no final status; refused exactly when there are none |
| ParallelSimulation.FreshStart | lapidary/ParallelSim.py:59-79 | without a summary everything found is considered |
| ParallelSimulation.ResumeAfterRun | lapidary/ParallelSim.py:62-79 | resume after any run restores the success count, misses in the failure count exactly the timeouts of that run, and considers again just what was pending or outstanding |
| ParallelSimulation.ParallelSim.Pop | lapidary/ParallelSim.py:249-258 | the in-place pops equal the transition `FinishKeeps` is about |
| ParallelSimulation.ParallelSim.LaunchTasks | lapidary/ParallelSim.py:221-236 | the launch loop equals the round of `LaunchRoundTakes` |
| ParallelSimulation.ParallelSim.PollTasks | lapidary/ParallelSim.py:241-279 | the loop over tasks with its reset and timeout flags equals the pass of `WaitPassKeeps` |
| ParallelSimulation.ParallelSim.PollStragglers | lapidary/ParallelSim.py:285-315 | the straggler loop body equals the pass of `StragglerPassKeeps` |
| ParallelSimulation.ParallelSim.Start | lapidary/ParallelSim.py:186-318 | the object run through `start` is in the state the run lemmas are about, and has returned once enough steps found something due; and its summary says of every unfinished checkpoint what the polls said: successful if and only if some poll of its task in the run found it ready with a result, failed if and only if ready without one, timed out if and only if not ready in the straggler loop 3600 seconds or more after its start |
| ParallelSimulation.StatusHistory | lapidary/ParallelSim.py:241-315 | over every run: a checkpoint that had not run ends with a status exactly if some step of the run polled its task with that outcome |
| ParallelSimulation.StepDecides | lapidary/ParallelSim.py:249-315 | one step gives a checkpoint a status exactly if it polls its task with that outcome; a final status is not changed |
| ParallelSimulation.FinalStays | lapidary/ParallelSim.py:249-315 | a final status stays to the end of every run |
| ParallelSimulation.WaitPassExact | lapidary/ParallelSim.py:241-279 | one pass of the wait loop, task by task: ready tasks leave with their status, the others stay in order, those behind a ready one with a new start time; nothing else changes |
| ParallelSimulation.WaitPassPhase | lapidary/ParallelSim.py:218-279 | where the pass leads: out when there are enough successes, on waiting, to the next round, or to the stragglers; the round is marked when nothing was ready and some task was late |
| ParallelSimulation.StragglerPassExact | lapidary/ParallelSim.py:285-315 | one pass of the straggler loop, task by task, with its time limit, and when the loop ends |
| ReorderQueue.PrintedInOrder | util/o3-pipeview.py:47-57 | if every instruction is preceded on arrival by at most min_threshold larger ones, the whole printed output over all flushes is the shown instructions in one stable sort by sequence number |
| ReorderQueue.PoppedInOrder | util/o3-pipeview.py:159-188 | the bounded queue equals the simple form: all flushes together give the stable sort of the whole trace |
| ReorderQueue.BoundIsSharp | util/o3-pipeview.py:51-52 | for every pair of thresholds some trace with displacement min_threshold + 1 is printed out of order |
| ReorderQueue.ArrivalInOrder | util/o3-pipeview.py:159-164 | an arrival within the bound never belongs before something that already left the queue |
| ReorderQueue.FeedOrdered | util/o3-pipeview.py:159-170 | throughout the trace what left is sorted, not larger than what stays, and at least min_threshold stay |
| ReorderQueue.FeedConserves | util/o3-pipeview.py:159-171 | at every point what left plus what is queued is the multiset of what arrived, and the queue is within max_threshold |
| ReorderQueue.PrintedExactlyOnce | util/o3-pipeview.py:127-188 | after the final flush each instruction is printed as often as it occurs if it passes the filters, and never otherwise |
| ReorderQueue.EarlyStopLosesNothing | util/o3-pipeview.py:131-135 | under the drift assumption stopping early prints every instruction as often as reading on to the end would |
| ReorderQueue.EarlyStopSameOutput | util/o3-pipeview.py:62-66 | and within the reordering bound the output is the very same sequence |
| ReorderQueue.PrintQueue.PrintInsts | util/o3-pipeview.py:167-188 | sort and pop loop equal the flush; the output is the filter of what was popped |
| ReorderQueue.PrintQueue.QueueInst | util/o3-pipeview.py:159-164 | append and conditional flush equal the feed step |
| ReorderQueue.ProcessTrace | util/o3-pipeview.py:127-150 | of the instructions up to the first that is beyond the stop bounds by more than the drift, each with sequence number and fetch tick inside the given bounds, and retired if only those are wanted, is printed as often as it occurs, and no other; in order of sequence numbers if none is displaced by more than the threshold |
| ReorderQueue.TraceContract | util/o3-pipeview.py:127-188 | the same of the specification, with the place where reading ends |
| ReorderQueue.FlushExact | util/o3-pipeview.py:167-171 | a flush lets all but the given number go, in stable order of sequence numbers |
| ReorderQueue.FeedExact | util/o3-pipeview.py:159-164 | an arrival is appended, and the queue is flushed to the lower threshold exactly when it was at the upper one |
| StableSort.SortSorted | util/o3-pipeview.py:169 | the sort is sorted by key and a permutation |
| StableSort.SortStable | util/o3-pipeview.py:169 | elements of one key keep their order |
| StableSort.SelectSort | util/o3-pipeview.py:169-188 | selecting from the sorted list is sorting the selection, for any filter |
| Timeline.StageInItsCell | util/o3-pipeview.py:250-283 | every stage tick from the first line on is on its one line, in the cell of its wrapped cycle (shifted by coincident events in front), and exactly in that cell when columns are distinct |
| Timeline.CompactIffOneLine | util/o3-pipeview.py:227-242 | one line is produced exactly in the compact case |
| Timeline.OneLinePerTick | util/o3-pipeview.py:250-262 | a stage's tick is on exactly one line if it is not before the first line, and on none if it is |
| Timeline.LineLength | util/o3-pipeview.py:264-283 | a line has width cells plus one for each event on the cell of the one before |
| Timeline.RenderMark | util/o3-pipeview.py:268-281 | each mark's letter is at its column, shifted by the coincidences up to it |
| Timeline.RenderDot | util/o3-pipeview.py:272-282 | every other cell is a dot |
| Timeline.DistinctColumns | util/o3-pipeview.py:268-283 | with distinct columns the line has exactly width cells and each mark is in its own |
| Timeline.LineMarksAscending | util/o3-pipeview.py:255-263 | the marks of a line never go back and stay inside the width |
| Timeline.LineMarksSound | util/o3-pipeview.py:255-274 | every mark on a line is a stage of that line, in that stage's cell |
| Timeline.LineMarksComplete | util/o3-pipeview.py:255-274 | every shown stage of the line has its mark |
| Timeline.NoEventsMeansZero | util/o3-pipeview.py:253-266 | the single line is empty exactly for an instruction without any tick |
| Timeline.CollectEvents | util/o3-pipeview.py:255-262 | the stage loop collects the events of the line |
| Timeline.CollectMarks | util/o3-pipeview.py:268-281 | the event loop skips a dispatch in the tick of the issue and keeps the rest in order |
| Timeline.WriteMarks | util/o3-pipeview.py:265-282 | the writing loop with its position variable equals the rendering |
| Timeline.PrintLine | util/o3-pipeview.py:250-283 | one line, or the index error of an empty compact line |
| Timeline.PrintInst | util/o3-pipeview.py:227-283 | every line, character by character: its letters are those of the stages with a tick on it, each once, by tick in the line and then by name, without a dispatch in the tick of the issue; each is in the cell of its tick, moved on by the stages before it that share a cell; all other cells are dots, or equal signs if the instruction was not retired; as many lines as the last tick needs, one if all ticks are less than a line after the fetch. It fails exactly when all stage ticks are zero |
| Timeline.LineDrawn | util/o3-pipeview.py:250-283 | the same of one line of the specification |
| Timeline.TotalMeans | util/o3-pipeview.py:227-242 | the number of lines |
| CheckpointUpgrader.CompletesIffPossible | util/cpt_upgrader.py:240-252 | with no downgrade pending the loop completes if and only if some order of the pending upgrades respects the dependencies |
| CheckpointUpgrader.AppliedRespects | util/cpt_upgrader.py:140-154 | with no downgrade pending every upgrade finds its dependencies present when it is applied, whatever the order inside batches |
| CheckpointUpgrader.AbortMeansImpossible | util/cpt_upgrader.py:243-246 | an aborted run had no order that works |
| CheckpointUpgrader.DependencyFirst | util/cpt_upgrader.py:140-144 | with downgrades or without, an upgrade that has to be applied itself comes before whatever depends on it |
| CheckpointUpgrader.ForcedOrder | util/cpt_upgrader.py:240-252 | of two migrations that a run applies, one comes before the other in every run if and only if the other waits for a longer chain of missing migrations; with downgrades, aborted runs and arbitrary dependencies |
| CheckpointUpgrader.ForcedByBatch | util/cpt_upgrader.py:240-252 | the order of two migrations is forced exactly when their batches differ in that order |
| CheckpointUpgrader.WaitsForPrevious | util/cpt_upgrader.py:241-252 | no migration is put off: it waits for a member of the batch just before its own |
| CheckpointUpgrader.DowngradeNeverAwaited | util/cpt_upgrader.py:140-154 | a migration that depends on a downgraded tag is applied only if the tag was there at the start, never in a later batch than the downgrade |
| CheckpointUpgrader.AwaitingDowngradeAborts | util/cpt_upgrader.py:140-144 | depending on a downgraded tag that is gone blocks every run |
| CheckpointUpgrader.ScheduleResult | util/cpt_upgrader.py:240-252 | the batches partition what was applied, the final tags follow from the set applied alone, and what is left is stuck |
| CheckpointUpgrader.CompletedTags | util/cpt_upgrader.py:238-258 | a completed run ends with tags plus all upgrades minus all downgrades, whatever the iteration order |
| CheckpointUpgrader.SecondRunIdle | util/cpt_upgrader.py:238-252 | a second run has nothing to apply |
| CheckpointUpgrader.AppliedOnce | util/cpt_upgrader.py:240-252 | a completed run applies each pending migration exactly once and nothing else |
| CheckpointUpgrader.Update | util/cpt_upgrader.py:146-154 | one migration adds its tag, a downgrade removes it |
| CheckpointUpgrader.ApplyBatch | util/cpt_upgrader.py:250-252 | a batch in arbitrary order has the effect of its set |
| CheckpointUpgrader.ApplyAll | util/cpt_upgrader.py:238-252 | waiting are upgrades the checkpoint lacks and downgrades of tags it has; each batch is exactly the waiting migrations whose dependencies the checkpoint has after the batches before, until there are none; each is applied once, batch after batch; the tags are those it then has; complete exactly if all that waited was applied. This is the schedule the lemmas are about |
| CheckpointUpgrader.ScheduleDue | util/cpt_upgrader.py:240-252 | the batches of the schedule are exactly what is due |
| CheckpointUpgrader.LegacyOrderExact | util/cpt_upgrader.py:167-171 | where nothing but the chain connects the versions, this is so if and only if the checkpoint has no version between two that it lacks |
| CheckpointUpgrader.LegacyOrderForced | util/cpt_upgrader.py:167-185 | for any loaded registry: legacy versions are applied in increasing order in every completed run if and only if of two missing ones the later waits for the longer chain of missing migrations |
| CheckpointUpgrader.LoadedLegacyOrder | util/cpt_upgrader.py:161-185 | the same for what `load_all` leaves, when no forward dependency names a version on the chain |
| CheckpointUpgrader.LoadedChainOnly | util/cpt_upgrader.py:166-180 | loading leaves nothing but the chain between the versions when no forward dependency names one |
| CheckpointUpgrader.LegacyInOrder | util/cpt_upgrader.py:167-171 | two missing versions with all versions between them missing are applied in order, also beside other migrations and downgrades |
| CheckpointUpgrader.LegacyOutOfOrder | util/cpt_upgrader.py:240-252 | a checkpoint with version 4 but not 2, 3 and 5 gets version 5 before version 3 |
| CheckpointUpgrader.GapMisorders | util/cpt_upgrader.py:240-252 | every gap gives a run that applies a later version before an earlier one |
| CheckpointUpgrader.LegacyCheckpointInOrder | util/cpt_upgrader.py:210-222 | a checkpoint with a version number always gets the later versions in increasing order |
| CheckpointUpgrader.LegacyTags | util/cpt_upgrader.py:214-219 | the tags of versions 2 up to the number; fails exactly on a version nobody claims |
| CheckpointUpgrader.LinkLegacy | util/cpt_upgrader.py:166-171 | chains versions 3, 4, ... up to the first gap, also when two files claim a version; fails exactly on a version 3 without a version 2 |
| CheckpointUpgrader.AddForward | util/cpt_upgrader.py:175-180 | turns one tag's forward dependencies round; fails exactly on an unknown name |
| CheckpointUpgrader.ResolveDepends | util/cpt_upgrader.py:173-185 | in any order of the tags: succeeds iff all mentioned names are known, and then every tag's dependencies are its own plus those that declare they come before it |
| CheckpointUpgrader.LoadAll | util/cpt_upgrader.py:161-185 | a version from 3 on with all versions from 3 before it depends on the one before alone, any other tag on what its file says, and every tag besides on all that name it as a follower; nothing else changes; fails exactly if a name is unknown or version 3 comes without version 2 |
| MessageFraming.FramingRoundTrip | util/protolib.py:131-166 | a stream of messages below 2^32 bytes is read back as it was written if and only if no message is empty |
| MessageFraming.ParsedRoundTrip | util/protolib.py:131-166 | a written stream is read back through a parser as it was if and only if no message is empty and all are accepted |
| MessageFraming.StreamReadBack | util/protolib.py:131-166 | in general it is read back up to the first empty message, then end of stream |
| MessageFraming.FrameBack | util/protolib.py:131-144 | one frame is read back with its exact length, whatever follows; an empty one reads as end of stream |
| MessageFraming.TooLargeMessage | util/protolib.py:125-139 | the size limit is needed: a message of 2^32 bytes reads as end of stream |
| MessageFraming.DecodedCongruent | util/protolib.py:113-129 | on arbitrary bytes any returned value is congruent modulo 2^32 to the base-128 value of the one to ten bytes read |
| MessageFraming.ConsumedBound | util/protolib.py:113-129 | at most ten bytes are read |
| MessageFraming.VarintRoundTrip | util/protolib.py:101-158 | decoding an encoding gives the value's 32-bit truncation below 2^70 and an error from there on |
| MessageFraming.VarintBack | util/protolib.py:101-158 | below 2^32 it gives the value back |
| MessageFraming.EncodeBack | util/protolib.py:146-158 | an encoding is one complete varint whose base-128 value is the number |
| MessageFraming.EncodeSize | util/protolib.py:146-158 | k bytes suffice exactly for numbers below 2^(7k) |
| Bits.AndMask | util/protolib.py:124-125 | a mask of k ones keeps the remainder modulo 2^k of any number, negative ones included |
| Bits.OrNotMask | util/protolib.py:121-123 | or-ing the complement of such a mask keeps the low k bits and makes the number negative |
| Bits.OrAbove | util/protolib.py:118 | or-ing bits above those already there is an addition |
| MessageFraming.EncodeVarint32 | util/protolib.py:146-158 | the loop of masks and shifts writes the number in groups of seven bits, the lowest first, with the top bit set on all bytes but the last and no group in vain |
| MessageFraming.DecodeVarint32 | util/protolib.py:101-129 | with the source's masks and shifts: up to the first of ten bytes without the top bit, the low 32 bits of the groups, with all higher bits set if bit 63 or a higher one is; end of file if the stream ends before, an error after ten bytes; the stream is left just behind what was read |
| MessageFraming.ReadGroups | util/protolib.py:109-129 | the reading loop: where it stops and what it has collected |
| MessageFraming.AddGroup | util/protolib.py:117-120 | masking, shifting and or-ing one byte adds its seven bits at their place, and its top bit decides whether another one follows |
| MessageFraming.Signed | util/protolib.py:121-125 | the masks give the 32-bit truncation, negative when bit 63 or a higher one is set |
| MessageFraming.EncodeMessages | util/protolib.py:160-166 | the written stream is every message in order, each behind its length as a varint |
| MessageFraming.DecodeMessage | util/protolib.py:131-144 | for any body parser: the stream's next length, and that many bytes, or all there are if the length is larger or negative; False at the end, on a length of 0 or on too long a varint; the parser's error on a body it refuses, such as one cut short |
| MessageFraming.ReadMessages | util/decode_inst_dep_trace.py:157-158 | the messages one behind the other up to the first that is not there or that the parser refuses, and an error exactly in the second case |
| DependencyTrace.TraceRoundTrip | util/encode_inst_dep_trace.py:150-197 | printing a list of records and parsing it back gives the same records, absent pc as 0 and absent weight as 1, if and only if all records are well formed |
| DependencyTrace.LineRoundTrip | util/decode_inst_dep_trace.py:160-206 | the same of one record, with what well-formed means decided by the record's kind and optional fields |
| DependencyTrace.DepsBack | util/encode_inst_dep_trace.py:184-195 | dependency lists of any length, the empty one included, are read back |
| DependencyTrace.LineSplit | util/encode_inst_dep_trace.py:151 | a printed line splits at colons into exactly its three parts |
| DependencyTrace.InfoMemory | util/encode_inst_dep_trace.py:172-177 | a load or store is read back iff it has address, size and flags; otherwise the line is refused |
| DependencyTrace.InfoComputation | util/encode_inst_dep_trace.py:178-180 | a computation record is read back without the request fields |
| DependencyTrace.WriteRecord | util/decode_inst_dep_trace.py:160-206 | field-by-field writing appends exactly the line of the record |
| DependencyTrace.PrintTrace | util/decode_inst_dep_trace.py:157-206 | a line for each record in the documented format, with 0 for an absent program counter and 1 for an absent weight, and a line end behind each |
| DependencyTrace.LineIsRecordLine | util/decode_inst_dep_trace.py:160-206 | the line of one record, piece by piece |
| DependencyTrace.ParseTrace | util/encode_inst_dep_trace.py:150-197 | one record a line, read field by field as Python's long and int read numbers: signs, white space around a number and at the ends of a line, and the letter L are taken as there, empty dependencies skipped; it fails exactly if some line is no record |
| DependencyTrace.LineMeans | util/encode_inst_dep_trace.py:150-195 | one line gives a record if and only if it reads as that record |
| DependencyTrace.InfoMeans | util/encode_inst_dep_trace.py:152-180 | the same of the fields in front of the first colon |
| CheckpointAggregator.RelocationExact | util/checkpoint_aggregator.py:72-115 | whatever a checkpoint holds is found at its relocated addresses if and only if all checkpoints in front of it have the pages they count |
| CheckpointAggregator.RelocatedByte | util/checkpoint_aggregator.py:98-115 | behind full checkpoints each byte is at its relocated address in the merged memory |
| CheckpointAggregator.ShortMisplaces | util/checkpoint_aggregator.py:105-112 | a short memory in front misplaces some contents of every checkpoint behind it |
| CheckpointAggregator.PageFollowsSection | util/checkpoint_aggregator.py:68-77 | a cpu section of the inputs is found renamed in the merged file, and its page address leads to the original byte in the merged memory |
| CheckpointAggregator.WindowsDisjoint | util/checkpoint_aggregator.py:72-99 | relocated addresses of different checkpoints or bytes never coincide |
| CheckpointAggregator.FinalSize | util/checkpoint_aggregator.py:121-134 | range_size is the larger of the page total and the requested size rounded up; the memory is exactly that long iff every checkpoint is full |
| CheckpointAggregator.SectionNamesInjective | util/checkpoint_aggregator.py:59-70 | the rename of (index, name) is injective on names that contain cpu |
| CheckpointAggregator.RenameInjective | util/checkpoint_aggregator.py:69 | replacing every cpu by cpu plus a tag of one common width determines both name and tag |
| CheckpointAggregator.IndexTagExact | util/checkpoint_aggregator.py:59-69 | padded indices have one common width and stand for the index |
| CheckpointAggregator.MergedDistinct | util/checkpoint_aggregator.py:67-139 | the merged file has no section twice, system and Globals included |
| CheckpointAggregator.MoveItems | util/checkpoint_aggregator.py:72-77 | the item loop, in any order, moves paddr by the base and copies the rest; fails iff paddr is no number |
| CheckpointAggregator.MoveSection | util/checkpoint_aggregator.py:69-80 | the section is renamed, its items moved, and its process id set if it is a descriptor map |
| CheckpointAggregator.RenameSections | util/checkpoint_aggregator.py:67-92 | the section loop gives the checkpoint's part; fails iff a section is malformed |
| CheckpointAggregator.ReadCounters | util/checkpoint_aggregator.py:84-98 | the page counter of the section system and the tick of Globals, or what is missing |
| CheckpointAggregator.ReadPages | util/checkpoint_aggregator.py:105-112 | the page loop reads what the page count asks for, short if the memory is |
| CheckpointAggregator.Pad | util/checkpoint_aggregator.py:121-129 | the padding loop adds just the pages needed to reach the requested size |
| CheckpointAggregator.AggregateAll | util/checkpoint_aggregator.py:44-139 | the merged file is, checkpoint after checkpoint and in order, every cpu section with the checkpoint's number behind each "cpu" of its name, all items copied but paddr, which moves up by the pages in front, and M5_pid in FdMap sections; every other section of the last checkpoint as it is, with range_size in the store section; then "system" with the sum of the page counters and the number of checkpoints, and "Globals" with the largest tick. The memory is the pages of all, then bytes of the digit 0 up to the range size, the least whole pages for the page total and the request. Fails exactly on an empty list, a checkpoint without a readable page counter, tick or page address, or a last one without the store section |
| CheckpointAggregator.MergeMeans | util/checkpoint_aggregator.py:44-139 | the merged configuration and memory the other lemmas are about are that file and that memory |
| CheckpointAggregator.MergedSections | util/checkpoint_aggregator.py:67-92 | where every section of the merged file comes from: exactly the kept ones, each once, in order |
| CheckpointAggregator.RenameMeans | util/checkpoint_aggregator.py:59-69 | the new name is the old one with the padded number behind every "cpu" |
| CheckpointAggregator.RangeIsLeast | util/checkpoint_aggregator.py:121-134 | the range size is the least multiple of 4096 that is enough for the pages and for the request |
| YearRanges.YearsRoundTrip | util/find_copyrights.py:98-116 | parsing the printed ranges never adds a year, and gives all of them back if and only if years in a row are four-digit years |
| YearRanges.RangeBack | util/find_copyrights.py:98-114 | a printed range is read back iff it is a single number or has four-digit ends; it never gives more |
| YearRanges.RunsMaximal | util/find_copyrights.py:186-197 | the ranges cover exactly the years, in increasing order, with a gap between any two |
| YearRanges.RunsClosed | util/find_copyrights.py:188-195 | two years in a row are in one range |
| YearRanges.Compress | util/find_copyrights.py:186-197 | the popping loop prints the maximal ranges |
| YearRanges.DateStr | util/find_copyrights.py:175-199 | for any set of integers the text lists, between commas and in increasing order, single years and ranges "first-last" with gaps between them that cover exactly the set; parsing it gives a subset, and the whole set if and only if neighbouring years are four-digit years; fails exactly on the empty set |
| YearRanges.ProcessDates | util/find_copyrights.py:98-116 | a year is in the set if and only if a piece between commas, without the white space around it, starts with a range of four-digit years that holds it, white space around the hyphen allowed, or else is that integer, with or without a sign; other pieces count for nothing |
| YearRanges.StandsMeans | util/find_copyrights.py:104-114 | what one piece stands for |
| YearRanges.MatchMeans | util/find_copyrights.py:98 | when and how the pattern matches |
| Text.StripMeans | util/find_copyrights.py:100 | stripping takes off white space at both ends and nothing else |
| Text.IntMeans | util/find_copyrights.py:111 | which texts are integers and which integer they are |
| Text.LongMeans | util/encode_inst_dep_trace.py:155-157 | the same with a letter L allowed behind |
| CacheTree.BuildTree | configs/example/memcheck.py:231-300 | for every valid specification the builder terminates and sets the attributes l(level)subsys(index), all different, for exactly the indices below the number of subsystems of the level, which is 1 at the root and below it that of the level above times its caches, and creates as many testers as the sum of testers times subsystems |
| CacheTree.Builder.MakeCacheLevel | configs/example/memcheck.py:235-294 | a subtree adds its fan-out to the index of every level and its testers to the count, never indexes outside the prototypes, and fails exactly at level 0 without a cache |
| CacheTree.TestersSpread | configs/example/memcheck.py:157-165 | the testers below a subsystem, counted along the recursion, are the sum over depths of testers times fan-out |
| CacheTree.NumTesters | configs/example/memcheck.py:157-165 | the running products start at 1 and grow by the caches of each level; they are the fan-outs, and the total is the sum of testers times products |
| CacheTree.CheckSpec | configs/example/memcheck.py:133-153 | accepts exactly the valid specifications |
| CacheTree.CacheProtos | configs/example/memcheck.py:182-196 | one prototype a level; the last is the given one, and each other has the size, associativity and miss registers of the next times the scale and ten times its latency |
| CacheTree.ScaledByProduct | configs/example/memcheck.py:186-196 | size, associativity and miss registers grow by the product of the scales, latency by ten a level |
| CacheTree.NameTextInjective | configs/example/memcheck.py:244 | different (level, index) pairs have different attribute names |

## Left out

- The simulator core and its protocols, the attack programs, and the wiring of simulated systems in `configs/`.
- Graphs, reports, statistics files, register dumps and templates in `lapidary/`.
- GDB control, process pools, gzip, JSON, log files and progress bars: only the data they carry is modelled.
- CheckpointImage.CreateGem5Checkpoint: takes the regions to be disjoint and page aligned, and a segment that starts at a mapping to fit in it, as the kernel and GDB provide them; the page size is 4096.
- CheckpointImage.CreatePmemFile: conversion for SMT halves the memory size into a float, which `truncate` refuses; that path is not modelled.
- MergedImage.MergeCheckpoints: of the merged template only the page tables and the stack assertions are modelled, not the registers.
- ParallelSimulation.ParallelSim.Start: runs on a finite sequence of environments; it returns once enough of them find a task ready or out of time, and that the clock gets there is a matter of the environment. Command lines of the experiments are left out, and natural sort is any order that lists the pending checkpoints once.
- ParallelSimulation.Resume: the directory listing is a set of distinct checkpoints.
- ReorderQueue.ProcessTrace: takes the trace as a stream of instructions, without line parsing and without skipping to the start; the early-stop flush, which lacks an argument, is modelled by its intent.
- Timeline.PrintInst: takes a positive cycle time and width; colours, the text behind the cells and timestamps are left out.
- CheckpointUpgrader.Update: the change to the checkpoint's contents is left out, only tags are modelled; so are tags claimed by two files.
- CheckpointUpgrader.LegacyOrderExact: speaks of completed runs where legacy versions have no dependency but the chain, because its condition on gaps is not exact otherwise; `LegacyOrderForced` is the statement for arbitrary dependencies.
- MessageFraming.DecodeMessage: message bodies are byte strings, and which of them the protobuf parser accepts is a parameter.
- CheckpointAggregator.AggregateAll: an item that the source reads as a number is a natural number or no number; negative page counters, ticks and addresses are not modelled.
- YearRanges.ProcessDates: finding copyright blocks, owners and authors in source files is left out.
- CacheTree.BuildTree: ports, crossbars and the random specifications of the script are left out.
