# Static-direct inference: planner, verifier, interpreter and kernels

A Dafny model of the parts of RRTOS that turn a compiled HAL schedule into bytes at fixed offsets
and then run it, together with proofs about them. `dafny verify dfyconfig.toml` checks the project.

**The planner and the runtime.** A schedule is a list of allocations and an ordered list of dispatch
and fill commands. Live intervals are computed, transients are packed into one arena by 64-aligned
first fit, the result is verified, lowered to slices of four regions, and replayed by a C
interpreter. The main results:

* `EndToEnd.VerifyRenderInvoke` and `Refinement.PackingPreservesMeaning`: whatever the kernels do
  with the windows they are given, replaying an accepted schedule on the packed regions has the same
  status and the same input, output and constant bytes as a run in which every allocation has a
  buffer of its own, and the same transient bytes from the first use of a transient until just after
  its last. The contents of a transient before its first use are arbitrary, so nothing is assumed
  about reading before writing. Offsets may come from the planner or from a memory plan that keeps live
  transients apart.
* `ScheduleVerifier.VerifySchedule`: an exact acceptance condition that does not mention the planner.
  The placement-overlap errors of the verifier can never be raised on the planner's output. The report and
  the descriptor say what the schedule says, and their arena is no larger than it has to be (`ArenaSize`).
* `PlannerSweep.PackBestFit` and `EvaluateSchedule`: best fit and first fit are the same planner; two
  of the five planners of the sweep can never win.
* `Liveness.LiveBytesFitInArena`: a lower bound for every planner, by counting arena cells.
* `Remap`: when the rendered remapping code is an address-preserving relocation, and when it is not.

A kernel is modelled as a decision tree over the bytes it reads through its bindings. Its bindings
may alias in any way, it may stop with an error at any point, and it may depend on its dispatch
state. `StaticDirect` is the interpreter over real arrays, proved against the specification in
`Machine`; `KernelView` says what a kernel sees of a dispatch and what it leaves in its windows,
byte by byte; `Simulation` relates one command on packed and on separate buffers; `Lockstep` carries
that over whole runs, and `Refinement` applies it to deployed schedules; `SharedBytes` shows a
memory plan that breaks them.

**The front end.** `ValueEval` evaluates SSA values by repeated sweeps, `CfgLinearise` follows the
branches of a function (`CfgTrace` tells a finished walk block by block), `Extract` flattens
bindings to root buffers, `ExtractCommands` parses dispatches and fills, and `TransientPeak`
computes the scheduled peak. `ExtractCommands.ExtractIndirect` says which program comes out and how
large the buffers are; with `PassesBoundsExactly` it connects them to the verifier's bounds and
coverage checks.

**The kernels.** `Q31` is the fixed-point requantisation, `Conv` and `FusedConv` the int8 convolution
in its generic, specialised, unfused and tiled forms, `MaxPool` the pooling kernel. What they write is
also said without their own arithmetic: `RequantizedByteIs`, `ImpulseResponse`, `MaxPoolTile`.

**Stateful algorithms.** `TopK` (quickselect and sparse decompression), `AllocTrace` (the trace of the
eight largest allocations), `BumpArena` (the arena with block headers, on bytes) and `Clint` (64-bit
timer access over 32-bit registers).

Code that updates things in place is modelled by classes and arrays with loops; pure code by
functions.

## Where the code does not do what is promised

Each of these has a lemma with failing inputs, beside an equivalence that says when the code is right.

* `scripts/generate_static_direct_remap_plan.py:239` promises that retained commands after a remap end
  are rejected. The rendered code rejects the whole binding and otherwise only what it takes for an
  overrunning scratch window (`AfterPatchEndRefusedExactly`, `AfterScratchEndNothingIsRefused`,
  `AfterTheEndsOnlyTheWholeBindingIsRefused`, `DocumentedRejectionCanFail`). The model follows the code.
* The scratch rule of the rendered code adds the new offset without subtracting the old one
  (`ScratchRelocationIsExact`, `RemapIsRightExactly`, `ScratchRelocationCanFail`), and overlapping
  placements are never checked (`RenderedPlanIsSane`, `OverlapIsAccepted`).
* A memory plan is never checked for overlaps. A deployed schedule runs like one with a buffer for each
  allocation exactly if the plan keeps live transients apart (`DeployedIsValid`,
  `SharedBytesBreakTheRun`).
* The linearisation looks a branch condition up under its own name, not through the bindings of block
  arguments. It follows the execution exactly if no branch it reaches tests a bound argument with a value,
  and fails on the condition otherwise (`ReadingsAgreeExactly`, `UnresolvedExactly`,
  `TestedArgumentIsUnresolved`). Coming back to a block then need not mean a loop.
* Two definitions of one name can keep the evaluation loop from ever settling: it ends without raising
  exactly if some table is closed under the lines (`EndsExactly`, `ConflictingLiteralsNeverSettle`,
  `ConflictingLiteralsRunForever`). Names repeat when a file without a main function is handed over
  whole (`scripts/extract_iree_hal_schedule.py:104-106`).
* A negative subspan offset is emitted and then refused (`NegativeSubspanIsEmitted`); what is extracted
  always passes exactly if no reference resolves to a negative offset (`PassesBoundsExactly`).
* A negative allocation size beside a positive one hides a peak, and nothing else does
  (`PeakBoundsExactly`, `NegativeSizeHidesThePeak`).
* Right shifts of 31 and more return -1 for every negative value (`LargeExponentIsNearest`,
  `LargeExponentCanFail`).
* The pooling check divides towards zero and accepts some windows larger than the image
  (`WindowsInsideExactly`, `ReadsInsideExactly`, `OversizedWindowIsAccepted`).
* 32-bit sums in the arena's out-of-memory test wrap for the largest sizes
  (`AcceptanceIsSoundWithoutWrap`, `PayloadHoldsRequestExactly`, `WrappedSizeIsAccepted`,
  `WrappedSumIsAccepted`).
* Top-k with less capacity than inputs ignores the rest of the input (`CapacityIsExact`,
  `ShortCapacityMissesTheLargest`), and counts one entry for an empty input (`CountFitsExactly`).

## Model

| member | source | states |
|---|---|---|
| `Basics.AlignUpIsLeast` | scripts/generate_static_direct_descriptor.py:72-75 | the aligned value is the least multiple of the alignment that is not below the value |
| `Placement.SearchFirstFit` | scripts/generate_static_direct_descriptor.py:160-174 | the jumping search ends, and at the least 64-aligned offset at which the request meets no earlier placement with an overlapping live interval; that offset is defined without reference to the search |
| `Placement.PlaceTransientAllocations` | scripts/generate_static_direct_descriptor.py:145-179 | each used transient gets its least fitting offset in list order, an unused one offset 0; arena size and largest allocation are those of the whole list |
| `Placement.PackFirstFit` | scripts/sweep_static_direct_arena_planners.py:85-120 | the sweep packer is the same first-fit placement, and its byte count is the largest placed end |
| `Placement.FirstFitIs` | scripts/sweep_static_direct_arena_planners.py:85-120 | each request of a list, in its order, is at the least 64-aligned offset that meets none of the placements before it with an overlapping interval |
| `Placement.RequestAt` | scripts/generate_static_direct_descriptor.py:156-160 | the used transients are placed in the order of the allocation list, none left out |
| `Placement.JumpSkipsOnlyBlocked` | scripts/generate_static_direct_descriptor.py:167-174 | jumping to the end of a blocking range passes over no offset that range does not block |
| `Placement.FirstFitIsConflictFree` | scripts/generate_static_direct_descriptor.py:145-179 | placements keep identity, size, interval and alignment, and any two with overlapping intervals have disjoint ranges |
| `Placement.FirstFitIsGreedyOptimal` | scripts/sweep_static_direct_arena_planners.py:85-120 | with the earlier placements fixed, no aligned fitting offset lies below the chosen one |
| `PlannerSweep.LeastFitIsAlignedCandidate` | scripts/sweep_static_direct_arena_planners.py:128-140 | the least fitting offset is always 0 or the aligned end of a conflicting placement, so the candidate list of best fit contains it |
| `PlannerSweep.BestFitOffset` | scripts/sweep_static_direct_arena_planners.py:123-162 | one step of best fit never runs out of candidates and picks the first-fit offset |
| `PlannerSweep.PackBestFit` | scripts/sweep_static_direct_arena_planners.py:123-162 | best fit never raises and returns exactly the first-fit placement and size |
| `PlannerSweep.PackLinearNoReuse` | scripts/sweep_static_direct_arena_planners.py:165-180 | the first range is at 0, each next one at the first multiple of 64 at or behind the end of the one before, whatever the intervals; the cursor is where the last one ends |
| `PlannerSweep.FirstFitAtMostLinear` | scripts/sweep_static_direct_arena_planners.py:85-180 | on the same ordered list first fit never needs more bytes than linear placement |
| `Sorting.SortByIsStableSort` | scripts/sweep_static_direct_arena_planners.py:183-187 | sorting by a key leaves no later element before an earlier one, and elements of one key in their order |
| `PlannerSweep.OrderedByKey` | scripts/sweep_static_direct_arena_planners.py:200-239 | the three sorted planner inputs are in the order of their keys |
| `PlannerSweep.BySizeIs` | scripts/sweep_static_direct_arena_planners.py:203-213 | the list of the size-first planners is the input shuffled: larger sizes first, then earlier starts, then earlier ends, then the order of the input |
| `PlannerSweep.ByStartIs` | scripts/sweep_static_direct_arena_planners.py:214-226 | the list of the start-first planner is the input shuffled: earlier starts first, then larger sizes, then earlier ends, then the order of the input |
| `PlannerSweep.RankIsAlphabetical` | scripts/sweep_static_direct_arena_planners.py:200-239 | the rank used for ties is the alphabetical order of the five planner names |
| `PlannerSweep.EvaluateSchedule` | scripts/sweep_static_direct_arena_planners.py:190-268 | each planner is measured on its own list with its own packer; an effective size is the largest of the packed size, the largest single size and the peak, which without a scheduled peak is the sum of all sizes; no planner is better than the winner in effective size, then packed size, then name; size_desc_first_fit and linear_no_reuse are never the winner, and the winner never exceeds the current planner |
| `Liveness.OverlapIsSharedCommand` | scripts/generate_static_direct_descriptor.py:137-139 | two intervals overlap exactly when some command is in both |
| `Liveness.LiveBytesFitInArena` | scripts/prototype_patch_based_inference.py:28-63 | no conflict-free placement by whatever planner is smaller than the bytes live at any one command |
| `Liveness.CommandLivenessPeak` | scripts/prototype_patch_based_inference.py:28-40 | the returned peak bounds the live bytes at every command and is attained unless it is 0 |
| `Liveness.PackBestSizeDesc` | scripts/prototype_patch_based_inference.py:43-54 | the result is where the least-fit placement ends of the allocations rearranged with larger sizes first, then earlier starts, then earlier ends, then names in order |
| `Liveness.EffectiveArenaBytes` | scripts/prototype_patch_based_inference.py:57-63 | the result is the packed size itself: neither the liveness peak nor the largest allocation ever exceeds it |
| `Schedule.TransientIntervals` | scripts/generate_static_direct_descriptor.py:120-134 | raises exactly on an invalid command; otherwise every transient in use gets the interval from its first to just after its last use, and no other name gets one |
| `Schedule.IntervalsAreUnique` | scripts/generate_static_direct_descriptor.py:120-134 | these conditions leave only one interval table |
| `Schedule.ClassifyAllocations` | scripts/generate_static_direct_descriptor.py:182-213 | raises exactly on an ill-formed allocation or invalid command; otherwise computes the plan: classes, static and packed offsets, totals, intervals |
| `Schedule.StaticRangesAreDisjoint` | scripts/generate_static_direct_descriptor.py:188-213 | inputs, outputs and constants are laid end to end, in list order, within their region |
| `Schedule.PlanIsSound` | scripts/generate_static_direct_descriptor.py:182-213 | for distinct identifiers every placed allocation is inside its region, transients are 64-aligned, and allocations holding data at the same time are disjoint |
| `ScheduleVerifier.AllocationSizes` | scripts/verify_static_direct_schedule.py:21-35 | succeeds exactly on distinct non-empty identifiers with non-negative sizes, and returns exactly those sizes |
| `ScheduleVerifier.CheckSliceBounds` | scripts/verify_static_direct_schedule.py:65-93 | passes exactly when every slice of every command lies inside a declared allocation |
| `ScheduleVerifier.CheckDispatchCoverage` | scripts/verify_static_direct_schedule.py:96-120 | passes exactly when every dispatch occurs once among the commands |
| `ScheduleVerifier.CoverageIsOneCommandEach` | scripts/verify_static_direct_schedule.py:96-120 | that is: for every dispatch there is a command that runs it, and no second one |
| `ScheduleVerifier.CheckSlicePair` | scripts/verify_static_direct_schedule.py:145-168 | two live windows of one command: refused exactly when they are different meeting windows of one transient, never for two transients |
| `ScheduleVerifier.AgreementIsAboutBytes` | scripts/verify_static_direct_schedule.py:145-168 | what passes as agreeing: windows that hold bytes are the same or share no byte; an empty window is not strictly inside another |
| `ScheduleVerifier.CheckTransientConflicts` | scripts/verify_static_direct_schedule.py:123-171 | on an in-bounds schedule it can fail only for overlapping windows of one allocation; the cross-allocation branch never fires |
| `ScheduleVerifier.TransientsOfOneCommandAreApart` | scripts/verify_static_direct_schedule.py:123-171 | windows of two different transients used by one command never meet in the arena |
| `ScheduleVerifier.CheckPairwisePlacement` | scripts/verify_static_direct_schedule.py:174-200 | never fails on a plan of the planner |
| `ScheduleVerifier.VerifySchedule` | scripts/verify_static_direct_schedule.py:203-290 | accepts exactly the schedules of a condition stated without the planner, and never raises either of the two placement-overlap errors; the arena size it reports holds every placed range, every transient and the given peak and is one of these or 0, its source is named, and each transient is listed with its size, its offset and its first and last use |
| `ScheduleVerifier.ReportDescribes` | scripts/verify_static_direct_schedule.py:224-290 | what the report says, in terms of allocations, offsets, peak and commands |
| `ScheduleVerifier.SourceIs` | scripts/verify_static_direct_schedule.py:232-240 | the arena size is the packed size, or else a larger peak, or else the largest transient; the last case of the code is never needed |
| `ArenaSize.PackedSizeIs` | scripts/verify_static_direct_schedule.py:224-232 | the packed size is the largest end of a placed transient, or 0 |
| `ArenaSize.LargestSizeIs` | scripts/generate_static_direct_descriptor.py:186-199 | the largest allocation is the largest size of a transient, used or not, or 0 |
| `ArenaSize.LargestIsArenaSize` | scripts/verify_static_direct_schedule.py:228-232 | the largest of packed size, peak and largest allocation is the least size that holds all of them |
| `TransientPeak.PeakLiveTransientBytes` | scripts/extract_iree_hal_schedule.py:531-554 | the result is reached at some line, bounds the live bytes whenever they have grown, and at all lines unless the sizes have both signs; live means allocated and not deallocated since |
| `TransientPeak.PeakBoundsExactly` | scripts/extract_iree_hal_schedule.py:531-554 | the peak bounds the live bytes for all lists of lines if and only if no transient has a negative size beside one of positive size |
| `TransientPeak.NegativeSizeHidesThePeak` | scripts/extract_iree_hal_schedule.py:531-554 | any negative and any positive size: lines on which the live bytes exceed the peak |
| `Simulation.PokeStaysLinked` | ai/src/ai_static_direct.c:138-148 | a byte written at a home and in its separate buffer keeps all buffers and their disjoint homes in agreement |
| `Simulation.ExecStaysLinked` | ai/src/ai_static_direct.c:138-148 | whatever one workgroup reads and writes, and however its bindings alias, packed and separate stores stay in agreement and return the same code |
| `Simulation.IssueStaysLinked` | ai/src/ai_static_direct.c:169-193 | one command keeps the live buffers linked, changes no buffer without a home, and reports the same status on both stores |
| `Simulation.RelocationKeepsPrograms` | ai/src/ai_static_direct.c:118-131 | a kernel is started with the same dispatch state on the packed and on the separate store |
| `Machine.FailureIsFinal` | ai/src/ai_static_direct.c:216-228 | after the first command that fails nothing more is run |
| `KernelView.KernelSeesDispatch` | ai/src/ai_static_direct.c:118-131 | a kernel that writes one number of its dispatch state to a window leaves there the byte of the grid sizes x, y and z mod 2^16, the counts, the i-th constant or the length of the i-th binding |
| `KernelView.LastGroupIsSeen` | ai/src/ai_static_direct.c:134-149 | if every workgroup writes its id, the last corner of the grid remains |
| `KernelView.FirstFailureEndsDispatch` | ai/src/ai_static_direct.c:134-149 | if every workgroup writes a byte and returns a code, the byte of the first that fails remains and the dispatch has failed |
| `KernelView.KernelMovesByte` | ai/src/ai_static_direct.c:97-116 | a kernel that copies byte i of one binding to byte j of another does so between their windows |
| `KernelView.FillIsExact` | ai/src/ai_static_direct.c:154-167 | a fill writes the low byte of its pattern to every byte of its window and to no other |
| `Lowering.ApplyMemoryPlan` | scripts/generate_static_direct_descriptor.py:226-278 | accepts exactly a plan whose totals match and whose entry for every transient has its size and fits the arena; overrides the transient offsets and no other |
| `Lowering.RenderDispatches` | scripts/generate_static_direct_descriptor.py:368-455 | succeeds exactly on renderable dispatches and moves every binding to the home of its allocation |
| `Lowering.RenderCommands` | scripts/generate_static_direct_descriptor.py:457-516 | succeeds exactly on renderable commands and lowers each to its placed form |
| `Lowering.RenderDescriptor` | scripts/generate_static_direct_descriptor.py:311-520 | succeeds, without and with a memory plan, exactly under a condition on the schedule and the memory plan, repeated identifiers included; every dispatch and command of the descriptor has the numbers and windows of the schedule in their places, and the arena is that of the memory plan or the least that holds placements, transients and peak |
| `Lowering.LoweringSaysSchedule` | scripts/generate_static_direct_descriptor.py:368-516 | number by number: ordinals, grids, constants and windows of the descriptor are those of the schedule, offsets moved by that of the allocation |
| `Lowering.ReferenceSaysSchedule` | scripts/generate_static_direct_descriptor.py:368-516 | the reference run has the same numbers, on windows of the allocations themselves |
| `Lowering.EffectiveArenaSizeIs` | scripts/generate_static_direct_descriptor.py:330-335 | without a memory plan the arena holds every placed end, every transient and the given peak, and is one of these or 0 |
| `Lowering.SizesAgree` | scripts/generate_static_direct_descriptor.py:216-223 | the sizes by identifier, of which a later duplicate wins, are those of the verifier when no identifier repeats |
| `Lowering.ReportIsAcceptedMemoryPlan` | scripts/generate_static_direct_descriptor.py:226-278 | the report of an accepted schedule, read back as a memory plan, fits, and holds the planned offsets, unused transients included |
| `Lowering.ReportRendersAgain` | scripts/generate_static_direct_descriptor.py:330-343 | an accepted and renderable schedule can always be rendered from its own report |
| `Lowering.ReportReproducesDescriptor` | scripts/generate_static_direct_descriptor.py:330-343 | the descriptor rendered from the report is the one rendered without it |
| `StaticDirect.CheckedSlicePtr` | ai/src/ai_static_direct.c:42-66 | succeeds exactly when the region is present and offset plus length do not exceed its size, and points to the offset; tested in the overflow-free form |
| `StaticDirect.CallKernel` | ai/src/ai_static_direct.c:138-148 | running a kernel through the collected pointers is running it on the windows |
| `StaticDirect.GroupOfNest` | ai/src/ai_static_direct.c:134-149 | the three nested loops reach every workgroup at its place in the linear order, with z stored in 16 bits |
| `StaticDirect.RunWorkgroups` | ai/src/ai_static_direct.c:134-149 | the loops run the workgroup programs in order up to the first failure |
| `StaticDirect.IssueDispatchCommand` | ai/src/ai_static_direct.c:90-152 | status and regions are those of the specification of a dispatch; it is unsupported, or else its slices invalid, exactly as the order of the checks says, and then nothing changes |
| `StaticDirect.IssueFill` | ai/src/ai_static_direct.c:154-167 | status and regions are those of the specification of a fill; refused exactly when the region is absent or too small, and then nothing changes |
| `StaticDirect.IssueCommand` | ai/src/ai_static_direct.c:169-193 | status and regions are those of the specification of a command; exactly one without a dispatch or of an unknown type is an invalid descriptor, and then nothing changes |
| `StaticDirect.Invoke` | ai/src/ai_static_direct.c:200-242 | refuses exactly null arguments, an empty dispatch table, unsupported features and small regions, without touching memory; otherwise replays the commands up to the first failure |
| `Refinement.CommandIsRelocated` | scripts/generate_static_direct_descriptor.py:395-500 | every command of the descriptor is the reference command with each window moved to a live home |
| `Lockstep.LiveHomesAreApart` | scripts/generate_static_direct_descriptor.py:152-174 | the homes of the buffers one command may touch are disjoint, although homes of different times share bytes |
| `Lockstep.StaysInStep` | ai/src/ai_static_direct.c:216-228 | the relation between the packed and the reference run survives one command, also one that fails |
| `Lockstep.AlwaysInStep` | ai/src/ai_static_direct.c:216-228 | the relation holds before every command of the run |
| `Refinement.DeployedIsValid` | scripts/generate_static_direct_descriptor.py:226-278 | what is rendered, with or without a memory plan, meets what the lock step relies on if and only if a memory plan keeps live transients apart |
| `Refinement.PackingPreservesMeaning` | scripts/generate_static_direct_descriptor.py:120-278 | for every accepted schedule, packed by the planner or by a memory plan that keeps live transients apart, some separate buffers with arbitrary transient contents run in lock step with the packed regions: same status before every command, no slice refused, same inputs, outputs and constants, same transients from first use to just after last use |
| `SharedBytes.SharedPlanIsDeployed` | scripts/generate_static_direct_descriptor.py:226-278 | a memory plan with two live transients on one byte passes every check and is rendered |
| `SharedBytes.SharedBytesBreakTheRun` | scripts/generate_static_direct_descriptor.py:226-278 | with that plan no choice of separate buffers runs like the packed regions: the output gets the other byte |
| `Refinement.NeverInvalidSlice` | ai/src/ai_static_direct.c:42-66 | no command of a deployed schedule is refused for the bounds of a slice |
| `Refinement.PlacedSliceFits` | scripts/generate_static_direct_descriptor.py:395-435 | every emitted window ends inside its region, so its numbers fit 32 bits when the four totals do |
| `Refinement.EveryStaticByteIsOwned` | scripts/generate_static_direct_descriptor.py:188-213 | static regions have no gaps |
| `Refinement.OutputBytesAreReferenceBytes` | scripts/generate_static_direct_descriptor.py:188-213 | every byte of the packed output region is a byte of some output buffer of the reference run |
| `Refinement.InvokeReplaysCommands` | ai/src/ai_static_direct.c:216-239 | for a deployed schedule with a dispatch the fallback over the dispatch table is never taken |
| `EndToEnd.VerifyRenderInvoke` | ai/src/ai_static_direct.c:200-242 | verifying, rendering (with a memory plan or without) and invoking in one: runs exactly when accepted and renderable, and then, if a memory plan keeps live transients apart, ends with the status and the output bytes of a run with one buffer per allocation, never with an invalid slice |
| `Remap.BuildRemapPlan` | scripts/generate_static_direct_remap_plan.py:78-241 | succeeds exactly on valid arguments; the new arena holds the rebased region and behind it the scratch buffer at the next aligned offset |
| `Remap.RenderedPlanIsSane` | scripts/generate_static_direct_remap_plan.py:78-241 | for a plan made of a summary the rendered constants are sane if and only if patch and scratch lie in the arena apart from each other; the new arena has the size of the plan |
| `Remap.OverlapIsAccepted` | scripts/generate_static_direct_remap_plan.py:132-179 | a scratch buffer that is the patch itself is accepted |
| `Remap.RemapArenaSlice` | scripts/generate_static_direct_remap_plan.py:380-430 | rewrites one binding in place as the branch table says and leaves the others; a window outside the arena and a refused one stay as they are |
| `Remap.RemapBigSuffixConstants` | scripts/generate_static_direct_remap_plan.py:432-440 | takes the internal base off exactly the constants in the declared range; every other constant stays |
| `Remap.OtherRegionsPassUnchanged` | scripts/generate_static_direct_remap_plan.py:386-388 | input, output and constant windows pass unchanged at every command, whatever the constants |
| `Remap.WindowsBeforePassUnchanged` | scripts/generate_static_direct_remap_plan.py:402-430 | arena windows that start neither in the patch or behind it, nor where the scratch rule looks, pass unchanged at every command |
| `Remap.OnlyTheOffsetMoves` | scripts/generate_static_direct_remap_plan.py:380-430 | for all constants: only the whole patch binding changes its length and raises the flag, no slice leaves its region, and a refused one is left as it was |
| `Remap.ScratchRelocationIsExact` | scripts/generate_static_direct_remap_plan.py:402-421 | for all sane constants: every scratch window is moved correctly if and only if the buffer was at offset 0, or lies past its own length and the other rules leave it at or shift it to its new place; where the patch ends the arena that is offset 0 or a buffer that does not move |
| `Remap.ScratchRelocationCanFail` | scripts/generate_static_direct_remap_plan.py:402-411 | a scratch buffer at offset 64 is moved to the wrong place |
| `Remap.ScratchBehindThePatchCanBeRight` | scripts/generate_static_direct_remap_plan.py:402-421 | a buffer behind the patch, moved correctly by the shift for the patch although its own rule does not apply |
| `Remap.RemapIsRightExactly` | scripts/generate_static_direct_remap_plan.py:380-430 | all retained windows are relocated and the whole binding becomes the rebased region if and only if the patch ends the arena and the scratch buffer was at offset 0 or stays past its own length |
| `Remap.RetainedIsRelocated` | scripts/generate_static_direct_remap_plan.py:402-421 | retained windows keep their length, move to their new address and land inside the new arena |
| `Remap.RetainedBytesAreRelocated` | scripts/generate_static_direct_remap_plan.py:402-421 | every byte of a retained window moves to its own new address |
| `Remap.RemappingKeepsDisjointness` | scripts/generate_static_direct_remap_plan.py:402-421 | retained windows are disjoint after remapping exactly when they were before |
| `Remap.WholeBindingShrinksToRebasedRegion` | scripts/generate_static_direct_remap_plan.py:391-400 | the shrunk binding is the rebased region exactly when the patch allocation ends the arena |
| `Remap.ConstantsAndSlicesAgree` | scripts/generate_static_direct_remap_plan.py:391-440 | a byte named by the shrunk binding plus a remapped constant is the byte a directly shifted slice names |
| `Remap.RefusedExactly` | scripts/generate_static_direct_remap_plan.py:402-427 | while the patch is live a slice is refused exactly if it starts between binding base and rebased region or overruns its buffer |
| `Remap.AfterPatchEndRefusedExactly` | scripts/generate_static_direct_remap_plan.py:391-430 | after the end of the patch alone exactly the whole binding and what overruns the scratch rule are refused; in a right plan every other window of the patch passes unchanged |
| `Remap.AfterScratchEndNothingIsRefused` | scripts/generate_static_direct_remap_plan.py:402-430 | after the end of the scratch buffer alone no window of it is refused |
| `Remap.AfterTheEndsOnlyTheWholeBindingIsRefused` | scripts/generate_static_direct_remap_plan.py:391-430 | after both remap ends every slice but the whole binding passes unchanged, whatever the constants |
| `Remap.DocumentedRejectionCanFail` | scripts/generate_static_direct_remap_plan.py:235-240 | slices used after the end of the patch, before and after that of the scratch buffer, are let through although the fourth documented rule rejects them |
| `ValueEval.Sweep` | scripts/extract_iree_hal_schedule.py:133-245 | a sweep is the lines applied one after the other; it reports a change exactly when the table was not closed under the lines |
| `ValueEval.EndsExactly` | scripts/extract_iree_hal_schedule.py:120-245 | the repetition ends without raising if and only if some table is closed under the lines, and then at the least such table; names may be defined twice |
| `ValueEval.ParseValues` | scripts/extract_iree_hal_schedule.py:120-245 | returns the least closed table, exactly when there is one; under single assignment that is the denotation of the definitions, and it raises exactly when a definition with resolvable operands has no value |
| `ValueEval.EvalIsMeaning` | scripts/extract_iree_hal_schedule.py:133-245 | what every operator computes, and where it raises: floor and ceiling quotients, least multiples, residues, the logical shift on 64 bits, comparisons, and the first operand of a select unless the condition is 0 |
| `ValueEval.BitAndBits` | scripts/extract_iree_hal_schedule.py:165-168 | the conjunction works bit by bit, on negative integers too |
| `ValueEval.SingleAssignmentIsEvaluated` | scripts/extract_iree_hal_schedule.py:120-245 | single-assignment code never makes the repetition run forever |
| `ValueEval.DenotationIsUnique` | scripts/extract_iree_hal_schedule.py:120-245 | a name denotes at most one value |
| `ValueEval.ClosedIsComplete` | scripts/extract_iree_hal_schedule.py:133-245 | a table a sweep leaves unchanged contains every denotation |
| `ValueEval.OrderIsIrrelevant` | scripts/extract_iree_hal_schedule.py:120-245 | reordering the lines changes no denotation |
| `ValueEval.ConflictingLiteralsNeverSettle` | scripts/extract_iree_hal_schedule.py:133-245 | two literals of different value for one name, among any other lines: the repetition never ends without raising |
| `ValueEval.ConflictingLiteralsRunForever` | scripts/extract_iree_hal_schedule.py:133-245 | if moreover no line can raise, the repetition runs forever |
| `ValueEval.ParseValueInfo` | scripts/analyze_iree_compile_dump.py:165-216 | one pass over any lines; under single assignment it records exactly the lines whose operands earlier lines recorded, with their denotations and the addends of sums |
| `ValueEval.AdditiveTermsAddUp` | scripts/analyze_iree_compile_dump.py:227-235 | the terms of a recorded value add back to it and none of them is a recorded sum |
| `CfgLinearise.ResolveAlias` | scripts/extract_iree_hal_schedule.py:293-299 | when aliases point to roots the chain walk is one lookup |
| `CfgLinearise.FindBranch` | scripts/extract_iree_hal_schedule.py:340-343 | the last branch line of a block decides |
| `CfgLinearise.BindSequentially` | scripts/extract_iree_hal_schedule.py:357-364 | binding arguments one by one against the growing table is parallel binding for a block not entered before |
| `CfgLinearise.LineariseReachableLines` | scripts/extract_iree_hal_schedule.py:319-364 | for every graph the lines, errors and the loop error are those of the run that reads conditions by name, and in SSA form so are the aliases; when no block argument has a value of its own, they are those of the execution that reads conditions through its bindings, unless a condition was unresolved, and also then if no bound argument is tested |
| `CfgTrace.OutcomeIsTrace` | scripts/extract_iree_hal_schedule.py:319-364 | a walk that succeeds returns the lines of its blocks one after the other, from the entry to a block without a branch; each next block is the target of the last branch line, its first one unless the condition is 0; arguments are bound to the roots of the operands in their order, all other bindings stay |
| `CfgLinearise.LoopErrorMeansDivergence` | scripts/extract_iree_hal_schedule.py:331-334 | an outcome that is faithful to a run is the loop error exactly when that run never ends |
| `CfgLinearise.NamedReturnDiverges` | scripts/extract_iree_hal_schedule.py:331-334 | a run that reads conditions by name never ends once it returns to a block |
| `CfgLinearise.RepeatedLabelDiverges` | scripts/extract_iree_hal_schedule.py:331-334 | an execution that returns to a block, having tested no bound argument on the way, never ends |
| `CfgLinearise.OutcomeIsThatOfTheExecution` | scripts/extract_iree_hal_schedule.py:319-364 | every outcome of the walk but an unresolved condition is that of the execution |
| `CfgLinearise.ReadingsAgreeExactly` | scripts/extract_iree_hal_schedule.py:346-353 | the walk goes through the states of the execution if and only if no branch reached tests a block argument bound to a name with a value |
| `CfgLinearise.UnresolvedExactly` | scripts/extract_iree_hal_schedule.py:348-350 | an unresolved condition ends the walk where the execution still is, and ends the execution there too if and only if it is not a bound argument with a value |
| `CfgLinearise.TestedArgumentIsUnresolved` | scripts/extract_iree_hal_schedule.py:346-353 | a block that branches back to itself once on its argument: the execution returns to it and finishes, the walk fails |
| `Extract.EnsureExternalAllocation` | scripts/extract_iree_hal_schedule.py:471-494 | exactly when it is admitted, one buffer becomes large enough and no other changes; transients never grow |
| `Extract.ParseSubspans` | scripts/extract_iree_hal_schedule.py:497-520 | succeeds exactly when every line is good; later lines win; new bases enter as empty external buffers |
| `Extract.LastLineDecides` | scripts/extract_iree_hal_schedule.py:497-520 | a name stands for its last subspan line: the alias of its base, and the values of its offset and length |
| `Extract.ResolveBindingBase` | scripts/extract_iree_hal_schedule.py:564-598 | returns the one resolution there is and raises exactly when there is none, which is a cycle or a slot shorter than the summed offset |
| `Extract.ResolutionIsUnique` | scripts/extract_iree_hal_schedule.py:564-598 | a binding resolves to one base, offset and room at most |
| `Extract.CycleNeverResolves` | scripts/extract_iree_hal_schedule.py:579-584 | a chain that comes back to itself has no end |
| `Extract.LowerBinding` | scripts/extract_iree_hal_schedule.py:639-664 | succeeds exactly when the binding can be lowered and its root admits it; returns that slice and the enlarged table |
| `Extract.SlicesStartInsideExactly` | scripts/extract_iree_hal_schedule.py:564-664 | no lowered slice starts before its buffer if and only if no reference resolves, with room left, to a negative offset |
| `Extract.ParseSlots` | scripts/extract_iree_hal_schedule.py:770-806 | succeeds exactly when every slot binding resolves and is admitted; the slots fit their buffers |
| `Extract.SlotIsAtRoot` | scripts/extract_iree_hal_schedule.py:790-805 | a slot is at the root buffer of its binding, displaced by the summed offset of the chain and its own, with its own length |
| `Extract.ChainOffsetAddsUp` | scripts/extract_iree_hal_schedule.py:579-598 | the offset of a chain is the running total over all its subspans |
| `Extract.NegativeSubspanIsEmitted` | scripts/extract_iree_hal_schedule.py:497-520 | a negative subspan offset is admitted, emitted as it is, and refused by the verifier |
| `Extract.BindingIsInSlotOrAtRoot` | scripts/extract_iree_hal_schedule.py:564-664 | a lowered binding has its own length and is inside the window of a slot or at its root buffer, in both cases displaced by the summed offsets of its chain and its own |
| `ExtractCommands.ParseDispatch` | scripts/extract_iree_hal_schedule.py:613-679 | succeeds exactly when all tokens have values, the grid has three dimensions and every binding can be lowered; constants are kept modulo 2^32 |
| `ExtractCommands.ParseFill` | scripts/extract_iree_hal_schedule.py:682-723 | succeeds exactly when pattern and target resolve and are admitted; the pattern is kept modulo 256 |
| `ExtractCommands.ParseCommands` | scripts/extract_iree_hal_schedule.py:726-767 | succeeds exactly when every operation can be parsed against the first table, whatever the others do to it; the commands stand for the operations in order and run each dispatch once; all slices fit |
| `ExtractCommands.ProgramSays` | scripts/extract_iree_hal_schedule.py:613-767 | operation by operation: the i-th dispatch is run by the command in its place and has the values of its ordinal, its three workgroup counts and its constants modulo 2^32; a fill has its pattern modulo 256; each has one slice for each binding |
| `ExtractCommands.ExtractedProgramPasses` | scripts/verify_static_direct_schedule.py:65-120 | an extracted program passes the coverage check, and the bounds check when no reference resolves to a negative offset |
| `ExtractCommands.PassesBoundsExactly` | scripts/verify_static_direct_schedule.py:65-93 | whatever is extracted with given tables passes the bounds check if and only if no reference resolves, with room left, to a negative offset |
| `ExtractCommands.ExtractIndirect` | scripts/extract_iree_hal_schedule.py:845-907 | subspans, slots and commands in one: succeeds exactly when every line, slot and operation is good on its own; the program then stands for the operations over the one table of slots, each buffer keeps its first size or ends where a slot or slice ends, all of them fit, and new buffers are external ones that are named; without negative tokens the result passes the bounds and coverage checks |
| `Q31.RoundingHighMulIsExact` | ai/ukernel/rrtos_ai_ukernel.c:30-38 | equals floor((a*b + 2^30) / 2^31) exactly when not both operands are INT32_MIN |
| `Q31.DivisionIsNearest` | ai/ukernel/rrtos_ai_ukernel.c:40-52 | for exponents 1 to 30 the quotient is the nearest integer, ties away from zero |
| `Q31.NearestAwayIsUnique` | ai/ukernel/rrtos_ai_ukernel.c:40-52 | only one integer is nearest in that sense |
| `Q31.LargeExponentIsNearest` | ai/ukernel/rrtos_ai_ukernel.c:44-46 | for larger exponents the constant answer is the nearest one if and only if the value is in the stated range |
| `Q31.LargeExponentCanFail` | ai/ukernel/rrtos_ai_ukernel.c:44-46 | -1 with exponent 31 gives -1 although 0 is nearest |
| `Q31.ErrorBound` | ai/ukernel/rrtos_ai_ukernel.c:54-61 | with right shift r <= 30 the result differs from value*M*2^(-31-r) by at most 1/2 + 2^(-r-1) |
| `Q31.MultiplicationError` | ai/ukernel/rrtos_ai_ukernel.c:54-61 | unless something is shifted out of 32 bits, the product differs from value*M*2^(shift-31) by at most 1/2, and for a right shift r <= 30 by 2^(-r-1) more |
| `Q31.LeftShiftSaturates` | ai/ukernel/rrtos_ai_ukernel.c:54-61 | what is shifted out of 32 bits counts as the largest or smallest 32-bit value |
| `Q31.SaturateIsNearest` | ai/ukernel/rrtos_ai_ukernel.c:3-18 | the saturated byte is in the activation range and no other byte there is nearer to the value |
| `Q31.RequantizedByteIs` | ai/ukernel/rrtos_ai_ukernel.c:3-61 | a requantised byte is the nearest one of the activation range to zero point plus product, and within the error bound of the exact product on each side on which the range leaves room |
| `Q31.RequantizeMonotone` | ai/ukernel/rrtos_ai_ukernel.c:3-61 | the whole pipeline, left shift, clamp and saturation included, is non-decreasing in the accumulator for M >= 0 |
| `Q31.RequantizeCommutesWithMax` | ai/ukernel/rrtos_ai_ukernel.c:432-492 | requantising the largest accumulator of a window gives the largest requantised value |
| `Conv.IndexDecodes` | ai/ukernel/rrtos_ai_ukernel.c:357-362 | a row-major index determines its three coordinates, so different cells are written at different indices |
| `Conv.Accumulate` | ai/ukernel/rrtos_ai_ukernel.c:192-219 | the generic loops compute the bias plus all products of the zero-padded image; every index is in range |
| `Conv.AccumulateFast` | ai/ukernel/rrtos_ai_ukernel.c:231-285 | the loops with constants 7, 2 and 3 compute the same convolution |
| `Conv.ImpulseResponse` | ai/ukernel/rrtos_ai_ukernel.c:192-219 | a kernel with one weight away from its zero point gives the bias plus that weight times one pixel, in both layouts: that of the same input channel, at stride times output position less padding plus kernel position, or nothing outside the image |
| `Conv.KernelsSuperpose` | ai/ukernel/rrtos_ai_ukernel.c:192-219 | the convolution of a sum of kernels is the sum of the convolutions |
| `Conv.AccumulatorFits` | ai/ukernel/rrtos_ai_ukernel.c:183-229 | for int8 data no running sum leaves 32 bits when the bias leaves room for 255*255 at every tap |
| `Conv.AccumulatorFitsExactly` | ai/ukernel/rrtos_ai_ukernel.c:183-229 | where the window is inside the image, no running sum leaves 32 bits for all int8 data and zero points if and only if the bias leaves room for 255*255 at every tap, up and down |
| `Conv.LayoutsAgree` | ai/ukernel/rrtos_ai_ukernel.c:164-178 | HWIO and OHWI give equal accumulators on transposed weights |
| `Conv.Conv2dTile` | ai/ukernel/rrtos_ai_ukernel.c:180-229 | fails exactly on null or bad arguments and then writes nothing; otherwise every accumulator of the tile is the convolution |
| `Conv.RequantTile` | ai/ukernel/rrtos_ai_ukernel.c:432-449 | fails exactly on null arguments or a negative count; each of the first count bytes is the nearest of the activation range to the scaled accumulator, within the error bound; the rest stay |
| `FusedConv.WriteTile` | ai/ukernel/rrtos_ai_ukernel.c:305-366 | after the tile the padded output holds the requantised convolution at the cells of its rows and its old bytes elsewhere, on either path |
| `FusedConv.FusedTile` | ai/ukernel/rrtos_ai_ukernel.c:403-430 | fails exactly on null arguments, wrong ABI fields or bad parameters and then writes nothing; otherwise every cell of the tile, one row and column behind the halo, is the nearest byte of the activation range to the convolution scaled with the multiplier, shift and bias of its channel, on either path |
| `FusedConv.TileWritesExactly` | ai/ukernel/rrtos_ai_ukernel.c:305-366 | no halo row or column and no other row is ever written, every cell of the tile is |
| `FusedConv.TilingComposes` | ai/ukernel/rrtos_ai_ukernel.c:305-366 | any valid tiles that cover the rows, in any order, leave the output equal to one full-height call |
| `FusedConv.UnfusedPipelineAgrees` | ai/ukernel/rrtos_ai_ukernel.c:180-449 | accumulators followed by requantisation with one multiplier and shift are the int8 of the fused result at every cell |
| `FusedConv.RunBoth` | ai/ukernel/rrtos_ai_ukernel.c:180-449 | running the convolution and the requantisation kernel, and the fused kernel on the same tile: all succeed and the outputs agree at every cell |
| `MaxPool.PoolCell` | ai/ukernel/rrtos_ai_ukernel.c:472-484 | the window loops find the largest value of the window |
| `MaxPool.MaxPoolTile` | ai/ukernel/rrtos_ai_ukernel.c:451-492 | fails exactly on null or bad arguments; otherwise each row, column and channel of the tile holds the largest of the pixels of its window, which starts a stride times the position into the image |
| `MaxPool.OutputDimCountsPositions` | ai/ukernel/rrtos_ai_ukernel.c:461-466 | a window that fits the image has exactly as many output positions as places where it still fits |
| `MaxPool.ReadsInsideExactly` | ai/ukernel/rrtos_ai_ukernel.c:468-480 | an accepted tile reads only its image if and only if its last read does |
| `MaxPool.FittingWindowReadsInside` | ai/ukernel/rrtos_ai_ukernel.c:461-480 | a window that fits the image is read inside it, whatever the tile |
| `MaxPool.WindowsInsideExactly` | ai/ukernel/rrtos_ai_ukernel.c:461-466 | the windows of an accepted call stay inside the dimension if and only if the window is no larger than it |
| `MaxPool.OversizedWindowIsAccepted` | ai/ukernel/rrtos_ai_ukernel.c:461-466 | a 3-wide window on a 2-wide image with stride 2 is accepted, and the tile reads outside the image |
| `TopK.Partition` | federated/src/fl_compress.c:27-50 | one round moves values and indices together and leaves larger magnitudes before the pivot, the others behind |
| `TopK.MagnitudeIsAbsoluteValue` | federated/src/fl_compress.c:31 | the magnitude is the absolute value |
| `TopK.QuickselectPartition` | federated/src/fl_compress.c:24-60 | ends; the range is rearranged in pairs, nothing outside moves, and no entry before position k or at it is smaller than a later one |
| `TopK.CompressTopK` | federated/src/fl_compress.c:62-91 | fails exactly on a null pointer or a bad ratio and then changes nothing; otherwise the first entries are the tagged inputs rearranged, and for a non-empty input the first k are the largest of them |
| `TopK.KeepCountIsTruncation` | federated/src/fl_compress.c:68-70 | the count is the scaled size without its fraction, at least 1 and at most the capacity |
| `TopK.DecompressTopK` | federated/src/fl_compress.c:160-178 | fails exactly on a null pointer and then changes nothing; otherwise each output is the last kept entry for its position, or 0 |
| `TopK.ScatteredIsLast` | federated/src/fl_compress.c:170-175 | an output holds the value of the last kept entry for its position, or 0 if there is none |
| `TopK.TopKRoundTrip` | federated/src/fl_compress.c:62-178 | with room for all inputs exactly k positions are kept, they are the largest, and decompression returns the input with exactly the other positions zeroed |
| `TopK.RearrangedTagsAreSelection` | federated/src/fl_compress.c:75-84 | each entry still carries the input of its index and no index occurs twice |
| `TopK.CountFitsExactly` | federated/src/fl_compress.c:68-84 | the count stays within the copied entries if and only if the input is not empty or there is no room at all |
| `TopK.CapacityIsExact` | federated/src/fl_compress.c:62-91 | the largest are kept for all inputs of a size if and only if there is room for all of them, or for none |
| `TopK.ShortCapacityMissesTheLargest` | federated/src/fl_compress.c:75-84 | with less capacity than inputs there is an input whose largest entry is missed by every result |
| `AllocTrace.SortDescIsStableSort` | ai/src/ai_model_registry.c:69-96 | insertion after equal sizes is the stable descending sort |
| `AllocTrace.TruncationIsHarmless` | ai/src/ai_model_registry.c:84-95 | what falls off the end of the array can never come back |
| `AllocTrace.TopEightExtends` | ai/src/ai_model_registry.c:69-96 | the first eight of the sort after one more record come from the first eight before |
| `AllocTrace.LatestLargestIs` | ai/src/ai_model_registry.c:131-133 | the peak record is the latest of the largest |
| `AllocTrace.HeadHasPeakSize` | ai/src/ai_model_registry.c:69-133 | the head of the array has the size of the peak event |
| `AllocTrace.Trace.InsertLargest` | ai/src/ai_model_registry.c:69-96 | the shifting loop inserts the record at its place and drops the last entry; a zero size changes nothing |
| `AllocTrace.Trace.RecordAllocation` | ai/src/ai_model_registry.c:106-134 | after any run since reset the array is the first eight of the stable sort of the nonzero records and the peak event is the latest largest record |
| `AllocTrace.Trace.Reset` | ai/src/ai_model_registry.c:98-100 | reset is the trace of no records |
| `BumpArena.AcceptanceIsSoundWithoutWrap` | ai/src/ai_runtime.c:108-114 | an accepted request fits the arena exactly when no 32-bit sum wrapped |
| `BumpArena.WrappedSizeIsAccepted` | ai/src/ai_runtime.c:108-114 | the largest size wraps to an empty block and is accepted |
| `BumpArena.PayloadHoldsRequestExactly` | ai/src/ai_runtime.c:98-110 | a payload is at least the requested size if and only if that is at most 2^32 - 8; above that it is empty |
| `BumpArena.WrappedSumIsAccepted` | ai/src/ai_runtime.c:108-122 | a request whose sum wraps is always accepted and would move the end of the arena back |
| `BumpArena.TiledBlocksAreDisjoint` | ai/src/ai_runtime.c:70-132 | payloads are 8-aligned and blocks are inside the used part and pairwise disjoint |
| `BumpArena.RuntimeArena.AllocRaw` | ai/src/ai_runtime.c:70-89 | succeeds exactly when the size rounded in 32 bits fits, and then extends the used part by it |
| `BumpArena.RuntimeArena.AllocWithHeader` | ai/src/ai_runtime.c:98-132 | succeeds exactly when the size is not 0 and header and rounded size fit; adds one block at the end, stores its size, zeroes it if asked, and touches no byte below |
| `BumpArena.RuntimeArena.Malloc` | ai/src/ai_runtime.c:134-136 | allocation without zeroing |
| `BumpArena.RuntimeArena.Calloc` | ai/src/ai_runtime.c:138-140 | allocation with a zeroed payload |
| `BumpArena.RuntimeArena.Shrink` | ai/src/ai_runtime.c:156-160 | the in-place branch changes only the header |
| `BumpArena.RuntimeArena.Realloc` | ai/src/ai_runtime.c:142-169 | succeeds exactly when the size is not 0 and the block has room or the arena has; the result is a block that holds the new size, the same one when it has room and else a new last one; keeps the first min(old, new) payload bytes, no byte of another block changes, a failure changes nothing |
| `BumpArena.RuntimeArena.Reset` | ai/src/ai_runtime.c:91-96 | reset leaves no block and no peak |
| `BumpArena.RuntimeArena.ResetPeak` | ai/src/ai_runtime.c:250-252 | the peak restarts at the current use |
| `BumpArena.RuntimeArena.Store` | ai/src/ai_runtime.c:98-169 | a client's write inside a payload leaves headers and other blocks alone |
| `Clint.MtimeGet` | hal/src/hal_clint.c:9-20 | under arbitrary monotone ticking the result is the value mtime held at the low-word read of the last round, and each retry needs an increment of the high word |
| `Clint.ReadTwice` | hal/src/hal_clint.c:9-20 | successive reads never go backwards |
| `Clint.RoundIsAtomic` | hal/src/hal_clint.c:14-19 | equal high words around the low-word read make the assembled value exact |
| `Clint.CompareRegister.Set` | hal/src/hal_clint.c:22-29 | ends at the new value after three writes, none of which leaves less than the smaller of old and new |

## Left out

- Kernel scheduler, IPC, timers, heap, multi-core: not part of this model.
- IREE VM and HAL calls, model registry look-ups, board support, the federated client: foreign code or device input and output.
- Parsing of MLIR text, JSON and Markdown, and the C text that is emitted: the parsed data and the meaning of the emitted tables are modelled.
- `_allocation_class`, `_split_blocks`, `_transient_allocations`: their results are data of the model (`cls`, `Cfg`, the request list).
- Access strings, binding ordinals, the arena alignment and buffer-base fields of the descriptor: the interpreter never looks at them; an unknown access string, which the generator refuses, is not modelled.
- Descriptor literals of 2^32 and more: `_u32` checks only the sign. `Refinement.Fits32` says that the four totals fit, `PlacedSliceFits` that every window then does, and a completed invocation implies it; pattern, grid and constant literals are taken to fit.
- A schedule without dispatches is accepted by the verifier, and `Invoke` then refuses it; both are modelled as they are. A memory plan is demanded to keep live transients apart only for the comparison with separate buffers.
- Kernels: a kernel sees no addresses and nothing of the environment; a read outside its binding gives 0 and a write outside is dropped, where the C program would be undefined.
- The local pointer and length arrays of `issue_dispatch` are sequences; `memset` and `memcpy` are loops or parallel assignments.
- ValueEval.ParseValues: stated for lines on which it does not run forever, since a method has to end; `EndsExactly` says when it ends without raising. Whether a table that is never closed makes it raise or run forever is decided only where no line can raise (`ConflictingLiteralsRunForever`).
- CfgLinearise.LineariseReachableLines: the execution is compared for graphs no block argument of which has an entry in the value table, which holds the values of definitions; the aliases are compared in SSA form only, unique block arguments none of which is used before control has entered its block.
- ExtractCommands.ExtractIndirect: the text forms of the operations, the order in which failures are found, the cross-check with the stream dump and the count of native exports are left out.
- Remap.RemapArenaSlice: the loop of the rendered invoke function around it is not modelled.
- Conv.Conv2dTile: accumulators are unbounded integers; `AccumulatorFitsExactly` says when those of the source hold the same number for all data, and otherwise signed overflow is undefined in C. Buffer sizes are demanded where the call is accepted; the float-multiplier entry point is left out.
- FusedConv.FusedTile: accumulators as in `Conv2dTile`, and the sum with the output zero point is unbounded too. Buffer sizes are demanded where the call is accepted; the float-multiplier entry point is left out.
- Q31.ErrorBound: left shifts above 31, undefined in C, are not excluded but computed exactly.
- MaxPool.MaxPoolTile: demands of an accepted call that it reads nothing but the image, since otherwise the C code reads outside it (`ReadsInsideExactly`, `OversizedWindowIsAccepted`).
- TopK.CompressTopK: values are reals and the product of ratio and size is exact; NaN and float rounding are left out. QSGD, TernGrad, gradient clipping and noise are left out.
- BumpArena.RuntimeArena.Malloc: demands that the 32-bit sum of the test does not wrap; where it does, the source accepts and overwrites its own blocks (`WrappedSumIsAccepted`). The lower limit of 1024 bytes on the arena and the spinlock are left out.
- BumpArena.RuntimeArena.Calloc: demands that the 32-bit sum does not wrap, like `Malloc`.
- BumpArena.RuntimeArena.Realloc: demands that the 32-bit sum does not wrap when a new block is needed, like `Malloc`.
- BumpArena.RuntimeArena.AllocRaw: demands that the 32-bit sum does not wrap, like `Malloc`.
- BumpArena.RuntimeArena.AllocWithHeader: demands that the 32-bit sum does not wrap, like `Malloc`.
- Clint.MtimeGet: mtime does not wrap around 2^64.
