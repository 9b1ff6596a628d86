/**
  Lowering a planned schedule to the descriptor the C runtime replays (`render_descriptor` and
  `_apply_memory_plan` of generate_static_direct_descriptor.py).
 */
module Lowering {
  import opened Basics
  import opened Placement
  import opened Schedule
  import opened Machine
  import opened Simulation
  import opened ArenaSize
  import V = ScheduleVerifier

  datatype Descriptor = Descriptor(
    inputBytes: nat, outputBytes: nat, constBytes: nat, arenaBytes: nat,
    dispatches: seq<Dispatch<BufferClass>>,
    commands: seq<Work<BufferClass>>,
    unsupportedFeatures: nat)

  // ---------- what can be rendered ----------

  predicate AllNonNegative(numbers: seq<int>) {
    forall i :: 0 <= i < |numbers| ==> numbers[i] >= 0
  }

  predicate RenderableSlice(slice: Slice, classById: map<string, BufferClass>) {
    slice.base in classById && slice.offset >= 0 && slice.length >= 0
  }

  predicate RenderableSlices(slices: seq<Slice>, classById: map<string, BufferClass>) {
    forall j :: 0 <= j < |slices| ==> RenderableSlice(slices[j], classById)
  }

  predicate RenderableDispatch(d: DispatchEntry, classById: map<string, BufferClass>) {
    && d.ordinal >= 0
    && |d.workgroups| == 3 && AllNonNegative(d.workgroups)
    && AllNonNegative(d.constants)
    && RenderableSlices(d.bindings, classById)
  }

  predicate RenderableDispatches(dispatches: seq<DispatchEntry>, classById: map<string, BufferClass>) {
    forall d :: 0 <= d < |dispatches| ==> RenderableDispatch(dispatches[d], classById)
  }

  predicate RenderableCommand(c: Command, dispatches: seq<DispatchEntry>, classById: map<string, BufferClass>) {
    match c
    case RunDispatch(i) => 0 <= i < |dispatches|
    case Fill(target, pattern) => RenderableSlice(target, classById) && pattern >= 0
    case Unsupported => false
  }

  predicate RenderableCommands(
    commands: seq<Command>, dispatches: seq<DispatchEntry>, classById: map<string, BufferClass>)
  {
    forall k :: 0 <= k < |commands| ==> RenderableCommand(commands[k], dispatches, classById)
  }

  // ---------- the reference reading of a schedule ----------

  /** A slice as a window of its own allocation. */
  function DirectView(slice: Slice): View<string>
    requires slice.offset >= 0 && slice.length >= 0
  {
    View(slice.base, slice.offset, slice.length)
  }

  function GridOf(d: DispatchEntry): Grid
    requires |d.workgroups| == 3 && AllNonNegative(d.workgroups)
  {
    Grid(d.workgroups[0], d.workgroups[1], d.workgroups[2])
  }

  function Naturals(numbers: seq<int>): seq<nat>
    requires AllNonNegative(numbers)
  {
    seq(|numbers|, i requires 0 <= i < |numbers| => numbers[i])
  }

  function DirectDispatch(d: DispatchEntry, classById: map<string, BufferClass>): Dispatch<string>
    requires RenderableDispatch(d, classById)
  {
    Dispatch(d.ordinal, GridOf(d), Naturals(d.constants),
             seq(|d.bindings|, i requires 0 <= i < |d.bindings| => DirectView(d.bindings[i])))
  }

  function DirectWork(c: Command, dispatches: seq<DispatchEntry>, classById: map<string, BufferClass>): Work<string>
    requires RenderableCommand(c, dispatches, classById) && RenderableDispatches(dispatches, classById)
  {
    match c
    case RunDispatch(i) => Launch(DirectDispatch(dispatches[i], classById))
    case Fill(target, pattern) => Work.Fill(DirectView(target), pattern % 256)
  }

  /** The commands of a schedule, every allocation a buffer of its own. */
  function DirectWorks(
    commands: seq<Command>, dispatches: seq<DispatchEntry>, classById: map<string, BufferClass>)
    : (works: seq<Work<string>>)
    requires RenderableCommands(commands, dispatches, classById) && RenderableDispatches(dispatches, classById)
    ensures |works| == |commands|
  {
    seq(|commands|, k requires 0 <= k < |commands| => DirectWork(commands[k], dispatches, classById))
  }

  // ---------- homes ----------

  predicate HasOffsets(classById: map<string, BufferClass>, offsetById: map<string, nat>) {
    forall id :: id in classById ==> id in offsetById
  }

  /** The window of a region that the plan gives to an allocation of `size` bytes. */
  function Home(plan: Plan, id: string, size: nat): View<BufferClass>
    requires id in plan.classById && id in plan.offsetById
  {
    View(plan.classById[id], plan.offsetById[id], size)
  }

  function PlacedView(slice: Slice, plan: Plan): View<BufferClass>
    requires RenderableSlice(slice, plan.classById) && HasOffsets(plan.classById, plan.offsetById)
  {
    Relocate(DirectView(slice), Home(plan, slice.base, 0))
  }

  function PlacedViews(slices: seq<Slice>, plan: Plan): (views: seq<View<BufferClass>>)
    requires RenderableSlices(slices, plan.classById) && HasOffsets(plan.classById, plan.offsetById)
    ensures |views| == |slices|
  {
    seq(|slices|, j requires 0 <= j < |slices| => PlacedView(slices[j], plan))
  }

  function PlacedDispatch(d: DispatchEntry, plan: Plan): Dispatch<BufferClass>
    requires RenderableDispatch(d, plan.classById) && HasOffsets(plan.classById, plan.offsetById)
  {
    Dispatch(d.ordinal, GridOf(d), Naturals(d.constants), PlacedViews(d.bindings, plan))
  }

  function PlacedWork(c: Command, dispatches: seq<DispatchEntry>, plan: Plan): Work<BufferClass>
    requires RenderableDispatches(dispatches, plan.classById) && HasOffsets(plan.classById, plan.offsetById)
    requires RenderableCommand(c, dispatches, plan.classById)
  {
    match c
    case RunDispatch(i) => Launch(PlacedDispatch(dispatches[i], plan))
    case Fill(target, pattern) => Work.Fill(PlacedView(target, plan), pattern % 256)
  }

  /** The descriptor holds the schedule's commands with every slice moved to its allocation's home. */
  ghost predicate IsLowering(s: Schedule, plan: Plan, arenaBytes: nat, d: Descriptor) {
    && HasOffsets(plan.classById, plan.offsetById)
    && RenderableDispatches(s.dispatches, plan.classById)
    && RenderableCommands(V.Commands(s), s.dispatches, plan.classById)
    && d.inputBytes == plan.totals.input && d.outputBytes == plan.totals.output
    && d.constBytes == plan.totals.constant && d.arenaBytes == arenaBytes
    && |d.dispatches| == |s.dispatches|
    && (forall i :: 0 <= i < |s.dispatches| ==> d.dispatches[i] == PlacedDispatch(s.dispatches[i], plan))
    && |d.commands| == |V.Commands(s)|
    && (forall k :: 0 <= k < |d.commands| ==> d.commands[k] == PlacedWork(V.Commands(s)[k], s.dispatches, plan))
    && d.unsupportedFeatures == 0
  }

  // ---------- what a descriptor says, number by number ----------

  /** A window of a region: the allocation's class, its offset plus that of the slice, the slice's length. */
  predicate IsWindow(slice: Slice, plan: Plan, v: View<BufferClass>) {
    && slice.base in plan.classById && slice.base in plan.offsetById
    && v.key == plan.classById[slice.base]
    && v.offset == plan.offsetById[slice.base] + slice.offset
    && v.length == slice.length
  }

  /** A dispatch has the numbers of its entry, in their places. */
  predicate HasNumbers<K>(entry: DispatchEntry, d: Dispatch<K>) {
    && d.ordinal == entry.ordinal
    && |entry.workgroups| == 3
    && d.workgroups.x == entry.workgroups[0] && d.workgroups.y == entry.workgroups[1]
    && d.workgroups.z == entry.workgroups[2]
    && |d.constants| == |entry.constants|
    && (forall i :: 0 <= i < |entry.constants| ==> d.constants[i] == entry.constants[i])
    && |d.bindings| == |entry.bindings|
  }

  /** A dispatch of the descriptor has the numbers and windows of its entry. */
  predicate IsEntry(entry: DispatchEntry, plan: Plan, d: Dispatch<BufferClass>) {
    && HasNumbers(entry, d)
    && forall j :: 0 <= j < |entry.bindings| ==> IsWindow(entry.bindings[j], plan, d.bindings[j])
  }

  /** A window of a buffer of its own: that of the slice. */
  predicate IsOwnWindow(slice: Slice, v: View<string>) {
    v.key == slice.base && v.offset == slice.offset && v.length == slice.length
  }

  /** A command of the reference run is that of the schedule on the allocations themselves. */
  predicate IsOwnCommand(c: Command, dispatches: seq<DispatchEntry>, work: Work<string>) {
    match c
    case RunDispatch(i) =>
      && 0 <= i < |dispatches| && work.Launch? && HasNumbers(dispatches[i], work.dispatch)
      && forall j :: 0 <= j < |dispatches[i].bindings| ==>
           IsOwnWindow(dispatches[i].bindings[j], work.dispatch.bindings[j])
    case Fill(target, pattern) => work.Fill? && IsOwnWindow(target, work.target) && work.pattern % 256 == pattern % 256
    case Unsupported => false
  }

  lemma ReferenceSaysSchedule(
    commands: seq<Command>, dispatches: seq<DispatchEntry>, classById: map<string, BufferClass>, k: nat)
    requires RenderableCommands(commands, dispatches, classById) && RenderableDispatches(dispatches, classById)
    requires k < |commands|
    ensures IsOwnCommand(commands[k], dispatches, DirectWorks(commands, dispatches, classById)[k])
  {
    assert RenderableCommand(commands[k], dispatches, classById);
  }

  /** A command of the descriptor is that of the schedule; the interpreter uses the low byte of a pattern. */
  predicate IsCommand(c: Command, dispatches: seq<DispatchEntry>, plan: Plan, work: Work<BufferClass>) {
    match c
    case RunDispatch(i) => 0 <= i < |dispatches| && work.Launch? && IsEntry(dispatches[i], plan, work.dispatch)
    case Fill(target, pattern) =>
      work.Fill? && IsWindow(target, plan, work.target) && work.pattern % 256 == pattern % 256
    case Unsupported => false
  }

  ghost predicate SaysSchedule(s: Schedule, plan: Plan, d: Descriptor) {
    && |d.dispatches| == |s.dispatches| && |d.commands| == |V.Commands(s)|
    && (forall i :: 0 <= i < |s.dispatches| ==> IsEntry(s.dispatches[i], plan, d.dispatches[i]))
    && forall k :: 0 <= k < |d.commands| ==> IsCommand(V.Commands(s)[k], s.dispatches, plan, d.commands[k])
  }

  lemma PlacedEntryIs(entry: DispatchEntry, plan: Plan)
    requires HasOffsets(plan.classById, plan.offsetById) && RenderableDispatch(entry, plan.classById)
    ensures IsEntry(entry, plan, PlacedDispatch(entry, plan))
  {
  }

  lemma LoweringSaysSchedule(s: Schedule, plan: Plan, arenaBytes: nat, d: Descriptor)
    requires IsLowering(s, plan, arenaBytes, d)
    ensures SaysSchedule(s, plan, d)
  {
    forall i | 0 <= i < |s.dispatches|
      ensures IsEntry(s.dispatches[i], plan, PlacedDispatch(s.dispatches[i], plan))
    {
      PlacedEntryIs(s.dispatches[i], plan);
    }
    forall k | 0 <= k < |d.commands|
      ensures IsCommand(V.Commands(s)[k], s.dispatches, plan, d.commands[k])
    {
      assert RenderableCommand(V.Commands(s)[k], s.dispatches, plan.classById);
    }
  }

  /** The size of the arena: that of the memory plan, or the least that holds placements, transients and peak. */
  ghost predicate HasArenaSize(s: Schedule, memoryPlan: Option<MemoryPlan>, plan: Plan, arenaBytes: nat)
    requires WellFormed(s.allocations)
  {
    if memoryPlan.Some? then arenaBytes == memoryPlan.value.arenaBytes
    else
      && HoldsPlacements(s.allocations, FirstFit(Requests(ArenaAllocations(s.allocations), plan.intervals)),
                         s.peakTransientBytes, arenaBytes)
      && (DistinctIds(s.allocations) ==> IsArenaSize(s.allocations, plan, s.peakTransientBytes, arenaBytes))
  }

  lemma EffectiveArenaSizeIs(s: Schedule, plan: Plan)
    requires WellFormed(s.allocations) && IsPlan(s.allocations, s.dispatches, V.Commands(s), plan)
    requires s.peakTransientBytes.Some? ==> s.peakTransientBytes.value >= 0
    ensures HasArenaSize(s, None, plan, V.EffectiveArenaBytes(plan, s.peakTransientBytes))
  {
    var bytes := V.EffectiveArenaBytes(plan, s.peakTransientBytes);
    LargestSizeIs(s.allocations);
    PlacementsAreHeld(s.allocations, FirstFit(Requests(ArenaAllocations(s.allocations), plan.intervals)),
                      s.peakTransientBytes, plan.maxArenaAllocation, bytes);
    if DistinctIds(s.allocations) {
      PackedSizeIs(s.allocations, s.dispatches, V.Commands(s), plan);
      LargestIsArenaSize(s.allocations, plan, s.peakTransientBytes, plan.totals.arena, plan.maxArenaAllocation, bytes);
    }
  }

  // ---------- rendering ----------

  datatype RenderError = BadSchedule(error: Error) | BadDispatch | BadCommandEntry | BadMemoryPlan

  method RenderBindings(slices: seq<Slice>, plan: Plan) returns (r: Option<seq<View<BufferClass>>>)
    requires HasOffsets(plan.classById, plan.offsetById)
    ensures r.Some? <==> RenderableSlices(slices, plan.classById)
    ensures r.Some? ==> r.value == PlacedViews(slices, plan)
  {
    var views: seq<View<BufferClass>> := [];
    for j := 0 to |slices|
      invariant |views| == j
      invariant forall i :: 0 <= i < j ==>
                  RenderableSlice(slices[i], plan.classById) && views[i] == PlacedView(slices[i], plan)
    {
      var slice := slices[j];
      if slice.base !in plan.classById || slice.offset < 0 || slice.length < 0 {
        return None;
      }
      views := views + [View(plan.classById[slice.base], plan.offsetById[slice.base] + slice.offset, slice.length)];
    }
    r := Some(views);
  }

  method RenderDispatches(dispatches: seq<DispatchEntry>, plan: Plan)
    returns (r: Option<seq<Dispatch<BufferClass>>>)
    requires HasOffsets(plan.classById, plan.offsetById)
    ensures r.Some? <==> RenderableDispatches(dispatches, plan.classById)
    ensures r.Some? ==> |r.value| == |dispatches|
                        && forall i :: 0 <= i < |dispatches| ==> r.value[i] == PlacedDispatch(dispatches[i], plan)
  {
    var entries: seq<Dispatch<BufferClass>> := [];
    for i := 0 to |dispatches|
      invariant |entries| == i
      invariant forall j :: 0 <= j < i ==>
                  RenderableDispatch(dispatches[j], plan.classById) && entries[j] == PlacedDispatch(dispatches[j], plan)
    {
      var d := dispatches[i];
      if d.ordinal < 0 || |d.workgroups| != 3 || !AllNonNegative(d.workgroups) || !AllNonNegative(d.constants) {
        return None;
      }
      var views := RenderBindings(d.bindings, plan);
      if views.None? {
        return None;
      }
      entries := entries + [Dispatch(d.ordinal, GridOf(d), Naturals(d.constants), views.value)];
    }
    r := Some(entries);
  }

  method RenderCommands(commands: seq<Command>, dispatches: seq<DispatchEntry>, plan: Plan)
    returns (r: Option<seq<Work<BufferClass>>>)
    requires HasOffsets(plan.classById, plan.offsetById) && RenderableDispatches(dispatches, plan.classById)
    ensures r.Some? <==> RenderableCommands(commands, dispatches, plan.classById)
    ensures r.Some? ==> |r.value| == |commands|
                        && forall k :: 0 <= k < |commands| ==> r.value[k] == PlacedWork(commands[k], dispatches, plan)
  {
    var entries: seq<Work<BufferClass>> := [];
    for k := 0 to |commands|
      invariant |entries| == k
      invariant forall j :: 0 <= j < k ==>
                  && RenderableCommand(commands[j], dispatches, plan.classById)
                  && entries[j] == PlacedWork(commands[j], dispatches, plan)
    {
      match commands[k] {
        case RunDispatch(i) =>
          if i < 0 || i >= |dispatches| {
            return None;
          }
          entries := entries + [Launch(PlacedDispatch(dispatches[i], plan))];
        case Fill(target, pattern) =>
          if !RenderableSlice(target, plan.classById) || pattern < 0 {
            return None;
          }
          entries := entries + [Work.Fill(PlacedView(target, plan), pattern % 256)];
        case Unsupported =>
          return None;
      }
    }
    r := Some(entries);
  }

  // ---------- memory plans ----------

  datatype PlanEntry = PlanEntry(offset: int, size: int)

  /** A memory plan read from JSON; the three fixed totals are optional. */
  datatype MemoryPlan = MemoryPlan(
    inputBytes: Option<int>, outputBytes: Option<int>, constBytes: Option<int>,
    arenaBytes: int, placements: map<string, PlanEntry>)

  predicate EntryFits(memoryPlan: MemoryPlan, id: string, size: int) {
    && id in memoryPlan.placements
    && memoryPlan.placements[id].size == size
    && 0 <= size && 0 <= memoryPlan.placements[id].offset
    && memoryPlan.placements[id].offset + size <= memoryPlan.arenaBytes
  }

  predicate TotalMatches(declared: Option<int>, actual: nat) {
    declared.Some? ==> declared.value == actual
  }

  /** When a memory plan is accepted for a classified schedule. */
  ghost predicate MemoryPlanFits(memoryPlan: MemoryPlan, plan: Plan, sizes: map<string, nat>) {
    && TotalMatches(memoryPlan.inputBytes, plan.totals.input)
    && TotalMatches(memoryPlan.outputBytes, plan.totals.output)
    && TotalMatches(memoryPlan.constBytes, plan.totals.constant)
    && memoryPlan.arenaBytes >= 0
    && forall id :: IsArena(plan.classById, id) ==> id in sizes && EntryFits(memoryPlan, id, sizes[id])
  }

  /** `_apply_memory_plan`: overrides the arena offsets, and only those. */
  method ApplyMemoryPlan(memoryPlan: MemoryPlan, plan: Plan, sizes: map<string, nat>)
    returns (r: Option<map<string, nat>>)
    requires HasOffsets(plan.classById, plan.offsetById) && plan.classById.Keys <= sizes.Keys
    ensures r.Some? <==> MemoryPlanFits(memoryPlan, plan, sizes)
    ensures r.Some? ==> r.value.Keys == plan.offsetById.Keys
    ensures r.Some? ==> forall id :: id in plan.offsetById ==>
              r.value[id] == if IsArena(plan.classById, id) then memoryPlan.placements[id].offset
                             else plan.offsetById[id]
  {
    if !TotalMatches(memoryPlan.inputBytes, plan.totals.input)
      || !TotalMatches(memoryPlan.outputBytes, plan.totals.output)
      || !TotalMatches(memoryPlan.constBytes, plan.totals.constant)
      || memoryPlan.arenaBytes < 0
    {
      return None;
    }
    var offsets := plan.offsetById;
    var rest := plan.classById.Keys;
    while rest != {}
      invariant rest <= plan.classById.Keys
      invariant offsets.Keys == plan.offsetById.Keys
      invariant forall id :: IsArena(plan.classById, id) && id !in rest ==> EntryFits(memoryPlan, id, sizes[id])
      invariant forall id :: id in offsets ==>
                  offsets[id] == if IsArena(plan.classById, id) && id !in rest
                                 then memoryPlan.placements[id].offset else plan.offsetById[id]
    {
      var id :| id in rest;
      rest := rest - {id};
      if plan.classById[id] != Arena {
        continue;
      }
      if id !in memoryPlan.placements || memoryPlan.placements[id].size != sizes[id]
        || memoryPlan.placements[id].offset < 0
        || memoryPlan.placements[id].offset > memoryPlan.arenaBytes
        || memoryPlan.placements[id].size > memoryPlan.arenaBytes - memoryPlan.placements[id].offset
      {
        assert !EntryFits(memoryPlan, id, sizes[id]);
        return None;
      }
      offsets := offsets[id := memoryPlan.placements[id].offset];
    }
    r := Some(offsets);
  }

  /** The verifier's report, read back as a memory plan. */
  function PlanOfReport(report: V.Report): MemoryPlan {
    MemoryPlan(Some(report.inputBytes), Some(report.outputBytes), Some(report.constBytes), report.arenaBytes,
               map id | id in report.placements ::
                 PlanEntry(report.placements[id].offset, report.placements[id].size))
  }

  lemma ReportEntryFits(s: Schedule, plan: Plan, report: V.Report, sizes: map<string, nat>, i: nat)
    requires WellFormed(s.allocations) && SoundLayout(s.allocations, plan) && V.IsReport(s, plan, report)
    requires plan.classById == ClassById(s.allocations) && V.AreSizes(s.allocations, sizes)
    requires i < |s.allocations| && IsArena(plan.classById, s.allocations[i].id)
    ensures
      var id := s.allocations[i].id;
      && id in sizes && EntryFits(PlanOfReport(report), id, sizes[id])
      && id in plan.offsetById && PlanOfReport(report).placements[id].offset == plan.offsetById[id]
  {
    assert InRegion(s.allocations[i], plan) || plan.offsetById[s.allocations[i].id] == 0;
  }

  /**
    Feeding the verifier's report back as a memory plan always succeeds and reproduces the
    unplanned offsets, unused transients included.
   */
  lemma ReportIsAcceptedMemoryPlan(
    s: Schedule, plan: Plan, report: V.Report, sizes: map<string, nat>, requireExplicit: bool, allowEmpty: bool)
    requires V.Accepted(s, requireExplicit, allowEmpty)
    requires IsPlan(s.allocations, s.dispatches, V.Commands(s), plan) && V.IsReport(s, plan, report)
    requires V.AreSizes(s.allocations, sizes)
    ensures MemoryPlanFits(PlanOfReport(report), plan, sizes)
    ensures forall id :: IsArena(plan.classById, id) ==>
              && id in PlanOfReport(report).placements && id in plan.offsetById
              && PlanOfReport(report).placements[id].offset == plan.offsetById[id]
  {
    PlanIsSound(s.allocations, s.dispatches, V.Commands(s), plan);
    forall id | IsArena(plan.classById, id)
      ensures id in sizes && EntryFits(PlanOfReport(report), id, sizes[id])
      ensures id in plan.offsetById && PlanOfReport(report).placements[id].offset == plan.offsetById[id]
    {
      var i := ClassByIdKeys(s.allocations, id);
      ReportEntryFits(s, plan, report, sizes, i);
    }
  }

  /** The size of each identifier; a later duplicate wins. */
  function SizeById(allocations: seq<Allocation>): (sizes: map<string, nat>)
    requires WellFormed(allocations)
    ensures sizes.Keys == ClassById(allocations).Keys
  {
    if allocations == [] then map[]
    else
      var last := allocations[|allocations| - 1];
      SizeById(allocations[..|allocations| - 1])[last.id := last.size]
  }

  /** `_allocation_sizes` of the generator */
  method GeneratorSizes(allocations: seq<Allocation>) returns (sizes: map<string, nat>)
    requires WellFormed(allocations)
    ensures sizes == SizeById(allocations)
  {
    sizes := map[];
    for n := 0 to |allocations|
      invariant sizes == SizeById(allocations[..n])
    {
      assert allocations[..n + 1][..n] == allocations[..n];
      sizes := sizes[allocations[n].id := allocations[n].size];
    }
    assert allocations[..|allocations|] == allocations;
  }

  /** The verifier refuses duplicates; without them its sizes are the generator's. */
  lemma {:induction false} SizesAgree(allocations: seq<Allocation>, sizes: map<string, nat>)
    requires WellFormed(allocations) && DistinctIds(allocations)
    ensures V.AreSizes(allocations, SizeById(allocations))
    ensures V.AreSizes(allocations, sizes) ==> sizes == SizeById(allocations)
  {
    forall i | 0 <= i < |allocations|
      ensures allocations[i].id in SizeById(allocations)
      ensures SizeById(allocations)[allocations[i].id] == allocations[i].size
    {
      SizeByIdAt(allocations, i);
    }
    forall id | id in SizeById(allocations)
      ensures exists i :: 0 <= i < |allocations| && allocations[i].id == id
    {
      var i := ClassByIdKeys(allocations, id);
    }
    if V.AreSizes(allocations, sizes) {
      SizesAreUnique(allocations, sizes, SizeById(allocations));
    }
  }

  lemma {:induction false} SizeByIdAt(allocations: seq<Allocation>, i: nat)
    requires WellFormed(allocations) && DistinctIds(allocations) && i < |allocations|
    ensures allocations[i].id in SizeById(allocations)
    ensures SizeById(allocations)[allocations[i].id] == allocations[i].size
  {
    var n := |allocations| - 1;
    if i < n {
      assert allocations[..n][i] == allocations[i];
      SizeByIdAt(allocations[..n], i);
    }
  }

  /** The plan a descriptor is rendered from: the computed one, or with overridden arena offsets. */
  ghost predicate EffectivePlan(
    s: Schedule, memoryPlan: Option<MemoryPlan>, computed: Plan, used: Plan, arenaBytes: nat)
  {
    match memoryPlan
    case None =>
      used == computed && arenaBytes == V.EffectiveArenaBytes(computed, s.peakTransientBytes)
    case Some(m) =>
      && used == computed.(offsetById := used.offsetById)
      && arenaBytes == m.arenaBytes
      && used.offsetById.Keys == computed.offsetById.Keys
      && forall id :: id in computed.offsetById ==>
           if IsArena(computed.classById, id)
           then id in m.placements && used.offsetById[id] == m.placements[id].offset
           else used.offsetById[id] == computed.offsetById[id]
  }

  lemma {:induction false} ClassifiedHasOffsets(allocations: seq<Allocation>, plan: Plan)
    requires WellFormed(allocations)
    requires plan.classById == ClassById(allocations)
    requires plan.offsetById == StaticOffsets(allocations) + OffsetById(ArenaAllocations(allocations), plan.intervals)
    ensures HasOffsets(plan.classById, plan.offsetById)
  {
    OffsetKeys(allocations, plan.intervals);
  }

  lemma {:induction false} OffsetKeys(allocations: seq<Allocation>, intervals: map<string, Interval>)
    requires WellFormed(allocations)
    ensures ClassById(allocations).Keys <=
            StaticOffsets(allocations).Keys + OffsetById(ArenaAllocations(allocations), intervals).Keys
  {
    if allocations != [] {
      var n := |allocations| - 1;
      OffsetKeys(allocations[..n], intervals);
      var arena, before := ArenaAllocations(allocations), ArenaAllocations(allocations[..n]);
      if allocations[n].cls.value == Arena {
        assert arena[..|arena| - 1] == before;
      }
    }
  }

  method RenderBody(s: Schedule, plan: Plan, arenaBytes: nat) returns (r: Result<Descriptor, RenderError>)
    requires HasOffsets(plan.classById, plan.offsetById)
    ensures r.Ok? <==> RenderableDispatches(s.dispatches, plan.classById)
                       && RenderableCommands(V.Commands(s), s.dispatches, plan.classById)
    ensures r.Ok? ==> IsLowering(s, plan, arenaBytes, r.value)
  {
    var dispatches := RenderDispatches(s.dispatches, plan);
    if dispatches.None? {
      return Err(BadDispatch);
    }
    var commands := RenderCommands(V.Commands(s), s.dispatches, plan);
    if commands.None? {
      return Err(BadCommandEntry);
    }
    r := Ok(Descriptor(plan.totals.input, plan.totals.output, plan.totals.constant, arenaBytes,
                       dispatches.value, commands.value, 0));
  }

  /** What rendering demands of the schedule itself. */
  ghost predicate RenderableSchedule(s: Schedule) {
    && s.fixedShape && s.isLinear
    && WellFormed(s.allocations)
    && RenderableDispatches(s.dispatches, ClassById(s.allocations))
    && RenderableCommands(V.Commands(s), s.dispatches, ClassById(s.allocations))
  }

  /** The schedules that can be rendered without a memory plan. */
  ghost predicate Renderable(s: Schedule) {
    RenderableSchedule(s) && (s.peakTransientBytes.Some? ==> s.peakTransientBytes.value >= 0)
  }

  /** The schedules that can be rendered with a memory plan: it fits the computed one. */
  ghost predicate RenderableWith(s: Schedule, memoryPlan: MemoryPlan) {
    && RenderableSchedule(s)
    && forall plan :: IsPlan(s.allocations, s.dispatches, V.Commands(s), plan) ==>
         MemoryPlanFits(memoryPlan, plan, SizeById(s.allocations))
  }

  /** A schedule has one plan only. */
  lemma PlanIsUnique(s: Schedule, p: Plan, q: Plan)
    requires WellFormed(s.allocations)
    requires IsPlan(s.allocations, s.dispatches, V.Commands(s), p)
    requires IsPlan(s.allocations, s.dispatches, V.Commands(s), q)
    ensures p == q
  {
    IntervalsAreUnique(p.classById, s.dispatches, V.Commands(s), p.intervals, q.intervals);
  }

  lemma SizesAreUnique(allocations: seq<Allocation>, a: map<string, nat>, b: map<string, nat>)
    requires V.AreSizes(allocations, a) && V.AreSizes(allocations, b)
    ensures a == b
  {
    forall id
      ensures id in a <==> id in b
      ensures id in a && id in b ==> a[id] == b[id]
    {
      if id in a {
        var i :| 0 <= i < |allocations| && allocations[i].id == id;
      }
      if id in b {
        var i :| 0 <= i < |allocations| && allocations[i].id == id;
      }
    }
  }

  /** Fitting the one plan is fitting all of them. */
  lemma OnePlanDecides(s: Schedule, memoryPlan: MemoryPlan, plan: Plan)
    requires RenderableSchedule(s) && IsPlan(s.allocations, s.dispatches, V.Commands(s), plan)
    ensures RenderableWith(s, memoryPlan) <==> MemoryPlanFits(memoryPlan, plan, SizeById(s.allocations))
  {
    forall p | IsPlan(s.allocations, s.dispatches, V.Commands(s), p)
      ensures p == plan
    {
      PlanIsUnique(s, p, plan);
    }
  }

  /** An accepted schedule that can be rendered can be rendered again from the verifier's report. */
  lemma ReportRendersAgain(
    s: Schedule, plan: Plan, report: V.Report, sizes: map<string, nat>, requireExplicit: bool, allowEmpty: bool)
    requires V.Accepted(s, requireExplicit, allowEmpty) && Renderable(s)
    requires IsPlan(s.allocations, s.dispatches, V.Commands(s), plan) && V.IsReport(s, plan, report)
    requires V.AreSizes(s.allocations, sizes)
    ensures RenderableWith(s, PlanOfReport(report))
  {
    ReportIsAcceptedMemoryPlan(s, plan, report, sizes, requireExplicit, allowEmpty);
    SizesAgree(s.allocations, sizes);
    OnePlanDecides(s, PlanOfReport(report), plan);
  }

  lemma RenderableCommandsAreValid(
    commands: seq<Command>, dispatches: seq<DispatchEntry>, classById: map<string, BufferClass>)
    requires RenderableCommands(commands, dispatches, classById)
    ensures ValidCommands(commands, dispatches)
  {
    forall k | 0 <= k < |commands|
      ensures CommandSlices(commands[k], dispatches).Some?
    {
      assert RenderableCommand(commands[k], dispatches, classById);
    }
  }

  /** `render_descriptor` */
  method RenderDescriptor(s: Schedule, memoryPlan: Option<MemoryPlan>)
    returns (r: Result<Descriptor, RenderError>, ghost computed: Option<Plan>, ghost used: Option<Plan>)
    ensures memoryPlan.None? ==> (r.Ok? <==> Renderable(s))
    ensures memoryPlan.Some? ==> (r.Ok? <==> RenderableWith(s, memoryPlan.value))
    ensures r.Ok? ==>
              && WellFormed(s.allocations)
              && computed.Some? && used.Some?
              && IsPlan(s.allocations, s.dispatches, V.Commands(s), computed.value)
              && EffectivePlan(s, memoryPlan, computed.value, used.value, r.value.arenaBytes)
              && IsLowering(s, used.value, r.value.arenaBytes, r.value)
              && SaysSchedule(s, used.value, r.value)
              && HasArenaSize(s, memoryPlan, used.value, r.value.arenaBytes)
  {
    computed, used := None, None;
    if !s.fixedShape {
      return Err(BadSchedule(NotFixedShape)), None, None;
    }
    if !s.isLinear {
      return Err(BadSchedule(NotLinear)), None, None;
    }
    if RenderableSchedule(s) {
      RenderableCommandsAreValid(V.Commands(s), s.dispatches, ClassById(s.allocations));
    }
    var classified := ClassifyAllocations(s.allocations, s.dispatches, V.Commands(s));
    if classified.Err? {
      return Err(BadSchedule(classified.error)), None, None;
    }
    computed := Some(classified.value);
    r, used := RenderClassified(s, classified.value, memoryPlan);
    if r.Ok? {
      LoweringSaysSchedule(s, used.value, r.value.arenaBytes, r.value);
      if memoryPlan.None? {
        EffectiveArenaSizeIs(s, classified.value);
      }
    }
  }

  /** The rest of `render_descriptor`, once the allocations are classified. */
  method RenderClassified(s: Schedule, plan: Plan, memoryPlan: Option<MemoryPlan>)
    returns (r: Result<Descriptor, RenderError>, ghost used: Option<Plan>)
    requires s.fixedShape && s.isLinear && WellFormed(s.allocations)
    requires IsPlan(s.allocations, s.dispatches, V.Commands(s), plan)
    ensures memoryPlan.None? ==> (r.Ok? <==> Renderable(s))
    ensures memoryPlan.Some? ==> (r.Ok? <==> RenderableWith(s, memoryPlan.value))
    ensures r.Ok? ==>
              && used.Some?
              && EffectivePlan(s, memoryPlan, plan, used.value, r.value.arenaBytes)
              && IsLowering(s, used.value, r.value.arenaBytes, r.value)
  {
    ClassifiedHasOffsets(s.allocations, plan);
    if memoryPlan.Some? {
      r, used := RenderPlanned(s, plan, memoryPlan.value);
    } else if s.peakTransientBytes.Some? && s.peakTransientBytes.value < 0 {
      r, used := Err(BadSchedule(NegativeNumber)), None;
    } else {
      used := Some(plan);
      r := RenderBody(s, plan, EffectiveArena(plan, s.peakTransientBytes));
    }
  }

  /** The branch with a memory plan. */
  method RenderPlanned(s: Schedule, plan: Plan, memoryPlan: MemoryPlan)
    returns (r: Result<Descriptor, RenderError>, ghost used: Option<Plan>)
    requires s.fixedShape && s.isLinear && WellFormed(s.allocations)
    requires IsPlan(s.allocations, s.dispatches, V.Commands(s), plan) && HasOffsets(plan.classById, plan.offsetById)
    ensures r.Ok? <==> RenderableWith(s, memoryPlan)
    ensures r.Ok? ==>
              && used.Some?
              && EffectivePlan(s, Some(memoryPlan), plan, used.value, r.value.arenaBytes)
              && IsLowering(s, used.value, r.value.arenaBytes, r.value)
  {
    used := None;
    var sizes := GeneratorSizes(s.allocations);
    if RenderableSchedule(s) {
      OnePlanDecides(s, memoryPlan, plan);
    }
    var offsets := ApplyMemoryPlan(memoryPlan, plan, sizes);
    if offsets.None? {
      return Err(BadMemoryPlan), None;
    }
    used := Some(plan.(offsetById := offsets.value));
    r := RenderBody(s, plan.(offsetById := offsets.value), memoryPlan.arenaBytes);
  }

  function EffectiveArena(plan: Plan, peak: Option<int>): (bytes: nat)
    requires peak.Some? ==> peak.value >= 0
    ensures bytes == V.EffectiveArenaBytes(plan, peak)
  {
    V.EffectiveArenaBytes(plan, peak)
  }

  /** With the report as memory plan, the descriptor is the one rendered without it. */
  lemma ReportReproducesDescriptor(
    s: Schedule, plan: Plan, report: V.Report, used: Plan, planned: Descriptor, unplanned: Descriptor,
    requireExplicit: bool, allowEmpty: bool)
    requires V.Accepted(s, requireExplicit, allowEmpty)
    requires IsPlan(s.allocations, s.dispatches, V.Commands(s), plan) && V.IsReport(s, plan, report)
    requires EffectivePlan(s, Some(PlanOfReport(report)), plan, used, planned.arenaBytes)
    requires IsLowering(s, used, planned.arenaBytes, planned)
    requires IsLowering(s, plan, V.EffectiveArenaBytes(plan, s.peakTransientBytes), unplanned)
    ensures planned == unplanned
  {
    forall id | id in plan.offsetById
      ensures used.offsetById[id] == plan.offsetById[id]
    {
      if IsArena(plan.classById, id) {
        PlanIsSound(s.allocations, s.dispatches, V.Commands(s), plan);
        var i := ClassByIdKeys(s.allocations, id);
      }
    }
    assert used.offsetById == plan.offsetById;
    assert used == plan;
    assert planned.dispatches == unplanned.dispatches;
    assert planned.commands == unplanned.commands;
  }
}
