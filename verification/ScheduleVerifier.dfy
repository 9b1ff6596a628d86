/**
  The independent checker of verify_static_direct_schedule.py. The main result is an exact
  acceptance condition that mentions neither of the two placement checks: on the planner's own
  output they cannot fail.
 */
module ScheduleVerifier {
  import opened Basics
  import opened Placement
  import opened Schedule
  import opened ArenaSize

  /** `_normalized_commands`: without an explicit list, every dispatch once in order. */
  function Commands(s: Schedule): seq<Command> {
    match s.commands
    case Some(commands) => commands
    case None => seq(|s.dispatches|, i => RunDispatch(i))
  }

  // ---------- allocation sizes ----------

  predicate SizedAllocations(allocations: seq<Allocation>) {
    && (forall i :: 0 <= i < |allocations| ==> allocations[i].id != "" && allocations[i].size >= 0)
    && DistinctIds(allocations)
  }

  /** `sizes` maps exactly the allocation identifiers, each to its size. */
  ghost predicate AreSizes(allocations: seq<Allocation>, sizes: map<string, nat>) {
    && (forall i :: 0 <= i < |allocations| ==>
          allocations[i].id in sizes && sizes[allocations[i].id] == allocations[i].size)
    && (forall id :: id in sizes ==> exists i :: 0 <= i < |allocations| && allocations[i].id == id)
  }

  /** `_allocation_sizes` */
  method AllocationSizes(allocations: seq<Allocation>) returns (r: Result<map<string, nat>, Error>)
    ensures r.Ok? <==> SizedAllocations(allocations)
    ensures r.Ok? ==> AreSizes(allocations, r.value)
    ensures r.Err? ==> r.error in {EmptyId, DuplicateId, NegativeNumber}
  {
    var sizes: map<string, nat> := map[];
    for n := 0 to |allocations|
      invariant SizedAllocations(allocations[..n])
      invariant forall i :: 0 <= i < n ==> allocations[i].id in sizes && sizes[allocations[i].id] == allocations[i].size
      invariant forall id :: id in sizes ==> exists i :: 0 <= i < n && allocations[i].id == id
    {
      var a := allocations[n];
      if a.id == "" {
        return Err(EmptyId);
      }
      if a.id in sizes {
        return Err(DuplicateId);
      }
      if a.size < 0 {
        return Err(NegativeNumber);
      }
      assert allocations[..n + 1] == allocations[..n] + [a];
      sizes := sizes[a.id := a.size];
    }
    assert allocations[..|allocations|] == allocations;
    r := Ok(sizes);
  }

  // ---------- slice bounds ----------

  /** The slice lies inside a declared allocation. */
  ghost predicate SliceInBounds(slice: Slice, allocations: seq<Allocation>) {
    && 0 <= slice.offset && 0 <= slice.length
    && exists i :: 0 <= i < |allocations| && allocations[i].id == slice.base
                   && slice.offset + slice.length <= allocations[i].size
  }

  ghost predicate SlicesInBounds(slices: seq<Slice>, allocations: seq<Allocation>) {
    forall j :: 0 <= j < |slices| ==> SliceInBounds(slices[j], allocations)
  }

  ghost predicate CommandsInBounds(commands: seq<Command>, dispatches: seq<DispatchEntry>, allocations: seq<Allocation>)
    requires ValidCommands(commands, dispatches)
  {
    forall k :: 0 <= k < |commands| ==> SlicesInBounds(CommandSlices(commands[k], dispatches).value, allocations)
  }

  method CheckCommandBounds(slices: seq<Slice>, ghost allocations: seq<Allocation>, sizes: map<string, nat>)
    returns (error: Option<Error>)
    requires SizedAllocations(allocations) && AreSizes(allocations, sizes)
    ensures error.None? <==> SlicesInBounds(slices, allocations)
    ensures error.Some? ==> error.value in {UnknownAllocation, NegativeNumber, SliceOutOfBounds}
  {
    for j := 0 to |slices|
      invariant SlicesInBounds(slices[..j], allocations)
    {
      var slice := slices[j];
      if slice.base !in sizes {
        return Some(UnknownAllocation);
      }
      if slice.offset < 0 || slice.length < 0 {
        return Some(NegativeNumber);
      }
      if slice.offset > sizes[slice.base] || slice.length > sizes[slice.base] - slice.offset {
        return Some(SliceOutOfBounds);
      }
    }
    assert slices[..|slices|] == slices;
    error := None;
  }

  /** `_check_slice_bounds` */
  method CheckSliceBounds(
    commands: seq<Command>, dispatches: seq<DispatchEntry>, ghost allocations: seq<Allocation>, sizes: map<string, nat>)
    returns (error: Option<Error>)
    requires ValidCommands(commands, dispatches)
    requires SizedAllocations(allocations) && AreSizes(allocations, sizes)
    ensures error.None? <==> CommandsInBounds(commands, dispatches, allocations)
    ensures error.Some? ==> error.value in {UnknownAllocation, NegativeNumber, SliceOutOfBounds}
  {
    for k := 0 to |commands|
      invariant forall i :: 0 <= i < k ==> SlicesInBounds(CommandSlices(commands[i], dispatches).value, allocations)
    {
      error := CheckCommandBounds(CommandSlices(commands[k], dispatches).value, allocations, sizes);
      if error.Some? {
        return;
      }
    }
    error := None;
  }

  // ---------- dispatch coverage ----------

  function Occurrences(commands: seq<Command>, d: int): nat {
    if commands == [] then 0
    else
      Occurrences(commands[..|commands| - 1], d) + if commands[|commands| - 1] == RunDispatch(d) then 1 else 0
  }

  /** Every dispatch is replayed exactly once. */
  ghost predicate EachDispatchedOnce(commands: seq<Command>, count: nat) {
    forall d :: 0 <= d < count ==> Occurrences(commands, d) == 1
  }

  /** Command `k` runs dispatch `d`, and no other does. */
  predicate IsOnlyRun(commands: seq<Command>, d: int, k: nat) {
    && k < |commands| && commands[k] == RunDispatch(d)
    && forall l :: 0 <= l < |commands| && l != k ==> commands[l] != RunDispatch(d)
  }

  ghost predicate HasOneCommand(commands: seq<Command>, d: int) {
    exists k: nat :: IsOnlyRun(commands, d, k)
  }

  lemma {:induction false} NoOccurrence(commands: seq<Command>, d: int)
    ensures Occurrences(commands, d) == 0 <==> forall l :: 0 <= l < |commands| ==> commands[l] != RunDispatch(d)
  {
    if commands != [] {
      var n := |commands| - 1;
      NoOccurrence(commands[..n], d);
      assert forall l :: 0 <= l < n ==> commands[l] == commands[..n][l];
    }
  }

  lemma {:induction false} OneOccurrence(commands: seq<Command>, d: int)
    ensures Occurrences(commands, d) == 1 <==> HasOneCommand(commands, d)
  {
    if commands != [] {
      var n := |commands| - 1;
      var front := commands[..n];
      OneOccurrence(front, d);
      NoOccurrence(front, d);
      assert forall l :: 0 <= l < n ==> commands[l] == front[l];
      if commands[n] == RunDispatch(d) {
        assert Occurrences(commands, d) == 1 ==> IsOnlyRun(commands, d, n);
        if k: nat :| IsOnlyRun(commands, d, k) {
          assert k == n;
        }
      } else {
        if k: nat :| IsOnlyRun(commands, d, k) {
          assert IsOnlyRun(front, d, k);
        }
        if k: nat :| IsOnlyRun(front, d, k) {
          assert IsOnlyRun(commands, d, k);
        }
      }
    }
  }

  /** Coverage means that each dispatch has a command of its own that runs it, and only that one. */
  lemma CoverageIsOneCommandEach(commands: seq<Command>, count: nat)
    ensures EachDispatchedOnce(commands, count) <==>
            forall d {:trigger HasOneCommand(commands, d)} :: 0 <= d < count ==> HasOneCommand(commands, d)
  {
    forall d | 0 <= d < count
      ensures Occurrences(commands, d) == 1 <==> HasOneCommand(commands, d)
    {
      OneOccurrence(commands, d);
    }
  }

  /** `_check_dispatch_command_coverage` */
  method CheckDispatchCoverage(commands: seq<Command>, dispatches: seq<DispatchEntry>) returns (error: Option<Error>)
    requires ValidCommands(commands, dispatches)
    ensures error.None? <==> EachDispatchedOnce(commands, |dispatches|)
    ensures error.Some? ==> error.value == DispatchCoverage
  {
    var seen: map<int, nat> := map[];
    for k := 0 to |commands|
      invariant forall d :: d in seen <==> Occurrences(commands[..k], d) > 0
      invariant forall d :: d in seen ==> 0 <= d < |dispatches| && seen[d] == Occurrences(commands[..k], d)
    {
      assert commands[..k + 1][..k] == commands[..k];
      assert CommandSlices(commands[k], dispatches).Some?;
      if commands[k].RunDispatch? {
        var d := commands[k].index;
        seen := seen[d := (if d in seen then seen[d] else 0) + 1];
      }
    }
    assert commands[..|commands|] == commands;
    var missing := exists d :: 0 <= d < |dispatches| && d !in seen;
    var repeated := exists d :: d in seen && seen[d] != 1;
    error := if missing || repeated then Some(DispatchCoverage) else None;
    if error.Some? {
      ghost var d :| (0 <= d < |dispatches| && d !in seen) || (d in seen && seen[d] != 1);
      assert Occurrences(commands, d) != 1;
    } else {
      forall d | 0 <= d < |dispatches|
        ensures Occurrences(commands, d) == 1
      {
        assert d in seen;
      }
    }
  }

  // ---------- transient conflicts ----------

  /** Two slices of one transient in one command are the same window or do not meet. */
  predicate SlicesAgree(a: Slice, b: Slice) {
    a.base == b.base ==>
      || (a.offset == b.offset && a.length == b.length)
      || !RangesOverlap(a.offset, a.length, b.offset, b.length)
  }

  predicate HoldsByte(slice: Slice, byte: int) {
    slice.offset <= byte < slice.offset + slice.length
  }

  ghost predicate ShareNoByte(a: Slice, b: Slice) {
    forall byte {:trigger HoldsByte(a, byte)} :: HoldsByte(a, byte) ==> !HoldsByte(b, byte)
  }

  /**
    What agreeing means for the bytes of the transient: two windows that hold bytes agree exactly when they are
    the same or have no byte in common. An empty window disagrees exactly when it lies inside another one.
   */
  lemma AgreementIsAboutBytes(a: Slice, b: Slice)
    requires a.base == b.base && a.length >= 0 && b.length >= 0
    ensures a.length > 0 && b.length > 0 ==> (SlicesAgree(a, b) <==> a == b || ShareNoByte(a, b))
    ensures a.length == 0 ==> (SlicesAgree(a, b) <==> !(b.offset < a.offset < b.offset + b.length))
  {
    if a.length > 0 && b.length > 0 && !SlicesAgree(a, b) {
      assert HoldsByte(a, Max(a.offset, b.offset)) && HoldsByte(b, Max(a.offset, b.offset));
    }
  }

  predicate TransientSlicesAgree(slices: seq<Slice>, classById: map<string, BufferClass>) {
    forall i, j :: 0 <= i < j < |slices| && IsArena(classById, slices[i].base) && IsArena(classById, slices[j].base)
      ==> SlicesAgree(slices[j], slices[i])
  }

  predicate CommandsAgree(commands: seq<Command>, dispatches: seq<DispatchEntry>, classById: map<string, BufferClass>)
    requires ValidCommands(commands, dispatches)
  {
    forall k :: 0 <= k < |commands| ==> TransientSlicesAgree(CommandSlices(commands[k], dispatches).value, classById)
  }

  lemma ArenaIndex(allocations: seq<Allocation>, plan: Plan, slice: Slice) returns (i: nat)
    requires WellFormed(allocations) && KnowsAll(allocations, plan)
    requires SliceInBounds(slice, allocations)
    ensures i < |allocations| && allocations[i].id == slice.base
    ensures slice.offset + slice.length <= allocations[i].size
    ensures slice.base in plan.classById && plan.classById[slice.base] == allocations[i].cls.value
    ensures slice.base in plan.offsetById
  {
    i :| 0 <= i < |allocations| && allocations[i].id == slice.base
         && slice.offset + slice.length <= allocations[i].size;
  }

  /** Windows of two different transients used by one command never meet in the arena. */
  lemma TransientsOfOneCommandAreApart(
    allocations: seq<Allocation>, plan: Plan, a: Slice, b: Slice, k: nat)
    requires WellFormed(allocations) && DistinctIds(allocations) && SoundLayout(allocations, plan)
    requires SliceInBounds(a, allocations) && SliceInBounds(b, allocations)
    requires a.base != b.base && IsArena(plan.classById, a.base) && IsArena(plan.classById, b.base)
    requires Covers(plan.intervals, a.base, k) && Covers(plan.intervals, b.base, k)
    ensures a.base in plan.offsetById && b.base in plan.offsetById
    ensures !RangesOverlap(plan.offsetById[a.base] + a.offset, a.length, plan.offsetById[b.base] + b.offset, b.length)
  {
    var i := ArenaIndex(allocations, plan, a);
    var j := ArenaIndex(allocations, plan, b);
    var lo, hi := allocations[Min(i, j)], allocations[Max(i, j)];
    assert Coexist(lo, hi, plan);
    assert !RangesOverlap(plan.offsetById[lo.id], lo.size, plan.offsetById[hi.id], hi.size);
  }

  /** One slice against an earlier one of the same command. */
  method CheckSlicePair(slice: Slice, other: Slice, ghost allocations: seq<Allocation>, plan: Plan, ghost k: nat)
    returns (error: Option<Error>)
    requires WellFormed(allocations) && DistinctIds(allocations) && SoundLayout(allocations, plan)
    requires SliceInBounds(slice, allocations) && SliceInBounds(other, allocations)
    requires IsArena(plan.classById, slice.base) && Covers(plan.intervals, slice.base, k)
    requires IsArena(plan.classById, other.base) && Covers(plan.intervals, other.base, k)
    ensures error.None? <==> SlicesAgree(slice, other)
    ensures error.Some? ==> error.value == OverlapWithinAllocation
  {
    ghost var i := ArenaIndex(allocations, plan, slice);
    ghost var j := ArenaIndex(allocations, plan, other);
    var placedOffset := plan.offsetById[slice.base] + slice.offset;
    var otherOffset := plan.offsetById[other.base] + other.offset;
    if slice.base == other.base && placedOffset == otherOffset && slice.length == other.length {
      return None;
    }
    if RangesOverlap(placedOffset, slice.length, otherOffset, other.length) {
      if slice.base == other.base {
        return Some(OverlapWithinAllocation);
      }
      TransientsOfOneCommandAreApart(allocations, plan, slice, other, k);
      return Some(OverlapAcrossAllocations);
    }
    error := None;
  }

  /** Slice `j` agrees with every earlier slice of its transient. */
  predicate AgreesWithEarlier(slices: seq<Slice>, j: nat, classById: map<string, BufferClass>)
    requires j < |slices|
  {
    IsArena(classById, slices[j].base) ==>
      forall i :: 0 <= i < j && IsArena(classById, slices[i].base) ==> SlicesAgree(slices[j], slices[i])
  }

  /** The slices lie in their allocations, and the transients among them are live. */
  ghost predicate LiveSlices(slices: seq<Slice>, allocations: seq<Allocation>, plan: Plan, k: nat) {
    && SlicesInBounds(slices, allocations)
    && forall j :: 0 <= j < |slices| && IsArena(plan.classById, slices[j].base) ==>
         Covers(plan.intervals, slices[j].base, k)
  }

  /** The inner loop of `_check_transient_conflicts`. */
  method CheckAgainstEarlier(
    slices: seq<Slice>, j: nat, ghost allocations: seq<Allocation>, plan: Plan, ghost k: nat)
    returns (error: Option<Error>)
    requires WellFormed(allocations) && DistinctIds(allocations) && SoundLayout(allocations, plan)
    requires LiveSlices(slices, allocations, plan, k) && j < |slices|
    ensures error.None? <==> AgreesWithEarlier(slices, j, plan.classById)
    ensures error.Some? ==> error.value == OverlapWithinAllocation
  {
    if !IsArena(plan.classById, slices[j].base) {
      return None;
    }
    for i := 0 to j
      invariant forall i' :: 0 <= i' < i && IsArena(plan.classById, slices[i'].base) ==>
                  SlicesAgree(slices[j], slices[i'])
    {
      if !IsArena(plan.classById, slices[i].base) {
        continue;
      }
      error := CheckSlicePair(slices[j], slices[i], allocations, plan, k);
      if error.Some? {
        return;
      }
    }
    error := None;
  }

  /** One command of `_check_transient_conflicts`. */
  method CheckCommandConflicts(
    slices: seq<Slice>, ghost allocations: seq<Allocation>, plan: Plan, ghost k: nat) returns (error: Option<Error>)
    requires WellFormed(allocations) && DistinctIds(allocations) && SoundLayout(allocations, plan)
    requires LiveSlices(slices, allocations, plan, k)
    ensures error.None? <==> TransientSlicesAgree(slices, plan.classById)
    ensures error.Some? ==> error.value == OverlapWithinAllocation
  {
    for j := 0 to |slices|
      invariant forall j' :: 0 <= j' < j ==> AgreesWithEarlier(slices, j', plan.classById)
    {
      error := CheckAgainstEarlier(slices, j, allocations, plan, k);
      if error.Some? {
        return;
      }
    }
    forall i, j |
      && 0 <= i < j < |slices|
      && IsArena(plan.classById, slices[i].base) && IsArena(plan.classById, slices[j].base)
      ensures SlicesAgree(slices[j], slices[i])
    {
      assert AgreesWithEarlier(slices, j, plan.classById);
    }
    error := None;
  }

  /** `_check_transient_conflicts`: the cross-allocation branch never fires. */
  method CheckTransientConflicts(
    commands: seq<Command>, dispatches: seq<DispatchEntry>, ghost allocations: seq<Allocation>, plan: Plan)
    returns (error: Option<Error>)
    requires ValidCommands(commands, dispatches)
    requires WellFormed(allocations) && DistinctIds(allocations) && SoundLayout(allocations, plan)
    requires AreIntervals(plan.classById, dispatches, commands, plan.intervals)
    requires CommandsInBounds(commands, dispatches, allocations)
    ensures error.None? <==> CommandsAgree(commands, dispatches, plan.classById)
    ensures error.Some? ==> error.value == OverlapWithinAllocation
  {
    for k := 0 to |commands|
      invariant forall i :: 0 <= i < k ==>
                  TransientSlicesAgree(CommandSlices(commands[i], dispatches).value, plan.classById)
    {
      ghost var slices := CommandSlices(commands[k], dispatches).value;
      forall j | 0 <= j < |slices| && IsArena(plan.classById, slices[j].base)
        ensures Covers(plan.intervals, slices[j].base, k)
      {
        assert UsesAt(commands, dispatches, k, j, slices[j].base);
      }
      error := CheckCommandConflicts(CommandSlices(commands[k], dispatches).value, allocations, plan, k);
      if error.Some? {
        return;
      }
    }
    error := None;
  }

  /** `_check_transient_pairwise_placement`: never fails on the planner's output. */
  method CheckPairwisePlacement(allocations: seq<Allocation>, plan: Plan) returns (error: Option<Error>)
    requires WellFormed(allocations) && DistinctIds(allocations) && SoundLayout(allocations, plan)
    ensures error.None?
  {
    for i := 0 to |allocations| {
      var lhs := allocations[i];
      if lhs.cls.value != Arena || lhs.id !in plan.intervals {
        continue;
      }
      for j := i + 1 to |allocations| {
        var rhs := allocations[j];
        if rhs.cls.value != Arena || rhs.id !in plan.intervals {
          continue;
        }
        if !IntervalsOverlap(plan.intervals[lhs.id], plan.intervals[rhs.id]) {
          continue;
        }
        assert Coexist(lhs, rhs, plan);
        if RangesOverlap(plan.offsetById[lhs.id], lhs.size, plan.offsetById[rhs.id], rhs.size) {
          return Some(OverlapForLiveIntervals);
        }
      }
    }
    error := None;
  }

  // ---------- the whole check ----------

  datatype PlacementEntry = PlacementEntry(offset: nat, size: nat, interval: Option<Interval>)

  /** Where the size of the arena comes from. */
  datatype ArenaSource = PackedLiveness | PeakTransient | MaxArenaAllocation

  datatype Report = Report(
    inputBytes: nat, outputBytes: nat, constBytes: nat, arenaBytes: nat, arenaSource: ArenaSource,
    packedArenaBytes: nat, peakTransientBytes: nat, maxArenaAllocationBytes: nat,
    placements: map<string, PlacementEntry>)

  function EffectiveArenaBytes(plan: Plan, peak: Option<int>): int {
    var peakTransient := if peak.Some? then peak.value else plan.totals.arena;
    Max(plan.totals.arena, Max(peakTransient, plan.maxArenaAllocation))
  }

  function PeakOrPacked(plan: Plan, peak: Option<int>): int {
    if peak.Some? then peak.value else plan.totals.arena
  }

  /** `effective_arena_source`, with its last case, which is never reached. */
  function SourceOf(arenaBytes: int, packed: int, peak: int, largest: int): ArenaSource {
    if arenaBytes == packed then PackedLiveness
    else if arenaBytes == peak && peak >= packed then PeakTransient
    else if arenaBytes == largest then MaxArenaAllocation
    else PackedLiveness
  }

  /** The source is the first of packed size, peak and largest transient that the arena size is. */
  predicate IsSource(source: ArenaSource, arenaBytes: int, packed: int, peak: int, largest: int) {
    match source
    case PackedLiveness => arenaBytes == packed
    case PeakTransient => arenaBytes == peak > packed
    case MaxArenaAllocation => arenaBytes == largest && largest > packed && largest > peak
  }

  lemma SourceIs(plan: Plan, peak: Option<int>)
    ensures
      var arenaBytes, peakBytes := EffectiveArenaBytes(plan, peak), PeakOrPacked(plan, peak);
      IsSource(SourceOf(arenaBytes, plan.totals.arena, peakBytes, plan.maxArenaAllocation),
               arenaBytes, plan.totals.arena, peakBytes, plan.maxArenaAllocation)
  {
  }

  /** The report restates the plan: one entry per transient, used or not. */
  ghost predicate IsReport(s: Schedule, plan: Plan, report: Report) {
    && report.inputBytes == plan.totals.input
    && report.outputBytes == plan.totals.output
    && report.constBytes == plan.totals.constant
    && report.packedArenaBytes == plan.totals.arena
    && report.maxArenaAllocationBytes == plan.maxArenaAllocation
    && report.arenaBytes == EffectiveArenaBytes(plan, s.peakTransientBytes)
    && report.peakTransientBytes == PeakOrPacked(plan, s.peakTransientBytes)
    && report.arenaSource == SourceOf(report.arenaBytes, report.packedArenaBytes, report.peakTransientBytes,
                                      report.maxArenaAllocationBytes)
    && (forall id :: id in report.placements <==> IsArena(plan.classById, id))
    && (forall i :: 0 <= i < |s.allocations| && s.allocations[i].id in report.placements ==>
          && s.allocations[i].id in plan.offsetById
          && report.placements[s.allocations[i].id] == PlacementEntry(
               plan.offsetById[s.allocations[i].id],
               if s.allocations[i].size >= 0 then s.allocations[i].size else 0,
               if s.allocations[i].id in plan.intervals then Some(plan.intervals[s.allocations[i].id]) else None))
  }

  /** The commands that use a transient, as the interval of its placement says. */
  ghost predicate IsLiveSpan(s: Schedule, id: string, interval: Option<Interval>) {
    && (interval.None? <==> forall k: nat :: !Uses(Commands(s), s.dispatches, k, id))
    && (interval.Some? ==>
          && Uses(Commands(s), s.dispatches, interval.value.start, id) && interval.value.end > 0
          && Uses(Commands(s), s.dispatches, interval.value.end - 1, id)
          && forall k: nat :: Uses(Commands(s), s.dispatches, k, id) ==>
               interval.value.start <= k < interval.value.end)
  }

  /** What a report says, in terms of the schedule and of its own placements. */
  ghost predicate Describes(s: Schedule, plan: Plan, report: Report) {
    && IsPackedSize(s.allocations, plan, report.packedArenaBytes)
    && IsLargestSize(s.allocations, report.maxArenaAllocationBytes)
    && IsArenaSize(s.allocations, plan, s.peakTransientBytes, report.arenaBytes)
    && report.peakTransientBytes == (if s.peakTransientBytes.Some? then s.peakTransientBytes.value
                                     else report.packedArenaBytes)
    && IsSource(report.arenaSource, report.arenaBytes, report.packedArenaBytes, report.peakTransientBytes,
                report.maxArenaAllocationBytes)
    && (forall id :: id in report.placements <==>
          exists i :: IsTransient(s.allocations, i) && s.allocations[i].id == id)
    && forall i :: IsTransient(s.allocations, i) ==>
         var id := s.allocations[i].id;
         && id in report.placements && id in plan.offsetById
         && report.placements[id].offset == plan.offsetById[id] && report.placements[id].size == s.allocations[i].size
         && IsLiveSpan(s, id, report.placements[id].interval)
  }

  lemma LiveSpanIs(s: Schedule, plan: Plan, id: string)
    requires ValidCommands(Commands(s), s.dispatches) && IsArena(plan.classById, id)
    requires AreIntervals(plan.classById, s.dispatches, Commands(s), plan.intervals)
    ensures IsLiveSpan(s, id, if id in plan.intervals then Some(plan.intervals[id]) else None)
  {
    forall k: nat | Uses(Commands(s), s.dispatches, k, id)
      ensures Covers(plan.intervals, id, k)
    {
      var j: nat :| UsesAt(Commands(s), s.dispatches, k, j, id);
    }
  }

  lemma ReportDescribes(s: Schedule, plan: Plan, report: Report)
    requires WellFormed(s.allocations) && DistinctIds(s.allocations) && ValidCommands(Commands(s), s.dispatches)
    requires IsPlan(s.allocations, s.dispatches, Commands(s), plan) && IsReport(s, plan, report)
    ensures Describes(s, plan, report)
  {
    PackedSizeIs(s.allocations, s.dispatches, Commands(s), plan);
    LargestSizeIs(s.allocations);
    LargestIsArenaSize(s.allocations, plan, s.peakTransientBytes, report.packedArenaBytes,
                       report.maxArenaAllocationBytes, report.arenaBytes);
    SourceIs(plan, s.peakTransientBytes);
    ReportPlacesTransients(s, plan, report);
  }

  lemma ReportPlacesTransients(s: Schedule, plan: Plan, report: Report)
    requires WellFormed(s.allocations) && DistinctIds(s.allocations) && ValidCommands(Commands(s), s.dispatches)
    requires IsPlan(s.allocations, s.dispatches, Commands(s), plan) && IsReport(s, plan, report)
    ensures forall id :: id in report.placements <==>
              exists i :: IsTransient(s.allocations, i) && s.allocations[i].id == id
    ensures forall i :: IsTransient(s.allocations, i) ==>
              var id := s.allocations[i].id;
              && id in report.placements && id in plan.offsetById
              && report.placements[id].offset == plan.offsetById[id]
              && report.placements[id].size == s.allocations[i].size
              && IsLiveSpan(s, id, report.placements[id].interval)
  {
    forall i | IsTransient(s.allocations, i)
      ensures s.allocations[i].id in report.placements
      ensures IsLiveSpan(s, s.allocations[i].id, report.placements[s.allocations[i].id].interval)
    {
      ClassByIdAt(s.allocations, i);
      LiveSpanIs(s, plan, s.allocations[i].id);
    }
    forall id | id in report.placements
      ensures exists i :: IsTransient(s.allocations, i) && s.allocations[i].id == id
    {
      var i := ClassByIdKeys(s.allocations, id);
      ClassByIdAt(s.allocations, i);
    }
  }

  /** The exact acceptance condition, in terms of the schedule alone. */
  ghost predicate Accepted(s: Schedule, requireExplicitCommands: bool, allowEmptyCommands: bool) {
    && s.fixedShape && s.isLinear
    && (requireExplicitCommands ==> s.commands.Some?)
    && (Commands(s) == [] ==> allowEmptyCommands)
    && WellFormed(s.allocations) && DistinctIds(s.allocations)
    && ValidCommands(Commands(s), s.dispatches)
    && CommandsInBounds(Commands(s), s.dispatches, s.allocations)
    && EachDispatchedOnce(Commands(s), |s.dispatches|)
    && CommandsAgree(Commands(s), s.dispatches, ClassById(s.allocations))
    && (s.peakTransientBytes.Some? ==> s.peakTransientBytes.value >= 0)
  }

  method BuildPlacements(allocations: seq<Allocation>, plan: Plan) returns (placements: map<string, PlacementEntry>)
    requires WellFormed(allocations) && DistinctIds(allocations) && SoundLayout(allocations, plan)
    requires plan.classById == ClassById(allocations)
    ensures forall id :: id in placements <==> IsArena(plan.classById, id)
    ensures forall i :: 0 <= i < |allocations| && allocations[i].id in placements ==>
              placements[allocations[i].id] == PlacementEntry(
                plan.offsetById[allocations[i].id], allocations[i].size,
                if allocations[i].id in plan.intervals then Some(plan.intervals[allocations[i].id]) else None)
  {
    placements := map[];
    for n := 0 to |allocations|
      invariant forall i :: 0 <= i < n && allocations[i].cls.value == Arena ==> allocations[i].id in placements
      invariant forall id :: id in placements ==> IsArena(plan.classById, id)
      invariant forall i :: 0 <= i < |allocations| && allocations[i].id in placements ==>
                  placements[allocations[i].id] == PlacementEntry(
                    plan.offsetById[allocations[i].id], allocations[i].size,
                    if allocations[i].id in plan.intervals then Some(plan.intervals[allocations[i].id]) else None)
    {
      var a := allocations[n];
      if a.cls.value != Arena {
        continue;
      }
      placements := placements[a.id := PlacementEntry(
        plan.offsetById[a.id], a.size, if a.id in plan.intervals then Some(plan.intervals[a.id]) else None)];
    }
    forall id | IsArena(plan.classById, id)
      ensures id in placements
    {
      var i := ClassByIdKeys(allocations, id);
    }
  }

  /** The checks made once the plan is known. */
  ghost predicate PassesChecks(s: Schedule, commands: seq<Command>, classById: map<string, BufferClass>) {
    && ValidCommands(commands, s.dispatches)
    && CommandsInBounds(commands, s.dispatches, s.allocations)
    && EachDispatchedOnce(commands, |s.dispatches|)
    && CommandsAgree(commands, s.dispatches, classById)
    && (s.peakTransientBytes.Some? ==> s.peakTransientBytes.value >= 0)
  }

  method CheckPlan(s: Schedule, commands: seq<Command>, sizes: map<string, nat>, plan: Plan)
    returns (error: Option<Error>)
    requires ValidCommands(commands, s.dispatches)
    requires SizedAllocations(s.allocations) && AreSizes(s.allocations, sizes)
    requires WellFormed(s.allocations) && SoundLayout(s.allocations, plan)
    requires AreIntervals(plan.classById, s.dispatches, commands, plan.intervals)
    ensures error.None? <==> PassesChecks(s, commands, plan.classById)
    ensures error.Some? ==> error.value != OverlapAcrossAllocations && error.value != OverlapForLiveIntervals
  {
    error := CheckSliceBounds(commands, s.dispatches, s.allocations, sizes);
    if error.Some? {
      return;
    }
    error := CheckDispatchCoverage(commands, s.dispatches);
    if error.Some? {
      return;
    }
    error := CheckTransientConflicts(commands, s.dispatches, s.allocations, plan);
    if error.Some? {
      return;
    }
    if s.peakTransientBytes.Some? && s.peakTransientBytes.value < 0 {
      return Some(NegativeNumber);
    }
    var intervals := TransientIntervals(plan.classById, s.dispatches, commands);
    IntervalsAreUnique(plan.classById, s.dispatches, commands, intervals.value, plan.intervals);
    error := CheckPairwisePlacement(s.allocations, plan.(intervals := intervals.value));
  }

  method BuildReport(s: Schedule, plan: Plan) returns (report: Report)
    requires WellFormed(s.allocations) && DistinctIds(s.allocations) && SoundLayout(s.allocations, plan)
    requires plan.classById == ClassById(s.allocations)
    requires s.peakTransientBytes.Some? ==> s.peakTransientBytes.value >= 0
    ensures IsReport(s, plan, report)
  {
    var placements := BuildPlacements(s.allocations, plan);
    var arenaBytes, peak := EffectiveArenaBytes(plan, s.peakTransientBytes), PeakOrPacked(plan, s.peakTransientBytes);
    report := Report(
      plan.totals.input, plan.totals.output, plan.totals.constant,
      arenaBytes, SourceOf(arenaBytes, plan.totals.arena, peak, plan.maxArenaAllocation), plan.totals.arena, peak,
      plan.maxArenaAllocation, placements);
  }

  /** `verify_schedule` */
  method VerifySchedule(s: Schedule, requireExplicitCommands: bool, allowEmptyCommands: bool)
    returns (r: Result<Report, Error>, ghost plan: Option<Plan>)
    ensures r.Ok? <==> Accepted(s, requireExplicitCommands, allowEmptyCommands)
    ensures r.Ok? ==> plan.Some? && IsPlan(s.allocations, s.dispatches, Commands(s), plan.value)
                      && IsReport(s, plan.value, r.value) && Describes(s, plan.value, r.value)
    ensures r.Err? ==> r.error != OverlapAcrossAllocations && r.error != OverlapForLiveIntervals
  {
    plan := None;
    if !s.fixedShape {
      return Err(NotFixedShape), None;
    }
    if !s.isLinear {
      return Err(NotLinear), None;
    }
    if requireExplicitCommands && s.commands.None? {
      return Err(NoCommands), None;
    }
    var commands := Commands(s);
    if commands == [] && !allowEmptyCommands {
      return Err(NoCommands), None;
    }
    var sizes := AllocationSizes(s.allocations);
    if sizes.Err? {
      return Err(sizes.error), None;
    }
    var classified := ClassifyAllocations(s.allocations, s.dispatches, commands);
    if classified.Err? {
      return Err(classified.error), None;
    }
    PlanIsSound(s.allocations, s.dispatches, commands, classified.value);
    var error := CheckPlan(s, commands, sizes.value, classified.value);
    if error.Some? {
      return Err(error.value), None;
    }
    var report := BuildReport(s, classified.value);
    ReportDescribes(s, classified.value, report);
    plan := Some(classified.value);
    r := Ok(report);
  }
}
