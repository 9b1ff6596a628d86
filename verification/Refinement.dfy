/**
  Arena packing preserves meaning. For every schedule the verifier accepts, replaying the lowered
  commands on the packed regions equals a run in which every allocation has a buffer of its own
  and transient buffers start with some arbitrary contents.
 */
module Refinement {
  import opened Basics
  import opened Placement
  import opened Schedule
  import opened Machine
  import opened Simulation
  import opened Lowering
  import opened Lockstep
  import StaticDirect
  import V = ScheduleVerifier

  /** Where the offsets of a deployment come from: the computed plan, or a memory plan that overrides it. */
  datatype Origin = Origin(computed: Plan, memoryPlan: Option<MemoryPlan>)

  /** A schedule accepted by the verifier, with the plan in force and the descriptor lowered from it. */
  ghost predicate Deployed(s: Schedule, origin: Origin, plan: Plan, d: Descriptor) {
    && V.Accepted(s, false, true)
    && IsPlan(s.allocations, s.dispatches, V.Commands(s), origin.computed)
    && (origin.memoryPlan.Some? ==>
          MemoryPlanFits(origin.memoryPlan.value, origin.computed, SizeById(s.allocations)))
    && EffectivePlan(s, origin.memoryPlan, origin.computed, plan, d.arenaBytes)
    && IsLowering(s, plan, d.arenaBytes, d)
  }

  /** A memory plan is never checked for overlaps; this is what it takes. */
  ghost predicate KeepsApart(s: Schedule, origin: Origin, plan: Plan) {
    origin.memoryPlan.Some? ==>
      WellFormed(s.allocations) && KnowsAll(s.allocations, plan) && LiveApart(s.allocations, plan)
  }

  /** The totals can be written as 32-bit literals; the generator checks only that they are not negative. */
  predicate Fits32(d: Descriptor) {
    d.inputBytes < U32 && d.outputBytes < U32 && d.constBytes < U32 && d.arenaBytes < U32
  }

  function RegionBytes(d: Descriptor, c: BufferClass): nat {
    match c
    case Input => d.inputBytes
    case Output => d.outputBytes
    case Const => d.constBytes
    case Arena => d.arenaBytes
  }

  /** Four regions, each at least as large as the descriptor demands. */
  ghost predicate LargeEnough(d: Descriptor, packed: Store<BufferClass>) {
    forall c: BufferClass :: c in packed && RegionBytes(d, c) <= |packed[c]|
  }

  /** Everything that holds data lies in its region. */
  ghost predicate InRegions(allocations: seq<Allocation>, plan: Plan, d: Descriptor)
    requires WellFormed(allocations) && KnowsAll(allocations, plan)
  {
    forall i :: 0 <= i < |allocations| && InRegion(allocations[i], plan) ==>
      plan.offsetById[allocations[i].id] + allocations[i].size <= RegionBytes(d, allocations[i].cls.value)
  }

  /** A deployed schedule about to be replayed by `library` on the regions `packed`. */
  datatype Setup = Setup(s: Schedule, plan: Plan, d: Descriptor, library: Library, packed: Store<BufferClass>) {
    /** What the run relies on: a layout, live intervals, bounds, the lowering, large regions. */
    ghost predicate Valid() {
      && WellFormed(s.allocations) && DistinctIds(s.allocations)
      && KnowsAll(s.allocations, plan) && InRegions(s.allocations, plan, d) && LiveApart(s.allocations, plan)
      && ValidCommands(V.Commands(s), s.dispatches)
      && V.CommandsInBounds(V.Commands(s), s.dispatches, s.allocations)
      && AreIntervals(plan.classById, s.dispatches, V.Commands(s), plan.intervals)
      && Lowered()
      && LargeEnough(d, packed)
    }

    /** The descriptor is lowered by the plan, and there is something to run it. */
    ghost predicate Lowered() {
      IsLowering(s, plan, d.arenaBytes, d) && ValidLibrary(library)
    }

    ghost predicate IsIndex(i: int) {
      0 <= i < |s.allocations|
    }

    function Id(i: nat): string
      requires IsIndex(i)
    {
      s.allocations[i].id
    }
  }

  /** Inputs, outputs and constants are laid end to end, and the regions have their sizes. */
  ghost predicate StaticsInPlace(x: Setup)
    requires WellFormed(x.s.allocations)
  {
    && (forall i :: x.IsIndex(i) && x.s.allocations[i].cls.value != Arena ==>
          && x.Id(i) in x.plan.offsetById && x.Id(i) in StaticOffsets(x.s.allocations)
          && x.plan.offsetById[x.Id(i)] == StaticOffsets(x.s.allocations)[x.Id(i)])
    && x.d.outputBytes == ClassBytes(x.s.allocations, Output)
  }

  /** A deployment with the computed offsets. */
  lemma ComputedIsInPlace(s: Schedule, origin: Origin, plan: Plan, d: Descriptor)
    requires Deployed(s, origin, plan, d) && origin.memoryPlan.None?
    ensures SoundLayout(s.allocations, plan) && InRegions(s.allocations, plan, d)
  {
    PlanIsSound(s.allocations, s.dispatches, V.Commands(s), plan);
    forall i | 0 <= i < |s.allocations| && InRegion(s.allocations[i], plan)
      ensures plan.offsetById[s.allocations[i].id] + s.allocations[i].size
              <= RegionBytes(d, s.allocations[i].cls.value)
    {
      assert plan.totals.Get(s.allocations[i].cls.value) <= RegionBytes(d, s.allocations[i].cls.value);
    }
  }

  /** A deployment with the transient offsets of a memory plan. */
  lemma PlannedIsInPlace(s: Schedule, origin: Origin, plan: Plan, d: Descriptor)
    requires Deployed(s, origin, plan, d) && origin.memoryPlan.Some?
    ensures KnowsAll(s.allocations, plan) && InRegions(s.allocations, plan, d)
  {
    PlanIsSound(s.allocations, s.dispatches, V.Commands(s), origin.computed);
    forall i | 0 <= i < |s.allocations| && InRegion(s.allocations[i], plan)
      ensures plan.offsetById[s.allocations[i].id] + s.allocations[i].size
              <= RegionBytes(d, s.allocations[i].cls.value)
    {
      PlannedAllocationFits(s, origin.memoryPlan.value, origin.computed, plan, d, i);
    }
  }

  /** One allocation of it. */
  lemma PlannedAllocationFits(s: Schedule, memoryPlan: MemoryPlan, computed: Plan, plan: Plan, d: Descriptor, i: nat)
    requires WellFormed(s.allocations) && DistinctIds(s.allocations) && SoundLayout(s.allocations, computed)
    requires MemoryPlanFits(memoryPlan, computed, SizeById(s.allocations))
    requires EffectivePlan(s, Some(memoryPlan), computed, plan, d.arenaBytes)
    requires d.inputBytes == plan.totals.input && d.outputBytes == plan.totals.output
    requires d.constBytes == plan.totals.constant
    requires i < |s.allocations| && InRegion(s.allocations[i], plan)
    ensures s.allocations[i].id in plan.offsetById
    ensures plan.offsetById[s.allocations[i].id] + s.allocations[i].size
            <= RegionBytes(d, s.allocations[i].cls.value)
  {
    if s.allocations[i].cls.value == Arena {
      PlannedTransientFits(s.allocations, memoryPlan, computed, i);
    } else {
      assert plan.totals.Get(s.allocations[i].cls.value) == RegionBytes(d, s.allocations[i].cls.value);
    }
  }

  /** A transient lies in the arena of a memory plan that fits. */
  lemma PlannedTransientFits(allocations: seq<Allocation>, memoryPlan: MemoryPlan, computed: Plan, i: nat)
    requires WellFormed(allocations) && DistinctIds(allocations) && i < |allocations|
    requires IsArena(computed.classById, allocations[i].id)
    requires MemoryPlanFits(memoryPlan, computed, SizeById(allocations))
    ensures allocations[i].id in memoryPlan.placements
    ensures memoryPlan.placements[allocations[i].id].offset + allocations[i].size <= memoryPlan.arenaBytes
  {
    var id := allocations[i].id;
    SizeByIdAt(allocations, i);
    assert EntryFits(memoryPlan, id, SizeById(allocations)[id]);
  }

  /** What both kinds of deployment have in common. */
  lemma DeployedIsInPlace(s: Schedule, origin: Origin, plan: Plan, d: Descriptor)
    requires Deployed(s, origin, plan, d)
    ensures KnowsAll(s.allocations, plan) && InRegions(s.allocations, plan, d)
    ensures AreIntervals(plan.classById, s.dispatches, V.Commands(s), plan.intervals)
    ensures origin.memoryPlan.None? ==> LiveApart(s.allocations, plan)
  {
    if origin.memoryPlan.None? {
      ComputedIsInPlace(s, origin, plan, d);
    } else {
      PlannedIsInPlace(s, origin, plan, d);
    }
  }

  lemma DeployedStatics(x: Setup, origin: Origin)
    requires Deployed(x.s, origin, x.plan, x.d)
    ensures StaticsInPlace(x)
  {
    var computed := origin.computed;
    ClassifiedHasOffsets(x.s.allocations, computed);
    forall i | x.IsIndex(i) && x.s.allocations[i].cls.value != Arena
      ensures x.Id(i) in x.plan.offsetById && x.Id(i) in StaticOffsets(x.s.allocations)
      ensures x.plan.offsetById[x.Id(i)] == StaticOffsets(x.s.allocations)[x.Id(i)]
    {
      StaticKeepsItsOffset(x.s.allocations, x.s.dispatches, V.Commands(x.s), computed, i);
      ClassByIdAt(x.s.allocations, i);
    }
  }

  /** A deployment on large enough regions can be run like the schedule exactly when live data is kept apart. */
  lemma DeployedIsValid(x: Setup, origin: Origin)
    requires Deployed(x.s, origin, x.plan, x.d) && ValidLibrary(x.library) && LargeEnough(x.d, x.packed)
    ensures x.Valid() <==> KeepsApart(x.s, origin, x.plan)
    ensures StaticsInPlace(x)
  {
    DeployedIsInPlace(x.s, origin, x.plan, x.d);
    DeployedStatics(x, origin);
  }

  // ---------- the layout of a deployed schedule ----------

  /** The commands of the schedule, every allocation a buffer of its own. */
  ghost function References(x: Setup): seq<Work<string>>
    requires x.Lowered()
  {
    DirectWorks(V.Commands(x.s), x.s.dispatches, x.plan.classById)
  }

  /** An allocation keeps its home always; a transient during its live interval, if it has one. */
  function SpanOf(plan: Plan, a: string): Span {
    if !IsArena(plan.classById, a) then Always
    else if a in plan.intervals then During(plan.intervals[a])
    else Never
  }

  /** Data is kept at the home of `a` at time `t`: always, or during the closed live interval. */
  predicate HeldAt(plan: Plan, a: string, t: nat) {
    HeldIn(SpanOf(plan, a), t)
  }

  ghost function HomeOf(x: Setup, i: nat): View<BufferClass>
    requires x.Valid() && x.IsIndex(i)
  {
    Home(x.plan, x.Id(i), x.s.allocations[i].size)
  }

  ghost function Ids(x: Setup): seq<string>
  {
    seq(|x.s.allocations|, i requires x.IsIndex(i) => x.Id(i))
  }

  ghost function HomesOf(x: Setup): seq<View<BufferClass>>
    requires x.Valid()
  {
    seq(|x.s.allocations|, i requires x.Valid() && x.IsIndex(i) => HomeOf(x, i))
  }

  ghost function Spans(x: Setup): seq<Span>
  {
    seq(|x.s.allocations|, i requires x.IsIndex(i) => SpanOf(x.plan, x.Id(i)))
  }

  ghost function LayoutOf(x: Setup): (layout: Layout)
    requires x.Valid()
    ensures layout.Shaped()
  {
    Layout(Ids(x), HomesOf(x), Spans(x), References(x), x.d.commands)
  }

  /** Two allocations that are live together have separate homes. */
  lemma LiveTogetherApart(allocations: seq<Allocation>, plan: Plan, i: nat, j: nat, t: nat)
    requires WellFormed(allocations) && KnowsAll(allocations, plan) && LiveApart(allocations, plan)
    requires i < j < |allocations|
    requires LiveIn(SpanOf(plan, allocations[i].id), t) && LiveIn(SpanOf(plan, allocations[j].id), t)
    ensures Disjoint(Home(plan, allocations[i].id, allocations[i].size),
                     Home(plan, allocations[j].id, allocations[j].size))
  {
    if allocations[i].cls == allocations[j].cls {
      assert Coexist(allocations[i], allocations[j], plan);
    }
  }

  lemma HomeIsApart(x: Setup, i: nat, j: nat)
    requires x.Valid() && x.IsIndex(j) && i < j
    ensures HomesApart(LayoutOf(x), i, j)
  {
    if t: nat :| LiveIn(SpanOf(x.plan, x.Id(i)), t) && LiveIn(SpanOf(x.plan, x.Id(j)), t) {
      LiveTogetherApart(x.s.allocations, x.plan, i, j, t);
    }
  }

  // ---------- the commands ----------

  /** Every slice of command `k` lies in a declared allocation that is live at `k`. */
  lemma SliceIsLive(x: Setup, k: nat, j: nat)
    requires x.Valid() && k < |V.Commands(x.s)|
    requires j < |CommandSlices(V.Commands(x.s)[k], x.s.dispatches).value|
    ensures
      var slice := CommandSlices(V.Commands(x.s)[k], x.s.dispatches).value[j];
      && V.SliceInBounds(slice, x.s.allocations)
      && (IsArena(x.plan.classById, slice.base) ==> Covers(x.plan.intervals, slice.base, k))
  {
    var slices := CommandSlices(V.Commands(x.s)[k], x.s.dispatches).value;
    assert V.SlicesInBounds(slices, x.s.allocations);
    assert UsesAt(V.Commands(x.s), x.s.dispatches, k, j, slices[j].base);
  }

  /** A slice is at its place in the home of its allocation, which is live at `k`. */
  ghost predicate SettledAt(x: Setup, k: nat, slice: Slice)
    requires x.Valid()
  {
    && RenderableSlice(slice, x.plan.classById)
    && Settled(DirectView(slice), LiveHomes(LayoutOf(x), k))
    && PlacedView(slice, x.plan) == Relocate(DirectView(slice), LiveHomes(LayoutOf(x), k)[slice.base])
  }

  /** A slice of an allocation is placed in its home. */
  lemma SliceIsAtHome(allocations: seq<Allocation>, plan: Plan, slice: Slice) returns (i: nat)
    requires WellFormed(allocations) && KnowsAll(allocations, plan) && HasOffsets(plan.classById, plan.offsetById)
    requires V.SliceInBounds(slice, allocations)
    ensures i < |allocations| && allocations[i].id == slice.base && RenderableSlice(slice, plan.classById)
    ensures PlacedView(slice, plan) == Relocate(DirectView(slice), Home(plan, slice.base, allocations[i].size))
    ensures DirectView(slice).offset + DirectView(slice).length <= allocations[i].size
  {
    i := V.ArenaIndex(allocations, plan, slice);
  }

  lemma LiveSliceIsSettled(x: Setup, k: nat, slice: Slice)
    requires x.Valid() && V.SliceInBounds(slice, x.s.allocations)
    requires IsArena(x.plan.classById, slice.base) ==> Covers(x.plan.intervals, slice.base, k)
    ensures SettledAt(x, k, slice)
  {
    var i := SliceIsAtHome(x.s.allocations, x.plan, slice);
    assert Ids(x)[i] == slice.base && HomesOf(x)[i] == HomeOf(x, i) && LiveIn(Spans(x)[i], k);
    LiveHomeAt(LayoutOf(x), k, i);
  }

  lemma SliceIsSettled(x: Setup, k: nat, j: nat)
    requires x.Valid() && k < |V.Commands(x.s)|
    requires j < |CommandSlices(V.Commands(x.s)[k], x.s.dispatches).value|
    ensures SettledAt(x, k, CommandSlices(V.Commands(x.s)[k], x.s.dispatches).value[j])
  {
    SliceIsLive(x, k, j);
    LiveSliceIsSettled(x, k, CommandSlices(V.Commands(x.s)[k], x.s.dispatches).value[j]);
  }

  /** A dispatch whose slices are all settled is placed by relocating its reference reading. */
  lemma DispatchIsRelocated(entry: DispatchEntry, plan: Plan, homes: Homes)
    requires HasOffsets(plan.classById, plan.offsetById) && RenderableDispatch(entry, plan.classById)
    requires forall j :: 0 <= j < |entry.bindings| ==>
               && Settled(DirectView(entry.bindings[j]), homes)
               && PlacedView(entry.bindings[j], plan)
                  == Relocate(DirectView(entry.bindings[j]), homes[entry.bindings[j].base])
    ensures AllSettled(DirectDispatch(entry, plan.classById).bindings, homes)
    ensures PlacedDispatch(entry, plan) == RelocateDispatch(DirectDispatch(entry, plan.classById), homes)
  {
    assert PlacedViews(entry.bindings, plan) == RelocateAll(DirectDispatch(entry, plan.classById).bindings, homes);
  }

  /** Command `k` of the descriptor is the reference command, relocated to the live homes. */
  lemma CommandIsRelocated(x: Setup, k: nat)
    requires x.Valid() && k < |x.d.commands|
    ensures Relocated(LayoutOf(x), k)
  {
    var c := V.Commands(x.s)[k];
    assert RenderableCommand(c, x.s.dispatches, x.plan.classById);
    if c.RunDispatch? {
      var entry := x.s.dispatches[c.index];
      assert CommandSlices(c, x.s.dispatches).value == entry.bindings;
      forall j | 0 <= j < |entry.bindings|
        ensures SettledAt(x, k, entry.bindings[j])
      {
        SliceIsSettled(x, k, j);
      }
      DispatchIsRelocated(entry, x.plan, LiveHomes(LayoutOf(x), k));
    } else {
      SliceIsSettled(x, k, 0);
    }
  }

  // ---------- the regions ----------

  lemma HomeInRegion(x: Setup, i: nat)
    requires x.Valid() && x.IsIndex(i) && InRegion(x.s.allocations[i], x.plan)
    ensures HomeOf(x, i).offset + HomeOf(x, i).length <= RegionBytes(x.d, HomeOf(x, i).key)
  {
  }

  /** Every placed slice ends inside its region, so with the totals all its numbers fit 32 bits. */
  lemma PlacedSliceFits(x: Setup, k: nat, j: nat)
    requires x.Valid() && k < |V.Commands(x.s)|
    requires j < |CommandSlices(V.Commands(x.s)[k], x.s.dispatches).value|
    ensures
      var slice := CommandSlices(V.Commands(x.s)[k], x.s.dispatches).value[j];
      && RenderableSlice(slice, x.plan.classById)
      && var v := PlacedView(slice, x.plan);
         && v.offset + v.length <= RegionBytes(x.d, v.key)
         && (Fits32(x.d) ==> v.offset + v.length < U32)
  {
    SliceIsLive(x, k, j);
    var slice := CommandSlices(V.Commands(x.s)[k], x.s.dispatches).value[j];
    var i := V.ArenaIndex(x.s.allocations, x.plan, slice);
    HomeInRegion(x, i);
  }

  lemma HomeFitsRegion(x: Setup, i: nat)
    requires x.Valid() && x.IsIndex(i)
    ensures Spans(x)[i] != Never ==> ViewFits(HomeOf(x, i), x.packed)
    ensures SpanFits(LayoutOf(x), i)
  {
    if Spans(x)[i] != Never {
      HomeInRegion(x, i);
      assert x.s.allocations[i].cls.value in x.packed;
    }
  }

  lemma LayoutIsValid(x: Setup)
    requires x.Valid()
    ensures ValidLayout(LayoutOf(x))
  {
    forall i | x.IsIndex(i)
      ensures SpanFits(LayoutOf(x), i)
    {
      HomeFitsRegion(x, i);
    }
    forall i, j | x.IsIndex(i) && x.IsIndex(j) && i < j
      ensures HomesApart(LayoutOf(x), i, j)
    {
      HomeIsApart(x, i, j);
    }
    forall k | 0 <= k < |x.d.commands|
      ensures Relocated(LayoutOf(x), k)
    {
      CommandIsRelocated(x, k);
    }
  }

  lemma RunIsValid(x: Setup)
    requires x.Valid()
    ensures Run(LayoutOf(x), x.library, x.packed).Valid()
  {
    LayoutIsValid(x);
    var r := Run(LayoutOf(x), x.library, x.packed);
    forall i | x.IsIndex(i)
      ensures r.HomeFits(i)
    {
      HomeFitsRegion(x, i);
    }
  }

  /** The run of the deployed schedule. */
  ghost function RunOf(x: Setup): (r: Run)
    requires x.Valid()
    ensures r.Valid() && r.x == LayoutOf(x)
  {
    RunIsValid(x);
    Run(LayoutOf(x), x.library, x.packed)
  }

  // ---------- main results ----------

  /** One buffer per allocation, of its size. */
  ghost predicate IsSeparateStore(s: Schedule, separate: Store<string>) {
    && (forall i :: 0 <= i < |s.allocations| ==>
          s.allocations[i].id in separate && |separate[s.allocations[i].id]| == s.allocations[i].size)
    && (forall a :: a in separate ==> exists i :: 0 <= i < |s.allocations| && s.allocations[i].id == a)
  }

  /** The buffers selected by `which` hold the bytes found at their homes. */
  ghost predicate BuffersAgree(
    s: Schedule, plan: Plan, packed: Store<BufferClass>, separate: Store<string>, which: string -> bool)
  {
    forall i :: 0 <= i < |s.allocations| && s.allocations[i].size >= 0 && which(s.allocations[i].id) ==>
      && s.allocations[i].id in plan.classById && s.allocations[i].id in plan.offsetById
      && s.allocations[i].id in separate
      && Agrees(Home(plan, s.allocations[i].id, s.allocations[i].size), packed, separate[s.allocations[i].id])
  }

  /** The packed run and the reference run before command `k`. */
  ghost predicate AgreesAt(x: Setup, separate: Store<string>, k: nat)
    requires x.Lowered() && k <= |x.d.commands|
  {
    var (statusP, packed') := Replay(x.library, x.d.commands[..k], x.packed);
    var (statusR, separate') := Replay(x.library, References(x)[..k], separate);
    && statusP == statusR && statusP != InvalidSlice
    && IsSeparateStore(x.s, separate')
    && BuffersAgree(x.s, x.plan, packed', separate', a => !IsArena(x.plan.classById, a))
    && (statusP == OK ==> BuffersAgree(x.s, x.plan, packed', separate', a => HeldAt(x.plan, a, k)))
  }

  /** The whole run is in lock step with the reference run from these buffers. */
  ghost predicate RunsLike(x: Setup, separate: Store<string>)
    requires x.Lowered()
  {
    && IsSeparateStore(x.s, separate)
    && BuffersAgree(x.s, x.plan, x.packed, separate, a => !IsArena(x.plan.classById, a))
    && forall k {:trigger AgreesAt(x, separate, k)} :: 0 <= k <= |x.d.commands| ==> AgreesAt(x, separate, k)
  }

  /**
    Packing preserves meaning. Some choice of separate buffers, holding the given inputs, outputs
    and constants and arbitrary transient bytes, runs in lock step with the packed regions: before
    every command both runs have the same status, the same input, output and constant bytes, and,
    as long as no command has failed, the same bytes in every transient from its first use until
    just after its last. A memory plan of another planner has to keep live transients apart.
   */
  lemma PackingPreservesMeaning(x: Setup, origin: Origin) returns (separate: Store<string>)
    requires Deployed(x.s, origin, x.plan, x.d) && KeepsApart(x.s, origin, x.plan)
    requires ValidLibrary(x.library) && LargeEnough(x.d, x.packed)
    ensures x.Valid() && RunsLike(x, separate)
  {
    DeployedIsValid(x, origin);
    separate := ReferenceStart(RunOf(x));
    StartIsSeparate(x);
    forall k | 0 <= k <= |x.d.commands|
      ensures AgreesAt(x, separate, k)
    {
      PrefixesAgree(x, k);
    }
    assert AgreesAt(x, separate, 0);
    assert x.d.commands[..0] == [] && References(x)[..0] == [];
  }

  lemma StartIsSeparate(x: Setup)
    requires x.Valid()
    ensures IsSeparateStore(x.s, ReferenceStart(RunOf(x)))
  {
    var r := RunOf(x);
    forall i | x.IsIndex(i)
      ensures x.Id(i) in ReferenceStart(r) && |ReferenceStart(r)[x.Id(i)]| == x.s.allocations[i].size
    {
      ReferenceStartAt(r, i);
      assert r.x.ids[i] == x.Id(i) && r.x.homes[i] == HomeOf(x, i);
    }
    forall a | a in ReferenceStart(r)
      ensures exists i :: 0 <= i < |x.s.allocations| && x.s.allocations[i].id == a
    {
      var i := StartBufferIndex(x, a);
    }
  }

  lemma StartBufferIndex(x: Setup, a: string) returns (i: nat)
    requires x.Valid() && a in ReferenceStart(RunOf(x))
    ensures x.IsIndex(i) && x.s.allocations[i].id == a
  {
    i := BufferMapIndex(RunOf(x).x.ids, Contents(RunOf(x)), a);
  }

  /** Both runs before command `k`. */
  lemma PrefixesAgree(x: Setup, k: nat)
    requires x.Valid() && k <= |x.d.commands|
    ensures
      var r := RunOf(x);
      && PackedAt(r, k) == Replay(x.library, x.d.commands[..k], x.packed)
      && ReferenceAt(r, k) == Replay(x.library, References(x)[..k], ReferenceStart(r))
      && PackedAt(r, k).0 == ReferenceAt(r, k).0 && PackedAt(r, k).0 != InvalidSlice
      && IsSeparateStore(x.s, ReferenceAt(r, k).1)
      && BuffersAgree(x.s, x.plan, PackedAt(r, k).1, ReferenceAt(r, k).1, a => !IsArena(x.plan.classById, a))
      && (PackedAt(r, k).0 == OK ==>
            BuffersAgree(x.s, x.plan, PackedAt(r, k).1, ReferenceAt(r, k).1, a => HeldAt(x.plan, a, k)))
  {
    StartIsSeparate(x);
    AlwaysInStep(RunOf(x), k);
    StepIsAgreement(x, k);
  }

  lemma StepIsAgreement(x: Setup, k: nat)
    requires x.Valid() && k <= |x.d.commands| && InStep(RunOf(x), k)
    ensures
      var packed, separate := PackedAt(RunOf(x), k), ReferenceAt(RunOf(x), k).1;
      && BuffersAgree(x.s, x.plan, packed.1, separate, a => !IsArena(x.plan.classById, a))
      && (packed.0 == OK ==> BuffersAgree(x.s, x.plan, packed.1, separate, a => HeldAt(x.plan, a, k)))
  {
    var r := RunOf(x);
    forall i | x.IsIndex(i)
      ensures r.x.spans[i] == SpanOf(x.plan, x.Id(i))
    {
    }
    SameBytesAgree(x, k, a => !IsArena(x.plan.classById, a));
    if PackedAt(r, k).0 == OK {
      SameBytesAgree(x, k, a => HeldAt(x.plan, a, k));
    }
  }

  lemma SameBytesAgree(x: Setup, k: nat, which: string -> bool)
    requires x.Valid() && k <= |x.d.commands|
    requires forall i :: x.IsIndex(i) && which(x.Id(i)) ==> SameBytes(RunOf(x), k, i)
    ensures BuffersAgree(x.s, x.plan, PackedAt(RunOf(x), k).1, ReferenceAt(RunOf(x), k).1, which)
  {
    var r := RunOf(x);
    var packed, separate := PackedAt(r, k).1, ReferenceAt(r, k).1;
    forall i | 0 <= i < |x.s.allocations| && x.s.allocations[i].size >= 0 && which(x.s.allocations[i].id)
      ensures
        && x.s.allocations[i].id in x.plan.classById && x.s.allocations[i].id in x.plan.offsetById
        && x.s.allocations[i].id in separate
        && Agrees(Home(x.plan, x.s.allocations[i].id, x.s.allocations[i].size), packed, separate[x.s.allocations[i].id])
    {
      assert x.IsIndex(i) && which(x.Id(i));
      assert SameBytes(r, k, i) && r.x.ids[i] == x.Id(i) && r.x.homes[i] == HomeOf(x, i);
    }
  }

  /** No command of a deployed schedule is ever refused for the bounds of a slice. */
  lemma NeverInvalidSlice(x: Setup, origin: Origin, k: nat)
    requires Deployed(x.s, origin, x.plan, x.d) && KeepsApart(x.s, origin, x.plan)
    requires ValidLibrary(x.library) && LargeEnough(x.d, x.packed) && k <= |x.d.commands|
    ensures Replay(x.library, x.d.commands[..k], x.packed).0 != InvalidSlice
  {
    var separate := PackingPreservesMeaning(x, origin);
    assert AgreesAt(x, separate, k);
  }

  /** Inputs, outputs and constants leave no gap in their regions: every byte has an owner. */
  lemma {:induction false} EveryStaticByteIsOwned(allocations: seq<Allocation>, c: BufferClass, b: nat) returns (i: nat)
    requires WellFormed(allocations) && DistinctIds(allocations) && c != Arena
    requires b < ClassBytes(allocations, c)
    ensures i < |allocations| && allocations[i].cls.value == c
    ensures allocations[i].id in StaticOffsets(allocations)
    ensures var o := StaticOffsets(allocations)[allocations[i].id]; o <= b < o + allocations[i].size
  {
    var n := |allocations| - 1;
    if b < ClassBytes(allocations[..n], c) {
      i := EveryStaticByteIsOwned(allocations[..n], c, b);
      assert allocations[..n][i] == allocations[i];
    } else {
      i := n;
    }
  }

  /** After a replay, every byte of the output region is a byte of some output of the reference run. */
  lemma OutputBytesAreReferenceBytes(
    x: Setup, packed: Store<BufferClass>, separate: Store<string>, b: nat) returns (i: nat)
    requires x.Valid() && LargeEnough(x.d, packed) && b < x.d.outputBytes
    requires StaticsInPlace(x)
    requires BuffersAgree(x.s, x.plan, packed, separate, a => !IsArena(x.plan.classById, a))
    ensures i < |x.s.allocations| && x.s.allocations[i].cls.value == Output
    ensures x.Id(i) in x.plan.offsetById && x.Id(i) in separate
    ensures
      var o := x.plan.offsetById[x.Id(i)];
      && o <= b < o + |separate[x.Id(i)]|
      && b < |packed[Output]| && packed[Output][b] == separate[x.Id(i)][b - o]
  {
    i := EveryStaticByteIsOwned(x.s.allocations, Output, b);
    assert x.IsIndex(i);
    assert Agrees(Home(x.plan, x.Id(i), x.s.allocations[i].size), packed, separate[x.Id(i)]);
    var o := x.plan.offsetById[x.Id(i)];
    assert packed[Output][o + (b - o)] == separate[x.Id(i)][b - o];
  }

  lemma {:induction false} OccurringCommandExists(commands: seq<Command>, i: int)
    requires V.Occurrences(commands, i) > 0
    ensures commands != []
  {
  }

  /**
    `Invoke` replays exactly the planned commands: a deployed schedule with a dispatch always has a
    command list, so the fallback over the dispatch table is never taken.
   */
  lemma InvokeReplaysCommands(s: Schedule, origin: Origin, plan: Plan, d: Descriptor)
    requires Deployed(s, origin, plan, d) && d.dispatches != []
    ensures StaticDirect.Workload(d) == d.commands
  {
    assert V.Occurrences(V.Commands(s), 0) == 1;
    OccurringCommandExists(V.Commands(s), 0);
  }
}
