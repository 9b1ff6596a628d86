/**
  Static-direct schedules, the memory plan computed for them (`_transient_intervals` and
  `_classify_allocations` of generate_static_direct_descriptor.py), and what makes a plan sound.
 */
module Schedule {
  import opened Basics
  import opened Placement

  datatype BufferClass = Input | Output | Const | Arena

  /** `cls` is the outcome of `_allocation_class`; `None` where the source raises. */
  datatype Allocation = Allocation(id: string, cls: Option<BufferClass>, size: int)

  datatype Slice = Slice(base: string, offset: int, length: int)

  datatype DispatchEntry = DispatchEntry(ordinal: int, workgroups: seq<int>, constants: seq<int>, bindings: seq<Slice>)

  datatype Command = RunDispatch(index: int) | Fill(target: Slice, pattern: int) | Unsupported

  datatype Schedule = Schedule(
    fixedShape: bool,
    isLinear: bool,
    allocations: seq<Allocation>,
    dispatches: seq<DispatchEntry>,
    commands: Option<seq<Command>>,
    peakTransientBytes: Option<int>)

  datatype Error =
    | NotFixedShape | NotLinear | NoCommands
    | EmptyId | DuplicateId | NegativeNumber | UnknownClass
    | BadCommand | UnknownAllocation | SliceOutOfBounds
    | DispatchCoverage
    | OverlapWithinAllocation | OverlapAcrossAllocations | OverlapForLiveIntervals

  /** The slices a command touches; `None` where `_command_slices` raises. */
  function CommandSlices(c: Command, dispatches: seq<DispatchEntry>): Option<seq<Slice>> {
    match c
    case RunDispatch(i) => if 0 <= i < |dispatches| then Some(dispatches[i].bindings) else None
    case Fill(target, _) => Some([target])
    case Unsupported => None
  }

  predicate ValidCommands(commands: seq<Command>, dispatches: seq<DispatchEntry>) {
    forall k :: 0 <= k < |commands| ==> CommandSlices(commands[k], dispatches).Some?
  }

  /** Slice `j` of command `k` names allocation `id`. */
  predicate UsesAt(commands: seq<Command>, dispatches: seq<DispatchEntry>, k: nat, j: nat, id: string) {
    && k < |commands|
    && CommandSlices(commands[k], dispatches).Some?
    && j < |CommandSlices(commands[k], dispatches).value|
    && CommandSlices(commands[k], dispatches).value[j].base == id
  }

  ghost predicate Uses(commands: seq<Command>, dispatches: seq<DispatchEntry>, k: nat, id: string) {
    exists j: nat :: UsesAt(commands, dispatches, k, j, id)
  }

  // ---------- live intervals ----------

  predicate IsArena(classById: map<string, BufferClass>, id: string) {
    id in classById && classById[id] == Arena
  }

  /** Every interval starts at a use and ends just after one, before command `bound`. */
  ghost predicate TightIntervals(
    classById: map<string, BufferClass>, dispatches: seq<DispatchEntry>, commands: seq<Command>,
    intervals: map<string, Interval>, bound: nat)
  {
    forall id :: id in intervals ==>
      && IsArena(classById, id)
      && intervals[id].start < intervals[id].end <= bound
      && Uses(commands, dispatches, intervals[id].start, id)
      && Uses(commands, dispatches, intervals[id].end - 1, id)
  }

  predicate Covers(intervals: map<string, Interval>, id: string, k: nat) {
    id in intervals && intervals[id].start <= k < intervals[id].end
  }

  /** Every use of a transient before command `bound` is inside its interval. */
  ghost predicate CoveringIntervals(
    classById: map<string, BufferClass>, dispatches: seq<DispatchEntry>, commands: seq<Command>,
    intervals: map<string, Interval>, bound: nat)
  {
    forall k: nat, j: nat, id :: k < bound && UsesAt(commands, dispatches, k, j, id) && IsArena(classById, id) ==>
      Covers(intervals, id, k)
  }

  /** Each used transient gets the interval from its first to just after its last use. */
  ghost predicate AreIntervals(
    classById: map<string, BufferClass>, dispatches: seq<DispatchEntry>, commands: seq<Command>,
    intervals: map<string, Interval>)
  {
    && TightIntervals(classById, dispatches, commands, intervals, |commands|)
    && CoveringIntervals(classById, dispatches, commands, intervals, |commands|)
  }

  lemma IntervalsAreUnique(
    classById: map<string, BufferClass>, dispatches: seq<DispatchEntry>, commands: seq<Command>,
    m1: map<string, Interval>, m2: map<string, Interval>)
    requires AreIntervals(classById, dispatches, commands, m1)
    requires AreIntervals(classById, dispatches, commands, m2)
    ensures m1 == m2
  {
    forall id | id in m1
      ensures id in m2 && m2[id].start <= m1[id].start && m1[id].end <= m2[id].end
    {
      IntervalIsInside(classById, dispatches, commands, m1, m2, id);
    }
    forall id | id in m2
      ensures id in m1 && m1[id].start <= m2[id].start && m2[id].end <= m1[id].end
    {
      IntervalIsInside(classById, dispatches, commands, m2, m1, id);
    }
  }

  lemma IntervalIsInside(
    classById: map<string, BufferClass>, dispatches: seq<DispatchEntry>, commands: seq<Command>,
    m1: map<string, Interval>, m2: map<string, Interval>, id: string)
    requires AreIntervals(classById, dispatches, commands, m1)
    requires AreIntervals(classById, dispatches, commands, m2)
    requires id in m1
    ensures id in m2 && m2[id].start <= m1[id].start && m1[id].end <= m2[id].end
  {
    var j: nat :| UsesAt(commands, dispatches, m1[id].start, j, id);
    var l: nat :| UsesAt(commands, dispatches, m1[id].end - 1, l, id);
    assert Covers(m2, id, m1[id].start) && Covers(m2, id, m1[id].end - 1);
  }

  /** The dictionary after a use of `id` by command `k`. */
  function Widen(intervals: map<string, Interval>, id: string, k: nat): (wider: map<string, Interval>)
    ensures Covers(wider, id, k)
    ensures forall id', k': nat :: Covers(intervals, id', k') ==> Covers(wider, id', k')
  {
    var known := if id in intervals then intervals[id] else Interval(k, k + 1);
    intervals[id := Interval(Min(known.start, k), Max(known.end, k + 1))]
  }

  lemma WidenStaysTight(
    classById: map<string, BufferClass>, dispatches: seq<DispatchEntry>, commands: seq<Command>,
    intervals: map<string, Interval>, k: nat, j: nat, id: string)
    requires TightIntervals(classById, dispatches, commands, intervals, k + 1)
    requires UsesAt(commands, dispatches, k, j, id) && IsArena(classById, id)
    ensures TightIntervals(classById, dispatches, commands, Widen(intervals, id, k), k + 1)
  {
    var wider := Widen(intervals, id, k);
    assert Uses(commands, dispatches, k, id);
    forall id' | id' in wider
      ensures
        && IsArena(classById, id')
        && wider[id'].start < wider[id'].end <= k + 1
        && Uses(commands, dispatches, wider[id'].start, id')
        && Uses(commands, dispatches, wider[id'].end - 1, id')
    {
      assert id' != id ==> id' in intervals && wider[id'] == intervals[id'];
    }
  }

  lemma CoverageGrows(
    classById: map<string, BufferClass>, dispatches: seq<DispatchEntry>, commands: seq<Command>,
    before: map<string, Interval>, after: map<string, Interval>, k: nat)
    requires k < |commands| && CommandSlices(commands[k], dispatches).Some?
    requires CoveringIntervals(classById, dispatches, commands, before, k)
    requires forall id, k': nat :: Covers(before, id, k') ==> Covers(after, id, k')
    requires var slices := CommandSlices(commands[k], dispatches).value;
             forall i :: 0 <= i < |slices| && IsArena(classById, slices[i].base) ==> Covers(after, slices[i].base, k)
    ensures CoveringIntervals(classById, dispatches, commands, after, k + 1)
  {
  }

  /** The slices of one command. */
  method TouchSlices(
    classById: map<string, BufferClass>, dispatches: seq<DispatchEntry>, commands: seq<Command>,
    before: map<string, Interval>, k: nat)
    returns (intervals: map<string, Interval>)
    requires k < |commands| && CommandSlices(commands[k], dispatches).Some?
    requires TightIntervals(classById, dispatches, commands, before, k)
    requires CoveringIntervals(classById, dispatches, commands, before, k)
    ensures TightIntervals(classById, dispatches, commands, intervals, k + 1)
    ensures CoveringIntervals(classById, dispatches, commands, intervals, k + 1)
  {
    var slices := CommandSlices(commands[k], dispatches).value;
    intervals := before;
    for j := 0 to |slices|
      invariant TightIntervals(classById, dispatches, commands, intervals, k + 1)
      invariant forall id, k': nat :: Covers(before, id, k') ==> Covers(intervals, id, k')
      invariant forall i :: 0 <= i < j && IsArena(classById, slices[i].base) ==> Covers(intervals, slices[i].base, k)
    {
      var id := slices[j].base;
      if !IsArena(classById, id) {
        continue;
      }
      WidenStaysTight(classById, dispatches, commands, intervals, k, j, id);
      intervals := Widen(intervals, id, k);
    }
    CoverageGrows(classById, dispatches, commands, before, intervals, k);
  }

  /** `_transient_intervals` */
  method TransientIntervals(classById: map<string, BufferClass>, dispatches: seq<DispatchEntry>, commands: seq<Command>)
    returns (r: Result<map<string, Interval>, Error>)
    ensures r.Ok? <==> ValidCommands(commands, dispatches)
    ensures r.Ok? ==> AreIntervals(classById, dispatches, commands, r.value)
    ensures r.Err? ==> r.error == BadCommand
  {
    var intervals: map<string, Interval> := map[];
    for k := 0 to |commands|
      invariant ValidCommands(commands[..k], dispatches)
      invariant TightIntervals(classById, dispatches, commands, intervals, k)
      invariant CoveringIntervals(classById, dispatches, commands, intervals, k)
    {
      if CommandSlices(commands[k], dispatches).None? {
        return Err(BadCommand);
      }
      intervals := TouchSlices(classById, dispatches, commands, intervals, k);
    }
    assert commands[..|commands|] == commands;
    r := Ok(intervals);
  }

  // ---------- classification and offsets ----------

  predicate WellFormed(allocations: seq<Allocation>) {
    forall i :: 0 <= i < |allocations| ==>
      allocations[i].id != "" && allocations[i].cls.Some? && allocations[i].size >= 0
  }

  predicate DistinctIds(allocations: seq<Allocation>) {
    forall i, j :: 0 <= i < j < |allocations| ==> allocations[i].id != allocations[j].id
  }

  function ClassById(allocations: seq<Allocation>): map<string, BufferClass>
    requires WellFormed(allocations)
  {
    if allocations == [] then map[]
    else
      var last := allocations[|allocations| - 1];
      ClassById(allocations[..|allocations| - 1])[last.id := last.cls.value]
  }

  /** Bytes of one class in a prefix of the allocation list. */
  function ClassBytes(allocations: seq<Allocation>, c: BufferClass): (bytes: nat)
    requires WellFormed(allocations)
  {
    if allocations == [] then 0
    else
      var last := allocations[|allocations| - 1];
      ClassBytes(allocations[..|allocations| - 1], c) + if last.cls.value == c then last.size else 0
  }

  /** Inputs, outputs and constants are laid end to end in their own regions. */
  function StaticOffsets(allocations: seq<Allocation>): map<string, nat>
    requires WellFormed(allocations)
  {
    if allocations == [] then map[]
    else
      var last, before := allocations[|allocations| - 1], allocations[..|allocations| - 1];
      if last.cls.value == Arena then StaticOffsets(before)
      else StaticOffsets(before)[last.id := ClassBytes(before, last.cls.value)]
  }

  function ArenaAllocations(allocations: seq<Allocation>): seq<(string, nat)>
    requires WellFormed(allocations)
  {
    if allocations == [] then []
    else
      var last, before := allocations[|allocations| - 1], ArenaAllocations(allocations[..|allocations| - 1]);
      if last.cls.value == Arena then before + [(last.id, last.size)] else before
  }

  datatype Totals = Totals(input: nat, output: nat, constant: nat, arena: nat) {
    function Get(c: BufferClass): nat {
      match c
      case Input => input
      case Output => output
      case Const => constant
      case Arena => arena
    }
  }

  datatype Plan = Plan(
    classById: map<string, BufferClass>,
    offsetById: map<string, nat>,
    totals: Totals,
    maxArenaAllocation: nat,
    intervals: map<string, Interval>)

  ghost predicate IsPlan(
    allocations: seq<Allocation>, dispatches: seq<DispatchEntry>, commands: seq<Command>, plan: Plan)
    requires WellFormed(allocations)
  {
    var arena := ArenaAllocations(allocations);
    && plan.classById == ClassById(allocations)
    && AreIntervals(plan.classById, dispatches, commands, plan.intervals)
    && plan.offsetById == StaticOffsets(allocations) + OffsetById(arena, plan.intervals)
    && plan.totals == Totals(
         ClassBytes(allocations, Input), ClassBytes(allocations, Output), ClassBytes(allocations, Const),
         ArenaBytes(FirstFit(Requests(arena, plan.intervals))))
    && plan.maxArenaAllocation == MaxSize(arena)
  }

  /** One more allocation classified. */
  lemma ClassifyStep(allocations: seq<Allocation>, n: nat)
    requires n < |allocations| && WellFormed(allocations[..n]) && WellFormed(allocations[n..n + 1])
    ensures WellFormed(allocations[..n + 1])
    ensures
      var a, before, now := allocations[n], allocations[..n], allocations[..n + 1];
      && ClassById(now) == ClassById(before)[a.id := a.cls.value]
      && (forall c: BufferClass :: ClassBytes(now, c) == ClassBytes(before, c) + if a.cls.value == c then a.size else 0)
      && StaticOffsets(now) == (if a.cls.value == Arena then StaticOffsets(before)
                                else StaticOffsets(before)[a.id := ClassBytes(before, a.cls.value)])
      && ArenaAllocations(now) == ArenaAllocations(before) + if a.cls.value == Arena then [(a.id, a.size)] else []
  {
    assert allocations[n..n + 1] == [allocations[n]];
    assert allocations[..n + 1] == allocations[..n] + [allocations[n]];
    assert allocations[..n + 1][..n] == allocations[..n];
  }

  /** `_classify_allocations` */
  method ClassifyAllocations(allocations: seq<Allocation>, dispatches: seq<DispatchEntry>, commands: seq<Command>)
    returns (r: Result<Plan, Error>)
    ensures r.Ok? <==> WellFormed(allocations) && ValidCommands(commands, dispatches)
    ensures r.Ok? ==> IsPlan(allocations, dispatches, commands, r.value)
    ensures r.Err? ==> r.error in {EmptyId, UnknownClass, NegativeNumber, BadCommand}
  {
    var classById: map<string, BufferClass> := map[];
    var offsetById: map<string, nat> := map[];
    var totals := Totals(0, 0, 0, 0);
    var arenaAllocations: seq<(string, nat)> := [];
    for n := 0 to |allocations|
      invariant WellFormed(allocations[..n])
      invariant classById == ClassById(allocations[..n])
      invariant offsetById == StaticOffsets(allocations[..n])
      invariant totals.input == ClassBytes(allocations[..n], Input)
      invariant totals.output == ClassBytes(allocations[..n], Output)
      invariant totals.constant == ClassBytes(allocations[..n], Const)
      invariant arenaAllocations == ArenaAllocations(allocations[..n])
    {
      var a := allocations[n];
      if a.id == "" {
        return Err(EmptyId);
      }
      if a.cls.None? {
        return Err(UnknownClass);
      }
      if a.size < 0 {
        return Err(NegativeNumber);
      }
      assert allocations[n..n + 1] == [a];
      ClassifyStep(allocations, n);
      classById := classById[a.id := a.cls.value];
      match a.cls.value {
        case Arena =>
          arenaAllocations := arenaAllocations + [(a.id, a.size)];
        case Input =>
          offsetById := offsetById[a.id := totals.input];
          totals := totals.(input := totals.input + a.size);
        case Output =>
          offsetById := offsetById[a.id := totals.output];
          totals := totals.(output := totals.output + a.size);
        case Const =>
          offsetById := offsetById[a.id := totals.constant];
          totals := totals.(constant := totals.constant + a.size);
      }
    }
    assert allocations[..|allocations|] == allocations;
    var intervals := TransientIntervals(classById, dispatches, commands);
    if intervals.Err? {
      return Err(intervals.error);
    }
    var arenaOffsets, arenaBytes, maxArenaAllocation :=
      PlaceTransientAllocations(arenaAllocations, intervals.value);
    r := Ok(Plan(classById, offsetById + arenaOffsets, totals.(arena := arenaBytes),
                 maxArenaAllocation, intervals.value));
  }

  // ---------- soundness of a plan ----------

  /** The plan has the class and an offset of every allocation. */
  ghost predicate KnowsAll(allocations: seq<Allocation>, plan: Plan)
    requires WellFormed(allocations)
  {
    forall i :: 0 <= i < |allocations| ==>
      && allocations[i].id in plan.classById && plan.classById[allocations[i].id] == allocations[i].cls.value
      && allocations[i].id in plan.offsetById
  }

  /** Allocations of one region that hold data at the same time have disjoint ranges. */
  ghost predicate LiveApart(allocations: seq<Allocation>, plan: Plan)
    requires WellFormed(allocations) && KnowsAll(allocations, plan)
  {
    forall i, j :: 0 <= i < j < |allocations| && Coexist(allocations[i], allocations[j], plan) ==>
      !RangesOverlap(plan.offsetById[allocations[i].id], allocations[i].size,
                     plan.offsetById[allocations[j].id], allocations[j].size)
  }

  /** What every consumer of a plan relies on. */
  ghost predicate SoundLayout(allocations: seq<Allocation>, plan: Plan)
    requires WellFormed(allocations)
  {
    && KnowsAll(allocations, plan)
    && (forall i :: 0 <= i < |allocations| && InRegion(allocations[i], plan) ==>
          plan.offsetById[allocations[i].id] + allocations[i].size <= plan.totals.Get(allocations[i].cls.value))
    && LiveApart(allocations, plan)
    && (forall i :: 0 <= i < |allocations| && !InRegion(allocations[i], plan) ==>
          plan.offsetById[allocations[i].id] == 0 && allocations[i].size <= plan.maxArenaAllocation)
    && (forall i :: 0 <= i < |allocations| && allocations[i].cls.value == Arena ==>
          allocations[i].size <= plan.maxArenaAllocation && plan.offsetById[allocations[i].id] % ALIGNMENT == 0)
  }

  /** Everything but an unused transient is really placed in its region. */
  predicate InRegion(a: Allocation, plan: Plan) {
    a.cls.Some? && (a.cls.value == Arena ==> a.id in plan.intervals)
  }

  /** Two allocations of one region that hold data at the same time. */
  predicate Coexist(a: Allocation, b: Allocation, plan: Plan) {
    && a.cls == b.cls && InRegion(a, plan) && InRegion(b, plan)
    && (a.cls.value == Arena ==> IntervalsOverlap(plan.intervals[a.id], plan.intervals[b.id]))
  }

  lemma {:induction false} ClassByIdAt(allocations: seq<Allocation>, i: nat)
    requires WellFormed(allocations) && DistinctIds(allocations) && i < |allocations|
    ensures allocations[i].id in ClassById(allocations)
    ensures ClassById(allocations)[allocations[i].id] == allocations[i].cls.value
  {
    var n := |allocations| - 1;
    if i < n {
      assert allocations[..n][i] == allocations[i];
      ClassByIdAt(allocations[..n], i);
    }
  }

  lemma {:induction false} ClassByIdKeys(allocations: seq<Allocation>, id: string) returns (i: nat)
    requires WellFormed(allocations) && id in ClassById(allocations)
    ensures i < |allocations| && allocations[i].id == id
  {
    var n := |allocations| - 1;
    if allocations[n].id == id {
      i := n;
    } else {
      i := ClassByIdKeys(allocations[..n], id);
    }
  }

  lemma {:induction false} ClassBytesMonotone(allocations: seq<Allocation>, c: BufferClass, n: nat)
    requires WellFormed(allocations) && n <= |allocations|
    ensures ClassBytes(allocations[..n], c) <= ClassBytes(allocations, c)
    decreases |allocations|
  {
    if n == |allocations| {
      assert allocations[..n] == allocations;
    } else {
      var m := |allocations| - 1;
      ClassBytesMonotone(allocations[..m], c, n);
      assert allocations[..m][..n] == allocations[..n];
    }
  }

  lemma StaticOffsetOfLast(allocations: seq<Allocation>)
    requires WellFormed(allocations) && allocations != [] && allocations[|allocations| - 1].cls.value != Arena
    ensures
      var n := |allocations| - 1;
      var last := allocations[n];
      && last.id in StaticOffsets(allocations)
      && StaticOffsets(allocations)[last.id] == ClassBytes(allocations[..n], last.cls.value)
      && ClassBytes(allocations, last.cls.value) == ClassBytes(allocations[..n], last.cls.value) + last.size
  {
  }

  lemma StaticOffsetOfEarlier(allocations: seq<Allocation>, id: string)
    requires WellFormed(allocations) && allocations != [] && allocations[|allocations| - 1].id != id
    ensures
      var before := StaticOffsets(allocations[..|allocations| - 1]);
      id in before ==> id in StaticOffsets(allocations) && StaticOffsets(allocations)[id] == before[id]
  {
  }

  lemma {:induction false} StaticOffsetAt(allocations: seq<Allocation>, i: nat)
    requires WellFormed(allocations) && DistinctIds(allocations) && i < |allocations|
    requires allocations[i].cls.value != Arena
    ensures allocations[i].id in StaticOffsets(allocations)
    ensures StaticOffsets(allocations)[allocations[i].id] == ClassBytes(allocations[..i], allocations[i].cls.value)
    ensures ClassBytes(allocations[..i], allocations[i].cls.value) + allocations[i].size
            == ClassBytes(allocations[..i + 1], allocations[i].cls.value)
  {
    var n := |allocations| - 1;
    if i == n {
      assert allocations[..i + 1] == allocations;
      StaticOffsetOfLast(allocations);
    } else {
      assert allocations[..n][i] == allocations[i];
      StaticOffsetAt(allocations[..n], i);
      StaticOffsetOfEarlier(allocations, allocations[i].id);
      assert allocations[..n][..i] == allocations[..i] && allocations[..n][..i + 1] == allocations[..i + 1];
    }
  }

  lemma {:induction false} StaticRangesAreDisjoint(allocations: seq<Allocation>, i: nat, j: nat)
    requires WellFormed(allocations) && DistinctIds(allocations) && i < j < |allocations|
    requires allocations[i].cls == allocations[j].cls && allocations[i].cls.value != Arena
    ensures allocations[i].id in StaticOffsets(allocations) && allocations[j].id in StaticOffsets(allocations)
    ensures StaticOffsets(allocations)[allocations[i].id] + allocations[i].size
            <= StaticOffsets(allocations)[allocations[j].id]
  {
    StaticOffsetAt(allocations, i);
    StaticOffsetAt(allocations, j);
    ClassBytesMonotone(allocations[..j], allocations[i].cls.value, i + 1);
    assert allocations[..j][..i + 1] == allocations[..i + 1];
  }

  predicate DistinctKeys(arena: seq<(string, nat)>) {
    forall i, j :: 0 <= i < j < |arena| ==> arena[i].0 != arena[j].0
  }

  ghost predicate HasArenaAllocation(allocations: seq<Allocation>, id: string)
    requires WellFormed(allocations)
  {
    exists i :: 0 <= i < |allocations| && allocations[i].cls.value == Arena && allocations[i].id == id
  }

  lemma {:induction false} ArenaAllocationsAre(allocations: seq<Allocation>)
    requires WellFormed(allocations) && DistinctIds(allocations)
    ensures var arena := ArenaAllocations(allocations);
            && DistinctKeys(arena)
            && (forall i :: 0 <= i < |allocations| && allocations[i].cls.value == Arena ==>
                  (allocations[i].id, allocations[i].size) in arena)
            && (forall e :: e in arena ==> HasArenaAllocation(allocations, e.0))
  {
    if allocations != [] {
      var n := |allocations| - 1;
      ArenaAllocationsAre(allocations[..n]);
      var before := ArenaAllocations(allocations[..n]);
      forall e | e in before
        ensures HasArenaAllocation(allocations, e.0)
      {
        var i :| 0 <= i < n && allocations[..n][i].cls.value == Arena && allocations[..n][i].id == e.0;
        assert allocations[i] == allocations[..n][i];
      }
      forall i | 0 <= i < n && allocations[i].cls.value == Arena
        ensures (allocations[i].id, allocations[i].size) in before
      {
        assert allocations[..n][i] == allocations[i];
      }
    }
  }

  /** Where the requests of a transient list end up: each used transient at its first-fit offset. */
  lemma {:induction false} OffsetByIdAt(arena: seq<(string, nat)>, intervals: map<string, Interval>, e: (string, nat))
    returns (r: nat)
    requires DistinctKeys(arena) && e in arena
    ensures e.0 in OffsetById(arena, intervals)
    ensures e.0 !in intervals ==> OffsetById(arena, intervals)[e.0] == 0
    ensures e.0 in intervals ==>
              && r < |Requests(arena, intervals)|
              && Requests(arena, intervals)[r] == Request(e.0, e.1, intervals[e.0])
              && OffsetById(arena, intervals)[e.0] == FirstFit(Requests(arena, intervals))[r].offset
  {
    var n := |arena| - 1;
    var requests := Requests(arena, intervals);
    var before := Requests(arena[..n], intervals);
    if arena[n].0 in intervals {
      assert requests[..|requests| - 1] == before;
    }
    if arena[n] == e {
      r := |before|;
    } else {
      assert arena == arena[..n] + [arena[n]];
      r := OffsetByIdAt(arena[..n], intervals, e);
      assert e.0 != arena[n].0 by {
        var i :| 0 <= i < n && arena[i] == e;
        assert arena[i].0 != arena[n].0;
      }
    }
  }

  /** Two transients with meeting intervals get disjoint ranges. */
  lemma {:induction false} TransientsAreApart(
    arena: seq<(string, nat)>, intervals: map<string, Interval>, a: (string, nat), b: (string, nat))
    requires DistinctKeys(arena) && a in arena && b in arena && a.0 != b.0
    requires a.0 in intervals && b.0 in intervals && IntervalsOverlap(intervals[a.0], intervals[b.0])
    ensures a.0 in OffsetById(arena, intervals) && b.0 in OffsetById(arena, intervals)
    ensures !RangesOverlap(OffsetById(arena, intervals)[a.0], a.1, OffsetById(arena, intervals)[b.0], b.1)
  {
    var i := OffsetByIdAt(arena, intervals, a);
    var j := OffsetByIdAt(arena, intervals, b);
    FirstFitIsConflictFree(Requests(arena, intervals));
    assert i != j;
  }

  /** A plan computed for distinct identifiers is sound. */
  lemma PlanIsSound(
    allocations: seq<Allocation>, dispatches: seq<DispatchEntry>, commands: seq<Command>, plan: Plan)
    requires WellFormed(allocations) && DistinctIds(allocations)
    requires IsPlan(allocations, dispatches, commands, plan)
    ensures SoundLayout(allocations, plan)
  {
    forall i | 0 <= i < |allocations|
      ensures
        && allocations[i].id in plan.classById && plan.classById[allocations[i].id] == allocations[i].cls.value
        && allocations[i].id in plan.offsetById
        && (InRegion(allocations[i], plan) ==>
              plan.offsetById[allocations[i].id] + allocations[i].size <= plan.totals.Get(allocations[i].cls.value))
        && (!InRegion(allocations[i], plan) ==> plan.offsetById[allocations[i].id] == 0)
        && (allocations[i].cls.value == Arena ==>
              allocations[i].size <= plan.maxArenaAllocation && plan.offsetById[allocations[i].id] % ALIGNMENT == 0)
    {
      OneAllocationIsSound(allocations, dispatches, commands, plan, i);
    }
    forall i, j | 0 <= i < j < |allocations| && Coexist(allocations[i], allocations[j], plan)
      ensures !RangesOverlap(plan.offsetById[allocations[i].id], allocations[i].size,
                             plan.offsetById[allocations[j].id], allocations[j].size)
    {
      TwoAllocationsAreSound(allocations, dispatches, commands, plan, i, j);
    }
  }

  lemma {:induction false} ArenaKeys(arena: seq<(string, nat)>, intervals: map<string, Interval>, id: string)
    requires id in OffsetById(arena, intervals)
    ensures exists e :: e in arena && e.0 == id
  {
    var n := |arena| - 1;
    if arena[n].0 == id {
      assert arena[n] in arena;
    } else {
      ArenaKeys(arena[..n], intervals, id);
      var e :| e in arena[..n] && e.0 == id;
      assert e in arena;
    }
  }

  lemma {:induction false} StaticKeepsItsOffset(
    allocations: seq<Allocation>, dispatches: seq<DispatchEntry>, commands: seq<Command>, plan: Plan, i: nat)
    requires WellFormed(allocations) && DistinctIds(allocations) && i < |allocations|
    requires IsPlan(allocations, dispatches, commands, plan)
    requires allocations[i].cls.value != Arena
    ensures allocations[i].id in plan.offsetById && allocations[i].id in StaticOffsets(allocations)
    ensures plan.offsetById[allocations[i].id] == StaticOffsets(allocations)[allocations[i].id]
  {
    var arena, id := ArenaAllocations(allocations), allocations[i].id;
    StaticOffsetAt(allocations, i);
    ArenaAllocationsAre(allocations);
    if id in OffsetById(arena, plan.intervals) {
      ArenaKeys(arena, plan.intervals, id);
      assert false;
    }
  }

  lemma OneAllocationIsSound(
    allocations: seq<Allocation>, dispatches: seq<DispatchEntry>, commands: seq<Command>, plan: Plan, i: nat)
    requires WellFormed(allocations) && DistinctIds(allocations) && i < |allocations|
    requires IsPlan(allocations, dispatches, commands, plan)
    ensures
      && allocations[i].id in plan.classById && plan.classById[allocations[i].id] == allocations[i].cls.value
      && allocations[i].id in plan.offsetById
      && (InRegion(allocations[i], plan) ==>
            plan.offsetById[allocations[i].id] + allocations[i].size <= plan.totals.Get(allocations[i].cls.value))
      && (!InRegion(allocations[i], plan) ==> plan.offsetById[allocations[i].id] == 0)
      && (allocations[i].cls.value == Arena ==>
            allocations[i].size <= plan.maxArenaAllocation && plan.offsetById[allocations[i].id] % ALIGNMENT == 0)
  {
    ClassByIdAt(allocations, i);
    var a := allocations[i];
    if a.cls.value != Arena {
      StaticKeepsItsOffset(allocations, dispatches, commands, plan, i);
      StaticOffsetAt(allocations, i);
      ClassBytesMonotone(allocations, a.cls.value, i + 1);
    } else {
      var arena := ArenaAllocations(allocations);
      ArenaAllocationsAre(allocations);
      var r := OffsetByIdAt(arena, plan.intervals, (a.id, a.size));
      FirstFitIsConflictFree(Requests(arena, plan.intervals));
    }
  }

  lemma TwoAllocationsAreSound(
    allocations: seq<Allocation>, dispatches: seq<DispatchEntry>, commands: seq<Command>, plan: Plan, i: nat, j: nat)
    requires WellFormed(allocations) && DistinctIds(allocations) && i < j < |allocations|
    requires IsPlan(allocations, dispatches, commands, plan)
    requires Coexist(allocations[i], allocations[j], plan)
    ensures allocations[i].id in plan.offsetById && allocations[j].id in plan.offsetById
    ensures !RangesOverlap(plan.offsetById[allocations[i].id], allocations[i].size,
                           plan.offsetById[allocations[j].id], allocations[j].size)
  {
    var a, b := allocations[i], allocations[j];
    if a.cls.value != Arena {
      StaticKeepsItsOffset(allocations, dispatches, commands, plan, i);
      StaticKeepsItsOffset(allocations, dispatches, commands, plan, j);
      StaticRangesAreDisjoint(allocations, i, j);
    } else {
      ArenaAllocationsAre(allocations);
      TransientsAreApart(ArenaAllocations(allocations), plan.intervals, (a.id, a.size), (b.id, b.size));
    }
  }
}
