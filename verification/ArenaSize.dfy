/**
  The size of the arena in a report and in a descriptor, said of the allocations, their offsets and the
  scheduled peak: it bounds all of them and is no larger than it has to be.
 */
module ArenaSize {
  import opened Basics
  import opened Placement
  import opened Schedule

  predicate IsTransient(allocations: seq<Allocation>, i: int) {
    0 <= i < |allocations| && allocations[i].cls == Some(Arena)
  }

  /** A transient that some command uses, with the end of its range. */
  predicate EndsAt(allocations: seq<Allocation>, plan: Plan, i: int, end: int) {
    && IsTransient(allocations, i) && allocations[i].id in plan.intervals && allocations[i].id in plan.offsetById
    && plan.offsetById[allocations[i].id] + allocations[i].size == end
  }

  /** `bytes` is the largest end of a placed transient, or 0 without any. */
  ghost predicate IsPackedSize(allocations: seq<Allocation>, plan: Plan, bytes: int) {
    && (forall i, end :: EndsAt(allocations, plan, i, end) ==> end <= bytes)
    && (bytes == 0 || exists i :: EndsAt(allocations, plan, i, bytes))
  }

  /** `bytes` is the largest size of a transient, or 0 without any. */
  ghost predicate IsLargestSize(allocations: seq<Allocation>, bytes: int) {
    && (forall i :: IsTransient(allocations, i) ==> allocations[i].size <= bytes)
    && (bytes == 0 || exists i :: IsTransient(allocations, i) && allocations[i].size == bytes)
  }

  /** `bytes` holds every placed range, every transient and the given peak, and is one of these or 0. */
  ghost predicate IsArenaSize(allocations: seq<Allocation>, plan: Plan, peak: Option<int>, bytes: int) {
    && (forall i, end :: EndsAt(allocations, plan, i, end) ==> end <= bytes)
    && (forall i :: IsTransient(allocations, i) ==> allocations[i].size <= bytes)
    && (peak.Some? ==> peak.value <= bytes)
    && (|| bytes == 0 || peak == Some(bytes)
        || (exists i :: EndsAt(allocations, plan, i, bytes))
        || exists i :: IsTransient(allocations, i) && allocations[i].size == bytes)
  }

  /** The same of a list of placements, for allocations that may repeat an identifier. */
  ghost predicate HoldsPlacements(allocations: seq<Allocation>, placed: seq<Placed>, peak: Option<int>, bytes: int) {
    && (forall r :: 0 <= r < |placed| ==> placed[r].offset + placed[r].size <= bytes)
    && (forall i :: IsTransient(allocations, i) ==> allocations[i].size <= bytes)
    && (peak.Some? ==> peak.value <= bytes)
    && (|| bytes == 0 || peak == Some(bytes)
        || (exists r :: 0 <= r < |placed| && placed[r].offset + placed[r].size == bytes)
        || exists i :: IsTransient(allocations, i) && allocations[i].size == bytes)
  }

  /** Every entry of the transient list is an allocation. */
  lemma {:induction false} TransientOfEntry(allocations: seq<Allocation>, e: (string, nat)) returns (i: nat)
    requires WellFormed(allocations) && e in ArenaAllocations(allocations)
    ensures IsTransient(allocations, i) && allocations[i].id == e.0 && allocations[i].size == e.1
  {
    var n := |allocations| - 1;
    if allocations[n].cls.value == Arena && e == (allocations[n].id, allocations[n].size) {
      i := n;
    } else {
      i := TransientOfEntry(allocations[..n], e);
    }
  }

  lemma {:induction false} EntryOfTransient(allocations: seq<Allocation>, i: nat)
    requires WellFormed(allocations) && IsTransient(allocations, i)
    ensures (allocations[i].id, allocations[i].size) in ArenaAllocations(allocations)
  {
    var n := |allocations| - 1;
    if i < n {
      assert allocations[..n][i] == allocations[i];
      EntryOfTransient(allocations[..n], i);
    }
  }

  lemma {:induction false} MaxSizeAttained(arena: seq<(string, nat)>) returns (k: nat)
    requires arena != []
    ensures k < |arena| && arena[k].1 == MaxSize(arena)
  {
    var n := |arena| - 1;
    if n == 0 || MaxSize(arena[..n]) < arena[n].1 {
      k := n;
      assert arena[..n] == [] || MaxSize(arena[..n]) < arena[n].1;
    } else {
      k := MaxSizeAttained(arena[..n]);
    }
  }

  lemma LargestSizeIs(allocations: seq<Allocation>)
    requires WellFormed(allocations)
    ensures IsLargestSize(allocations, MaxSize(ArenaAllocations(allocations)))
  {
    var arena := ArenaAllocations(allocations);
    forall i | IsTransient(allocations, i)
      ensures allocations[i].size <= MaxSize(arena)
    {
      EntryOfTransient(allocations, i);
      var k :| 0 <= k < |arena| && arena[k] == (allocations[i].id, allocations[i].size);
    }
    if arena != [] {
      var k := MaxSizeAttained(arena);
      var i := TransientOfEntry(allocations, arena[k]);
    }
  }

  /** Every request is an entry of the transient list that some command uses. */
  lemma {:induction false} EntryOfRequest(arena: seq<(string, nat)>, intervals: map<string, Interval>, r: nat)
    returns (k: nat)
    requires r < |Requests(arena, intervals)|
    ensures k < |arena| && arena[k].0 in intervals
    ensures Requests(arena, intervals)[r] == Request(arena[k].0, arena[k].1, intervals[arena[k].0])
  {
    var n := |arena| - 1;
    if arena[n].0 in intervals && r == |Requests(arena[..n], intervals)| {
      k := n;
    } else {
      k := EntryOfRequest(arena[..n], intervals, r);
    }
  }

  lemma {:induction false} RequestsAreDistinct(
    arena: seq<(string, nat)>, intervals: map<string, Interval>, p: nat, q: nat)
    requires DistinctKeys(arena) && p < q < |Requests(arena, intervals)|
    ensures Requests(arena, intervals)[p].id != Requests(arena, intervals)[q].id
  {
    var n := |arena| - 1;
    var before := Requests(arena[..n], intervals);
    if q < |before| {
      RequestsAreDistinct(arena[..n], intervals, p, q);
    } else {
      var k := EntryOfRequest(arena[..n], intervals, p);
      assert arena[k].0 != arena[n].0;
    }
  }

  /** With distinct keys the offset table holds the placement of every request. */
  lemma OffsetOfRequest(arena: seq<(string, nat)>, intervals: map<string, Interval>, k: nat, r: nat)
    requires DistinctKeys(arena) && k < |arena| && arena[k].0 in intervals && r < |Requests(arena, intervals)|
    requires Requests(arena, intervals)[r] == Request(arena[k].0, arena[k].1, intervals[arena[k].0])
    ensures arena[k].0 in OffsetById(arena, intervals)
    ensures OffsetById(arena, intervals)[arena[k].0] == FirstFit(Requests(arena, intervals))[r].offset
  {
    var q := OffsetByIdAt(arena, intervals, arena[k]);
    if r < q {
      RequestsAreDistinct(arena, intervals, r, q);
    } else if q < r {
      RequestsAreDistinct(arena, intervals, q, r);
    }
  }

  /** For distinct identifiers the placements are the offsets of the plan. */
  lemma PlacementIsOffset(
    allocations: seq<Allocation>, dispatches: seq<DispatchEntry>, commands: seq<Command>, plan: Plan, r: nat)
    returns (i: nat)
    requires WellFormed(allocations) && DistinctIds(allocations) && IsPlan(allocations, dispatches, commands, plan)
    requires r < |Requests(ArenaAllocations(allocations), plan.intervals)|
    ensures
      var placed := FirstFit(Requests(ArenaAllocations(allocations), plan.intervals));
      EndsAt(allocations, plan, i, placed[r].offset + placed[r].size)
  {
    var arena := ArenaAllocations(allocations);
    ArenaAllocationsAre(allocations);
    var k := EntryOfRequest(arena, plan.intervals, r);
    i := TransientOfEntry(allocations, arena[k]);
    OffsetOfRequest(arena, plan.intervals, k, r);
    PlacedSize(Requests(arena, plan.intervals), r);
  }

  lemma PlacedSize(requests: seq<Request>, r: nat)
    requires r < |requests|
    ensures FirstFit(requests)[r].size == requests[r].size
  {
    FirstFitIsConflictFree(requests);
  }

  lemma PlacementOfTransient(
    allocations: seq<Allocation>, dispatches: seq<DispatchEntry>, commands: seq<Command>, plan: Plan, i: nat)
    returns (r: nat)
    requires WellFormed(allocations) && DistinctIds(allocations) && IsPlan(allocations, dispatches, commands, plan)
    requires IsTransient(allocations, i) && allocations[i].id in plan.intervals
    ensures
      var placed := FirstFit(Requests(ArenaAllocations(allocations), plan.intervals));
      r < |placed| && EndsAt(allocations, plan, i, placed[r].offset + placed[r].size)
  {
    var arena := ArenaAllocations(allocations);
    ArenaAllocationsAre(allocations);
    EntryOfTransient(allocations, i);
    r := OffsetByIdAt(arena, plan.intervals, (allocations[i].id, allocations[i].size));
    PlacedSize(Requests(arena, plan.intervals), r);
  }

  lemma PackedSizeIs(allocations: seq<Allocation>, dispatches: seq<DispatchEntry>, commands: seq<Command>, plan: Plan)
    requires WellFormed(allocations) && DistinctIds(allocations) && IsPlan(allocations, dispatches, commands, plan)
    ensures IsPackedSize(allocations, plan, plan.totals.arena)
  {
    var placed := FirstFit(Requests(ArenaAllocations(allocations), plan.intervals));
    forall i, end | EndsAt(allocations, plan, i, end)
      ensures end <= ArenaBytes(placed)
    {
      var r := PlacementOfTransient(allocations, dispatches, commands, plan, i);
    }
    if placed != [] {
      var r := ArenaBytesAttained(placed);
      var i := PlacementIsOffset(allocations, dispatches, commands, plan, r);
      assert EndsAt(allocations, plan, i, ArenaBytes(placed));
    }
  }

  /** The largest of the packed size, the largest transient and the peak is the arena size. */
  lemma LargestIsArenaSize(
    allocations: seq<Allocation>, plan: Plan, peak: Option<int>, packed: int, largest: int, bytes: int)
    requires IsPackedSize(allocations, plan, packed) && IsLargestSize(allocations, largest)
    requires packed <= bytes && largest <= bytes && (peak.Some? ==> peak.value <= bytes)
    requires bytes == packed || bytes == largest || peak == Some(bytes)
    ensures IsArenaSize(allocations, plan, peak, bytes)
  {
  }

  lemma PlacementsAreHeld(
    allocations: seq<Allocation>, placed: seq<Placed>, peak: Option<int>, largest: int, bytes: int)
    requires IsLargestSize(allocations, largest)
    requires ArenaBytes(placed) <= bytes && largest <= bytes && (peak.Some? ==> peak.value <= bytes)
    requires bytes == ArenaBytes(placed) || bytes == largest || peak == Some(bytes)
    ensures HoldsPlacements(allocations, placed, peak, bytes)
  {
    if placed != [] {
      var r := ArenaBytesAttained(placed);
    }
  }
}
