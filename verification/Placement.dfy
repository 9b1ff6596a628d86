/**
  First-fit placement of transient allocations in one arena
  (`_place_transient_allocations` of generate_static_direct_descriptor.py and
  `_pack_first_fit` of sweep_static_direct_arena_planners.py).

  The specification says nothing about the search: each request gets the least 64-aligned
  offset at which it meets no earlier request whose live interval overlaps its own.
 */
module Placement {
  import opened Basics

  const ALIGNMENT: nat := 64

  /** Commands `start`, ..., `end - 1`. */
  datatype Interval = Interval(start: nat, end: nat)

  datatype Request = Request(id: string, size: nat, interval: Interval)

  datatype Placed = Placed(id: string, offset: nat, size: nat, interval: Interval)

  predicate IntervalsOverlap(lhs: Interval, rhs: Interval) {
    lhs.start < rhs.end && rhs.start < lhs.end
  }

  predicate RangesOverlap(lhsOffset: int, lhsSize: int, rhsOffset: int, rhsSize: int) {
    lhsOffset < rhsOffset + rhsSize && rhsOffset < lhsOffset + lhsSize
  }

  /** `p` rules out offset `offset` for request `r`. */
  predicate Blocks(p: Placed, r: Request, offset: nat) {
    IntervalsOverlap(r.interval, p.interval) && RangesOverlap(offset, r.size, p.offset, p.size)
  }

  predicate Fits(r: Request, offset: nat, placed: seq<Placed>) {
    forall i :: 0 <= i < |placed| ==> !Blocks(placed[i], r, offset)
  }

  ghost predicate IsLeastFit(r: Request, offset: nat, placed: seq<Placed>) {
    && offset % ALIGNMENT == 0
    && Fits(r, offset, placed)
    && forall o: nat :: o < offset && o % ALIGNMENT == 0 ==> !Fits(r, o, placed)
  }

  /** The arena size after placing: the largest end of a placed range. */
  function ArenaBytes(placed: seq<Placed>): (bytes: nat)
    ensures forall i :: 0 <= i < |placed| ==> placed[i].offset + placed[i].size <= bytes
  {
    if placed == [] then 0
    else
      var last := placed[|placed| - 1];
      var before := ArenaBytes(placed[..|placed| - 1]);
      assert forall i :: 0 <= i < |placed| - 1 ==> placed[i] == placed[..|placed| - 1][i];
      Max(before, last.offset + last.size)
  }

  lemma EndOfArenaFits(r: Request, placed: seq<Placed>)
    ensures Fits(r, AlignUp(ArenaBytes(placed), ALIGNMENT), placed)
    ensures AlignUp(ArenaBytes(placed), ALIGNMENT) % ALIGNMENT == 0
  {
    AlignUpIsLeast(ArenaBytes(placed), ALIGNMENT);
  }

  /** Descends from a fitting offset to the least one. */
  lemma LeastFitExists(r: Request, placed: seq<Placed>, fitting: nat) returns (o: nat)
    requires fitting % ALIGNMENT == 0 && Fits(r, fitting, placed)
    ensures o <= fitting && IsLeastFit(r, o, placed)
  {
    if smaller: nat :| smaller < fitting && smaller % ALIGNMENT == 0 && Fits(r, smaller, placed) {
      o := LeastFitExists(r, placed, smaller);
    } else {
      o := fitting;
    }
  }

  ghost function LeastFit(r: Request, placed: seq<Placed>): (o: nat)
    ensures IsLeastFit(r, o, placed)
    ensures o <= AlignUp(ArenaBytes(placed), ALIGNMENT)
  {
    assert exists o: nat :: o <= AlignUp(ArenaBytes(placed), ALIGNMENT) && IsLeastFit(r, o, placed) by {
      EndOfArenaFits(r, placed);
      var o := LeastFitExists(r, placed, AlignUp(ArenaBytes(placed), ALIGNMENT));
    }
    var o: nat :| o <= AlignUp(ArenaBytes(placed), ALIGNMENT) && IsLeastFit(r, o, placed);
    o
  }

  lemma LeastFitIsUnique(r: Request, placed: seq<Placed>, o: nat)
    requires IsLeastFit(r, o, placed)
    ensures o == LeastFit(r, placed)
  {
    var least := LeastFit(r, placed);
    assert !(o < least) && !(least < o);
  }

  ghost function PlaceOne(r: Request, placed: seq<Placed>): Placed {
    Placed(r.id, LeastFit(r, placed), r.size, r.interval)
  }

  /** First-fit placement of a whole list, in its order. */
  ghost function FirstFit(requests: seq<Request>): (placed: seq<Placed>)
    ensures |placed| == |requests|
  {
    if requests == [] then []
    else
      var before := FirstFit(requests[..|requests| - 1]);
      before + [PlaceOne(requests[|requests| - 1], before)]
  }

  lemma FirstFitExtends(requests: seq<Request>, n: nat)
    requires n < |requests|
    ensures FirstFit(requests[..n + 1]) == FirstFit(requests[..n]) + [PlaceOne(requests[n], FirstFit(requests[..n]))]
  {
    assert requests[..n + 1][..n] == requests[..n];
  }

  /** What every packing must keep: same requests, in order, aligned. */
  ghost predicate Serves(placed: seq<Placed>, requests: seq<Request>) {
    && |placed| == |requests|
    && forall i :: 0 <= i < |placed| ==>
         && placed[i].id == requests[i].id
         && placed[i].size == requests[i].size
         && placed[i].interval == requests[i].interval
         && placed[i].offset % ALIGNMENT == 0
  }

  /** Simultaneously live allocations have disjoint ranges. */
  ghost predicate ConflictFree(placed: seq<Placed>) {
    forall i, j :: 0 <= i < j < |placed| && IntervalsOverlap(placed[i].interval, placed[j].interval)
      ==> !RangesOverlap(placed[i].offset, placed[i].size, placed[j].offset, placed[j].size)
  }

  lemma {:induction false} FirstFitIsConflictFree(requests: seq<Request>)
    ensures Serves(FirstFit(requests), requests)
    ensures ConflictFree(FirstFit(requests))
  {
    if requests != [] {
      var n := |requests| - 1;
      var before := FirstFit(requests[..n]);
      var last := PlaceOne(requests[n], before);
      FirstFitIsConflictFree(requests[..n]);
      assert forall i :: 0 <= i < n ==> FirstFit(requests)[i] == before[i] && requests[..n][i] == requests[i];
      forall i | 0 <= i < n && IntervalsOverlap(before[i].interval, last.interval)
        ensures !RangesOverlap(before[i].offset, before[i].size, last.offset, last.size)
      {
        assert !Blocks(before[i], requests[n], last.offset);
      }
    }
  }

  /** No assignment of aligned offsets places a request lower once its predecessors are fixed. */
  lemma {:induction false} FirstFitIsGreedyOptimal(requests: seq<Request>, i: nat, other: nat)
    requires i < |requests| && other % ALIGNMENT == 0
    requires Fits(requests[i], other, FirstFit(requests)[..i])
    ensures FirstFit(requests)[i].offset <= other
  {
    FirstFitPrefix(requests, i + 1);
    FirstFitExtends(requests, i);
    assert FirstFit(requests)[..i] == FirstFit(requests[..i]) by { FirstFitPrefix(requests, i); }
    assert FirstFit(requests)[i] == FirstFit(requests)[..i + 1][i];
  }

  lemma {:induction false} FirstFitPrefix(requests: seq<Request>, n: nat)
    requires n <= |requests|
    ensures FirstFit(requests)[..n] == FirstFit(requests[..n])
    decreases |requests|
  {
    if n == |requests| {
      assert requests[..n] == requests;
    } else {
      var m := |requests| - 1;
      FirstFitPrefix(requests[..m], n);
      assert requests[..m][..n] == requests[..n];
      assert FirstFit(requests)[..n] == FirstFit(requests[..m])[..n];
    }
  }

  lemma {:induction false} ArenaBytesAttained(placed: seq<Placed>) returns (r: nat)
    requires placed != []
    ensures r < |placed| && placed[r].offset + placed[r].size == ArenaBytes(placed)
  {
    var n := |placed| - 1;
    if n == 0 || ArenaBytes(placed[..n]) < placed[n].offset + placed[n].size {
      r := n;
      assert placed[..n] == [] || ArenaBytes(placed[..n]) < placed[n].offset + placed[n].size;
    } else {
      r := ArenaBytesAttained(placed[..n]);
    }
  }

  /** `bytes` is the largest end of a placed range, or 0. */
  predicate IsLargestEnd(placed: seq<Placed>, bytes: nat) {
    && (forall i :: 0 <= i < |placed| ==> placed[i].offset + placed[i].size <= bytes)
    && (if placed == [] then bytes == 0
        else exists i :: 0 <= i < |placed| && placed[i].offset + placed[i].size == bytes)
  }

  lemma LargestEndIs(placed: seq<Placed>)
    ensures IsLargestEnd(placed, ArenaBytes(placed))
  {
    if placed != [] {
      var i := ArenaBytesAttained(placed);
    }
  }

  /** Each request of the list, in its order, is at the least offset that fits beside those before it. */
  ghost predicate IsFirstFit(requests: seq<Request>, placed: seq<Placed>) {
    && |placed| == |requests|
    && forall i :: 0 <= i < |placed| ==>
         && placed[i] == Placed(requests[i].id, placed[i].offset, requests[i].size, requests[i].interval)
         && IsLeastFit(requests[i], placed[i].offset, placed[..i])
  }

  lemma FirstFitIs(requests: seq<Request>)
    ensures IsFirstFit(requests, FirstFit(requests))
  {
    var placed := FirstFit(requests);
    forall i | 0 <= i < |placed|
      ensures placed[i] == PlaceOne(requests[i], placed[..i])
    {
      FirstFitPrefix(requests, i);
      FirstFitPrefix(requests, i + 1);
      FirstFitExtends(requests, i);
      assert placed[i] == placed[..i + 1][i];
    }
  }

  /**
    A blocked offset is blocked by the same placement at every later offset up to that
    placement's end, so jumping there loses nothing.
   */
  lemma JumpSkipsOnlyBlocked(p: Placed, r: Request, candidate: nat, o: nat)
    requires Blocks(p, r, candidate) && candidate <= o < p.offset + p.size
    ensures Blocks(p, r, o)
  {
  }

  /** The inner `for` of the search: the end of the first placement that blocks the candidate. */
  method NextCandidate(r: Request, candidate: nat, placed: seq<Placed>) returns (next: Option<nat>)
    ensures next.None? <==> Fits(r, candidate, placed)
    ensures next.Some? ==> exists i :: 0 <= i < |placed| && Blocks(placed[i], r, candidate)
                                       && next.value == placed[i].offset + placed[i].size
  {
    for i := 0 to |placed|
      invariant forall j :: 0 <= j < i ==> !Blocks(placed[j], r, candidate)
    {
      if !IntervalsOverlap(r.interval, placed[i].interval) {
        continue;
      }
      if RangesOverlap(candidate, r.size, placed[i].offset, placed[i].size) {
        return Some(placed[i].offset + placed[i].size);
      }
    }
    next := None;
  }

  /** The `while True` search for one request. */
  method SearchFirstFit(r: Request, placed: seq<Placed>) returns (candidate: nat)
    ensures candidate == LeastFit(r, placed)
  {
    candidate := 0;
    while true
      invariant candidate <= ArenaBytes(placed)
      invariant forall o: nat :: o < candidate && o % ALIGNMENT == 0 ==> !Fits(r, o, placed)
      decreases ArenaBytes(placed) - candidate
    {
      ghost var unaligned := candidate;
      AlignUpIsLeast(candidate, ALIGNMENT);
      candidate := AlignUp(candidate, ALIGNMENT);
      var next := NextCandidate(r, candidate, placed);
      if next.None? {
        LeastFitIsUnique(r, placed, candidate);
        return;
      }
      ghost var i :| 0 <= i < |placed| && Blocks(placed[i], r, candidate)
                     && next.value == placed[i].offset + placed[i].size;
      forall o: nat | o < next.value && o % ALIGNMENT == 0
        ensures !Fits(r, o, placed)
      {
        if o >= unaligned {
          JumpSkipsOnlyBlocked(placed[i], r, candidate, o);
        }
      }
      candidate := next.value;
    }
  }

  lemma ArenaBytesOfAppend(placed: seq<Placed>, p: Placed)
    ensures ArenaBytes(placed + [p]) == Max(ArenaBytes(placed), p.offset + p.size)
  {
    assert (placed + [p])[..|placed|] == placed;
  }

  /** One more request packed. */
  lemma PackStep(allocations: seq<Request>, n: nat)
    requires n < |allocations|
    ensures
      var placed := FirstFit(allocations[..n]);
      var p := PlaceOne(allocations[n], placed);
      && FirstFit(allocations[..n + 1]) == placed + [p]
      && ArenaBytes(placed + [p]) == Max(ArenaBytes(placed), p.offset + p.size)
  {
    FirstFitExtends(allocations, n);
    ArenaBytesOfAppend(FirstFit(allocations[..n]), PlaceOne(allocations[n], FirstFit(allocations[..n])));
  }

  /** The search for one request, and the placement it yields. */
  method PlaceNext(r: Request, placed: seq<Placed>) returns (p: Placed)
    ensures p == PlaceOne(r, placed)
  {
    var candidate := SearchFirstFit(r, placed);
    p := Placed(r.id, candidate, r.size, r.interval);
  }

  /** `_pack_first_fit` */
  method PackFirstFit(allocations: seq<Request>) returns (arenaBytes: nat, placed: seq<Placed>)
    ensures placed == FirstFit(allocations)
    ensures arenaBytes == ArenaBytes(placed)
  {
    placed, arenaBytes := [], 0;
    for n := 0 to |allocations|
      invariant placed == FirstFit(allocations[..n])
      invariant arenaBytes == ArenaBytes(placed)
    {
      var p := PlaceNext(allocations[n], placed);
      PackStep(allocations, n);
      placed := placed + [p];
      arenaBytes := Max(arenaBytes, p.offset + p.size);
    }
    assert allocations[..|allocations|] == allocations;
  }

  /** The transients that some command uses, in allocation order; the others are not placed. */
  function Requests(allocations: seq<(string, nat)>, intervals: map<string, Interval>): (requests: seq<Request>) {
    if allocations == [] then []
    else
      var (id, size) := allocations[|allocations| - 1];
      var before := Requests(allocations[..|allocations| - 1], intervals);
      if id in intervals then before + [Request(id, size, intervals[id])] else before
  }

  /** Used transients keep their order. */
  lemma {:induction false} RequestAt(allocations: seq<(string, nat)>, intervals: map<string, Interval>, i: nat)
    requires i < |allocations| && allocations[i].0 in intervals
    ensures
      var k := |Requests(allocations[..i], intervals)|;
      && k < |Requests(allocations, intervals)|
      && Requests(allocations, intervals)[k]
         == Request(allocations[i].0, allocations[i].1, intervals[allocations[i].0])
      && Requests(allocations, intervals)[..k] == Requests(allocations[..i], intervals)
  {
    var n := |allocations| - 1;
    if i < n {
      RequestAt(allocations[..n], intervals, i);
      assert allocations[..n][..i] == allocations[..i];
    }
  }

  function MaxSize(allocations: seq<(string, nat)>): (size: nat)
    ensures forall i :: 0 <= i < |allocations| ==> allocations[i].1 <= size
  {
    if allocations == [] then 0
    else
      assert forall i :: 0 <= i < |allocations| - 1 ==> allocations[i] == allocations[..|allocations| - 1][i];
      Max(MaxSize(allocations[..|allocations| - 1]), allocations[|allocations| - 1].1)
  }

  /** Offsets by identifier: the first-fit offset of a used transient, 0 for an unused one. */
  ghost function OffsetById(allocations: seq<(string, nat)>, intervals: map<string, Interval>): map<string, nat> {
    if allocations == [] then map[]
    else
      var (id, size) := allocations[|allocations| - 1];
      var before := allocations[..|allocations| - 1];
      OffsetById(before, intervals)[id :=
        if id in intervals then LeastFit(Request(id, size, intervals[id]), FirstFit(Requests(before, intervals)))
        else 0]
  }

  /** One more used transient placed. */
  lemma {:induction false} PlaceStep(allocations: seq<(string, nat)>, intervals: map<string, Interval>, n: nat)
    requires n < |allocations| && allocations[n].0 in intervals
    ensures
      var (id, size) := allocations[n];
      var placed := FirstFit(Requests(allocations[..n], intervals));
      var p := PlaceOne(Request(id, size, intervals[id]), placed);
      && FirstFit(Requests(allocations[..n + 1], intervals)) == placed + [p]
      && ArenaBytes(placed + [p]) == Max(ArenaBytes(placed), p.offset + p.size)
      && OffsetById(allocations[..n + 1], intervals) == OffsetById(allocations[..n], intervals)[id := p.offset]
  {
    var (id, size) := allocations[n];
    var placed := FirstFit(Requests(allocations[..n], intervals));
    var p := PlaceOne(Request(id, size, intervals[id]), placed);
    assert allocations[..n + 1][..n] == allocations[..n];
    var requests := Requests(allocations[..n + 1], intervals);
    assert requests[..|requests| - 1] == Requests(allocations[..n], intervals);
    ArenaBytesOfAppend(placed, p);
  }

  /** `_place_transient_allocations` */
  method PlaceTransientAllocations(arenaAllocations: seq<(string, nat)>, intervals: map<string, Interval>)
    returns (offsetById: map<string, nat>, arenaBytes: nat, maxArenaAllocation: nat)
    ensures offsetById == OffsetById(arenaAllocations, intervals)
    ensures arenaBytes == ArenaBytes(FirstFit(Requests(arenaAllocations, intervals)))
    ensures maxArenaAllocation == MaxSize(arenaAllocations)
  {
    offsetById := map[];
    var placed: seq<Placed> := [];
    maxArenaAllocation, arenaBytes := 0, 0;
    for n := 0 to |arenaAllocations|
      invariant placed == FirstFit(Requests(arenaAllocations[..n], intervals))
      invariant offsetById == OffsetById(arenaAllocations[..n], intervals)
      invariant arenaBytes == ArenaBytes(placed)
      invariant maxArenaAllocation == MaxSize(arenaAllocations[..n])
    {
      var (id, size) := arenaAllocations[n];
      assert arenaAllocations[..n + 1][..n] == arenaAllocations[..n];
      maxArenaAllocation := Max(maxArenaAllocation, size);
      if id !in intervals {
        offsetById := offsetById[id := 0];
        continue;
      }
      var p := PlaceNext(Request(id, size, intervals[id]), placed);
      PlaceStep(arenaAllocations, intervals, n);
      offsetById := offsetById[id := p.offset];
      placed := placed + [p];
      arenaBytes := Max(arenaBytes, p.offset + p.size);
    }
    assert arenaAllocations[..|arenaAllocations|] == arenaAllocations;
  }
}
