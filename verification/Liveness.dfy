/**
  Liveness peaks (`_command_liveness_peak`, `_effective_arena_bytes` of
  prototype_patch_based_inference.py): the bytes live at one command are a lower bound for
  every conflict-free placement, so the effective arena is always the packed size.
 */
module Liveness {
  import opened Basics
  import opened Placement
  import opened Sorting
  import PlannerSweep

  predicate Live(interval: Interval, t: nat) {
    interval.start <= t < interval.end
  }

  /** Two intervals overlap exactly when some command is in both. */
  lemma OverlapIsSharedCommand(a: Interval, b: Interval)
    requires a.start < a.end && b.start < b.end
    ensures IntervalsOverlap(a, b) <==> exists t: nat :: Live(a, t) && Live(b, t)
  {
    if IntervalsOverlap(a, b) {
      assert Live(a, Max(a.start, b.start)) && Live(b, Max(a.start, b.start));
    }
  }

  function LiveSize(r: Request, t: nat): nat {
    if Live(r.interval, t) then r.size else 0
  }

  /** The sum of the sizes of the requests live at command `t`. */
  function LiveBytes(requests: seq<Request>, t: nat): nat {
    if requests == [] then 0 else LiveSize(requests[0], t) + LiveBytes(requests[1..], t)
  }

  // ---------- any conflict-free placement holds the live bytes ----------

  function Range(lo: nat, n: nat): (cells: set<nat>)
    ensures |cells| == n
    ensures forall x :: x in cells <==> lo <= x < lo + n
  {
    if n == 0 then {} else Range(lo, n - 1) + {lo + n - 1}
  }

  /** The arena cells of the placements live at `t`. */
  function LiveCells(placed: seq<Placed>, t: nat): set<nat> {
    if placed == [] then {}
    else (if Live(placed[0].interval, t) then Range(placed[0].offset, placed[0].size) else {})
         + LiveCells(placed[1..], t)
  }

  lemma {:induction false} LiveCellsAre(placed: seq<Placed>, t: nat, x: nat)
    requires x in LiveCells(placed, t)
    ensures exists i :: 0 <= i < |placed| && Live(placed[i].interval, t)
                        && placed[i].offset <= x < placed[i].offset + placed[i].size
  {
    if Live(placed[0].interval, t) && x in Range(placed[0].offset, placed[0].size) {
    } else {
      LiveCellsAre(placed[1..], t, x);
      var i :| 0 <= i < |placed| - 1 && Live(placed[1..][i].interval, t)
               && placed[1..][i].offset <= x < placed[1..][i].offset + placed[1..][i].size;
      assert placed[1..][i] == placed[i + 1];
    }
  }

  lemma {:induction false} LiveCellsCount(placed: seq<Placed>, requests: seq<Request>, t: nat)
    requires Serves(placed, requests) && ConflictFree(placed)
    ensures |LiveCells(placed, t)| == LiveBytes(requests, t)
  {
    if placed != [] {
      var first, rest := placed[0], placed[1..];
      assert forall i :: 0 <= i < |rest| ==> rest[i] == placed[i + 1] && requests[1..][i] == requests[i + 1];
      LiveCellsCount(rest, requests[1..], t);
      if Live(first.interval, t) {
        forall x | x in LiveCells(rest, t)
          ensures x !in Range(first.offset, first.size)
        {
          LiveCellsAre(rest, t, x);
          var i :| 0 <= i < |rest| && Live(rest[i].interval, t) && rest[i].offset <= x < rest[i].offset + rest[i].size;
          assert IntervalsOverlap(placed[0].interval, placed[i + 1].interval);
        }
        assert Range(first.offset, first.size) !! LiveCells(rest, t);
      }
    }
  }

  /** The lower bound: no conflict-free placement, by whatever planner, is smaller than the live bytes. */
  lemma {:induction false} LiveBytesFitInArena(placed: seq<Placed>, requests: seq<Request>, t: nat)
    requires Serves(placed, requests) && ConflictFree(placed)
    ensures LiveBytes(requests, t) <= ArenaBytes(placed)
  {
    LiveCellsCount(placed, requests, t);
    forall x | x in LiveCells(placed, t)
      ensures x in Range(0, ArenaBytes(placed))
    {
      LiveCellsAre(placed, t, x);
    }
    SubsetCardinality(LiveCells(placed, t), Range(0, ArenaBytes(placed)));
  }

  lemma SubsetCardinality(a: set<nat>, b: set<nat>)
    requires a <= b
    ensures |a| <= |b|
  {
    assert b == a + (b - a);
    assert |b| == |a| + |b - a|;
  }

  // ---------- the peak ----------

  method LiveBytesAt(allocations: seq<Request>, t: nat) returns (bytes: nat)
    ensures bytes == LiveBytes(allocations, t)
  {
    bytes := 0;
    for i := 0 to |allocations|
      invariant bytes + LiveBytes(allocations[i..], t) == LiveBytes(allocations, t)
    {
      assert allocations[i..][1..] == allocations[i + 1..];
      if Live(allocations[i].interval, t) {
        bytes := bytes + allocations[i].size;
      }
    }
  }

  lemma {:induction false} NothingLiveAfter(allocations: seq<Request>, t: nat)
    requires forall i :: 0 <= i < |allocations| ==> allocations[i].interval.end <= t
    ensures LiveBytes(allocations, t) == 0
  {
    if allocations != [] {
      NothingLiveAfter(allocations[1..], t);
    }
  }

  /** `_command_liveness_peak`: the maximum over all commands, attained unless it is 0. */
  method CommandLivenessPeak(allocations: seq<Request>) returns (peak: nat)
    ensures forall t: nat :: LiveBytes(allocations, t) <= peak
    ensures peak == 0 || exists t: nat :: LiveBytes(allocations, t) == peak
  {
    if allocations == [] {
      return 0;
    }
    var commandCount: nat := 0;
    for i := 0 to |allocations|
      invariant forall j :: 0 <= j < i ==> allocations[j].interval.end <= commandCount
    {
      commandCount := Max(commandCount, allocations[i].interval.end);
    }
    peak := 0;
    for t := 0 to commandCount
      invariant forall u: nat :: u < t ==> LiveBytes(allocations, u) <= peak
      invariant peak == 0 || exists u: nat :: LiveBytes(allocations, u) == peak
    {
      var bytes := LiveBytesAt(allocations, t);
      peak := Max(peak, bytes);
    }
    forall t: nat | commandCount <= t
      ensures LiveBytes(allocations, t) <= peak
    {
      NothingLiveAfter(allocations, t);
    }
  }

  // ---------- the effective arena ----------

  function SizeDescKey(a: Request): seq<int> {
    [0 - a.size as int, a.interval.start as int, a.interval.end as int]
  }

  /** Key `(-size, start, end, id)`. */
  predicate BySizeDescThenId(a: Request, b: Request) {
    TupleNameLess(SizeDescKey(a), a.id, SizeDescKey(b), b.id)
  }

  /** Larger sizes first, then earlier starts, then earlier ends, then the order of the names. */
  predicate InSizeOrder(a: Request, b: Request) {
    || a.size > b.size
    || (a.size == b.size && a.interval.start < b.interval.start)
    || (a.size == b.size && a.interval.start == b.interval.start && a.interval.end < b.interval.end)
    || (a.size == b.size && a.interval == b.interval && !StrLess(b.id, a.id))
  }

  /** The allocations rearranged: the larger, the earlier. */
  ghost predicate IsSizeOrdered(allocations: seq<Request>, list: seq<Request>) {
    multiset(list) == multiset(allocations)
    && forall i, j :: 0 <= i < j < |list| ==> InSizeOrder(list[i], list[j])
  }

  /** Packing the allocations in this order ends at `bytes`. */
  ghost predicate EndsInSizeOrder(allocations: seq<Request>, bytes: nat) {
    exists list :: IsSizeOrdered(allocations, list) && PlannerSweep.EndsFirstFit(list, bytes)
  }

  lemma NotBeforeIsInOrder(a: Request, b: Request)
    requires !BySizeDescThenId(b, a)
    ensures InSizeOrder(a, b)
  {
    PlannerSweep.FourCompare(SizeDescKey(b) + [0], SizeDescKey(a) + [0]);
    ThreeIsFour(SizeDescKey(b), SizeDescKey(a));
    if SizeDescKey(a) == SizeDescKey(b) {
      assert SizeDescKey(a)[0] == SizeDescKey(b)[0] && SizeDescKey(a)[1] == SizeDescKey(b)[1];
      assert SizeDescKey(a)[2] == SizeDescKey(b)[2];
    }
  }

  /** A common last number does not matter. */
  lemma {:induction false} ThreeIsFour(a: seq<int>, b: seq<int>)
    requires |a| == |b|
    ensures LexLess(a, b) <==> LexLess(a + [0], b + [0])
  {
    if a != [] {
      assert (a + [0])[1..] == a[1..] + [0] && (b + [0])[1..] == b[1..] + [0];
      ThreeIsFour(a[1..], b[1..]);
    } else {
      assert (a + [0])[1..] == [] && (b + [0])[1..] == [];
    }
  }

  lemma SortEndsInSizeOrder(allocations: seq<Request>)
    requires IsSorted(BySizeDescThenId, SortBy(BySizeDescThenId, allocations))
    ensures EndsInSizeOrder(allocations, ArenaBytes(FirstFit(SortBy(BySizeDescThenId, allocations))))
  {
    var list := SortBy(BySizeDescThenId, allocations);
    forall i, j | 0 <= i < j < |list|
      ensures InSizeOrder(list[i], list[j])
    {
      NotBeforeIsInOrder(list[i], list[j]);
    }
    PlannerSweep.FirstFitEnds(list);
  }

  lemma SizeOrderIsKeyOrder()
    ensures IsKeyOrder(BySizeDescThenId)
  {
    forall a, b, c
      ensures BySizeDescThenId(a, b) ==> !BySizeDescThenId(b, a)
      ensures !BySizeDescThenId(a, b) && !BySizeDescThenId(b, c) ==> !BySizeDescThenId(a, c)
    {
      TupleThenName(SizeDescKey(a), a.id, SizeDescKey(b), b.id, SizeDescKey(c), c.id);
    }
  }

  lemma {:induction false} LiveBytesOfInsert(lt: (Request, Request) -> bool, x: Request, ys: seq<Request>, t: nat)
    ensures LiveBytes(Insert(lt, x, ys), t) == LiveSize(x, t) + LiveBytes(ys, t)
  {
    if ys == [] || !lt(ys[0], x) {
      assert ([x] + ys)[1..] == ys;
    } else {
      LiveBytesOfInsert(lt, x, ys[1..], t);
      var rest := Insert(lt, x, ys[1..]);
      assert ([ys[0]] + rest)[1..] == rest;
    }
  }

  lemma {:induction false} LiveBytesOfSort(lt: (Request, Request) -> bool, xs: seq<Request>, t: nat)
    ensures LiveBytes(SortBy(lt, xs), t) == LiveBytes(xs, t)
  {
    if xs != [] {
      LiveBytesOfSort(lt, xs[1..], t);
      LiveBytesOfInsert(lt, xs[0], SortBy(lt, xs[1..]), t);
    }
  }

  /** `_pack_best_size_desc`: the list handed to best fit is in the order of the key `(-size, start, end, id)`. */
  method PackBestSizeDesc(allocations: seq<Request>) returns (packed: nat)
    ensures packed == ArenaBytes(FirstFit(SortBy(BySizeDescThenId, allocations)))
    ensures EndsInSizeOrder(allocations, packed)
  {
    SizeOrderIsKeyOrder();
    if allocations != [] {
      SortByIsStableSort(BySizeDescThenId, allocations, allocations[0]);
    }
    SortEndsInSizeOrder(allocations);
    var best := PlannerSweep.PackBestFit(SortBy(BySizeDescThenId, allocations));
    packed := best.value.0;
  }

  /** The packed arena holds everything live at any command, and any single allocation. */
  lemma {:induction false} PackedHolds(allocations: seq<Request>)
    ensures forall t: nat :: LiveBytes(allocations, t) <= ArenaBytes(FirstFit(SortBy(BySizeDescThenId, allocations)))
    ensures forall i :: 0 <= i < |allocations| ==>
              allocations[i].size <= ArenaBytes(FirstFit(SortBy(BySizeDescThenId, allocations)))
  {
    var ordered := SortBy(BySizeDescThenId, allocations);
    var placed := FirstFit(ordered);
    FirstFitIsConflictFree(ordered);
    forall t: nat
      ensures LiveBytes(allocations, t) <= ArenaBytes(placed)
    {
      LiveBytesFitInArena(placed, ordered, t);
      LiveBytesOfSort(BySizeDescThenId, allocations, t);
    }
    forall i | 0 <= i < |allocations|
      ensures allocations[i].size <= ArenaBytes(placed)
    {
      assert allocations[i] in multiset(allocations);
      var j :| 0 <= j < |ordered| && ordered[j] == allocations[i];
      assert placed[j].size == ordered[j].size;
    }
  }

  /** `_effective_arena_bytes`: the peak and the largest allocation never exceed the packed size. */
  method EffectiveArenaBytes(allocations: seq<Request>) returns (bytes: nat)
    ensures bytes == ArenaBytes(FirstFit(SortBy(BySizeDescThenId, allocations)))
    ensures EndsInSizeOrder(allocations, bytes)
    ensures forall t: nat :: LiveBytes(allocations, t) <= bytes
  {
    if allocations == [] {
      SortEndsInSizeOrder(allocations);
      assert forall t: nat :: LiveBytes(allocations, t) == 0;
      return 0;
    }
    var packed := PackBestSizeDesc(allocations);
    var peak := CommandLivenessPeak(allocations);
    PackedHolds(allocations);
    var maxSingle := 0;
    for i := 0 to |allocations|
      invariant maxSingle <= packed
    {
      maxSingle := Max(maxSingle, allocations[i].size);
    }
    bytes := Max(packed, Max(peak, maxSingle));
  }
}
