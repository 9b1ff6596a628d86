/**
  The three packers of sweep_static_direct_arena_planners.py and the choice of a winner.
  `_pack_first_fit` is `Placement.PackFirstFit`; best fit turns out to be the same planner.
 */
module PlannerSweep {
  import opened Basics
  import opened Placement
  import opened Sorting

  // ---------- best fit ----------

  /** The candidate list of best fit: the start of the arena and the end of each conflicting placement. */
  ghost predicate IsCandidate(r: Request, placed: seq<Placed>, c: nat) {
    || c == 0
    || exists i :: 0 <= i < |placed| && IntervalsOverlap(r.interval, placed[i].interval)
                   && c == placed[i].offset + placed[i].size
  }

  /** The least fitting offset is 0 or the aligned end of a conflicting placement. */
  lemma LeastFitIsAlignedCandidate(r: Request, placed: seq<Placed>) returns (c: nat)
    ensures IsCandidate(r, placed, c)
    ensures AlignUp(c, ALIGNMENT) == LeastFit(r, placed)
  {
    var o := LeastFit(r, placed);
    if o == 0 {
      c := 0;
      AlignUpIsLeast(0, ALIGNMENT);
    } else {
      var below: nat := o - ALIGNMENT;
      assert !Fits(r, below, placed);
      var i :| 0 <= i < |placed| && Blocks(placed[i], r, below);
      assert !Blocks(placed[i], r, o);
      c := placed[i].offset + placed[i].size;
      assert below < c <= o;
      AlignUpIsLeast(c, ALIGNMENT);
    }
  }

  function InsertAscending(x: nat, ys: seq<nat>): (zs: seq<nat>)
    ensures forall y :: y in zs <==> y == x || y in ys
  {
    if ys == [] || x <= ys[0] then
      [x] + ys
    else
      assert forall y :: y in ys <==> y == ys[0] || y in ys[1..];
      [ys[0]] + InsertAscending(x, ys[1..])
  }

  /** `sorted(_align_up(candidate) for candidate in candidates)` */
  method SortedAligned(candidates: set<nat>) returns (offsets: seq<nat>)
    ensures forall c :: c in candidates ==> AlignUp(c, ALIGNMENT) in offsets
    ensures forall o :: o in offsets ==> o % ALIGNMENT == 0
  {
    offsets := [];
    var rest := candidates;
    while rest != {}
      invariant rest <= candidates
      invariant forall c :: c in candidates - rest ==> AlignUp(c, ALIGNMENT) in offsets
      invariant forall o :: o in offsets ==> o % ALIGNMENT == 0
    {
      var c :| c in rest;
      AlignUpIsLeast(c, ALIGNMENT);
      offsets := InsertAscending(AlignUp(c, ALIGNMENT), offsets);
      rest := rest - {c};
    }
  }

  /** `min(valid_offsets, key=lambda value: (max(arena_bytes, value + size), value))` */
  method CheapestOffset(offsets: seq<nat>, arenaBytes: nat, size: nat) returns (best: nat)
    requires offsets != []
    ensures best in offsets
    ensures forall o :: o in offsets ==> best <= o
  {
    best := offsets[0];
    for i := 1 to |offsets|
      invariant best in offsets
      invariant forall j :: 0 <= j < i ==> best <= offsets[j]
    {
      var costOld, costNew := Max(arenaBytes, best + size), Max(arenaBytes, offsets[i] + size);
      if costNew < costOld || (costNew == costOld && offsets[i] < best) {
        best := offsets[i];
      }
    }
  }

  /** The candidate set of one allocation: 0 and the end of each conflicting placement. */
  method Candidates(r: Request, placed: seq<Placed>) returns (candidates: set<nat>)
    ensures forall c :: IsCandidate(r, placed, c) ==> c in candidates
  {
    candidates := {0};
    for i := 0 to |placed|
      invariant 0 in candidates
      invariant forall j :: 0 <= j < i ==>
                  IntervalsOverlap(r.interval, placed[j].interval) ==>
                  placed[j].offset + placed[j].size in candidates
    {
      if IntervalsOverlap(r.interval, placed[i].interval) {
        candidates := candidates + {placed[i].offset + placed[i].size};
      }
    }
  }

  /** One step of best fit; `None` is the source's "no valid arena placement", which cannot happen. */
  method BestFitOffset(r: Request, placed: seq<Placed>, arenaBytes: nat) returns (offset: Option<nat>)
    ensures offset == Some(LeastFit(r, placed))
  {
    var candidates := Candidates(r, placed);
    var offsets := SortedAligned(candidates);
    var validOffsets: seq<nat> := [];
    for k := 0 to |offsets|
      invariant forall o :: o in validOffsets ==> o % ALIGNMENT == 0 && Fits(r, o, placed)
      invariant forall j :: 0 <= j < k && Fits(r, offsets[j], placed) ==> offsets[j] in validOffsets
    {
      if Fits(r, offsets[k], placed) {
        assert offsets[k] in offsets;
        validOffsets := validOffsets + [offsets[k]];
      }
    }
    ghost var c := LeastFitIsAlignedCandidate(r, placed);
    assert LeastFit(r, placed) in validOffsets;
    if validOffsets == [] {
      return None;
    }
    var best := CheapestOffset(validOffsets, arenaBytes, r.size);
    LeastFitIsUnique(r, placed, best);
    offset := Some(best);
  }

  /** `_pack_best_fit`: never fails, and returns exactly the first-fit placement. */
  method PackBestFit(allocations: seq<Request>) returns (r: Result<(nat, seq<Placed>), string>)
    ensures r == Ok((ArenaBytes(FirstFit(allocations)), FirstFit(allocations)))
  {
    var placed: seq<Placed>, arenaBytes: nat := [], 0;
    for n := 0 to |allocations|
      invariant placed == FirstFit(allocations[..n])
      invariant arenaBytes == ArenaBytes(placed)
    {
      var allocation := allocations[n];
      var offset := BestFitOffset(allocation, placed, arenaBytes);
      if offset.None? {
        return Err(allocation.id);
      }
      var p := Placed(allocation.id, offset.value, allocation.size, allocation.interval);
      PackStep(allocations, n);
      placed := placed + [p];
      arenaBytes := Max(arenaBytes, p.offset + p.size);
    }
    assert allocations[..|allocations|] == allocations;
    r := Ok((arenaBytes, placed));
  }

  // ---------- linear, without reuse ----------

  function LinearEnd(allocations: seq<Request>): nat {
    if allocations == [] then 0
    else AlignUp(LinearEnd(allocations[..|allocations| - 1]), ALIGNMENT) + allocations[|allocations| - 1].size
  }

  /** `offset` is the first multiple of 64 at or behind `end`. */
  predicate IsNextAligned(offset: nat, end: nat) {
    offset % 64 == 0 && end <= offset < end + 64
  }

  /** One range behind the other from 0 on, each at the next aligned offset; `end` is where the last one ends. */
  ghost predicate IsLinear(allocations: seq<Request>, placed: seq<Placed>, end: nat) {
    && Serves(placed, allocations)
    && (if placed == [] then end == 0
        else placed[0].offset == 0 && end == placed[|placed| - 1].offset + placed[|placed| - 1].size)
    && forall i {:trigger placed[i + 1]} :: 0 <= i < |placed| - 1 ==>
         IsNextAligned(placed[i + 1].offset, placed[i].offset + placed[i].size)
  }

  lemma LinearStep(allocations: seq<Request>, n: nat, placed: seq<Placed>, cursor: nat, next: Placed)
    requires n < |allocations| && IsLinear(allocations[..n], placed, cursor)
    requires next == Placed(allocations[n].id, AlignUp(cursor, ALIGNMENT), allocations[n].size, allocations[n].interval)
    ensures IsLinear(allocations[..n + 1], placed + [next], next.offset + next.size)
  {
    AlignUpIsLeast(cursor, ALIGNMENT);
    assert allocations[..n + 1][..n] == allocations[..n];
    var longer := placed + [next];
    forall i | 0 <= i < n
      ensures IsNextAligned(longer[i + 1].offset, longer[i].offset + longer[i].size)
    {
      assert i < n - 1 ==> longer[i + 1] == placed[i + 1];
    }
  }

  /** `_pack_linear_no_reuse`: every range ends before the next begins, whatever the intervals. */
  method PackLinearNoReuse(allocations: seq<Request>) returns (cursor: nat, placed: seq<Placed>)
    ensures cursor == LinearEnd(allocations) && IsLinear(allocations, placed, cursor)
    ensures forall i, j :: 0 <= i < j < |placed| ==> placed[i].offset + placed[i].size <= placed[j].offset
    ensures forall i :: 0 <= i < |placed| ==> placed[i].offset + placed[i].size <= cursor
  {
    placed, cursor := [], 0;
    for n := 0 to |allocations|
      invariant cursor == LinearEnd(allocations[..n]) && IsLinear(allocations[..n], placed, cursor)
      invariant forall i, j :: 0 <= i < j < |placed| ==> placed[i].offset + placed[i].size <= placed[j].offset
      invariant forall i :: 0 <= i < |placed| ==> placed[i].offset + placed[i].size <= cursor
    {
      assert allocations[..n + 1][..n] == allocations[..n];
      AlignUpIsLeast(cursor, ALIGNMENT);
      ghost var end, before := cursor, placed;
      cursor := AlignUp(cursor, ALIGNMENT);
      var p := Placed(allocations[n].id, cursor, allocations[n].size, allocations[n].interval);
      LinearStep(allocations, n, before, end, p);
      placed := placed + [p];
      cursor := cursor + allocations[n].size;
    }
    assert allocations[..|allocations|] == allocations;
  }

  /** In the same order, first fit never needs more than linear placement. */
  lemma {:induction false} FirstFitAtMostLinear(allocations: seq<Request>)
    ensures ArenaBytes(FirstFit(allocations)) <= LinearEnd(allocations)
  {
    if allocations != [] {
      var n := |allocations| - 1;
      FirstFitAtMostLinear(allocations[..n]);
      var before := FirstFit(allocations[..n]);
      var last := PlaceOne(allocations[n], before);
      ArenaBytesOfAppend(before, last);
      AlignUpMonotone(ArenaBytes(before), LinearEnd(allocations[..n]));
      AlignUpIsLeast(LinearEnd(allocations[..n]), ALIGNMENT);
    }
  }

  lemma AlignUpMonotone(a: nat, b: nat)
    requires a <= b
    ensures AlignUp(a, ALIGNMENT) <= AlignUp(b, ALIGNMENT)
  {
    AlignUpIsLeast(a, ALIGNMENT);
    AlignUpIsLeast(b, ALIGNMENT);
  }

  // ---------- the winner ----------

  datatype Figures = Figures(packedBytes: nat, effectiveBytes: nat)

  type Keyed = (Request, nat)

  /** Key `(-size, start, end, input order)`. */
  function SizeDescKey(a: Keyed): seq<int> {
    [0 - a.0.size as int, a.0.interval.start as int, a.0.interval.end as int, a.1 as int]
  }

  /** Key `(start, -size, end, input order)`. */
  function StartKey(a: Keyed): seq<int> {
    [a.0.interval.start as int, 0 - a.0.size as int, a.0.interval.end as int, a.1 as int]
  }

  function Numbered(allocations: seq<Request>): seq<Keyed> {
    seq(|allocations|, (i: nat) requires i < |allocations| => (allocations[i], i))
  }

  function ByKey(key: Keyed -> seq<int>): (Keyed, Keyed) -> bool {
    (a, b) => LexLess(key(a), key(b))
  }

  function SortedByKey(allocations: seq<Request>, key: Keyed -> seq<int>): (sorted: seq<Keyed>)
    ensures |sorted| == |allocations|
  {
    var sorted := SortBy(ByKey(key), Numbered(allocations));
    assert |sorted| == |multiset(sorted)| == |Numbered(allocations)|;
    sorted
  }

  function Ordered(allocations: seq<Request>, key: Keyed -> seq<int>): (list: seq<Request>)
    ensures |list| == |allocations|
  {
    var sorted := SortedByKey(allocations, key);
    seq(|sorted|, i requires 0 <= i < |sorted| => sorted[i].0)
  }

  /** The list handed to a packer is in the order of its key. */
  lemma OrderedByKey(allocations: seq<Request>, key: Keyed -> seq<int>, i: nat, j: nat)
    requires i < j < |allocations|
    ensures
      var sorted := SortedByKey(allocations, key);
      && Ordered(allocations, key)[i] == sorted[i].0 && Ordered(allocations, key)[j] == sorted[j].0
      && !LexLess(key(sorted[j]), key(sorted[i]))
  {
    var lt := ByKey(key);
    forall a, b, c
      ensures lt(a, b) ==> !lt(b, a)
      ensures !lt(a, b) && !lt(b, c) ==> !lt(a, c)
    {
      TupleThenName(key(a), "", key(b), "", key(c), "");
    }
    SortByIsStableSort(lt, Numbered(allocations), Numbered(allocations)[0]);
    var sorted := SortedByKey(allocations, key);
    assert !lt(sorted[j], sorted[i]);
  }

  // ---------- the orders of the lists ----------

  /** Larger sizes first, then earlier starts, then earlier ends, then the order of the input. */
  predicate LargerFirst(a: Request, i: nat, b: Request, j: nat) {
    || a.size > b.size
    || (a.size == b.size && a.interval.start < b.interval.start)
    || (a.size == b.size && a.interval.start == b.interval.start && a.interval.end < b.interval.end)
    || (a.size == b.size && a.interval == b.interval && i < j)
  }

  /** Earlier starts first, then larger sizes, then earlier ends, then the order of the input. */
  predicate EarlierFirst(a: Request, i: nat, b: Request, j: nat) {
    || a.interval.start < b.interval.start
    || (a.interval.start == b.interval.start && a.size > b.size)
    || (a.interval.start == b.interval.start && a.size == b.size && a.interval.end < b.interval.end)
    || (a.interval == b.interval && a.size == b.size && i < j)
  }

  /** Entry `k` of the list is number `from[k]` of the input, and each number comes once. */
  predicate IsShuffle(allocations: seq<Request>, list: seq<Request>, from: seq<nat>) {
    && |list| == |from| == |allocations|
    && (forall k :: 0 <= k < |from| ==> from[k] < |allocations| && list[k] == allocations[from[k]])
    && forall k, l :: 0 <= k < l < |from| ==> from[k] != from[l]
  }

  ghost predicate IsBySize(allocations: seq<Request>, list: seq<Request>) {
    exists from: seq<nat> ::
      && IsShuffle(allocations, list, from)
      && forall k, l :: 0 <= k < l < |list| ==> LargerFirst(list[k], from[k], list[l], from[l])
  }

  ghost predicate IsByStart(allocations: seq<Request>, list: seq<Request>) {
    exists from: seq<nat> ::
      && IsShuffle(allocations, list, from)
      && forall k, l :: 0 <= k < l < |list| ==> EarlierFirst(list[k], from[k], list[l], from[l])
  }

  lemma SizeKeysCompare(a: Keyed, b: Keyed)
    requires !LexLess(SizeDescKey(b), SizeDescKey(a)) && a.1 != b.1
    ensures LargerFirst(a.0, a.1, b.0, b.1)
  {
    FourCompare(SizeDescKey(b), SizeDescKey(a));
  }

  lemma StartKeysCompare(a: Keyed, b: Keyed)
    requires !LexLess(StartKey(b), StartKey(a)) && a.1 != b.1
    ensures EarlierFirst(a.0, a.1, b.0, b.1)
  {
    FourCompare(StartKey(b), StartKey(a));
  }

  lemma FourCompare(a: seq<int>, b: seq<int>)
    requires |a| == |b| == 4
    ensures LexLess(a, b) <==>
            || a[0] < b[0] || (a[0] == b[0] && a[1] < b[1])
            || (a[0] == b[0] && a[1] == b[1] && a[2] < b[2])
            || (a[0] == b[0] && a[1] == b[1] && a[2] == b[2] && a[3] < b[3])
  {
    var a1, b1 := a[1..], b[1..];
    var a2, b2 := a1[1..], b1[1..];
    var a3, b3 := a2[1..], b2[1..];
    assert LexLess(a3, b3) <==> a[3] < b[3] by {
      assert a3[1..] == [] && b3[1..] == [];
    }
    assert LexLess(a2, b2) <==> a[2] < b[2] || (a[2] == b[2] && LexLess(a3, b3));
    assert LexLess(a1, b1) <==> a[1] < b[1] || (a[1] == b[1] && LexLess(a2, b2));
  }

  /** Entry `k` of the sorted list is an entry of the input with its number. */
  lemma SortedIsNumbered(allocations: seq<Request>, key: Keyed -> seq<int>, k: nat)
    requires k < |allocations|
    ensures
      var entry := SortedByKey(allocations, key)[k];
      entry.1 < |allocations| && entry.0 == allocations[entry.1]
  {
    var sorted, numbered := SortedByKey(allocations, key), Numbered(allocations);
    assert sorted[k] in multiset(sorted);
    assert sorted[k] in multiset(numbered);
    var i :| 0 <= i < |numbered| && numbered[i] == sorted[k];
  }

  lemma SortedIsDistinct(allocations: seq<Request>, key: Keyed -> seq<int>, k: nat, l: nat)
    requires k < l < |allocations|
    ensures SortedByKey(allocations, key)[k].1 != SortedByKey(allocations, key)[l].1
  {
    StaysDistinct(Numbered(allocations), SortedByKey(allocations, key), k, l);
    SortedIsNumbered(allocations, key, k);
    SortedIsNumbered(allocations, key, l);
  }

  function Numbers(entries: seq<Keyed>): (from: seq<nat>)
    ensures |from| == |entries|
  {
    seq(|entries|, k requires 0 <= k < |entries| => entries[k].1)
  }

  /** The sorted list is a shuffle of the input. */
  lemma OrderedIsShuffle(allocations: seq<Request>, key: Keyed -> seq<int>)
    ensures IsShuffle(allocations, Ordered(allocations, key), Numbers(SortedByKey(allocations, key)))
  {
    var from := Numbers(SortedByKey(allocations, key));
    forall k | 0 <= k < |from|
      ensures from[k] < |allocations| && Ordered(allocations, key)[k] == allocations[from[k]]
    {
      SortedIsNumbered(allocations, key, k);
    }
    forall k, l | 0 <= k < l < |from|
      ensures from[k] != from[l]
    {
      SortedIsDistinct(allocations, key, k, l);
    }
  }

  lemma {:induction false} AtMostOnce<T>(xs: seq<T>, x: T)
    requires forall i, j :: 0 <= i < j < |xs| ==> xs[i] != xs[j]
    ensures multiset(xs)[x] <= 1
  {
    if xs != [] {
      var n := |xs| - 1;
      AtMostOnce(xs[..n], x);
      assert xs == xs[..n] + [xs[n]];
      if xs[n] == x {
        assert x !in xs[..n];
      }
    }
  }

  lemma StaysDistinct<T>(xs: seq<T>, ys: seq<T>, k: nat, l: nat)
    requires forall i, j :: 0 <= i < j < |xs| ==> xs[i] != xs[j]
    requires multiset(ys) == multiset(xs) && k < l < |ys|
    ensures ys[k] != ys[l]
  {
    AtMostOnce(xs, ys[k]);
    assert ys == ys[..l] + [ys[l]] + ys[l + 1..];
    assert ys[k] in ys[..l];
    assert ys[k] in multiset(ys[..l]);
  }

  lemma BySizeIs(allocations: seq<Request>)
    ensures IsBySize(allocations, Ordered(allocations, SizeDescKey))
  {
    var list, sorted := Ordered(allocations, SizeDescKey), SortedByKey(allocations, SizeDescKey);
    var from := Numbers(sorted);
    OrderedIsShuffle(allocations, SizeDescKey);
    forall k, l | 0 <= k < l < |list|
      ensures LargerFirst(list[k], from[k], list[l], from[l])
    {
      OrderedByKey(allocations, SizeDescKey, k, l);
      SizeKeysCompare(sorted[k], sorted[l]);
    }
  }

  lemma ByStartIs(allocations: seq<Request>)
    ensures IsByStart(allocations, Ordered(allocations, StartKey))
  {
    var list, sorted := Ordered(allocations, StartKey), SortedByKey(allocations, StartKey);
    var from := Numbers(sorted);
    OrderedIsShuffle(allocations, StartKey);
    forall k, l | 0 <= k < l < |list|
      ensures EarlierFirst(list[k], from[k], list[l], from[l])
    {
      OrderedByKey(allocations, StartKey, k, l);
      StartKeysCompare(sorted[k], sorted[l]);
    }
  }

  function TotalSize(allocations: seq<Request>): nat {
    if allocations == [] then 0 else TotalSize(allocations[..|allocations| - 1]) + allocations[|allocations| - 1].size
  }

  datatype Planner = Linear | Current | SizeFirst | StartFirst | SizeBest

  function Name(p: Planner): string {
    match p
    case Linear => "linear_no_reuse"
    case Current => "input_order_first_fit"
    case SizeFirst => "size_desc_first_fit"
    case StartFirst => "start_size_first_fit"
    case SizeBest => "size_desc_best_fit"
  }

  /** All five planners, in the order the source lists them. */
  function Planners(): (names: seq<Planner>)
    ensures |names| == 5
    ensures names[0] == Linear && names[1] == Current && names[2] == SizeFirst
    ensures names[3] == StartFirst && names[4] == SizeBest
  {
    [Linear, Current, SizeFirst, StartFirst, SizeBest]
  }

  /** The `planners` dictionary: the figures of each planner. */
  datatype Table = Table(
    linear: Figures, current: Figures, sizeFirst: Figures, startFirst: Figures, sizeBest: Figures)
  {
    function Get(p: Planner): Figures {
      match p
      case Linear => linear
      case Current => current
      case SizeFirst => sizeFirst
      case StartFirst => startFirst
      case SizeBest => sizeBest
    }
  }

  /** The alphabetical position of a planner's name. */
  function Rank(p: Planner): nat {
    match p
    case Current => 0
    case Linear => 1
    case SizeBest => 2
    case SizeFirst => 3
    case StartFirst => 4
  }

  /** The position at which the names of two planners first differ. */
  function FirstDifference(a: Planner, b: Planner): nat {
    if {a, b} == {SizeBest, SizeFirst} then 10
    else if {a, b} == {SizeBest, StartFirst} || {a, b} == {SizeFirst, StartFirst} then 1
    else 0
  }

  lemma NamesDiffer(a: Planner, b: Planner)
    requires Rank(a) < Rank(b)
    ensures
      var k := FirstDifference(a, b);
      k < |Name(a)| && k < |Name(b)| && Name(a)[..k] == Name(b)[..k] && Name(a)[k] < Name(b)[k]
  {
  }

  lemma RankIsAlphabetical(a: Planner, b: Planner)
    ensures Rank(a) < Rank(b) <==> StrLess(Name(a), Name(b))
  {
    var na, nb := Name(a), Name(b);
    StrLessIrreflexive(na);
    if Rank(a) < Rank(b) {
      NamesDiffer(a, b);
      StrLessAt(na, nb, FirstDifference(a, b));
    } else if Rank(b) < Rank(a) {
      NamesDiffer(b, a);
      StrLessAt(nb, na, FirstDifference(b, a));
      if StrLess(na, nb) {
        StrLessTransitive(na, nb, na);
      }
    }
  }

  /** The winner's sort key: effective bytes, then packed bytes, then name. */
  predicate Beats(planners: Table, a: Planner, b: Planner) {
    var fa, fb := planners.Get(a), planners.Get(b);
    || fa.effectiveBytes < fb.effectiveBytes
    || (fa.effectiveBytes == fb.effectiveBytes && fa.packedBytes < fb.packedBytes)
    || (fa.effectiveBytes == fb.effectiveBytes && fa.packedBytes == fb.packedBytes && Rank(a) < Rank(b))
  }

  /** `min(planners, key=...)` */
  method ChooseWinner(planners: Table, names: seq<Planner>) returns (winner: Planner)
    requires names != []
    ensures winner in names
    ensures forall i :: 0 <= i < |names| ==> !Beats(planners, names[i], winner)
  {
    winner := names[0];
    for i := 1 to |names|
      invariant winner in names
      invariant forall j :: 0 <= j < i ==> !Beats(planners, names[j], winner)
    {
      if Beats(planners, names[i], winner) {
        winner := names[i];
      }
    }
  }

  ghost function FirstFitFigures(allocations: seq<Request>, floor: nat): Figures {
    var packed := ArenaBytes(FirstFit(allocations));
    Figures(packed, Max(packed, floor))
  }

  /** The byte floor below which no effective size is reported. */
  function Floor(allocations: seq<Request>, maxSingle: nat, scheduledPeak: nat): nat {
    Max(if scheduledPeak == 0 then TotalSize(allocations) else scheduledPeak, maxSingle)
  }

  ghost function ExpectedFigures(allocations: seq<Request>, floor: nat): Table {
    Table(
      Figures(LinearEnd(allocations), Max(LinearEnd(allocations), floor)),
      FirstFitFigures(allocations, floor),
      FirstFitFigures(Ordered(allocations, SizeDescKey), floor),
      FirstFitFigures(Ordered(allocations, StartKey), floor),
      FirstFitFigures(Ordered(allocations, SizeDescKey), floor))
  }

  method MeasureFirstFit(allocations: seq<Request>, floor: nat) returns (figures: Figures)
    ensures figures == FirstFitFigures(allocations, floor)
  {
    var packed, placed := PackFirstFit(allocations);
    figures := Figures(packed, Max(packed, floor));
  }

  method MeasureBestFit(allocations: seq<Request>, floor: nat) returns (figures: Figures)
    ensures figures == FirstFitFigures(allocations, floor)
  {
    var packed := PackBestFit(allocations);
    figures := Figures(packed.value.0, Max(packed.value.0, floor));
  }

  method MeasureLinear(allocations: seq<Request>, floor: nat) returns (figures: Figures)
    ensures figures == Figures(LinearEnd(allocations), Max(LinearEnd(allocations), floor))
  {
    var packed, placed := PackLinearNoReuse(allocations);
    figures := Figures(packed, Max(packed, floor));
  }

  method RunPlanners(allocations: seq<Request>, floor: nat) returns (planners: Table)
    ensures planners == ExpectedFigures(allocations, floor)
  {
    var linear := MeasureLinear(allocations, floor);
    var current := MeasureFirstFit(allocations, floor);
    var sizeFirst := MeasureFirstFit(Ordered(allocations, SizeDescKey), floor);
    var startFirst := MeasureFirstFit(Ordered(allocations, StartKey), floor);
    var sizeBest := MeasureBestFit(Ordered(allocations, SizeDescKey), floor);
    planners := Table(linear, current, sizeFirst, startFirst, sizeBest);
  }

  /** What no schedule can avoid: ties on bytes between the planners that lose on name. */
  ghost predicate Dominated(planners: Table) {
    && planners.sizeFirst == planners.sizeBest
    && planners.current.packedBytes <= planners.linear.packedBytes
    && planners.current.effectiveBytes <= planners.linear.effectiveBytes
  }

  lemma ExpectedFiguresAreDominated(allocations: seq<Request>, floor: nat)
    ensures Dominated(ExpectedFigures(allocations, floor))
  {
    FirstFitAtMostLinear(allocations);
  }

  ghost predicate Unbeaten(planners: Table, winner: Planner) {
    && !Beats(planners, Linear, winner)
    && !Beats(planners, Current, winner)
    && !Beats(planners, SizeFirst, winner)
    && !Beats(planners, StartFirst, winner)
    && !Beats(planners, SizeBest, winner)
  }

  lemma DominatedNeverWin(planners: Table, winner: Planner)
    requires Dominated(planners) && Unbeaten(planners, winner)
    ensures winner != SizeFirst && winner != Linear
    ensures planners.Get(winner).effectiveBytes <= planners.current.effectiveBytes <= planners.linear.effectiveBytes
  {
  }

  // ---------- what the figures say ----------

  /** The least-fit placement of the list, in its order, ends at `bytes`. */
  ghost predicate EndsFirstFit(list: seq<Request>, bytes: nat) {
    exists placed :: IsFirstFit(list, placed) && IsLargestEnd(placed, bytes)
  }

  ghost predicate EndsLinear(list: seq<Request>, bytes: nat) {
    exists placed :: IsLinear(list, placed, bytes)
  }

  /** `bytes` is the scheduled peak, or the sum of all sizes where there is none. */
  ghost predicate IsPeak(list: seq<Request>, scheduledPeak: nat, bytes: nat) {
    if scheduledPeak > 0 then bytes == scheduledPeak else exists totals :: AddsUp(list, totals, bytes)
  }

  predicate AddsUp(list: seq<Request>, totals: seq<nat>, bytes: nat) {
    && |totals| == |list| + 1 && totals[0] == 0 && totals[|list|] == bytes
    && forall i {:trigger totals[i + 1]} :: 0 <= i < |list| ==> totals[i + 1] == totals[i] + list[i].size
  }

  /** The effective size is the largest of the packed size, the largest single size and the peak. */
  predicate IsEffective(figures: Figures, maxSingle: nat, peak: nat) {
    && figures.packedBytes <= figures.effectiveBytes
    && maxSingle <= figures.effectiveBytes && peak <= figures.effectiveBytes
    && (|| figures.effectiveBytes == figures.packedBytes
        || figures.effectiveBytes == maxSingle || figures.effectiveBytes == peak)
  }

  /** Each planner is measured on its own list with its own packer. */
  ghost predicate IsTable(allocations: seq<Request>, maxSingle: nat, scheduledPeak: nat, planners: Table) {
    && (exists peak :: IsPeak(allocations, scheduledPeak, peak)
                       && forall p: Planner {:trigger planners.Get(p)} :: IsEffective(planners.Get(p), maxSingle, peak))
    && EndsLinear(allocations, planners.linear.packedBytes)
    && EndsFirstFit(allocations, planners.current.packedBytes)
    && (exists list :: IsBySize(allocations, list) && EndsFirstFit(list, planners.sizeFirst.packedBytes))
    && (exists list :: IsBySize(allocations, list) && EndsFirstFit(list, planners.sizeBest.packedBytes))
    && exists list :: IsByStart(allocations, list) && EndsFirstFit(list, planners.startFirst.packedBytes)
  }

  lemma FirstFitEnds(list: seq<Request>)
    ensures EndsFirstFit(list, ArenaBytes(FirstFit(list)))
  {
    FirstFitIs(list);
    LargestEndIs(FirstFit(list));
  }

  lemma {:induction false} LinearEnds(list: seq<Request>)
    ensures EndsLinear(list, LinearEnd(list))
  {
    if list == [] {
      assert IsLinear(list, [], 0);
    } else {
      var n := |list| - 1;
      LinearEnds(list[..n]);
      var placed :| IsLinear(list[..n], placed, LinearEnd(list[..n]));
      var next := Placed(list[n].id, AlignUp(LinearEnd(list[..n]), ALIGNMENT), list[n].size, list[n].interval);
      AlignUpIsLeast(LinearEnd(list[..n]), ALIGNMENT);
      LinearStep(list, n, placed, LinearEnd(list[..n]), next);
      assert list[..n + 1] == list;
    }
  }

  lemma {:induction false} TotalAddsUp(list: seq<Request>) returns (totals: seq<nat>)
    ensures AddsUp(list, totals, TotalSize(list))
  {
    if list == [] {
      totals := [0];
    } else {
      var n := |list| - 1;
      var before := TotalAddsUp(list[..n]);
      totals := before + [before[n] + list[n].size];
      forall i | 0 <= i < n + 1
        ensures totals[i + 1] == totals[i] + list[i].size
      {
        assert i < n ==> before[i + 1] == before[i] + list[..n][i].size;
      }
    }
  }

  lemma FloorIs(list: seq<Request>, maxSingle: nat, scheduledPeak: nat) returns (peak: nat)
    ensures IsPeak(list, scheduledPeak, peak) && Floor(list, maxSingle, scheduledPeak) == Max(peak, maxSingle)
  {
    peak := if scheduledPeak == 0 then TotalSize(list) else scheduledPeak;
    var totals := TotalAddsUp(list);
  }

  predicate IsFloored(figures: Figures, floor: nat) {
    figures.effectiveBytes == Max(figures.packedBytes, floor)
  }

  predicate AllFloored(planners: Table, floor: nat) {
    && IsFloored(planners.linear, floor) && IsFloored(planners.current, floor)
    && IsFloored(planners.sizeFirst, floor) && IsFloored(planners.startFirst, floor)
    && IsFloored(planners.sizeBest, floor)
  }

  lemma FirstFitIsFloored(list: seq<Request>, floor: nat)
    ensures IsFloored(FirstFitFigures(list, floor), floor)
  {
  }

  lemma FiguresAreFloored(allocations: seq<Request>, floor: nat)
    ensures AllFloored(ExpectedFigures(allocations, floor), floor)
  {
    FirstFitIsFloored(allocations, floor);
    FirstFitIsFloored(Ordered(allocations, SizeDescKey), floor);
    FirstFitIsFloored(Ordered(allocations, StartKey), floor);
  }

  lemma EffectiveSizesAre(planners: Table, maxSingle: nat, peak: nat)
    requires AllFloored(planners, Max(peak, maxSingle))
    ensures forall p: Planner {:trigger planners.Get(p)} :: IsEffective(planners.Get(p), maxSingle, peak)
  {
    forall p: Planner
      ensures IsEffective(planners.Get(p), maxSingle, peak)
    {
      LargestIsEffective(planners.Get(p).packedBytes, maxSingle, peak);
    }
  }

  lemma LargestIsEffective(packed: nat, maxSingle: nat, peak: nat)
    ensures IsEffective(Figures(packed, Max(packed, Max(peak, maxSingle))), maxSingle, peak)
  {
  }

  lemma SizeListEnds(allocations: seq<Request>)
    ensures exists list :: IsBySize(allocations, list)
                           && EndsFirstFit(list, ArenaBytes(FirstFit(Ordered(allocations, SizeDescKey))))
  {
    BySizeIs(allocations);
    FirstFitEnds(Ordered(allocations, SizeDescKey));
  }

  lemma StartListEnds(allocations: seq<Request>)
    ensures exists list :: IsByStart(allocations, list)
                           && EndsFirstFit(list, ArenaBytes(FirstFit(Ordered(allocations, StartKey))))
  {
    ByStartIs(allocations);
    FirstFitEnds(Ordered(allocations, StartKey));
  }

  lemma ExpectedFiguresAreTable(allocations: seq<Request>, maxSingle: nat, scheduledPeak: nat)
    ensures IsTable(allocations, maxSingle, scheduledPeak,
                    ExpectedFigures(allocations, Floor(allocations, maxSingle, scheduledPeak)))
  {
    var peak := FloorIs(allocations, maxSingle, scheduledPeak);
    FiguresAreFloored(allocations, Floor(allocations, maxSingle, scheduledPeak));
    EffectiveSizesAre(
      ExpectedFigures(allocations, Floor(allocations, maxSingle, scheduledPeak)), maxSingle, peak);
    LinearEnds(allocations);
    FirstFitEnds(allocations);
    SizeListEnds(allocations);
    StartListEnds(allocations);
  }

  /** The others have a larger effective size, at the same a larger packed size, at both the same a later name. */
  ghost predicate IsWinner(planners: Table, winner: Planner) {
    forall p: Planner {:trigger planners.Get(p)} ::
      var best, other := planners.Get(winner), planners.Get(p);
      || p == winner || best.effectiveBytes < other.effectiveBytes
      || (best.effectiveBytes == other.effectiveBytes && best.packedBytes < other.packedBytes)
      || (best == other && StrLess(Name(winner), Name(p)))
  }

  lemma UnbeatenIsWinner(planners: Table, winner: Planner)
    requires Unbeaten(planners, winner)
    ensures IsWinner(planners, winner)
  {
    forall p: Planner
      ensures
        var best, other := planners.Get(winner), planners.Get(p);
        || p == winner || best.effectiveBytes < other.effectiveBytes
        || (best.effectiveBytes == other.effectiveBytes && best.packedBytes < other.packedBytes)
        || (best == other && StrLess(Name(winner), Name(p)))
    {
      RankIsAlphabetical(winner, p);
    }
  }

  method PickWinner(planners: Table) returns (winner: Planner)
    ensures Unbeaten(planners, winner)
  {
    winner := ChooseWinner(planners, Planners());
  }

  /**
    The packing and ranking part of `evaluate_schedule`. Two of its five planners can never be
    reported: `size_desc_first_fit` ties with `size_desc_best_fit`, `linear_no_reuse` at best
    ties with `input_order_first_fit`, and both lose on name.
   */
  method EvaluateSchedule(allocations: seq<Request>, maxSingle: nat, scheduledPeak: nat)
    returns (winner: Planner, planners: Table)
    ensures planners == ExpectedFigures(allocations, Floor(allocations, maxSingle, scheduledPeak))
    ensures IsTable(allocations, maxSingle, scheduledPeak, planners) && IsWinner(planners, winner)
    ensures winner != SizeFirst && winner != Linear
    ensures planners.Get(winner).effectiveBytes <= planners.current.effectiveBytes <= planners.linear.effectiveBytes
  {
    planners := RunPlanners(allocations, Floor(allocations, maxSingle, scheduledPeak));
    winner := PickWinner(planners);
    ExpectedFiguresAreDominated(allocations, Floor(allocations, maxSingle, scheduledPeak));
    DominatedNeverWin(planners, winner);
    ExpectedFiguresAreTable(allocations, maxSingle, scheduledPeak);
    UnbeatenIsWinner(planners, winner);
  }
}
