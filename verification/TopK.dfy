/**
  Top-k gradient compression of fl_compress.c: an in-place quickselect by magnitude over two
  parallel arrays, and the sparse decompression that inverts it on what was kept.

  Gradients are real numbers; float rounding and NaN are not modelled.
 */
module TopK {
  import opened Basics

  type Pair = (real, nat)

  /** `fabsf` */
  function Magnitude(x: real): real {
    if x >= 0.0 then x else -x
  }

  lemma MagnitudeIsAbsoluteValue(x: real)
    ensures Magnitude(x) >= 0.0 && (Magnitude(x) == x || Magnitude(x) + x == 0.0)
  {
  }

  /** The two parallel arrays as one sequence. */
  function Pairs(values: array<real>, indices: array<nat>): (p: seq<Pair>)
    requires values.Length == indices.Length
    reads values, indices
    ensures |p| == values.Length
  {
    seq(values.Length, i requires 0 <= i < values.Length reads values, indices => (values[i], indices[i]))
  }

  function Swapped<T>(s: seq<T>, i: nat, j: nat): seq<T>
    requires i < |s| && j < |s|
  {
    s[i := s[j]][j := s[i]]
  }

  /** The entries of `now` at positions `lo` to `hi` are those of `before`, rearranged; others stay. */
  ghost predicate Rearranged(before: seq<Pair>, now: seq<Pair>, lo: int, hi: int) {
    && |now| == |before|
    && multiset(now) == multiset(before)
    && (forall a :: 0 <= a < |now| && !(lo <= a <= hi) ==> now[a] == before[a])
    && forall a :: 0 <= a < |now| && lo <= a <= hi ==> FromRange(before, now[a], lo, hi)
  }

  ghost predicate FromRange(before: seq<Pair>, x: Pair, lo: int, hi: int) {
    exists b :: 0 <= b < |before| && lo <= b <= hi && before[b] == x
  }

  lemma SwapRearranges(before: seq<Pair>, now: seq<Pair>, lo: int, hi: int, i: nat, j: nat)
    requires Rearranged(before, now, lo, hi)
    requires i < |now| && j < |now| && lo <= i <= hi && lo <= j <= hi
    ensures Rearranged(before, Swapped(now, i, j), lo, hi)
  {
    SwapKeepsMultiset(now, i, j);
  }

  lemma SwapKeepsMultiset(s: seq<Pair>, i: nat, j: nat)
    requires i < |s| && j < |s|
    ensures multiset(Swapped(s, i, j)) == multiset(s)
  {
  }

  lemma RearrangedCompose(a: seq<Pair>, b: seq<Pair>, c: seq<Pair>, lo: int, hi: int, l: int, r: int)
    requires Rearranged(a, b, lo, hi) && Rearranged(b, c, l, r) && lo <= l && r <= hi
    ensures Rearranged(a, c, lo, hi)
  {
    forall i | 0 <= i < |c| && lo <= i <= hi
      ensures FromRange(a, c[i], lo, hi)
    {
      if l <= i <= r {
        assert FromRange(b, c[i], l, r);
        var j :| 0 <= j < |b| && l <= j <= r && b[j] == c[i];
        assert FromRange(a, b[j], lo, hi);
      } else {
        assert FromRange(a, b[i], lo, hi);
      }
    }
  }

  method Swap(values: array<real>, indices: array<nat>, i: nat, j: nat)
    requires values.Length == indices.Length && i < values.Length && j < values.Length
    modifies values, indices
    ensures Pairs(values, indices) == Swapped(old(Pairs(values, indices)), i, j)
  {
    values[i], values[j] := values[j], values[i];
    indices[i], indices[j] := indices[j], indices[i];
  }

  predicate AllAbove(p: seq<Pair>, lo: int, hi: int, bound: real) {
    forall a :: 0 <= a < |p| && lo <= a < hi ==> Magnitude(p[a].0) > bound
  }

  predicate AllAtMost(p: seq<Pair>, lo: int, hi: int, bound: real) {
    forall a :: 0 <= a < |p| && lo <= a < hi ==> Magnitude(p[a].0) <= bound
  }

  /** The scan up to `j`: entries before `i` exceed the pivot, entries from `i` do not. */
  ghost predicate Scanned(before: seq<Pair>, now: seq<Pair>, left: int, i: int, j: int, right: int, pivot: real) {
    && Rearranged(before, now, left, right)
    && 0 <= left <= i <= j <= right < |now| && now[right].0 == pivot
    && AllAbove(now, left, i, Magnitude(pivot)) && AllAtMost(now, i, j, Magnitude(pivot))
  }

  lemma ScanStep(
    before: seq<Pair>, now: seq<Pair>, left: int, i: int, j: int, right: int, pivot: real)
    requires Scanned(before, now, left, i, j, right, pivot) && j < right
    ensures Magnitude(now[j].0) > Magnitude(pivot) ==>
              Scanned(before, Swapped(now, i, j), left, i + 1, j + 1, right, pivot)
    ensures Magnitude(now[j].0) <= Magnitude(pivot) ==> Scanned(before, now, left, i, j + 1, right, pivot)
  {
    SwapRearranges(before, now, left, right, i, j);
  }

  lemma ScanEnds(before: seq<Pair>, now: seq<Pair>, left: int, i: int, right: int, pivot: real)
    requires Scanned(before, now, left, i, right, right, pivot)
    ensures
      var after := Swapped(now, i, right);
      && Rearranged(before, after, left, right) && after[i].0 == pivot
      && AllAbove(after, left, i, Magnitude(pivot)) && AllAtMost(after, i + 1, right + 1, Magnitude(pivot))
  {
    SwapRearranges(before, now, left, right, i, right);
  }

  /** One round: everything larger than the pivot moves before it. */
  method Partition(values: array<real>, indices: array<nat>, left: int, right: int) returns (i: int)
    requires values.Length == indices.Length && 0 <= left < right < values.Length
    modifies values, indices
    ensures left <= i <= right
    ensures Rearranged(old(Pairs(values, indices)), Pairs(values, indices), left, right)
    ensures
      var pivot := Magnitude(Pairs(values, indices)[i].0);
      AllAbove(Pairs(values, indices), left, i, pivot) && AllAtMost(Pairs(values, indices), i + 1, right + 1, pivot)
  {
    ghost var before := Pairs(values, indices);
    var pivot := values[right];
    i := left;
    for j := left to right
      invariant Scanned(before, Pairs(values, indices), left, i, j, right, pivot)
    {
      ScanStep(before, Pairs(values, indices), left, i, j, right, pivot);
      if Magnitude(values[j]) > Magnitude(pivot) {
        Swap(values, indices, i, j);
        i := i + 1;
      }
    }
    ScanEnds(before, Pairs(values, indices), left, i, right, pivot);
    Swap(values, indices, i, right);
  }

  /** Every entry before `cut` is at least as large as every entry from `cut` on, within bounds. */
  ghost predicate Split(p: seq<Pair>, lo: int, cut: int, hi: int) {
    forall a, b :: 0 <= a < |p| && 0 <= b < |p| && lo <= a < cut && cut <= b <= hi ==>
      Magnitude(p[a].0) >= Magnitude(p[b].0)
  }

  /** A split survives rearrangement of either side. */
  lemma SplitSurvives(before: seq<Pair>, now: seq<Pair>, lo: int, cut: int, hi: int, l: int, r: int)
    requires Split(before, lo, cut, hi) && Rearranged(before, now, l, r)
    requires lo <= l && r <= hi && (r < cut || cut <= l)
    ensures Split(now, lo, cut, hi)
  {
    forall a, b | 0 <= a < |now| && 0 <= b < |now| && lo <= a < cut && cut <= b <= hi
      ensures Magnitude(now[a].0) >= Magnitude(now[b].0)
    {
      if l <= a <= r {
        assert FromRange(before, now[a], l, r);
      }
      if l <= b <= r {
        assert FromRange(before, now[b], l, r);
      }
    }
  }

  /** After a round the pivot's position splits the range on both sides of it. */
  lemma PivotSplits(p: seq<Pair>, lo: int, left: int, i: int, right: int, hi: int)
    requires 0 <= lo <= left <= i <= right <= hi < |p|
    requires Split(p, lo, left, hi) && Split(p, lo, right + 1, hi)
    requires AllAbove(p, left, i, Magnitude(p[i].0)) && AllAtMost(p, i + 1, right + 1, Magnitude(p[i].0))
    ensures Split(p, lo, i, hi) && Split(p, lo, i + 1, hi)
  {
  }

  /** The state of the selection: everything outside `left..right` is on its final side. */
  ghost predicate Narrowed(before: seq<Pair>, now: seq<Pair>, lo: int, left: int, right: int, hi: int) {
    Rearranged(before, now, lo, hi) && Split(now, lo, left, hi) && Split(now, lo, right + 1, hi)
  }

  lemma RoundNarrows(
    before: seq<Pair>, now: seq<Pair>, after: seq<Pair>, lo: int, left: int, i: int, right: int, hi: int)
    requires 0 <= lo <= left <= i <= right <= hi < |after|
    requires Narrowed(before, now, lo, left, right, hi) && Rearranged(now, after, left, right)
    requires AllAbove(after, left, i, Magnitude(after[i].0))
    requires AllAtMost(after, i + 1, right + 1, Magnitude(after[i].0))
    ensures Narrowed(before, after, lo, i + 1, right, hi) && Narrowed(before, after, lo, left, i - 1, hi)
  {
    RearrangedCompose(before, now, after, lo, hi, left, right);
    SplitSurvives(now, after, lo, left, hi, left, right);
    SplitSurvives(now, after, lo, right + 1, hi, left, right);
    PivotSplits(after, lo, left, i, right, hi);
  }

  /** One round and what it decides: the side on which position `k` is. */
  method Round(values: array<real>, indices: array<nat>, left: int, right: int, ghost before: seq<Pair>, ghost lo: int,
               ghost hi: int) returns (i: int)
    requires values.Length == indices.Length && 0 <= lo <= left < right <= hi < values.Length
    requires Narrowed(before, Pairs(values, indices), lo, left, right, hi)
    modifies values, indices
    ensures left <= i <= right
    ensures Narrowed(before, Pairs(values, indices), lo, i + 1, right, hi)
    ensures Narrowed(before, Pairs(values, indices), lo, left, i - 1, hi)
  {
    ghost var now := Pairs(values, indices);
    i := Partition(values, indices, left, right);
    RoundNarrows(before, now, Pairs(values, indices), lo, left, i, right, hi);
  }

  /** `quickselect_partition`: position `k` splits the range; nothing outside it moves. */
  method QuickselectPartition(values: array<real>, indices: array<nat>, lo: int, hi: int, k: int)
    requires values.Length == indices.Length && 0 <= lo <= k <= hi < values.Length
    modifies values, indices
    ensures Rearranged(old(Pairs(values, indices)), Pairs(values, indices), lo, hi)
    ensures Split(Pairs(values, indices), lo, k, hi) && Split(Pairs(values, indices), lo, k + 1, hi)
  {
    ghost var before := Pairs(values, indices);
    var left, right := lo, hi;
    while left < right
      invariant lo <= left <= k <= right <= hi
      invariant Narrowed(before, Pairs(values, indices), lo, left, right, hi)
      decreases right - left
    {
      var i := Round(values, indices, left, right, before, lo, hi);
      if i == k {
        return;
      } else if i < k {
        left := i + 1;
      } else {
        right := i - 1;
      }
    }
  }

  // ---------- compression ----------

  datatype Outcome = Success | Invalid

  class Gradient {
    const values: array<real>
    const indices: array<nat>
    var count: nat
    const capacity: nat
    var originalSize: nat
    var sparse: bool

    constructor (capacity: nat)
      ensures this.capacity == capacity && Valid() && fresh(values) && fresh(indices)
      ensures count == 0 && originalSize == 0 && !sparse
    {
      values := new real[capacity](_ => 0.0);
      indices := new nat[capacity](_ => 0);
      this.capacity, count, originalSize, sparse := capacity, 0, 0, false;
    }

    predicate Valid() {
      values.Length == indices.Length == capacity
    }

    /** The fields beside the buffers; the entries stay. */
    method Deliver(k: nat, size: nat)
      requires Valid()
      modifies `count, `originalSize, `sparse
      ensures count == k && originalSize == size && sparse
      ensures Entries() == old(Entries())
    {
      count := k;
      originalSize := size;
      sparse := true;
    }

    function Entries(): (p: seq<Pair>)
      requires Valid()
      reads values, indices
      ensures |p| == capacity
    {
      Pairs(values, indices)
    }
  }

  /** The first `n` inputs with their positions. */
  function Tagged(input: seq<real>, n: nat): (p: seq<Pair>)
    requires n <= |input|
    ensures |p| == n
  {
    seq(n, (i: nat) requires i < n => (input[i], i))
  }

  /** The product of input size and ratio, exact here. */
  function Scale(inputSize: nat, ratio: real): real {
    inputSize as real * ratio
  }

  /** A product of an input size and a ratio. */
  predicate IsScaled(scaled: real, inputSize: nat) {
    if inputSize == 0 then scaled == 0.0 else 0.0 < scaled <= inputSize as real
  }

  /** How many entries are kept: the scaled size, truncated and kept between 1 and the capacity. */
  function KeepCount(scaled: real, capacity: nat): nat {
    Min(if scaled.Floor <= 0 then 1 else scaled.Floor, capacity)
  }

  /** The count is the scaled size without its fraction, but at least 1 and at most the capacity. */
  lemma KeepCountIsTruncation(scaled: real, capacity: nat)
    requires scaled >= 0.0
    ensures
      var k := KeepCount(scaled, capacity);
      && k <= capacity && (capacity > 0 ==> k >= 1)
      && (k > 1 ==> k as real <= scaled)
      && (k < capacity ==> scaled < (k + 1) as real)
  {
  }

  /** How many inputs are looked at. */
  function WorkSize(inputSize: nat, capacity: nat): nat {
    Min(inputSize, capacity)
  }

  method ComputeKeepCount(inputSize: nat, capacity: nat, ratio: real) returns (k: nat)
    requires 0.0 < ratio <= 1.0
    ensures k == KeepCount(Scale(inputSize, ratio), capacity)
    ensures k == 0 ==> capacity == 0
    ensures k <= WorkSize(inputSize, capacity) <==> inputSize > 0 || capacity == 0
  {
    ScaledDown(inputSize, ratio);
    CountFitsExactly(Scale(inputSize, ratio), inputSize, capacity);
    var scaled := Scale(inputSize, ratio).Floor;
    if scaled <= 0 {
      scaled := 1;
    }
    if scaled > capacity {
      scaled := capacity;
    }
    k := scaled;
  }

  /** The entries that were filled are the tagged inputs rearranged, the `k` largest of them first. */
  ghost predicate IsCompressed(entries: seq<Pair>, input: seq<real>, k: nat) {
    var n := WorkSize(|input|, |entries|);
    k <= n && multiset(entries[..n]) == multiset(Tagged(input, n)) && Split(entries, 0, k, n - 1)
  }

  /** The first entries are the tagged inputs rearranged, the others are as before. */
  ghost predicate IsFilled(entries: seq<Pair>, before: seq<Pair>, input: seq<real>) {
    var n := WorkSize(|input|, |entries|);
    && |entries| == |before| && entries[n..] == before[n..]
    && multiset(entries[..n]) == multiset(Tagged(input, n))
  }

  /** What compressing leaves in the output, for a valid ratio. */
  twostate predicate Compressed(output: Gradient, input: seq<real>, ratio: real)
    requires output.Valid()
    reads output, output.values, output.indices
  {
    && output.count == KeepCount(Scale(|input|, ratio), output.capacity)
    && output.originalSize == |input| && output.sparse
    && IsFilled(output.Entries(), old(output.Entries()), input)
    && (|input| > 0 || output.capacity == 0 ==> IsCompressed(output.Entries(), input, output.count))
  }

  /** `fl_compress_topk`; either pointer may be null. */
  method CompressTopK(input: Option<seq<real>>, output: Gradient?, ratio: real) returns (outcome: Outcome)
    requires output != null ==> output.Valid()
    modifies if output != null then {output, output.values, output.indices} else {}
    ensures outcome == Success <==> input.Some? && output != null && 0.0 < ratio <= 1.0
    ensures outcome == Success ==> Compressed(output, input.value, ratio)
    ensures outcome == Invalid && output != null ==>
              unchanged(output) && unchanged(output.values) && unchanged(output.indices)
  {
    if input.None? || output == null || ratio <= 0.0 || ratio > 1.0 {
      return Invalid;
    }
    Compress(input.value, output, ratio);
    outcome := Success;
  }

  /** `fl_compress_topk`, once the ratio has been checked. */
  method Compress(input: seq<real>, output: Gradient, ratio: real)
    requires output.Valid() && 0.0 < ratio <= 1.0
    modifies output, output.values, output.indices
    ensures Compressed(output, input, ratio)
  {
    var k := ComputeKeepCount(|input|, output.capacity, ratio);
    SelectLargest(input, output, k);
    output.Deliver(k, |input|);
  }

  /** The copy and the selection of `fl_compress_topk`, in place in the output buffers. */
  method SelectLargest(input: seq<real>, output: Gradient, k: nat)
    requires output.Valid() && (k == 0 ==> output.capacity == 0)
    modifies output.values, output.indices
    ensures IsFilled(output.Entries(), old(output.Entries()), input)
    ensures k <= WorkSize(|input|, output.capacity) ==> IsCompressed(output.Entries(), input, k)
  {
    var workSize := WorkSize(|input|, output.capacity);
    FillFromInput(input, output, workSize);
    ghost var filled := output.Entries();
    assert filled[..workSize] == Tagged(input, workSize);
    if k < workSize {
      QuickselectPartition(output.values, output.indices, 0, workSize - 1, k - 1);
      PrefixRearranged(filled, output.Entries(), workSize);
    }
  }

  method FillFromInput(input: seq<real>, output: Gradient, workSize: nat)
    requires output.Valid() && workSize <= |input| && workSize <= output.capacity
    modifies output.values, output.indices
    ensures output.Entries() == Tagged(input, workSize) + old(output.Entries())[workSize..]
  {
    for i := 0 to workSize
      invariant forall j :: 0 <= j < output.capacity ==>
                  output.Entries()[j] == if j < i then (input[j], j) else old(output.Entries())[j]
    {
      output.values[i] := input[i];
      output.indices[i] := i;
    }
  }

  lemma PrefixRearranged(before: seq<Pair>, now: seq<Pair>, n: nat)
    requires n <= |before| && Rearranged(before, now, 0, n - 1)
    ensures multiset(now[..n]) == multiset(before[..n]) && now[n..] == before[n..]
  {
    assert now == now[..n] + now[n..] && before == before[..n] + before[n..];
    assert now[n..] == before[n..];
    assert multiset(now) == multiset(now[..n]) + multiset(now[n..]);
    assert multiset(before) == multiset(before[..n]) + multiset(before[n..]);
    assert multiset(now[..n]) == multiset(now) - multiset(now[n..]);
    assert multiset(before[..n]) == multiset(before) - multiset(before[n..]);
  }

  // ---------- what a rearrangement of tagged inputs is ----------

  /** Each entry carries the input at its index, and no index occurs twice. */
  ghost predicate IsSelection(entries: seq<Pair>, input: seq<real>) {
    && (forall a :: 0 <= a < |entries| ==> entries[a].1 < |input| && entries[a].0 == input[entries[a].1])
    && forall a, b :: 0 <= a < b < |entries| ==> entries[a].1 != entries[b].1
  }

  lemma {:induction false} MultisetOfDistinct(s: seq<Pair>, x: Pair)
    requires forall a, b :: 0 <= a < b < |s| ==> s[a] != s[b]
    ensures multiset(s)[x] <= 1
  {
    if s != [] {
      var n := |s| - 1;
      assert s == s[..n] + [s[n]];
      MultisetOfDistinct(s[..n], x);
      if s[n] == x {
        assert x !in s[..n];
        assert x !in multiset(s[..n]);
      }
    }
  }

  lemma RepeatedEntryCountsTwice(s: seq<Pair>, a: nat, b: nat)
    requires a < b < |s| && s[a] == s[b]
    ensures multiset(s)[s[a]] >= 2
  {
    assert s == s[..b] + s[b..];
    assert s[a] == s[..b][a] && s[b] == s[b..][0];
    assert s[a] in multiset(s[..b]) && s[a] in multiset(s[b..]);
  }

  lemma RearrangedTagsAreSelection(entries: seq<Pair>, input: seq<real>, n: nat)
    requires n <= |input| && |entries| == n && multiset(entries) == multiset(Tagged(input, n))
    ensures IsSelection(entries, input) && forall a :: 0 <= a < n ==> entries[a].1 < n
  {
    var tagged := Tagged(input, n);
    forall a | 0 <= a < n
      ensures entries[a].1 < n && entries[a].0 == input[entries[a].1]
    {
      assert entries[a] in multiset(entries);
      var i :| 0 <= i < n && tagged[i] == entries[a];
    }
    forall a, b | 0 <= a < b < n
      ensures entries[a].1 != entries[b].1
    {
      if entries[a].1 == entries[b].1 {
        RepeatedEntryCountsTwice(entries, a, b);
        MultisetOfDistinct(tagged, entries[a]);
        assert false;
      }
    }
  }

  /** Every input position occurs in a rearrangement of all tags. */
  lemma EveryIndexOccurs(entries: seq<Pair>, input: seq<real>, n: nat, j: nat) returns (a: nat)
    requires n <= |input| && |entries| == n && multiset(entries) == multiset(Tagged(input, n)) && j < n
    ensures a < n && entries[a] == (input[j], j)
  {
    var tagged := Tagged(input, n);
    assert tagged[j] in multiset(tagged);
    assert tagged[j] in multiset(entries);
    a :| 0 <= a < n && entries[a] == tagged[j];
  }

  // ---------- decompression ----------

  /** The last of the first `count` entries for position `j`, or 0. */
  function Scattered(entries: seq<Pair>, count: nat, j: nat): real
    requires count <= |entries|
  {
    if count == 0 then 0.0
    else if entries[count - 1].1 == j then entries[count - 1].0
    else Scattered(entries, count - 1, j)
  }

  /** Entry `i` is the last of the first `count` for position `j`. */
  predicate IsLastFor(entries: seq<Pair>, count: nat, j: nat, i: nat)
    requires count <= |entries|
  {
    i < count && entries[i].1 == j && forall l :: i < l < count ==> entries[l].1 != j
  }

  lemma {:induction false} ScatteredIsLast(entries: seq<Pair>, count: nat, j: nat)
    requires count <= |entries|
    ensures || (Scattered(entries, count, j) == 0.0 && forall l :: 0 <= l < count ==> entries[l].1 != j)
            || exists i :: 0 <= i < count && IsLastFor(entries, count, j, i)
                           && Scattered(entries, count, j) == entries[i].0
  {
    if count > 0 {
      ScatteredIsLast(entries, count - 1, j);
      if entries[count - 1].1 == j {
        assert IsLastFor(entries, count, j, count - 1);
      } else if exists i :: 0 <= i < count - 1 && IsLastFor(entries, count - 1, j, i)
                            && Scattered(entries, count - 1, j) == entries[i].0 {
        var i :| 0 <= i < count - 1 && IsLastFor(entries, count - 1, j, i)
                 && Scattered(entries, count - 1, j) == entries[i].0;
        assert IsLastFor(entries, count, j, i);
      }
    }
  }

  /** `fl_decompress_topk`; either pointer may be null. */
  method DecompressTopK(input: Gradient?, output: array?<real>) returns (outcome: Outcome)
    requires input != null ==> input.Valid() && input.count <= input.capacity && output != input.values
    modifies if output != null then {output} else {}
    ensures outcome == Success <==> input != null && output != null
    ensures outcome == Success ==>
              forall j :: 0 <= j < output.Length ==> output[j] == Scattered(input.Entries(), input.count, j)
    ensures outcome == Invalid && output != null ==> unchanged(output)
  {
    if input == null || output == null {
      return Invalid;
    }
    for i := 0 to output.Length
      invariant forall j :: 0 <= j < i ==> output[j] == 0.0
    {
      output[i] := 0.0;
    }
    for i := 0 to input.count
      invariant forall j :: 0 <= j < output.Length ==> output[j] == Scattered(input.Entries(), i, j)
    {
      var idx := input.indices[i];
      if idx < output.Length {
        output[idx] := input.values[i];
      }
    }
    outcome := Success;
  }

  // ---------- main results ----------

  /** The positions kept. */
  function Kept(entries: seq<Pair>, k: nat): (kept: set<nat>)
    requires k <= |entries|
  {
    set a | 0 <= a < k :: entries[a].1
  }

  lemma {:induction false} KeptSize(entries: seq<Pair>, input: seq<real>, k: nat)
    requires k <= |entries| && IsSelection(entries, input)
    ensures |Kept(entries, k)| == k
  {
    if k > 0 {
      KeptSize(entries, input, k - 1);
      var last := entries[k - 1].1;
      assert Kept(entries, k) == Kept(entries, k - 1) + {last};
      assert last !in Kept(entries, k - 1);
    }
  }

  lemma {:induction false} ScatteredSelection(entries: seq<Pair>, input: seq<real>, k: nat, j: nat)
    requires k <= |entries| && IsSelection(entries, input) && j < |input|
    ensures Scattered(entries, k, j) == if j in Kept(entries, k) then input[j] else 0.0
  {
    if k > 0 {
      ScatteredSelection(entries, input, k - 1, j);
      assert Kept(entries, k) == Kept(entries, k - 1) + {entries[k - 1].1};
    }
  }

  /** No input left out is larger than one that is kept. */
  ghost predicate KeepsLargest(kept: set<nat>, input: seq<real>) {
    forall i, j :: i in kept && i < |input| && 0 <= j < |input| && j !in kept ==>
      Magnitude(input[i]) >= Magnitude(input[j])
  }

  /**
    For a compressed gradient with room for all inputs: exactly `k` positions are kept, they are the
    largest, and decompression returns the input with the other positions zeroed.
   */
  lemma {:induction false} TopKRoundTrip(entries: seq<Pair>, input: seq<real>, k: nat)
    requires |input| <= |entries| && IsCompressed(entries, input, k)
    ensures |Kept(entries, k)| == k && KeepsLargest(Kept(entries, k), input)
    ensures forall j :: 0 <= j < |input| ==>
              Scattered(entries, k, j) == if j in Kept(entries, k) then input[j] else 0.0
  {
    var n := |input|;
    var own := entries[..n];
    RearrangedTagsAreSelection(own, input, n);
    KeptSize(own, input, k);
    assert Kept(own, k) == Kept(entries, k);
    forall j | 0 <= j < n
      ensures Scattered(entries, k, j) == if j in Kept(entries, k) then input[j] else 0.0
    {
      ScatteredSelection(own, input, k, j);
      ScatteredPrefix(entries, n, k, j);
    }
    forall i, j | i in Kept(own, k) && 0 <= j < n && j !in Kept(own, k)
      ensures Magnitude(input[i]) >= Magnitude(input[j])
    {
      var a :| 0 <= a < k && own[a].1 == i;
      var b := EveryIndexOccurs(own, input, n, j);
      assert b >= k;
      assert entries[a] == own[a] && entries[b] == own[b];
    }
  }

  lemma {:induction false} ScatteredPrefix(entries: seq<Pair>, n: nat, k: nat, j: nat)
    requires k <= n <= |entries|
    ensures Scattered(entries[..n], k, j) == Scattered(entries, k, j)
  {
    if k > 0 {
      ScatteredPrefix(entries, n, k - 1, j);
    }
  }

  /** Whatever the inputs of this number are, no input left out is larger than one that is kept. */
  ghost predicate AlwaysKeepsLargest(n: nat, capacity: nat, k: nat) {
    forall entries: seq<Pair>, input: seq<real> {:trigger IsCompressed(entries, input, k)} ::
      |entries| == capacity && |input| == n && IsCompressed(entries, input, k) ==>
        KeepsLargest(Kept(entries, k), input)
  }

  /**
    With less room than inputs the rest of the input is never looked at: for some input, whatever the
    order in which the entries come out, its largest is missed.
   */
  lemma ShortCapacityMissesTheLargest(n: nat, capacity: nat, k: nat) returns (input: seq<real>)
    requires 0 < k <= capacity < n
    ensures |input| == n && IsCompressed(Tagged(input, capacity), input, k)
    ensures forall entries: seq<Pair> :: |entries| == capacity && IsCompressed(entries, input, k) ==>
              !KeepsLargest(Kept(entries, k), input)
  {
    input := seq(n, i => if i < capacity then 0.0 else 1.0);
    var tagged := Tagged(input, capacity);
    assert tagged[..capacity] == tagged;
    forall entries: seq<Pair> | |entries| == capacity && IsCompressed(entries, input, k)
      ensures !KeepsLargest(Kept(entries, k), input)
    {
      assert entries[..capacity] == entries;
      RearrangedTagsAreSelection(entries, input, capacity);
      var first := entries[0].1;
      assert first in Kept(entries, k) && first < capacity && capacity !in Kept(entries, k);
      assert Magnitude(input[first]) == 0.0 && Magnitude(input[capacity]) == 1.0;
    }
  }

  /** The largest are kept for all inputs exactly when there is room for all, or for none. */
  lemma CapacityIsExact(scaled: real, n: nat, capacity: nat)
    requires 0 < n && IsScaled(scaled, n)
    ensures AlwaysKeepsLargest(n, capacity, KeepCount(scaled, capacity)) <==> n <= capacity || capacity == 0
  {
    var k := KeepCount(scaled, capacity);
    CountFitsExactly(scaled, n, capacity);
    if n <= capacity {
      forall entries: seq<Pair>, input: seq<real> |
        |entries| == capacity && |input| == n && IsCompressed(entries, input, k)
        ensures KeepsLargest(Kept(entries, k), input)
      {
        TopKRoundTrip(entries, input, k);
      }
    } else if capacity > 0 {
      var input := ShortCapacityMissesTheLargest(n, capacity, k);
      assert !KeepsLargest(Kept(Tagged(input, capacity), k), input);
    }
  }

  /** The count names filled entries only, except for an empty input, where it is 1 if there is room. */
  lemma CountFitsExactly(scaled: real, inputSize: nat, capacity: nat)
    requires IsScaled(scaled, inputSize)
    ensures KeepCount(scaled, capacity) <= WorkSize(inputSize, capacity) <==> inputSize > 0 || capacity == 0
    ensures capacity > 0 ==> KeepCount(scaled, capacity) > 0
  {
  }

  lemma RealProductBound(x: real, y: real)
    requires 0.0 < x && 0.0 < y <= 1.0
    ensures 0.0 < x * y <= x
  {
    assert x * y <= x * 1.0;
  }

  lemma ScaledDown(n: nat, ratio: real)
    requires 0.0 < ratio <= 1.0
    ensures IsScaled(Scale(n, ratio), n)
  {
    if n > 0 {
      RealProductBound(n as real, ratio);
    }
  }
}
