/**
  The HAL allocation trace of ai_model_registry.c: after any run since the last reset the array
  holds the head of a stable sort by size, and the peak event is the latest largest record.
 */
module AllocTrace {
  import opened Basics

  const CAPACITY: nat := 8

  /** The fields the trace only copies. */
  datatype Details = Details(
    requestedMemoryType: nat, requestedUsage: nat, requestedAccess: nat,
    compatMemoryType: nat, compatUsage: nat, compatAccess: nat, minAlignment: nat, bufferPtr: nat)

  datatype Record = Record(size: nat, details: Details, sequence: nat)

  const ZERO: Record := Record(0, Details(0, 0, 0, 0, 0, 0, 0, 0), 0)

  // ---------- stable sorting by size, largest first ----------

  /** Inserts after all records of the same size. */
  function InsertDesc(s: seq<Record>, r: Record): (t: seq<Record>)
    ensures |t| == |s| + 1
  {
    if s == [] || r.size > s[0].size then [r] + s else [s[0]] + InsertDesc(s[1..], r)
  }

  function SortDesc(history: seq<Record>): (s: seq<Record>)
    ensures |s| == |history|
  {
    if history == [] then []
    else InsertDesc(SortDesc(history[..|history| - 1]), history[|history| - 1])
  }

  predicate Descending(s: seq<Record>) {
    forall i, j :: 0 <= i < j < |s| ==> s[i].size >= s[j].size
  }

  /** The records of one size, in order. */
  function OfSize(s: seq<Record>, size: nat): seq<Record> {
    if s == [] then [] else (if s[0].size == size then [s[0]] else []) + OfSize(s[1..], size)
  }

  lemma OfSizeFirst(r: Record, s: seq<Record>, size: nat)
    ensures OfSize([r] + s, size) == (if r.size == size then [r] else []) + OfSize(s, size)
  {
    assert ([r] + s)[1..] == s;
  }

  lemma Associative<T>(a: seq<T>, b: seq<T>, c: seq<T>)
    ensures (a + b) + c == a + (b + c)
  {
  }

  lemma {:induction false} OfSizeAppend(a: seq<Record>, b: seq<Record>, size: nat)
    ensures OfSize(a + b, size) == OfSize(a, size) + OfSize(b, size)
  {
    if a == [] {
      assert a + b == b;
    } else {
      var rest, first := a[1..], if a[0].size == size then [a[0]] else [];
      OfSizeAppend(rest, b, size);
      OfSizeFirst(a[0], rest + b, size);
      Associative([a[0]], rest, b);
      Associative(first, OfSize(rest, size), OfSize(b, size));
      assert a == [a[0]] + rest;
    }
  }

  lemma {:induction false} NothingOfLargerSize(s: seq<Record>, size: nat)
    requires forall i :: 0 <= i < |s| ==> s[i].size < size
    ensures OfSize(s, size) == []
  {
    if s != [] {
      NothingOfLargerSize(s[1..], size);
    }
  }

  lemma {:induction false} InsertDescMembers(s: seq<Record>, r: Record, x: Record)
    ensures x in InsertDesc(s, r) <==> x == r || x in s
  {
    if s != [] {
      InsertDescMembers(s[1..], r, x);
      assert x in s <==> x == s[0] || x in s[1..];
    }
  }

  lemma {:induction false} InsertDescDescends(s: seq<Record>, r: Record)
    requires Descending(s)
    ensures Descending(InsertDesc(s, r))
  {
    if s != [] && r.size <= s[0].size {
      InsertDescDescends(s[1..], r);
      var rest := InsertDesc(s[1..], r);
      forall j | 0 <= j < |rest|
        ensures rest[j].size <= s[0].size
      {
        InsertDescMembers(s[1..], r, rest[j]);
      }
    }
  }

  /** Insertion adds the record behind those of its size. */
  lemma {:induction false} InsertDescOfSize(s: seq<Record>, r: Record, size: nat)
    requires Descending(s)
    ensures OfSize(InsertDesc(s, r), size) == OfSize(s, size) + OfSize([r], size)
  {
    if s == [] {
    } else if r.size > s[0].size {
      OfSizeAppend([r], s, size);
      if r.size == size {
        NothingOfLargerSize(s, size);
      }
    } else {
      InsertDescOfSize(s[1..], r, size);
      OfSizeFirst(s[0], InsertDesc(s[1..], r), size);
      Associative(if s[0].size == size then [s[0]] else [], OfSize(s[1..], size), OfSize([r], size));
    }
  }

  /** `SortDesc` is the stable sort: descending, and each size keeps its records in their order. */
  lemma {:induction false} SortDescIsStableSort(history: seq<Record>, size: nat)
    ensures Descending(SortDesc(history))
    ensures OfSize(SortDesc(history), size) == OfSize(history, size)
    ensures forall x :: x in SortDesc(history) <==> x in history
  {
    if history != [] {
      var n := |history| - 1;
      SortDescIsStableSort(history[..n], size);
      InsertDescDescends(SortDesc(history[..n]), history[n]);
      InsertDescOfSize(SortDesc(history[..n]), history[n], size);
      forall x
        ensures x in SortDesc(history) <==> x in history
      {
        InsertDescMembers(SortDesc(history[..n]), history[n], x);
      }
      assert history == history[..n] + [history[n]];
      OfSizeAppend(history[..n], [history[n]], size);
    }
  }

  // ---------- the eight largest ----------

  function NonZero(history: seq<Record>): seq<Record> {
    if history == [] then []
    else NonZero(history[..|history| - 1])
         + if history[|history| - 1].size > 0 then [history[|history| - 1]] else []
  }

  function Zeros(): (z: seq<Record>)
    ensures |z| == CAPACITY && forall i :: 0 <= i < |z| ==> z[i] == ZERO
  {
    seq(CAPACITY, i => ZERO)
  }

  /** The first eight nonzero records of the stable sort, padded with empty records. */
  function TopEight(history: seq<Record>): (top: seq<Record>)
    ensures |top| == CAPACITY == 8
  {
    (SortDesc(NonZero(history)) + Zeros())[..CAPACITY]
  }

  /** The first place where the record is larger, or the end. */
  ghost predicate InsertionPoint(s: seq<Record>, r: Record, i: nat) {
    && i <= |s|
    && (forall j :: 0 <= j < i ==> r.size <= s[j].size)
    && (i < |s| ==> r.size > s[i].size)
  }

  lemma {:induction false} InsertDescAt(s: seq<Record>, r: Record, i: nat)
    requires InsertionPoint(s, r, i)
    ensures InsertDesc(s, r) == s[..i] + [r] + s[i..]
  {
    if i > 0 {
      assert forall j :: 0 <= j < i - 1 ==> s[1..][j] == s[j + 1];
      InsertDescAt(s[1..], r, i - 1);
      assert s[..i] == [s[0]] + s[1..][..i - 1];
      assert s[1..][i - 1..] == s[i..];
    }
  }

  /** What falls off the end of the array can never come back. */
  lemma {:induction false} TruncationIsHarmless(s: seq<Record>, r: Record, n: nat)
    requires n <= |s|
    ensures InsertDesc(s, r)[..n] == InsertDesc(s[..n], r)[..n]
  {
    if n > 0 && r.size <= s[0].size {
      TruncationIsHarmless(s[1..], r, n - 1);
      assert s[..n][1..] == s[1..][..n - 1];
      assert InsertDesc(s, r)[..n] == [s[0]] + InsertDesc(s[1..], r)[..n - 1];
      assert InsertDesc(s[..n], r)[..n] == [s[0]] + InsertDesc(s[1..][..n - 1], r)[..n - 1];
    } else if n > 0 {
      assert InsertDesc(s, r)[..n] == [r] + s[..n - 1];
      assert InsertDesc(s[..n], r)[..n] == [r] + s[..n][..n - 1];
    }
  }

  lemma {:induction false} PaddingStaysBehind(s: seq<Record>, r: Record)
    requires r.size > 0
    ensures InsertDesc(s + Zeros(), r) == InsertDesc(s, r) + Zeros()
  {
    if s == [] {
      assert s + Zeros() == Zeros();
    } else if r.size > s[0].size {
      assert [r] + (s + Zeros()) == ([r] + s) + Zeros();
    } else {
      PaddingStaysBehind(s[1..], r);
      assert (s + Zeros())[1..] == s[1..] + Zeros();
    }
  }

  lemma {:induction false} TopEightExtends(history: seq<Record>, r: Record)
    ensures TopEight(history + [r]) ==
            if r.size == 0 then TopEight(history) else InsertDesc(TopEight(history), r)[..CAPACITY]
  {
    assert (history + [r])[..|history|] == history;
    if r.size > 0 {
      var sorted := SortDesc(NonZero(history));
      assert (NonZero(history) + [r])[..|NonZero(history)|] == NonZero(history);
      PaddingStaysBehind(sorted, r);
      TruncationIsHarmless(sorted + Zeros(), r, CAPACITY);
    } else {
      assert NonZero(history) + [] == NonZero(history);
    }
  }

  // ---------- the peak ----------

  /** The latest record that no later or earlier one exceeds. */
  function LatestLargest(history: seq<Record>): Record {
    if history == [] then ZERO
    else
      var before, last := LatestLargest(history[..|history| - 1]), history[|history| - 1];
      if last.size >= before.size then last else before
  }

  lemma {:induction false} LatestLargestIs(history: seq<Record>) returns (i: nat)
    requires history != []
    ensures i < |history| && history[i] == LatestLargest(history)
    ensures forall j :: 0 <= j < |history| ==> history[j].size <= history[i].size
    ensures forall j :: i < j < |history| ==> history[j].size < history[i].size
  {
    var n := |history| - 1;
    if n == 0 || history[n].size >= LatestLargest(history[..n]).size {
      if n > 0 {
        var k := LatestLargestIs(history[..n]);
        assert forall j :: 0 <= j < n ==> history[j] == history[..n][j];
      }
      i := n;
    } else {
      i := LatestLargestIs(history[..n]);
      assert forall j :: 0 <= j < n ==> history[j] == history[..n][j];
    }
  }

  /** The head of the array has the size of the peak event. */
  lemma {:induction false} HeadHasPeakSize(history: seq<Record>)
    ensures TopEight(history)[0].size == LatestLargest(history).size
  {
    if history == [] {
      assert NonZero(history) == [];
      assert ([] + Zeros())[0] == ZERO;
    } else {
      var n := |history| - 1;
      HeadHasPeakSize(history[..n]);
      TopEightExtends(history[..n], history[n]);
      assert history == history[..n] + [history[n]];
    }
  }

  lemma CountWraps(n: nat)
    ensures (n % U32 + 1) % U32 == (n + 1) % U32
  {
  }

  /** The state of a trace after the records of `history`. */
  ghost predicate Tracks(largest: seq<Record>, peakEvent: Record, history: seq<Record>) {
    largest == TopEight(history) && peakEvent == LatestLargest(history)
  }

  /** One more record. */
  lemma TracksNext(largest: seq<Record>, peakEvent: Record, history: seq<Record>, record: Record)
    requires |largest| == CAPACITY && Tracks(largest, peakEvent, history)
    ensures Tracks(if record.size == 0 then largest else InsertDesc(largest, record)[..CAPACITY],
                   if record.size >= peakEvent.size then record else peakEvent, history + [record])
  {
    TopEightExtends(history, record);
    LatestLargestExtends(history, record);
  }

  lemma LatestLargestExtends(history: seq<Record>, record: Record)
    ensures LatestLargest(history + [record])
            == if record.size >= LatestLargest(history).size then record else LatestLargest(history)
  {
    assert (history + [record])[..|history|] == history;
  }

  // ---------- the trace ----------

  class Trace {
    const largest: array<Record>
    var peakEvent: Record
    var sequence: nat
    /** All records since the last reset. */
    ghost var history: seq<Record>

    ghost predicate Valid()
      reads this, largest
    {
      && largest.Length == CAPACITY
      && Tracks(largest[..], peakEvent, history)
      && sequence == |history| % U32
    }

    constructor ()
      ensures Valid() && history == [] && fresh(largest)
    {
      largest := new Record[CAPACITY](i => ZERO);
      peakEvent, sequence, history := ZERO, 0, [];
      new;
      assert largest[..] == Zeros() == [] + Zeros();
    }

    /** `ai_hal_allocation_trace_reset` */
    method Reset()
      requires largest.Length == CAPACITY
      modifies this, largest
      ensures Valid() && history == []
    {
      for i := 0 to CAPACITY
        invariant forall j :: 0 <= j < i ==> largest[j] == ZERO
      {
        largest[i] := ZERO;
      }
      peakEvent, sequence, history := ZERO, 0, [];
      assert largest[..] == Zeros() == [] + Zeros();
    }

    /** `ai_hal_allocation_trace_insert_largest` */
    method InsertLargest(record: Record)
      requires largest.Length == CAPACITY
      modifies largest
      ensures largest[..] == if record.size == 0 then old(largest[..])
                             else InsertDesc(old(largest[..]), record)[..CAPACITY]
    {
      if record.size == 0 {
        return;
      }
      ghost var before := largest[..];
      var insertAt := CAPACITY;
      for i := 0 to CAPACITY
        invariant insertAt == CAPACITY
        invariant forall j :: 0 <= j < i ==> record.size <= largest[j].size
      {
        if record.size > largest[i].size {
          insertAt := i;
          break;
        }
      }
      InsertDescAt(before, record, insertAt);
      if insertAt == CAPACITY {
        return;
      }
      var i := CAPACITY - 1;
      while i > insertAt
        invariant insertAt <= i < CAPACITY
        invariant forall j :: 0 <= j <= i ==> largest[j] == before[j]
        invariant forall j :: i < j < CAPACITY ==> largest[j] == before[j - 1]
      {
        largest[i] := largest[i - 1];
        i := i - 1;
      }
      largest[insertAt] := record;
      assert largest[..] == (before[..insertAt] + [record] + before[insertAt..])[..CAPACITY];
    }

    /** The next sequence number, in 32 bits. */
    method CountOn()
      requires sequence == |history| % U32
      modifies this`sequence
      ensures sequence == (|history| + 1) % U32
    {
      CountWraps(|history|);
      sequence := (sequence + 1) % U32;
    }

    /** `rrtos_iree_hal_allocation_trace_record` */
    method RecordAllocation(size: nat, details: Details)
      requires Valid()
      modifies this, largest
      ensures Valid()
      ensures history == old(history) + [Record(size, details, (|old(history)| + 1) % U32)]
    {
      CountOn();
      var record := Record(size, details, sequence);
      TracksNext(largest[..], peakEvent, history, record);
      InsertLargest(record);
      if record.size >= peakEvent.size {
        peakEvent := record;
      }
      history := history + [record];
    }
  }
}
