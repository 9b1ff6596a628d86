/**
  Whole runs on two stores in lock step: works on separate buffers, and the same works relocated to
  homes in packed regions. A home belongs to its buffer during a span of the run; homes may coincide
  when their spans do not meet.
 */
module Lockstep {
  import opened Basics
  import opened Placement
  import opened Schedule
  import opened Machine
  import opened Simulation

  /** When a buffer has its home: always, from before a first to after a last work, or never. */
  datatype Span = Always | During(interval: Interval) | Never

  /** Work `t` may touch the buffer. */
  predicate LiveIn(span: Span, t: nat) {
    match span
    case Always => true
    case During(interval) => interval.start <= t < interval.end
    case Never => false
  }

  /** Before work `t` the home holds the bytes of the buffer. */
  predicate HeldIn(span: Span, t: nat) {
    match span
    case Always => true
    case During(interval) => interval.start <= t <= interval.end
    case Never => false
  }

  /** The first use is still to come. */
  predicate PendingIn(span: Span, t: nat) {
    span.During? && t < span.interval.start
  }

  datatype Layout = Layout(
    ids: seq<string>, homes: seq<View<BufferClass>>, spans: seq<Span>,
    references: seq<Work<string>>, placed: seq<Work<BufferClass>>)
  {
    predicate IsIndex(i: int) {
      0 <= i < |ids|
    }

    ghost predicate Shaped() {
      && |ids| == |homes| == |spans| && |references| == |placed|
      && forall i, j :: 0 <= i < j < |ids| ==> ids[i] != ids[j]
    }
  }

  /** The homes of the buffers work `t` may touch. */
  ghost function LiveHomes(x: Layout, t: nat): Homes
    requires x.Shaped()
  {
    map i | 0 <= i < |x.ids| && LiveIn(x.spans[i], t) :: x.ids[i] := x.homes[i]
  }

  lemma LiveHomeAt(x: Layout, t: nat, i: nat)
    requires x.Shaped() && x.IsIndex(i)
    ensures x.ids[i] in LiveHomes(x, t) <==> LiveIn(x.spans[i], t)
    ensures LiveIn(x.spans[i], t) ==> LiveHomes(x, t)[x.ids[i]] == x.homes[i]
  {
  }

  lemma LiveHomeIndex(x: Layout, t: nat, a: string) returns (i: nat)
    requires x.Shaped() && a in LiveHomes(x, t)
    ensures x.IsIndex(i) && x.ids[i] == a && LiveIn(x.spans[i], t) && LiveHomes(x, t)[a] == x.homes[i]
  {
    i :| 0 <= i < |x.ids| && LiveIn(x.spans[i], t) && x.ids[i] == a;
    LiveHomeAt(x, t, i);
  }

  /** Homes that belong to their buffers at one time do not meet. */
  ghost predicate HomesApart(x: Layout, i: nat, j: nat)
    requires x.Shaped() && x.IsIndex(i) && x.IsIndex(j)
  {
    (exists t: nat :: LiveIn(x.spans[i], t) && LiveIn(x.spans[j], t)) ==> Disjoint(x.homes[i], x.homes[j])
  }

  /** Work `k` is the reference work relocated to homes that are live at `k`. */
  ghost predicate Relocated(x: Layout, k: nat)
    requires x.Shaped() && k < |x.placed|
  {
    WorkSettled(x.references[k], LiveHomes(x, k)) && x.placed[k] == RelocateWork(x.references[k], LiveHomes(x, k))
  }

  ghost predicate SpanFits(x: Layout, i: nat)
    requires x.Shaped() && x.IsIndex(i)
  {
    x.spans[i].During? ==> x.spans[i].interval.start < x.spans[i].interval.end <= |x.placed|
  }

  ghost predicate ValidLayout(x: Layout) {
    && x.Shaped()
    && (forall i {:trigger SpanFits(x, i)} :: x.IsIndex(i) ==> SpanFits(x, i))
    && (forall i, j {:trigger HomesApart(x, i, j)} :: x.IsIndex(i) && x.IsIndex(j) && i < j ==> HomesApart(x, i, j))
    && forall k {:trigger Relocated(x, k)} :: 0 <= k < |x.placed| ==> Relocated(x, k)
  }

  lemma LiveHomesAreApart(x: Layout, t: nat)
    requires ValidLayout(x)
    ensures Apart(LiveHomes(x, t))
  {
    forall a, b | a in LiveHomes(x, t) && b in LiveHomes(x, t) && a != b
      ensures Disjoint(LiveHomes(x, t)[a], LiveHomes(x, t)[b])
    {
      var i := LiveHomeIndex(x, t, a);
      var j := LiveHomeIndex(x, t, b);
      if i < j {
        assert HomesApart(x, i, j);
      } else {
        assert HomesApart(x, j, i);
      }
    }
  }

  // ---------- the two runs ----------

  /** A layout about to be run by `library` on the regions `packed`. */
  datatype Run = Run(x: Layout, library: Library, packed: Store<BufferClass>) {
    ghost predicate Valid() {
      && ValidLayout(x) && ValidLibrary(library)
      && forall i {:trigger HomeFits(i)} :: x.IsIndex(i) ==> HomeFits(i)
    }

    /** Every home that is ever used lies in its region. */
    ghost predicate HomeFits(i: nat)
      requires x.Shaped() && x.IsIndex(i)
    {
      x.spans[i] != Never ==> ViewFits(x.homes[i], packed)
    }
  }

  /** The packed run before work `k`. */
  ghost function PackedAt(r: Run, k: nat): (p: (Status, Store<BufferClass>))
    requires r.Valid() && k <= |r.x.placed|
    ensures SameShape(r.packed, p.1)
  {
    Replay(r.library, r.x.placed[..k], r.packed)
  }

  /** The bytes found at a home. */
  ghost function BytesAt(home: View<BufferClass>, packed: Store<BufferClass>): (bytes: seq<Byte>)
    requires ViewFits(home, packed)
    ensures |bytes| == home.length && Agrees(home, packed, bytes)
  {
    packed[home.key][home.offset..home.offset + home.length]
  }

  /**
    The first contents of a reference buffer: what is at its home at the start, or, with a span, when
    it is first used.
   */
  ghost function InitialBytes(r: Run, i: nat): (bytes: seq<Byte>)
    requires r.Valid() && r.x.IsIndex(i)
    ensures |bytes| == r.x.homes[i].length
  {
    assert r.HomeFits(i) && SpanFits(r.x, i);
    match r.x.spans[i]
    case Always => BytesAt(r.x.homes[i], r.packed)
    case During(interval) => BytesAt(r.x.homes[i], PackedAt(r, interval.start).1)
    case Never => seq(r.x.homes[i].length, _ => 0)
  }

  ghost function BufferMap(ids: seq<string>, contents: seq<seq<Byte>>): Store<string>
    requires |contents| == |ids| && forall i, j :: 0 <= i < j < |ids| ==> ids[i] != ids[j]
  {
    map i | 0 <= i < |ids| :: ids[i] := contents[i]
  }

  lemma BufferMapAt(ids: seq<string>, contents: seq<seq<Byte>>, i: nat)
    requires |contents| == |ids| && (forall i, j :: 0 <= i < j < |ids| ==> ids[i] != ids[j]) && i < |ids|
    ensures ids[i] in BufferMap(ids, contents) && BufferMap(ids, contents)[ids[i]] == contents[i]
  {
  }

  lemma BufferMapIndex(ids: seq<string>, contents: seq<seq<Byte>>, a: string) returns (i: nat)
    requires |contents| == |ids| && (forall i, j :: 0 <= i < j < |ids| ==> ids[i] != ids[j])
    requires a in BufferMap(ids, contents)
    ensures i < |ids| && ids[i] == a
  {
    i :| 0 <= i < |ids| && ids[i] == a;
  }

  ghost function Contents(r: Run): (contents: seq<seq<Byte>>)
    requires r.Valid()
    ensures |contents| == |r.x.ids|
  {
    seq(|r.x.ids|, i requires r.x.IsIndex(i) => InitialBytes(r, i))
  }

  ghost function ReferenceStart(r: Run): Store<string>
    requires r.Valid()
  {
    BufferMap(r.x.ids, Contents(r))
  }

  lemma ReferenceStartAt(r: Run, i: nat)
    requires r.Valid() && r.x.IsIndex(i)
    ensures r.x.ids[i] in ReferenceStart(r) && ReferenceStart(r)[r.x.ids[i]] == InitialBytes(r, i)
  {
    BufferMapAt(r.x.ids, Contents(r), i);
  }

  /** The reference run before work `k`. */
  ghost function ReferenceAt(r: Run, k: nat): (p: (Status, Store<string>))
    requires r.Valid() && k <= |r.x.placed|
    ensures SameShape(ReferenceStart(r), p.1)
  {
    Replay(r.library, r.x.references[..k], ReferenceStart(r))
  }

  /** Buffer `i` has the same bytes in both runs before work `k`. */
  ghost predicate SameBytes(r: Run, k: nat, i: nat)
    requires r.Valid() && k <= |r.x.placed| && r.x.IsIndex(i)
  {
    && r.x.ids[i] in ReferenceAt(r, k).1
    && Agrees(r.x.homes[i], PackedAt(r, k).1, ReferenceAt(r, k).1[r.x.ids[i]])
  }

  /** Buffer `i` still has its first contents in the reference run. */
  ghost predicate Untouched(r: Run, k: nat, i: nat)
    requires r.Valid() && k <= |r.x.placed| && r.x.IsIndex(i)
  {
    r.x.ids[i] in ReferenceAt(r, k).1 && ReferenceAt(r, k).1[r.x.ids[i]] == InitialBytes(r, i)
  }

  /** The same status; permanent buffers agree, and, unless a work has failed, so do held ones. */
  ghost predicate InStep(r: Run, k: nat)
    requires r.Valid() && k <= |r.x.placed|
  {
    && PackedAt(r, k).0 == ReferenceAt(r, k).0 && PackedAt(r, k).0 != InvalidSlice
    && (forall i {:trigger SameBytes(r, k, i)} :: r.x.IsIndex(i) && r.x.spans[i] == Always ==> SameBytes(r, k, i))
    && (PackedAt(r, k).0 == OK ==>
          && (forall i {:trigger SameBytes(r, k, i)} ::
                r.x.IsIndex(i) && HeldIn(r.x.spans[i], k) ==> SameBytes(r, k, i))
          && (forall i {:trigger Untouched(r, k, i)} ::
                r.x.IsIndex(i) && PendingIn(r.x.spans[i], k) ==> Untouched(r, k, i)))
  }

  // ---------- one step ----------

  lemma RunsAtStart(r: Run)
    requires r.Valid()
    ensures PackedAt(r, 0) == (OK, r.packed) && ReferenceAt(r, 0) == (OK, ReferenceStart(r))
  {
    assert r.x.placed[..0] == [] && r.x.references[..0] == [];
  }

  lemma StartsInStep(r: Run)
    requires r.Valid()
    ensures InStep(r, 0)
  {
    RunsAtStart(r);
    forall i | r.x.IsIndex(i)
      ensures Untouched(r, 0, i)
      ensures HeldIn(r.x.spans[i], 0) ==> SameBytes(r, 0, i)
    {
      ReferenceStartAt(r, i);
      assert r.HomeFits(i) && SpanFits(r.x, i);
    }
  }

  /** Before work `k` the live buffers are linked. */
  lemma LiveIsLinked(r: Run, k: nat)
    requires r.Valid() && k < |r.x.placed| && InStep(r, k) && PackedAt(r, k).0 == OK
    ensures Linked(LiveHomes(r.x, k), PackedAt(r, k).1, ReferenceAt(r, k).1)
  {
    forall a | a in LiveHomes(r.x, k)
      ensures a in ReferenceAt(r, k).1 && Agrees(LiveHomes(r.x, k)[a], PackedAt(r, k).1, ReferenceAt(r, k).1[a])
    {
      var i := LiveHomeIndex(r.x, k, a);
      assert SameBytes(r, k, i);
    }
  }

  /** What one work does to both runs. */
  lemma WorkStep(r: Run, k: nat)
    requires r.Valid() && k < |r.x.placed| && InStep(r, k) && PackedAt(r, k).0 == OK
    ensures PackedAt(r, k + 1).0 == ReferenceAt(r, k + 1).0 && PackedAt(r, k + 1).0 != InvalidSlice
    ensures Linked(LiveHomes(r.x, k), PackedAt(r, k + 1).1, ReferenceAt(r, k + 1).1)
    ensures OthersKept(LiveHomes(r.x, k), ReferenceAt(r, k).1, ReferenceAt(r, k + 1).1)
  {
    ReplayExtends(r.library, r.x.placed, k, r.packed);
    ReplayExtends(r.library, r.x.references, k, ReferenceStart(r));
    assert Relocated(r.x, k);
    LiveIsLinked(r, k);
    LiveHomesAreApart(r.x, k);
    IssueStaysLinked(r.library, r.x.references[k], LiveHomes(r.x, k), PackedAt(r, k).1, ReferenceAt(r, k).1);
  }

  lemma LinkedGivesSameBytes(r: Run, k: nat, i: nat)
    requires r.Valid() && k < |r.x.placed| && r.x.IsIndex(i) && LiveIn(r.x.spans[i], k)
    requires Linked(LiveHomes(r.x, k), PackedAt(r, k + 1).1, ReferenceAt(r, k + 1).1)
    ensures SameBytes(r, k + 1, i)
  {
    LiveHomeAt(r.x, k, i);
    assert r.x.ids[i] in LiveHomes(r.x, k);
  }

  lemma PendingStaysUntouched(r: Run, k: nat, i: nat)
    requires r.Valid() && k < |r.x.placed| && r.x.IsIndex(i) && PendingIn(r.x.spans[i], k)
    requires OthersKept(LiveHomes(r.x, k), ReferenceAt(r, k).1, ReferenceAt(r, k + 1).1)
    requires Untouched(r, k, i)
    ensures Untouched(r, k + 1, i)
  {
    LiveHomeAt(r.x, k, i);
  }

  lemma FirstUseAgrees(r: Run, k: nat, i: nat)
    requires r.Valid() && k <= |r.x.placed| && r.x.IsIndex(i)
    requires r.x.spans[i].During? && r.x.spans[i].interval.start == k && Untouched(r, k, i)
    ensures SameBytes(r, k, i)
  {
    assert r.HomeFits(i) && SpanFits(r.x, i);
  }

  lemma StepFromOk(r: Run, k: nat)
    requires r.Valid() && k < |r.x.placed| && InStep(r, k) && PackedAt(r, k).0 == OK
    ensures InStep(r, k + 1)
  {
    WorkStep(r, k);
    forall i | r.x.IsIndex(i) && PendingIn(r.x.spans[i], k)
      ensures Untouched(r, k + 1, i)
    {
      assert Untouched(r, k, i);
      PendingStaysUntouched(r, k, i);
    }
    forall i | r.x.IsIndex(i) && HeldIn(r.x.spans[i], k + 1)
      ensures SameBytes(r, k + 1, i)
    {
      if LiveIn(r.x.spans[i], k) {
        LinkedGivesSameBytes(r, k, i);
      } else {
        FirstUseAgrees(r, k + 1, i);
      }
    }
  }

  /** A failed run stays as it is. */
  lemma StepFromFailure(r: Run, k: nat)
    requires r.Valid() && k < |r.x.placed| && InStep(r, k) && PackedAt(r, k).0 != OK
    ensures InStep(r, k + 1)
  {
    ReplayExtends(r.library, r.x.placed, k, r.packed);
    ReplayExtends(r.library, r.x.references, k, ReferenceStart(r));
    forall i | r.x.IsIndex(i) && r.x.spans[i] == Always
      ensures SameBytes(r, k + 1, i)
    {
      assert SameBytes(r, k, i);
    }
  }

  lemma StaysInStep(r: Run, k: nat)
    requires r.Valid() && k < |r.x.placed| && InStep(r, k)
    ensures InStep(r, k + 1)
  {
    if PackedAt(r, k).0 == OK {
      StepFromOk(r, k);
    } else {
      StepFromFailure(r, k);
    }
  }

  lemma {:induction false} AlwaysInStep(r: Run, k: nat)
    requires r.Valid() && k <= |r.x.placed|
    ensures InStep(r, k)
  {
    if k == 0 {
      StartsInStep(r);
    } else {
      AlwaysInStep(r, k - 1);
      StaysInStep(r, k - 1);
    }
  }
}
