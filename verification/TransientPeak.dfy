/**
  The scheduled transient peak (`_peak_live_transient_bytes` of extract_iree_hal_schedule.py): the
  most bytes that are allocated and not yet deallocated at one time.
 */
module TransientPeak {
  import opened Basics
  import opened Extract

  /** A stream line: `alloca`, `dealloca`, or anything else. */
  datatype Event = Allocate(ref: string) | Deallocate(ref: string) | OtherLine

  predicate IsTransient(buffers: Buffers, ref: string) {
    ref in buffers && buffers[ref].lifetime == Transient
  }

  /** Before event `n`, `ref` has been allocated and not deallocated since. */
  ghost predicate IsLive(events: seq<Event>, ref: string, n: nat)
    requires n <= |events|
  {
    exists i :: 0 <= i < n && events[i] == Allocate(ref) && NotFreed(events, ref, i, n)
  }

  ghost predicate NotFreed(events: seq<Event>, ref: string, from: nat, to: nat)
    requires to <= |events|
  {
    forall j :: from <= j < to ==> events[j] != Deallocate(ref)
  }

  /** The live transients before event `n`. */
  ghost function LiveSet(events: seq<Event>, buffers: Buffers, n: nat): set<string>
    requires n <= |events|
  {
    set ref | ref in buffers && IsTransient(buffers, ref) && IsLive(events, ref, n)
  }

  /** The bytes of a set of buffers. */
  ghost function TotalBytes(names: set<string>, buffers: Buffers): int
    requires names <= buffers.Keys
  {
    if names == {} then 0
    else
      var name :| name in names;
      buffers[name].size + TotalBytes(names - {name}, buffers)
  }

  /** Any member may be counted first. */
  lemma {:induction false} TotalBytesWithout(names: set<string>, buffers: Buffers, name: string)
    requires names <= buffers.Keys && name in names
    ensures TotalBytes(names, buffers) == buffers[name].size + TotalBytes(names - {name}, buffers)
    decreases |names|
  {
    var first :| first in names && TotalBytes(names, buffers)
                                   == buffers[first].size + TotalBytes(names - {first}, buffers);
    if first != name {
      TotalBytesWithout(names - {first}, buffers, name);
      TotalBytesWithout(names - {name}, buffers, first);
      assert names - {first} - {name} == names - {name} - {first};
    }
  }

  lemma {:induction false} SmallerTotal(small: set<string>, large: set<string>, buffers: Buffers)
    requires small <= large <= buffers.Keys
    requires forall name :: name in large ==> buffers[name].size >= 0
    ensures TotalBytes(small, buffers) <= TotalBytes(large, buffers)
    decreases |large|
  {
    if small != large {
      var name :| name in large && name !in small;
      TotalBytesWithout(large, buffers, name);
      SmallerTotal(small, large - {name}, buffers);
    }
  }

  ghost function LiveBytes(events: seq<Event>, buffers: Buffers, n: nat): int
    requires n <= |events|
  {
    TotalBytes(LiveSet(events, buffers, n), buffers)
  }

  /** How one event changes who is live. */
  lemma LiveStep(events: seq<Event>, ref: string, n: nat)
    requires n < |events|
    ensures IsLive(events, ref, n + 1) <==>
            events[n] == Allocate(ref) || (IsLive(events, ref, n) && events[n] != Deallocate(ref))
  {
    if IsLive(events, ref, n) && events[n] != Deallocate(ref) {
      var i :| 0 <= i < n && events[i] == Allocate(ref) && NotFreed(events, ref, i, n);
      assert NotFreed(events, ref, i, n + 1);
    }
    if events[n] == Allocate(ref) {
      assert NotFreed(events, ref, n, n + 1);
    }
    if IsLive(events, ref, n + 1) && events[n] != Allocate(ref) {
      var i :| 0 <= i < n + 1 && events[i] == Allocate(ref) && NotFreed(events, ref, i, n + 1);
      assert NotFreed(events, ref, i, n);
    }
  }

  lemma LiveSetStep(events: seq<Event>, buffers: Buffers, n: nat)
    requires n < |events|
    ensures
      var before, after := LiveSet(events, buffers, n), LiveSet(events, buffers, n + 1);
      match events[n]
      case Allocate(ref) => after == if IsTransient(buffers, ref) then before + {ref} else before
      case Deallocate(ref) => after == before - {ref}
      case OtherLine => after == before
  {
    forall ref
      ensures IsLive(events, ref, n + 1) <==>
              events[n] == Allocate(ref) || (IsLive(events, ref, n) && events[n] != Deallocate(ref))
    {
      LiveStep(events, ref, n);
    }
  }

  /** One transient has a negative size and another a positive one. */
  predicate HasMixedSizes(buffers: Buffers) {
    exists a, b :: a in buffers && b in buffers && IsMixedPair(buffers, a, b)
  }

  predicate IsMixedPair(buffers: Buffers, a: string, b: string) {
    IsTransient(buffers, a) && IsTransient(buffers, b) && buffers[a].size < 0 < buffers[b].size
  }

  /** Whatever the lines are, the live bytes never exceed the peak, at any of them. */
  ghost predicate PeakAlwaysBounds(buffers: Buffers) {
    forall events, peak, n: nat :: n <= |events| && IsPeak(events, buffers, |events|, peak) ==>
      LiveBytes(events, buffers, n) <= peak
  }

  /** Event `m - 1` made a transient live. */
  ghost predicate JustGrew(events: seq<Event>, buffers: Buffers, m: nat)
    requires m <= |events|
  {
    m > 0 && LiveSet(events, buffers, m - 1) < LiveSet(events, buffers, m)
  }

  ghost predicate ReachedAt(events: seq<Event>, buffers: Buffers, m: nat, peak: int)
    requires m <= |events|
  {
    (m == 0 || JustGrew(events, buffers, m)) && LiveBytes(events, buffers, m) == peak
  }

  ghost predicate BoundedAt(events: seq<Event>, buffers: Buffers, m: nat, peak: int)
    requires m <= |events|
  {
    m == 0 || JustGrew(events, buffers, m) ==> LiveBytes(events, buffers, m) <= peak
  }

  /** The peak is the largest of the live bytes at the start and whenever a transient has just become live. */
  ghost predicate IsPeak(events: seq<Event>, buffers: Buffers, n: nat, peak: int)
    requires n <= |events|
  {
    && (exists m :: 0 <= m <= n && ReachedAt(events, buffers, m, peak))
    && forall m {:trigger BoundedAt(events, buffers, m, peak)} :: 0 <= m <= n ==> BoundedAt(events, buffers, m, peak)
  }

  lemma BoundedByLarger(events: seq<Event>, buffers: Buffers, m: nat, peak: int, larger: int)
    requires m <= |events| && BoundedAt(events, buffers, m, peak) && peak <= larger
    ensures BoundedAt(events, buffers, m, larger)
  {
  }

  lemma BoundedByItself(events: seq<Event>, buffers: Buffers, m: nat, peak: int)
    requires m <= |events| && LiveBytes(events, buffers, m) <= peak
    ensures BoundedAt(events, buffers, m, peak)
  {
  }

  lemma BoundedUnlessGrown(events: seq<Event>, buffers: Buffers, m: nat, peak: int)
    requires 0 < m <= |events| && !JustGrew(events, buffers, m)
    ensures BoundedAt(events, buffers, m, peak)
  {
  }

  lemma ReachedByItself(events: seq<Event>, buffers: Buffers, m: nat)
    requires m <= |events| && JustGrew(events, buffers, m)
    ensures ReachedAt(events, buffers, m, LiveBytes(events, buffers, m))
  {
  }

  /** Bounded so far, and at the next event. */
  lemma BoundedNext(events: seq<Event>, buffers: Buffers, n: nat, peak: int, larger: int)
    requires n < |events| && peak <= larger && LiveBytes(events, buffers, n + 1) <= larger
    requires forall m {:trigger BoundedAt(events, buffers, m, peak)} :: 0 <= m <= n ==>
               BoundedAt(events, buffers, m, peak)
    ensures forall m {:trigger BoundedAt(events, buffers, m, larger)} :: 0 <= m <= n + 1 ==>
              BoundedAt(events, buffers, m, larger)
  {
    forall m | 0 <= m <= n + 1
      ensures BoundedAt(events, buffers, m, larger)
    {
      if m <= n {
        BoundedByLarger(events, buffers, m, peak, larger);
      } else {
        BoundedByItself(events, buffers, m, larger);
      }
    }
  }

  lemma PeakGrows(events: seq<Event>, buffers: Buffers, n: nat, peak: int)
    requires n < |events| && IsPeak(events, buffers, n, peak) && JustGrew(events, buffers, n + 1)
    ensures IsPeak(events, buffers, n + 1, Max(peak, LiveBytes(events, buffers, n + 1)))
  {
    var larger := Max(peak, LiveBytes(events, buffers, n + 1));
    ReachedByItself(events, buffers, n + 1);
    var m :| 0 <= m <= n && ReachedAt(events, buffers, m, peak);
    var at := if larger == peak then m else n + 1;
    assert 0 <= at <= n + 1 && ReachedAt(events, buffers, at, larger);
    BoundedNext(events, buffers, n, peak, larger);
  }

  lemma PeakStays(events: seq<Event>, buffers: Buffers, n: nat, peak: int)
    requires n < |events| && IsPeak(events, buffers, n, peak) && !JustGrew(events, buffers, n + 1)
    ensures IsPeak(events, buffers, n + 1, peak)
  {
    var m :| 0 <= m <= n && ReachedAt(events, buffers, m, peak);
    assert 0 <= m <= n + 1 && ReachedAt(events, buffers, m, peak);
    forall m | 0 <= m <= n + 1
      ensures BoundedAt(events, buffers, m, peak)
    {
      if m == n + 1 {
        BoundedUnlessGrown(events, buffers, m, peak);
      }
    }
  }

  /** One event of the loop. */
  method Count(events: seq<Event>, buffers: Buffers, n: nat, active: set<string>, liveBytes: int, peak: int)
    returns (nowActive: set<string>, nowLive: int, nowPeak: int)
    requires n < |events| && active == LiveSet(events, buffers, n)
    requires liveBytes == LiveBytes(events, buffers, n) && IsPeak(events, buffers, n, peak)
    ensures nowActive == LiveSet(events, buffers, n + 1)
    ensures nowLive == LiveBytes(events, buffers, n + 1) && IsPeak(events, buffers, n + 1, nowPeak)
  {
    LiveSetStep(events, buffers, n);
    nowActive, nowLive, nowPeak := active, liveBytes, peak;
    if events[n].Allocate? && IsTransient(buffers, events[n].ref) && events[n].ref !in active {
      var ref := events[n].ref;
      nowActive := active + {ref};
      TotalBytesWithout(nowActive, buffers, ref);
      assert nowActive - {ref} == active;
      nowLive := liveBytes + buffers[ref].size;
      nowPeak := Max(peak, nowLive);
      PeakGrows(events, buffers, n, peak);
    } else {
      if events[n].Deallocate? && events[n].ref in active {
        nowActive := active - {events[n].ref};
        TotalBytesWithout(active, buffers, events[n].ref);
        nowLive := liveBytes - buffers[events[n].ref].size;
      }
      assert nowActive == LiveSet(events, buffers, n + 1);
      PeakStays(events, buffers, n, peak);
    }
  }

  lemma NothingLiveAtFirst(events: seq<Event>, buffers: Buffers)
    ensures LiveSet(events, buffers, 0) == {} && LiveBytes(events, buffers, 0) == 0
    ensures IsPeak(events, buffers, 0, 0)
  {
    assert ReachedAt(events, buffers, 0, 0);
  }

  lemma {:induction false} NoPositiveTotal(names: set<string>, buffers: Buffers)
    requires names <= buffers.Keys && forall name :: name in names ==> buffers[name].size <= 0
    ensures TotalBytes(names, buffers) <= 0
    decreases |names|
  {
    if names != {} {
      var name :| name in names;
      TotalBytesWithout(names, buffers, name);
      NoPositiveTotal(names - {name}, buffers);
    }
  }

  predicate SizesNonNegative(buffers: Buffers) {
    forall ref :: ref in buffers && IsTransient(buffers, ref) ==> buffers[ref].size >= 0
  }

  lemma {:induction false} NonNegativeIsBounded(events: seq<Event>, buffers: Buffers, peak: int, n: nat)
    requires IsPeak(events, buffers, |events|, peak) && SizesNonNegative(buffers) && n <= |events|
    ensures LiveBytes(events, buffers, n) <= peak
  {
    if n == 0 {
      BoundedWhereGrown(events, buffers, 0, peak);
    } else {
      NonNegativeIsBounded(events, buffers, peak, n - 1);
      StaysBounded(events, buffers, n - 1, peak);
    }
  }

  lemma StaysBounded(events: seq<Event>, buffers: Buffers, n: nat, peak: int)
    requires n < |events| && IsPeak(events, buffers, |events|, peak) && SizesNonNegative(buffers)
    requires LiveBytes(events, buffers, n) <= peak
    ensures LiveBytes(events, buffers, n + 1) <= peak
  {
    if JustGrew(events, buffers, n + 1) {
      BoundedWhereGrown(events, buffers, n + 1, peak);
    } else {
      NotGrown(events, buffers, n);
    }
  }

  lemma BoundedWhereGrown(events: seq<Event>, buffers: Buffers, n: nat, peak: int)
    requires n <= |events| && IsPeak(events, buffers, |events|, peak) && (n == 0 || JustGrew(events, buffers, n))
    ensures LiveBytes(events, buffers, n) <= peak
  {
    assert BoundedAt(events, buffers, n, peak);
  }

  /** Without negative sizes the live bytes grow only when a transient becomes live. */
  lemma NotGrown(events: seq<Event>, buffers: Buffers, n: nat)
    requires n < |events| && SizesNonNegative(buffers) && !JustGrew(events, buffers, n + 1)
    ensures LiveBytes(events, buffers, n + 1) <= LiveBytes(events, buffers, n)
  {
    var before, after := LiveSet(events, buffers, n), LiveSet(events, buffers, n + 1);
    LiveSetStep(events, buffers, n);
    assert after <= before;
    SmallerTotal(after, before, buffers);
  }

  predicate SizesNonPositive(buffers: Buffers) {
    forall ref :: ref in buffers && IsTransient(buffers, ref) ==> buffers[ref].size <= 0
  }

  lemma NonPositiveIsBounded(events: seq<Event>, buffers: Buffers, peak: int, n: nat)
    requires IsPeak(events, buffers, |events|, peak) && SizesNonPositive(buffers) && n <= |events|
    ensures LiveBytes(events, buffers, n) <= peak
  {
    assert BoundedAt(events, buffers, 0, peak);
    NothingLiveAtFirst(events, buffers);
    NoPositiveTotal(LiveSet(events, buffers, n), buffers);
  }

  lemma UnmixedSizes(buffers: Buffers)
    requires !HasMixedSizes(buffers)
    ensures SizesNonNegative(buffers) || SizesNonPositive(buffers)
  {
    if !SizesNonNegative(buffers) {
      var a :| a in buffers && IsTransient(buffers, a) && buffers[a].size < 0;
      forall b | b in buffers && IsTransient(buffers, b)
        ensures buffers[b].size <= 0
      {
        assert !IsMixedPair(buffers, a, b);
      }
    }
  }

  /** Without sizes of both signs, the peak bounds the live bytes at all times. */
  lemma PeakBoundsLiveBytes(events: seq<Event>, buffers: Buffers, peak: int, n: nat)
    requires IsPeak(events, buffers, |events|, peak) && !HasMixedSizes(buffers) && n <= |events|
    ensures LiveBytes(events, buffers, n) <= peak
  {
    UnmixedSizes(buffers);
    if SizesNonNegative(buffers) {
      NonNegativeIsBounded(events, buffers, peak, n);
    } else {
      NonPositiveIsBounded(events, buffers, peak, n);
    }
  }

  /** Both allocated, then the first freed. */
  function HidingEvents(a: string, b: string): seq<Event> {
    [Allocate(a), Allocate(b), Deallocate(a)]
  }

  lemma HidingSets(buffers: Buffers, a: string, b: string)
    requires IsMixedPair(buffers, a, b)
    ensures LiveSet(HidingEvents(a, b), buffers, 1) == {a}
    ensures LiveSet(HidingEvents(a, b), buffers, 2) == {a, b}
    ensures LiveSet(HidingEvents(a, b), buffers, 3) == {b}
  {
    var events := HidingEvents(a, b);
    NothingLiveAtFirst(events, buffers);
    LiveSetStep(events, buffers, 0);
    LiveSetStep(events, buffers, 1);
    LiveSetStep(events, buffers, 2);
    assert {a, b} - {a} == {b};
  }

  lemma {:induction false} HidingBytes(buffers: Buffers, a: string, b: string)
    requires IsMixedPair(buffers, a, b)
    ensures TotalBytes({a}, buffers) == buffers[a].size
    ensures TotalBytes({b}, buffers) == buffers[b].size
    ensures TotalBytes({a, b}, buffers) == buffers[a].size + buffers[b].size
  {
    TotalBytesWithout({a}, buffers, a);
    TotalBytesWithout({b}, buffers, b);
    TotalBytesWithout({a, b}, buffers, a);
    assert {a} - {a} == {} && {b} - {b} == {} && {a, b} - {a} == {b};
  }

  /** A negative size hides a peak from any positive one: freeing it raises the live bytes unseen. */
  lemma NegativeSizeHidesThePeak(buffers: Buffers, a: string, b: string) returns (peak: int)
    requires IsMixedPair(buffers, a, b)
    ensures IsPeak(HidingEvents(a, b), buffers, 3, peak)
    ensures LiveBytes(HidingEvents(a, b), buffers, 3) == buffers[b].size > peak
  {
    var events := HidingEvents(a, b);
    HidingSets(buffers, a, b);
    HidingBytes(buffers, a, b);
    NothingLiveAtFirst(events, buffers);
    PeakGrows(events, buffers, 0, 0);
    PeakGrows(events, buffers, 1, 0);
    peak := Max(0, buffers[a].size + buffers[b].size);
    PeakStays(events, buffers, 2, peak);
  }

  /** The peak is right for every list of lines exactly when the sizes do not have both signs. */
  lemma PeakBoundsExactly(buffers: Buffers)
    ensures PeakAlwaysBounds(buffers) <==> !HasMixedSizes(buffers)
  {
    if a, b :| a in buffers && b in buffers && IsMixedPair(buffers, a, b) {
      var peak := NegativeSizeHidesThePeak(buffers, a, b);
      assert |HidingEvents(a, b)| == 3;
      assert !(LiveBytes(HidingEvents(a, b), buffers, 3) <= peak);
    } else {
      forall events, peak, n: nat | n <= |events| && IsPeak(events, buffers, |events|, peak)
        ensures LiveBytes(events, buffers, n) <= peak
      {
        PeakBoundsLiveBytes(events, buffers, peak, n);
      }
    }
  }

  /** `_peak_live_transient_bytes` */
  method PeakLiveTransientBytes(events: seq<Event>, buffers: Buffers) returns (peak: int)
    ensures IsPeak(events, buffers, |events|, peak)
    ensures !HasMixedSizes(buffers) ==> forall n :: 0 <= n <= |events| ==> LiveBytes(events, buffers, n) <= peak
  {
    var active: set<string>, liveBytes := {}, 0;
    peak := 0;
    NothingLiveAtFirst(events, buffers);
    for n := 0 to |events|
      invariant active == LiveSet(events, buffers, n) && liveBytes == LiveBytes(events, buffers, n)
      invariant IsPeak(events, buffers, n, peak)
    {
      active, liveBytes, peak := Count(events, buffers, n, active, liveBytes, peak);
    }
    if !HasMixedSizes(buffers) {
      forall n | 0 <= n <= |events|
        ensures LiveBytes(events, buffers, n) <= peak
      {
        PeakBoundsLiveBytes(events, buffers, peak, n);
      }
    }
  }
}
