/**
  Bindings of an extracted schedule (extract_iree_hal_schedule.py): chains of subspans, aliases and
  indirect slots are flattened to a root buffer and an offset, and external buffers grow to what
  is used of them.
 */
module Extract {
  import opened Basics
  import opened CfgLinearise
  import opened Schedule
  import V = ScheduleVerifier

  datatype Token = Number(value: int) | Name(name: string)

  datatype Failure =
    | UnresolvedValue(name: string) | ExceedsAllocation(name: string) | UnknownBinding(name: string)
    | CyclicSubspan(name: string) | SlotOffsetExceeded(name: string)
    | NegativeRange(name: string) | ExceedsSlot(name: string) | BadWorkgroups

  type Values = map<string, int>

  datatype Lifetime = Transient | External

  datatype Buffer = Buffer(size: int, lifetime: Lifetime)

  type Buffers = map<string, Buffer>

  datatype Subspan = Subspan(base: string, offset: int, length: int)

  type Subspans = map<string, Subspan>

  datatype Slot = Slot(base: string, offset: int, length: int)

  /** `_eval_index` */
  function EvalIndex(token: Token, values: Values): Result<int, Failure> {
    match token
    case Number(v) => Ok(v)
    case Name(n) => if n in values then Ok(values[n]) else Err(UnresolvedValue(n))
  }

  // ---------- growing buffers ----------

  /** Buffers are only added or enlarged; transients keep their size. */
  ghost predicate Grows(before: Buffers, after: Buffers) {
    forall ref :: ref in before ==>
      && ref in after
      && after[ref].lifetime == before[ref].lifetime
      && before[ref].size <= after[ref].size
      && (before[ref].lifetime == Transient ==> after[ref].size == before[ref].size)
  }

  /** What is known about buffers that are not allocated here: declared ones, and constants by name. */
  datatype Externals = Externals(declared: set<string>, constantNames: set<string>)

  /** A buffer of this name may be used up to `size`: transients are fixed, externals must be known. */
  predicate Admits(buffers: Buffers, externals: Externals, ref: string, size: int) {
    if ref in buffers then buffers[ref].lifetime == Transient ==> size <= buffers[ref].size
    else ref in externals.declared || ref in externals.constantNames
  }

  function SizeOf(buffers: Buffers, ref: string): int {
    if ref in buffers then buffers[ref].size else 0
  }

  /** Exactly one buffer has become large enough. */
  ghost predicate Enlarged(before: Buffers, after: Buffers, ref: string, size: int) {
    && after.Keys == before.Keys + {ref}
    && after[ref].size == Max(SizeOf(before, ref), size)
    && after[ref].lifetime == (if ref in before then before[ref].lifetime else External)
    && forall other :: other in before && other != ref ==> after[other] == before[other]
  }

  /** `_ensure_external_allocation` */
  method EnsureExternalAllocation(ref: string, requiredSize: int, buffers: Buffers, externals: Externals)
    returns (r: Result<Buffers, Failure>)
    ensures r.Ok? <==> Admits(buffers, externals, ref, requiredSize)
    ensures r.Ok? ==> Enlarged(buffers, r.value, ref, requiredSize)
    ensures r.Err? ==> r.error == if ref in buffers then ExceedsAllocation(ref) else UnknownBinding(ref)
  {
    if ref in buffers {
      var current := buffers[ref].size;
      if buffers[ref].lifetime == Transient && requiredSize > current {
        return Err(ExceedsAllocation(ref));
      }
      return Ok(buffers[ref := buffers[ref].(size := Max(current, requiredSize))]);
    }
    if ref !in externals.declared && ref !in externals.constantNames {
      return Err(UnknownBinding(ref));
    }
    r := Ok(buffers[ref := Buffer(Max(0, requiredSize), External)]);
  }

  /** Buffers added on the way are known externals. */
  ghost predicate GrownFrom(start: Buffers, now: Buffers, externals: Externals) {
    && Grows(start, now)
    && forall ref :: ref in now && ref !in start ==>
         now[ref].lifetime == External && (ref in externals.declared || ref in externals.constantNames)
  }

  /** Growing on the way changes nothing about what is admitted: only the first table matters. */
  lemma AdmittedFromTheStart(start: Buffers, now: Buffers, externals: Externals, ref: string, size: int)
    requires GrownFrom(start, now, externals)
    ensures Admits(now, externals, ref, size) <==> Admits(start, externals, ref, size)
  {
  }

  lemma EnlargedStillGrown(
    start: Buffers, now: Buffers, after: Buffers, externals: Externals, ref: string, size: int)
    requires GrownFrom(start, now, externals)
    requires Admits(now, externals, ref, size) && Enlarged(now, after, ref, size)
    ensures GrownFrom(start, after, externals) && Grows(now, after)
  {
  }

  // ---------- flattening ----------

  /** Reference `i` of a path is a subspan whose resolved base is the next one. */
  predicate Link(path: seq<string>, i: nat, aliases: Env, subspans: Subspans)
    requires i + 1 < |path|
  {
    path[i] in subspans && path[i + 1] == Lookup(aliases, subspans[path[i]].base)
  }

  /** The references a chain of subspans passes through, each the resolved base of the one before. */
  predicate IsChain(ref: string, path: seq<string>, aliases: Env, subspans: Subspans) {
    && path != [] && path[0] == Lookup(aliases, ref)
    && forall i {:trigger Link(path, i, aliases, subspans)} :: 0 <= i < |path| - 1 ==> Link(path, i, aliases, subspans)
  }

  /** The summed offsets along a path, the last reference excluded. */
  function ChainOffset(path: seq<string>, subspans: Subspans): int {
    if |path| <= 1 then 0
    else
      var before := path[|path| - 2];
      ChainOffset(path[..|path| - 1], subspans) + if before in subspans then subspans[before].offset else 0
  }

  /** The slot a reference stands for: its value is the slot's ordinal. */
  function SlotOf(ref: string, values: Values, slots: seq<Slot>): Option<Slot> {
    if ref in values && 0 <= values[ref] < |slots| then Some(slots[values[ref]]) else None
  }

  datatype Resolved = Resolved(base: string, offset: int, available: Option<int>)

  /** What the end of a chain resolves to: a slot, with what is left of it, or a root buffer. */
  predicate EndsAt(path: seq<string>, subspans: Subspans, values: Values, slots: seq<Slot>, r: Resolved)
    requires path != []
  {
    var last, total := path[|path| - 1], ChainOffset(path, subspans);
    if |path| > 1 && SlotOf(last, values, slots).Some? then
      var slot := SlotOf(last, values, slots).value;
      slot.length >= total && r == Resolved(slot.base, slot.offset + total, Some(slot.length - total))
    else
      last !in subspans && r == Resolved(last, total, None)
  }

  /** No slot is met before the end of the chain. */
  predicate MeetsNoSlot(path: seq<string>, values: Values, slots: seq<Slot>) {
    forall i :: 1 <= i < |path| ==> SlotOf(path[i], values, slots).None?
  }

  ghost predicate ResolvesAlong(
    ref: string, path: seq<string>, aliases: Env, subspans: Subspans, values: Values, slots: seq<Slot>, r: Resolved)
  {
    && IsChain(ref, path, aliases, subspans)
    && MeetsNoSlot(path[..|path| - 1], values, slots)
    && EndsAt(path, subspans, values, slots, r)
  }

  /** A binding resolves to its own slot, or along a chain of subspans and aliases. */
  ghost predicate ResolvesTo(
    ref: string, aliases: Env, subspans: Subspans, values: Values, slots: seq<Slot>, r: Resolved)
  {
    match SlotOf(ref, values, slots)
    case Some(slot) => r == Resolved(slot.base, slot.offset, Some(slot.length))
    case None => exists path :: ResolvesAlong(ref, path, aliases, subspans, values, slots, r)
  }

  lemma ChainExtends(ref: string, path: seq<string>, aliases: Env, subspans: Subspans)
    requires IsChain(ref, path, aliases, subspans) && path[|path| - 1] in subspans
    ensures
      var last := subspans[path[|path| - 1]];
      var longer := path + [Lookup(aliases, last.base)];
      && IsChain(ref, longer, aliases, subspans)
      && ChainOffset(longer, subspans) == ChainOffset(path, subspans) + last.offset
  {
    var longer := path + [Lookup(aliases, subspans[path[|path| - 1]].base)];
    assert longer[..|longer| - 1] == path;
    forall i | 0 <= i < |longer| - 1
      ensures Link(longer, i, aliases, subspans)
    {
      assert i < |path| - 1 ==> Link(path, i, aliases, subspans);
    }
  }

  /** The chain ends here: at a slot, or at a reference that is no subspan. */
  ghost predicate Complete(
    ref: string, path: seq<string>, aliases: Env, subspans: Subspans, values: Values, slots: seq<Slot>)
  {
    && IsChain(ref, path, aliases, subspans)
    && MeetsNoSlot(path[..|path| - 1], values, slots)
    && ((|path| > 1 && SlotOf(path[|path| - 1], values, slots).Some?) || path[|path| - 1] !in subspans)
  }

  lemma {:induction false} ChainsAgree(
    ref: string, p: seq<string>, q: seq<string>, aliases: Env, subspans: Subspans, i: nat)
    requires IsChain(ref, p, aliases, subspans) && IsChain(ref, q, aliases, subspans) && i < |p| && i < |q|
    ensures p[i] == q[i]
  {
    if i > 0 {
      ChainsAgree(ref, p, q, aliases, subspans, i - 1);
      assert Link(p, i - 1, aliases, subspans) && Link(q, i - 1, aliases, subspans);
    }
  }

  lemma ChainContinues(ref: string, path: seq<string>, aliases: Env, subspans: Subspans, i: nat)
    requires IsChain(ref, path, aliases, subspans) && i < |path| - 1
    ensures path[i] in subspans && path[i + 1] == Lookup(aliases, subspans[path[i]].base)
    ensures path[..|path| - 1][i] == path[i]
  {
    assert Link(path, i, aliases, subspans);
  }

  lemma NoLongerThanComplete(
    ref: string, p: seq<string>, q: seq<string>, aliases: Env, subspans: Subspans, values: Values, slots: seq<Slot>)
    requires Complete(ref, p, aliases, subspans, values, slots)
    requires IsChain(ref, q, aliases, subspans) && MeetsNoSlot(q[..|q| - 1], values, slots)
    ensures |q| <= |p|
  {
    var n := |p| - 1;
    if n < |q| - 1 {
      ChainContinues(ref, q, aliases, subspans, n);
      ChainsAgree(ref, p, q, aliases, subspans, n);
    }
  }

  /** A reference has at most one complete chain. */
  lemma CompleteChainIsUnique(
    ref: string, p: seq<string>, q: seq<string>, aliases: Env, subspans: Subspans, values: Values, slots: seq<Slot>)
    requires Complete(ref, p, aliases, subspans, values, slots) && Complete(ref, q, aliases, subspans, values, slots)
    ensures p == q
  {
    NoLongerThanComplete(ref, p, q, aliases, subspans, values, slots);
    NoLongerThanComplete(ref, q, p, aliases, subspans, values, slots);
    forall i | 0 <= i < |p| ensures p[i] == q[i] {
      ChainsAgree(ref, p, q, aliases, subspans, i);
    }
  }

  /** A binding resolves to one thing at most. */
  lemma ResolutionIsUnique(
    ref: string, aliases: Env, subspans: Subspans, values: Values, slots: seq<Slot>, r: Resolved, s: Resolved)
    requires ResolvesTo(ref, aliases, subspans, values, slots, r)
    requires ResolvesTo(ref, aliases, subspans, values, slots, s)
    ensures r == s
  {
    if SlotOf(ref, values, slots).None? {
      var p :| ResolvesAlong(ref, p, aliases, subspans, values, slots, r);
      var q :| ResolvesAlong(ref, q, aliases, subspans, values, slots, s);
      CompleteChainIsUnique(ref, p, q, aliases, subspans, values, slots);
    }
  }

  /** The chain reaches a slot that is shorter than the offset summed up to there. */
  ghost predicate ReachesShortSlot(
    ref: string, aliases: Env, subspans: Subspans, values: Values, slots: seq<Slot>)
  {
    exists path :: Complete(ref, path, aliases, subspans, values, slots) && ShortAt(path, subspans, values, slots)
  }

  predicate ShortAt(path: seq<string>, subspans: Subspans, values: Values, slots: seq<Slot>) {
    && |path| > 1
    && var slot := SlotOf(path[|path| - 1], values, slots);
       slot.Some? && slot.value.length < ChainOffset(path, subspans)
  }

  lemma ShortSlotNeverResolves(
    ref: string, aliases: Env, subspans: Subspans, values: Values, slots: seq<Slot>, r: Resolved)
    requires SlotOf(ref, values, slots).None? && ReachesShortSlot(ref, aliases, subspans, values, slots)
    ensures !ResolvesTo(ref, aliases, subspans, values, slots, r)
  {
    if ResolvesTo(ref, aliases, subspans, values, slots, r) {
      var p :| Complete(ref, p, aliases, subspans, values, slots) && ShortAt(p, subspans, values, slots);
      var q :| ResolvesAlong(ref, q, aliases, subspans, values, slots, r);
      CompleteChainIsUnique(ref, p, q, aliases, subspans, values, slots);
    }
  }

  /** The chain from `ref` comes back to a reference it has passed, and meets no slot. */
  ghost predicate HasCycle(ref: string, aliases: Env, subspans: Subspans, values: Values, slots: seq<Slot>) {
    exists path :: IsChain(ref, path, aliases, subspans) && ClosesAt(path, values, slots)
  }

  predicate ClosesAt(path: seq<string>, values: Values, slots: seq<Slot>) {
    path != [] && path[|path| - 1] in path[..|path| - 1] && MeetsNoSlot(path, values, slots)
  }

  /** Every chain from `ref` stays on the cycle. */
  lemma {:induction false} StaysOnCycle(
    ref: string, cycle: seq<string>, path: seq<string>, aliases: Env, subspans: Subspans,
    values: Values, slots: seq<Slot>, i: nat) returns (j: nat)
    requires IsChain(ref, cycle, aliases, subspans) && ClosesAt(cycle, values, slots)
    requires IsChain(ref, path, aliases, subspans) && i < |path|
    ensures j < |cycle| - 1 && path[i] == cycle[j]
    ensures i > 0 ==> SlotOf(path[i], values, slots).None?
  {
    if i == 0 {
      j := 0;
    } else {
      var k := StaysOnCycle(ref, cycle, path, aliases, subspans, values, slots, i - 1);
      assert Link(cycle, k, aliases, subspans) && Link(path, i - 1, aliases, subspans);
      if k + 1 < |cycle| - 1 {
        j := k + 1;
      } else {
        j :| 0 <= j < |cycle| - 1 && cycle[j] == cycle[|cycle| - 1];
      }
    }
  }

  lemma CycleNeverResolves(
    ref: string, aliases: Env, subspans: Subspans, values: Values, slots: seq<Slot>, r: Resolved)
    requires SlotOf(ref, values, slots).None? && HasCycle(ref, aliases, subspans, values, slots)
    ensures !ResolvesTo(ref, aliases, subspans, values, slots, r)
  {
    if ResolvesTo(ref, aliases, subspans, values, slots, r) {
      var cycle :| IsChain(ref, cycle, aliases, subspans) && ClosesAt(cycle, values, slots);
      var path :| ResolvesAlong(ref, path, aliases, subspans, values, slots, r);
      var j := StaysOnCycle(ref, cycle, path, aliases, subspans, values, slots, |path| - 1);
      ChainContinues(ref, cycle, aliases, subspans, j);
    }
  }

  /** The state of the walk along a chain: `seen` holds all references but the last. */
  ghost predicate OnChain(
    ref: string, path: seq<string>, aliases: Env, subspans: Subspans, values: Values, slots: seq<Slot>,
    resolved: string, offset: int, seen: set<string>)
  {
    && IsChain(ref, path, aliases, subspans) && path[|path| - 1] == resolved
    && offset == ChainOffset(path, subspans)
    && MeetsNoSlot(path, values, slots)
    && (forall name :: name in seen <==> name in path[..|path| - 1])
    && seen <= subspans.Keys
  }

  lemma WalkOn(
    ref: string, path: seq<string>, aliases: Env, subspans: Subspans, values: Values, slots: seq<Slot>,
    resolved: string, offset: int, seen: set<string>)
    requires OnChain(ref, path, aliases, subspans, values, slots, resolved, offset, seen)
    requires resolved in subspans
    requires SlotOf(Lookup(aliases, subspans[resolved].base), values, slots).None?
    ensures
      var next := Lookup(aliases, subspans[resolved].base);
      OnChain(ref, path + [next], aliases, subspans, values, slots,
              next, offset + subspans[resolved].offset, seen + {resolved})
  {
    var longer := path + [Lookup(aliases, subspans[resolved].base)];
    ChainExtends(ref, path, aliases, subspans);
    assert longer[..|longer| - 1] == path == path[..|path| - 1] + [resolved];
  }

  /** The walk reaches a slot: it resolves there if the slot is long enough, and nowhere otherwise. */
  lemma WalkMeetsSlot(
    ref: string, path: seq<string>, aliases: Env, subspans: Subspans, values: Values, slots: seq<Slot>,
    resolved: string, offset: int, seen: set<string>)
    requires OnChain(ref, path, aliases, subspans, values, slots, resolved, offset, seen)
    requires resolved in subspans && SlotOf(ref, values, slots).None?
    requires SlotOf(Lookup(aliases, subspans[resolved].base), values, slots).Some?
    ensures
      var slot := SlotOf(Lookup(aliases, subspans[resolved].base), values, slots).value;
      var total := offset + subspans[resolved].offset;
      if slot.length >= total then
        ResolvesTo(ref, aliases, subspans, values, slots,
                   Resolved(slot.base, slot.offset + total, Some(slot.length - total)))
      else ReachesShortSlot(ref, aliases, subspans, values, slots)
  {
    var longer := path + [Lookup(aliases, subspans[resolved].base)];
    ChainExtends(ref, path, aliases, subspans);
    assert longer[..|longer| - 1] == path;
    var slot := SlotOf(Lookup(aliases, subspans[resolved].base), values, slots).value;
    var total := offset + subspans[resolved].offset;
    if slot.length >= total {
      assert ResolvesAlong(ref, longer, aliases, subspans, values, slots,
                           Resolved(slot.base, slot.offset + total, Some(slot.length - total)));
    } else {
      assert Complete(ref, longer, aliases, subspans, values, slots) && ShortAt(longer, subspans, values, slots);
    }
  }

  lemma WalkEnds(
    ref: string, path: seq<string>, aliases: Env, subspans: Subspans, values: Values, slots: seq<Slot>,
    resolved: string, offset: int, seen: set<string>)
    requires OnChain(ref, path, aliases, subspans, values, slots, resolved, offset, seen)
    requires resolved !in subspans
    ensures ResolvesAlong(ref, path, aliases, subspans, values, slots, Resolved(resolved, offset, None))
  {
  }

  ghost predicate Resolves(ref: string, aliases: Env, subspans: Subspans, values: Values, slots: seq<Slot>) {
    exists r: Resolved :: ResolvesTo(ref, aliases, subspans, values, slots, r)
  }

  /**
    `_resolve_binding_base`: gives the one resolution there is, and raises exactly when there is
    none, that is when the chain runs in a cycle or into a slot that is too short.
   */
  method ResolveBindingBase(ref: string, aliases: Env, subspans: Subspans, values: Values, slots: seq<Slot>)
    returns (r: Result<Resolved, Failure>)
    requires Roots(aliases)
    ensures r.Ok? <==> Resolves(ref, aliases, subspans, values, slots)
    ensures r.Ok? ==> ResolvesTo(ref, aliases, subspans, values, slots, r.value)
    ensures r.Err? ==>
              || (r.error == CyclicSubspan(ref) && HasCycle(ref, aliases, subspans, values, slots))
              || (r.error == SlotOffsetExceeded(ref) && ReachesShortSlot(ref, aliases, subspans, values, slots))
  {
    if SlotOf(ref, values, slots).Some? {
      var slot := SlotOf(ref, values, slots).value;
      r := Ok(Resolved(slot.base, slot.offset, Some(slot.length)));
      assert ResolvesTo(ref, aliases, subspans, values, slots, r.value);
      return;
    }
    r := WalkChain(ref, aliases, subspans, values, slots);
    if r.Err? {
      forall s: Resolved
        ensures !ResolvesTo(ref, aliases, subspans, values, slots, s)
      {
        if HasCycle(ref, aliases, subspans, values, slots) {
          CycleNeverResolves(ref, aliases, subspans, values, slots, s);
        } else {
          ShortSlotNeverResolves(ref, aliases, subspans, values, slots, s);
        }
      }
    }
  }

  /** The loop of `_resolve_binding_base`. */
  method WalkChain(ref: string, aliases: Env, subspans: Subspans, values: Values, slots: seq<Slot>)
    returns (r: Result<Resolved, Failure>)
    requires Roots(aliases) && SlotOf(ref, values, slots).None?
    ensures r.Ok? ==> ResolvesTo(ref, aliases, subspans, values, slots, r.value)
    ensures r.Err? ==>
              || (r.error == CyclicSubspan(ref) && HasCycle(ref, aliases, subspans, values, slots))
              || (r.error == SlotOffsetExceeded(ref) && ReachesShortSlot(ref, aliases, subspans, values, slots))
  {
    var resolved := ResolveAlias(ref, aliases);
    var offset := 0;
    var seen: set<string> := {};
    ghost var path := [resolved];
    while resolved in subspans
      invariant OnChain(ref, path, aliases, subspans, values, slots, resolved, offset, seen)
      decreases subspans.Keys - seen
    {
      if resolved in seen {
        assert ClosesAt(path, values, slots);
        return Err(CyclicSubspan(ref));
      }
      var subspan := subspans[resolved];
      var next := ResolveAlias(subspan.base, aliases);
      if SlotOf(next, values, slots).Some? {
        var slot := SlotOf(next, values, slots).value;
        WalkMeetsSlot(ref, path, aliases, subspans, values, slots, resolved, offset, seen);
        var available := slot.length - (offset + subspan.offset);
        if available < 0 {
          return Err(SlotOffsetExceeded(ref));
        }
        return Ok(Resolved(slot.base, slot.offset + (offset + subspan.offset), Some(available)));
      }
      WalkOn(ref, path, aliases, subspans, values, slots, resolved, offset, seen);
      seen := seen + {resolved};
      offset := offset + subspan.offset;
      path := path + [next];
      resolved := next;
    }
    WalkEnds(ref, path, aliases, subspans, values, slots, resolved, offset, seen);
    r := Ok(Resolved(resolved, offset, None));
  }

  // ---------- bindings and commands ----------

  datatype Binding = Binding(ref: string, offset: Token, length: Token)

  /** The tables a function is parsed with. */
  datatype Tables = Tables(
    values: Values, aliases: Env, subspans: Subspans, externals: Externals, slots: seq<Slot>)

  /** A slice that fits its buffer from above; the source checks nothing from below. */
  predicate FitsAbove(slice: Slice, buffers: Buffers) {
    slice.base in buffers && 0 <= slice.length && slice.offset + slice.length <= buffers[slice.base].size
  }

  lemma FitsAboveGrows(slice: Slice, before: Buffers, after: Buffers)
    requires FitsAbove(slice, before) && Grows(before, after)
    ensures FitsAbove(slice, after)
  {
  }

  /** A binding and the slice emitted for it. */
  ghost predicate LoweredVia(b: Binding, tables: Tables, slice: Slice, r: Resolved) {
    var offset, length := EvalIndex(b.offset, tables.values), EvalIndex(b.length, tables.values);
    && ResolvesTo(b.ref, tables.aliases, tables.subspans, tables.values, tables.slots, r)
    && offset.Ok? && length.Ok? && offset.value >= 0 && length.value >= 0
    && (r.available.Some? ==> offset.value + length.value <= r.available.value)
    && slice == Slice(r.base, r.offset + offset.value, length.value)
  }

  ghost predicate Lowered(b: Binding, tables: Tables, slice: Slice) {
    exists r: Resolved :: LoweredVia(b, tables, slice, r)
  }

  /** The binding can be lowered at all, and its root admits what it uses. */
  ghost predicate Lowerable(b: Binding, tables: Tables, buffers: Buffers) {
    exists slice :: Lowered(b, tables, slice) && AdmitsSlice(buffers, tables.externals, slice)
  }

  predicate AdmitsSlice(buffers: Buffers, externals: Externals, slice: Slice) {
    Admits(buffers, externals, slice.base, slice.offset + slice.length)
  }

  /** A binding is lowered in one way at most. */
  lemma LoweringIsUnique(b: Binding, tables: Tables, s: Slice, t: Slice)
    requires Lowered(b, tables, s) && Lowered(b, tables, t)
    ensures s == t
  {
    var p: Resolved :| LoweredVia(b, tables, s, p);
    var q: Resolved :| LoweredVia(b, tables, t, q);
    ResolutionIsUnique(b.ref, tables.aliases, tables.subspans, tables.values, tables.slots, p, q);
  }

  /** The slice of a binding, before any buffer is looked at; the checks of `_check_indirect_bounds`. */
  method SliceOf(b: Binding, tables: Tables) returns (r: Result<Slice, Failure>)
    requires Roots(tables.aliases)
    ensures r.Ok? ==> Lowered(b, tables, r.value)
    ensures r.Err? ==> forall slice :: !Lowered(b, tables, slice)
  {
    var offset, length := EvalIndex(b.offset, tables.values), EvalIndex(b.length, tables.values);
    if offset.Err? {
      return Err(offset.error);
    }
    if length.Err? {
      return Err(length.error);
    }
    var base := ResolveBindingBase(b.ref, tables.aliases, tables.subspans, tables.values, tables.slots);
    if base.Err? {
      return Err(base.error);
    }
    forall slice, other: Resolved | LoweredVia(b, tables, slice, other)
      ensures other == base.value
    {
      ResolutionIsUnique(b.ref, tables.aliases, tables.subspans, tables.values, tables.slots, other, base.value);
    }
    if offset.value < 0 || length.value < 0 {
      return Err(NegativeRange(b.ref));
    }
    if base.value.available.Some? && offset.value + length.value > base.value.available.value {
      return Err(ExceedsSlot(b.ref));
    }
    var slice := Slice(base.value.base, base.value.offset + offset.value, length.value);
    assert LoweredVia(b, tables, slice, base.value);
    r := Ok(slice);
  }

  /** One binding of a command: its slice, and the table with its buffer grown. */
  method LowerBinding(b: Binding, tables: Tables, buffers: Buffers)
    returns (r: Result<(Slice, Buffers), Failure>)
    requires Roots(tables.aliases)
    ensures r.Ok? <==> Lowerable(b, tables, buffers)
    ensures r.Ok? ==>
              && Lowered(b, tables, r.value.0) && AdmitsSlice(buffers, tables.externals, r.value.0)
              && Enlarged(buffers, r.value.1, r.value.0.base, r.value.0.offset + r.value.0.length)
  {
    var slice := SliceOf(b, tables);
    if slice.Err? {
      return Err(slice.error);
    }
    forall other | Lowered(b, tables, other)
      ensures other == slice.value
    {
      LoweringIsUnique(b, tables, other, slice.value);
    }
    var grown := EnsureExternalAllocation(
      slice.value.base, slice.value.offset + slice.value.length, buffers, tables.externals);
    if grown.Err? {
      return Err(grown.error);
    }
    r := Ok((slice.value, grown.value));
  }

  ghost predicate AllLowerable(bindings: seq<Binding>, tables: Tables, buffers: Buffers) {
    forall i {:trigger bindings[i]} :: 0 <= i < |bindings| ==> Lowerable(bindings[i], tables, buffers)
  }

  ghost predicate AllLowered(bindings: seq<Binding>, tables: Tables, slices: seq<Slice>) {
    |slices| == |bindings| && forall i :: 0 <= i < |slices| ==> Lowered(bindings[i], tables, slices[i])
  }

  predicate AllFitAbove(slices: seq<Slice>, buffers: Buffers) {
    forall i :: 0 <= i < |slices| ==> FitsAbove(slices[i], buffers)
  }

  /** Every buffer has its first size or ends where some slice ends; new ones are used by some slice. */
  ghost predicate Tight(start: Buffers, now: Buffers, slices: seq<Slice>) {
    forall ref {:trigger TightAt(ref, start, now, slices)} :: ref in now ==> TightAt(ref, start, now, slices)
  }

  ghost predicate TightAt(ref: string, start: Buffers, now: Buffers, slices: seq<Slice>)
    requires ref in now
  {
    || (ref in start && now[ref].size == start[ref].size)
    || exists i :: 0 <= i < |slices| && slices[i].base == ref
                   && now[ref].size == Max(SizeOf(start, ref), slices[i].offset + slices[i].length)
  }

  lemma LowerableFromTheStart(b: Binding, tables: Tables, start: Buffers, now: Buffers)
    requires GrownFrom(start, now, tables.externals)
    ensures Lowerable(b, tables, now) <==> Lowerable(b, tables, start)
  {
    forall slice
      ensures AdmitsSlice(now, tables.externals, slice) <==> AdmitsSlice(start, tables.externals, slice)
    {
      AdmittedFromTheStart(start, now, tables.externals, slice.base, slice.offset + slice.length);
    }
  }

  /** One more slice. */
  lemma SliceStep(
    start: Buffers, now: Buffers, after: Buffers, externals: Externals, slices: seq<Slice>, slice: Slice)
    requires GrownFrom(start, now, externals) && AllFitAbove(slices, now) && Tight(start, now, slices)
    requires slice.length >= 0 && AdmitsSlice(now, externals, slice)
    requires Enlarged(now, after, slice.base, slice.offset + slice.length)
    ensures GrownFrom(start, after, externals)
    ensures AllFitAbove(slices + [slice], after) && Tight(start, after, slices + [slice])
  {
    EnlargedStillGrown(start, now, after, externals, slice.base, slice.offset + slice.length);
    forall i | 0 <= i < |slices|
      ensures FitsAbove(slices[i], after)
    {
      FitsAboveGrows(slices[i], now, after);
    }
    TightStep(start, now, after, slices, slice);
  }

  lemma TightStep(start: Buffers, now: Buffers, after: Buffers, slices: seq<Slice>, slice: Slice)
    requires Tight(start, now, slices) && Grows(start, now)
    requires Enlarged(now, after, slice.base, slice.offset + slice.length)
    ensures Tight(start, after, slices + [slice])
  {
    var longer := slices + [slice];
    forall ref | ref in after
      ensures TightAt(ref, start, after, longer)
    {
      if ref in start && after[ref].size == start[ref].size {
        assert TightAt(ref, start, after, longer);
      } else if ref in now && after[ref].size == now[ref].size {
        assert TightAt(ref, start, now, slices);
        var i :| 0 <= i < |slices| && slices[i].base == ref
                 && now[ref].size == Max(SizeOf(start, ref), slices[i].offset + slices[i].length);
        assert longer[i] == slices[i];
      } else {
        assert ref in now ==> TightAt(ref, start, now, slices);
        assert ref == slice.base && longer[|slices|] == slice;
      }
    }
  }

  /** The state between two bindings: what has been emitted so far, and the buffers grown for it. */
  ghost predicate Emitted(start: Buffers, now: Buffers, externals: Externals, slices: seq<Slice>) {
    GrownFrom(start, now, externals) && AllFitAbove(slices, now) && Tight(start, now, slices)
  }

  /** The next binding of a command. */
  method LowerNext(b: Binding, tables: Tables, ghost start: Buffers, before: Buffers, ghost emitted: seq<Slice>)
    returns (r: Result<(Slice, Buffers), Failure>)
    requires Roots(tables.aliases) && Emitted(start, before, tables.externals, emitted)
    ensures r.Ok? <==> Lowerable(b, tables, start)
    ensures r.Ok? ==> Lowered(b, tables, r.value.0)
    ensures r.Ok? ==> Emitted(start, r.value.1, tables.externals, emitted + [r.value.0])
  {
    LowerableFromTheStart(b, tables, start, before);
    r := LowerBinding(b, tables, before);
    if r.Ok? {
      ghost var via: Resolved :| LoweredVia(b, tables, r.value.0, via);
      SliceStep(start, before, r.value.1, tables.externals, emitted, r.value.0);
    }
  }

  /** The bindings of one command. */
  method LowerBindings(bindings: seq<Binding>, tables: Tables, ghost start: Buffers, before: Buffers,
                       ghost emitted: seq<Slice>)
    returns (r: Result<(seq<Slice>, Buffers), Failure>)
    requires Roots(tables.aliases) && Emitted(start, before, tables.externals, emitted)
    ensures r.Ok? <==> AllLowerable(bindings, tables, start)
    ensures r.Ok? ==> AllLowered(bindings, tables, r.value.0)
    ensures r.Ok? ==> Emitted(start, r.value.1, tables.externals, emitted + r.value.0)
  {
    var slices: seq<Slice> := [];
    var buffers := before;
    assert emitted + slices == emitted;
    for i := 0 to |bindings|
      invariant |slices| == i
      invariant forall j :: 0 <= j < i ==> Lowered(bindings[j], tables, slices[j])
      invariant forall j :: 0 <= j < i ==> Lowerable(bindings[j], tables, start)
      invariant Emitted(start, buffers, tables.externals, emitted + slices)
    {
      var lowered := LowerNext(bindings[i], tables, start, buffers, emitted + slices);
      if lowered.Err? {
        return Err(lowered.error);
      }
      assert emitted + (slices + [lowered.value.0]) == emitted + slices + [lowered.value.0];
      slices := slices + [lowered.value.0];
      buffers := lowered.value.1;
    }
    r := Ok((slices, buffers));
  }

  // ---------- where slices start ----------

  /** Every slice that can be lowered starts inside its buffer. */
  ghost predicate SlicesStartInside(tables: Tables) {
    forall b: Binding, slice: Slice :: Lowered(b, tables, slice) ==> slice.offset >= 0
  }

  /** Every reference that resolves with room left resolves to an offset inside its buffer. */
  ghost predicate ResolutionsStartInside(tables: Tables) {
    forall ref: string, r: Resolved
      {:trigger ResolvesTo(ref, tables.aliases, tables.subspans, tables.values, tables.slots, r)} ::
      ResolvesTo(ref, tables.aliases, tables.subspans, tables.values, tables.slots, r) && HasRoom(r) ==> r.offset >= 0
  }

  predicate HasRoom(r: Resolved) {
    r.available.Some? ==> r.available.value >= 0
  }

  /** The exact condition on the tables: offsets along a chain may be negative, their sums may not. */
  lemma SlicesStartInsideExactly(tables: Tables)
    ensures SlicesStartInside(tables) <==> ResolutionsStartInside(tables)
  {
    if SlicesStartInside(tables) {
      forall ref: string, r: Resolved |
        ResolvesTo(ref, tables.aliases, tables.subspans, tables.values, tables.slots, r) && HasRoom(r)
        ensures r.offset >= 0
      {
        var b, slice := Binding(ref, Number(0), Number(0)), Slice(r.base, r.offset, 0);
        assert LoweredVia(b, tables, slice, r);
        assert Lowered(b, tables, slice);
      }
    }
    if ResolutionsStartInside(tables) {
      forall b: Binding, slice: Slice | Lowered(b, tables, slice)
        ensures slice.offset >= 0
      {
        var r: Resolved :| LoweredVia(b, tables, slice, r);
        assert ResolvesTo(b.ref, tables.aliases, tables.subspans, tables.values, tables.slots, r);
      }
    }
  }

  /** No subspan and no slot starts before its buffer. */
  ghost predicate NonNegativeOffsets(tables: Tables) {
    && (forall name :: name in tables.subspans ==> tables.subspans[name].offset >= 0)
    && (forall k :: 0 <= k < |tables.slots| ==> tables.slots[k].offset >= 0)
  }

  lemma {:induction false} ChainOffsetNonNegative(path: seq<string>, subspans: Subspans)
    requires forall name :: name in subspans ==> subspans[name].offset >= 0
    ensures ChainOffset(path, subspans) >= 0
  {
    if |path| > 1 {
      ChainOffsetNonNegative(path[..|path| - 1], subspans);
    }
  }

  lemma ResolvedOffsetNonNegative(ref: string, tables: Tables, r: Resolved)
    requires NonNegativeOffsets(tables)
    requires ResolvesTo(ref, tables.aliases, tables.subspans, tables.values, tables.slots, r)
    ensures r.offset >= 0
  {
    if SlotOf(ref, tables.values, tables.slots).None? {
      var path :| ResolvesAlong(ref, path, tables.aliases, tables.subspans, tables.values, tables.slots, r);
      ChainOffsetNonNegative(path, tables.subspans);
    }
  }

  /** No negative offset at all is enough. */
  lemma NonNegativeIsInside(tables: Tables)
    requires NonNegativeOffsets(tables)
    ensures ResolutionsStartInside(tables)
  {
    forall ref: string, r: Resolved |
      ResolvesTo(ref, tables.aliases, tables.subspans, tables.values, tables.slots, r)
      ensures r.offset >= 0
    {
      ResolvedOffsetNonNegative(ref, tables, r);
    }
  }

  /** A subspan `s` of the external buffer `base`, starting before it. */
  function NegativeTables(s: string, base: string): Tables {
    Tables(map[], map[], map[s := Subspan(base, -8, 8)], Externals({base}, {}), [])
  }

  lemma NegativeChain(s: string, base: string)
    requires s != base
    ensures
      var tables := NegativeTables(s, base);
      ResolvesTo(s, tables.aliases, tables.subspans, tables.values, tables.slots, Resolved(base, -8, None))
  {
    var tables, path := NegativeTables(s, base), [s, base];
    assert Link(path, 0, tables.aliases, tables.subspans);
    assert path[..1] == [s] && path[..1][..0] == [];
    assert ChainOffset(path[..1], tables.subspans) == 0;
    assert ChainOffset(path, tables.subspans) == -8;
    var r := Resolved(base, -8, None);
    assert ResolvesAlong(s, path, tables.aliases, tables.subspans, tables.values, tables.slots, r);
  }

  lemma NegativeIsLowered(s: string, base: string)
    requires s != base
    ensures Lowered(Binding(s, Number(0), Number(4)), NegativeTables(s, base), Slice(base, -8, 4))
  {
    NegativeChain(s, base);
    assert LoweredVia(
        Binding(s, Number(0), Number(4)), NegativeTables(s, base), Slice(base, -8, 4), Resolved(base, -8, None));
  }

  lemma NegativeIsAdmitted(s: string, base: string)
    ensures AdmitsSlice(map[], NegativeTables(s, base).externals, Slice(base, -8, 4))
  {
  }

  lemma NegativeIsOutOfBounds(base: string, allocations: seq<Allocation>)
    ensures !V.SliceInBounds(Slice(base, -8, 4), allocations)
  {
  }

  /** A negative subspan offset is admitted, emitted as it is, and fails the verifier's check. */
  lemma NegativeSubspanIsEmitted(s: string, base: string, allocations: seq<Allocation>)
    requires s != base
    ensures
      var tables, b, slice := NegativeTables(s, base), Binding(s, Number(0), Number(4)), Slice(base, -8, 4);
      && Lowered(b, tables, slice) && AdmitsSlice(map[], tables.externals, slice) && Lowerable(b, tables, map[])
      && !V.SliceInBounds(slice, allocations)
  {
    NegativeIsLowered(s, base);
    NegativeIsAdmitted(s, base);
    NegativeIsOutOfBounds(base, allocations);
  }

  // ---------- subspans and indirect slots ----------

  datatype SubspanLine = SubspanLine(result: string, base: string, offset: Token, length: Token)

  /** The tokens of a line have values and its base is a known buffer. */
  predicate GoodSubspan(line: SubspanLine, values: Values, aliases: Env, buffers: Buffers, externals: Externals) {
    && EvalIndex(line.offset, values).Ok? && EvalIndex(line.length, values).Ok?
    && (Lookup(aliases, line.base) in buffers || Admits(buffers, externals, Lookup(aliases, line.base), 0))
  }

  function SubspanOf(line: SubspanLine, values: Values, aliases: Env): Subspan
    requires EvalIndex(line.offset, values).Ok? && EvalIndex(line.length, values).Ok?
  {
    Subspan(Lookup(aliases, line.base), EvalIndex(line.offset, values).value, EvalIndex(line.length, values).value)
  }

  predicate AllGood(lines: seq<SubspanLine>, values: Values, aliases: Env, buffers: Buffers, externals: Externals) {
    forall i :: 0 <= i < |lines| ==> GoodSubspan(lines[i], values, aliases, buffers, externals)
  }

  /** The table of subspans: a later line for the same name wins. */
  function SubspanTable(lines: seq<SubspanLine>, values: Values, aliases: Env): Subspans {
    if lines == [] then map[]
    else
      var before, last := SubspanTable(lines[..|lines| - 1], values, aliases), lines[|lines| - 1];
      if EvalIndex(last.offset, values).Ok? && EvalIndex(last.length, values).Ok?
      then before[last.result := SubspanOf(last, values, aliases)] else before
  }

  lemma SubspanTableStep(lines: seq<SubspanLine>, i: nat, values: Values, aliases: Env)
    requires i < |lines| && EvalIndex(lines[i].offset, values).Ok? && EvalIndex(lines[i].length, values).Ok?
    ensures SubspanTable(lines[..i + 1], values, aliases)
            == SubspanTable(lines[..i], values, aliases)[lines[i].result := SubspanOf(lines[i], values, aliases)]
  {
    assert lines[..i + 1][..i] == lines[..i];
  }

  /** Line `i` is the last one to define its result. */
  predicate IsLast(lines: seq<SubspanLine>, i: nat) {
    i < |lines| && forall j :: i < j < |lines| ==> lines[j].result != lines[i].result
  }

  lemma {:induction false} LastLineDecides(
    lines: seq<SubspanLine>, values: Values, aliases: Env, buffers: Buffers, externals: Externals, i: nat)
    requires AllGood(lines, values, aliases, buffers, externals) && IsLast(lines, i)
    ensures lines[i].result in SubspanTable(lines, values, aliases)
    ensures
      var subspan := SubspanTable(lines, values, aliases)[lines[i].result];
      && subspan.base == Lookup(aliases, lines[i].base)
      && EvalIndex(lines[i].offset, values) == Ok(subspan.offset)
      && EvalIndex(lines[i].length, values) == Ok(subspan.length)
  {
    var front := lines[..|lines| - 1];
    assert GoodSubspan(lines[|lines| - 1], values, aliases, buffers, externals);
    if i < |front| {
      assert lines[|lines| - 1].result != lines[i].result;
      LastLineDecides(front, values, aliases, buffers, externals, i);
    }
  }

  /** Buffers that were there keep their entry; each base seen first here is an empty external one. */
  ghost predicate BasesAdded(
    lines: seq<SubspanLine>, aliases: Env, start: Buffers, now: Buffers, externals: Externals)
  {
    && start.Keys <= now.Keys
    && (forall i {:trigger BaseIn(lines, i, aliases, now)} :: 0 <= i < |lines| ==> BaseIn(lines, i, aliases, now))
    && (forall ref {:trigger KeptOrNew(ref, lines, aliases, start, now, externals)} :: ref in now ==>
          KeptOrNew(ref, lines, aliases, start, now, externals))
  }

  predicate BaseIn(lines: seq<SubspanLine>, i: nat, aliases: Env, now: Buffers)
    requires i < |lines|
  {
    Lookup(aliases, lines[i].base) in now
  }

  ghost predicate KeptOrNew(
    ref: string, lines: seq<SubspanLine>, aliases: Env, start: Buffers, now: Buffers, externals: Externals)
    requires ref in now
  {
    if ref in start then now[ref] == start[ref]
    else
      && now[ref] == Buffer(0, External) && Admits(start, externals, ref, 0)
      && exists i :: 0 <= i < |lines| && Lookup(aliases, lines[i].base) == ref
  }

  /** The base of one subspan line: entered as an empty external buffer if it is not there yet. */
  method EnsureBase(
    lines: seq<SubspanLine>, i: nat, aliases: Env, ghost start: Buffers, buffers: Buffers, externals: Externals)
    returns (r: Result<Buffers, Failure>)
    requires Roots(aliases) && i < |lines| && BasesAdded(lines[..i], aliases, start, buffers, externals)
    ensures r.Ok? ==> BasesAdded(lines[..i + 1], aliases, start, r.value, externals)
    ensures
      var base := Lookup(aliases, lines[i].base);
      r.Ok? <==> base in start || Admits(start, externals, base, 0)
  {
    var base := ResolveAlias(lines[i].base, aliases);
    if base in buffers {
      assert KeptOrNew(base, lines[..i], aliases, start, buffers, externals);
      r := Ok(buffers);
    } else {
      r := EnsureExternalAllocation(base, 0, buffers, externals);
    }
    if r.Ok? {
      BaseEntered(lines, i, aliases, start, buffers, r.value, externals);
    }
  }

  lemma BaseEntered(
    lines: seq<SubspanLine>, n: nat, aliases: Env, start: Buffers, before: Buffers, now: Buffers, externals: Externals)
    requires n < |lines| && BasesAdded(lines[..n], aliases, start, before, externals)
    requires
      var base := Lookup(aliases, lines[n].base);
      if base in before then now == before
      else now == before[base := Buffer(0, External)] && Admits(start, externals, base, 0)
    ensures BasesAdded(lines[..n + 1], aliases, start, now, externals)
  {
    var longer := lines[..n + 1];
    forall i | 0 <= i < |longer|
      ensures BaseIn(longer, i, aliases, now)
    {
      assert i < n ==> BaseIn(lines[..n], i, aliases, before);
    }
    forall ref | ref in now
      ensures KeptOrNew(ref, longer, aliases, start, now, externals)
    {
      if ref in before {
        assert KeptOrNew(ref, lines[..n], aliases, start, before, externals);
        if ref !in start {
          var i :| 0 <= i < n && Lookup(aliases, lines[..n][i].base) == ref;
          assert longer[i] == lines[..n][i];
        }
      } else {
        assert longer[n] == lines[n];
      }
    }
  }

  /** One line of `_parse_subspans`. */
  method ParseSubspanLine(
    lines: seq<SubspanLine>, i: nat, values: Values, aliases: Env, ghost start: Buffers, buffers: Buffers,
    externals: Externals) returns (r: Result<(Subspan, Buffers), Failure>)
    requires Roots(aliases) && i < |lines| && BasesAdded(lines[..i], aliases, start, buffers, externals)
    ensures r.Ok? <==> GoodSubspan(lines[i], values, aliases, start, externals)
    ensures r.Ok? ==> r.value.0 == SubspanOf(lines[i], values, aliases)
    ensures r.Ok? ==> BasesAdded(lines[..i + 1], aliases, start, r.value.1, externals)
  {
    var grown := EnsureBase(lines, i, aliases, start, buffers, externals);
    if grown.Err? {
      return Err(grown.error);
    }
    var offset, length := EvalIndex(lines[i].offset, values), EvalIndex(lines[i].length, values);
    if offset.Err? {
      return Err(offset.error);
    }
    if length.Err? {
      return Err(length.error);
    }
    r := Ok((Subspan(Lookup(aliases, lines[i].base), offset.value, length.value), grown.value));
  }

  /** `_parse_subspans` */
  method ParseSubspans(lines: seq<SubspanLine>, values: Values, aliases: Env, start: Buffers, externals: Externals)
    returns (r: Result<(Subspans, Buffers), Failure>)
    requires Roots(aliases)
    ensures r.Ok? <==> AllGood(lines, values, aliases, start, externals)
    ensures r.Ok? ==> r.value.0 == SubspanTable(lines, values, aliases)
    ensures r.Ok? ==> BasesAdded(lines, aliases, start, r.value.1, externals)
  {
    var subspans: Subspans := map[];
    var buffers := start;
    for i := 0 to |lines|
      invariant AllGood(lines[..i], values, aliases, start, externals)
      invariant subspans == SubspanTable(lines[..i], values, aliases)
      invariant BasesAdded(lines[..i], aliases, start, buffers, externals)
    {
      var parsed := ParseSubspanLine(lines, i, values, aliases, start, buffers, externals);
      if parsed.Err? {
        return Err(parsed.error);
      }
      SubspanTableStep(lines, i, values, aliases);
      subspans := subspans[lines[i].result := parsed.value.0];
      buffers := parsed.value.1;
    }
    assert lines[..|lines|] == lines;
    r := Ok((subspans, buffers));
  }

  /** The slot a binding of the `execute.indirect` block stands for. */
  ghost predicate SlotFor(b: Binding, tables: Tables, slot: Slot) {
    exists via: Resolved :: SlotVia(b, tables, slot, via)
  }

  ghost predicate SlotVia(b: Binding, tables: Tables, slot: Slot, via: Resolved) {
    var offset, length := EvalIndex(b.offset, tables.values), EvalIndex(b.length, tables.values);
    && offset.Ok? && length.Ok? && ResolvesTo(b.ref, tables.aliases, tables.subspans, map[], [], via)
    && slot == Slot(via.base, via.offset + offset.value, length.value)
  }

  predicate AdmitsSlot(buffers: Buffers, externals: Externals, slot: Slot) {
    Admits(buffers, externals, slot.base, slot.offset + slot.length)
  }

  ghost predicate HasSlot(b: Binding, tables: Tables, buffers: Buffers) {
    exists slot :: SlotFor(b, tables, slot) && AdmitsSlot(buffers, tables.externals, slot)
  }

  ghost predicate AllHaveSlots(bindings: seq<Binding>, tables: Tables, buffers: Buffers) {
    forall k {:trigger bindings[k]} :: 0 <= k < |bindings| ==> HasSlot(bindings[k], tables, buffers)
  }

  lemma HasSlotFromTheStart(b: Binding, tables: Tables, start: Buffers, now: Buffers)
    requires GrownFrom(start, now, tables.externals)
    ensures HasSlot(b, tables, now) <==> HasSlot(b, tables, start)
  {
    forall slot
      ensures AdmitsSlot(now, tables.externals, slot) <==> AdmitsSlot(start, tables.externals, slot)
    {
      AdmittedFromTheStart(start, now, tables.externals, slot.base, slot.offset + slot.length);
    }
  }

  /** A slot names a window that fits its buffer from above. */
  predicate SlotFitsAbove(slot: Slot, buffers: Buffers) {
    slot.base in buffers && slot.offset + slot.length <= buffers[slot.base].size
  }

  /** The windows of some slots, as slices. */
  function Windows(slots: seq<Slot>): seq<Slice> {
    seq(|slots|, k requires 0 <= k < |slots| => Slice(slots[k].base, slots[k].offset, slots[k].length))
  }

  ghost predicate SlotsBuilt(bindings: seq<Binding>, tables: Tables, slots: seq<Slot>, buffers: Buffers) {
    && |slots| == |bindings|
    && (forall k :: 0 <= k < |slots| ==> SlotFor(bindings[k], tables, slots[k]))
    && forall k :: 0 <= k < |slots| ==> SlotFitsAbove(slots[k], buffers)
  }

  /** The slot of one binding, before any buffer is looked at. */
  method SlotOfBinding(b: Binding, tables: Tables) returns (r: Result<Slot, Failure>)
    requires Roots(tables.aliases)
    ensures r.Ok? ==> SlotFor(b, tables, r.value)
    ensures forall slot :: SlotFor(b, tables, slot) ==> r == Ok(slot)
  {
    var offset, length := EvalIndex(b.offset, tables.values), EvalIndex(b.length, tables.values);
    if offset.Err? {
      return Err(offset.error);
    }
    if length.Err? {
      return Err(length.error);
    }
    var none: Values := map[];
    var base := ResolveBindingBase(b.ref, tables.aliases, tables.subspans, none, []);
    if base.Err? {
      return Err(base.error);
    }
    var slot := Slot(base.value.base, base.value.offset + offset.value, length.value);
    assert SlotVia(b, tables, slot, base.value);
    forall other, via: Resolved | SlotVia(b, tables, other, via)
      ensures other == slot
    {
      ResolutionIsUnique(b.ref, tables.aliases, tables.subspans, none, [], via, base.value);
    }
    r := Ok(slot);
  }

  /** One entry of the slot table. */
  method BuildSlot(b: Binding, tables: Tables, buffers: Buffers) returns (r: Result<(Slot, Buffers), Failure>)
    requires Roots(tables.aliases)
    ensures r.Ok? <==> HasSlot(b, tables, buffers)
    ensures r.Ok? ==>
              && SlotFor(b, tables, r.value.0) && AdmitsSlot(buffers, tables.externals, r.value.0)
              && Enlarged(buffers, r.value.1, r.value.0.base, r.value.0.offset + r.value.0.length)
  {
    var slot := SlotOfBinding(b, tables);
    if slot.Err? {
      return Err(slot.error);
    }
    var grown := EnsureExternalAllocation(
      slot.value.base, slot.value.offset + slot.value.length, buffers, tables.externals);
    if grown.Err? {
      return Err(grown.error);
    }
    r := Ok((slot.value, grown.value));
  }

  predicate NothingShrinks(before: Buffers, after: Buffers) {
    forall name :: name in before ==> name in after && before[name].size <= after[name].size
  }

  /** The next entry, buildable now exactly when it was at the start. */
  method BuildNextSlot(b: Binding, tables: Tables, ghost start: Buffers, buffers: Buffers)
    returns (r: Result<(Slot, Buffers), Failure>)
    requires Roots(tables.aliases) && GrownFrom(start, buffers, tables.externals)
    ensures r.Ok? <==> HasSlot(b, tables, start)
    ensures r.Ok? ==> SlotFor(b, tables, r.value.0) && SlotFitsAbove(r.value.0, r.value.1)
    ensures r.Ok? ==> NothingShrinks(buffers, r.value.1) && GrownFrom(start, r.value.1, tables.externals)
    ensures r.Ok? ==> Enlarged(buffers, r.value.1, r.value.0.base, r.value.0.offset + r.value.0.length)
  {
    HasSlotFromTheStart(b, tables, start, buffers);
    r := BuildSlot(b, tables, buffers);
    if r.Ok? {
      var slot := r.value.0;
      EnlargedStillGrown(start, buffers, r.value.1, tables.externals, slot.base, slot.offset + slot.length);
    }
  }

  lemma SlotsStayBuilt(
    bindings: seq<Binding>, b: Binding, tables: Tables, slots: seq<Slot>, slot: Slot, before: Buffers, after: Buffers)
    requires SlotsBuilt(bindings, tables, slots, before) && NothingShrinks(before, after)
    requires SlotFor(b, tables, slot) && SlotFitsAbove(slot, after)
    ensures SlotsBuilt(bindings + [b], tables, slots + [slot], after)
  {
    forall k | 0 <= k < |slots| + 1
      ensures SlotFor((bindings + [b])[k], tables, (slots + [slot])[k]) && SlotFitsAbove((slots + [slot])[k], after)
    {
      if k < |slots| {
        assert SlotFor(bindings[k], tables, slots[k]) && SlotFitsAbove(slots[k], before);
      }
    }
  }

  lemma WindowStep(start: Buffers, now: Buffers, after: Buffers, slots: seq<Slot>, slot: Slot)
    requires Tight(start, now, Windows(slots)) && Grows(start, now)
    requires Enlarged(now, after, slot.base, slot.offset + slot.length)
    ensures Tight(start, after, Windows(slots + [slot]))
  {
    TightStep(start, now, after, Windows(slots), Slice(slot.base, slot.offset, slot.length));
    assert Windows(slots + [slot]) == Windows(slots) + [Slice(slot.base, slot.offset, slot.length)];
  }

  /** `_parse_indirect_binding_slots`, for the one `execute.indirect` block. */
  method ParseSlots(bindings: seq<Binding>, tables: Tables, start: Buffers)
    returns (r: Result<(seq<Slot>, Buffers), Failure>)
    requires Roots(tables.aliases)
    ensures r.Ok? <==> AllHaveSlots(bindings, tables, start)
    ensures r.Ok? ==> SlotsBuilt(bindings, tables, r.value.0, r.value.1)
    ensures r.Ok? ==> GrownFrom(start, r.value.1, tables.externals) && Tight(start, r.value.1, Windows(r.value.0))
  {
    var slots: seq<Slot> := [];
    var buffers := start;
    assert Tight(start, buffers, Windows(slots));
    for k := 0 to |bindings|
      invariant AllHaveSlots(bindings[..k], tables, start)
      invariant SlotsBuilt(bindings[..k], tables, slots, buffers)
      invariant GrownFrom(start, buffers, tables.externals) && Tight(start, buffers, Windows(slots))
    {
      var built := BuildNextSlot(bindings[k], tables, start, buffers);
      if built.Err? {
        return Err(built.error);
      }
      assert bindings[..k + 1] == bindings[..k] + [bindings[k]];
      SlotsStayBuilt(bindings[..k], bindings[k], tables, slots, built.value.0, buffers, built.value.1);
      WindowStep(start, buffers, built.value.1, slots, built.value.0);
      slots := slots + [built.value.0];
      buffers := built.value.1;
    }
    assert bindings[..|bindings|] == bindings;
    r := Ok((slots, buffers));
  }

  /** The slice is in the window of a slot, displaced by the summed offset of a chain and its own. */
  predicate InsideSlot(b: Binding, tables: Tables, slice: Slice, slot: Slot, path: seq<string>) {
    && slice.base == slot.base
    && slot.offset <= slice.offset && slice.offset + slice.length <= slot.offset + slot.length
    && EvalIndex(b.offset, tables.values).Ok?
    && slice.offset == slot.offset + ChainOffset(path, tables.subspans) + EvalIndex(b.offset, tables.values).value
    && EvalIndex(b.length, tables.values) == Ok(slice.length)
  }

  /** The slot the chain ends at, or the one the reference itself stands for. */
  ghost predicate AtSlot(b: Binding, tables: Tables, slice: Slice) {
    exists path, k :: 0 <= k < |tables.slots|
                      && ReachesSlot(b.ref, path, tables, k) && InsideSlot(b, tables, slice, tables.slots[k], path)
  }

  predicate ReachesSlot(ref: string, path: seq<string>, tables: Tables, k: nat) {
    || (path == [] && ref in tables.values && tables.values[ref] == k)
    || (IsChain(ref, path, tables.aliases, tables.subspans)
        && path[|path| - 1] in tables.values && tables.values[path[|path| - 1]] == k)
  }

  /** The slice is at the root of a complete chain, displaced by the summed offset and its own. */
  ghost predicate AtRoot(b: Binding, tables: Tables, slice: Slice) {
    exists path :: IsChain(b.ref, path, tables.aliases, tables.subspans) && DisplacedBy(b, tables, slice, path)
  }

  predicate DisplacedBy(b: Binding, tables: Tables, slice: Slice, path: seq<string>) {
    && path != [] && path[|path| - 1] !in tables.subspans && slice.base == path[|path| - 1]
    && EvalIndex(b.offset, tables.values).Ok?
    && slice.offset == ChainOffset(path, tables.subspans) + EvalIndex(b.offset, tables.values).value
    && EvalIndex(b.length, tables.values) == Ok(slice.length)
  }

  /** Every lowered binding is at its place in the window of a slot, or flattened to its root buffer. */
  lemma BindingIsInSlotOrAtRoot(b: Binding, tables: Tables, slice: Slice)
    requires forall name :: name in tables.subspans ==> tables.subspans[name].offset >= 0
    requires Lowered(b, tables, slice)
    ensures AtSlot(b, tables, slice) || AtRoot(b, tables, slice)
  {
    var r: Resolved :| LoweredVia(b, tables, slice, r);
    if SlotOf(b.ref, tables.values, tables.slots).Some? {
      var k := tables.values[b.ref];
      assert ReachesSlot(b.ref, [], tables, k) && InsideSlot(b, tables, slice, tables.slots[k], []);
    } else {
      var path :| ResolvesAlong(b.ref, path, tables.aliases, tables.subspans, tables.values, tables.slots, r);
      ChainOffsetNonNegative(path, tables.subspans);
      if r.available.Some? {
        var k := tables.values[path[|path| - 1]];
        assert ReachesSlot(b.ref, path, tables, k) && InsideSlot(b, tables, slice, tables.slots[k], path);
      } else {
        assert DisplacedBy(b, tables, slice, path);
      }
    }
  }

  /** Every slot is at the root buffer of its binding's chain, with the binding's own length. */
  lemma SlotIsAtRoot(b: Binding, tables: Tables, slot: Slot)
    requires SlotFor(b, tables, slot)
    ensures AtRoot(b, tables, Slice(slot.base, slot.offset, slot.length))
  {
    var via: Resolved :| SlotVia(b, tables, slot, via);
    var path :| ResolvesAlong(b.ref, path, tables.aliases, tables.subspans, map[], [], via);
    assert DisplacedBy(b, tables, Slice(slot.base, slot.offset, slot.length), path);
  }

  predicate AddsOne(path: seq<string>, subspans: Subspans, totals: seq<int>, i: nat)
    requires i + 1 < |path| == |totals|
  {
    path[i] in subspans && totals[i + 1] == totals[i] + subspans[path[i]].offset
  }

  /** Running totals of the offsets along a path. */
  predicate RunningTotals(path: seq<string>, subspans: Subspans, totals: seq<int>) {
    && |totals| == |path| && path != [] && totals[0] == 0
    && forall i {:trigger AddsOne(path, subspans, totals, i)} :: 0 <= i < |path| - 1 ==>
         AddsOne(path, subspans, totals, i)
  }

  /** The offset of a chain is the total over all its subspans. */
  lemma {:induction false} ChainOffsetAddsUp(
    ref: string, path: seq<string>, aliases: Env, subspans: Subspans) returns (totals: seq<int>)
    requires IsChain(ref, path, aliases, subspans)
    ensures RunningTotals(path, subspans, totals) && totals[|path| - 1] == ChainOffset(path, subspans)
  {
    var n := |path| - 1;
    if n == 0 {
      totals := [0];
    } else {
      var front := path[..n];
      forall i | 0 <= i < n - 1 ensures Link(front, i, aliases, subspans) {
        assert Link(path, i, aliases, subspans);
      }
      var before := ChainOffsetAddsUp(ref, front, aliases, subspans);
      assert Link(path, n - 1, aliases, subspans);
      totals := before + [before[n - 1] + subspans[path[n - 1]].offset];
      forall i | 0 <= i < n
        ensures AddsOne(path, subspans, totals, i)
      {
        if i < n - 1 {
          assert AddsOne(front, subspans, before, i);
        }
      }
    }
  }

  // ---------- tables of non-negative tokens ----------

  predicate NonNegativeToken(token: Token, values: Values) {
    EvalIndex(token, values).Ok? ==> EvalIndex(token, values).value >= 0
  }

  lemma {:induction false} SubspansNonNegative(lines: seq<SubspanLine>, values: Values, aliases: Env)
    requires forall i :: 0 <= i < |lines| ==> NonNegativeToken(lines[i].offset, values)
    ensures forall name :: name in SubspanTable(lines, values, aliases) ==>
              SubspanTable(lines, values, aliases)[name].offset >= 0
  {
    if lines != [] {
      SubspansNonNegative(lines[..|lines| - 1], values, aliases);
    }
  }

  /** The slots of a list of bindings are unique. */
  ghost predicate AreSlots(bindings: seq<Binding>, tables: Tables, slots: seq<Slot>) {
    |slots| == |bindings| && forall k :: 0 <= k < |slots| ==> SlotFor(bindings[k], tables, slots[k])
  }

  lemma SlotsAreUnique(bindings: seq<Binding>, tables: Tables, a: seq<Slot>, b: seq<Slot>)
    requires AreSlots(bindings, tables, a) && AreSlots(bindings, tables, b)
    ensures a == b
  {
    forall k | 0 <= k < |a|
      ensures a[k] == b[k]
    {
      assert SlotFor(bindings[k], tables, a[k]) && SlotFor(bindings[k], tables, b[k]);
      var p: Resolved :| SlotVia(bindings[k], tables, a[k], p);
      var q: Resolved :| SlotVia(bindings[k], tables, b[k], q);
      ResolutionIsUnique(bindings[k].ref, tables.aliases, tables.subspans, map[], [], p, q);
    }
  }

  lemma BasesAreGrown(
    lines: seq<SubspanLine>, aliases: Env, start: Buffers, now: Buffers, externals: Externals)
    requires BasesAdded(lines, aliases, start, now, externals)
    ensures GrownFrom(start, now, externals)
  {
    forall ref | ref in now
      ensures KeptOrNew(ref, lines, aliases, start, now, externals)
    {
    }
  }

  /** Slots of non-negative tokens over such subspans start inside their buffers. */
  lemma SlotsNonNegative(bindings: seq<Binding>, tables: Tables, slots: seq<Slot>, buffers: Buffers)
    requires SlotsBuilt(bindings, tables, slots, buffers)
    requires forall name :: name in tables.subspans ==> tables.subspans[name].offset >= 0
    requires forall k :: 0 <= k < |bindings| ==> NonNegativeToken(bindings[k].offset, tables.values)
    ensures forall k :: 0 <= k < |slots| ==> slots[k].offset >= 0
  {
    forall k | 0 <= k < |slots|
      ensures slots[k].offset >= 0
    {
      assert SlotFor(bindings[k], tables, slots[k]);
      var via: Resolved :| SlotVia(bindings[k], tables, slots[k], via);
      var path :| ResolvesAlong(bindings[k].ref, path, tables.aliases, tables.subspans, map[], [], via);
      ChainOffsetNonNegative(path, tables.subspans);
    }
  }
}
