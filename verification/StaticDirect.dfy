/**
  The C interpreter of ai_static_direct.c: checked slices, dispatch and fill commands over the
  four regions of a context, updated in place. Each function is proved against Machine.
 */
module StaticDirect {
  import opened Basics
  import opened Schedule
  import opened Machine
  import opened Lowering

  /** The region of a null pointer is absent. Region sizes are the sizes of the buffers. */
  class Context {
    const input: array?<Byte>
    const inputBytes: nat
    const output: array?<Byte>
    const outputBytes: nat
    const constData: array?<Byte>
    const constBytes: nat
    const arena: array?<Byte>
    const arenaBytes: nat

    constructor (input: array?<Byte>, inputBytes: nat, output: array?<Byte>, outputBytes: nat,
                 constData: array?<Byte>, constBytes: nat, arena: array?<Byte>, arenaBytes: nat)
      ensures this.input == input && this.inputBytes == inputBytes
      ensures this.output == output && this.outputBytes == outputBytes
      ensures this.constData == constData && this.constBytes == constBytes
      ensures this.arena == arena && this.arenaBytes == arenaBytes
      ensures Buffer(Input) == input && Bytes(Input) == inputBytes
      ensures Buffer(Output) == output && Bytes(Output) == outputBytes
      ensures Buffer(Const) == constData && Bytes(Const) == constBytes
      ensures Buffer(Arena) == arena && Bytes(Arena) == arenaBytes
    {
      this.input, this.inputBytes := input, inputBytes;
      this.output, this.outputBytes := output, outputBytes;
      this.constData, this.constBytes := constData, constBytes;
      this.arena, this.arenaBytes := arena, arenaBytes;
    }

    function Buffer(c: BufferClass): array?<Byte> {
      match c
      case Input => input
      case Output => output
      case Const => constData
      case Arena => arena
    }

    function Bytes(c: BufferClass): nat {
      match c
      case Input => inputBytes
      case Output => outputBytes
      case Const => constBytes
      case Arena => arenaBytes
    }

    ghost function Buffers(): set<object> {
      (if input != null then {input} else {}) + (if output != null then {output} else {})
      + (if constData != null then {constData} else {}) + (if arena != null then {arena} else {})
    }

    /** The declared 32-bit sizes are right and the regions are separate memory. */
    ghost predicate Valid() {
      && (forall c: BufferClass :: Bytes(c) < U32)
      && (forall c: BufferClass :: Buffer(c) != null ==> Buffer(c).Length == Bytes(c))
      && (forall c: BufferClass, e: BufferClass :: c != e && Buffer(c) != null ==> Buffer(c) != Buffer(e))
    }

    ghost function Regions(): Store<BufferClass>
      reads Buffers()
    {
      map c: BufferClass | Buffer(c) != null :: Buffer(c)[..]
    }

    method Poke(c: BufferClass, at: nat, value: Byte)
      requires Valid() && Buffer(c) != null && at < Buffer(c).Length
      modifies Buffers()
      ensures Regions() == Machine.Poke(old(Regions()), c, at, value)
    {
      var region := Buffer(c);
      region[at] := value;
      assert forall e: BufferClass :: e != c && Buffer(e) != null ==> Buffer(e)[..] == old(Buffer(e)[..]);
      assert region[..] == old(region[..])[at := value];
    }
  }

  /** A checked slice: a pointer into a buffer, and its length. */
  datatype Pointer = Pointer(region: BufferClass, at: nat, length: nat)

  /** `checked_slice_ptr`: `None` is INVALID_SLICE. */
  method CheckedSlicePtr(context: Context, slice: View<BufferClass>) returns (p: Option<Pointer>)
    requires context.Valid()
    ensures p.Some? <==> ViewFits(slice, context.Regions())
    ensures p.Some? <==>
              context.Buffer(slice.key) != null && slice.offset + slice.length <= context.Buffer(slice.key).Length
    ensures p.Some? ==> p.value == Pointer(slice.key, slice.offset, slice.length)
  {
    var base := context.Buffer(slice.key);
    var regionBytes := context.Bytes(slice.key);
    if base == null || slice.offset > regionBytes || slice.length > regionBytes - slice.offset {
      return None;
    }
    p := Some(Pointer(slice.key, slice.offset, slice.length));
  }

  /** The pointers and lengths collected for a dispatch name exactly its windows. */
  ghost predicate PointersFor(pointers: seq<Pointer>, views: seq<View<BufferClass>>) {
    && |pointers| == |views|
    && forall i :: 0 <= i < |views| ==> pointers[i] == Pointer(views[i].key, views[i].offset, views[i].length)
  }

  /** A kernel's read through a binding. */
  method ReadBinding(
    b: nat, i: nat, pointers: seq<Pointer>, context: Context, ghost views: seq<View<BufferClass>>) returns (v: Byte)
    requires context.Valid() && PointersFor(pointers, views) && ViewsFit(views, context.Regions())
    ensures v == ReadThrough(views, b, i, context.Regions())
  {
    v := 0;
    if b < |pointers| && i < pointers[b].length {
      assert ViewFits(views[b], context.Regions());
      v := context.Buffer(pointers[b].region)[pointers[b].at + i];
    }
  }

  /** A kernel's write through a binding. */
  method WriteBinding(
    b: nat, i: nat, v: Byte, pointers: seq<Pointer>, context: Context, ghost views: seq<View<BufferClass>>)
    requires context.Valid() && PointersFor(pointers, views) && ViewsFit(views, context.Regions())
    modifies context.Buffers()
    ensures context.Regions() == WriteThrough(views, b, i, v, old(context.Regions()))
  {
    if b < |pointers| && i < pointers[b].length {
      assert ViewFits(views[b], context.Regions());
      context.Poke(pointers[b].region, pointers[b].at + i, v);
    }
  }

  /** One read of a kernel; `None` when it has no continuation for the value. */
  method StepRead(p: Program, pointers: seq<Pointer>, context: Context, ghost views: seq<View<BufferClass>>)
    returns (next: Option<Program>)
    requires p.Read? && context.Valid() && PointersFor(pointers, views) && ViewsFit(views, context.Regions())
    ensures next.None? ==> Exec(p, views, context.Regions()) == (-1, context.Regions())
    ensures next.Some? ==>
              && (p decreases to next.value)
              && Exec(p, views, context.Regions()) == Exec(next.value, views, context.Regions())
  {
    var v := ReadBinding(p.binding, p.index, pointers, context, views);
    next := if v < |p.next| then Some(p.next[v]) else None;
  }

  /** One write of a kernel. */
  method StepWrite(p: Program, pointers: seq<Pointer>, context: Context, ghost views: seq<View<BufferClass>>)
    requires p.Write? && context.Valid() && PointersFor(pointers, views) && ViewsFit(views, context.Regions())
    modifies context.Buffers()
    ensures ViewsFit(views, context.Regions())
    ensures Exec(p.rest, views, context.Regions()) == Exec(p, views, old(context.Regions()))
  {
    WriteBinding(p.binding, p.index, p.value, pointers, context, views);
  }

  /** A call of one kernel for one workgroup, read by read and write by write. */
  method CallKernel(p: Program, pointers: seq<Pointer>, context: Context, ghost views: seq<View<BufferClass>>)
    returns (rc: int)
    requires context.Valid() && PointersFor(pointers, views) && ViewsFit(views, context.Regions())
    modifies context.Buffers()
    ensures (rc, context.Regions()) == Exec(p, views, old(context.Regions()))
    decreases p
  {
    ghost var outcome := Exec(p, views, context.Regions());
    if p.Done? {
      rc := p.rc;
    } else if p.Read? {
      var next := StepRead(p, pointers, context, views);
      if next.None? {
        return -1;
      }
      rc := CallKernel(next.value, pointers, context, views);
    } else {
      StepWrite(p, pointers, context, views);
      assert Exec(p.rest, views, context.Regions()) == outcome;
      rc := CallKernel(p.rest, pointers, context, views);
    }
  }

  /** How many workgroups the nested loops run before workgroup (x, y, z). */
  ghost function GroupsBefore(g: Grid, z: nat, y: nat, x: nat): (n: nat)
    decreases z, y, x
  {
    if x > 0 then GroupsBefore(g, z, y, x - 1) + 1
    else if y > 0 then GroupsBefore(g, z, y - 1, g.x)
    else if z > 0 then GroupsBefore(g, z - 1, g.y, 0)
    else 0
  }

  lemma {:induction false} GroupsBeforeIs(g: Grid, z: nat, y: nat, x: nat)
    ensures GroupsBefore(g, z, y, x) == (z * g.y + y) * g.x + x
    decreases z, y, x
  {
    if x > 0 {
      GroupsBeforeIs(g, z, y, x - 1);
    } else if y > 0 {
      GroupsBeforeIs(g, z, y - 1, g.x);
      assert (z * g.y + (y - 1)) * g.x + g.x == (z * g.y + y) * g.x;
    } else if z > 0 {
      GroupsBeforeIs(g, z - 1, g.y, 0);
      assert (z - 1) * g.y + g.y == z * g.y;
    }
  }

  lemma {:induction false} AllGroups(g: Grid)
    ensures GroupsBefore(g, g.z, 0, 0) == GridSize(g)
  {
    GroupsBeforeIs(g, g.z, 0, 0);
    assert (g.z * g.y + 0) * g.x + 0 == g.z * g.y * g.x == GridSize(g);
  }

  lemma IndexOfNest(g: Grid, z: nat, y: nat, x: nat)
    requires x < g.x && y < g.y && z < g.z
    ensures GroupAt(g, (z * g.y + y) * g.x + x) == WorkgroupId(x, y, z % U16)
    ensures (z * g.y + y) * g.x + x < GridSize(g)
  {
    DivModUnique(z * g.y + y, g.x, x);
    DivModUnique(z, g.y, y);
    MulLe(z + 1, g.z, g.y);
    assert (z + 1) * g.y == z * g.y + g.y;
    MulLe(z * g.y + y + 1, g.z * g.y, g.x);
    assert (z * g.y + y + 1) * g.x == (z * g.y + y) * g.x + g.x;
    assert g.z * g.y * g.x == GridSize(g);
  }

  /** The loops reach workgroup (x, y, z) at its place in the order of the grid. */
  lemma {:induction false} GroupOfNest(g: Grid, z: nat, y: nat, x: nat)
    requires x < g.x && y < g.y && z < g.z
    ensures GroupsBefore(g, z, y, x) < GridSize(g)
    ensures GroupAt(g, GroupsBefore(g, z, y, x)) == WorkgroupId(x, y, z % U16)
  {
    IndexOfNest(g, z, y, x);
    GroupsBeforeIs(g, z, y, x);
  }

  /** The run of the first `n` workgroups. */
  ghost predicate RanFirst(
    library: Library, d: Dispatch<BufferClass>, start: Store<BufferClass>, n: int, now: Store<BufferClass>)
    requires ValidLibrary(library) && SupportedDispatch(library, d) && ViewsFit(d.bindings, start)
  {
    && 0 <= n <= GridSize(d.workgroups)
    && ExecAll(Programs(library, d)[..n], d.bindings, start) == (0, now)
  }

  lemma {:induction false} FailedGroupIsFinal(
    programs: seq<Program>, views: seq<View<BufferClass>>, store: Store<BufferClass>, n: nat)
    requires ViewsFit(views, store) && n <= |programs| && ExecAll(programs[..n], views, store).0 != 0
    ensures ExecAll(programs, views, store) == ExecAll(programs[..n], views, store)
    decreases |programs|
  {
    if n == |programs| {
      assert programs[..n] == programs;
    } else {
      var m := |programs| - 1;
      assert programs[..m][..n] == programs[..n];
      FailedGroupIsFinal(programs[..m], views, store, n);
    }
  }

  /** The innermost call: workgroup (x, y, z) of the grid. */
  method RunGroup(
    library: Library, d: Dispatch<BufferClass>, pointers: seq<Pointer>, context: Context,
    z: nat, y: nat, x: nat, ghost start: Store<BufferClass>, ghost n: nat) returns (ok: bool)
    requires ValidLibrary(library) && SupportedDispatch(library, d)
    requires context.Valid() && PointersFor(pointers, d.bindings) && ViewsFit(d.bindings, start)
    requires x < d.workgroups.x && y < d.workgroups.y && z < d.workgroups.z
    requires n == GroupsBefore(d.workgroups, z, y, x) && RanFirst(library, d, start, n, context.Regions())
    modifies context.Buffers()
    ensures ok ==> RanFirst(library, d, start, n + 1, context.Regions())
    ensures !ok ==>
              var r := ExecAll(Programs(library, d), d.bindings, start);
              r.0 != 0 && r.1 == context.Regions()
  {
    ghost var before := context.Regions();
    ProgramOfNest(library, d, z, y, x);
    var kernel := library.exports[d.ordinal].value;
    var rc := CallKernel(kernel(StateOf(d), WorkgroupId(x, y, z % U16)), pointers, context, d.bindings);
    OneMoreGroup(library, d, start, n, before, rc, context.Regions());
    ok := rc == 0;
  }

  /** The program of a workgroup is at its place in the list. */
  lemma ProgramOfNest(library: Library, d: Dispatch<BufferClass>, z: nat, y: nat, x: nat)
    requires ValidLibrary(library) && SupportedDispatch(library, d)
    requires x < d.workgroups.x && y < d.workgroups.y && z < d.workgroups.z
    ensures GroupsBefore(d.workgroups, z, y, x) < GridSize(d.workgroups)
    ensures Programs(library, d)[GroupsBefore(d.workgroups, z, y, x)]
            == library.exports[d.ordinal].value(StateOf(d), WorkgroupId(x, y, z % U16))
    ensures GroupsBefore(d.workgroups, z, y, x + 1) == GroupsBefore(d.workgroups, z, y, x) + 1
  {
    GroupOfNest(d.workgroups, z, y, x);
  }

  /** One more workgroup has run: all went well so far, or this is the end. */
  lemma OneMoreGroup(
    library: Library, d: Dispatch<BufferClass>, start: Store<BufferClass>, n: nat,
    before: Store<BufferClass>, rc: int, now: Store<BufferClass>)
    requires ValidLibrary(library) && SupportedDispatch(library, d) && ViewsFit(d.bindings, start)
    requires n < GridSize(d.workgroups) && RanFirst(library, d, start, n, before)
    requires ViewsFit(d.bindings, before) && (rc, now) == Exec(Programs(library, d)[n], d.bindings, before)
    ensures rc == 0 ==> RanFirst(library, d, start, n + 1, now)
    ensures rc != 0 ==> ExecAll(Programs(library, d), d.bindings, start) == (rc, now)
  {
    var programs := Programs(library, d);
    assert programs[..n + 1][..n] == programs[..n];
    assert ExecAll(programs[..n + 1], d.bindings, start) == (rc, now);
    if rc != 0 {
      FailedGroupIsFinal(programs, d.bindings, start, n + 1);
    }
  }

  /** The three nested workgroup loops of `issue_dispatch`. */
  method RunWorkgroups(library: Library, d: Dispatch<BufferClass>, pointers: seq<Pointer>, context: Context)
    returns (ok: bool)
    requires ValidLibrary(library) && SupportedDispatch(library, d)
    requires context.Valid() && PointersFor(pointers, d.bindings) && ViewsFit(d.bindings, context.Regions())
    modifies context.Buffers()
    ensures
      var r := ExecAll(Programs(library, d), d.bindings, old(context.Regions()));
      ok == (r.0 == 0) && context.Regions() == r.1
  {
    ghost var start := context.Regions();
    var g := d.workgroups;
    for z := 0 to g.z
      invariant RanFirst(library, d, start, GroupsBefore(g, z, 0, 0), context.Regions())
    {
      for y := 0 to g.y
        invariant RanFirst(library, d, start, GroupsBefore(g, z, y, 0), context.Regions())
      {
        for x := 0 to g.x
          invariant RanFirst(library, d, start, GroupsBefore(g, z, y, x), context.Regions())
        {
          ok := RunGroup(library, d, pointers, context, z, y, x, start, GroupsBefore(g, z, y, x));
          if !ok {
            return;
          }
        }
      }
    }
    AllGroups(g);
    assert Programs(library, d)[..GridSize(g)] == Programs(library, d);
    ok := true;
  }

  /** Too many bindings, no such export, or attributes other than the counts of the dispatch and no local memory. */
  predicate IsUnsupported(library: Library, d: Dispatch<BufferClass>)
    requires ValidLibrary(library)
  {
    || |d.bindings| > 8
    || d.ordinal >= |library.exports| || library.exports[d.ordinal].None?
    || (library.attributes.Some?
        && library.attributes.value[d.ordinal] != Attributes(|d.constants|, |d.bindings|, 0))
  }

  /** A window in a region that is absent or too small. */
  predicate HasBadSlice(d: Dispatch<BufferClass>, context: Context) {
    exists i :: 0 <= i < |d.bindings| && IsBadSlice(d.bindings[i], context)
  }

  predicate IsBadSlice(v: View<BufferClass>, context: Context) {
    context.Buffer(v.key) == null || v.offset + v.length > context.Buffer(v.key).Length
  }

  lemma BadSliceDoesNotFit(d: Dispatch<BufferClass>, context: Context)
    requires context.Valid()
    ensures HasBadSlice(d, context) <==> !ViewsFit(d.bindings, context.Regions())
  {
    forall i | 0 <= i < |d.bindings|
      ensures IsBadSlice(d.bindings[i], context) <==> !ViewFits(d.bindings[i], context.Regions())
    {
    }
  }

  /** When a dispatch is refused, in the order of the checks, and what that leaves. */
  lemma DispatchRefusals(library: Library, d: Dispatch<BufferClass>, context: Context)
    requires ValidLibrary(library) && context.Valid()
    ensures
      var (status, after) := IssueDispatch(library, d, context.Regions());
      && (status == UnsupportedDispatch <==> IsUnsupported(library, d))
      && (status == InvalidSlice <==> !IsUnsupported(library, d) && HasBadSlice(d, context))
      && (status == UnsupportedDispatch || status == InvalidSlice ==> after == context.Regions())
  {
    BadSliceDoesNotFit(d, context);
  }

  /** The loop that checks the bindings; `None` is INVALID_SLICE. */
  method CollectPointers(d: Dispatch<BufferClass>, context: Context) returns (pointers: Option<seq<Pointer>>)
    requires context.Valid()
    ensures pointers.Some? <==> ViewsFit(d.bindings, context.Regions())
    ensures pointers.Some? ==> PointersFor(pointers.value, d.bindings)
  {
    var collected: seq<Pointer> := [];
    for i := 0 to |d.bindings|
      invariant PointersFor(collected, d.bindings[..i])
      invariant ViewsFit(d.bindings[..i], context.Regions())
    {
      var p := CheckedSlicePtr(context, d.bindings[i]);
      if p.None? {
        return None;
      }
      collected := collected + [p.value];
    }
    assert d.bindings[..|d.bindings|] == d.bindings;
    pointers := Some(collected);
  }

  /** `issue_dispatch` after the validation: the bindings are checked and the workgroups run. */
  method IssueSupported(library: Library, d: Dispatch<BufferClass>, context: Context) returns (status: Status)
    requires ValidLibrary(library) && context.Valid()
    requires |d.bindings| <= MAX_BINDINGS && SupportedDispatch(library, d)
    modifies context.Buffers()
    ensures (status, context.Regions()) == IssueDispatch(library, d, old(context.Regions()))
  {
    ghost var outcome := IssueDispatch(library, d, context.Regions());
    var pointers := CollectPointers(d, context);
    if pointers.None? {
      return InvalidSlice;
    }
    var ok := RunWorkgroups(library, d, pointers.value, context);
    status := if ok then OK else DispatchFailed;
    assert (status, context.Regions()) == outcome;
  }

  /** `issue_dispatch` */
  method IssueDispatchCommand(library: Library, d: Dispatch<BufferClass>, context: Context) returns (status: Status)
    requires ValidLibrary(library) && context.Valid()
    modifies context.Buffers()
    ensures (status, context.Regions()) == IssueDispatch(library, d, old(context.Regions()))
    ensures status == UnsupportedDispatch <==> IsUnsupported(library, d)
    ensures status == InvalidSlice <==> !IsUnsupported(library, d) && HasBadSlice(d, context)
    ensures status == UnsupportedDispatch || status == InvalidSlice ==> context.Regions() == old(context.Regions())
  {
    DispatchRefusals(library, d, context);
    if |d.bindings| > MAX_BINDINGS || !SupportedDispatch(library, d) {
      return UnsupportedDispatch;
    }
    status := IssueSupported(library, d, context);
  }

  lemma FillByteByByte(target: View<BufferClass>, i: nat, value: Byte, store: Store<BufferClass>)
    requires ViewFits(target, store) && i < target.length
    ensures FillView(View(target.key, target.offset, i + 1), value, store)
            == Machine.Poke(FillView(View(target.key, target.offset, i), value, store),
                            target.key, target.offset + i, value)
  {
    var longer := FillView(View(target.key, target.offset, i + 1), value, store);
    var shorter := FillView(View(target.key, target.offset, i), value, store);
    var poked: seq<Byte> := shorter[target.key][target.offset + i := value];
    assert longer[target.key] == poked;
  }

  lemma FillNothing(target: View<BufferClass>, value: Byte, store: Store<BufferClass>)
    requires ViewFits(target, store)
    ensures FillView(View(target.key, target.offset, 0), value, store) == store
  {
    assert FillView(View(target.key, target.offset, 0), value, store)[target.key] == store[target.key];
  }

  /** One byte of the `memset`. */
  method FillByte(
    p: Pointer, i: nat, value: Byte, context: Context,
    ghost target: View<BufferClass>, ghost before: Store<BufferClass>)
    requires context.Valid() && p == Pointer(target.key, target.offset, target.length)
    requires ViewFits(target, before) && i < target.length
    requires context.Regions() == FillView(View(target.key, target.offset, i), value, before)
    modifies context.Buffers()
    ensures context.Regions() == FillView(View(target.key, target.offset, i + 1), value, before)
  {
    FillByteByByte(target, i, value, before);
    context.Poke(p.region, p.at + i, value);
  }

  /** The `memset` of `issue_fill`, written as a loop. */
  method Memset(p: Pointer, value: Byte, context: Context, ghost target: View<BufferClass>)
    requires context.Valid() && p == Pointer(target.key, target.offset, target.length)
    requires ViewFits(target, context.Regions())
    modifies context.Buffers()
    ensures context.Regions() == FillView(target, value, old(context.Regions()))
  {
    ghost var before := context.Regions();
    FillNothing(target, value, before);
    for i := 0 to p.length
      invariant context.Regions() == FillView(View(target.key, target.offset, i), value, before)
    {
      FillByte(p, i, value, context, target, before);
    }
    assert View(target.key, target.offset, p.length) == target;
  }

  lemma BadTargetDoesNotFit(target: View<BufferClass>, context: Context)
    requires context.Valid()
    ensures IsBadSlice(target, context) <==> !ViewFits(target, context.Regions())
  {
  }

  /** `issue_fill` */
  method IssueFill(target: View<BufferClass>, pattern: nat, context: Context) returns (status: Status)
    requires context.Valid()
    modifies context.Buffers()
    ensures
      var before := old(context.Regions());
      (status, context.Regions()) ==
      if ViewFits(target, before) then (OK, FillView(target, pattern % 256, before)) else (InvalidSlice, before)
    ensures status == if IsBadSlice(target, context) then InvalidSlice else OK
    ensures status == InvalidSlice ==> context.Regions() == old(context.Regions())
  {
    BadTargetDoesNotFit(target, context);
    var p := CheckedSlicePtr(context, target);
    if p.None? {
      return InvalidSlice;
    }
    Memset(p.value, pattern % 256, context, target);
    status := OK;
  }

  /** `issue_command` */
  method IssueCommand(library: Library, work: Work<BufferClass>, context: Context) returns (status: Status)
    requires ValidLibrary(library) && context.Valid()
    modifies context.Buffers()
    ensures (status, context.Regions()) == Issue(library, work, old(context.Regions()))
    ensures work.Malformed? <==> status == InvalidDescriptor
    ensures status == InvalidDescriptor ==> context.Regions() == old(context.Regions())
  {
    match work {
      case Launch(d) => status := IssueDispatchCommand(library, d, context);
      case Fill(target, pattern) => status := IssueFill(target, pattern, context);
      case Malformed => status := InvalidDescriptor;
    }
  }

  /** The commands a descriptor stands for: without a command list, every dispatch once. */
  function Workload(descriptor: Descriptor): seq<Work<BufferClass>> {
    if descriptor.commands != [] then descriptor.commands
    else seq(|descriptor.dispatches|, i requires 0 <= i < |descriptor.dispatches| => Launch(descriptor.dispatches[i]))
  }

  predicate Invocable(descriptor: Descriptor, context: Context) {
    && descriptor.dispatches != []
    && descriptor.unsupportedFeatures == 0
    && context.arenaBytes >= descriptor.arenaBytes
    && context.inputBytes >= descriptor.inputBytes
    && context.constBytes >= descriptor.constBytes
    && context.outputBytes >= descriptor.outputBytes
  }

  /** The command loop, or without commands the dispatch loop, of `ai_static_direct_invoke`. */
  method Run(descriptor: Descriptor, library: Library, context: Context) returns (status: Status)
    requires ValidLibrary(library) && context.Valid()
    modifies context.Buffers()
    ensures (status, context.Regions()) == Replay(library, Workload(descriptor), old(context.Regions()))
  {
    ghost var before := context.Regions();
    ghost var works := Workload(descriptor);
    if |descriptor.commands| > 0 {
      for i := 0 to |descriptor.commands|
        invariant (OK, context.Regions()) == Replay(library, works[..i], before)
      {
        ReplayExtends(library, works, i, before);
        status := IssueCommand(library, descriptor.commands[i], context);
        if status != OK {
          FailureIsFinal(library, works, i + 1, before);
          return;
        }
      }
      assert works[..|works|] == works;
      return OK;
    }
    for i := 0 to |descriptor.dispatches|
      invariant (OK, context.Regions()) == Replay(library, works[..i], before)
    {
      ReplayExtends(library, works, i, before);
      status := IssueDispatchCommand(library, descriptor.dispatches[i], context);
      if status != OK {
        FailureIsFinal(library, works, i + 1, before);
        return;
      }
    }
    assert works[..|works|] == works;
    status := OK;
  }

  /** The arguments of an invocation that may be null; of the environment nothing else is looked at. */
  datatype Arguments = Arguments(descriptor: Option<Descriptor>, library: Option<Library>, hasEnvironment: bool) {
    predicate Given() {
      descriptor.Some? && library.Some? && hasEnvironment
    }
  }

  /** An argument is missing, there is nothing to dispatch or something unsupported, or a region is too small. */
  predicate IsRefused(arguments: Arguments, context: Context) {
    || arguments.descriptor.None? || arguments.library.None? || !arguments.hasEnvironment
    || var d := arguments.descriptor.value;
       || d.dispatches == [] || d.unsupportedFeatures != 0
       || context.arenaBytes < d.arenaBytes || context.inputBytes < d.inputBytes
       || context.constBytes < d.constBytes || context.outputBytes < d.outputBytes
  }

  /** No command returns the code of a refused invocation. */
  lemma {:induction false} ReplayIsNotRefused(
    library: Library, works: seq<Work<BufferClass>>, store: Store<BufferClass>)
    requires ValidLibrary(library)
    ensures Replay(library, works, store).0 != InvalidArgument
  {
    if works != [] {
      ReplayIsNotRefused(library, works[..|works| - 1], store);
    }
  }

  /** `ai_static_direct_invoke` */
  method Invoke(arguments: Arguments, context: Context?) returns (status: Status)
    requires arguments.library.Some? ==> ValidLibrary(arguments.library.value)
    requires context != null ==> context.Valid()
    modifies if context != null then context.Buffers() else {}
    ensures context == null ==> status == InvalidArgument
    ensures context != null ==>
              (status, context.Regions()) ==
              if arguments.Given() && Invocable(arguments.descriptor.value, context)
              then Replay(arguments.library.value, Workload(arguments.descriptor.value), old(context.Regions()))
              else (InvalidArgument, old(context.Regions()))
    ensures context != null ==> (status == InvalidArgument <==> IsRefused(arguments, context))
  {
    if arguments.descriptor.None? || arguments.library.None? || !arguments.hasEnvironment || context == null {
      return InvalidArgument;
    }
    var descriptor := arguments.descriptor.value;
    if descriptor.dispatches == []
      || descriptor.unsupportedFeatures != 0
      || context.arenaBytes < descriptor.arenaBytes
      || context.inputBytes < descriptor.inputBytes
      || context.constBytes < descriptor.constBytes
      || context.outputBytes < descriptor.outputBytes
    {
      return InvalidArgument;
    }
    ReplayIsNotRefused(arguments.library.value, Workload(descriptor), context.Regions());
    status := Run(descriptor, arguments.library.value, context);
  }
}
