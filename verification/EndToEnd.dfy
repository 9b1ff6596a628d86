/**
  The whole path of a schedule: verified, rendered as a descriptor, and invoked on real buffers.
  The bytes left in the output buffer are those of a run in which every allocation has a buffer of
  its own.
 */
module EndToEnd {
  import opened Basics
  import opened Schedule
  import opened Machine
  import opened Lowering
  import opened Refinement
  import opened StaticDirect
  import V = ScheduleVerifier

  /** All four base pointers are given. */
  ghost predicate AllPresent(context: Context) {
    forall c: BufferClass :: context.Buffer(c) != null
  }

  /** Byte `b` of the output region is a byte of output `i` of the reference run. */
  ghost predicate IsOutputByte(x: Setup, packed: Store<BufferClass>, separate: Store<string>, b: nat, i: nat)
    requires x.Valid()
  {
    && i < |x.s.allocations| && x.s.allocations[i].cls.value == Output
    && x.Id(i) in x.plan.offsetById && x.Id(i) in separate && Output in packed
    && var o := x.plan.offsetById[x.Id(i)];
       && o <= b < o + |separate[x.Id(i)]| && b < |packed[Output]|
       && packed[Output][b] == separate[x.Id(i)][b - o]
  }

  /** Byte `b` of the output region belongs to some output, and holds its byte. */
  ghost predicate OutputByteAgrees(x: Setup, packed: Store<BufferClass>, separate: Store<string>, b: nat)
    requires x.Valid()
  {
    exists i: nat :: IsOutputByte(x, packed, separate, b, i)
  }

  /** The whole output region is that of the reference run. */
  ghost predicate OutputsAgree(x: Setup, packed: Store<BufferClass>, separate: Store<string>)
    requires x.Valid()
  {
    forall b: nat {:trigger OutputByteAgrees(x, packed, separate, b)} ::
      b < x.d.outputBytes ==> OutputByteAgrees(x, packed, separate, b)
  }

  /** The reference run from `start` has the same status and the same output bytes. */
  ghost predicate EndsLike(x: Setup, start: Store<string>, status: Status, after: Store<BufferClass>)
    requires x.Valid()
  {
    && IsSeparateStore(x.s, start)
    && BuffersAgree(x.s, x.plan, x.packed, start, a => !IsArena(x.plan.classById, a))
    && status == Replay(x.library, References(x), start).0
    && OutputsAgree(x, after, Replay(x.library, References(x), start).1)
  }

  lemma OutputBytesAgree(x: Setup, after: Store<BufferClass>, separate: Store<string>)
    requires x.Valid() && SameShape(x.packed, after)
    requires StaticsInPlace(x)
    requires BuffersAgree(x.s, x.plan, after, separate, a => !IsArena(x.plan.classById, a))
    ensures OutputsAgree(x, after, separate)
  {
    assert LargeEnough(x.d, after);
    forall b: nat | b < x.d.outputBytes
      ensures OutputByteAgrees(x, after, separate, b)
    {
      var i := OutputBytesAreReferenceBytes(x, after, separate, b);
      assert IsOutputByte(x, after, separate, b, i);
    }
  }

  lemma PackedEndsLikeReference(x: Setup, origin: Origin) returns (start: Store<string>)
    requires Deployed(x.s, origin, x.plan, x.d) && KeepsApart(x.s, origin, x.plan)
    requires ValidLibrary(x.library) && LargeEnough(x.d, x.packed)
    ensures x.Valid()
    ensures EndsLike(x, start, Replay(x.library, x.d.commands, x.packed).0, Replay(x.library, x.d.commands, x.packed).1)
    ensures Replay(x.library, x.d.commands, x.packed).0 != InvalidSlice
  {
    start := PackingPreservesMeaning(x, origin);
    DeployedIsValid(x, origin);
    var n := |x.d.commands|;
    assert AgreesAt(x, start, n);
    assert x.d.commands[..n] == x.d.commands && References(x)[..n] == References(x);
    OutputBytesAgree(x, Replay(x.library, x.d.commands, x.packed).1, Replay(x.library, References(x), start).1);
  }

  /** An invocable context with all pointers offers regions that are large enough. */
  lemma InvocableIsLargeEnough(d: Descriptor, context: Context)
    requires context.Valid() && AllPresent(context) && Invocable(d, context)
    ensures LargeEnough(d, context.Regions()) && Fits32(d)
  {
    forall c: BufferClass
      ensures c in context.Regions() && RegionBytes(d, c) <= |context.Regions()[c]|
    {
      assert context.Buffer(c) != null && context.Buffer(c).Length == context.Bytes(c);
    }
    forall c: BufferClass
      ensures RegionBytes(d, c) < U32
    {
      assert RegionBytes(d, c) <= context.Bytes(c) < U32;
    }
    assert RegionBytes(d, Input) < U32 && RegionBytes(d, Output) < U32;
    assert RegionBytes(d, Const) < U32 && RegionBytes(d, Arena) < U32;
  }

  /** The descriptor fits 32 bits, the invocation ran like the reference, and no slice was refused. */
  ghost predicate Completed(x: Setup, start: Store<string>, status: Status, after: Store<BufferClass>) {
    x.Valid() && Fits32(x.d) && EndsLike(x, start, status, after) && status != InvalidSlice
  }

  /** A region is smaller than the descriptor demands, or there is nothing to dispatch. */
  ghost predicate Refused(x: Setup, status: Status, after: Store<BufferClass>) {
    status == InvalidArgument && after == x.packed
  }

  /**
    What invoking the deployed schedule `s` from the regions `before` came to; `x` is what was run. With
    the offsets of a memory plan, it has to keep live transients apart.
   */
  ghost predicate Invoked(
    s: Schedule, origin: Origin, library: Library, context: Context, before: Store<BufferClass>,
    x: Setup, start: Store<string>, status: Status, after: Store<BufferClass>)
  {
    && x.s == s && x.library == library && x.packed == before
    && Deployed(x.s, origin, x.plan, x.d)
    && if Invocable(x.d, context) then KeepsApart(x.s, origin, x.plan) ==> Completed(x, start, status, after)
       else Refused(x, status, after)
  }

  /** `ai_static_direct_invoke` of a deployed schedule. */
  method InvokeDeployed(
    ghost s: Schedule, ghost origin: Origin, ghost plan: Plan, d: Descriptor, library: Library, context: Context)
    returns (status: Status, ghost x: Setup, ghost start: Store<string>)
    requires ValidLibrary(library) && context.Valid() && AllPresent(context) && Deployed(s, origin, plan, d)
    modifies context.Buffers()
    ensures Invoked(s, origin, library, context, old(context.Regions()), x, start, status, context.Regions())
  {
    x, start := Setup(s, plan, d, library, context.Regions()), map[];
    if Invocable(d, context) {
      InvocableIsLargeEnough(d, context);
      InvokeReplaysCommands(s, origin, plan, d);
      if KeepsApart(s, origin, plan) {
        start := PackedEndsLikeReference(x, origin);
      }
    }
    status := Invoke(Arguments(Some(d), Some(library), true), context);
  }

  /** The schedules that can be rendered, with or without a memory plan. */
  ghost predicate RenderableBy(s: Schedule, memoryPlan: Option<MemoryPlan>) {
    if memoryPlan.Some? then RenderableWith(s, memoryPlan.value) else Renderable(s)
  }

  /** `verify_schedule` and `render_descriptor`: what both let through is deployed. */
  method VerifyAndRender(s: Schedule, memoryPlan: Option<MemoryPlan>)
    returns (d: Option<Descriptor>, ghost origin: Origin, ghost plan: Plan)
    ensures d.Some? <==> V.Accepted(s, false, true) && RenderableBy(s, memoryPlan)
    ensures d.Some? ==> origin.memoryPlan == memoryPlan && Deployed(s, origin, plan, d.value)
  {
    origin, plan := *, *;
    var verdict, verified := V.VerifySchedule(s, false, true);
    if verdict.Err? {
      return None, origin, plan;
    }
    var rendered, computed, used := RenderDescriptor(s, memoryPlan);
    if rendered.Err? {
      return None, origin, plan;
    }
    d, origin, plan := Some(rendered.value), Origin(computed.value, memoryPlan), used.value;
  }

  /** `verify_schedule`, then `render_descriptor`, then `ai_static_direct_invoke`. */
  method VerifyRenderInvoke(s: Schedule, memoryPlan: Option<MemoryPlan>, library: Library, context: Context)
    returns (status: Option<Status>, ghost origin: Origin, ghost x: Setup, ghost start: Store<string>)
    requires ValidLibrary(library) && context.Valid() && AllPresent(context)
    modifies context.Buffers()
    ensures status.Some? <==> V.Accepted(s, false, true) && RenderableBy(s, memoryPlan)
    ensures status.Some? ==>
              && origin.memoryPlan == memoryPlan
              && Invoked(s, origin, library, context, old(context.Regions()), x, start, status.value, context.Regions())
    ensures status.None? ==> context.Regions() == old(context.Regions())
  {
    ghost var before := context.Regions();
    var rendered, from, plan := VerifyAndRender(s, memoryPlan);
    assert context.Regions() == before;
    origin, x, start := from, *, map[];
    if rendered.None? {
      return None, origin, x, start;
    }
    var outcome;
    outcome, x, start := InvokeDeployed(s, origin, plan, rendered.value, library, context);
    status := Some(outcome);
  }
}
