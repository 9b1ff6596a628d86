/**
  A memory plan that gives two live transients the same byte passes every check of the generator, and
  the deployed schedule no longer runs like one with a buffer for each.
 */
module SharedBytes {
  import opened Basics
  import opened Placement
  import opened Schedule
  import opened Machine
  import opened Simulation
  import opened Lowering
  import opened Lockstep
  import opened Refinement
  import V = ScheduleVerifier

  /** Two transients of one byte; `b` is filled while `a` is live, and then `a` is copied to the output. */
  function CopyAfterFills(a: string, b: string, o: string): Schedule {
    Schedule(true, true,
             [Allocation(a, Some(Arena), 1), Allocation(b, Some(Arena), 1), Allocation(o, Some(Output), 1)],
             [DispatchEntry(0, [1, 1, 1], [], [Slice(a, 0, 1), Slice(o, 0, 1)])],
             Some([Command.Fill(Slice(a, 0, 1), 1), Command.Fill(Slice(b, 0, 1), 2), RunDispatch(0)]), None)
  }

  function LiveSpans(a: string, b: string): map<string, Interval> {
    map[a := Interval(0, 3), b := Interval(1, 2)]
  }

  /** Reads the first byte of the first binding and writes it to the second. */
  function CopyProgram(): Program {
    Read(0, 0, seq(256, v requires 0 <= v < 256 => Write(1, 0, v, Done(0))))
  }

  function CopyLibrary(): Library {
    Library([Some((state: DispatchState, id: WorkgroupId) => CopyProgram())], None)
  }

  /** The plan of a schedule with these intervals. */
  ghost function PlanWith(allocations: seq<Allocation>, intervals: map<string, Interval>): Plan
    requires WellFormed(allocations)
  {
    var arena := ArenaAllocations(allocations);
    Plan(ClassById(allocations), StaticOffsets(allocations) + OffsetById(arena, intervals),
         Totals(ClassBytes(allocations, Input), ClassBytes(allocations, Output), ClassBytes(allocations, Const),
                ArenaBytes(FirstFit(Requests(arena, intervals)))),
         MaxSize(arena), intervals)
  }

  /** Both at offset 0 of an arena of one byte. */
  function SharedPlan(a: string, b: string): MemoryPlan {
    MemoryPlan(None, None, None, 1, map[a := PlanEntry(0, 1), b := PlanEntry(0, 1)])
  }

  function Copy<K>(from: View<K>, to: View<K>): Dispatch<K> {
    Dispatch(0, Grid(1, 1, 1), [], [from, to])
  }

  function SharedDescriptor(): Descriptor {
    var byte, copy := View(Arena, 0, 1), Copy(View(Arena, 0, 1), View(Output, 0, 1));
    Descriptor(0, 1, 0, 1, [copy], [Work.Fill(byte, 1), Work.Fill(byte, 2), Launch(copy)], 0)
  }

  /** Three different names. */
  predicate AreNames(a: string, b: string, o: string) {
    a != "" && b != "" && o != "" && a != b && a != o && b != o
  }

  ghost function SharedOrigin(a: string, b: string, o: string): Origin
    requires AreNames(a, b, o)
  {
    Origin(PlanWith(CopyAfterFills(a, b, o).allocations, LiveSpans(a, b)), Some(SharedPlan(a, b)))
  }

  ghost function SharedSetup(a: string, b: string, o: string, packed: Store<BufferClass>): Setup
    requires AreNames(a, b, o)
  {
    Setup(CopyAfterFills(a, b, o), SharedOrigin(a, b, o).computed.(offsetById := map[a := 0, b := 0, o := 0]),
          SharedDescriptor(), CopyLibrary(), packed)
  }

  // ---------- the shared plan passes ----------

  /** The transients alone. */
  lemma ClassesOfTransients(a: string, b: string)
    requires a != "" && b != "" && a != b
    ensures
      var allocations := [Allocation(a, Some(Arena), 1), Allocation(b, Some(Arena), 1)];
      && ClassById(allocations) == map[a := Arena, b := Arena] && SizeById(allocations) == map[a := 1, b := 1]
      && StaticOffsets(allocations) == map[] && ArenaAllocations(allocations) == [(a, 1), (b, 1)]
      && ClassBytes(allocations, Input) == 0 && ClassBytes(allocations, Output) == 0
      && ClassBytes(allocations, Const) == 0
  {
    var two := [Allocation(a, Some(Arena), 1), Allocation(b, Some(Arena), 1)];
    assert two[..0] == [] && two[..2] == two && two[0..1] == [two[0]] && two[1..2] == [two[1]];
    ClassifyStep(two, 0);
    ClassifyStep(two, 1);
    assert two[..1] == [two[0]] && two[..1][..0] == [];
    assert SizeById(two[..1]) == map[a := 1];
  }

  lemma ClassesAre(a: string, b: string, o: string)
    requires AreNames(a, b, o)
    ensures
      var allocations := CopyAfterFills(a, b, o).allocations;
      && ClassById(allocations) == map[a := Arena, b := Arena, o := Output]
      && SizeById(allocations) == map[a := 1, b := 1, o := 1]
      && StaticOffsets(allocations) == map[o := 0]
      && ArenaAllocations(allocations) == [(a, 1), (b, 1)]
      && ClassBytes(allocations, Input) == 0 && ClassBytes(allocations, Output) == 1
      && ClassBytes(allocations, Const) == 0
  {
    ClassesOfTransients(a, b);
    assert CopyAfterFills(a, b, o).allocations[..2] == [Allocation(a, Some(Arena), 1), Allocation(b, Some(Arena), 1)];
  }

  lemma SpansAre(a: string, b: string, o: string)
    requires AreNames(a, b, o)
    ensures
      var s := CopyAfterFills(a, b, o);
      AreIntervals(ClassById(s.allocations), s.dispatches, V.Commands(s), LiveSpans(a, b))
  {
    ClassesAre(a, b, o);
    var s := CopyAfterFills(a, b, o);
    var commands, classes := V.Commands(s), map[a := Arena, b := Arena, o := Output];
    assert TightIntervals(classes, s.dispatches, commands, LiveSpans(a, b), 3) by {
      assert UsesAt(commands, s.dispatches, 0, 0, a) && UsesAt(commands, s.dispatches, 2, 0, a);
      assert UsesAt(commands, s.dispatches, 1, 0, b);
    }
    forall k: nat, j: nat, id | k < 3 && UsesAt(commands, s.dispatches, k, j, id) && IsArena(classes, id)
      ensures Covers(LiveSpans(a, b), id, k)
    {
      OnlyTheseUses(a, b, o, k, j, id);
    }
  }

  lemma OnlyTheseUses(a: string, b: string, o: string, k: nat, j: nat, id: string)
    requires AreNames(a, b, o)
    requires
      var s := CopyAfterFills(a, b, o);
      UsesAt(V.Commands(s), s.dispatches, k, j, id)
    ensures if k == 0 then id == a else if k == 1 then id == b else k == 2 && (id == a || id == o)
  {
  }

  lemma CopyIsDispatchedOnce(a: string, b: string, o: string)
    requires AreNames(a, b, o)
    ensures V.EachDispatchedOnce(V.Commands(CopyAfterFills(a, b, o)), 1)
  {
    var three := V.Commands(CopyAfterFills(a, b, o));
    var two := three[..2];
    var one := two[..1];
    var none: seq<Command> := [];
    assert one[..0] == none;
    assert one[0] == Command.Fill(Slice(a, 0, 1), 1) && two[1] == Command.Fill(Slice(b, 0, 1), 2);
    assert V.Occurrences(one, 0) == 0;
    assert V.Occurrences(two, 0) == 0;
    assert three[2] == RunDispatch(0);
  }

  lemma SlicesAreInBounds(a: string, b: string, o: string, k: nat, j: nat)
    requires AreNames(a, b, o) && k < 3
    requires
      var s := CopyAfterFills(a, b, o);
      j < |CommandSlices(V.Commands(s)[k], s.dispatches).value|
    ensures
      var s := CopyAfterFills(a, b, o);
      V.SliceInBounds(CommandSlices(V.Commands(s)[k], s.dispatches).value[j], s.allocations)
  {
    var s := CopyAfterFills(a, b, o);
    assert s.allocations[0].id == a && s.allocations[1].id == b && s.allocations[2].id == o;
  }

  lemma FillsAreAccepted(a: string, b: string, o: string)
    requires AreNames(a, b, o)
    ensures V.Accepted(CopyAfterFills(a, b, o), false, true)
  {
    var s := CopyAfterFills(a, b, o);
    ClassesAre(a, b, o);
    CopyIsDispatchedOnce(a, b, o);
    forall k, j | 0 <= k < 3 && 0 <= j < |CommandSlices(V.Commands(s)[k], s.dispatches).value|
      ensures V.SliceInBounds(CommandSlices(V.Commands(s)[k], s.dispatches).value[j], s.allocations)
    {
      SlicesAreInBounds(a, b, o, k, j);
    }
  }

  lemma OffsetsAre(a: string, b: string, o: string)
    requires AreNames(a, b, o)
    ensures SharedOrigin(a, b, o).computed.offsetById.Keys == {a, b, o}
    ensures SharedOrigin(a, b, o).computed.offsetById[o] == 0
  {
    ClassesAre(a, b, o);
    OffsetsOfTransients(a, b);
    var statics, transients := map[o := 0], OffsetById([(a, 1), (b, 1)], LiveSpans(a, b));
    assert SharedOrigin(a, b, o).computed.offsetById == statics + transients;
    UnionOf(statics, transients, o);
  }

  lemma UnionOf(one: map<string, nat>, other: map<string, nat>, key: string)
    requires key in one && key !in other
    ensures (one + other).Keys == one.Keys + other.Keys && (one + other)[key] == one[key]
  {
  }

  lemma OffsetsOfTransients(a: string, b: string)
    requires a != b
    ensures OffsetById([(a, 1), (b, 1)], LiveSpans(a, b)).Keys == {a, b}
  {
    var arena: seq<(string, nat)> := [(a, 1), (b, 1)];
    var i := OffsetByIdAt(arena, LiveSpans(a, b), arena[0]);
    var j := OffsetByIdAt(arena, LiveSpans(a, b), arena[1]);
    forall id | id in OffsetById(arena, LiveSpans(a, b))
      ensures id == a || id == b
    {
      ArenaKeys(arena, LiveSpans(a, b), id);
    }
  }

  /** What lowering looks at in a plan. */
  predicate PlacesShared(plan: Plan, a: string, b: string, o: string) {
    && plan.classById == map[a := Arena, b := Arena, o := Output]
    && plan.offsetById == map[a := 0, b := 0, o := 0]
    && plan.totals.input == 0 && plan.totals.output == 1 && plan.totals.constant == 0
  }

  lemma EntryIsPlaced(plan: Plan, a: string, b: string, o: string)
    requires AreNames(a, b, o) && PlacesShared(plan, a, b, o)
    ensures
      var entry := CopyAfterFills(a, b, o).dispatches[0];
      && HasOffsets(plan.classById, plan.offsetById) && RenderableDispatch(entry, plan.classById)
      && PlacedDispatch(entry, plan) == Copy(View(Arena, 0, 1), View(Output, 0, 1))
      && DirectDispatch(entry, plan.classById) == Copy(View(a, 0, 1), View(o, 0, 1))
  {
    var entry := CopyAfterFills(a, b, o).dispatches[0];
    assert entry.bindings == [Slice(a, 0, 1), Slice(o, 0, 1)];
    assert PlacedViews(entry.bindings, plan) == [View(Arena, 0, 1), View(Output, 0, 1)];
    assert Naturals(entry.constants) == [];
    assert DirectDispatch(entry, plan.classById).bindings == [View(a, 0, 1), View(o, 0, 1)];
  }

  lemma CommandsArePlaced(plan: Plan, a: string, b: string, o: string)
    requires AreNames(a, b, o) && PlacesShared(plan, a, b, o)
    ensures IsLowering(CopyAfterFills(a, b, o), plan, 1, SharedDescriptor())
    ensures
      var s := CopyAfterFills(a, b, o);
      DirectWorks(V.Commands(s), s.dispatches, plan.classById) == OwnBuffers(a, b, o)
  {
    EntryIsPlaced(plan, a, b, o);
    var s, d := CopyAfterFills(a, b, o), SharedDescriptor();
    assert |s.dispatches| == 1 && |V.Commands(s)| == 3;
    forall k | 0 <= k < 3
      ensures RenderableCommand(V.Commands(s)[k], s.dispatches, plan.classById)
      ensures d.commands[k] == PlacedWork(V.Commands(s)[k], s.dispatches, plan)
      ensures OwnBuffers(a, b, o)[k] == DirectWork(V.Commands(s)[k], s.dispatches, plan.classById)
    {
    }
  }

  /** The commands of the reference run. */
  function OwnBuffers(a: string, b: string, o: string): seq<Work<string>> {
    [Work.Fill(View(a, 0, 1), 1), Work.Fill(View(b, 0, 1), 2), Launch(Copy(View(a, 0, 1), View(o, 0, 1)))]
  }

  lemma SharedIsLowering(a: string, b: string, o: string, packed: Store<BufferClass>)
    requires AreNames(a, b, o)
    ensures
      var x := SharedSetup(a, b, o, packed);
      && PlacesShared(x.plan, a, b, o) && x.d == SharedDescriptor() && x.library == CopyLibrary()
      && x.Lowered() && References(x) == OwnBuffers(a, b, o)
  {
    ClassesAre(a, b, o);
    CommandsArePlaced(SharedSetup(a, b, o, packed).plan, a, b, o);
  }

  /** The memory plan fits: every transient has its size and lies in the arena. */
  lemma SharedPlanFits(a: string, b: string, o: string, plan: Plan)
    requires AreNames(a, b, o) && plan.classById == map[a := Arena, b := Arena, o := Output]
    ensures MemoryPlanFits(SharedPlan(a, b), plan, SizeById(CopyAfterFills(a, b, o).allocations))
  {
    ClassesAre(a, b, o);
  }

  lemma SharedPlanIsEffective(a: string, b: string, o: string, computed: Plan)
    requires AreNames(a, b, o) && computed.classById == map[a := Arena, b := Arena, o := Output]
    requires computed.offsetById.Keys == {a, b, o} && computed.offsetById[o] == 0
    ensures EffectivePlan(CopyAfterFills(a, b, o), Some(SharedPlan(a, b)), computed,
                          computed.(offsetById := map[a := 0, b := 0, o := 0]), 1)
  {
  }

  /** The generator renders the schedule with the shared plan. */
  lemma SharedPlanIsDeployed(a: string, b: string, o: string, packed: Store<BufferClass>)
    requires AreNames(a, b, o)
    ensures
      var x := SharedSetup(a, b, o, packed);
      Deployed(x.s, SharedOrigin(a, b, o), x.plan, x.d) && x.Lowered()
  {
    ClassesAre(a, b, o);
    SpansAre(a, b, o);
    FillsAreAccepted(a, b, o);
    OffsetsAre(a, b, o);
    SharedPlanFits(a, b, o, SharedOrigin(a, b, o).computed);
    SharedPlanIsEffective(a, b, o, SharedOrigin(a, b, o).computed);
    SharedIsLowering(a, b, o, packed);
  }

  // ---------- and loses a byte ----------

  lemma CopyRuns<K>(from: View<K>, to: View<K>, store: Store<K>)
    requires ViewFits(from, store) && ViewFits(to, store) && from.length == to.length == 1
    ensures IssueDispatch(CopyLibrary(), Copy(from, to), store)
            == (OK, Machine.Poke(store, to.key, to.offset, store[from.key][from.offset]))
  {
    var d := Copy(from, to);
    var programs := Programs(CopyLibrary(), d);
    assert ViewsFit(d.bindings, store) && SupportedDispatch(CopyLibrary(), d);
    assert programs == [CopyProgram()] && programs[..0] == [];
    assert ExecAll(programs, d.bindings, store) == Exec(CopyProgram(), d.bindings, store);
    CopyExecutes(from, to, store);
  }

  lemma {:induction false} CopyExecutes<K>(from: View<K>, to: View<K>, store: Store<K>)
    requires ViewFits(from, store) && ViewFits(to, store) && from.length == to.length == 1
    requires ViewsFit([from, to], store)
    ensures Exec(CopyProgram(), [from, to], store)
            == (0, Machine.Poke(store, to.key, to.offset, store[from.key][from.offset]))
  {
    var views := [from, to];
    var v := ReadThrough(views, 0, 0, store);
    var next := CopyProgram().next[v];
    assert next == Write(1, 0, v, Done(0));
    assert Exec(CopyProgram(), views, store) == Exec(next, views, store);
    assert WriteThrough(views, 1, 0, v, store) == Machine.Poke(store, to.key, to.offset, v);
  }

  /** Two fills and the copy: the output gets what the second fill left at the window that is read. */
  lemma {:induction false} FillsThenCopy<K>(
    first: View<K>, second: View<K>, from: View<K>, to: View<K>, store: Store<K>)
    requires ViewFits(first, store) && ViewFits(second, store) && ViewFits(from, store) && ViewFits(to, store)
    requires from.length == to.length == 1
    ensures
      var works := [Work.Fill(first, 1), Work.Fill(second, 2), Launch(Copy(from, to))];
      var filled := FillView(second, 2, FillView(first, 1, store));
      Replay(CopyLibrary(), works, store)
      == (OK, Machine.Poke(filled, to.key, to.offset, filled[from.key][from.offset]))
  {
    var works := [Work.Fill(first, 1), Work.Fill(second, 2), Launch(Copy(from, to))];
    ReplayExtends(CopyLibrary(), works, 0, store);
    ReplayExtends(CopyLibrary(), works, 1, store);
    ReplayExtends(CopyLibrary(), works, 2, store);
    assert works[..0] == [] && works[..3] == works;
    CopyRuns(from, to, FillView(second, 2, FillView(first, 1, store)));
  }

  /** The packed run leaves the byte of `b` in the output. */
  lemma {:induction false} PackedCopies(packed: Store<BufferClass>)
    requires LargeEnough(SharedDescriptor(), packed)
    ensures
      var (status, after) := Replay(CopyLibrary(), SharedDescriptor().commands, packed);
      status == OK && Output in after && |after[Output]| > 0 && after[Output][0] == 2
  {
    assert Arena in packed && RegionBytes(SharedDescriptor(), Arena) <= |packed[Arena]|;
    assert Output in packed && RegionBytes(SharedDescriptor(), Output) <= |packed[Output]|;
    var byte := View(Arena, 0, 1);
    FillsThenCopy(byte, byte, byte, View(Output, 0, 1), packed);
    assert FillView(byte, 2, FillView(byte, 1, packed))[Arena][0] == 2;
  }

  /** With buffers of their own the byte of `a` arrives. */
  lemma {:induction false} ReferenceCopies(a: string, b: string, o: string, separate: Store<string>)
    requires AreNames(a, b, o) && IsSeparateStore(CopyAfterFills(a, b, o), separate)
    ensures
      var (status, after) := Replay(CopyLibrary(), OwnBuffers(a, b, o), separate);
      o in after && |after[o]| == 1 && after[o][0] == 1
  {
    var s := CopyAfterFills(a, b, o);
    assert s.allocations[0].id == a && s.allocations[1].id == b && s.allocations[2].id == o;
    FillsThenCopy(View(a, 0, 1), View(b, 0, 1), View(a, 0, 1), View(o, 0, 1), separate);
    assert FillView(View(a, 0, 1), 1, separate)[a][0] == 1;
  }

  /** The outputs differ from those of every run with a buffer for each. */
  lemma SharedBytesBreakTheRun(
    a: string, b: string, o: string, packed: Store<BufferClass>, separate: Store<string>)
    requires AreNames(a, b, o) && LargeEnough(SharedDescriptor(), packed)
    ensures
      var x := SharedSetup(a, b, o, packed);
      Deployed(x.s, SharedOrigin(a, b, o), x.plan, x.d) && x.Lowered() && !RunsLike(x, separate)
  {
    var x := SharedSetup(a, b, o, packed);
    SharedPlanIsDeployed(a, b, o, packed);
    SharedIsLowering(a, b, o, packed);
    if RunsLike(x, separate) {
      assert AgreesAt(x, separate, 3);
      EndsApart(x, a, b, o, separate);
    }
  }

  /** A run that agreed after all commands would have both bytes in the output. */
  lemma EndsApart(x: Setup, a: string, b: string, o: string, separate: Store<string>)
    requires AreNames(a, b, o) && x.Lowered() && LargeEnough(SharedDescriptor(), x.packed)
    requires PlacesShared(x.plan, a, b, o) && x.s == CopyAfterFills(a, b, o)
    requires x.d == SharedDescriptor() && x.library == CopyLibrary() && References(x) == OwnBuffers(a, b, o)
    requires IsSeparateStore(x.s, separate)
    ensures !AgreesAt(x, separate, 3)
  {
    assert x.d.commands[..3] == x.d.commands && References(x)[..3] == References(x);
    PackedCopies(x.packed);
    ReferenceCopies(a, b, o, separate);
    var packed', separate' := Replay(x.library, x.d.commands, x.packed).1, Replay(x.library, References(x), separate).1;
    if BuffersAgree(x.s, x.plan, packed', separate', id => !IsArena(x.plan.classById, id)) {
      OutputsAgree(x, a, b, o, packed', separate');
    }
  }

  lemma OutputsAgree(
    x: Setup, a: string, b: string, o: string, packed: Store<BufferClass>, separate: Store<string>)
    requires AreNames(a, b, o) && PlacesShared(x.plan, a, b, o) && x.s == CopyAfterFills(a, b, o)
    requires BuffersAgree(x.s, x.plan, packed, separate, id => !IsArena(x.plan.classById, id))
    ensures o in separate && Output in packed && |packed[Output]| > 0 && |separate[o]| == 1
    ensures packed[Output][0] == separate[o][0]
  {
    assert x.s.allocations[2] == Allocation(o, Some(Output), 1) && !IsArena(x.plan.classById, o);
    assert Agrees(Home(x.plan, o, 1), packed, separate[o]);
  }
}
