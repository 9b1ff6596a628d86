/**
  Remapping retained commands onto a smaller arena (generate_static_direct_remap_plan.py): the
  plan, and the C code rendered from it that rewrites slices and constants in place.
 */
module Remap {
  import opened Basics
  import opened Placement
  import opened Schedule
  import opened Machine

  // ---------- the plan ----------

  datatype SummaryPlacement = SummaryPlacement(offset: int, size: int, interval: Option<(int, int)>)

  /** What the plan reads from a verify summary. */
  datatype Summary = Summary(placements: map<string, SummaryPlacement>, arenaBytes: int)

  datatype Scratch = Scratch(allocation: string, endCommand: int)

  datatype Arguments = Arguments(
    patchAllocation: string, patchInternalOffset: int, producedBytes: int,
    continuation: int, remapEnd: int, scratch: Option<Scratch>)

  datatype ScratchRemap = ScratchRemap(oldOffset: nat, bytes: nat, newOffset: nat, endCommand: nat)

  datatype RemapPlan = RemapPlan(
    originalArenaBytes: nat, arenaBytes: nat,
    oldBindingOffset: nat, oldBindingBytes: nat, oldInternalBase: nat, rebasedBytes: nat,
    continuation: nat, remapEnd: nat,
    scratch: Option<ScratchRemap>)

  predicate ValidPlacement(summary: Summary, allocation: string) {
    && allocation != ""
    && allocation in summary.placements
    && var p := summary.placements[allocation];
       && p.interval.Some? && 0 <= p.interval.value.0 < p.interval.value.1
       && p.offset >= 0 && p.size > 0
  }

  /** Everything `build_remap_plan` checks before it builds the plan. */
  predicate ValidArguments(summary: Summary, a: Arguments) {
    && a.patchInternalOffset >= 0 && a.producedBytes > 0
    && 0 <= a.continuation < a.remapEnd
    && ValidPlacement(summary, a.patchAllocation)
    && var patch := summary.placements[a.patchAllocation];
       && a.patchInternalOffset < patch.size
       && a.producedBytes <= patch.size - a.patchInternalOffset
       && a.remapEnd <= patch.interval.value.1
       && (a.scratch.Some? ==>
             && a.continuation < a.scratch.value.endCommand
             && ValidPlacement(summary, a.scratch.value.allocation)
             && a.scratch.value.endCommand <= summary.placements[a.scratch.value.allocation].interval.value.1)
       && summary.arenaBytes > 0
  }

  method CheckPlacement(summary: Summary, allocation: string) returns (ok: bool)
    ensures ok == ValidPlacement(summary, allocation)
  {
    if allocation == "" || allocation !in summary.placements {
      return false;
    }
    var p := summary.placements[allocation];
    if p.interval.None? || p.interval.value.0 < 0 || p.interval.value.0 >= p.interval.value.1 {
      return false;
    }
    ok := p.offset >= 0 && p.size > 0;
  }

  /** The plan made of a summary: the new arena holds the rebased region, then the aligned scratch buffer. */
  ghost predicate IsRemapPlan(summary: Summary, a: Arguments, plan: RemapPlan)
    requires ValidArguments(summary, a)
  {
    var patch := summary.placements[a.patchAllocation];
    && plan.oldBindingOffset == patch.offset && plan.oldBindingBytes == patch.size
    && plan.oldInternalBase == a.patchInternalOffset
    && plan.rebasedBytes == patch.size - a.patchInternalOffset
    && plan.originalArenaBytes == summary.arenaBytes
    && plan.continuation == a.continuation && plan.remapEnd == a.remapEnd
    && plan.scratch.Some? == a.scratch.Some?
    && (a.scratch.None? ==> plan.arenaBytes == plan.rebasedBytes)
    && (a.scratch.Some? ==>
          var was, now := summary.placements[a.scratch.value.allocation], plan.scratch.value;
          && now.oldOffset == was.offset && now.bytes == was.size
          && now.endCommand == a.scratch.value.endCommand
          && now.newOffset % 64 == 0
          && plan.rebasedBytes <= now.newOffset < plan.rebasedBytes + 64
          && plan.arenaBytes == now.newOffset + now.bytes)
  }

  /** `build_remap_plan` */
  method BuildRemapPlan(summary: Summary, a: Arguments) returns (r: Option<RemapPlan>)
    ensures r.Some? <==> ValidArguments(summary, a)
    ensures r.Some? ==> IsRemapPlan(summary, a, r.value)
  {
    if a.patchInternalOffset < 0 || a.producedBytes <= 0 || a.continuation < 0 || a.remapEnd < 0
      || a.continuation >= a.remapEnd
    {
      return None;
    }
    var ok := CheckPlacement(summary, a.patchAllocation);
    if !ok {
      return None;
    }
    var patch := summary.placements[a.patchAllocation];
    if a.patchInternalOffset >= patch.size {
      return None;
    }
    var rebasedBytes := patch.size - a.patchInternalOffset;
    if a.producedBytes > rebasedBytes
      || a.continuation > patch.interval.value.1 || a.remapEnd > patch.interval.value.1
    {
      return None;
    }
    var arenaBytes := rebasedBytes;
    var scratch: Option<ScratchRemap> := None;
    if a.scratch.Some? {
      var endCommand := a.scratch.value.endCommand;
      if endCommand < 0 || a.continuation >= endCommand {
        return None;
      }
      ok := CheckPlacement(summary, a.scratch.value.allocation);
      if !ok {
        return None;
      }
      var placement := summary.placements[a.scratch.value.allocation];
      if endCommand > placement.interval.value.1 {
        return None;
      }
      AlignUpIsLeast(rebasedBytes, ALIGNMENT);
      var newOffset := AlignUp(rebasedBytes, ALIGNMENT);
      scratch := Some(ScratchRemap(placement.offset, placement.size, newOffset, endCommand));
      arenaBytes := Max(arenaBytes, newOffset + placement.size);
    }
    if summary.arenaBytes <= 0 {
      return None;
    }
    r := Some(RemapPlan(summary.arenaBytes, arenaBytes, patch.offset, patch.size, a.patchInternalOffset,
                        rebasedBytes, a.continuation, a.remapEnd, scratch));
  }

  // ---------- the rendered C ----------

  /** The enum of the rendered source, named after its members. */
  datatype Constants = Constants(
    oldBigBindingOffset: nat, oldBigBindingBytes: nat, oldBigInternalBase: nat, oldArenaBytes: nat,
    workBufferOldOffset: nat, workBufferBytes: nat, workBufferNewOffset: nat,
    bigSuffixEndCommand: nat, workBufferEndCommand: nat)
  {
    function ActualBase(): nat {
      oldBigBindingOffset + oldBigInternalBase
    }

    /** The enum value as a slice length: a negative one wraps around. */
    function SuffixBytes(): nat {
      (oldArenaBytes - ActualBase()) % U32
    }
  }

  /** `render_c_source` needs exactly one scratch buffer. */
  function Render(plan: RemapPlan): (c: Constants)
    requires plan.scratch.Some?
  {
    Constants(plan.oldBindingOffset, plan.oldBindingBytes, plan.oldInternalBase, plan.originalArenaBytes,
              plan.scratch.value.oldOffset, plan.scratch.value.bytes, plan.scratch.value.newOffset,
              plan.remapEnd, plan.scratch.value.endCommand)
  }

  /** The constants describe a patch window and a scratch window, apart, of an old 32-bit arena. */
  predicate Sane(c: Constants) {
    && c.oldBigInternalBase < c.oldBigBindingBytes
    && c.oldArenaBytes < U32
    && c.oldBigBindingOffset + c.oldBigBindingBytes <= c.oldArenaBytes
    && 0 < c.workBufferBytes
    && c.workBufferOldOffset + c.workBufferBytes <= c.oldArenaBytes
    && !RangesOverlap(c.workBufferOldOffset, c.workBufferBytes, c.oldBigBindingOffset, c.oldBigBindingBytes)
    && c.oldBigBindingBytes - c.oldBigInternalBase <= c.workBufferNewOffset
  }

  /** Patch and scratch allocation lie in the arena of the summary, apart from each other. */
  predicate PlacementsFit(summary: Summary, a: Arguments)
    requires ValidArguments(summary, a) && a.scratch.Some?
  {
    var patch, scratch := summary.placements[a.patchAllocation], summary.placements[a.scratch.value.allocation];
    && patch.offset + patch.size <= summary.arenaBytes && scratch.offset + scratch.size <= summary.arenaBytes
    && !RangesOverlap(scratch.offset, scratch.size, patch.offset, patch.size)
  }

  /**
    The constants of a plan are sane exactly when the placements of the summary fit, which
    `build_remap_plan` never checks. The new arena has the size the plan says.
   */
  lemma RenderedPlanIsSane(summary: Summary, a: Arguments, plan: RemapPlan)
    requires ValidArguments(summary, a) && a.scratch.Some? && IsRemapPlan(summary, a, plan)
    requires summary.arenaBytes < U32
    ensures Sane(Render(plan)) <==> PlacementsFit(summary, a)
    ensures 0 < Render(plan).bigSuffixEndCommand && 0 < Render(plan).workBufferEndCommand
    ensures NewArenaBytes(Render(plan)) == plan.arenaBytes
  {
  }

  /** A scratch allocation that is the patch allocation itself is accepted. */
  lemma OverlapIsAccepted(name: string)
    requires name != ""
    ensures
      var summary := Summary(map[name := SummaryPlacement(0, 128, Some((0, 9)))], 128);
      var a := Arguments(name, 64, 1, 0, 5, Some(Scratch(name, 5)));
      ValidArguments(summary, a) && !PlacementsFit(summary, a)
  {
  }

  /** The patch allocation is the last thing in the old arena. */
  predicate PatchEndsArena(c: Constants) {
    c.oldBigBindingOffset + c.oldBigBindingBytes == c.oldArenaBytes
  }

  datatype Outcome = Outcome(status: Status, slice: View<BufferClass>, bigSuffixBinding: bool)

  /** `remap_arena_slice`, as a function of the slice it rewrites. */
  function RemapSlice(slice: View<BufferClass>, commandIndex: nat, c: Constants): Outcome {
    if slice.key != Arena then Outcome(OK, slice, false)
    else if slice.offset == c.oldBigBindingOffset && slice.length == c.oldBigBindingBytes then
      if commandIndex >= c.bigSuffixEndCommand then Outcome(InvalidSlice, slice, false)
      else Outcome(OK, View(Arena, 0, c.SuffixBytes()), true)
    else if commandIndex < c.workBufferEndCommand
            && c.workBufferOldOffset <= slice.offset < c.workBufferBytes then
      if slice.length > c.workBufferBytes - slice.offset then Outcome(InvalidSlice, slice, false)
      else Outcome(OK, slice.(offset := slice.offset + c.workBufferNewOffset), false)
    else if commandIndex < c.bigSuffixEndCommand && c.ActualBase() <= slice.offset < c.oldArenaBytes then
      if slice.length > c.oldArenaBytes - slice.offset then Outcome(InvalidSlice, slice, false)
      else Outcome(OK, slice.(offset := slice.offset - c.ActualBase()), false)
    else if commandIndex < c.bigSuffixEndCommand && c.oldBigBindingOffset <= slice.offset < c.ActualBase() then
      Outcome(InvalidSlice, slice, false)
    else Outcome(OK, slice, false)
  }

  /** The C function: rewrites one entry of the copied bindings. */
  method RemapArenaSlice(bindings: array<View<BufferClass>>, i: nat, commandIndex: nat, c: Constants, flag: bool)
    returns (status: Status, bigSuffixBinding: bool)
    requires i < bindings.Length
    modifies bindings
    ensures
      var outcome := RemapSlice(old(bindings[i]), commandIndex, c);
      && status == outcome.status
      && bindings[..] == old(bindings[..])[i := outcome.slice]
      && bigSuffixBinding == (flag || outcome.bigSuffixBinding)
    ensures old(bindings[i]).key != Arena ==>
              status == OK && bindings[..] == old(bindings[..]) && bigSuffixBinding == flag
    ensures status == InvalidSlice ==> bindings[..] == old(bindings[..]) && bigSuffixBinding == flag
  {
    bigSuffixBinding := flag;
    if bindings[i].key != Arena {
      return OK, bigSuffixBinding;
    }
    var originalOffset := bindings[i].offset;
    if bindings[i].offset == c.oldBigBindingOffset && bindings[i].length == c.oldBigBindingBytes {
      if commandIndex >= c.bigSuffixEndCommand {
        return InvalidSlice, bigSuffixBinding;
      }
      bindings[i] := bindings[i].(offset := 0);
      bindings[i] := bindings[i].(length := c.SuffixBytes());
      return OK, true;
    }
    if commandIndex < c.workBufferEndCommand
      && bindings[i].offset >= c.workBufferOldOffset && bindings[i].offset < c.workBufferBytes
    {
      if bindings[i].length > c.workBufferBytes - bindings[i].offset {
        return InvalidSlice, bigSuffixBinding;
      }
      bindings[i] := bindings[i].(offset := bindings[i].offset + c.workBufferNewOffset);
      return OK, bigSuffixBinding;
    }
    if commandIndex < c.bigSuffixEndCommand
      && bindings[i].offset >= c.ActualBase() && bindings[i].offset < c.oldArenaBytes
    {
      if bindings[i].length > c.oldArenaBytes - bindings[i].offset {
        return InvalidSlice, bigSuffixBinding;
      }
      bindings[i] := bindings[i].(offset := bindings[i].offset - c.ActualBase());
    }
    if commandIndex < c.bigSuffixEndCommand
      && originalOffset >= c.oldBigBindingOffset && originalOffset < c.ActualBase()
    {
      return InvalidSlice, bigSuffixBinding;
    }
    status := OK;
  }

  function RemapConstant(value: nat, c: Constants): nat {
    if c.oldBigInternalBase <= value < c.oldBigBindingBytes then value - c.oldBigInternalBase else value
  }

  /** `remap_big_suffix_constants` */
  method RemapBigSuffixConstants(constants: array<nat>, c: Constants)
    modifies constants
    ensures forall i :: 0 <= i < constants.Length ==> constants[i] == RemapConstant(old(constants[i]), c)
    ensures forall i :: 0 <= i < constants.Length ==>
              if c.oldBigInternalBase <= old(constants[i]) < c.oldBigBindingBytes
              then constants[i] + c.oldBigInternalBase == old(constants[i])
              else constants[i] == old(constants[i])
  {
    for i := 0 to constants.Length
      invariant forall j :: 0 <= j < i ==> constants[j] == RemapConstant(old(constants[j]), c)
      invariant forall j :: i <= j < constants.Length ==> constants[j] == old(constants[j])
    {
      if constants[i] >= c.oldBigInternalBase && constants[i] < c.oldBigBindingBytes {
        constants[i] := constants[i] - c.oldBigInternalBase;
      }
    }
  }

  // ---------- what is left alone ----------

  /** Input, output and constant windows pass unchanged at every command, whatever the constants are. */
  lemma OtherRegionsPassUnchanged(slice: View<BufferClass>, commandIndex: nat, c: Constants)
    requires slice.key != Arena
    ensures RemapSlice(slice, commandIndex, c) == Outcome(OK, slice, false)
  {
  }

  /** So do arena windows that start neither in the patch or behind it, nor where the scratch rule looks. */
  lemma WindowsBeforePassUnchanged(slice: View<BufferClass>, commandIndex: nat, c: Constants)
    requires slice.key == Arena && (slice.offset < c.oldBigBindingOffset || c.oldArenaBytes <= slice.offset)
    requires !(c.workBufferOldOffset <= slice.offset < c.workBufferBytes)
    requires c.oldBigBindingOffset + c.oldBigBindingBytes <= c.oldArenaBytes && 0 < c.oldBigBindingBytes
    requires c.oldBigInternalBase <= c.oldBigBindingBytes
    ensures RemapSlice(slice, commandIndex, c) == Outcome(OK, slice, false)
  {
  }

  /** Only the whole patch binding changes its length and raises the flag; a refused slice is left as it was. */
  lemma OnlyTheOffsetMoves(slice: View<BufferClass>, commandIndex: nat, c: Constants)
    ensures
      var outcome := RemapSlice(slice, commandIndex, c);
      && outcome.slice.key == slice.key
      && (outcome.status == InvalidSlice ==> outcome.slice == slice && !outcome.bigSuffixBinding)
      && (outcome.bigSuffixBinding <==>
            && slice == View(Arena, c.oldBigBindingOffset, c.oldBigBindingBytes)
            && commandIndex < c.bigSuffixEndCommand)
      && (!outcome.bigSuffixBinding ==> outcome.slice.length == slice.length)
      && (outcome.bigSuffixBinding ==> outcome.slice.offset == 0)
  {
  }

  // ---------- what a remapping ought to do ----------

  /** The slice is a window of the scratch buffer, still retained at this command. */
  predicate InScratch(slice: View<BufferClass>, commandIndex: nat, c: Constants) {
    && slice.key == Arena && commandIndex < c.workBufferEndCommand
    && c.workBufferOldOffset <= slice.offset < c.workBufferOldOffset + c.workBufferBytes
    && slice.offset + slice.length <= c.workBufferOldOffset + c.workBufferBytes
  }

  /** The slice is a window of the retained part of the patch allocation. */
  predicate InSuffix(slice: View<BufferClass>, commandIndex: nat, c: Constants) {
    && slice.key == Arena && commandIndex < c.bigSuffixEndCommand
    && c.ActualBase() <= slice.offset < c.oldBigBindingOffset + c.oldBigBindingBytes
    && slice.offset + slice.length <= c.oldBigBindingOffset + c.oldBigBindingBytes
    && !IsWholeBinding(slice, c)
  }

  predicate IsWholeBinding(slice: View<BufferClass>, c: Constants) {
    slice.key == Arena && slice.offset == c.oldBigBindingOffset && slice.length == c.oldBigBindingBytes
  }

  predicate Retained(slice: View<BufferClass>, commandIndex: nat, c: Constants) {
    InScratch(slice, commandIndex, c) || InSuffix(slice, commandIndex, c)
  }

  /** Where a retained byte of the old arena lives in the new one. */
  function NewAddress(address: nat, c: Constants): int {
    if c.workBufferOldOffset <= address < c.workBufferOldOffset + c.workBufferBytes
    then address - c.workBufferOldOffset + c.workBufferNewOffset
    else address - c.ActualBase()
  }

  function NewArenaBytes(c: Constants): nat {
    c.workBufferNewOffset + c.workBufferBytes
  }

  /** Same length, and every byte of the window at its new address. */
  predicate IsRelocated(slice: View<BufferClass>, outcome: Outcome, c: Constants) {
    && outcome.status == OK && !outcome.bigSuffixBinding
    && outcome.slice == View(Arena, outcome.slice.offset, slice.length)
    && outcome.slice.offset == NewAddress(slice.offset, c)
  }

  /** All scratch windows are relocated correctly. */
  ghost predicate ScratchIsRelocated(c: Constants) {
    forall slice, commandIndex :: InScratch(slice, commandIndex, c) ==>
      IsRelocated(slice, RemapSlice(slice, commandIndex, c), c)
  }

  /**
    When every scratch window ends up at its new address: the buffer was at offset 0, or it lies past its
    own length, where the scratch rule never applies, and what the other rules do to it is right. Before
    the patch they leave it alone; behind the patch it is shifted while the patch is live.
   */
  predicate ScratchRuleIsRight(c: Constants) {
    || c.workBufferEndCommand == 0
    || c.workBufferOldOffset == 0
    || (c.workBufferBytes <= c.workBufferOldOffset
        && if c.workBufferOldOffset < c.oldBigBindingOffset then c.workBufferOldOffset == c.workBufferNewOffset
           else
             && (c.bigSuffixEndCommand > 0 ==> c.workBufferOldOffset == c.workBufferNewOffset + c.ActualBase())
             && (c.bigSuffixEndCommand < c.workBufferEndCommand ==> c.workBufferOldOffset == c.workBufferNewOffset))
  }

  /** The same where the patch ends the arena: the buffer was at offset 0 or does not move. */
  predicate ScratchRuleApplies(c: Constants) {
    || c.workBufferOldOffset == 0
    || (c.workBufferOldOffset == c.workBufferNewOffset && c.workBufferBytes <= c.workBufferOldOffset)
  }

  /**
    The scratch rule tests `offset < WORK_BUFFER_BYTES` and adds the new offset without subtracting
    the old one. This is exactly when every scratch window is relocated all the same.
   */
  lemma ScratchRelocationIsExact(c: Constants)
    requires Sane(c)
    ensures ScratchIsRelocated(c) <==> ScratchRuleIsRight(c)
    ensures PatchEndsArena(c) && 0 < c.workBufferEndCommand ==> (ScratchRuleIsRight(c) <==> ScratchRuleApplies(c))
  {
    ScratchBeforeOrBehind(c);
    if ScratchRuleIsRight(c) {
      forall slice, commandIndex | InScratch(slice, commandIndex, c)
        ensures IsRelocated(slice, RemapSlice(slice, commandIndex, c), c)
      {
        ScratchWindowIsRelocated(slice, commandIndex, c);
      }
    } else {
      var slice, commandIndex := MisplacedScratchWindow(c);
    }
  }

  /** The scratch buffer lies before the patch or behind it. */
  lemma ScratchBeforeOrBehind(c: Constants)
    requires Sane(c)
    ensures if c.workBufferOldOffset < c.oldBigBindingOffset
            then c.workBufferOldOffset + c.workBufferBytes <= c.oldBigBindingOffset
            else c.oldBigBindingOffset + c.oldBigBindingBytes <= c.workBufferOldOffset
  {
  }

  lemma ScratchWindowIsRelocated(slice: View<BufferClass>, commandIndex: nat, c: Constants)
    requires Sane(c) && ScratchRuleIsRight(c) && InScratch(slice, commandIndex, c)
    ensures IsRelocated(slice, RemapSlice(slice, commandIndex, c), c)
  {
    ScratchBeforeOrBehind(c);
  }

  /** Where the condition fails, the start of the scratch buffer is misplaced at some command. */
  lemma MisplacedScratchWindow(c: Constants) returns (slice: View<BufferClass>, commandIndex: nat)
    requires Sane(c) && !ScratchRuleIsRight(c)
    ensures InScratch(slice, commandIndex, c) && !IsRelocated(slice, RemapSlice(slice, commandIndex, c), c)
  {
    ScratchBeforeOrBehind(c);
    slice := View(Arena, c.workBufferOldOffset, 0);
    commandIndex :=
      if IsRelocated(slice, RemapSlice(slice, 0, c), c) then c.bigSuffixEndCommand else 0;
  }

  /** A scratch buffer at offset 64 is moved to the wrong place. */
  lemma ScratchRelocationCanFail()
    ensures
      var c := Constants(256, 256, 128, 512, 64, 128, 128, 9, 9);
      var slice := View(Arena, 64, 8);
      && Sane(c) && PatchEndsArena(c) && InScratch(slice, 3, c)
      && RemapSlice(slice, 3, c).slice.offset == 192 != NewAddress(64, c) == 128
  {
  }

  /** What the plan must look like for the rendered code to be right. */
  predicate Renderable(c: Constants) {
    Sane(c) && PatchEndsArena(c) && ScratchRuleApplies(c)
  }

  /** The rendered code is right: all that is retained is relocated, and the whole binding shrinks. */
  ghost predicate RemapIsRight(c: Constants)
    requires Sane(c)
  {
    && (forall slice, commandIndex :: Retained(slice, commandIndex, c) ==>
          IsRelocated(slice, RemapSlice(slice, commandIndex, c), c))
    && forall commandIndex: nat {:trigger ShrinksAt(c, commandIndex)} ::
         commandIndex < c.bigSuffixEndCommand ==> ShrinksAt(c, commandIndex)
  }

  /** The whole binding becomes the rebased region. */
  predicate ShrinksAt(c: Constants, commandIndex: nat)
    requires Sane(c)
  {
    RemapSlice(View(Arena, c.oldBigBindingOffset, c.oldBigBindingBytes), commandIndex, c).slice
    == View(Arena, 0, c.oldBigBindingBytes - c.oldBigInternalBase)
  }

  /** For the plans that are built, whose ends come after a first command, that is exactly when. */
  lemma RemapIsRightExactly(c: Constants)
    requires Sane(c) && 0 < c.bigSuffixEndCommand && 0 < c.workBufferEndCommand
    ensures RemapIsRight(c) <==> Renderable(c)
  {
    ScratchRelocationIsExact(c);
    if Renderable(c) {
      forall slice, commandIndex | Retained(slice, commandIndex, c)
        ensures IsRelocated(slice, RemapSlice(slice, commandIndex, c), c)
      {
        RetainedIsRelocated(slice, commandIndex, c);
      }
      forall commandIndex: nat | commandIndex < c.bigSuffixEndCommand
        ensures ShrinksAt(c, commandIndex)
      {
        WholeBindingShrinksToRebasedRegion(c, commandIndex);
      }
    }
    if RemapIsRight(c) {
      assert ShrinksAt(c, 0);
      WholeBindingShrinksToRebasedRegion(c, 0);
      forall slice, commandIndex | InScratch(slice, commandIndex, c)
        ensures IsRelocated(slice, RemapSlice(slice, commandIndex, c), c)
      {
        assert Retained(slice, commandIndex, c);
      }
    }
  }

  /** A buffer behind the patch that the shift for the patch happens to move to its place. */
  lemma ScratchBehindThePatchCanBeRight()
    ensures
      var c := Constants(0, 128, 64, 256, 128, 64, 64, 9, 9);
      Sane(c) && !PatchEndsArena(c) && !ScratchRuleApplies(c) && ScratchRuleIsRight(c)
  {
  }

  /** Retained windows keep their length, move with their bytes, and land inside the new arena. */
  lemma RetainedIsRelocated(slice: View<BufferClass>, commandIndex: nat, c: Constants)
    requires Renderable(c) && Retained(slice, commandIndex, c)
    ensures IsRelocated(slice, RemapSlice(slice, commandIndex, c), c)
    ensures RemapSlice(slice, commandIndex, c).slice.offset + slice.length <= NewArenaBytes(c)
  {
    ScratchBeforeOrBehind(c);
  }

  lemma RetainedBytesAreRelocated(slice: View<BufferClass>, commandIndex: nat, c: Constants, j: nat)
    requires Renderable(c) && Retained(slice, commandIndex, c) && j < slice.length
    ensures RemapSlice(slice, commandIndex, c).slice.offset + j == NewAddress(slice.offset + j, c)
  {
    RetainedIsRelocated(slice, commandIndex, c);
    ScratchBeforeOrBehind(c);
  }

  predicate SameRegionDisjoint(a: View<BufferClass>, b: View<BufferClass>) {
    a.offset + a.length <= b.offset || b.offset + b.length <= a.offset
  }

  /** Disjoint retained windows stay disjoint, across the scratch and the suffix region too. */
  lemma RemappingKeepsDisjointness(
    a: View<BufferClass>, b: View<BufferClass>, commandIndex: nat, c: Constants)
    requires Renderable(c) && Retained(a, commandIndex, c) && Retained(b, commandIndex, c)
    ensures SameRegionDisjoint(a, b) <==>
            SameRegionDisjoint(RemapSlice(a, commandIndex, c).slice, RemapSlice(b, commandIndex, c).slice)
  {
    RetainedIsRelocated(a, commandIndex, c);
    RetainedIsRelocated(b, commandIndex, c);
    ScratchBeforeOrBehind(c);
  }

  /** The shrunk whole binding has the plan's length exactly when the patch ends the arena. */
  lemma WholeBindingShrinksToRebasedRegion(c: Constants, commandIndex: nat)
    requires Sane(c) && commandIndex < c.bigSuffixEndCommand
    ensures
      var outcome := RemapSlice(View(Arena, c.oldBigBindingOffset, c.oldBigBindingBytes), commandIndex, c);
      && outcome.status == OK && outcome.bigSuffixBinding
      && (outcome.slice == View(Arena, 0, c.oldBigBindingBytes - c.oldBigInternalBase) <==> PatchEndsArena(c))
  {
  }

  /**
    The two ways to name a retained byte agree: the shrunk binding plus a remapped constant, and a
    slice shifted directly.
   */
  lemma ConstantsAndSlicesAgree(
    slice: View<BufferClass>, j: nat, value: nat, commandIndex: nat, c: Constants)
    requires Renderable(c) && InSuffix(slice, commandIndex, c) && j < slice.length
    requires slice.offset + j == c.oldBigBindingOffset + value
    ensures
      var whole := RemapSlice(View(Arena, c.oldBigBindingOffset, c.oldBigBindingBytes), commandIndex, c);
      && whole.status == OK && whole.bigSuffixBinding
      && whole.slice.offset + RemapConstant(value, c) == RemapSlice(slice, commandIndex, c).slice.offset + j
      && RemapConstant(value, c) < whole.slice.length
  {
    RetainedIsRelocated(slice, commandIndex, c);
  }

  /** The scratch rule takes the slice for a scratch window that is too long. */
  predicate ScratchRuleOverruns(slice: View<BufferClass>, commandIndex: nat, c: Constants) {
    && commandIndex < c.workBufferEndCommand
    && c.workBufferOldOffset <= slice.offset < c.workBufferBytes < slice.offset + slice.length
  }

  /** While the patch is live exactly the slices that start before the retained part, or are too long, are refused. */
  lemma RefusedExactly(slice: View<BufferClass>, commandIndex: nat, c: Constants)
    requires Renderable(c) && slice.key == Arena && commandIndex < c.bigSuffixEndCommand
    requires !IsWholeBinding(slice, c)
    ensures RemapSlice(slice, commandIndex, c).status == InvalidSlice <==>
            || c.oldBigBindingOffset <= slice.offset < c.ActualBase()
            || (c.ActualBase() <= slice.offset < c.oldArenaBytes && c.oldArenaBytes < slice.offset + slice.length)
            || ScratchRuleOverruns(slice, commandIndex, c)
  {
    ScratchBeforeOrBehind(c);
  }

  /** A window of the patch allocation. */
  predicate InPatch(slice: View<BufferClass>, c: Constants) {
    && slice.key == Arena && c.oldBigBindingOffset <= slice.offset
    && slice.offset + slice.length <= c.oldBigBindingOffset + c.oldBigBindingBytes
  }

  /**
    After the end of the patch the documented rule says that its windows are rejected. Exactly the
    whole binding is, and what the scratch rule takes for one of its own; where the rendered code is
    right otherwise, every window but the whole binding passes unchanged.
   */
  lemma AfterPatchEndRefusedExactly(slice: View<BufferClass>, commandIndex: nat, c: Constants)
    requires Sane(c) && c.bigSuffixEndCommand <= commandIndex && InPatch(slice, c)
    ensures RemapSlice(slice, commandIndex, c).status == InvalidSlice <==>
            IsWholeBinding(slice, c) || ScratchRuleOverruns(slice, commandIndex, c)
    ensures Renderable(c) ==>
              RemapSlice(slice, commandIndex, c) ==
              Outcome(if IsWholeBinding(slice, c) then InvalidSlice else OK, slice, false)
  {
  }

  /** A window of the scratch buffer, at any command. */
  predicate InWorkBuffer(slice: View<BufferClass>, c: Constants) {
    && slice.key == Arena
    && c.workBufferOldOffset <= slice.offset < c.workBufferOldOffset + c.workBufferBytes
    && slice.offset + slice.length <= c.workBufferOldOffset + c.workBufferBytes
  }

  /** After the end of the scratch buffer no window of it is rejected; in a right plan it passes unchanged. */
  lemma AfterScratchEndNothingIsRefused(slice: View<BufferClass>, commandIndex: nat, c: Constants)
    requires Sane(c) && c.workBufferEndCommand <= commandIndex && InWorkBuffer(slice, c)
    ensures RemapSlice(slice, commandIndex, c).status == OK
    ensures Renderable(c) ==> RemapSlice(slice, commandIndex, c) == Outcome(OK, slice, false)
  {
    assert RangesOverlap(c.workBufferOldOffset, c.workBufferBytes, slice.offset, 1);
  }

  /** After both ends every other slice passes unchanged too. */
  lemma AfterTheEndsOnlyTheWholeBindingIsRefused(slice: View<BufferClass>, commandIndex: nat, c: Constants)
    requires c.bigSuffixEndCommand <= commandIndex && c.workBufferEndCommand <= commandIndex
    ensures RemapSlice(slice, commandIndex, c) ==
            Outcome(if IsWholeBinding(slice, c) then InvalidSlice else OK, slice, false)
  {
  }

  /** A window of the patch allocation used after both ends, or after its own end only, is not rejected. */
  lemma DocumentedRejectionCanFail()
    ensures
      var c, slice := Constants(128, 256, 128, 384, 0, 128, 128, 5, 4), View(Arena, 256, 8);
      Renderable(c) && InPatch(slice, c) && RemapSlice(slice, 7, c) == Outcome(OK, slice, false)
    ensures
      var c, slice := Constants(128, 256, 128, 384, 0, 128, 128, 5, 9), View(Arena, 256, 8);
      Renderable(c) && InPatch(slice, c) && RemapSlice(slice, 7, c) == Outcome(OK, slice, false)
  {
  }
}
