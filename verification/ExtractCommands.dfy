/**
  The commands of an extracted schedule (extract_iree_hal_schedule.py), and what the verifier's
  bounds and coverage checks say of them.
 */
module ExtractCommands {
  import opened Basics
  import opened CfgLinearise
  import opened Schedule
  import opened Extract
  import V = ScheduleVerifier

  /** A dispatch or a fill, with the tokens of its operands. */
  datatype Op =
    | DispatchOp(ordinal: Token, workgroups: seq<Token>, constants: seq<Token>, bindings: seq<Binding>)
    | FillOp(target: Binding, pattern: Token)

  function BindingsOf(op: Op): seq<Binding> {
    match op
    case DispatchOp(_, _, _, bindings) => bindings
    case FillOp(target, _) => [target]
  }

  // ---------- tokens ----------

  predicate AllResolve(tokens: seq<Token>, values: Values) {
    forall i :: 0 <= i < |tokens| ==> EvalIndex(tokens[i], values).Ok?
  }

  function TokenValues(tokens: seq<Token>, values: Values): (numbers: seq<int>)
    requires AllResolve(tokens, values)
  {
    seq(|tokens|, i requires 0 <= i < |tokens| => EvalIndex(tokens[i], values).value)
  }

  method EvalAll(tokens: seq<Token>, values: Values) returns (r: Result<seq<int>, Failure>)
    ensures r.Ok? <==> AllResolve(tokens, values)
    ensures r.Ok? ==> r.value == TokenValues(tokens, values)
  {
    var numbers: seq<int> := [];
    for i := 0 to |tokens|
      invariant |numbers| == i
      invariant forall j :: 0 <= j < i ==> EvalIndex(tokens[j], values) == Ok(numbers[j])
    {
      var number := EvalIndex(tokens[i], values);
      if number.Err? {
        return Err(number.error);
      }
      numbers := numbers + [number.value];
    }
    r := Ok(numbers);
  }

  /** Every operand has a value, and a grid has three dimensions. */
  predicate TokensResolve(op: Op, values: Values) {
    match op
    case DispatchOp(ordinal, workgroups, constants, _) =>
      && EvalIndex(ordinal, values).Ok? && AllResolve(workgroups, values) && |workgroups| == 3
      && AllResolve(constants, values)
    case FillOp(_, pattern) => EvalIndex(pattern, values).Ok?
  }

  /** Constants are kept in 32 bits. */
  function Wrapped(numbers: seq<int>): (wrapped: seq<int>) {
    seq(|numbers|, i requires 0 <= i < |numbers| => numbers[i] % U32)
  }

  function EntryOf(op: Op, values: Values, slices: seq<Slice>): DispatchEntry
    requires op.DispatchOp? && TokensResolve(op, values)
  {
    DispatchEntry(EvalIndex(op.ordinal, values).value, TokenValues(op.workgroups, values),
                  Wrapped(TokenValues(op.constants, values)), slices)
  }

  // ---------- one command ----------

  /** The operation can be parsed on its own. */
  ghost predicate OpAccepted(op: Op, tables: Tables, buffers: Buffers) {
    TokensResolve(op, tables.values) && AllLowerable(BindingsOf(op), tables, buffers)
  }

  /** The command stands for the operation, its slices lowered from the bindings. */
  ghost predicate Represents(
    op: Op, tables: Tables, slices: seq<Slice>, command: Command, dispatches: seq<DispatchEntry>)
  {
    && TokensResolve(op, tables.values) && AllLowered(BindingsOf(op), tables, slices)
    && match op
       case DispatchOp(_, _, _, _) =>
         && command.RunDispatch? && 0 <= command.index < |dispatches|
         && dispatches[command.index] == EntryOf(op, tables.values, slices)
       case FillOp(_, pattern) =>
         command == Fill(slices[0], EvalIndex(pattern, tables.values).value % 256)
  }

  lemma RepresentsStays(
    op: Op, tables: Tables, slices: seq<Slice>, command: Command, dispatches: seq<DispatchEntry>,
    more: seq<DispatchEntry>)
    requires Represents(op, tables, slices, command, dispatches)
    ensures Represents(op, tables, slices, command, dispatches + more)
  {
  }

  /** `_parse_dispatch_block` */
  method ParseDispatch(op: Op, tables: Tables, ghost start: Buffers, before: Buffers, ghost emitted: seq<Slice>)
    returns (r: Result<(DispatchEntry, Buffers), Failure>)
    requires op.DispatchOp? && Roots(tables.aliases) && Emitted(start, before, tables.externals, emitted)
    ensures r.Ok? <==> OpAccepted(op, tables, start)
    ensures r.Ok? ==>
              && AllLowered(op.bindings, tables, r.value.0.bindings)
              && r.value.0 == EntryOf(op, tables.values, r.value.0.bindings)
              && Emitted(start, r.value.1, tables.externals, emitted + r.value.0.bindings)
  {
    var workgroups := EvalAll(op.workgroups, tables.values);
    if workgroups.Err? {
      return Err(workgroups.error);
    }
    if |workgroups.value| != 3 {
      return Err(BadWorkgroups);
    }
    var constants := EvalAll(op.constants, tables.values);
    if constants.Err? {
      return Err(constants.error);
    }
    var bindings := LowerBindings(op.bindings, tables, start, before, emitted);
    if bindings.Err? {
      return Err(bindings.error);
    }
    var ordinal := EvalIndex(op.ordinal, tables.values);
    if ordinal.Err? {
      return Err(ordinal.error);
    }
    r := Ok((DispatchEntry(ordinal.value, workgroups.value, Wrapped(constants.value), bindings.value.0),
             bindings.value.1));
  }

  /** `_parse_fill_command` */
  method ParseFill(op: Op, tables: Tables, ghost start: Buffers, before: Buffers, ghost emitted: seq<Slice>)
    returns (r: Result<(Slice, int, Buffers), Failure>)
    requires op.FillOp? && Roots(tables.aliases) && Emitted(start, before, tables.externals, emitted)
    ensures r.Ok? <==> OpAccepted(op, tables, start)
    ensures r.Ok? ==>
              && Lowered(op.target, tables, r.value.0)
              && r.value.1 == EvalIndex(op.pattern, tables.values).value % 256
              && Emitted(start, r.value.2, tables.externals, emitted + [r.value.0])
  {
    var pattern := EvalIndex(op.pattern, tables.values);
    if pattern.Err? {
      return Err(pattern.error);
    }
    var target := LowerNext(op.target, tables, start, before, emitted);
    assert AllLowerable([op.target], tables, start) <==> Lowerable(op.target, tables, start) by {
      assert [op.target][0] == op.target;
    }
    if target.Err? {
      return Err(target.error);
    }
    r := Ok((target.value.0, pattern.value % 256, target.value.1));
  }

  // ---------- all commands ----------

  function Flatten(commands: seq<seq<Slice>>): seq<Slice> {
    if commands == [] then [] else Flatten(commands[..|commands| - 1]) + commands[|commands| - 1]
  }

  lemma FlattenAppend(commands: seq<seq<Slice>>, last: seq<Slice>)
    ensures Flatten(commands + [last]) == Flatten(commands) + last
  {
    assert (commands + [last])[..|commands|] == commands;
  }

  /** What parsing some operations has produced. */
  datatype Program = Program(dispatches: seq<DispatchEntry>, commands: seq<Command>)

  function DispatchesIn(ops: seq<Op>): (n: nat)
    ensures n <= |ops|
  {
    if ops == [] then 0
    else DispatchesIn(ops[..|ops| - 1]) + if ops[|ops| - 1].DispatchOp? then 1 else 0
  }

  /** The command of a dispatch runs the entry of its place among the dispatches. */
  predicate Numbered(ops: seq<Op>, i: nat, command: Command)
    requires i < |ops|
  {
    ops[i].DispatchOp? ==> command == RunDispatch(DispatchesIn(ops[..i]))
  }

  /** The program stands for the operations, in order, and its commands run each dispatch once. */
  ghost predicate IsProgram(ops: seq<Op>, tables: Tables, program: Program, lowered: seq<seq<Slice>>) {
    && |program.commands| == |lowered| == |ops| && |program.dispatches| == DispatchesIn(ops)
    && (forall i {:trigger program.commands[i]} :: 0 <= i < |ops| ==> Numbered(ops, i, program.commands[i]))
    && (forall i {:trigger program.commands[i]} :: 0 <= i < |ops| ==>
          Represents(ops[i], tables, lowered[i], program.commands[i], program.dispatches))
    && RunsEachOnce(program)
  }

  ghost predicate RunsEachOnce(program: Program) {
    forall d: int :: V.Occurrences(program.commands, d) == if 0 <= d < |program.dispatches| then 1 else 0
  }

  function AddDispatch(program: Program, entry: DispatchEntry): Program {
    Program(program.dispatches + [entry], program.commands + [RunDispatch(|program.dispatches|)])
  }

  function AddFill(program: Program, target: Slice, pattern: int): Program {
    Program(program.dispatches, program.commands + [Fill(target, pattern)])
  }

  lemma OnceMore(program: Program, next: Program)
    requires RunsEachOnce(program)
    requires (exists entry :: next == AddDispatch(program, entry))
             || exists target, pattern :: next == AddFill(program, target, pattern)
    ensures RunsEachOnce(next)
  {
    assert next.commands[..|next.commands| - 1] == program.commands;
  }

  /** One more operation. */
  lemma ProgramStep(
    ops: seq<Op>, n: nat, tables: Tables, program: Program, next: Program, lowered: seq<seq<Slice>>, slices: seq<Slice>)
    requires n < |ops| && IsProgram(ops[..n], tables, program, lowered)
    requires RunsEachOnce(next) && program.dispatches <= next.dispatches
    requires |next.commands| == n + 1 && next.commands[..n] == program.commands
    requires Represents(ops[n], tables, slices, next.commands[n], next.dispatches)
    requires Numbered(ops, n, next.commands[n]) && |next.dispatches| == DispatchesIn(ops[..n + 1])
    ensures IsProgram(ops[..n + 1], tables, next, lowered + [slices])
  {
    var more := next.dispatches[|program.dispatches|..];
    assert next.dispatches == program.dispatches + more;
    forall i | 0 <= i < n + 1
      ensures Represents(ops[..n + 1][i], tables, (lowered + [slices])[i], next.commands[i], next.dispatches)
      ensures Numbered(ops[..n + 1], i, next.commands[i])
    {
      assert ops[..n + 1][..i] == ops[..i];
      if i < n {
        assert next.commands[i] == next.commands[..n][i] == program.commands[i];
        assert ops[..n][i] == ops[i] && ops[..n][..i] == ops[..i];
        RepresentsStays(ops[i], tables, lowered[i], program.commands[i], program.dispatches, more);
      }
    }
  }

  ghost predicate AllOpsAccepted(ops: seq<Op>, tables: Tables, buffers: Buffers) {
    forall k :: 0 <= k < |ops| ==> OpAccepted(ops[k], tables, buffers)
  }

  /** The program and the buffers after the first `n` operations. */
  ghost predicate ParsedTo(
    ops: seq<Op>, n: nat, tables: Tables, start: Buffers, program: Program, buffers: Buffers, lowered: seq<seq<Slice>>)
    requires n <= |ops|
  {
    IsProgram(ops[..n], tables, program, lowered) && Emitted(start, buffers, tables.externals, Flatten(lowered))
  }

  /** The next operation. */
  method ParseOp(
    ops: seq<Op>, n: nat, tables: Tables, ghost start: Buffers, program: Program, before: Buffers,
    ghost lowered: seq<seq<Slice>>) returns (r: Result<(Program, Buffers), Failure>, ghost slices: seq<Slice>)
    requires Roots(tables.aliases) && n < |ops| && ParsedTo(ops, n, tables, start, program, before, lowered)
    ensures r.Ok? <==> OpAccepted(ops[n], tables, start)
    ensures r.Ok? ==> ParsedTo(ops, n + 1, tables, start, r.value.0, r.value.1, lowered + [slices])
  {
    slices := [];
    var next, after;
    if ops[n].DispatchOp? {
      var parsed := ParseDispatch(ops[n], tables, start, before, Flatten(lowered));
      if parsed.Err? {
        return Err(parsed.error), slices;
      }
      slices := parsed.value.0.bindings;
      next, after := AddDispatch(program, parsed.value.0), parsed.value.1;
    } else {
      var parsed := ParseFill(ops[n], tables, start, before, Flatten(lowered));
      if parsed.Err? {
        return Err(parsed.error), slices;
      }
      slices := [parsed.value.0];
      next, after := AddFill(program, parsed.value.0, parsed.value.1), parsed.value.2;
    }
    OnceMore(program, next);
    assert ops[..n + 1][..n] == ops[..n];
    ProgramStep(ops, n, tables, program, next, lowered, slices);
    FlattenAppend(lowered, slices);
    r := Ok((next, after));
  }

  lemma NothingParsed(ops: seq<Op>, tables: Tables, start: Buffers)
    ensures ParsedTo(ops, 0, tables, start, Program([], []), start, [])
  {
  }

  lemma OneMoreAccepted(ops: seq<Op>, k: nat, tables: Tables, start: Buffers)
    requires k < |ops| && AllOpsAccepted(ops[..k], tables, start) && OpAccepted(ops[k], tables, start)
    ensures AllOpsAccepted(ops[..k + 1], tables, start)
  {
    assert ops[..k + 1] == ops[..k] + [ops[k]];
  }

  /**
    `_parse_commands_and_dispatches`: succeeds exactly when every operation can be parsed against the
    first buffers, whatever the others do to them. Each buffer then has its first size or ends
    where a slice ends, and all slices fit.
   */
  method ParseCommands(ops: seq<Op>, tables: Tables, start: Buffers)
    returns (r: Result<(Program, Buffers), Failure>, ghost lowered: seq<seq<Slice>>)
    requires Roots(tables.aliases)
    ensures r.Ok? <==> AllOpsAccepted(ops, tables, start)
    ensures r.Ok? ==> IsProgram(ops, tables, r.value.0, lowered)
    ensures r.Ok? ==> Emitted(start, r.value.1, tables.externals, Flatten(lowered))
  {
    var program, buffers := Program([], []), start;
    lowered := [];
    NothingParsed(ops, tables, start);
    for k := 0 to |ops|
      invariant AllOpsAccepted(ops[..k], tables, start)
      invariant ParsedTo(ops, k, tables, start, program, buffers, lowered)
    {
      var parsed;
      ghost var slices;
      parsed, slices := ParseOp(ops, k, tables, start, program, buffers, lowered);
      if parsed.Err? {
        return Err(parsed.error), lowered;
      }
      OneMoreAccepted(ops, k, tables, start);
      lowered := lowered + [slices];
      program, buffers := parsed.value.0, parsed.value.1;
    }
    assert ops[..|ops|] == ops;
    r := Ok((program, buffers));
  }

  // ---------- what a program says ----------

  /** The number a token stands for: itself, or the value of its name. */
  predicate StandsFor(token: Token, values: Values, number: int) {
    match token
    case Number(v) => number == v
    case Name(n) => n in values && number == values[n]
  }

  /** The number a token stands for, reduced by a modulus. */
  predicate StandsForCut(token: Token, values: Values, modulus: int, number: int)
    requires modulus > 0
  {
    match token
    case Number(v) => number == v % modulus
    case Name(n) => n in values && number == values[n] % modulus
  }

  /** The entry carries the numbers of the operands. */
  predicate Says(op: Op, values: Values, entry: DispatchEntry)
    requires op.DispatchOp?
  {
    && StandsFor(op.ordinal, values, entry.ordinal)
    && |op.workgroups| == |entry.workgroups| == 3
    && (forall j :: 0 <= j < 3 ==> StandsFor(op.workgroups[j], values, entry.workgroups[j]))
    && |entry.constants| == |op.constants|
    && forall j :: 0 <= j < |op.constants| ==>
         StandsForCut(op.constants[j], values, 0x1_0000_0000, entry.constants[j])
  }

  lemma EntrySays(op: Op, values: Values, slices: seq<Slice>)
    requires op.DispatchOp? && TokensResolve(op, values)
    ensures Says(op, values, EntryOf(op, values, slices))
  {
  }

  /**
    What comes out of a program: the dispatches in order, each with the numbers of its operands and
    one slice for each binding, and the fills with the low byte of their patterns.
   */
  lemma ProgramSays(ops: seq<Op>, tables: Tables, program: Program, lowered: seq<seq<Slice>>, i: nat)
    requires IsProgram(ops, tables, program, lowered) && i < |ops|
    ensures |program.commands| == |ops| && |program.dispatches| == DispatchesIn(ops)
    ensures ops[i].DispatchOp? ==>
              var k := DispatchesIn(ops[..i]);
              && k < |program.dispatches| && program.commands[i] == RunDispatch(k)
              && Says(ops[i], tables.values, program.dispatches[k])
              && AllLowered(ops[i].bindings, tables, program.dispatches[k].bindings)
    ensures ops[i].FillOp? ==> SaysFill(ops[i], tables, program.commands[i])
  {
    var op, slices, command := ops[i], lowered[i], program.commands[i];
    assert Represents(op, tables, slices, command, program.dispatches);
    if op.DispatchOp? {
      assert Numbered(ops, i, command);
      EntrySays(op, tables.values, slices);
    } else {
      FillSays(op, tables, slices, command, program.dispatches);
    }
  }

  ghost predicate SaysFill(op: Op, tables: Tables, command: Command)
    requires op.FillOp?
  {
    && command.Fill? && Lowered(op.target, tables, command.target)
    && StandsForCut(op.pattern, tables.values, 256, command.pattern)
  }

  lemma FillSays(op: Op, tables: Tables, slices: seq<Slice>, command: Command, dispatches: seq<DispatchEntry>)
    requires op.FillOp? && Represents(op, tables, slices, command, dispatches)
    ensures SaysFill(op, tables, command)
  {
    assert Lowered(BindingsOf(op)[0], tables, slices[0]);
  }

  // ---------- the verifier's checks ----------

  /** The buffer table as the allocation list of a schedule. */
  ghost predicate Lists(allocations: seq<Allocation>, buffers: Buffers) {
    && DistinctIds(allocations)
    && (forall i :: 0 <= i < |allocations| ==>
          allocations[i].id in buffers && allocations[i].size == buffers[allocations[i].id].size)
    && (forall ref :: ref in buffers ==> exists i :: 0 <= i < |allocations| && allocations[i].id == ref)
  }

  lemma FittingSliceInBounds(slice: Slice, allocations: seq<Allocation>, buffers: Buffers)
    requires Lists(allocations, buffers) && FitsAbove(slice, buffers) && slice.offset >= 0
    ensures V.SliceInBounds(slice, allocations)
  {
    var i :| 0 <= i < |allocations| && allocations[i].id == slice.base;
  }

  lemma {:induction false} CommandsFit(commands: seq<seq<Slice>>, buffers: Buffers, k: nat, j: nat)
    requires AllFitAbove(Flatten(commands), buffers) && k < |commands| && j < |commands[k]|
    ensures FitsAbove(commands[k][j], buffers)
  {
    var front, last := commands[..|commands| - 1], commands[|commands| - 1];
    if k < |front| {
      forall i | 0 <= i < |Flatten(front)| ensures FitsAbove(Flatten(front)[i], buffers) {
        assert Flatten(commands)[i] == Flatten(front)[i];
      }
      CommandsFit(front, buffers, k, j);
    } else {
      assert Flatten(commands)[|Flatten(front)| + j] == last[j];
    }
  }

  /** The slices of a command are those lowered for its operation. */
  lemma RepresentedSlices(
    op: Op, tables: Tables, slices: seq<Slice>, command: Command, dispatches: seq<DispatchEntry>)
    requires Represents(op, tables, slices, command, dispatches)
    ensures CommandSlices(command, dispatches) == Some(slices)
  {
    if op.FillOp? {
      assert slices == [slices[0]];
    }
  }

  lemma ProgramIsValid(ops: seq<Op>, tables: Tables, program: Program, lowered: seq<seq<Slice>>)
    requires IsProgram(ops, tables, program, lowered)
    ensures ValidCommands(program.commands, program.dispatches)
    ensures forall k {:trigger program.commands[k]} :: 0 <= k < |ops| ==>
              CommandSlices(program.commands[k], program.dispatches) == Some(lowered[k])
  {
    forall k | 0 <= k < |ops|
      ensures CommandSlices(program.commands[k], program.dispatches) == Some(lowered[k])
    {
      RepresentedSlices(ops[k], tables, lowered[k], program.commands[k], program.dispatches);
    }
  }

  /**
    An extracted program passes the coverage check, and, when no reference resolves to an offset
    before its buffer, the bounds check too.
   */
  lemma {:induction false} ExtractedProgramPasses(
    ops: seq<Op>, tables: Tables, program: Program, lowered: seq<seq<Slice>>, allocations: seq<Allocation>,
    buffers: Buffers)
    requires IsProgram(ops, tables, program, lowered) && AllFitAbove(Flatten(lowered), buffers)
    requires ResolutionsStartInside(tables) && Lists(allocations, buffers)
    ensures ValidCommands(program.commands, program.dispatches)
    ensures V.CommandsInBounds(program.commands, program.dispatches, allocations)
    ensures V.EachDispatchedOnce(program.commands, |program.dispatches|)
  {
    ProgramIsValid(ops, tables, program, lowered);
    SlicesStartInsideExactly(tables);
    forall k, j | 0 <= k < |program.commands| && 0 <= j < |lowered[k]|
      ensures V.SliceInBounds(lowered[k][j], allocations)
    {
      assert Represents(ops[k], tables, lowered[k], program.commands[k], program.dispatches);
      CommandsFit(lowered, buffers, k, j);
      assert Lowered(BindingsOf(ops[k])[j], tables, lowered[k][j]);
      FittingSliceInBounds(lowered[k][j], allocations, buffers);
    }
  }

  /** Whatever is extracted with these tables passes the bounds check. */
  ghost predicate AlwaysInBounds(tables: Tables) {
    forall ops, program, lowered, allocations, buffers
      {:trigger IsProgram(ops, tables, program, lowered), Lists(allocations, buffers)} ::
      IsProgram(ops, tables, program, lowered) && AllFitAbove(Flatten(lowered), buffers) && Lists(allocations, buffers)
      && ValidCommands(program.commands, program.dispatches) ==>
        V.CommandsInBounds(program.commands, program.dispatches, allocations)
  }

  /** A fill of nothing at a resolution before its buffer is extracted and refused. */
  lemma OutsideIsRefused(tables: Tables, ref: string, r: Resolved)
    requires ResolvesTo(ref, tables.aliases, tables.subspans, tables.values, tables.slots, r)
    requires HasRoom(r) && r.offset < 0
    ensures !AlwaysInBounds(tables)
  {
    var b, slice := Binding(ref, Number(0), Number(0)), Slice(r.base, r.offset, 0);
    assert LoweredVia(b, tables, slice, r);
    var ops, lowered := [FillOp(b, Number(0))], [[slice]];
    var program := AddFill(Program([], []), slice, 0);
    assert DispatchesIn(ops[..0]) == 0;
    var buffers: Buffers := map[r.base := Buffer(0, External)];
    var allocations := [Allocation(r.base, None, 0)];
    OnceMore(Program([], []), program);
    assert AllLowered(BindingsOf(ops[0]), tables, [slice]);
    assert Represents(ops[0], tables, lowered[0], program.commands[0], program.dispatches);
    assert IsProgram(ops, tables, program, lowered);
    assert lowered[..0] == [] && Flatten(lowered) == [slice];
    assert allocations[0].id == r.base && Lists(allocations, buffers);
    ProgramIsValid(ops, tables, program, lowered);
    assert CommandSlices(program.commands[0], program.dispatches).value == [slice];
    assert !V.SliceInBounds(slice, allocations);
    assert !V.SlicesInBounds([slice], allocations) by {
      assert [slice][0] == slice;
    }
  }

  /** The exact condition on the tables under which whatever is extracted passes the bounds check. */
  lemma PassesBoundsExactly(tables: Tables)
    ensures AlwaysInBounds(tables) <==> ResolutionsStartInside(tables)
  {
    if ResolutionsStartInside(tables) {
      forall ops, program, lowered, allocations, buffers |
        && IsProgram(ops, tables, program, lowered)
        && AllFitAbove(Flatten(lowered), buffers) && Lists(allocations, buffers)
        && ValidCommands(program.commands, program.dispatches)
        ensures V.CommandsInBounds(program.commands, program.dispatches, allocations)
      {
        ExtractedProgramPasses(ops, tables, program, lowered, allocations, buffers);
      }
    } else {
      var ref, r :| ResolvesTo(ref, tables.aliases, tables.subspans, tables.values, tables.slots, r)
                    && HasRoom(r) && r.offset < 0;
      OutsideIsRefused(tables, ref, r);
    }
  }

  // ---------- the whole extraction ----------

  /** What a schedule with an indirect command buffer is extracted from. */
  datatype Source = Source(
    subspanLines: seq<SubspanLine>, slotBindings: seq<Binding>, ops: seq<Op>,
    values: Values, aliases: Env, externals: Externals,
    memoValues: Values, memoAliases: Env, memoExternals: Externals)
  {
    function Subspans(): Subspans {
      SubspanTable(subspanLines, values, aliases)
    }

    function SlotTables(): Tables {
      Tables(values, aliases, Subspans(), externals, [])
    }

    function CommandTables(slots: seq<Slot>): Tables {
      Tables(memoValues, memoAliases, Subspans(), memoExternals, slots)
    }

    /** The producer function adds external buffers and takes none away. */
    ghost predicate Valid() {
      && Roots(aliases) && Roots(memoAliases)
      && externals.declared <= memoExternals.declared && externals.constantNames <= memoExternals.constantNames
    }

    predicate NonNegativeTokens() {
      && (forall i :: 0 <= i < |subspanLines| ==> NonNegativeToken(subspanLines[i].offset, values))
      && (forall k :: 0 <= k < |slotBindings| ==> NonNegativeToken(slotBindings[k].offset, values))
    }

    /** Every line, slot binding and operation is good on its own, against the first buffers. */
    ghost predicate Extractable(start: Buffers) {
      && AllGood(subspanLines, values, aliases, start, externals)
      && AllHaveSlots(slotBindings, SlotTables(), start)
      && forall slots {:trigger AreSlots(slotBindings, SlotTables(), slots)} ::
           AreSlots(slotBindings, SlotTables(), slots) ==> AllOpsAccepted(ops, CommandTables(slots), start)
    }
  }

  lemma GrownFromWider(start: Buffers, now: Buffers, narrow: Externals, wide: Externals)
    requires GrownFrom(start, now, narrow)
    requires narrow.declared <= wide.declared && narrow.constantNames <= wide.constantNames
    ensures GrownFrom(start, now, wide)
  {
  }

  lemma SlotsFromTheStart(bindings: seq<Binding>, tables: Tables, start: Buffers, now: Buffers)
    requires GrownFrom(start, now, tables.externals)
    ensures AllHaveSlots(bindings, tables, now) <==> AllHaveSlots(bindings, tables, start)
  {
    forall k | 0 <= k < |bindings|
      ensures HasSlot(bindings[k], tables, now) <==> HasSlot(bindings[k], tables, start)
    {
      HasSlotFromTheStart(bindings[k], tables, start, now);
    }
  }

  lemma OpFromTheStart(op: Op, tables: Tables, start: Buffers, now: Buffers)
    requires GrownFrom(start, now, tables.externals)
    ensures OpAccepted(op, tables, now) <==> OpAccepted(op, tables, start)
  {
    var bindings := BindingsOf(op);
    forall i | 0 <= i < |bindings|
      ensures Lowerable(bindings[i], tables, now) <==> Lowerable(bindings[i], tables, start)
    {
      LowerableFromTheStart(bindings[i], tables, start, now);
    }
  }

  lemma OpsFromTheStart(ops: seq<Op>, tables: Tables, start: Buffers, now: Buffers)
    requires GrownFrom(start, now, tables.externals)
    ensures AllOpsAccepted(ops, tables, now) <==> AllOpsAccepted(ops, tables, start)
  {
    forall k | 0 <= k < |ops|
      ensures OpAccepted(ops[k], tables, now) <==> OpAccepted(ops[k], tables, start)
    {
      OpFromTheStart(ops[k], tables, start, now);
    }
  }

  lemma GrownTransitive(start: Buffers, now: Buffers, later: Buffers, externals: Externals)
    requires GrownFrom(start, now, externals) && GrownFrom(now, later, externals)
    ensures GrownFrom(start, later, externals)
  {
  }

  /** Without negative tokens nothing resolves before its buffer. */
  lemma TokensStartInside(source: Source, slots: seq<Slot>, buffers: Buffers)
    requires source.NonNegativeTokens()
    requires SlotsBuilt(source.slotBindings, source.SlotTables(), slots, buffers)
    ensures ResolutionsStartInside(source.CommandTables(slots))
  {
    SubspansNonNegative(source.subspanLines, source.values, source.aliases);
    SlotsNonNegative(source.slotBindings, source.SlotTables(), slots, buffers);
    NonNegativeIsInside(source.CommandTables(slots));
  }

  /** A program that passes the checks of the verifier on slices and dispatches. */
  ghost predicate Passes(program: Program, buffers: Buffers) {
    && ValidCommands(program.commands, program.dispatches)
    && V.EachDispatchedOnce(program.commands, |program.dispatches|)
    && forall allocations {:trigger Lists(allocations, buffers)} :: Lists(allocations, buffers) ==>
         V.CommandsInBounds(program.commands, program.dispatches, allocations)
  }

  lemma {:induction false} SourcePasses(
    source: Source, slots: seq<Slot>, slotBuffers: Buffers, program: Program, lowered: seq<seq<Slice>>,
    buffers: Buffers)
    requires source.NonNegativeTokens()
    requires SlotsBuilt(source.slotBindings, source.SlotTables(), slots, slotBuffers)
    requires IsProgram(source.ops, source.CommandTables(slots), program, lowered)
    requires AllFitAbove(Flatten(lowered), buffers)
    ensures Passes(program, buffers)
  {
    TokensStartInside(source, slots, slotBuffers);
    ProgramIsValid(source.ops, source.CommandTables(slots), program, lowered);
    forall allocations | Lists(allocations, buffers)
      ensures V.CommandsInBounds(program.commands, program.dispatches, allocations)
    {
      ExtractedProgramPasses(source.ops, source.CommandTables(slots), program, lowered, allocations, buffers);
    }
    forall d | 0 <= d < |program.dispatches|
      ensures V.Occurrences(program.commands, d) == 1
    {
    }
  }

  // ---------- the sizes of the buffers ----------

  /** A window of this buffer ends at `end`. */
  ghost predicate SomeEnd(windows: seq<Slice>, ref: string, end: int) {
    exists i :: 0 <= i < |windows| && windows[i].base == ref && windows[i].offset + windows[i].length == end
  }

  ghost predicate Names(source: Source, windows: seq<Slice>, ref: string) {
    || (exists i :: 0 <= i < |source.subspanLines| && Lookup(source.aliases, source.subspanLines[i].base) == ref)
    || exists i :: 0 <= i < |windows| && windows[i].base == ref
  }

  /**
    The buffer has its first size, nothing if it is new, or it ends where a window ends. A new
    one is an external buffer that a line or a window names.
   */
  ghost predicate Justified(source: Source, start: Buffers, now: Buffers, windows: seq<Slice>, ref: string)
    requires ref in now
  {
    && (now[ref].size == (if ref in start then start[ref].size else 0) || SomeEnd(windows, ref, now[ref].size))
    && (ref in start || (now[ref].lifetime == External && Names(source, windows, ref)))
  }

  /** Buffers that were there stay and do not shrink, the windows fit, and no size is larger than needed. */
  ghost predicate SizedByUse(source: Source, start: Buffers, now: Buffers, windows: seq<Slice>) {
    && Grows(start, now) && AllEndInside(windows, now)
    && forall ref {:trigger Justified(source, start, now, windows, ref)} :: ref in now ==>
         Justified(source, start, now, windows, ref)
  }

  predicate AllEndInside(windows: seq<Slice>, buffers: Buffers) {
    forall i :: 0 <= i < |windows| ==>
      windows[i].base in buffers && windows[i].offset + windows[i].length <= buffers[windows[i].base].size
  }

  lemma LinesSize(source: Source, start: Buffers, now: Buffers)
    requires BasesAdded(source.subspanLines, source.aliases, start, now, source.externals)
    ensures SizedByUse(source, start, now, [])
  {
    forall ref | ref in start
      ensures ref in now && now[ref] == start[ref]
    {
      assert ref in now && KeptOrNew(ref, source.subspanLines, source.aliases, start, now, source.externals);
    }
    forall ref | ref in now
      ensures Justified(source, start, now, [], ref)
    {
      assert KeptOrNew(ref, source.subspanLines, source.aliases, start, now, source.externals);
    }
  }

  /** More windows, each buffer again with its size or an end of theirs. */
  lemma MoreWindows(
    source: Source, start: Buffers, before: Buffers, now: Buffers, windows: seq<Slice>, more: seq<Slice>)
    requires SizedByUse(source, start, before, windows)
    requires Grows(before, now) && Tight(before, now, more) && AllEndInside(more, now)
    requires forall ref :: ref in now && ref !in before ==> now[ref].lifetime == External
    ensures SizedByUse(source, start, now, windows + more)
  {
    var all := windows + more;
    forall i | 0 <= i < |all|
      ensures all[i].base in now && all[i].offset + all[i].length <= now[all[i].base].size
    {
      if i < |windows| {
        assert all[i] == windows[i] && windows[i].base in before;
      } else {
        assert all[i] == more[i - |windows|];
      }
    }
    forall ref | ref in now
      ensures Justified(source, start, now, all, ref)
    {
      assert TightAt(ref, before, now, more);
      BufferJustified(source, start, before, now, windows, more, ref);
    }
  }

  lemma BufferJustified(
    source: Source, start: Buffers, before: Buffers, now: Buffers, windows: seq<Slice>, more: seq<Slice>, ref: string)
    requires Grows(start, before) && Grows(before, now) && ref in now && TightAt(ref, before, now, more)
    requires ref in before ==> Justified(source, start, before, windows, ref)
    requires ref !in before ==> now[ref].lifetime == External
    ensures Justified(source, start, now, windows + more, ref)
  {
    var all := windows + more;
    forall i | 0 <= i < |windows| ensures all[i] == windows[i] {}
    forall i | 0 <= i < |more| ensures all[|windows| + i] == more[i] {}
    if !(ref in before && now[ref].size == before[ref].size) {
      var i :| 0 <= i < |more| && more[i].base == ref
               && now[ref].size == Max(SizeOf(before, ref), more[i].offset + more[i].length);
      assert all[|windows| + i].base == ref;
    }
  }

  /** Subspans and slots of `parse_hal_schedule`. */
  method ParseTables(source: Source, start: Buffers) returns (r: Result<(seq<Slot>, Buffers), Failure>)
    requires source.Valid()
    ensures r.Ok? <==> AllGood(source.subspanLines, source.values, source.aliases, start, source.externals)
                       && AllHaveSlots(source.slotBindings, source.SlotTables(), start)
    ensures r.Ok? ==> SlotsBuilt(source.slotBindings, source.SlotTables(), r.value.0, r.value.1)
    ensures r.Ok? ==> GrownFrom(start, r.value.1, source.externals)
    ensures r.Ok? ==> SizedByUse(source, start, r.value.1, Windows(r.value.0))
  {
    var subspans := ParseSubspans(source.subspanLines, source.values, source.aliases, start, source.externals);
    if subspans.Err? {
      return Err(subspans.error);
    }
    var buffers := subspans.value.1;
    BasesAreGrown(source.subspanLines, source.aliases, start, buffers, source.externals);
    SlotsFromTheStart(source.slotBindings, source.SlotTables(), start, buffers);
    r := ParseSlots(source.slotBindings, source.SlotTables(), buffers);
    if r.Ok? {
      GrownTransitive(start, buffers, r.value.1, source.externals);
      LinesSize(source, start, buffers);
      MoreWindows(source, start, buffers, r.value.1, [], Windows(r.value.0));
      assert [] + Windows(r.value.0) == Windows(r.value.0);
    }
  }

  lemma SlotsAreOne(source: Source, slots: seq<Slot>, buffers: Buffers)
    requires SlotsBuilt(source.slotBindings, source.SlotTables(), slots, buffers)
    ensures AreSlots(source.slotBindings, source.SlotTables(), slots)
    ensures forall other {:trigger AreSlots(source.slotBindings, source.SlotTables(), other)} ::
              AreSlots(source.slotBindings, source.SlotTables(), other) ==> other == slots
  {
    forall other | AreSlots(source.slotBindings, source.SlotTables(), other)
      ensures other == slots
    {
      SlotsAreUnique(source.slotBindings, source.SlotTables(), other, slots);
    }
  }

  /**
    The path of `parse_hal_schedule` through an indirect command buffer: subspans, slots, commands. It
    succeeds exactly when every line, slot binding and operation is good on its own. The program then
    stands for the operations over the one table of slots, and the buffers are as large as its slots and
    slices need; without negative tokens it passes the verifier's bounds and coverage checks.
   */
  method ExtractIndirect(source: Source, start: Buffers)
    returns (r: Result<(Program, Buffers), Failure>, ghost slots: seq<Slot>, ghost lowered: seq<seq<Slice>>)
    requires source.Valid()
    ensures r.Ok? <==> source.Extractable(start)
    ensures r.Ok? ==> AreSlots(source.slotBindings, source.SlotTables(), slots)
    ensures r.Ok? ==> IsProgram(source.ops, source.CommandTables(slots), r.value.0, lowered)
    ensures r.Ok? ==> SizedByUse(source, start, r.value.1, Windows(slots) + Flatten(lowered))
    ensures r.Ok? && source.NonNegativeTokens() ==> Passes(r.value.0, r.value.1)
  {
    slots, lowered := [], [];
    var tables := ParseTables(source, start);
    if tables.Err? {
      return Err(tables.error), slots, lowered;
    }
    var built, buffers := tables.value.0, tables.value.1;
    slots := built;
    SlotsAreOne(source, slots, buffers);
    GrownFromWider(start, buffers, source.externals, source.memoExternals);
    OpsFromTheStart(source.ops, source.CommandTables(slots), start, buffers);
    r, lowered := ParseCommands(source.ops, source.CommandTables(built), buffers);
    if r.Ok? {
      MoreWindows(source, start, buffers, r.value.1, Windows(slots), Flatten(lowered));
      if source.NonNegativeTokens() {
        SourcePasses(source, slots, buffers, r.value.0, lowered, r.value.1);
      }
    }
  }
}
