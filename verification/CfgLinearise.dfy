/**
  CFG linearisation (`_linearize_reachable_lines` of extract_iree_hal_schedule.py) against an
  environment-based execution of the control-flow graph that binds block arguments in parallel,
  decides branches by the values they are bound to, and may run forever.
 */
module CfgLinearise {
  import opened Basics

  datatype Target = Target(bb: string, operands: seq<string>)

  /** A line of a block: plain, or one that contains a branch. */
  datatype Line =
    | Plain(text: string)
    | Br(target: Target)
    | CondBr(condition: string, whenTrue: Target, whenFalse: Target)
    | UnsupportedForm(text: string)

  datatype Block = Block(args: seq<string>, lines: seq<Line>)

  type Cfg = map<string, Block>

  datatype Error =
    | Loop(bb: string)
    | UnknownBlock(bb: string)
    | UnresolvedCondition(name: string)
    | UnsupportedBranch
    | OperandMismatch(bb: string)

  const ENTRY := "bb0"

  /** The last line of a block that contains a branch; lines after it are still emitted. */
  function BranchOf(lines: seq<Line>): (branch: Option<Line>)
    ensures branch.Some? ==> !branch.value.Plain?
  {
    if lines == [] then None
    else if !lines[|lines| - 1].Plain? then Some(lines[|lines| - 1])
    else BranchOf(lines[..|lines| - 1])
  }

  function Formals(cfg: Cfg, bb: string): seq<string> {
    if bb in cfg then cfg[bb].args else []
  }

  // ---------- the reference execution ----------

  type Env = map<string, string>

  datatype State =
    | Running(bb: string, env: Env, emitted: seq<Line>)
    | Finished(emitted: seq<Line>, env: Env)
    | Failed(error: Error)

  /** `name` is an argument of some block. */
  predicate IsBlockArgument(cfg: Cfg, name: string) {
    exists bb :: bb in cfg && name in cfg[bb].args
  }

  function Lookup(env: Env, name: string): string {
    if name in env then env[name] else name
  }

  /**
    How a branch condition is read: through the bindings, as an execution does, or under its own name,
    as the walk of the source does.
   */
  datatype Reading = Bound | ByName

  function ConditionName(condition: string, env: Env, reading: Reading): string {
    if reading.Bound? then Lookup(env, condition) else condition
  }

  /** Where a branch line goes. */
  function TargetOf(branch: Line, values: map<string, int>, env: Env, reading: Reading): Result<Target, Error>
    requires !branch.Plain?
  {
    match branch
    case Br(target) => Ok(target)
    case CondBr(c, t, f) =>
      var name := ConditionName(c, env, reading);
      if name in values then Ok(if values[name] != 0 then t else f) else Err(UnresolvedCondition(c))
    case UnsupportedForm(_) => Err(UnsupportedBranch)
  }

  /** The new bindings of a branch, all read from the environment before it. */
  function Bind(formals: seq<string>, operands: seq<string>, env: Env): Env
    requires |formals| == |operands|
  {
    if formals == [] then map[]
    else
      var n := |formals| - 1;
      Bind(formals[..n], operands[..n], env)[formals[n] := Lookup(env, operands[n])]
  }

  /** Every operand is a root value or a block argument that has been bound. */
  predicate OperandsDefined(cfg: Cfg, operands: seq<string>, env: Env) {
    forall i :: 0 <= i < |operands| ==> operands[i] in env || !IsBlockArgument(cfg, operands[i])
  }

  /** Control passes along a branch. */
  function Follow(cfg: Cfg, target: Target, env: Env, emitted: seq<Line>): State {
    var formals := Formals(cfg, target.bb);
    if |target.operands| != |formals| then Failed(OperandMismatch(target.bb))
    else Running(target.bb, env + Bind(formals, target.operands, env), emitted)
  }

  function Step(cfg: Cfg, values: map<string, int>, reading: Reading, s: State): State {
    if !s.Running? then s
    else if s.bb !in cfg then Failed(UnknownBlock(s.bb))
    else
      var lines := s.emitted + cfg[s.bb].lines;
      var branch := BranchOf(cfg[s.bb].lines);
      if branch.None? then Finished(lines, s.env)
      else
        var target := TargetOf(branch.value, values, s.env, reading);
        if target.Err? then Failed(target.error) else Follow(cfg, target.value, s.env, lines)
  }

  /** The execution is the run that reads conditions through the bindings. */
  function Run(cfg: Cfg, values: map<string, int>, reading: Reading, n: nat): State {
    if n == 0 then Running(ENTRY, map[], []) else Step(cfg, values, reading, Run(cfg, values, reading, n - 1))
  }

  /** The branch taken in state `s` passes no block argument that is still unbound. */
  predicate ScopedStep(cfg: Cfg, values: map<string, int>, reading: Reading, s: State) {
    s.Running? && s.bb in cfg ==>
      var branch := BranchOf(cfg[s.bb].lines);
      branch.Some? && TargetOf(branch.value, values, s.env, reading).Ok? ==>
        OperandsDefined(cfg, TargetOf(branch.value, values, s.env, reading).value.operands, s.env)
  }

  /** No block argument is used before control entered its block. */
  ghost predicate WellScoped(cfg: Cfg, values: map<string, int>, reading: Reading) {
    forall n: nat {:trigger Run(cfg, values, reading, n)} ::
      ScopedStep(cfg, values, reading, Run(cfg, values, reading, n))
  }

  ghost predicate Distinct(names: seq<string>) {
    forall i, j :: 0 <= i < j < |names| ==> names[i] != names[j]
  }

  /** Block arguments have unique names, as SSA demands. */
  ghost predicate UniqueArguments(cfg: Cfg) {
    && (forall bb :: bb in cfg ==> Distinct(cfg[bb].args))
    && (forall a, b, name :: a in cfg && b in cfg && name in cfg[a].args && name in cfg[b].args ==> a == b)
  }

  /** What SSA demands of block arguments. */
  ghost predicate InSsa(cfg: Cfg, values: map<string, int>, reading: Reading) {
    UniqueArguments(cfg) && WellScoped(cfg, values, reading)
  }

  /** The execution never ends. */
  ghost predicate Diverges(cfg: Cfg, values: map<string, int>, reading: Reading) {
    forall n: nat :: Run(cfg, values, reading, n).Running?
  }

  // ---------- a repeated label, with conditions read by name ----------

  /** Where control is, if the execution is still running. */
  function LabelOf(s: State): Option<string> {
    if s.Running? then Some(s.bb) else None
  }

  lemma LabelDecidesStep(cfg: Cfg, values: map<string, int>, s: State, t: State)
    requires s.Running? && LabelOf(s) == LabelOf(t) && Step(cfg, values, ByName, s).Running?
    ensures LabelOf(Step(cfg, values, ByName, t)) == LabelOf(Step(cfg, values, ByName, s))
  {
  }

  /** In this sequence of labels, equal labels have equal successors. */
  ghost predicate Deterministic(labels: nat -> Option<string>) {
    forall p: nat, q: nat {:trigger SameNext(labels, p, q)} :: SameNext(labels, p, q)
  }

  predicate SameNext(labels: nat -> Option<string>, p: nat, q: nat) {
    labels(p) == labels(q) && labels(p).Some? && labels(p + 1).Some? ==> labels(q + 1) == labels(p + 1)
  }

  lemma {:induction false} PeriodicLabels(labels: nat -> Option<string>, i: nat, j: nat, n: nat)
    requires Deterministic(labels) && i < j && labels(i) == labels(j)
    requires forall m: nat :: m <= j ==> labels(m).Some?
    ensures labels(n).Some?
    ensures n >= j ==> labels(n) == labels(n - (j - i))
    decreases n
  {
    if n > j {
      PeriodicLabels(labels, i, j, n - 1);
      PeriodicLabels(labels, i, j, n - (j - i));
      assert SameNext(labels, n - 1 - (j - i), n - 1);
    }
  }

  lemma RunIsDeterministic(cfg: Cfg, values: map<string, int>, p: nat, q: nat)
    requires LabelOf(Run(cfg, values, ByName, p)) == LabelOf(Run(cfg, values, ByName, q))
    requires Run(cfg, values, ByName, p).Running? && Run(cfg, values, ByName, p + 1).Running?
    ensures LabelOf(Run(cfg, values, ByName, q + 1)) == LabelOf(Run(cfg, values, ByName, p + 1))
  {
    LabelDecidesStep(cfg, values, Run(cfg, values, ByName, p), Run(cfg, values, ByName, q));
  }

  lemma {:induction false} NamedReturnDiverges(cfg: Cfg, values: map<string, int>, i: nat, j: nat)
    requires i < j
    requires forall m: nat :: m <= j ==> Run(cfg, values, ByName, m).Running?
    requires Run(cfg, values, ByName, i).bb == Run(cfg, values, ByName, j).bb
    ensures Diverges(cfg, values, ByName)
  {
    var labels := (n: nat) => LabelOf(Run(cfg, values, ByName, n));
    forall p: nat, q: nat
      ensures SameNext(labels, p, q)
    {
      if labels(p) == labels(q) && labels(p).Some? && labels(p + 1).Some? {
        RunIsDeterministic(cfg, values, p, q);
      }
    }
    forall n: nat
      ensures Run(cfg, values, ByName, n).Running?
    {
      PeriodicLabels(labels, i, j, n);
      assert labels(n).Some?;
    }
  }

  // ---------- the source's alias tables ----------

  /** `_resolve_alias`: follows a chain of aliases, stopping at a name already seen. */
  method ResolveAlias(name: string, aliases: Env) returns (resolved: string)
    ensures Roots(aliases) ==> resolved == Lookup(aliases, name)
  {
    resolved := name;
    var seen: set<string> := {};
    while resolved in aliases && resolved !in seen
      invariant Roots(aliases) ==>
                  || (resolved == name && seen == {})
                  || (seen == {name} && name in aliases && resolved == aliases[name])
      decreases aliases.Keys - seen
    {
      seen := seen + {resolved};
      resolved := aliases[resolved];
    }
  }

  /** Aliases already point to root values, which have no alias themselves. */
  ghost predicate Roots(aliases: Env) {
    forall name {:trigger aliases[name]} :: name in aliases ==> aliases[name] !in aliases
  }

  /** An environment binds block arguments to names that are no block arguments. */
  ghost predicate ArgumentsToRoots(cfg: Cfg, env: Env) {
    forall name {:trigger env[name]} :: name in env ==> IsBlockArgument(cfg, name) && !IsBlockArgument(cfg, env[name])
  }

  /** Only arguments of entered blocks are bound. */
  ghost predicate BoundOnEntry(cfg: Cfg, env: Env, visited: set<string>) {
    forall bb, name :: bb in cfg && bb !in visited && name in cfg[bb].args ==> name !in env
  }

  /** `Bind` binds exactly the formals, each to a root value. */
  lemma {:induction false} BindIs(cfg: Cfg, formals: seq<string>, operands: seq<string>, env: Env)
    requires |formals| == |operands| && OperandsDefined(cfg, operands, env) && ArgumentsToRoots(cfg, env)
    ensures forall name :: name in Bind(formals, operands, env) <==> name in formals
    ensures forall name :: name in Bind(formals, operands, env) ==>
              !IsBlockArgument(cfg, Bind(formals, operands, env)[name])
  {
    if formals != [] {
      var n := |formals| - 1;
      BindIs(cfg, formals[..n], operands[..n], env);
      assert formals == formals[..n] + [formals[n]];
    }
  }

  /** The table after the first `i` arguments of a branch to `bb`. */
  ghost function Extended(cfg: Cfg, bb: string, operands: seq<string>, env: Env, i: nat): Env
    requires bb in cfg && i <= |operands| == |cfg[bb].args|
  {
    env + Bind(cfg[bb].args[..i], operands[..i], env)
  }

  /** Extending the table with some arguments of a block not entered before changes no operand. */
  lemma ExtensionIsInvisible(
    cfg: Cfg, bb: string, operands: seq<string>, env: Env, visited: set<string>, i: nat)
    requires ArgumentsToRoots(cfg, env) && BoundOnEntry(cfg, env, visited)
    requires bb in cfg && bb !in visited && i < |operands| == |cfg[bb].args| && OperandsDefined(cfg, operands, env)
    ensures Lookup(Extended(cfg, bb, operands, env, i), operands[i]) == Lookup(env, operands[i])
  {
    var o, formals := operands[i], cfg[bb].args;
    BindIs(cfg, formals[..i], operands[..i], env);
    if o in formals {
      assert IsBlockArgument(cfg, o);
    }
    assert o !in formals[..i];
  }

  lemma LookupIsRoot(cfg: Cfg, operands: seq<string>, env: Env, i: nat)
    requires ArgumentsToRoots(cfg, env) && i < |operands| && OperandsDefined(cfg, operands, env)
    ensures !IsBlockArgument(cfg, Lookup(env, operands[i]))
  {
  }

  lemma OneMoreRoot(cfg: Cfg, env: Env, name: string, root: string)
    requires ArgumentsToRoots(cfg, env) && IsBlockArgument(cfg, name) && !IsBlockArgument(cfg, root)
    ensures ArgumentsToRoots(cfg, env[name := root])
  {
  }

  lemma OneMoreBinding(cfg: Cfg, bb: string, operands: seq<string>, env: Env, i: nat)
    requires bb in cfg && i < |operands| == |cfg[bb].args|
    ensures Extended(cfg, bb, operands, env, i + 1)
            == Extended(cfg, bb, operands, env, i)[cfg[bb].args[i] := Lookup(env, operands[i])]
    ensures IsBlockArgument(cfg, cfg[bb].args[i])
  {
    var formals := cfg[bb].args;
    assert formals[..i + 1][..i] == formals[..i] && operands[..i + 1][..i] == operands[..i];
    assert formals[i] in formals;
  }

  /** A branch into a block not entered before, with operands that are all bound. */
  ghost predicate EntersFresh(cfg: Cfg, bb: string, operands: seq<string>, aliases: Env, visited: set<string>) {
    && ArgumentsToRoots(cfg, aliases) && BoundOnEntry(cfg, aliases, visited)
    && bb in cfg && bb !in visited && OperandsDefined(cfg, operands, aliases)
  }

  /** The table after the first `i` steps of the `zip` loop. */
  ghost predicate BoundSoFar(
    cfg: Cfg, bb: string, operands: seq<string>, aliases: Env, visited: set<string>, extended: Env, i: nat)
    requires i <= |operands| == |Formals(cfg, bb)|
  {
    EntersFresh(cfg, bb, operands, aliases, visited) ==>
      extended == Extended(cfg, bb, operands, aliases, i) && ArgumentsToRoots(cfg, extended)
  }

  /** One step of the `zip` loop. */
  method BindNext(
    cfg: Cfg, bb: string, operands: seq<string>, ghost aliases: Env, extended: Env, i: nat, ghost visited: set<string>)
    returns (longer: Env)
    requires i < |operands| == |Formals(cfg, bb)|
    requires BoundSoFar(cfg, bb, operands, aliases, visited, extended, i)
    ensures BoundSoFar(cfg, bb, operands, aliases, visited, longer, i + 1)
  {
    var root := ResolveAlias(operands[i], extended);
    longer := extended[Formals(cfg, bb)[i] := root];
    if EntersFresh(cfg, bb, operands, aliases, visited) {
      ExtensionIsInvisible(cfg, bb, operands, aliases, visited, i);
      RootsOfArguments(cfg, extended);
      OneMoreBinding(cfg, bb, operands, aliases, i);
      LookupIsRoot(cfg, operands, aliases, i);
      OneMoreRoot(cfg, extended, Formals(cfg, bb)[i], root);
    }
  }

  /**
    The `zip` loop of a branch: one alias after the other, resolved against the table as it grows.
    For a block not entered before this is the parallel binding.
   */
  method BindSequentially(cfg: Cfg, bb: string, operands: seq<string>, aliases: Env, ghost visited: set<string>)
    returns (extended: Env)
    requires |operands| == |Formals(cfg, bb)|
    ensures EntersFresh(cfg, bb, operands, aliases, visited) ==>
              extended == aliases + Bind(Formals(cfg, bb), operands, aliases) && ArgumentsToRoots(cfg, extended)
  {
    var formals := Formals(cfg, bb);
    extended := aliases;
    for i := 0 to |formals|
      invariant BoundSoFar(cfg, bb, operands, aliases, visited, extended, i)
    {
      extended := BindNext(cfg, bb, operands, aliases, extended, i, visited);
    }
    assert formals[..|formals|] == formals && operands[..|operands|] == operands;
  }

  lemma RootsOfArguments(cfg: Cfg, env: Env)
    requires ArgumentsToRoots(cfg, env)
    ensures Roots(env)
  {
  }

  lemma {:induction false} EntryKeepsBoundOnEntry(
    cfg: Cfg, bb: string, operands: seq<string>, env: Env, visited: set<string>)
    requires UniqueArguments(cfg) && ArgumentsToRoots(cfg, env) && BoundOnEntry(cfg, env, visited)
    requires bb in cfg && |operands| == |cfg[bb].args| && OperandsDefined(cfg, operands, env)
    ensures BoundOnEntry(cfg, env + Bind(cfg[bb].args, operands, env), visited + {bb})
  {
    BindIs(cfg, cfg[bb].args, operands, env);
  }

  // ---------- the walk ----------

  predicate HasBranch(b: Block) {
    exists i :: 0 <= i < |b.lines| && !b.lines[i].Plain?
  }

  lemma {:induction false} BranchlessBlock(lines: seq<Line>)
    requires forall i :: 0 <= i < |lines| ==> lines[i].Plain?
    ensures BranchOf(lines).None?
  {
    if lines != [] {
      BranchlessBlock(lines[..|lines| - 1]);
    }
  }

  /** `next(line for line in reversed(block) if ...)` */
  method FindBranch(lines: seq<Line>) returns (branch: Option<Line>)
    ensures branch == BranchOf(lines)
  {
    assert lines[..|lines|] == lines;
    var i := |lines|;
    while i > 0
      invariant 0 <= i <= |lines| && BranchOf(lines) == BranchOf(lines[..i])
    {
      assert lines[..i][..i - 1] == lines[..i - 1];
      if !lines[i - 1].Plain? {
        return Some(lines[i - 1]);
      }
      i := i - 1;
    }
    branch := None;
  }

  /** The execution ends after `n` blocks with these lines, and in SSA form with these bindings. */
  ghost predicate EndsWith(
    cfg: Cfg, values: map<string, int>, reading: Reading, n: nat, emitted: seq<Line>, aliases: Env)
  {
    && Run(cfg, values, reading, n).Finished? && Run(cfg, values, reading, n).emitted == emitted
    && (InSsa(cfg, values, reading) ==> Run(cfg, values, reading, n).env == aliases && Roots(aliases))
  }

  /** What the walk found, in terms of the reference execution. */
  ghost predicate Faithful(
    cfg: Cfg, values: map<string, int>, reading: Reading, r: Result<(seq<Line>, Env), Error>)
  {
    match r
    case Ok((emitted, aliases)) =>
      exists n: nat :: n <= |cfg.Keys| && EndsWith(cfg, values, reading, n, emitted, aliases)
    case Err(Loop(_)) => Diverges(cfg, values, reading)
    case Err(e) => exists n: nat :: n <= |cfg.Keys| + 1 && Run(cfg, values, reading, n) == Failed(e)
  }

  /** A faithful outcome is the loop error exactly when the execution never ends. */
  lemma LoopErrorMeansDivergence(
    cfg: Cfg, values: map<string, int>, reading: Reading, r: Result<(seq<Line>, Env), Error>)
    requires Faithful(cfg, values, reading, r)
    ensures (r.Err? && r.error.Loop?) <==> Diverges(cfg, values, reading)
  {
    if r.Ok? || !r.error.Loop? {
      var n: nat :| !Run(cfg, values, reading, n).Running?;
    }
  }

  /** The run passes through the blocks of `path`, all different, and is still running. */
  ghost predicate OnPath(cfg: Cfg, values: map<string, int>, path: seq<string>) {
    && (forall m :: 0 <= m < |path| ==> LabelAt(cfg, values, m) == Some(path[m]))
    && Distinct(path)
    && LabelAt(cfg, values, |path|).Some?
  }

  function LabelAt(cfg: Cfg, values: map<string, int>, n: nat): Option<string> {
    LabelOf(Run(cfg, values, ByName, n))
  }

  function Members(path: seq<string>): (names: set<string>)
    ensures forall name :: name in names <==> name in path
    ensures Distinct(path) ==> |names| == |path|
  {
    if path == [] then {}
    else
      var n := |path| - 1;
      assert path == path[..n] + [path[n]];
      Members(path[..n]) + {path[n]}
  }

  lemma SubsetSize(a: set<string>, b: set<string>)
    requires a <= b
    ensures |a| <= |b|
  {
    assert b == a + (b - a);
  }

  /** The aliases are the environment, with the arguments of entered blocks bound to root values. */
  ghost predicate AliasesAgree(cfg: Cfg, s: State, aliases: Env, entered: set<string>) {
    && s.Running? && s.env == aliases
    && ArgumentsToRoots(cfg, aliases) && BoundOnEntry(cfg, aliases, entered)
  }

  datatype Next = Left(outcome: Result<(seq<Line>, Env), Error>) | Entered(bb: string, aliases: Env, emitted: seq<Line>)

  /** The execution is at `bb` before block `n`, having emitted these lines. */
  ghost predicate At(cfg: Cfg, values: map<string, int>, n: nat, bb: string, emitted: seq<Line>) {
    LabelAt(cfg, values, n) == Some(bb) && Run(cfg, values, ByName, n).emitted == emitted
  }

  lemma {:induction false} EntryKeepsAliases(
    cfg: Cfg, values: map<string, int>, n: nat, target: Target, aliases: Env, extended: Env, visited: set<string>)
    requires InSsa(cfg, values, ByName) && AliasesAgree(cfg, Run(cfg, values, ByName, n), aliases, visited)
    requires Run(cfg, values, ByName, n).bb in cfg
    requires BranchOf(cfg[Run(cfg, values, ByName, n).bb].lines).Some?
    requires TargetOf(BranchOf(cfg[Run(cfg, values, ByName, n).bb].lines).value, values, aliases, ByName) == Ok(target)
    requires |target.operands| == |Formals(cfg, target.bb)| && target.bb in cfg && target.bb !in visited
    requires EntersFresh(cfg, target.bb, target.operands, aliases, visited) ==>
               extended == aliases + Bind(Formals(cfg, target.bb), target.operands, aliases)
               && ArgumentsToRoots(cfg, extended)
    ensures AliasesAgree(cfg, Run(cfg, values, ByName, n + 1), extended, visited + {target.bb})
  {
    assert ScopedStep(cfg, values, ByName, Run(cfg, values, ByName, n));
    assert Run(cfg, values, ByName, n + 1) == Step(cfg, values, ByName, Run(cfg, values, ByName, n));
    EntryKeepsBoundOnEntry(cfg, target.bb, target.operands, aliases, visited);
  }

  /** One iteration of the walk after the visited check: emits the block and follows its last branch. */
  method LeaveBlock(
    cfg: Cfg, values: map<string, int>, current: string, aliases: Env, emitted: seq<Line>,
    visited: set<string>, ghost n: nat) returns (next: Next)
    requires current in cfg && At(cfg, values, n, current, emitted) && n + 1 <= |cfg.Keys|
    requires InSsa(cfg, values, ByName) ==> AliasesAgree(cfg, Run(cfg, values, ByName, n), aliases, visited)
    ensures next.Left? ==> Faithful(cfg, values, ByName, next.outcome)
    ensures next.Entered? ==> At(cfg, values, n + 1, next.bb, next.emitted)
    ensures next.Entered? && InSsa(cfg, values, ByName) && next.bb in cfg && next.bb !in visited ==>
              AliasesAgree(cfg, Run(cfg, values, ByName, n + 1), next.aliases, visited + {next.bb})
  {
    assert Run(cfg, values, ByName, n + 1) == Step(cfg, values, ByName, Run(cfg, values, ByName, n));
    var lines := emitted + cfg[current].lines;
    var branch := FindBranch(cfg[current].lines);
    if branch.None? {
      assert EndsWith(cfg, values, ByName, n + 1, lines, aliases);
      return Left(Ok((lines, aliases)));
    }
    var target := TargetOf(branch.value, values, aliases, ByName);
    if target.Err? {
      return Left(Err(target.error));
    }
    var bb, operands := target.value.bb, target.value.operands;
    if |operands| != |Formals(cfg, bb)| {
      return Left(Err(OperandMismatch(bb)));
    }
    var extended := BindSequentially(cfg, bb, operands, aliases, visited);
    if InSsa(cfg, values, ByName) && bb in cfg && bb !in visited {
      EntryKeepsAliases(cfg, values, n, target.value, aliases, extended, visited);
    }
    next := Entered(bb, extended, lines);
  }

  lemma ReturnDiverges(cfg: Cfg, values: map<string, int>, path: seq<string>, current: string)
    requires OnPath(cfg, values, path)
    requires LabelAt(cfg, values, |path|) == Some(current) && current in path
    ensures Diverges(cfg, values, ByName)
  {
    var m :| 0 <= m < |path| && path[m] == current;
    forall k: nat | k <= |path|
      ensures Run(cfg, values, ByName, k).Running?
    {
      assert LabelAt(cfg, values, k).Some?;
    }
    assert LabelAt(cfg, values, m) == Some(current);
    NamedReturnDiverges(cfg, values, m, |path|);
  }

  lemma PathGrows(cfg: Cfg, values: map<string, int>, path: seq<string>, current: string)
    requires OnPath(cfg, values, path) && LabelAt(cfg, values, |path|) == Some(current)
    requires current !in path && LabelAt(cfg, values, |path| + 1).Some?
    ensures OnPath(cfg, values, path + [current])
  {
  }

  /** Without any branch the walk is the entry block. */
  lemma BranchlessRun(cfg: Cfg, values: map<string, int>)
    requires ENTRY in cfg && !HasBranch(cfg[ENTRY])
    ensures Faithful(cfg, values, ByName, Ok((cfg[ENTRY].lines, map[])))
  {
    BranchlessBlock(cfg[ENTRY].lines);
    assert Run(cfg, values, ByName, 1) == Step(cfg, values, ByName, Run(cfg, values, ByName, 0));
    assert [] + cfg[ENTRY].lines == cfg[ENTRY].lines;
    SubsetSize({ENTRY}, cfg.Keys);
    assert EndsWith(cfg, values, ByName, 1, cfg[ENTRY].lines, map[]);
  }

  lemma {:induction false} UnknownBlockRun(cfg: Cfg, values: map<string, int>, n: nat)
    requires Run(cfg, values, ByName, n).Running? && Run(cfg, values, ByName, n).bb !in cfg && n <= |cfg.Keys|
    ensures Faithful(cfg, values, ByName, Err(UnknownBlock(Run(cfg, values, ByName, n).bb)))
  {
    assert Run(cfg, values, ByName, n + 1) == Step(cfg, values, ByName, Run(cfg, values, ByName, n));
  }

  /** The state of the walk at block `current`, after the blocks of `path`. */
  ghost predicate WalkState(
    cfg: Cfg, values: map<string, int>, current: string, aliases: Env, emitted: seq<Line>,
    visited: set<string>, path: seq<string>)
  {
    && OnPath(cfg, values, path) && At(cfg, values, |path|, current, emitted)
    && visited == Members(path) && visited <= cfg.Keys
    && (InSsa(cfg, values, ByName) && current in cfg && current !in visited ==>
          AliasesAgree(cfg, Run(cfg, values, ByName, |path|), aliases, visited + {current}))
  }

  /** The walk has entered `bb` from the block `current`, which it had not visited. */
  lemma {:induction false} WalkGoesOn(
    cfg: Cfg, values: map<string, int>, current: string, visited: set<string>, path: seq<string>,
    bb: string, aliases: Env, emitted: seq<Line>)
    requires OnPath(cfg, values, path) && LabelAt(cfg, values, |path|) == Some(current)
    requires visited == Members(path) && visited + {current} <= cfg.Keys && current !in visited
    requires At(cfg, values, |path| + 1, bb, emitted)
    requires InSsa(cfg, values, ByName) && bb in cfg && bb !in visited + {current} ==>
               AliasesAgree(cfg, Run(cfg, values, ByName, |path| + 1), aliases, visited + {current} + {bb})
    ensures WalkState(cfg, values, bb, aliases, emitted, visited + {current}, path + [current])
  {
    PathGrows(cfg, values, path, current);
    MembersOfAppend(path, current);
  }

  lemma MembersOfAppend(path: seq<string>, last: string)
    ensures Members(path + [last]) == Members(path) + {last}
  {
    assert (path + [last])[..|path|] == path;
  }

  /** The walk is back at a block of its path. */
  lemma WalkReturns(
    cfg: Cfg, values: map<string, int>, current: string, aliases: Env, emitted: seq<Line>,
    visited: set<string>, path: seq<string>)
    requires WalkState(cfg, values, current, aliases, emitted, visited, path) && current in visited
    ensures Faithful(cfg, values, ByName, Err(Loop(current)))
  {
    ReturnDiverges(cfg, values, path, current);
  }

  /** The walk has left the graph. */
  lemma WalkLeaves(
    cfg: Cfg, values: map<string, int>, current: string, aliases: Env, emitted: seq<Line>,
    visited: set<string>, path: seq<string>)
    requires WalkState(cfg, values, current, aliases, emitted, visited, path) && current !in cfg
    ensures Faithful(cfg, values, ByName, Err(UnknownBlock(current)))
  {
    SubsetSize(visited, cfg.Keys);
    UnknownBlockRun(cfg, values, |path|);
  }

  /** What leaving a block not visited before demands. */
  lemma {:induction false} WalkIsFresh(
    cfg: Cfg, values: map<string, int>, current: string, aliases: Env, emitted: seq<Line>,
    visited: set<string>, path: seq<string>)
    requires WalkState(cfg, values, current, aliases, emitted, visited, path)
    requires current in cfg && current !in visited
    ensures visited + {current} <= cfg.Keys && |path| + 1 <= |cfg.Keys|
    ensures At(cfg, values, |path|, current, emitted)
    ensures InSsa(cfg, values, ByName) ==>
              AliasesAgree(cfg, Run(cfg, values, ByName, |path|), aliases, visited + {current})
  {
    SubsetSize(visited + {current}, cfg.Keys);
  }

  /** One iteration of the walk. */
  method Visit(
    cfg: Cfg, values: map<string, int>, current: string, aliases: Env, emitted: seq<Line>,
    visited: set<string>, ghost path: seq<string>) returns (next: Next)
    requires WalkState(cfg, values, current, aliases, emitted, visited, path)
    ensures next.Left? ==> Faithful(cfg, values, ByName, next.outcome)
    ensures next.Entered? ==>
              && current !in visited && current in cfg
              && WalkState(cfg, values, next.bb, next.aliases, next.emitted, visited + {current}, path + [current])
  {
    if current in visited {
      WalkReturns(cfg, values, current, aliases, emitted, visited, path);
      return Left(Err(Loop(current)));
    }
    if current !in cfg {
      WalkLeaves(cfg, values, current, aliases, emitted, visited, path);
      return Left(Err(UnknownBlock(current)));
    }
    WalkIsFresh(cfg, values, current, aliases, emitted, visited, path);
    next := LeaveBlock(cfg, values, current, aliases, emitted, visited + {current}, |path|);
    if next.Entered? {
      WalkGoesOn(cfg, values, current, visited, path, next.bb, next.aliases, next.emitted);
    }
  }

  lemma WalkStarts(cfg: Cfg, values: map<string, int>)
    ensures WalkState(cfg, values, ENTRY, map[], [], {}, [])
  {
  }

  /** The `while True` walk from the entry block. */
  method Walk(cfg: Cfg, values: map<string, int>) returns (r: Result<(seq<Line>, Env), Error>)
    ensures Faithful(cfg, values, ByName, r)
  {
    var current := ENTRY;
    var aliases: Env := map[];
    var emitted: seq<Line> := [];
    var visited: set<string> := {};
    ghost var path: seq<string> := [];
    WalkStarts(cfg, values);
    while true
      invariant WalkState(cfg, values, current, aliases, emitted, visited, path)
      decreases cfg.Keys - visited
    {
      var next := Visit(cfg, values, current, aliases, emitted, visited, path);
      if next.Left? {
        return next.outcome;
      }
      visited, path := visited + {current}, path + [current];
      current, aliases, emitted := next.bb, next.aliases, next.emitted;
    }
  }

  // ---------- the two readings of a condition ----------

  /** Values are those of definitions; no block argument has one of its own. */
  ghost predicate ArgumentsHaveNoValue(cfg: Cfg, values: map<string, int>) {
    forall name :: IsBlockArgument(cfg, name) ==> name !in values
  }

  ghost predicate BindsArguments(cfg: Cfg, env: Env) {
    forall name :: name in env ==> IsBlockArgument(cfg, name)
  }

  /** State `s` branches on a block argument that is bound to a name with a value. */
  predicate TestsArgument(cfg: Cfg, values: map<string, int>, s: State) {
    && s.Running? && s.bb in cfg
    && var branch := BranchOf(cfg[s.bb].lines);
       && branch.Some? && branch.value.CondBr?
       && branch.value.condition in s.env && s.env[branch.value.condition] in values
  }

  /** No branch that the execution reaches does. */
  ghost predicate NeverTestsArgument(cfg: Cfg, values: map<string, int>) {
    forall n: nat {:trigger Run(cfg, values, Bound, n)} :: !TestsArgument(cfg, values, Run(cfg, values, Bound, n))
  }

  /** Both readings go through the same states. */
  ghost predicate ReadingsAgree(cfg: Cfg, values: map<string, int>) {
    forall n: nat :: Run(cfg, values, Bound, n) == Run(cfg, values, ByName, n)
  }

  predicate IsUnresolved(s: State) {
    s.Failed? && s.error.UnresolvedCondition?
  }

  lemma {:induction false} BindKeys(formals: seq<string>, operands: seq<string>, env: Env)
    requires |formals| == |operands|
    ensures forall name :: name in Bind(formals, operands, env) <==> name in formals
  {
    if formals != [] {
      var n := |formals| - 1;
      BindKeys(formals[..n], operands[..n], env);
      assert formals == formals[..n] + [formals[n]];
    }
  }

  lemma FollowBindsArguments(cfg: Cfg, target: Target, env: Env, emitted: seq<Line>)
    requires BindsArguments(cfg, env)
    ensures
      var s := Follow(cfg, target, env, emitted);
      s.Running? ==> BindsArguments(cfg, s.env)
  {
    if |target.operands| == |Formals(cfg, target.bb)| {
      BindKeys(Formals(cfg, target.bb), target.operands, env);
    }
  }

  lemma {:induction false} RunBindsArguments(cfg: Cfg, values: map<string, int>, reading: Reading, n: nat)
    ensures
      var s := Run(cfg, values, reading, n);
      s.Running? ==> BindsArguments(cfg, s.env)
  {
    if n > 0 {
      var s := Run(cfg, values, reading, n - 1);
      RunBindsArguments(cfg, values, reading, n - 1);
      if s.Running? && s.bb in cfg {
        var branch := BranchOf(cfg[s.bb].lines);
        if branch.Some? && TargetOf(branch.value, values, s.env, reading).Ok? {
          FollowBindsArguments(
            cfg, TargetOf(branch.value, values, s.env, reading).value, s.env, s.emitted + cfg[s.bb].lines);
        }
      }
    }
  }

  /** One step: the readings agree, unless an argument is tested; then only the reading by name fails. */
  lemma StepsAgreeExactly(cfg: Cfg, values: map<string, int>, s: State)
    requires ArgumentsHaveNoValue(cfg, values) && (s.Running? ==> BindsArguments(cfg, s.env))
    ensures Step(cfg, values, Bound, s) == Step(cfg, values, ByName, s) <==> !TestsArgument(cfg, values, s)
    ensures TestsArgument(cfg, values, s) ==> IsUnresolved(Step(cfg, values, ByName, s))
    ensures !IsUnresolved(Step(cfg, values, ByName, s)) ==> Step(cfg, values, Bound, s) == Step(cfg, values, ByName, s)
  {
    if s.Running? && s.bb in cfg {
      var branch := BranchOf(cfg[s.bb].lines);
      if branch.Some? && branch.value.CondBr? && branch.value.condition in s.env {
        assert IsBlockArgument(cfg, branch.value.condition);
      }
    }
  }

  lemma {:induction false} AgreeUntilTest(cfg: Cfg, values: map<string, int>, n: nat)
    requires ArgumentsHaveNoValue(cfg, values)
    requires forall m: nat :: m < n ==> !TestsArgument(cfg, values, Run(cfg, values, Bound, m))
    ensures Run(cfg, values, Bound, n) == Run(cfg, values, ByName, n)
  {
    if n > 0 {
      AgreeUntilTest(cfg, values, n - 1);
      RunBindsArguments(cfg, values, Bound, n - 1);
      StepsAgreeExactly(cfg, values, Run(cfg, values, Bound, n - 1));
    }
  }

  lemma FailureStays(cfg: Cfg, values: map<string, int>, reading: Reading, s: State)
    requires !s.Running?
    ensures Step(cfg, values, reading, s) == s
  {
  }

  /** Until the reading by name fails on a condition, it is the execution. */
  lemma {:induction false} AgreeUntilUnresolved(cfg: Cfg, values: map<string, int>, n: nat)
    requires ArgumentsHaveNoValue(cfg, values) && !IsUnresolved(Run(cfg, values, ByName, n))
    ensures Run(cfg, values, Bound, n) == Run(cfg, values, ByName, n)
    ensures n > 0 ==> !TestsArgument(cfg, values, Run(cfg, values, Bound, n - 1))
  {
    if n > 0 {
      var s := Run(cfg, values, ByName, n - 1);
      if s.Failed? {
        FailureStays(cfg, values, ByName, s);
      }
      AgreeUntilUnresolved(cfg, values, n - 1);
      RunBindsArguments(cfg, values, ByName, n - 1);
      StepsAgreeExactly(cfg, values, s);
    }
  }

  /** The walk reads conditions as the execution does exactly when no branch reached tests a bound argument. */
  lemma ReadingsAgreeExactly(cfg: Cfg, values: map<string, int>)
    requires ArgumentsHaveNoValue(cfg, values)
    ensures ReadingsAgree(cfg, values) <==> NeverTestsArgument(cfg, values)
  {
    if NeverTestsArgument(cfg, values) {
      forall n: nat
        ensures Run(cfg, values, Bound, n) == Run(cfg, values, ByName, n)
      {
        AgreeUntilTest(cfg, values, n);
      }
    } else {
      var n: nat :| TestsArgument(cfg, values, Run(cfg, values, Bound, n));
      RunBindsArguments(cfg, values, Bound, n);
      StepsAgreeExactly(cfg, values, Run(cfg, values, Bound, n));
      if Run(cfg, values, Bound, n) == Run(cfg, values, ByName, n) {
        assert Run(cfg, values, Bound, n + 1) != Run(cfg, values, ByName, n + 1);
      }
    }
  }

  /** A run that has ended stays as it is. */
  lemma {:induction false} EndIsFinal(cfg: Cfg, values: map<string, int>, reading: Reading, n: nat, m: nat)
    requires !Run(cfg, values, reading, n).Running? && n <= m
    ensures Run(cfg, values, reading, m) == Run(cfg, values, reading, n)
    decreases m
  {
    if n < m {
      EndIsFinal(cfg, values, reading, n, m - 1);
    }
  }

  /** A run with a faithful outcome other than an unresolved condition never fails on one. */
  lemma {:induction false} NeverUnresolved(
    cfg: Cfg, values: map<string, int>, r: Result<(seq<Line>, Env), Error>, m: nat)
    requires Faithful(cfg, values, ByName, r) && (r.Err? ==> !r.error.UnresolvedCondition?)
    ensures !IsUnresolved(Run(cfg, values, ByName, m))
  {
    if r.Ok? || !r.error.Loop? {
      var n: nat :| n <= |cfg.Keys| + 1 && !Run(cfg, values, ByName, n).Running?
                    && !IsUnresolved(Run(cfg, values, ByName, n));
      if m <= n {
        if IsUnresolved(Run(cfg, values, ByName, m)) {
          EndIsFinal(cfg, values, ByName, m, n);
        }
      } else {
        EndIsFinal(cfg, values, ByName, n, m);
      }
    }
  }

  /** Every outcome of the walk but an unresolved condition is that of the execution. */
  lemma OutcomeIsThatOfTheExecution(
    cfg: Cfg, values: map<string, int>, r: Result<(seq<Line>, Env), Error>)
    requires ArgumentsHaveNoValue(cfg, values) && Faithful(cfg, values, ByName, r)
    requires NeverTestsArgument(cfg, values) || (r.Err? ==> !r.error.UnresolvedCondition?)
    ensures NeverTestsArgument(cfg, values) && Faithful(cfg, values, Bound, r)
  {
    if !NeverTestsArgument(cfg, values) {
      forall n: nat
        ensures !TestsArgument(cfg, values, Run(cfg, values, Bound, n))
      {
        NeverUnresolved(cfg, values, r, n + 1);
        AgreeUntilUnresolved(cfg, values, n + 1);
      }
    }
    ReadingsAgreeExactly(cfg, values);
    AgreeingReadings(cfg, values, r);
  }

  lemma AgreeingReadings(cfg: Cfg, values: map<string, int>, r: Result<(seq<Line>, Env), Error>)
    requires ArgumentsHaveNoValue(cfg, values) && NeverTestsArgument(cfg, values) && Faithful(cfg, values, ByName, r)
    ensures Faithful(cfg, values, Bound, r)
  {
    ReadingsAgreeExactly(cfg, values);
    match r
    case Ok((emitted, aliases)) =>
      var n: nat :| n <= |cfg.Keys| && EndsWith(cfg, values, ByName, n, emitted, aliases);
      SameForm(cfg, values);
      assert EndsWith(cfg, values, Bound, n, emitted, aliases);
    case Err(e) =>
      if !e.Loop? {
        var n: nat :| n <= |cfg.Keys| + 1 && Run(cfg, values, ByName, n) == Failed(e);
        assert Run(cfg, values, Bound, n) == Failed(e);
      }
  }

  /** Where no argument is tested, SSA form means the same in both readings. */
  lemma SameForm(cfg: Cfg, values: map<string, int>)
    requires ArgumentsHaveNoValue(cfg, values) && NeverTestsArgument(cfg, values)
    ensures InSsa(cfg, values, Bound) ==> InSsa(cfg, values, ByName)
  {
    if InSsa(cfg, values, Bound) {
      forall n: nat
        ensures ScopedStep(cfg, values, ByName, Run(cfg, values, ByName, n))
      {
        AgreeUntilTest(cfg, values, n);
        RunBindsArguments(cfg, values, Bound, n);
        SameScope(cfg, values, Run(cfg, values, Bound, n));
      }
    }
  }

  lemma SameScope(cfg: Cfg, values: map<string, int>, s: State)
    requires ArgumentsHaveNoValue(cfg, values) && (s.Running? ==> BindsArguments(cfg, s.env))
    requires !TestsArgument(cfg, values, s) && ScopedStep(cfg, values, Bound, s)
    ensures ScopedStep(cfg, values, ByName, s)
  {
    if s.Running? && s.bb in cfg {
      var branch := BranchOf(cfg[s.bb].lines);
      if branch.Some? && branch.value.CondBr? && branch.value.condition in s.env {
        assert IsBlockArgument(cfg, branch.value.condition);
      }
    }
  }

  /**
    An unresolved condition ends the walk where the execution still is, and ends the execution there
    too exactly when the condition is not a bound argument with a value.
   */
  lemma UnresolvedExactly(cfg: Cfg, values: map<string, int>, c: string) returns (n: nat)
    requires ArgumentsHaveNoValue(cfg, values) && Faithful(cfg, values, ByName, Err(UnresolvedCondition(c)))
    ensures n <= |cfg.Keys| && Run(cfg, values, Bound, n).Running?
    ensures Run(cfg, values, Bound, n + 1) == Failed(UnresolvedCondition(c)) <==>
            !TestsArgument(cfg, values, Run(cfg, values, Bound, n))
  {
    var end: nat :| end <= |cfg.Keys| + 1 && Run(cfg, values, ByName, end) == Failed(UnresolvedCondition(c));
    n := FirstEnd(cfg, values, end);
    AgreeUntilUnresolved(cfg, values, n);
    RunBindsArguments(cfg, values, Bound, n);
    StepsAgreeExactly(cfg, values, Run(cfg, values, Bound, n));
  }

  /** The last running state before a run has ended. */
  lemma {:induction false} FirstEnd(cfg: Cfg, values: map<string, int>, end: nat) returns (n: nat)
    requires !Run(cfg, values, ByName, end).Running?
    ensures n < end && Run(cfg, values, ByName, n).Running?
    ensures Run(cfg, values, ByName, n + 1) == Run(cfg, values, ByName, end)
  {
    if Run(cfg, values, ByName, end - 1).Running? {
      n := end - 1;
    } else {
      n := FirstEnd(cfg, values, end - 1);
    }
  }

  /** An execution that returns to a block, having tested no bound argument on the way, never ends. */
  lemma {:induction false} RepeatedLabelDiverges(cfg: Cfg, values: map<string, int>, i: nat, j: nat)
    requires ArgumentsHaveNoValue(cfg, values) && i < j
    requires forall m: nat :: m <= j ==> Run(cfg, values, Bound, m).Running?
    requires forall m: nat :: m < j ==> !TestsArgument(cfg, values, Run(cfg, values, Bound, m))
    requires Run(cfg, values, Bound, i).bb == Run(cfg, values, Bound, j).bb
    ensures Diverges(cfg, values, Bound)
  {
    forall m: nat | m <= j
      ensures Run(cfg, values, ByName, m) == Run(cfg, values, Bound, m)
    {
      AgreeUntilTest(cfg, values, m);
    }
    NamedReturnDiverges(cfg, values, i, j);
    forall n: nat
      ensures Run(cfg, values, Bound, n).Running?
    {
      AgreeUntilUnresolved(cfg, values, n);
    }
  }

  /** A block that branches back to itself on its argument, entered with `one` and left with `zero`. */
  function SelfLoop(bb: string, exit: string, x: string, one: string, zero: string): Cfg {
    map[ENTRY := Block([], [Br(Target(bb, [one]))]),
        bb := Block([x], [CondBr(x, Target(bb, [zero]), Target(exit, []))]),
        exit := Block([], [])]
  }

  /** The execution comes back to the block once and finishes; the walk fails on its condition. */
  lemma TestedArgumentIsUnresolved(bb: string, exit: string, x: string, one: string, zero: string)
    requires ENTRY != bb && ENTRY != exit && bb != exit && x != one && x != zero && one != zero
    ensures
      var cfg, values := SelfLoop(bb, exit, x, one, zero), map[one := 1, zero := 0];
      && ArgumentsHaveNoValue(cfg, values) && UniqueArguments(cfg)
      && Run(cfg, values, Bound, 1) == Running(bb, map[x := one], cfg[ENTRY].lines)
      && Run(cfg, values, Bound, 2) == Running(bb, map[x := zero], cfg[ENTRY].lines + cfg[bb].lines)
      && Run(cfg, values, Bound, 4).Finished?
      && Run(cfg, values, ByName, 2) == Failed(UnresolvedCondition(x))
  {
    var cfg, values := SelfLoop(bb, exit, x, one, zero), map[one := 1, zero := 0];
    SelfLoopIsInSsaForm(bb, exit, x, one, zero);
    SelfLoopEntered(bb, exit, x, one, zero);
    SelfLoopStep(bb, exit, x, one, zero, one, cfg[ENTRY].lines);
    RunStep(cfg, values, ByName, 1);
    RunStep(cfg, values, Bound, 1);
    SelfLoopStep(bb, exit, x, one, zero, zero, cfg[ENTRY].lines + cfg[bb].lines);
    RunStep(cfg, values, Bound, 2);
    SelfLoopLeft(bb, exit, x, one, zero, Run(cfg, values, Bound, 3));
    RunStep(cfg, values, Bound, 3);
  }

  lemma RunStep(cfg: Cfg, values: map<string, int>, reading: Reading, n: nat)
    ensures Run(cfg, values, reading, n + 1) == Step(cfg, values, reading, Run(cfg, values, reading, n))
  {
  }

  lemma SelfLoopIsInSsaForm(bb: string, exit: string, x: string, one: string, zero: string)
    requires ENTRY != bb && ENTRY != exit && bb != exit && x != one && x != zero
    ensures ArgumentsHaveNoValue(SelfLoop(bb, exit, x, one, zero), map[one := 1, zero := 0])
    ensures UniqueArguments(SelfLoop(bb, exit, x, one, zero))
  {
  }

  /** The first step, in either reading. */
  lemma SelfLoopEntered(bb: string, exit: string, x: string, one: string, zero: string)
    requires ENTRY != bb && ENTRY != exit && bb != exit
    ensures
      var cfg, values := SelfLoop(bb, exit, x, one, zero), map[one := 1, zero := 0];
      forall reading :: Run(cfg, values, reading, 1) == Running(bb, map[x := one], cfg[ENTRY].lines)
  {
    var cfg, values := SelfLoop(bb, exit, x, one, zero), map[one := 1, zero := 0];
    SelfLoopBranches(bb, exit, x, one, zero);
    var none: Env := map[];
    assert none + Bind([x], [one], none) == map[x := one];
    assert [] + cfg[ENTRY].lines == cfg[ENTRY].lines;
    forall reading
      ensures Run(cfg, values, reading, 1) == Running(bb, map[x := one], cfg[ENTRY].lines)
    {
      assert Run(cfg, values, reading, 1) == Step(cfg, values, reading, Run(cfg, values, reading, 0));
    }
  }

  /** The step from the loop with its argument bound to `v`. */
  lemma SelfLoopStep(
    bb: string, exit: string, x: string, one: string, zero: string, v: string, emitted: seq<Line>)
    requires ENTRY != bb && ENTRY != exit && bb != exit && x != one && x != zero && one != zero
    requires v == one || v == zero
    ensures
      var cfg, values := SelfLoop(bb, exit, x, one, zero), map[one := 1, zero := 0];
      var s := Running(bb, map[x := v], emitted);
      && Step(cfg, values, ByName, s) == Failed(UnresolvedCondition(x))
      && Step(cfg, values, Bound, s) ==
         if v == one then Running(bb, map[x := zero], emitted + cfg[bb].lines)
         else Running(exit, map[x := v], emitted + cfg[bb].lines)
  {
    SelfLoopBranches(bb, exit, x, one, zero);
    var env: Env := map[x := v];
    assert env + Bind([x], [zero], env) == map[x := zero];
    assert env + Bind([], [], env) == env;
  }

  lemma SelfLoopLeft(bb: string, exit: string, x: string, one: string, zero: string, s: State)
    requires ENTRY != bb && ENTRY != exit && bb != exit && s.Running? && s.bb == exit
    ensures Step(SelfLoop(bb, exit, x, one, zero), map[one := 1, zero := 0], Bound, s).Finished?
  {
    SelfLoopBranches(bb, exit, x, one, zero);
  }

  lemma SelfLoopBranches(bb: string, exit: string, x: string, one: string, zero: string)
    requires ENTRY != bb && ENTRY != exit && bb != exit
    ensures
      var cfg := SelfLoop(bb, exit, x, one, zero);
      && BranchOf(cfg[ENTRY].lines) == Some(Br(Target(bb, [one])))
      && BranchOf(cfg[bb].lines) == Some(CondBr(x, Target(bb, [zero]), Target(exit, [])))
      && BranchOf(cfg[exit].lines) == None
      && Formals(cfg, bb) == [x] && Formals(cfg, exit) == []
  {
    assert SelfLoop(bb, exit, x, one, zero)[exit] == Block([], []);
  }

  /**
    `_linearize_reachable_lines`. With conditions read by name the lines, errors and the loop error are
    those of the run, and in SSA form so are the aliases. They are those of the execution unless a
    condition was unresolved although it is a bound argument with a value.
   */
  method LineariseReachableLines(cfg: Cfg, values: map<string, int>)
    returns (r: Result<(seq<Line>, Env), Error>)
    requires ENTRY in cfg
    ensures Faithful(cfg, values, ByName, r)
    ensures ArgumentsHaveNoValue(cfg, values) && (r.Err? ==> !r.error.UnresolvedCondition?) ==>
              Faithful(cfg, values, Bound, r)
    ensures ArgumentsHaveNoValue(cfg, values) && NeverTestsArgument(cfg, values) ==> Faithful(cfg, values, Bound, r)
  {
    if forall bb :: bb in cfg ==> !HasBranch(cfg[bb]) {
      BranchlessRun(cfg, values);
      r := Ok((cfg[ENTRY].lines, map[]));
    } else {
      r := Walk(cfg, values);
    }
    if ArgumentsHaveNoValue(cfg, values)
      && (NeverTestsArgument(cfg, values) || (r.Err? ==> !r.error.UnresolvedCondition?))
    {
      OutcomeIsThatOfTheExecution(cfg, values, r);
    }
  }
}
