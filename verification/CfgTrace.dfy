/**
  A finished walk, said block by block: the blocks it goes through, what each branch chooses and binds, and
  the lines that are emitted. Nothing here mentions the steps of `CfgLinearise`.
 */
module CfgTrace {
  import opened Basics
  import opened CfgLinearise

  /** Line `i` is a branch, and no later line is. */
  predicate IsLastBranch(lines: seq<Line>, i: nat) {
    i < |lines| && !lines[i].Plain? && forall j :: i < j < |lines| ==> lines[j].Plain?
  }

  predicate IsBranchless(lines: seq<Line>) {
    forall j :: 0 <= j < |lines| ==> lines[j].Plain?
  }

  /** The branch goes to this target: a conditional one to its first target unless its condition is 0. */
  predicate Chooses(branch: Line, values: map<string, int>, env: Env, reading: Reading, target: Target) {
    match branch
    case Plain(_) => false
    case UnsupportedForm(_) => false
    case Br(t) => target == t
    case CondBr(c, whenTrue, whenFalse) =>
      var name := if reading == Bound && c in env then env[c] else c;
      && name in values
      && (values[name] == 0 ==> target == whenFalse)
      && (values[name] != 0 ==> target == whenTrue)
  }

  /** Argument `i` is bound to what operand `i` was bound to, or to the operand itself; all others stay. */
  ghost predicate Passes(args: seq<string>, operands: seq<string>, before: Env, after: Env) {
    && |args| == |operands|
    && (forall i :: 0 <= i < |args| ==> args[i] in after)
    && (forall i :: 0 <= i < |args| && args[i] !in args[i + 1..] ==>
          after[args[i]] == if operands[i] in before then before[operands[i]] else operands[i])
    && forall name :: name !in args ==>
         (name in after <==> name in before) && (name in before ==> after[name] == before[name])
  }

  ghost predicate GoesVia(
    cfg: Cfg, values: map<string, int>, reading: Reading, bb: string, env: Env, next: string, after: Env,
    i: nat, target: Target)
  {
    && bb in cfg && IsLastBranch(cfg[bb].lines, i) && Chooses(cfg[bb].lines[i], values, env, reading, target)
    && next == target.bb && Passes(if next in cfg then cfg[next].args else [], target.operands, env, after)
  }

  /** Control goes from one block to the next. */
  ghost predicate Goes(
    cfg: Cfg, values: map<string, int>, reading: Reading, bb: string, env: Env, next: string, after: Env)
  {
    exists i: nat, target: Target :: GoesVia(cfg, values, reading, bb, env, next, after, i, target)
  }

  ghost predicate GoesAt(
    cfg: Cfg, values: map<string, int>, reading: Reading, path: seq<string>, envs: seq<Env>, k: nat)
    requires k + 1 < |path| == |envs|
  {
    Goes(cfg, values, reading, path[k], envs[k], path[k + 1], envs[k + 1])
  }

  /** The blocks from the entry on, with the bindings in each. */
  ghost predicate IsTrace(
    cfg: Cfg, values: map<string, int>, reading: Reading, path: seq<string>, envs: seq<Env>)
  {
    && |path| == |envs| && path != [] && path[0] == "bb0" && envs[0] == map[]
    && forall k {:trigger GoesAt(cfg, values, reading, path, envs, k)} :: 0 <= k < |path| - 1 ==>
         GoesAt(cfg, values, reading, path, envs, k)
  }

  /** The lines of some blocks, one block after the other. */
  function LinesOf(cfg: Cfg, path: seq<string>): seq<Line> {
    if path == [] then [] else OwnLines(cfg, path[0]) + LinesOf(cfg, path[1..])
  }

  function OwnLines(cfg: Cfg, bb: string): seq<Line> {
    if bb in cfg then cfg[bb].lines else []
  }

  lemma {:induction false} LinesOfAppend(cfg: Cfg, path: seq<string>, bb: string)
    ensures LinesOf(cfg, path + [bb]) == LinesOf(cfg, path) + OwnLines(cfg, bb)
  {
    if path == [] {
      assert path + [bb] == [bb] && [bb][1..] == [];
      assert LinesOf(cfg, [bb]) == OwnLines(cfg, bb) + LinesOf(cfg, []);
    } else {
      var first, rest := OwnLines(cfg, path[0]), path[1..];
      LinesOfAppend(cfg, rest, bb);
      assert (path + [bb])[0] == path[0] && (path + [bb])[1..] == rest + [bb];
      assert LinesOf(cfg, path + [bb]) == first + LinesOf(cfg, rest + [bb]);
      assert first + (LinesOf(cfg, rest) + OwnLines(cfg, bb)) == first + LinesOf(cfg, rest) + OwnLines(cfg, bb);
    }
  }

  lemma {:induction false} BranchIsLast(lines: seq<Line>) returns (i: nat)
    requires BranchOf(lines).Some?
    ensures IsLastBranch(lines, i) && BranchOf(lines) == Some(lines[i])
  {
    var n := |lines| - 1;
    if lines[n].Plain? {
      i := BranchIsLast(lines[..n]);
      assert lines[..n][i] == lines[i];
      forall j | i < j < |lines| ensures lines[j].Plain? {
        assert j < n ==> lines[..n][j] == lines[j];
      }
    } else {
      i := n;
    }
  }

  lemma {:induction false} NoBranchIsBranchless(lines: seq<Line>)
    requires BranchOf(lines).None?
    ensures IsBranchless(lines)
  {
    if lines != [] {
      var n := |lines| - 1;
      NoBranchIsBranchless(lines[..n]);
      forall j | 0 <= j < |lines| ensures lines[j].Plain? {
        assert j < n ==> lines[..n][j] == lines[j];
      }
    }
  }

  lemma TargetIsChosen(branch: Line, values: map<string, int>, env: Env, reading: Reading)
    requires !branch.Plain? && TargetOf(branch, values, env, reading).Ok?
    ensures Chooses(branch, values, env, reading, TargetOf(branch, values, env, reading).value)
  {
  }

  /** Binding from the last argument on: what an argument is bound to. */
  lemma {:induction false} BoundTo(args: seq<string>, operands: seq<string>, env: Env, i: nat)
    requires |args| == |operands| && i < |args| && args[i] !in args[i + 1..]
    ensures args[i] in Bind(args, operands, env)
    ensures Bind(args, operands, env)[args[i]] == if operands[i] in env then env[operands[i]] else operands[i]
  {
    var n := |args| - 1;
    if i < n {
      assert args[n] == args[i + 1..][n - i - 1];
      assert args[..n][i + 1..] == args[i + 1..][..n - i - 1];
      BoundTo(args[..n], operands[..n], env, i);
    }
  }

  lemma BindPasses(args: seq<string>, operands: seq<string>, env: Env)
    requires |args| == |operands|
    ensures Passes(args, operands, env, env + Bind(args, operands, env))
  {
    BindKeys(args, operands, env);
    forall i | 0 <= i < |args| && args[i] !in args[i + 1..]
      ensures (env + Bind(args, operands, env))[args[i]] == if operands[i] in env then env[operands[i]] else operands[i]
    {
      BoundTo(args, operands, env, i);
    }
  }

  /** One running step. */
  lemma StepGoes(cfg: Cfg, values: map<string, int>, reading: Reading, s: State)
    requires s.Running? && Step(cfg, values, reading, s).Running?
    ensures
      var t := Step(cfg, values, reading, s);
      && s.bb in cfg && t.emitted == s.emitted + cfg[s.bb].lines
      && Goes(cfg, values, reading, s.bb, s.env, t.bb, t.env)
  {
    var t := Step(cfg, values, reading, s);
    var i := BranchIsLast(cfg[s.bb].lines);
    var branch := cfg[s.bb].lines[i];
    TargetIsChosen(branch, values, s.env, reading);
    var target := TargetOf(branch, values, s.env, reading).value;
    BindPasses(Formals(cfg, target.bb), target.operands, s.env);
    assert GoesVia(cfg, values, reading, s.bb, s.env, t.bb, t.env, i, target);
  }

  lemma TraceGrows(
    cfg: Cfg, values: map<string, int>, reading: Reading, path: seq<string>, envs: seq<Env>, bb: string, env: Env)
    requires IsTrace(cfg, values, reading, path, envs)
    requires Goes(cfg, values, reading, path[|path| - 1], envs[|path| - 1], bb, env)
    ensures IsTrace(cfg, values, reading, path + [bb], envs + [env])
  {
    forall k | 0 <= k < |path|
      ensures GoesAt(cfg, values, reading, path + [bb], envs + [env], k)
    {
      assert k < |path| - 1 ==> GoesAt(cfg, values, reading, path, envs, k);
    }
  }

  /** The run is in the last block of the trace, with the bindings there and the lines of the blocks before. */
  ghost predicate IsAtEnd(cfg: Cfg, path: seq<string>, envs: seq<Env>, s: State)
    requires |path| == |envs| > 0
  {
    var n := |path| - 1;
    s == Running(path[n], envs[n], LinesOf(cfg, path[..n]))
  }

  lemma TraceStep(
    cfg: Cfg, values: map<string, int>, reading: Reading, path: seq<string>, envs: seq<Env>, s: State)
    requires IsTrace(cfg, values, reading, path, envs) && IsAtEnd(cfg, path, envs, s)
    requires Step(cfg, values, reading, s).Running?
    ensures
      var t := Step(cfg, values, reading, s);
      IsTrace(cfg, values, reading, path + [t.bb], envs + [t.env]) && IsAtEnd(cfg, path + [t.bb], envs + [t.env], t)
  {
    var t, n := Step(cfg, values, reading, s), |path| - 1;
    StepGoes(cfg, values, reading, s);
    TraceGrows(cfg, values, reading, path, envs, t.bb, t.env);
    LinesOfAppend(cfg, path[..n], s.bb);
    assert (path + [t.bb])[..n + 1] == path[..n] + [s.bb];
  }

  /** The trace of a run that is still running. */
  lemma {:induction false} TraceOf(cfg: Cfg, values: map<string, int>, reading: Reading, n: nat)
    returns (path: seq<string>, envs: seq<Env>)
    requires Run(cfg, values, reading, n).Running?
    ensures IsTrace(cfg, values, reading, path, envs) && |path| == n + 1
    ensures IsAtEnd(cfg, path, envs, Run(cfg, values, reading, n))
  {
    if n == 0 {
      path, envs := [ENTRY], [map[]];
      assert path[..0] == [];
    } else {
      var before, after := Run(cfg, values, reading, n - 1), Run(cfg, values, reading, n);
      RunStep(cfg, values, reading, n - 1);
      path, envs := TraceOf(cfg, values, reading, n - 1);
      TraceStep(cfg, values, reading, path, envs, before);
      path, envs := path + [after.bb], envs + [after.env];
    }
  }

  /** The run ended in the last block of the trace, which has no branch, with these lines and bindings. */
  ghost predicate EndsTrace(
    cfg: Cfg, values: map<string, int>, reading: Reading, path: seq<string>, envs: seq<Env>,
    emitted: seq<Line>, aliases: Env)
  {
    && IsTrace(cfg, values, reading, path, envs)
    && path[|path| - 1] in cfg && IsBranchless(cfg[path[|path| - 1]].lines)
    && emitted == LinesOf(cfg, path)
    && (InSsa(cfg, values, reading) ==> aliases == envs[|path| - 1])
  }

  /** A run that has finished was running before its last block. */
  lemma {:induction false} LastRunning(cfg: Cfg, values: map<string, int>, reading: Reading, n: nat) returns (m: nat)
    requires Run(cfg, values, reading, n).Finished?
    ensures m < n && Run(cfg, values, reading, m).Running?
    ensures Run(cfg, values, reading, m + 1) == Run(cfg, values, reading, n)
  {
    if Run(cfg, values, reading, n - 1).Running? {
      m := n - 1;
    } else {
      m := LastRunning(cfg, values, reading, n - 1);
    }
  }

  /** The last step: the block the run ends in. */
  lemma LastBlock(cfg: Cfg, values: map<string, int>, reading: Reading, m: nat)
    returns (path: seq<string>, envs: seq<Env>)
    requires Run(cfg, values, reading, m).Running? && Run(cfg, values, reading, m + 1).Finished?
    ensures IsTrace(cfg, values, reading, path, envs) && |path| == m + 1
    ensures path[m] in cfg && IsBranchless(cfg[path[m]].lines)
    ensures Run(cfg, values, reading, m + 1) == Finished(LinesOf(cfg, path), envs[m])
  {
    path, envs := TraceOf(cfg, values, reading, m);
    var s := Run(cfg, values, reading, m);
    RunStep(cfg, values, reading, m);
    NoBranchIsBranchless(cfg[s.bb].lines);
    LinesOfAppend(cfg, path[..m], s.bb);
    assert path == path[..m] + [s.bb];
  }

  /**
    What a walk that succeeds returns: the lines of the blocks it goes through, one after the other from
    the entry to a block without a branch. Each next block is the target of the last branch line, with its
    arguments bound to the roots of the operands in their order, and the aliases are the bindings at the end.
   */
  lemma OutcomeIsTrace(
    cfg: Cfg, values: map<string, int>, reading: Reading, emitted: seq<Line>, aliases: Env)
    returns (path: seq<string>, envs: seq<Env>)
    requires Faithful(cfg, values, reading, Ok((emitted, aliases)))
    ensures EndsTrace(cfg, values, reading, path, envs, emitted, aliases)
  {
    var n: nat :| n <= |cfg.Keys| && EndsWith(cfg, values, reading, n, emitted, aliases);
    var m := LastRunning(cfg, values, reading, n);
    path, envs := LastBlock(cfg, values, reading, m);
  }
}
