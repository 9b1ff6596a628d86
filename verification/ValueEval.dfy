/**
  Evaluation of SSA values (`_parse_values` of extract_iree_hal_schedule.py, with the first pass of
  analyze_iree_compile_dump.py): repeated sweeps over the lines until nothing changes.

  The reference is a denotation by recursive expansion of definitions, which looks at no order.
 */
module ValueEval {
  import opened Basics

  datatype BinaryOp = Add | Sub | Mul | Div | Shl | Shr | And

  datatype Predicate = Eq | Ne | Lt | Le | Gt | Ge

  datatype Expr =
    | Literal(value: int)
    | Dim
    | Binary(op: BinaryOp, lhs: string, rhs: string)
    | CeilDiv(lhs: string, rhs: string)
    | Align(operand: string, alignment: string)
    | Cast(operand: string, bits: Option<nat>)
    | Compare(predicate_: Predicate, lhs: string, rhs: string)
    | Select(condition: string, whenTrue: string, whenFalse: string)

  /** `isIndex` marks lines typed `index`, the only ones the first pass reads. */
  datatype Line = Define(dest: string, expr: Expr, isIndex: bool) | Other

  type Values = map<string, int>

  // ---------- arithmetic of the evaluator ----------

  /** Python's `//`. */
  function FloorDiv(a: int, b: int): int
    requires b != 0
  {
    if b > 0 then a / b else (-a) / (-b)
  }

  /** Python's `&` on unbounded two's complement integers. */
  function BitAnd(a: int, b: int): int
    decreases if a < 0 then -a else a
  {
    if a == 0 then 0 else if a == -1 then b
    else 2 * BitAnd(a / 2, b / 2) + (if a % 2 == 1 && b % 2 == 1 then 1 else 0)
  }

  function Operands(e: Expr): set<string> {
    match e
    case Literal(_) => {}
    case Dim => {}
    case Binary(_, l, r) => {l, r}
    case CeilDiv(l, r) => {l, r}
    case Align(v, a) => {v, a}
    case Cast(v, _) => {v}
    case Compare(_, l, r) => {l, r}
    case Select(c, t, f) => {c, t, f}
  }

  predicate Ready(e: Expr, values: Values) {
    Operands(e) <= values.Keys
  }

  function Truth(b: bool): int {
    if b then 1 else 0
  }

  function EvalBinary(op: BinaryOp, a: int, b: int): Option<int> {
    match op
    case Add => Some(a + b)
    case Sub => Some(a - b)
    case Mul => Some(a * b)
    case Div => if b == 0 then None else Some(FloorDiv(a, b))
    case Shl => if b < 0 then None else Some(a * Pow2(b))
    case Shr => if b < 0 then None else Some(a % 0x1_0000_0000_0000_0000 / Pow2(b))
    case And => Some(BitAnd(a, b))
  }

  function EvalCompare(p: Predicate, a: int, b: int): int {
    match p
    case Eq => Truth(a == b)
    case Ne => Truth(a != b)
    case Lt => Truth(a < b)
    case Le => Truth(a <= b)
    case Gt => Truth(a > b)
    case Ge => Truth(a >= b)
  }

  /** `align_to` */
  function AlignTo(value: int, alignment: int): int {
    if alignment <= 0 then value else (value + alignment - 1) / alignment * alignment
  }

  function EvalCeilDiv(a: int, b: int): Option<int> {
    if b <= 0 then None else Some((a + b - 1) / b)
  }

  /** Truncation to a width, if the cast names one. */
  function Mask(a: int, bits: Option<nat>): int {
    if bits.Some? then a % Pow2(bits.value) else a
  }

  /**
    The arithmetic the evaluator is run with. The sweeps and their correctness do not depend on
    it; `Python` is the one of the source.
   */
  datatype Semantics = Semantics(
    batch: int,
    binary: (BinaryOp, int, int) -> Option<int>,
    ceilDiv: (int, int) -> Option<int>,
    align: (int, int) -> int,
    mask: (int, Option<nat>) -> int,
    compare: (Predicate, int, int) -> int)

  function Python(batch: int): Semantics {
    Semantics(batch, EvalBinary, EvalCeilDiv, AlignTo, Mask, EvalCompare)
  }

  /** Index sums, differences and products always have a value, and sums are sums. */
  ghost predicate PlainSums(sem: Semantics) {
    forall a, b :: sem.binary(Add, a, b) == Some(a + b) && sem.binary(Sub, a, b).Some? && sem.binary(Mul, a, b).Some?
  }

  /** The value of one line; `None` where the source raises. */
  function Eval(e: Expr, values: Values, sem: Semantics): Option<int>
    requires Ready(e, values)
  {
    match e
    case Literal(v) => Some(v)
    case Dim => Some(sem.batch)
    case Binary(op, l, r) => sem.binary(op, values[l], values[r])
    case CeilDiv(l, r) => sem.ceilDiv(values[l], values[r])
    case Align(v, a) => Some(sem.align(values[v], values[a]))
    case Cast(v, bits) => Some(sem.mask(values[v], bits))
    case Compare(p, l, r) => Some(sem.compare(p, values[l], values[r]))
    case Select(c, t, f) => Some(if values[c] != 0 then values[t] else values[f])
  }

  // ---------- what the operators mean ----------

  /** `q` is `a / b` rounded towards minus infinity. */
  predicate IsFloorOf(q: int, a: int, b: int) {
    if b > 0 then q * b <= a < q * b + b else q * b >= a > q * b + b
  }

  /** `q` is `a / b` rounded towards plus infinity. */
  predicate IsCeilingOf(q: int, a: int, b: int) {
    q * b - b < a <= q * b
  }

  /** Bit `k` of an unbounded two's complement integer. */
  predicate Bit(x: int, k: nat)
    decreases k
  {
    if k == 0 then x % 2 == 1 else Bit(x / 2, k - 1)
  }

  /** Among 0 to `m - 1` the one that differs from `a` by a multiple of `m`. */
  predicate IsResidue(r: int, a: int, m: int)
    requires m > 0
  {
    0 <= r < m && (a - r) % m == 0
  }

  ghost predicate IsBinary(op: BinaryOp, a: int, b: int, r: Option<int>) {
    match op
    case Add => r.Some? && r.value - b == a
    case Sub => r.Some? && r.value + b == a
    case Mul => r.Some? && r.value == a * b
    case Div => (r.None? <==> b == 0) && (r.Some? ==> IsFloorOf(r.value, a, b))
    case Shl => (r.None? <==> b < 0) && (r.Some? ==> r.value == a * Pow2(b))
    case Shr => (r.None? <==> b < 0)
                && (r.Some? ==> exists low :: IsResidue(low, a, 0x1_0000_0000_0000_0000)
                                              && IsFloorOf(r.value, low, Pow2(b)))
    case And => r.Some? && forall k: nat :: Bit(r.value, k) <==> Bit(a, k) && Bit(b, k)
  }

  predicate Holds(p: Predicate, a: int, b: int) {
    match p
    case Eq => a - b == 0
    case Ne => a - b != 0
    case Lt => b - a > 0
    case Le => b - a >= 0
    case Gt => a - b > 0
    case Ge => a - b >= 0
  }

  /** What a line means, operator by operator; `None` where the source raises. */
  ghost predicate IsValueOf(e: Expr, values: Values, batch: int, r: Option<int>)
    requires Ready(e, values)
  {
    match e
    case Literal(v) => r == Some(v)
    case Dim => r == Some(batch)
    case Binary(op, lhs, rhs) => IsBinary(op, values[lhs], values[rhs], r)
    case CeilDiv(lhs, rhs) =>
      && (r.None? <==> values[rhs] <= 0)
      && (r.Some? ==> IsCeilingOf(r.value, values[lhs], values[rhs]))
    case Align(v, a) =>
      && r.Some?
      && if values[a] <= 0 then r.value == values[v]
         else r.value % values[a] == 0 && values[v] <= r.value < values[v] + values[a]
    case Cast(v, bits) =>
      && r.Some?
      && if bits.None? then r.value == values[v] else IsResidue(r.value, values[v], Pow2(bits.value))
    case Compare(p, lhs, rhs) =>
      r.Some? && 0 <= r.value <= 1 && (r.value == 1 <==> Holds(p, values[lhs], values[rhs]))
    case Select(c, whenTrue, whenFalse) =>
      && (values[c] == 0 ==> r == Some(values[whenFalse]))
      && (values[c] != 0 ==> r == Some(values[whenTrue]))
  }

  lemma FloorDivIsFloor(a: int, b: int)
    requires b != 0
    ensures IsFloorOf(FloorDiv(a, b), a, b)
  {
    if b > 0 {
      QuotientIsFloor(a, b);
    } else {
      QuotientIsFloor(-a, -b);
      assert FloorDiv(a, b) * b == -(FloorDiv(a, b) * -b);
    }
  }

  lemma QuotientIsFloor(a: int, b: int)
    requires b > 0
    ensures IsFloorOf(a / b, a, b)
  {
  }

  lemma CeilDivIsCeiling(a: int, b: int)
    requires b > 0
    ensures IsCeilingOf((a + b - 1) / b, a, b)
  {
    QuotientIsFloor(a + b - 1, b);
  }

  lemma RemainderIsResidue(a: int, m: int)
    requires m > 0
    ensures IsResidue(a % m, a, m)
  {
    assert a - a % m == a / m * m + 0;
    DivModUnique(a / m, m, 0);
  }

  lemma AlignedIsMultiple(v: int, a: int)
    requires a > 0
    ensures AlignTo(v, a) % a == 0 && v <= AlignTo(v, a) < v + a
  {
    CeilDivIsCeiling(v, a);
    DivModUnique((v + a - 1) / a, a, 0);
  }

  lemma {:induction false} BitsOfMinusOne(k: nat)
    ensures Bit(-1, k) && !Bit(0, k)
  {
    if k > 0 {
      BitsOfMinusOne(k - 1);
    }
  }

  lemma AndHalves(a: int, b: int)
    requires a != 0 && a != -1
    ensures BitAnd(a, b) / 2 == BitAnd(a / 2, b / 2)
    ensures BitAnd(a, b) % 2 == 1 <==> a % 2 == 1 && b % 2 == 1
  {
    var half := BitAnd(a / 2, b / 2);
    DoubledPlus(half, if a % 2 == 1 && b % 2 == 1 then 1 else 0);
  }

  lemma DoubledPlus(h: int, bit: int)
    requires 0 <= bit <= 1
    ensures (2 * h + bit) / 2 == h && (2 * h + bit) % 2 == bit
  {
  }

  /** `&` works bit by bit, on negative integers too. */
  lemma {:induction false} BitAndBits(a: int, b: int, k: nat)
    ensures Bit(BitAnd(a, b), k) <==> Bit(a, k) && Bit(b, k)
    decreases k
  {
    if a == 0 || a == -1 {
      BitsOfMinusOne(k);
    } else {
      AndHalves(a, b);
    }
    if a != 0 && a != -1 && k > 0 {
      BitAndBits(a / 2, b / 2, k - 1);
    }
  }

  lemma BinaryIs(op: BinaryOp, a: int, b: int)
    ensures IsBinary(op, a, b, EvalBinary(op, a, b))
  {
    match op
    case Div =>
      if b != 0 {
        FloorDivIsFloor(a, b);
      }
    case Shr =>
      if b >= 0 {
        RemainderIsResidue(a, 0x1_0000_0000_0000_0000);
        QuotientIsFloor(a % 0x1_0000_0000_0000_0000, Pow2(b));
      }
    case And =>
      forall k: nat
        ensures Bit(BitAnd(a, b), k) <==> Bit(a, k) && Bit(b, k)
      {
        BitAndBits(a, b, k);
      }
    case _ =>
  }

  /** The evaluator gives every line its meaning, and raises exactly where there is none. */
  lemma EvalIsMeaning(e: Expr, values: Values, batch: int)
    requires Ready(e, values)
    ensures IsValueOf(e, values, batch, Eval(e, values, Python(batch)))
  {
    match e
    case Binary(op, lhs, rhs) => BinaryIs(op, values[lhs], values[rhs]);
    case CeilDiv(lhs, rhs) =>
      if values[rhs] > 0 {
        CeilDivIsCeiling(values[lhs], values[rhs]);
      }
    case Align(v, a) =>
      if values[a] > 0 {
        AlignedIsMultiple(values[v], values[a]);
      }
    case Cast(v, bits) =>
      if bits.Some? {
        RemainderIsResidue(values[v], Pow2(bits.value));
      }
    case _ =>
  }

  // ---------- the reference: denotation ----------

  predicate SingleAssignment(lines: seq<Line>) {
    forall i, j :: 0 <= i < j < |lines| && lines[i].Define? && lines[j].Define? ==> lines[i].dest != lines[j].dest
  }

  function Definition(lines: seq<Line>, name: string): Option<Expr> {
    if lines == [] then None
    else if lines[0].Define? && lines[0].dest == name then Some(lines[0].expr)
    else Definition(lines[1..], name)
  }

  /** Values of the operands of `e` after expanding definitions to depth `fuel`. */
  function DenoteOperands(lines: seq<Line>, e: Expr, sem: Semantics, fuel: nat): Values
    decreases fuel, 1
  {
    map r | r in Operands(e) && Denote(lines, r, sem, fuel).Some? :: Denote(lines, r, sem, fuel).value
  }

  /** The value of `name` by expanding definitions to depth `fuel`. */
  function Denote(lines: seq<Line>, name: string, sem: Semantics, fuel: nat): Option<int>
    decreases fuel, 0
  {
    if fuel == 0 then None
    else
      match Definition(lines, name)
      case None => None
      case Some(e) =>
        var operands := DenoteOperands(lines, e, sem, fuel - 1);
        if Ready(e, operands) then Eval(e, operands, sem) else None
  }

  ghost predicate Denotes(lines: seq<Line>, name: string, sem: Semantics, value: int) {
    exists fuel: nat :: Denote(lines, name, sem, fuel) == Some(value)
  }

  /** The definition of `name` has denoting operands on which evaluation raises. */
  ghost predicate FailsAt(lines: seq<Line>, name: string, sem: Semantics, fuel: nat) {
    && Definition(lines, name).Some?
    && var e := Definition(lines, name).value;
       var operands := DenoteOperands(lines, e, sem, fuel);
       Ready(e, operands) && Eval(e, operands, sem).None?
  }

  ghost predicate Fails(lines: seq<Line>, sem: Semantics) {
    exists name, fuel: nat :: FailsAt(lines, name, sem, fuel)
  }

  lemma {:induction false} DefinitionAt(lines: seq<Line>, i: nat)
    requires SingleAssignment(lines) && i < |lines| && lines[i].Define?
    ensures Definition(lines, lines[i].dest) == Some(lines[i].expr)
  {
    if i > 0 {
      assert lines[1..][i - 1] == lines[i];
      DefinitionAt(lines[1..], i - 1);
    }
  }

  lemma {:induction false} DefinitionIndex(lines: seq<Line>, name: string) returns (i: nat)
    requires Definition(lines, name).Some?
    ensures i < |lines| && lines[i].Define? && lines[i].dest == name && lines[i].expr == Definition(lines, name).value
  {
    if lines[0].Define? && lines[0].dest == name {
      i := 0;
    } else {
      i := DefinitionIndex(lines[1..], name);
      i := i + 1;
    }
  }

  /** More fuel changes no denotation. */
  lemma {:induction false} DenoteIsMonotone(lines: seq<Line>, name: string, sem: Semantics, fuel: nat, more: nat)
    requires fuel <= more && Denote(lines, name, sem, fuel).Some?
    ensures Denote(lines, name, sem, more) == Denote(lines, name, sem, fuel)
    decreases fuel
  {
    var e := Definition(lines, name).value;
    var few, many := DenoteOperands(lines, e, sem, fuel - 1), DenoteOperands(lines, e, sem, more - 1);
    forall r | r in Operands(e)
      ensures r in many && many[r] == few[r]
    {
      DenoteIsMonotone(lines, r, sem, fuel - 1, more - 1);
    }
    EvalDependsOnOperands(e, few, many, sem);
  }

  lemma EvalDependsOnOperands(e: Expr, a: Values, b: Values, sem: Semantics)
    requires Ready(e, a) && Ready(e, b)
    requires forall r :: r in Operands(e) ==> a[r] == b[r]
    ensures Eval(e, a, sem) == Eval(e, b, sem)
  {
  }

  lemma DenotationIsUnique(lines: seq<Line>, name: string, sem: Semantics, v: int, w: int)
    requires Denotes(lines, name, sem, v) && Denotes(lines, name, sem, w)
    ensures v == w
  {
    var f: nat :| Denote(lines, name, sem, f) == Some(v);
    var g: nat :| Denote(lines, name, sem, g) == Some(w);
    DenoteIsMonotone(lines, name, sem, f, Max(f, g));
    DenoteIsMonotone(lines, name, sem, g, Max(f, g));
  }

  // ---------- sound and closed environments ----------

  /** Every recorded value is a denotation. */
  ghost predicate Sound(lines: seq<Line>, sem: Semantics, values: Values) {
    forall name {:trigger Denotes(lines, name, sem, values[name])} ::
      name in values ==> Denotes(lines, name, sem, values[name])
  }

  /** Line `line` has nothing left to contribute. */
  predicate Settled(line: Line, sem: Semantics, values: Values) {
    line.Define? && Ready(line.expr, values) ==>
      && Eval(line.expr, values, sem).Some?
      && line.dest in values && values[line.dest] == Eval(line.expr, values, sem).value
  }

  predicate Closed(lines: seq<Line>, sem: Semantics, values: Values) {
    forall i :: 0 <= i < |lines| ==> Settled(lines[i], sem, values)
  }

  /** Operands recorded in a sound environment denote at some common depth. */
  lemma {:induction false} CommonFuel(lines: seq<Line>, sem: Semantics, values: Values, names: set<string>)
    returns (fuel: nat)
    requires Sound(lines, sem, values) && names <= values.Keys
    ensures forall r :: r in names ==> Denote(lines, r, sem, fuel) == Some(values[r])
  {
    if names == {} {
      fuel := 0;
    } else {
      var r :| r in names;
      var rest := CommonFuel(lines, sem, values, names - {r});
      assert Denotes(lines, r, sem, values[r]);
      var own: nat :| Denote(lines, r, sem, own) == Some(values[r]);
      fuel := Max(rest, own);
      forall q | q in names
        ensures Denote(lines, q, sem, fuel) == Some(values[q])
      {
        if q == r {
          DenoteIsMonotone(lines, r, sem, own, fuel);
        } else {
          DenoteIsMonotone(lines, q, sem, rest, fuel);
        }
      }
    }
  }

  /** A ready line evaluates to the denotation of its destination, or evaluation fails there. */
  lemma ReadyLineDenotes(lines: seq<Line>, sem: Semantics, values: Values, i: nat)
    requires SingleAssignment(lines) && i < |lines| && lines[i].Define?
    requires Sound(lines, sem, values) && Ready(lines[i].expr, values)
    ensures Eval(lines[i].expr, values, sem).Some? ==>
              Denotes(lines, lines[i].dest, sem, Eval(lines[i].expr, values, sem).value)
    ensures Eval(lines[i].expr, values, sem).None? ==> Fails(lines, sem)
  {
    var e := lines[i].expr;
    DefinitionAt(lines, i);
    var fuel := CommonFuel(lines, sem, values, Operands(e));
    var operands := DenoteOperands(lines, e, sem, fuel);
    EvalDependsOnOperands(e, values, operands, sem);
    if Eval(e, values, sem).Some? {
      assert Denote(lines, lines[i].dest, sem, fuel + 1) == Eval(e, values, sem);
    } else {
      assert FailsAt(lines, lines[i].dest, sem, fuel);
    }
  }

  /** A closed environment contains every denotation. */
  lemma {:induction false} ClosedIsComplete(lines: seq<Line>, sem: Semantics, values: Values, name: string, fuel: nat)
    requires Closed(lines, sem, values) && Denote(lines, name, sem, fuel).Some?
    ensures name in values && values[name] == Denote(lines, name, sem, fuel).value
    decreases fuel
  {
    var i := DefinitionIndex(lines, name);
    var e := lines[i].expr;
    var operands := DenoteOperands(lines, e, sem, fuel - 1);
    forall r | r in Operands(e)
      ensures r in values && values[r] == operands[r]
    {
      ClosedIsComplete(lines, sem, values, r, fuel - 1);
    }
    EvalDependsOnOperands(e, values, operands, sem);
    assert Settled(lines[i], sem, values);
  }

  lemma ClosedNeverFails(lines: seq<Line>, sem: Semantics, values: Values)
    requires Closed(lines, sem, values)
    ensures !Fails(lines, sem)
  {
    forall name, fuel: nat
      ensures !FailsAt(lines, name, sem, fuel)
    {
      if FailsAt(lines, name, sem, fuel) {
        var i := DefinitionIndex(lines, name);
        assert Settled(lines[i], sem, values);
        var e := lines[i].expr;
        var operands := DenoteOperands(lines, e, sem, fuel);
        forall r | r in Operands(e)
          ensures r in values && values[r] == operands[r]
        {
          ClosedIsComplete(lines, sem, values, r, fuel);
        }
        EvalDependsOnOperands(e, values, operands, sem);
      }
    }
  }

  // ---------- the evaluator ----------

  function Destinations(lines: seq<Line>): set<string> {
    set i | 0 <= i < |lines| && lines[i].Define? :: lines[i].dest
  }

  /** What one line makes of the table; `None` where the source raises. */
  function StepLine(line: Line, sem: Semantics, values: Values): Option<Values> {
    if line.Other? || !Ready(line.expr, values) then Some(values)
    else
      var value := Eval(line.expr, values, sem);
      if value.None? then None else Some(values[line.dest := value.value])
  }

  /** The table after one sweep. A name defined twice is overwritten. */
  function Swept(lines: seq<Line>, sem: Semantics, values: Values): Option<Values> {
    if lines == [] then Some(values)
    else
      var before := Swept(lines[..|lines| - 1], sem, values);
      if before.None? then None else StepLine(lines[|lines| - 1], sem, before.value)
  }

  /** A sweep that has raised after some lines has raised. */
  lemma {:induction false} RaisedStaysRaised(lines: seq<Line>, sem: Semantics, values: Values, n: nat)
    requires n <= |lines| && Swept(lines[..n], sem, values).None?
    ensures Swept(lines, sem, values).None?
    decreases |lines|
  {
    if n == |lines| {
      assert lines[..n] == lines;
    } else {
      assert lines[..|lines| - 1][..n] == lines[..n];
      RaisedStaysRaised(lines[..|lines| - 1], sem, values, n);
    }
  }

  /** One sweep over the lines. It reports a change exactly when the table was not closed. */
  method Sweep(lines: seq<Line>, sem: Semantics, before: Values) returns (r: Result<Values, string>, changed: bool)
    ensures r.Ok? <==> Swept(lines, sem, before).Some?
    ensures r.Ok? ==> r.value == Swept(lines, sem, before).value && (changed <==> !Closed(lines, sem, before))
    ensures r.Err? ==> !Closed(lines, sem, before)
    ensures Closed(lines, sem, before) ==> r == Ok(before)
  {
    var values := before;
    changed := false;
    for i := 0 to |lines|
      invariant Swept(lines[..i], sem, before) == Some(values)
      invariant !changed ==> values == before && forall j :: 0 <= j < i ==> Settled(lines[j], sem, before)
      invariant changed ==> !Closed(lines, sem, before)
    {
      assert lines[..i + 1][..i] == lines[..i];
      if lines[i].Other? || !Ready(lines[i].expr, values) {
        continue;
      }
      var dest, value := lines[i].dest, Eval(lines[i].expr, values, sem);
      if value.None? {
        RaisedStaysRaised(lines, sem, before, i + 1);
        assert !changed ==> !Settled(lines[i], sem, before);
        return Err(dest), changed;
      }
      if dest !in values || values[dest] != value.value {
        assert !changed ==> !Settled(lines[i], sem, before);
        values := values[dest := value.value];
        changed := true;
      } else {
        assert values == values[dest := value.value];
      }
    }
    assert lines[..|lines|] == lines;
    r := Ok(values);
  }

  // ---------- the repetition ----------

  /** The table after `n` sweeps; `None` once one has raised. */
  function Repeated(lines: seq<Line>, sem: Semantics, start: Values, n: nat): Option<Values> {
    if n == 0 then Some(start)
    else
      var before := Repeated(lines, sem, start, n - 1);
      if before.None? then None else Swept(lines, sem, before.value)
  }

  lemma NextRepeated(lines: seq<Line>, sem: Semantics, start: Values, n: nat, values: Values)
    requires Repeated(lines, sem, start, n) == Some(values)
    ensures Repeated(lines, sem, start, n + 1) == Swept(lines, sem, values)
  {
  }

  /** After `n` sweeps the next one finds nothing to change, and the loop ends. */
  ghost predicate EndsAt(lines: seq<Line>, sem: Semantics, start: Values, n: nat) {
    var values := Repeated(lines, sem, start, n);
    values.Some? && Closed(lines, sem, values.value)
  }

  ghost predicate RaisesAt(lines: seq<Line>, sem: Semantics, start: Values, n: nat) {
    Repeated(lines, sem, start, n).None?
  }

  /** The loop runs forever. */
  ghost predicate RunsForever(lines: seq<Line>, sem: Semantics, start: Values) {
    forall n: nat :: !EndsAt(lines, sem, start, n) && !RaisesAt(lines, sem, start, n)
  }

  /** The `while changed` loop, from any start from which it does not run forever. */
  method SweepUntilUnchanged(lines: seq<Line>, sem: Semantics, start: Values)
    returns (r: Result<Values, string>, ghost n: nat)
    requires !RunsForever(lines, sem, start)
    ensures r.Ok? ==> EndsAt(lines, sem, start, n) && Repeated(lines, sem, start, n) == Some(r.value)
    ensures r.Err? ==> RaisesAt(lines, sem, start, n)
  {
    var values := start;
    n := 0;
    ghost var last: nat :| EndsAt(lines, sem, start, last) || RaisesAt(lines, sem, start, last);
    while true
      invariant n <= last && Repeated(lines, sem, start, n) == Some(values)
      decreases last - n
    {
      var swept, changed := Sweep(lines, sem, values);
      if swept.Err? {
        n := n + 1;
        return swept, n;
      }
      if !changed {
        return swept, n;
      }
      n := n + 1;
      values := swept.value;
    }
  }

  // ---------- tables below a closed one ----------

  predicate Below(a: Values, b: Values) {
    a.Keys <= b.Keys && forall name :: name in a ==> a[name] == b[name]
  }

  lemma SameKeysBelow(a: Values, b: Values)
    requires Below(a, b) && a.Keys == b.Keys
    ensures a == b
  {
  }

  lemma StepStaysBelow(line: Line, sem: Semantics, values: Values, top: Values)
    requires Below(values, top) && Settled(line, sem, top)
    ensures
      var after := StepLine(line, sem, values);
      after.Some? && Below(values, after.value) && Below(after.value, top)
  {
    if line.Define? && Ready(line.expr, values) {
      EvalDependsOnOperands(line.expr, values, top, sem);
    }
  }

  /** A sweep from below a closed table never raises, never revises a value, and stays below. */
  lemma {:induction false} SweepStaysBelow(lines: seq<Line>, sem: Semantics, values: Values, top: Values)
    requires Below(values, top) && Closed(lines, sem, top)
    ensures
      var after := Swept(lines, sem, values);
      after.Some? && Below(values, after.value) && Below(after.value, top)
  {
    if lines != [] {
      var n := |lines| - 1;
      forall i | 0 <= i < n
        ensures Settled(lines[..n][i], sem, top)
      {
        assert lines[..n][i] == lines[i];
      }
      SweepStaysBelow(lines[..n], sem, values, top);
      StepStaysBelow(lines[n], sem, Swept(lines[..n], sem, values).value, top);
    }
  }

  /** The step between two tables of a growing sweep that ends where it began changes nothing. */
  lemma {:induction false} UnchangedSweepIsClosed(lines: seq<Line>, sem: Semantics, values: Values, top: Values)
    requires Below(values, top) && Closed(lines, sem, top) && Swept(lines, sem, values) == Some(values)
    ensures Closed(lines, sem, values)
  {
    if lines != [] {
      var n := |lines| - 1;
      forall i | 0 <= i < n
        ensures Settled(lines[..n][i], sem, top)
      {
        assert lines[..n][i] == lines[i];
      }
      SweepStaysBelow(lines[..n], sem, values, top);
      var before := Swept(lines[..n], sem, values).value;
      StepStaysBelow(lines[n], sem, before, top);
      assert before == values;
      UnchangedSweepIsClosed(lines[..n], sem, values, top);
      forall i | 0 <= i < |lines|
        ensures Settled(lines[i], sem, values)
      {
        if i < n {
          assert Settled(lines[..n][i], sem, values);
        }
      }
    }
  }

  lemma StrictlyFewerLeft(all: set<string>, small: set<string>, large: set<string>)
    requires small < large <= all
    ensures |all - large| < |all - small|
  {
    assert all - small == (all - large) + (large - small);
    assert large - small != {};
  }

  /** A sweep that finds something to change below a closed table adds a name. */
  lemma {:induction false} SweepAddsBelow(lines: seq<Line>, sem: Semantics, values: Values, top: Values)
    requires Below(values, top) && Closed(lines, sem, top) && !Closed(lines, sem, values)
    ensures
      var after := Swept(lines, sem, values);
      after.Some? && Below(after.value, top) && values.Keys < after.value.Keys
  {
    SweepStaysBelow(lines, sem, values, top);
    var after := Swept(lines, sem, values).value;
    if after.Keys == values.Keys {
      assert after == values;
      UnchangedSweepIsClosed(lines, sem, values, top);
    }
  }

  /** From below a closed table the repetition ends, still below it. */
  lemma {:induction false} EndsBelow(
    lines: seq<Line>, sem: Semantics, start: Values, k: nat, values: Values, top: Values) returns (n: nat)
    requires Closed(lines, sem, top) && Below(values, top)
    requires Repeated(lines, sem, start, k) == Some(values)
    ensures EndsAt(lines, sem, start, n)
    decreases |top.Keys - values.Keys|
  {
    if Closed(lines, sem, values) {
      n := k;
    } else {
      SweepAddsBelow(lines, sem, values, top);
      var after := Swept(lines, sem, values).value;
      StrictlyFewerLeft(top.Keys, values.Keys, after.Keys);
      n := EndsBelow(lines, sem, start, k + 1, after, top);
    }
  }

  /** No sweep raises from below a closed table. */
  lemma {:induction false} NeverRaisesBelow(lines: seq<Line>, sem: Semantics, start: Values, top: Values, n: nat)
    requires Closed(lines, sem, top) && Below(start, top)
    ensures !RaisesAt(lines, sem, start, n) && Below(Repeated(lines, sem, start, n).value, top)
  {
    if n > 0 {
      NeverRaisesBelow(lines, sem, start, top, n - 1);
      SweepStaysBelow(lines, sem, Repeated(lines, sem, start, n - 1).value, top);
    }
  }

  // ---------- when the evaluation ends ----------

  ghost predicate HasClosedTable(lines: seq<Line>, sem: Semantics) {
    exists top: Values :: Closed(lines, sem, top)
  }

  /** Closed, and contained in every closed table. */
  ghost predicate IsLeastClosed(lines: seq<Line>, sem: Semantics, values: Values) {
    Closed(lines, sem, values) && forall top: Values :: Closed(lines, sem, top) ==> Below(values, top)
  }

  /** The table the repetition starts from, filled by the first pass. */
  function FirstValues(lines: seq<Line>, sem: Semantics): Values {
    ValuesOf(FirstPass(lines, sem))
  }

  /** What the first pass records is below every closed table. */
  lemma {:induction false} FirstPassIsBelow(lines: seq<Line>, sem: Semantics, top: Values)
    requires Closed(lines, sem, top)
    ensures Below(FirstValues(lines, sem), top)
  {
    if lines != [] {
      var n := |lines| - 1;
      forall i | 0 <= i < n
        ensures Settled(lines[..n][i], sem, top)
      {
        assert lines[..n][i] == lines[i];
      }
      FirstPassIsBelow(lines[..n], sem, top);
      var info := FirstPass(lines[..n], sem);
      if Records(lines[n], ValuesOf(info), sem) {
        assert Settled(lines[n], sem, top);
        EvalDependsOnOperands(lines[n].expr, ValuesOf(info), top, sem);
      }
    }
  }

  /**
    The repetition ends without raising exactly when some table is closed under the lines, whether
    or not a name is defined twice. It then ends at the least such table.
   */
  lemma {:induction false} EndsExactly(lines: seq<Line>, sem: Semantics)
    ensures (exists n: nat :: EndsAt(lines, sem, FirstValues(lines, sem), n)) <==> HasClosedTable(lines, sem)
    ensures forall n: nat :: EndsAt(lines, sem, FirstValues(lines, sem), n) ==>
              IsLeastClosed(lines, sem, Repeated(lines, sem, FirstValues(lines, sem), n).value)
  {
    var start := FirstValues(lines, sem);
    if top: Values :| Closed(lines, sem, top) {
      FirstPassIsBelow(lines, sem, top);
      var n := EndsBelow(lines, sem, start, 0, start, top);
    }
    forall n: nat, top: Values | EndsAt(lines, sem, start, n) && Closed(lines, sem, top)
      ensures Below(Repeated(lines, sem, start, n).value, top)
    {
      FirstPassIsBelow(lines, sem, top);
      NeverRaisesBelow(lines, sem, start, top, n);
    }
  }

  // ---------- single assignment ----------

  /** Under single assignment a sweep keeps a sound table sound and revises nothing. */
  lemma {:induction false} SoundSweep(lines: seq<Line>, sem: Semantics, values: Values, n: nat)
    requires SingleAssignment(lines) && Sound(lines, sem, values) && n <= |lines|
    ensures
      var after := Swept(lines[..n], sem, values);
      if after.None? then Fails(lines, sem)
      else
        && Sound(lines, sem, after.value) && Below(values, after.value)
        && after.value.Keys <= values.Keys + Destinations(lines)
        && (after.value == values ==> forall i :: 0 <= i < n ==> Settled(lines[i], sem, values))
  {
    if n > 0 {
      SoundSweep(lines, sem, values, n - 1);
      assert lines[..n][..n - 1] == lines[..n - 1];
      if Swept(lines[..n - 1], sem, values).Some? {
        SoundStep(lines, sem, Swept(lines[..n - 1], sem, values).value, n - 1);
      }
    }
  }

  lemma SoundStep(lines: seq<Line>, sem: Semantics, values: Values, i: nat)
    requires SingleAssignment(lines) && Sound(lines, sem, values) && i < |lines|
    ensures
      var after := StepLine(lines[i], sem, values);
      if after.None? then Fails(lines, sem)
      else
        && Sound(lines, sem, after.value) && Below(values, after.value)
        && after.value.Keys <= values.Keys + Destinations(lines)
        && (after.value == values ==> Settled(lines[i], sem, values))
  {
    if lines[i].Define? && Ready(lines[i].expr, values) {
      ReadyLineDenotes(lines, sem, values, i);
      var dest, value := lines[i].dest, Eval(lines[i].expr, values, sem);
      assert dest in Destinations(lines);
      if value.Some? && dest in values {
        DenotationIsUnique(lines, dest, sem, values[dest], value.value);
      }
    }
  }

  /** Names to add, and a sound table of some of them. */
  ghost predicate InProgress(lines: seq<Line>, sem: Semantics, values: Values, all: set<string>) {
    SingleAssignment(lines) && Sound(lines, sem, values) && Destinations(lines) <= all && values.Keys <= all
  }

  /** Under single assignment a sweep that finds something to change raises or adds a name. */
  lemma {:induction false} SoundSweepAdds(lines: seq<Line>, sem: Semantics, values: Values, all: set<string>)
    requires InProgress(lines, sem, values, all)
    requires !Closed(lines, sem, values) && Swept(lines, sem, values).Some?
    ensures
      var after := Swept(lines, sem, values).value;
      InProgress(lines, sem, after, all) && |all - after.Keys| < |all - values.Keys|
  {
    SoundSweep(lines, sem, values, |lines|);
    assert lines[..|lines|] == lines;
    var after := Swept(lines, sem, values).value;
    if after.Keys == values.Keys {
      SameKeysBelow(values, after);
    } else {
      StrictlyFewerLeft(all, values.Keys, after.Keys);
    }
  }

  /** Single-assignment code is evaluated in as many sweeps as there are names to add. */
  lemma {:induction false} SingleAssignmentEnds(
    lines: seq<Line>, sem: Semantics, start: Values, k: nat, values: Values, all: set<string>) returns (n: nat)
    requires InProgress(lines, sem, values, all) && Repeated(lines, sem, start, k) == Some(values)
    ensures EndsAt(lines, sem, start, n) || RaisesAt(lines, sem, start, n)
    decreases |all - values.Keys|
  {
    if Closed(lines, sem, values) {
      n := k;
    } else if Swept(lines, sem, values).None? {
      n := k + 1;
      NextRepeated(lines, sem, start, k, values);
    } else {
      NextRepeated(lines, sem, start, k, values);
      SoundSweepAdds(lines, sem, values, all);
      n := SingleAssignmentEnds(lines, sem, start, k + 1, Swept(lines, sem, values).value, all);
    }
  }

  /** Under single assignment every table of the repetition is sound, and raising means failing. */
  lemma {:induction false} RepeatedIsSound(lines: seq<Line>, sem: Semantics, start: Values, n: nat)
    requires SingleAssignment(lines) && Sound(lines, sem, start)
    ensures
      var values := Repeated(lines, sem, start, n);
      if values.None? then Fails(lines, sem) else Sound(lines, sem, values.value)
  {
    if n > 0 {
      RepeatedIsSound(lines, sem, start, n - 1);
      if Repeated(lines, sem, start, n - 1).Some? {
        SoundSweep(lines, sem, Repeated(lines, sem, start, n - 1).value, |lines|);
        assert lines[..|lines|] == lines;
      }
    }
  }

  /** A sound and closed environment is exactly the denotation. */
  lemma SoundAndClosedIsExact(lines: seq<Line>, sem: Semantics, values: Values)
    requires Sound(lines, sem, values) && Closed(lines, sem, values)
    ensures forall name, v: int :: name in values && values[name] == v <==> Denotes(lines, name, sem, v)
  {
    forall name, v: int | Denotes(lines, name, sem, v)
      ensures name in values && values[name] == v
    {
      var fuel: nat :| Denote(lines, name, sem, fuel) == Some(v);
      ClosedIsComplete(lines, sem, values, name, fuel);
    }
  }

  /**
    `_parse_values`, for lines on which it does not run forever. It succeeds exactly when some table
    is closed under the lines, and returns the least one. Under single assignment that is exactly
    the denotation, and it raises exactly when a definition with resolvable operands has no value.
   */
  method ParseValues(lines: seq<Line>, batch: int) returns (r: Result<Values, string>)
    requires !RunsForever(lines, Python(batch), FirstValues(lines, Python(batch)))
    ensures r.Ok? <==> HasClosedTable(lines, Python(batch))
    ensures r.Ok? ==> IsLeastClosed(lines, Python(batch), r.value)
    ensures SingleAssignment(lines) ==> (r.Err? <==> Fails(lines, Python(batch)))
    ensures SingleAssignment(lines) && r.Ok? ==> forall name, v: int ::
              name in r.value && r.value[name] == v <==> Denotes(lines, name, Python(batch), v)
  {
    var info := ParseValueInfo(lines, Python(batch));
    ghost var n;
    r, n := SweepUntilUnchanged(lines, Python(batch), ValuesOf(info));
    OutcomeOfRepetition(lines, Python(batch), r, n);
  }

  /** How the repetition ended decides what was asked. */
  lemma {:induction false} OutcomeOfRepetition(
    lines: seq<Line>, sem: Semantics, r: Result<Values, string>, n: nat)
    requires PlainSums(sem)
    requires r.Ok? ==> EndsAt(lines, sem, FirstValues(lines, sem), n)
                       && Repeated(lines, sem, FirstValues(lines, sem), n) == Some(r.value)
    requires r.Err? ==> RaisesAt(lines, sem, FirstValues(lines, sem), n)
    ensures r.Ok? <==> HasClosedTable(lines, sem)
    ensures r.Ok? ==> IsLeastClosed(lines, sem, r.value)
    ensures SingleAssignment(lines) ==> (r.Err? <==> Fails(lines, sem))
    ensures SingleAssignment(lines) && r.Ok? ==> forall name, v: int ::
              name in r.value && r.value[name] == v <==> Denotes(lines, name, sem, v)
  {
    var start := FirstValues(lines, sem);
    EndsExactly(lines, sem);
    if r.Err? {
      if top: Values :| Closed(lines, sem, top) {
        FirstPassIsBelow(lines, sem, top);
        NeverRaisesBelow(lines, sem, start, top, n);
        assert false;
      }
    }
    if SingleAssignment(lines) {
      SingleAssignmentOutcome(lines, sem, r, n);
    }
  }

  lemma {:induction false} SingleAssignmentOutcome(
    lines: seq<Line>, sem: Semantics, r: Result<Values, string>, n: nat)
    requires PlainSums(sem) && SingleAssignment(lines)
    requires r.Ok? ==> EndsAt(lines, sem, FirstValues(lines, sem), n)
                       && Repeated(lines, sem, FirstValues(lines, sem), n) == Some(r.value)
    requires r.Err? ==> RaisesAt(lines, sem, FirstValues(lines, sem), n)
    ensures r.Err? <==> Fails(lines, sem)
    ensures r.Ok? ==> forall name, v: int ::
              name in r.value && r.value[name] == v <==> Denotes(lines, name, sem, v)
  {
    var rank := FirstPassIsExact(lines, sem, |lines|);
    assert lines[..|lines|] == lines;
    RepeatedIsSound(lines, sem, FirstValues(lines, sem), n);
    if r.Ok? {
      ClosedNeverFails(lines, sem, r.value);
      SoundAndClosedIsExact(lines, sem, r.value);
    }
  }

  /** Single-assignment code never makes `_parse_values` run forever. */
  lemma SingleAssignmentIsEvaluated(lines: seq<Line>, sem: Semantics)
    requires PlainSums(sem) && SingleAssignment(lines)
    ensures !RunsForever(lines, sem, FirstValues(lines, sem))
  {
    var rank := FirstPassIsExact(lines, sem, |lines|);
    assert lines[..|lines|] == lines;
    var n := SingleAssignmentEnds(lines, sem, FirstValues(lines, sem), 0, FirstValues(lines, sem), Destinations(lines));
  }

  /** Two literals of different values for one name, among any other lines: no table is closed. */
  lemma ConflictingLiteralsNeverSettle(
    lines: seq<Line>, sem: Semantics, i: nat, j: nat, name: string, v: int, w: int)
    requires i < |lines| && j < |lines| && v != w
    requires lines[i].Define? && lines[i].dest == name && lines[i].expr == Literal(v)
    requires lines[j].Define? && lines[j].dest == name && lines[j].expr == Literal(w)
    ensures !HasClosedTable(lines, sem)
    ensures forall n: nat :: !EndsAt(lines, sem, FirstValues(lines, sem), n)
  {
    forall top: Values
      ensures !Closed(lines, sem, top)
    {
      assert !(Settled(lines[i], sem, top) && Settled(lines[j], sem, top));
    }
    EndsExactly(lines, sem);
  }

  /** Evaluation of the line raises for no values of its operands. */
  ghost predicate NeverRaises(line: Line, sem: Semantics) {
    line.Define? ==> forall values: Values :: Ready(line.expr, values) ==> Eval(line.expr, values, sem).Some?
  }

  lemma {:induction false} SweepOfTotalLines(lines: seq<Line>, sem: Semantics, values: Values)
    requires forall i :: 0 <= i < |lines| ==> NeverRaises(lines[i], sem)
    ensures Swept(lines, sem, values).Some?
  {
    if lines != [] {
      SweepOfTotalLines(lines[..|lines| - 1], sem, values);
    }
  }

  lemma {:induction false} TotalLinesNeverRaise(lines: seq<Line>, sem: Semantics, start: Values, n: nat)
    requires forall i :: 0 <= i < |lines| ==> NeverRaises(lines[i], sem)
    ensures !RaisesAt(lines, sem, start, n)
  {
    if n > 0 {
      TotalLinesNeverRaise(lines, sem, start, n - 1);
      SweepOfTotalLines(lines, sem, Repeated(lines, sem, start, n - 1).value);
    }
  }

  /** If moreover no line can raise, `_parse_values` runs forever. */
  lemma ConflictingLiteralsRunForever(
    lines: seq<Line>, sem: Semantics, i: nat, j: nat, name: string, v: int, w: int)
    requires i < |lines| && j < |lines| && v != w
    requires lines[i].Define? && lines[i].dest == name && lines[i].expr == Literal(v)
    requires lines[j].Define? && lines[j].dest == name && lines[j].expr == Literal(w)
    requires forall k :: 0 <= k < |lines| ==> NeverRaises(lines[k], sem)
    ensures RunsForever(lines, sem, FirstValues(lines, sem))
  {
    ConflictingLiteralsNeverSettle(lines, sem, i, j, name, v, w);
    forall n: nat
      ensures !RaisesAt(lines, sem, FirstValues(lines, sem), n)
    {
      TotalLinesNeverRaise(lines, sem, FirstValues(lines, sem), n);
    }
  }

  /** Reordering the lines changes no denotation. */
  lemma {:induction false} OrderIsIrrelevant(
    lines: seq<Line>, other: seq<Line>, name: string, sem: Semantics, fuel: nat)
    requires SingleAssignment(lines) && SingleAssignment(other)
    requires forall l :: l in lines <==> l in other
    ensures Denote(lines, name, sem, fuel) == Denote(other, name, sem, fuel)
    decreases fuel
  {
    SameDefinition(lines, other, name);
    if fuel > 0 && Definition(lines, name).Some? {
      var e := Definition(lines, name).value;
      forall r | r in Operands(e)
        ensures Denote(lines, r, sem, fuel - 1) == Denote(other, r, sem, fuel - 1)
      {
        OrderIsIrrelevant(lines, other, r, sem, fuel - 1);
      }
      assert DenoteOperands(lines, e, sem, fuel - 1) == DenoteOperands(other, e, sem, fuel - 1);
    }
  }

  lemma {:induction false} SameDefinition(lines: seq<Line>, other: seq<Line>, name: string)
    requires SingleAssignment(lines) && SingleAssignment(other)
    requires forall l :: l in lines <==> l in other
    ensures Definition(lines, name) == Definition(other, name)
  {
    if Definition(lines, name).Some? {
      var i := DefinitionIndex(lines, name);
      assert lines[i] in other;
      var j :| 0 <= j < |other| && other[j] == lines[i];
      DefinitionAt(other, j);
    } else if Definition(other, name).Some? {
      var j := DefinitionIndex(other, name);
      assert other[j] in lines;
      var i :| 0 <= i < |lines| && lines[i] == other[j];
      DefinitionAt(lines, i);
    }
  }

  // ---------- the first pass and additive terms ----------

  /** The operands are kept for sums only; `additive_terms` looks at no others. */
  datatype ValueInfo = ValueInfo(value: int, addends: Option<(string, string)>)

  /** What the first pass reads: index constants, dimensions, sums, differences, products, aligns. */
  predicate InFirstPass(line: Line) {
    line.Define? &&
    match line.expr
    case Literal(_) => line.isIndex
    case Dim => true
    case Binary(op, _, _) => line.isIndex && (op == Add || op == Sub || op == Mul)
    case Align(_, _) => true
    case _ => false
  }

  function ValuesOf(info: map<string, ValueInfo>): Values {
    map name | name in info :: info[name].value
  }

  /** A recorded sum is the sum of its recorded addends, each recorded earlier. */
  ghost predicate SumIsRecorded(info: map<string, ValueInfo>, rank: map<string, nat>, name: string)
    requires name in info && info.Keys == rank.Keys
  {
    info[name].addends.Some? ==>
      var (l, r) := info[name].addends.value;
      && l in info && r in info && rank[l] < rank[name] && rank[r] < rank[name]
      && info[name].value == info[l].value + info[r].value
  }

  ghost predicate SumsAreRecorded(info: map<string, ValueInfo>, rank: map<string, nat>) {
    && info.Keys == rank.Keys
    && forall name {:trigger SumIsRecorded(info, rank, name)} :: name in info ==> SumIsRecorded(info, rank, name)
  }

  /** Line `i` defines a value one pass can reach: all its operands are reached by earlier lines. */
  ghost predicate Reached(lines: seq<Line>, i: nat)
    requires i < |lines|
    decreases i
  {
    && InFirstPass(lines[i])
    && forall r :: r in Operands(lines[i].expr) ==>
         exists j :: 0 <= j < i && lines[j].Define? && lines[j].dest == r && Reached(lines, j)
  }

  function AddendsOf(e: Expr): Option<(string, string)> {
    if e.Binary? && e.op == Add then Some((e.lhs, e.rhs)) else None
  }

  /** The record of line `i` is there exactly if the line is reached, with the addends of a sum. */
  ghost predicate RecordedRight(lines: seq<Line>, info: map<string, ValueInfo>, i: nat)
    requires i < |lines|
  {
    lines[i].Define? ==>
      && (lines[i].dest in info <==> Reached(lines, i))
      && (lines[i].dest in info ==> info[lines[i].dest].addends == AddendsOf(lines[i].expr))
  }

  ghost predicate ExactBefore(lines: seq<Line>, info: map<string, ValueInfo>, n: nat)
    requires n <= |lines|
  {
    && (forall i {:trigger RecordedRight(lines, info, i)} :: 0 <= i < n ==> RecordedRight(lines, info, i))
    && info.Keys <= Destinations(lines[..n])
  }

  /** A recorded name has a reached defining line among the first `n`. */
  lemma {:induction false} RecordedIsReached(lines: seq<Line>, info: map<string, ValueInfo>, n: nat, name: string)
    requires n <= |lines| && ExactBefore(lines, info, n)
    ensures name in info <==> exists j :: 0 <= j < n && lines[j].Define? && lines[j].dest == name && Reached(lines, j)
  {
    if name in info {
      assert name in Destinations(lines[..n]);
      var j :| 0 <= j < n && lines[..n][j].Define? && lines[..n][j].dest == name;
      assert RecordedRight(lines, info, j);
    }
    forall j | 0 <= j < n && lines[j].Define? && lines[j].dest == name && Reached(lines, j)
      ensures name in info
    {
      assert RecordedRight(lines, info, j);
    }
  }

  /** Line `n` is reached exactly if the pass, so far exact, finds its operands. */
  lemma {:induction false} ReachedIsReady(lines: seq<Line>, info: map<string, ValueInfo>, n: nat)
    requires n < |lines| && ExactBefore(lines, info, n) && lines[n].Define?
    ensures Reached(lines, n) <==> InFirstPass(lines[n]) && Ready(lines[n].expr, ValuesOf(info))
  {
    forall r | r in Operands(lines[n].expr)
      ensures r in info <==> exists j :: 0 <= j < n && lines[j].Define? && lines[j].dest == r && Reached(lines, j)
    {
      RecordedIsReached(lines, info, n, r);
    }
    assert ValuesOf(info).Keys == info.Keys;
  }

  /** One line of the pass keeps it exact. */
  lemma ExactStep(lines: seq<Line>, info: map<string, ValueInfo>, n: nat, value: int)
    requires SingleAssignment(lines) && n < |lines| && ExactBefore(lines, info, n)
    ensures lines[n].Define? && Reached(lines, n) ==> ExactBefore(lines, Record(info, lines[n], value), n + 1)
    ensures !(lines[n].Define? && Reached(lines, n)) ==> ExactBefore(lines, info, n + 1)
  {
    DestinationsGrow(lines, n);
    var after := if lines[n].Define? && Reached(lines, n) then Record(info, lines[n], value) else info;
    forall i | 0 <= i < n + 1
      ensures RecordedRight(lines, after, i)
    {
      if i < n {
        assert RecordedRight(lines, info, i);
      }
    }
  }

  function Record(info: map<string, ValueInfo>, line: Line, value: int): map<string, ValueInfo>
    requires line.Define?
  {
    info[line.dest := ValueInfo(value, AddendsOf(line.expr))]
  }

  lemma SoundGrows(lines: seq<Line>, sem: Semantics, values: Values, name: string, value: int)
    requires Sound(lines, sem, values) && Denotes(lines, name, sem, value)
    ensures Sound(lines, sem, values[name := value])
  {
  }

  lemma SumsGrow(info: map<string, ValueInfo>, rank: map<string, nat>, line: Line, sem: Semantics, value: int, i: nat)
    requires PlainSums(sem)
    requires SumsAreRecorded(info, rank) && (forall name :: name in rank ==> rank[name] < i)
    requires line.Define? && line.dest !in info && Ready(line.expr, ValuesOf(info))
    requires Eval(line.expr, ValuesOf(info), sem) == Some(value)
    ensures SumsAreRecorded(Record(info, line, value), rank[line.dest := i])
  {
    var grown, grownRank := Record(info, line, value), rank[line.dest := i];
    forall name | name in grown
      ensures SumIsRecorded(grown, grownRank, name)
    {
      if name != line.dest {
        assert SumIsRecorded(info, rank, name);
      } else if line.expr.Binary? && line.expr.op == Add {
        assert line.expr.lhs in Operands(line.expr) && line.expr.rhs in Operands(line.expr);
        assert value == ValuesOf(info)[line.expr.lhs] + ValuesOf(info)[line.expr.rhs];
      }
    }
  }

  lemma RecordIsSound(
    lines: seq<Line>, sem: Semantics, info: map<string, ValueInfo>, i: nat, value: int)
    requires SingleAssignment(lines) && i < |lines| && InFirstPass(lines[i]) && Sound(lines, sem, ValuesOf(info))
    requires Ready(lines[i].expr, ValuesOf(info)) && Eval(lines[i].expr, ValuesOf(info), sem) == Some(value)
    ensures Sound(lines, sem, ValuesOf(Record(info, lines[i], value)))
  {
    ReadyLineDenotes(lines, sem, ValuesOf(info), i);
    SoundGrows(lines, sem, ValuesOf(info), lines[i].dest, value);
    assert ValuesOf(Record(info, lines[i], value)) == ValuesOf(info)[lines[i].dest := value];
  }

  /** Recording line `i` keeps the pass sound and the sums recorded. */
  lemma RecordKeeps(
    lines: seq<Line>, sem: Semantics, info: map<string, ValueInfo>, rank: map<string, nat>, i: nat, value: int)
    requires PlainSums(sem)
    requires SingleAssignment(lines) && i < |lines| && InFirstPass(lines[i])
    requires PassState(lines, sem, info, rank, i)
    requires Ready(lines[i].expr, ValuesOf(info)) && Eval(lines[i].expr, ValuesOf(info), sem) == Some(value)
    ensures PassState(lines, sem, Record(info, lines[i], value), rank[lines[i].dest := i], i + 1)
  {
    RecordIsSound(lines, sem, info, i, value);
    DestinationsGrow(lines, i);
    SumsGrow(info, rank, lines[i], sem, value, i);
    assert Record(info, lines[i], value).Keys == info.Keys + {lines[i].dest};
  }

  /** The first pass reads nothing that can fail. */
  lemma FirstPassEvaluates(line: Line, sem: Semantics, values: Values)
    requires PlainSums(sem) && InFirstPass(line) && Ready(line.expr, values)
    ensures Eval(line.expr, values, sem).Some?
  {
    if line.expr.Binary? {
      var a, b := values[line.expr.lhs], values[line.expr.rhs];
      assert sem.binary(Add, a, b) == Some(a + b);
    }
  }

  lemma SkipKeeps(lines: seq<Line>, sem: Semantics, info: map<string, ValueInfo>, rank: map<string, nat>, i: nat)
    requires SingleAssignment(lines) && i < |lines| && PassState(lines, sem, info, rank, i)
    ensures PassState(lines, sem, info, rank, i + 1)
  {
    DestinationsGrow(lines, i);
  }

  /** The state of the pass before line `i`. */
  ghost predicate PassState(
    lines: seq<Line>, sem: Semantics, info: map<string, ValueInfo>, rank: map<string, nat>, i: nat)
    requires i <= |lines|
  {
    && Sound(lines, sem, ValuesOf(info)) && SumsAreRecorded(info, rank)
    && info.Keys <= Destinations(lines[..i])
    && forall name :: name in rank ==> rank[name] < i
  }

  lemma PassStarts(lines: seq<Line>, sem: Semantics)
    ensures PassState(lines, sem, map[], map[], 0)
  {
    assert ValuesOf(map[]) == map[];
  }

  /** The pass records this line. */
  predicate Records(line: Line, values: Values, sem: Semantics) {
    InFirstPass(line) && Ready(line.expr, values) && Eval(line.expr, values, sem).Some?
  }

  /** The table of one pass in line order; a later record of a name replaces an earlier one. */
  function FirstPass(lines: seq<Line>, sem: Semantics): map<string, ValueInfo> {
    if lines == [] then map[]
    else
      var info, last := FirstPass(lines[..|lines| - 1], sem), lines[|lines| - 1];
      if Records(last, ValuesOf(info), sem)
      then Record(info, last, Eval(last.expr, ValuesOf(info), sem).value) else info
  }

  /**
    Under single assignment the pass records exactly the lines whose operands earlier lines have
    recorded, each with its denotation, and every sum with its addends.
   */
  lemma {:induction false} FirstPassIsExact(lines: seq<Line>, sem: Semantics, n: nat) returns (rank: map<string, nat>)
    requires PlainSums(sem) && SingleAssignment(lines) && n <= |lines|
    ensures PassState(lines, sem, FirstPass(lines[..n], sem), rank, n)
    ensures ExactBefore(lines, FirstPass(lines[..n], sem), n)
  {
    if n == 0 {
      rank := map[];
      PassStarts(lines, sem);
    } else {
      var i := n - 1;
      rank := FirstPassIsExact(lines, sem, i);
      assert lines[..n][..i] == lines[..i];
      var info := FirstPass(lines[..i], sem);
      rank := PassStep(lines, sem, info, i, rank);
    }
  }

  lemma PassStep(
    lines: seq<Line>, sem: Semantics, info: map<string, ValueInfo>, i: nat, rank: map<string, nat>)
    returns (grownRank: map<string, nat>)
    requires PlainSums(sem)
    requires SingleAssignment(lines) && i < |lines| && PassState(lines, sem, info, rank, i)
    requires ExactBefore(lines, info, i)
    ensures
      var grown := if Records(lines[i], ValuesOf(info), sem)
                   then Record(info, lines[i], Eval(lines[i].expr, ValuesOf(info), sem).value) else info;
      PassState(lines, sem, grown, grownRank, i + 1) && ExactBefore(lines, grown, i + 1)
  {
    if lines[i].Define? {
      ReachedIsReady(lines, info, i);
    }
    if InFirstPass(lines[i]) && Ready(lines[i].expr, ValuesOf(info)) {
      FirstPassEvaluates(lines[i], sem, ValuesOf(info));
      var value := Eval(lines[i].expr, ValuesOf(info), sem).value;
      RecordKeeps(lines, sem, info, rank, i, value);
      ExactStep(lines, info, i, value);
      grownRank := rank[lines[i].dest := i];
    } else {
      SkipKeeps(lines, sem, info, rank, i);
      ExactStep(lines, info, i, 0);
      grownRank := rank;
    }
  }

  /** The records of the pass are right, and the recursion of `additive_terms` over them ends. */
  ghost predicate IsExactPass(lines: seq<Line>, sem: Semantics, info: map<string, ValueInfo>) {
    && Sound(lines, sem, ValuesOf(info))
    && info.Keys <= Destinations(lines)
    && (forall i {:trigger RecordedRight(lines, info, i)} :: 0 <= i < |lines| ==> RecordedRight(lines, info, i))
    && exists rank: map<string, nat> :: SumsAreRecorded(info, rank)
  }

  /** `parse_value_info`: one pass in line order. */
  method ParseValueInfo(lines: seq<Line>, sem: Semantics) returns (info: map<string, ValueInfo>)
    requires PlainSums(sem)
    ensures info == FirstPass(lines, sem)
    ensures SingleAssignment(lines) ==> IsExactPass(lines, sem, info)
  {
    info := map[];
    for i := 0 to |lines|
      invariant info == FirstPass(lines[..i], sem)
    {
      assert lines[..i + 1][..i] == lines[..i];
      if InFirstPass(lines[i]) && Ready(lines[i].expr, ValuesOf(info)) {
        FirstPassEvaluates(lines[i], sem, ValuesOf(info));
        info := Record(info, lines[i], Eval(lines[i].expr, ValuesOf(info), sem).value);
      }
    }
    assert lines[..|lines|] == lines;
    if SingleAssignment(lines) {
      ghost var rank := FirstPassIsExact(lines, sem, |lines|);
      assert SumsAreRecorded(info, rank);
    }
  }

  lemma DestinationsGrow(lines: seq<Line>, i: nat)
    requires SingleAssignment(lines) && i < |lines|
    ensures Destinations(lines[..i + 1]) ==
            Destinations(lines[..i]) + (if lines[i].Define? then {lines[i].dest} else {})
    ensures lines[i].Define? ==> lines[i].dest !in Destinations(lines[..i])
  {
    forall name | name in Destinations(lines[..i])
      ensures name in Destinations(lines[..i + 1])
    {
      var j :| 0 <= j < i && lines[..i][j].Define? && lines[..i][j].dest == name;
      assert lines[..i + 1][j] == lines[j];
    }
    forall name | name in Destinations(lines[..i + 1])
      ensures name in Destinations(lines[..i]) || (lines[i].Define? && name == lines[i].dest)
    {
      var j :| 0 <= j < i + 1 && lines[..i + 1][j].Define? && lines[..i + 1][j].dest == name;
      if j < i {
        assert lines[..i][j] == lines[j];
      }
    }
    if lines[i].Define? {
      assert lines[..i + 1][i] == lines[i];
    }
  }

  function TermsSum(terms: seq<(string, int)>): int {
    if terms == [] then 0 else terms[0].1 + TermsSum(terms[1..])
  }

  /** `additive_terms`; the ghost rank shows that the recursion ends. */
  function AdditiveTerms(name: string, info: map<string, ValueInfo>, ghost rank: map<string, nat>): seq<(string, int)>
    requires SumsAreRecorded(info, rank)
    decreases if name in rank then rank[name] + 1 else 0
  {
    if name !in info then []
    else if info[name].addends.Some? then
      assert SumIsRecorded(info, rank, name);
      var (l, r) := info[name].addends.value;
      AdditiveTerms(l, info, rank) + AdditiveTerms(r, info, rank)
    else [(name, info[name].value)]
  }

  lemma {:induction false} TermsSumOfAppend(a: seq<(string, int)>, b: seq<(string, int)>)
    ensures TermsSum(a + b) == TermsSum(a) + TermsSum(b)
  {
    if a == [] {
      assert a + b == b;
    } else {
      assert (a + b)[1..] == a[1..] + b;
      TermsSumOfAppend(a[1..], b);
    }
  }

  /** The terms of a resolved name add back to its value, and none of them is itself a sum. */
  lemma {:induction false} AdditiveTermsAddUp(name: string, info: map<string, ValueInfo>, rank: map<string, nat>)
    requires SumsAreRecorded(info, rank) && name in info
    ensures TermsSum(AdditiveTerms(name, info, rank)) == info[name].value
    ensures forall t :: t in AdditiveTerms(name, info, rank) ==>
              t.0 in info && info[t.0].addends.None? && info[t.0].value == t.1
    decreases rank[name]
  {
    if info[name].addends.Some? {
      assert SumIsRecorded(info, rank, name);
      var (l, r) := info[name].addends.value;
      AdditiveTermsAddUp(l, info, rank);
      AdditiveTermsAddUp(r, info, rank);
      TermsSumOfAppend(AdditiveTerms(l, info, rank), AdditiveTerms(r, info, rank));
    }
  }
}
