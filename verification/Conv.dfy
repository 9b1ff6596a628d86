/**
  The int8 convolution micro-kernels of rrtos_ai_ukernel.c: unfused, fused with requantisation, and
  the specialised 7x7 stride-2 path, all proved against one padded convolution sum.

  Accumulators are mathematical integers: signed overflow is undefined in the source. `AccumulatorFitsExactly`
  says when the 32-bit accumulators of the source never overflow.
 */
module Conv {
  import opened Basics
  import opened Q31

  // ---------- row-major indices ----------

  function Index3(a: int, b: int, c: int, sizeB: int, sizeC: int): int {
    (a * sizeB + b) * sizeC + c
  }

  lemma IndexInRange(a: int, b: int, c: int, sizeA: int, sizeB: int, sizeC: int)
    requires 0 <= a < sizeA && 0 <= b < sizeB && 0 <= c < sizeC
    ensures 0 <= Index3(a, b, c, sizeB, sizeC) < sizeA * sizeB * sizeC
  {
    MulLe(a + 1, sizeA, sizeB);
    assert (a + 1) * sizeB == a * sizeB + sizeB;
    MulLe(a * sizeB + b + 1, sizeA * sizeB, sizeC);
    assert (a * sizeB + b + 1) * sizeC == (a * sizeB + b) * sizeC + sizeC;
    MulLe(0, a, sizeB);
    MulLe(0, a * sizeB + b, sizeC);
  }

  /** An index determines its three coordinates: writes to different cells never collide. */
  lemma IndexDecodes(a: int, b: int, c: int, sizeB: int, sizeC: int)
    requires 0 <= b < sizeB && 0 <= c < sizeC
    ensures
      var k := Index3(a, b, c, sizeB, sizeC);
      k % sizeC == c && k / sizeC % sizeB == b && k / sizeC / sizeB == a
  {
    DivModUnique(a * sizeB + b, sizeC, c);
    DivModUnique(a, sizeB, b);
  }

  lemma IndexEncodes(k: int, sizeB: int, sizeC: int)
    requires sizeB > 0 && sizeC > 0
    ensures k == Index3(k / sizeC / sizeB, k / sizeC % sizeB, k % sizeC, sizeB, sizeC)
    ensures 0 <= k % sizeC < sizeC && 0 <= k / sizeC % sizeB < sizeB
  {
    assert k == k / sizeC * sizeC + k % sizeC;
    assert k / sizeC == k / sizeC / sizeB * sizeB + k / sizeC % sizeB;
  }

  // ---------- the convolution sum ----------

  datatype Layout = HWIO | OHWI

  datatype Geometry = Geometry(
    inputH: int, inputW: int, inputC: int, outputH: int, outputW: int, outputC: int,
    kernelH: int, kernelW: int, strideH: int, strideW: int, padTop: int, padLeft: int,
    inputZeroPoint: int, weightZeroPoint: int)

  predicate PositiveGeometry(g: Geometry) {
    && g.inputH > 0 && g.inputW > 0 && g.inputC > 0
    && g.outputH > 0 && g.outputW > 0 && g.outputC > 0
    && g.kernelH > 0 && g.kernelW > 0 && g.strideH > 0 && g.strideW > 0
  }

  /** `conv2d_weight_index` */
  function WeightIndex(g: Geometry, layout: Layout, kh: int, kw: int, ic: int, oc: int): int {
    match layout
    case OHWI => Index3(oc * g.kernelH + kh, kw, ic, g.kernelW, g.inputC)
    case HWIO => Index3(kh * g.kernelW + kw, ic, oc, g.inputC, g.outputC)
  }

  function InputIndex(g: Geometry, ih: int, iw: int, ic: int): int {
    Index3(ih, iw, ic, g.inputW, g.inputC)
  }

  /** One output cell of a convolution. */
  datatype Cell = Cell(g: Geometry, layout: Layout, input: seq<int>, weights: seq<int>, oh: int, ow: int, oc: int)
  {
    function Row(kh: int): int {
      oh * g.strideH + kh - g.padTop
    }

    function Column(kw: int): int {
      ow * g.strideW + kw - g.padLeft
    }

    predicate RowInside(kh: int) {
      0 <= Row(kh) < g.inputH
    }

    predicate ColumnInside(kw: int) {
      0 <= Column(kw) < g.inputW
    }

    /** The buffers are as large as the geometry says. */
    predicate Sized() {
      && PositiveGeometry(g)
      && |input| == g.inputH * g.inputW * g.inputC
      && |weights| == g.outputC * g.kernelH * g.kernelW * g.inputC
      && 0 <= oc < g.outputC
    }
  }

  function At(s: seq<int>, i: int): int {
    if 0 <= i < |s| then s[i] else 0
  }

  /** One product; outside the image the input is its zero point, so the product is 0. */
  function Tap(x: Cell, kh: int, kw: int, ic: int): int {
    if x.RowInside(kh) && x.ColumnInside(kw) then
      (At(x.input, InputIndex(x.g, x.Row(kh), x.Column(kw), ic)) - x.g.inputZeroPoint)
      * (At(x.weights, WeightIndex(x.g, x.layout, kh, kw, ic, x.oc)) - x.g.weightZeroPoint)
    else 0
  }

  function SumChannels(x: Cell, kh: int, kw: int, n: nat): int {
    if n == 0 then 0 else SumChannels(x, kh, kw, n - 1) + Tap(x, kh, kw, n - 1)
  }

  function SumColumns(x: Cell, kh: int, n: nat): int
    requires x.g.inputC >= 0
  {
    if n == 0 then 0 else SumColumns(x, kh, n - 1) + SumChannels(x, kh, n - 1, x.g.inputC)
  }

  function SumRows(x: Cell, n: nat): int
    requires x.g.inputC >= 0 && x.g.kernelW >= 0
  {
    if n == 0 then 0 else SumRows(x, n - 1) + SumColumns(x, n - 1, x.g.kernelW)
  }

  /** The convolution at one cell: the bias and all products of the padded image. */
  function Convolve(x: Cell, bias: int): int
    requires PositiveGeometry(x.g)
  {
    bias + SumRows(x, x.g.kernelH)
  }

  lemma {:induction false} OutsideColumnIsZero(x: Cell, kh: int, kw: int, n: nat)
    requires !x.RowInside(kh) || !x.ColumnInside(kw)
    ensures SumChannels(x, kh, kw, n) == 0
  {
    if n > 0 {
      OutsideColumnIsZero(x, kh, kw, n - 1);
    }
  }

  lemma {:induction false} OutsideRowIsZero(x: Cell, kh: int, n: nat)
    requires x.g.inputC >= 0 && !x.RowInside(kh)
    ensures SumColumns(x, kh, n) == 0
  {
    if n > 0 {
      OutsideRowIsZero(x, kh, n - 1);
      OutsideColumnIsZero(x, kh, n - 1, x.g.inputC);
    }
  }

  lemma InputIndexInRange(x: Cell, kh: int, kw: int, ic: int)
    requires x.Sized() && x.RowInside(kh) && x.ColumnInside(kw) && 0 <= ic < x.g.inputC
    ensures 0 <= InputIndex(x.g, x.Row(kh), x.Column(kw), ic) < |x.input|
  {
    IndexInRange(x.Row(kh), x.Column(kw), ic, x.g.inputH, x.g.inputW, x.g.inputC);
  }

  lemma WeightIndexInRange(x: Cell, kh: int, kw: int, ic: int)
    requires x.Sized() && 0 <= kh < x.g.kernelH && 0 <= kw < x.g.kernelW && 0 <= ic < x.g.inputC
    ensures 0 <= WeightIndex(x.g, x.layout, kh, kw, ic, x.oc) < |x.weights|
  {
    var g := x.g;
    if x.layout == OHWI {
      PairInRange(x.oc, kh, g.outputC, g.kernelH);
      IndexInRange(x.oc * g.kernelH + kh, kw, ic, g.outputC * g.kernelH, g.kernelW, g.inputC);
    } else {
      PairInRange(kh, kw, g.kernelH, g.kernelW);
      IndexInRange(kh * g.kernelW + kw, ic, x.oc, g.kernelH * g.kernelW, g.inputC, g.outputC);
      SameVolume(g.outputC, g.kernelH, g.kernelW, g.inputC);
    }
  }

  lemma PairInRange(a: int, b: int, sizeA: int, sizeB: int)
    requires 0 <= a < sizeA && 0 <= b < sizeB
    ensures 0 <= a * sizeB + b < sizeA * sizeB
  {
    MulLe(a + 1, sizeA, sizeB);
    assert (a + 1) * sizeB == a * sizeB + sizeB;
    MulLe(0, a, sizeB);
  }

  lemma SameVolume(o: int, h: int, w: int, i: int)
    ensures o * h * w * i == h * w * i * o
  {
    assert o * h * w * i == o * (h * w * i);
    assert h * w * i * o == o * (h * w * i);
  }

  // ---------- 32-bit accumulators ----------

  ghost predicate AllInt8(s: seq<int>) {
    forall i :: 0 <= i < |s| ==> -128 <= s[i] <= 127
  }

  /** The values have the types of the source, and the zero points are int8 values too. */
  ghost predicate Int8Cell(x: Cell) {
    && AllInt8(x.input) && AllInt8(x.weights)
    && -128 <= x.g.inputZeroPoint <= 127 && -128 <= x.g.weightZeroPoint <= 127
  }

  const MAX_TAP := 255 * 255

  predicate Within(v: int, bound: int) {
    -bound <= v <= bound
  }

  lemma ProductWithin(a: int, b: int)
    requires Within(a, 255) && Within(b, 255)
    ensures Within(a * b, MAX_TAP)
  {
    var x, y := if a < 0 then -a else a, if b < 0 then -b else b;
    MulLe(x, 255, y);
    MulLe(0, x, y);
    assert a * b == x * y || a * b == -(x * y);
  }

  lemma TapWithin(x: Cell, kh: int, kw: int, ic: int)
    requires x.Sized() && Int8Cell(x) && 0 <= kh < x.g.kernelH && 0 <= kw < x.g.kernelW && 0 <= ic < x.g.inputC
    ensures Within(Tap(x, kh, kw, ic), MAX_TAP)
  {
    if x.RowInside(kh) && x.ColumnInside(kw) {
      InputIndexInRange(x, kh, kw, ic);
      WeightIndexInRange(x, kh, kw, ic);
      ProductWithin(
        At(x.input, InputIndex(x.g, x.Row(kh), x.Column(kw), ic)) - x.g.inputZeroPoint,
        At(x.weights, WeightIndex(x.g, x.layout, kh, kw, ic, x.oc)) - x.g.weightZeroPoint);
    }
  }

  lemma {:induction false} ChannelsWithin(x: Cell, kh: int, kw: int, n: nat)
    requires x.Sized() && Int8Cell(x) && 0 <= kh < x.g.kernelH && 0 <= kw < x.g.kernelW && n <= x.g.inputC
    ensures Within(SumChannels(x, kh, kw, n), n * MAX_TAP)
  {
    if n > 0 {
      ChannelsWithin(x, kh, kw, n - 1);
      TapWithin(x, kh, kw, n - 1);
    }
  }

  lemma {:induction false} ColumnsWithin(x: Cell, kh: int, n: nat)
    requires x.Sized() && Int8Cell(x) && 0 <= kh < x.g.kernelH && n <= x.g.kernelW
    ensures Within(SumColumns(x, kh, n), n * x.g.inputC * MAX_TAP)
  {
    if n > 0 {
      ColumnsWithin(x, kh, n - 1);
      ChannelsWithin(x, kh, n - 1, x.g.inputC);
      assert n * x.g.inputC == (n - 1) * x.g.inputC + x.g.inputC;
    }
  }

  /** Taps of `n` rows, one row at a time. */
  lemma RowOfTaps(n: nat, w: nat, c: nat, v: int)
    requires n > 0
    ensures n * w * c * v == (n - 1) * w * c * v + w * c * v
  {
    assert n * w * c == (n - 1) * w * c + w * c by {
      assert n * w == (n - 1) * w + w;
      assert ((n - 1) * w + w) * c == (n - 1) * w * c + w * c;
    }
    assert ((n - 1) * w * c + w * c) * v == (n - 1) * w * c * v + w * c * v;
  }

  lemma {:induction false} RowsWithin(x: Cell, n: nat)
    requires x.Sized() && Int8Cell(x) && n <= x.g.kernelH
    ensures Within(SumRows(x, n), n * x.g.kernelW * x.g.inputC * MAX_TAP)
  {
    if n > 0 {
      RowsWithin(x, n - 1);
      ColumnsWithin(x, n - 1, x.g.kernelW);
      RowOfTaps(n, x.g.kernelW, x.g.inputC, MAX_TAP);
    }
  }

  /** The number of taps before tap (kh, kw, ic). */
  function TapsBefore(g: Geometry, kh: int, kw: int, ic: int): int {
    Index3(kh, kw, ic, g.kernelW, g.inputC)
  }

  lemma TapsBounded(g: Geometry, kh: int, kw: int, ic: int)
    requires PositiveGeometry(g) && 0 <= kh < g.kernelH && 0 <= kw < g.kernelW && 0 <= ic <= g.inputC
    ensures TapsBefore(g, kh, kw, ic) <= g.kernelH * g.kernelW * g.inputC
  {
    PairInRange(kh, kw, g.kernelH, g.kernelW);
    MulLe(kh * g.kernelW + kw + 1, g.kernelH * g.kernelW, g.inputC);
    assert (kh * g.kernelW + kw + 1) * g.inputC == (kh * g.kernelW + kw) * g.inputC + g.inputC;
  }

  lemma {:induction false} PartialSumWithin(x: Cell, kh: nat, kw: nat, ic: nat)
    requires x.Sized() && Int8Cell(x) && kh < x.g.kernelH && kw < x.g.kernelW && ic <= x.g.inputC
    ensures Within(SumRows(x, kh) + SumColumns(x, kh, kw) + SumChannels(x, kh, kw, ic),
                   TapsBefore(x.g, kh, kw, ic) * MAX_TAP)
  {
    RowsWithin(x, kh);
    ColumnsWithin(x, kh, kw);
    ChannelsWithin(x, kh, kw, ic);
    assert TapsBefore(x.g, kh, kw, ic) == kh * x.g.kernelW * x.g.inputC + kw * x.g.inputC + ic;
  }

  /** The running sum of `Accumulate` before tap (kh, kw, ic). */
  function PartialSum(x: Cell, bias: int, kh: nat, kw: nat, ic: nat): int
    requires PositiveGeometry(x.g)
  {
    bias + SumRows(x, kh) + SumColumns(x, kh, kw) + SumChannels(x, kh, kw, ic)
  }

  function KernelTaps(g: Geometry): int {
    g.kernelH * g.kernelW * g.inputC
  }

  /** The bias leaves room for 255 * 255 at every tap, up and down. */
  predicate HasRoom(g: Geometry, bias: int) {
    I32_MIN + KernelTaps(g) * MAX_TAP <= bias <= I32_MAX - KernelTaps(g) * MAX_TAP
  }

  /**
    No running sum of `Accumulate` leaves 32 bits when the bias leaves room, so the 32-bit accumulator of
    the source holds the unbounded one of the model.
   */
  lemma AccumulatorFits(x: Cell, bias: int, kh: nat, kw: nat, ic: nat)
    requires x.Sized() && Int8Cell(x) && kh < x.g.kernelH && kw < x.g.kernelW && ic <= x.g.inputC
    requires HasRoom(x.g, bias)
    ensures IsI32(PartialSum(x, bias, kh, kw, ic))
  {
    PartialSumWithin(x, kh, kw, ic);
    TapsBounded(x.g, kh, kw, ic);
  }

  /** All taps of the cell have the value `v`. */
  ghost predicate ConstantTaps(x: Cell, v: int) {
    forall kh, kw, ic :: 0 <= kh < x.g.kernelH && 0 <= kw < x.g.kernelW && 0 <= ic < x.g.inputC ==>
      Tap(x, kh, kw, ic) == v
  }

  lemma {:induction false} ConstantChannels(x: Cell, v: int, kh: int, kw: int, n: nat)
    requires ConstantTaps(x, v) && 0 <= kh < x.g.kernelH && 0 <= kw < x.g.kernelW && n <= x.g.inputC
    ensures SumChannels(x, kh, kw, n) == n * v
  {
    if n > 0 {
      ConstantChannels(x, v, kh, kw, n - 1);
      assert n * v == (n - 1) * v + v;
    }
  }

  lemma {:induction false} ConstantColumns(x: Cell, v: int, kh: int, n: nat)
    requires ConstantTaps(x, v) && x.g.inputC >= 0 && 0 <= kh < x.g.kernelH && n <= x.g.kernelW
    ensures SumColumns(x, kh, n) == n * x.g.inputC * v
  {
    if n > 0 {
      ConstantColumns(x, v, kh, n - 1);
      ConstantChannels(x, v, kh, n - 1, x.g.inputC);
      RowOfTaps(n, x.g.inputC, 1, v);
    }
  }

  lemma {:induction false} ConstantRows(x: Cell, v: int, n: nat)
    requires ConstantTaps(x, v) && x.g.inputC >= 0 && x.g.kernelW >= 0 && n <= x.g.kernelH
    ensures SumRows(x, n) == n * x.g.kernelW * x.g.inputC * v
  {
    if n > 0 {
      ConstantRows(x, v, n - 1);
      ConstantColumns(x, v, n - 1, x.g.kernelW);
      RowOfTaps(n, x.g.kernelW, x.g.inputC, v);
    }
  }

  /** Where a cell is, whatever its data and zero points. */
  datatype Place = Place(g: Geometry, layout: Layout, oh: int, ow: int, oc: int) {
    /** The whole window of the cell is inside the image. */
    predicate WindowInside() {
      && PositiveGeometry(g) && 0 <= oc < g.outputC
      && g.padTop <= oh * g.strideH && oh * g.strideH + g.kernelH - g.padTop <= g.inputH
      && g.padLeft <= ow * g.strideW && ow * g.strideW + g.kernelW - g.padLeft <= g.inputW
    }

    predicate Holds(x: Cell) {
      x == Cell(g.(inputZeroPoint := x.g.inputZeroPoint, weightZeroPoint := x.g.weightZeroPoint),
                layout, x.input, x.weights, oh, ow, oc)
    }
  }

  /** The cell at `p` with the same number everywhere in the input and in the weights. */
  ghost function UniformCell(p: Place, input: int, inputZeroPoint: int, weight: int, weightZeroPoint: int): (x: Cell)
    requires p.WindowInside()
  {
    var g := p.g;
    VolumesArePositive(g);
    Cell(g.(inputZeroPoint := inputZeroPoint, weightZeroPoint := weightZeroPoint), p.layout,
         seq(g.inputH * g.inputW * g.inputC, _ => input),
         seq(g.outputC * g.kernelH * g.kernelW * g.inputC, _ => weight), p.oh, p.ow, p.oc)
  }

  lemma VolumesArePositive(g: Geometry)
    requires PositiveGeometry(g)
    ensures g.inputH * g.inputW * g.inputC >= 0 && g.outputC * g.kernelH * g.kernelW * g.inputC >= 0
  {
    IndexInRange(0, 0, 0, g.inputH, g.inputW, g.inputC);
    IndexInRange(0, 0, 0, g.outputC * g.kernelH, g.kernelW, g.inputC) by {
      PairInRange(0, 0, g.outputC, g.kernelH);
    }
  }

  lemma UniformTap(
    p: Place, input: int, inputZeroPoint: int, weight: int, weightZeroPoint: int, kh: int, kw: int, ic: int)
    requires p.WindowInside() && 0 <= kh < p.g.kernelH && 0 <= kw < p.g.kernelW && 0 <= ic < p.g.inputC
    ensures Tap(UniformCell(p, input, inputZeroPoint, weight, weightZeroPoint), kh, kw, ic)
            == (input - inputZeroPoint) * (weight - weightZeroPoint)
  {
    var x := UniformCell(p, input, inputZeroPoint, weight, weightZeroPoint);
    InputIndexInRange(x, kh, kw, ic);
    WeightIndexInRange(x, kh, kw, ic);
  }

  /** When all taps have been added, a uniform cell has the bias and as often the one product `v`. */
  lemma UniformSum(
    p: Place, input: int, inputZeroPoint: int, weight: int, weightZeroPoint: int, bias: int, v: int)
    requires p.WindowInside() && v == (input - inputZeroPoint) * (weight - weightZeroPoint)
    ensures
      var x := UniformCell(p, input, inputZeroPoint, weight, weightZeroPoint);
      PartialSum(x, bias, p.g.kernelH - 1, p.g.kernelW - 1, p.g.inputC) == bias + KernelTaps(p.g) * v
  {
    var x := UniformCell(p, input, inputZeroPoint, weight, weightZeroPoint);
    forall kh, kw, ic | 0 <= kh < p.g.kernelH && 0 <= kw < p.g.kernelW && 0 <= ic < p.g.inputC
      ensures Tap(x, kh, kw, ic) == v
    {
      UniformTap(p, input, inputZeroPoint, weight, weightZeroPoint, kh, kw, ic);
    }
    ConstantRows(x, v, p.g.kernelH);
  }

  /** Whatever the int8 data and zero points at this place are, no running sum leaves 32 bits. */
  ghost predicate AlwaysFits(p: Place, bias: int)
    requires p.WindowInside()
  {
    forall x: Cell, kh: nat, kw: nat, ic: nat {:trigger PartialSum(x, bias, kh, kw, ic), p.Holds(x)} ::
      p.Holds(x) && x.Sized() && Int8Cell(x) && kh < p.g.kernelH && kw < p.g.kernelW && ic <= p.g.inputC ==>
        IsI32(PartialSum(x, bias, kh, kw, ic))
  }

  /** Where no tap falls outside the image, 32 bits suffice for all data exactly when the bias leaves room. */
  lemma AccumulatorFitsExactly(p: Place, bias: int)
    requires p.WindowInside()
    ensures AlwaysFits(p, bias) <==> HasRoom(p.g, bias)
  {
    if HasRoom(p.g, bias) {
      forall x: Cell, kh: nat, kw: nat, ic: nat |
        p.Holds(x) && x.Sized() && Int8Cell(x) && kh < p.g.kernelH && kw < p.g.kernelW && ic <= p.g.inputC
        ensures IsI32(PartialSum(x, bias, kh, kw, ic))
      {
        AccumulatorFits(x, bias, kh, kw, ic);
      }
    }
    if AlwaysFits(p, bias) {
      UniformFits(p, bias, 127, -128, MAX_TAP);
      UniformFits(p, bias, -128, 127, -MAX_TAP);
    }
  }

  /** The input takes its largest value above its zero point, the weights `weight`. */
  lemma UniformFits(p: Place, bias: int, weight: int, weightZeroPoint: int, v: int)
    requires p.WindowInside() && AlwaysFits(p, bias)
    requires -128 <= weight <= 127 && -128 <= weightZeroPoint <= 127 && v == 255 * (weight - weightZeroPoint)
    ensures IsI32(bias + KernelTaps(p.g) * v)
  {
    var x := UniformCell(p, 127, -128, weight, weightZeroPoint);
    UniformIsInt8(p, weight, weightZeroPoint);
    assert IsI32(PartialSum(x, bias, p.g.kernelH - 1, p.g.kernelW - 1, p.g.inputC));
    UniformSum(p, 127, -128, weight, weightZeroPoint, bias, v);
  }

  lemma UniformIsInt8(p: Place, weight: int, weightZeroPoint: int)
    requires p.WindowInside() && -128 <= weight <= 127 && -128 <= weightZeroPoint <= 127
    ensures
      var x := UniformCell(p, 127, -128, weight, weightZeroPoint);
      p.Holds(x) && x.Sized() && Int8Cell(x)
  {
  }

  // ---------- accumulating one cell ----------

  /** The three kernel loops of the generic kernels, fused and unfused. */
  method Accumulate(x: Cell, bias: int) returns (acc: int)
    requires x.Sized()
    ensures acc == Convolve(x, bias)
  {
    acc := bias;
    for kh := 0 to x.g.kernelH
      invariant acc == bias + SumRows(x, kh)
    {
      var ih := x.oh * x.g.strideH + kh - x.g.padTop;
      if ih < 0 || ih >= x.g.inputH {
        OutsideRowIsZero(x, kh, x.g.kernelW);
        continue;
      }
      for kw := 0 to x.g.kernelW
        invariant acc == bias + SumRows(x, kh) + SumColumns(x, kh, kw)
      {
        var iw := x.ow * x.g.strideW + kw - x.g.padLeft;
        if iw < 0 || iw >= x.g.inputW {
          OutsideColumnIsZero(x, kh, kw, x.g.inputC);
          continue;
        }
        for ic := 0 to x.g.inputC
          invariant acc == bias + SumRows(x, kh) + SumColumns(x, kh, kw) + SumChannels(x, kh, kw, ic)
        {
          InputIndexInRange(x, kh, kw, ic);
          WeightIndexInRange(x, kh, kw, ic);
          var inputValue := x.input[InputIndex(x.g, ih, iw, ic)] - x.g.inputZeroPoint;
          var weightValue := x.weights[WeightIndex(x.g, x.layout, kh, kw, ic, x.oc)] - x.g.weightZeroPoint;
          acc := acc + inputValue * weightValue;
        }
      }
    }
  }

  /** When the entry points take the specialised path. */
  predicate TakesFastPath(g: Geometry) {
    && g.inputC == 1 && g.kernelH == 7 && g.kernelW == 7
    && g.strideH == 2 && g.strideW == 2 && g.padTop == 3 && g.padLeft == 3
    && g.weightZeroPoint == 0
  }

  lemma FastIndices(x: Cell, ih: int, iw: int, kh: int, kw: int)
    requires TakesFastPath(x.g) && x.layout == OHWI
    ensures InputIndex(x.g, ih, iw, 0) == ih * x.g.inputW + iw
    ensures WeightIndex(x.g, OHWI, kh, kw, 0, x.oc) == x.oc * 7 * 7 + kh * 7 + kw
    ensures SumChannels(x, kh, kw, 1) == Tap(x, kh, kw, 0)
  {
    assert SumChannels(x, kh, kw, 0) == 0;
  }

  /** The kernel loops of `conv2d_ohwi_requant_tile_fast_ch1_7x7`, with its constants. */
  method AccumulateFast(x: Cell, bias: int) returns (acc: int)
    requires x.Sized() && TakesFastPath(x.g) && x.layout == OHWI
    ensures acc == Convolve(x, bias)
  {
    acc := bias;
    var weightOcOffset := x.oc * 7 * 7;
    for kh := 0 to 7
      invariant acc == bias + SumRows(x, kh)
    {
      var ih := x.oh * 2 + kh - 3;
      if ih < 0 || ih >= x.g.inputH {
        OutsideRowIsZero(x, kh, 7);
        continue;
      }
      var inputRowOffset := ih * x.g.inputW;
      var weightKhOffset := weightOcOffset + kh * 7;
      for kw := 0 to 7
        invariant acc == bias + SumRows(x, kh) + SumColumns(x, kh, kw)
      {
        var iw := x.ow * 2 + kw - 3;
        FastIndices(x, ih, iw, kh, kw);
        if iw < 0 || iw >= x.g.inputW {
          OutsideColumnIsZero(x, kh, kw, 1);
          continue;
        }
        InputIndexInRange(x, kh, kw, 0);
        WeightIndexInRange(x, kh, kw, 0);
        var inputValue := x.input[inputRowOffset + iw] - x.g.inputZeroPoint;
        var weightValue := x.weights[weightKhOffset + kw];
        acc := acc + inputValue * weightValue;
      }
    }
  }

  // ---------- one weight at a time ----------

  /** Where the weight of an output channel for one kernel position and input channel is stored. */
  function WeightPlace(g: Geometry, layout: Layout, kh: int, kw: int, ic: int, oc: int): int {
    match layout
    case OHWI => ((oc * g.kernelH + kh) * g.kernelW + kw) * g.inputC + ic
    case HWIO => ((kh * g.kernelW + kw) * g.inputC + ic) * g.outputC + oc
  }

  /** All weights but this one are the zero point. */
  predicate SingleWeight(x: Cell, place: int) {
    forall i :: 0 <= i < |x.weights| && i != place ==> x.weights[i] == x.g.weightZeroPoint
  }

  predicate InKernel(g: Geometry, kh: int, kw: int, ic: int) {
    0 <= kh < g.kernelH && 0 <= kw < g.kernelW && 0 <= ic < g.inputC
  }

  /** The pixel that a weight of the kernel meets, less its zero point; nothing outside the image. */
  function MetPixel(x: Cell, kh: int, kw: int, ic: int): int {
    var row, column := x.oh * x.g.strideH - x.g.padTop + kh, x.ow * x.g.strideW - x.g.padLeft + kw;
    if 0 <= row < x.g.inputH && 0 <= column < x.g.inputW
    then At(x.input, (row * x.g.inputW + column) * x.g.inputC + ic) - x.g.inputZeroPoint
    else 0
  }

  lemma PlacesDiffer(g: Geometry, layout: Layout, oc: int, kh: int, kw: int, ic: int, kh': int, kw': int, ic': int)
    requires 0 <= oc < g.outputC && InKernel(g, kh, kw, ic) && InKernel(g, kh', kw', ic')
    requires WeightIndex(g, layout, kh, kw, ic, oc) == WeightIndex(g, layout, kh', kw', ic', oc)
    ensures kh == kh' && kw == kw' && ic == ic'
  {
    if layout == OHWI {
      IndexDecodes(oc * g.kernelH + kh, kw, ic, g.kernelW, g.inputC);
      IndexDecodes(oc * g.kernelH + kh', kw', ic', g.kernelW, g.inputC);
    } else {
      IndexDecodes(kh * g.kernelW + kw, ic, oc, g.inputC, g.outputC);
      IndexDecodes(kh' * g.kernelW + kw', ic', oc, g.inputC, g.outputC);
      DivModUnique(kh, g.kernelW, kw);
      DivModUnique(kh', g.kernelW, kw');
    }
  }

  lemma OtherTapIsZero(x: Cell, kh: int, kw: int, ic: int, kh': int, kw': int, ic': int)
    requires x.Sized() && InKernel(x.g, kh, kw, ic) && InKernel(x.g, kh', kw', ic')
    requires SingleWeight(x, WeightPlace(x.g, x.layout, kh, kw, ic, x.oc))
    requires kh' != kh || kw' != kw || ic' != ic
    ensures Tap(x, kh', kw', ic') == 0
  {
    WeightIndexInRange(x, kh', kw', ic');
    if WeightIndex(x.g, x.layout, kh, kw, ic, x.oc) == WeightIndex(x.g, x.layout, kh', kw', ic', x.oc) {
      PlacesDiffer(x.g, x.layout, x.oc, kh, kw, ic, kh', kw', ic');
    }
  }

  lemma {:induction false} SingleChannel(x: Cell, kh: int, kw: int, ic: int, kh': int, kw': int, n: nat)
    requires x.Sized() && InKernel(x.g, kh, kw, ic) && InKernel(x.g, kh', kw', 0) && n <= x.g.inputC
    requires SingleWeight(x, WeightPlace(x.g, x.layout, kh, kw, ic, x.oc))
    ensures SumChannels(x, kh', kw', n) == if kh' == kh && kw' == kw && ic < n then Tap(x, kh, kw, ic) else 0
  {
    if n > 0 {
      SingleChannel(x, kh, kw, ic, kh', kw', n - 1);
      if !(kh' == kh && kw' == kw && ic == n - 1) {
        OtherTapIsZero(x, kh, kw, ic, kh', kw', n - 1);
      }
    }
  }

  lemma {:induction false} SingleColumn(x: Cell, kh: int, kw: int, ic: int, kh': int, n: nat)
    requires x.Sized() && InKernel(x.g, kh, kw, ic) && 0 <= kh' < x.g.kernelH && n <= x.g.kernelW
    requires SingleWeight(x, WeightPlace(x.g, x.layout, kh, kw, ic, x.oc))
    ensures SumColumns(x, kh', n) == if kh' == kh && kw < n then Tap(x, kh, kw, ic) else 0
  {
    if n > 0 {
      SingleColumn(x, kh, kw, ic, kh', n - 1);
      SingleChannel(x, kh, kw, ic, kh', n - 1, x.g.inputC);
    }
  }

  lemma {:induction false} SingleRow(x: Cell, kh: int, kw: int, ic: int, n: nat)
    requires x.Sized() && InKernel(x.g, kh, kw, ic) && n <= x.g.kernelH
    requires SingleWeight(x, WeightPlace(x.g, x.layout, kh, kw, ic, x.oc))
    ensures SumRows(x, n) == if kh < n then Tap(x, kh, kw, ic) else 0
  {
    if n > 0 {
      SingleRow(x, kh, kw, ic, n - 1);
      SingleColumn(x, kh, kw, ic, n - 1, x.g.kernelW);
    }
  }

  /**
    A kernel with one weight `w` away from its zero point gives the bias and `w` times the one pixel
    this weight meets: the pixel of the same input channel, `kh` rows and `kw` columns into the
    window, which starts a stride times the output position less the padding into the image.
   */
  lemma ImpulseResponse(x: Cell, bias: int, kh: int, kw: int, ic: int, w: int)
    requires x.Sized() && InKernel(x.g, kh, kw, ic)
    requires SingleWeight(x, WeightPlace(x.g, x.layout, kh, kw, ic, x.oc))
    requires At(x.weights, WeightPlace(x.g, x.layout, kh, kw, ic, x.oc)) == x.g.weightZeroPoint + w
    ensures Convolve(x, bias) == bias + MetPixel(x, kh, kw, ic) * w
  {
    SingleRow(x, kh, kw, ic, x.g.kernelH);
  }

  /** `c` weighs every pixel as much as `a` and `b` together. */
  predicate AddUp(g: Geometry, a: seq<int>, b: seq<int>, c: seq<int>) {
    && |a| == |b| == |c|
    && forall i :: 0 <= i < |c| ==> c[i] - g.weightZeroPoint == (a[i] - g.weightZeroPoint) + (b[i] - g.weightZeroPoint)
  }

  lemma TapsAdd(x: Cell, a: seq<int>, b: seq<int>, kh: int, kw: int, ic: int)
    requires x.Sized() && AddUp(x.g, a, b, x.weights) && InKernel(x.g, kh, kw, ic)
    ensures Tap(x, kh, kw, ic) == Tap(x.(weights := a), kh, kw, ic) + Tap(x.(weights := b), kh, kw, ic)
  {
    WeightIndexInRange(x, kh, kw, ic);
    if x.RowInside(kh) && x.ColumnInside(kw) {
      var pixel := At(x.input, InputIndex(x.g, x.Row(kh), x.Column(kw), ic)) - x.g.inputZeroPoint;
      var i := WeightIndex(x.g, x.layout, kh, kw, ic, x.oc);
      Distributes(pixel, a[i] - x.g.weightZeroPoint, b[i] - x.g.weightZeroPoint);
    }
  }

  lemma Distributes(x: int, a: int, b: int)
    ensures x * (a + b) == x * a + x * b
  {
  }

  lemma {:induction false} ChannelsAdd(x: Cell, a: seq<int>, b: seq<int>, kh: int, kw: int, n: nat)
    requires x.Sized() && AddUp(x.g, a, b, x.weights) && InKernel(x.g, kh, kw, 0) && n <= x.g.inputC
    ensures SumChannels(x, kh, kw, n)
            == SumChannels(x.(weights := a), kh, kw, n) + SumChannels(x.(weights := b), kh, kw, n)
  {
    if n > 0 {
      ChannelsAdd(x, a, b, kh, kw, n - 1);
      TapsAdd(x, a, b, kh, kw, n - 1);
    }
  }

  lemma {:induction false} ColumnsAdd(x: Cell, a: seq<int>, b: seq<int>, kh: int, n: nat)
    requires x.Sized() && AddUp(x.g, a, b, x.weights) && 0 <= kh < x.g.kernelH && n <= x.g.kernelW
    ensures SumColumns(x, kh, n) == SumColumns(x.(weights := a), kh, n) + SumColumns(x.(weights := b), kh, n)
  {
    if n > 0 {
      ColumnsAdd(x, a, b, kh, n - 1);
      ChannelsAdd(x, a, b, kh, n - 1, x.g.inputC);
    }
  }

  lemma {:induction false} RowsAdd(x: Cell, a: seq<int>, b: seq<int>, n: nat)
    requires x.Sized() && AddUp(x.g, a, b, x.weights) && n <= x.g.kernelH
    ensures SumRows(x, n) == SumRows(x.(weights := a), n) + SumRows(x.(weights := b), n)
  {
    if n > 0 {
      RowsAdd(x, a, b, n - 1);
      ColumnsAdd(x, a, b, n - 1, x.g.kernelW);
    }
  }

  /** Kernels superpose, so the responses to single weights determine the convolution. */
  lemma KernelsSuperpose(x: Cell, a: seq<int>, b: seq<int>, p: int, q: int)
    requires x.Sized() && AddUp(x.g, a, b, x.weights)
    ensures Convolve(x, p + q) == Convolve(x.(weights := a), p) + Convolve(x.(weights := b), q)
  {
    RowsAdd(x, a, b, x.g.kernelH);
  }

  // ---------- layouts ----------

  /** `hwio` holds the same weights as `ohwi`, transposed. */
  ghost predicate Transposed(g: Geometry, hwio: seq<int>, ohwi: seq<int>) {
    forall kh, kw, ic, oc :: 0 <= kh < g.kernelH && 0 <= kw < g.kernelW && 0 <= ic < g.inputC && 0 <= oc < g.outputC ==>
      At(hwio, WeightIndex(g, HWIO, kh, kw, ic, oc)) == At(ohwi, WeightIndex(g, OHWI, kh, kw, ic, oc))
  }

  lemma {:induction false} SameTapsSameColumns(x: Cell, y: Cell, kh: int, n: nat)
    requires x.g == y.g && PositiveGeometry(x.g) && n <= x.g.kernelW
    requires forall kw, ic :: 0 <= kw < x.g.kernelW && 0 <= ic < x.g.inputC ==> Tap(x, kh, kw, ic) == Tap(y, kh, kw, ic)
    ensures SumColumns(x, kh, n) == SumColumns(y, kh, n)
  {
    if n > 0 {
      SameTapsSameColumns(x, y, kh, n - 1);
      SameTapsSameChannels(x, y, kh, n - 1, x.g.inputC);
    }
  }

  lemma {:induction false} SameTapsSameChannels(x: Cell, y: Cell, kh: int, kw: int, n: nat)
    requires forall ic :: 0 <= ic < n ==> Tap(x, kh, kw, ic) == Tap(y, kh, kw, ic)
    ensures SumChannels(x, kh, kw, n) == SumChannels(y, kh, kw, n)
  {
    if n > 0 {
      SameTapsSameChannels(x, y, kh, kw, n - 1);
    }
  }

  /** The two weight layouts give the same accumulator on transposed weights. */
  lemma {:induction false} LayoutsAgree(x: Cell, ohwi: seq<int>, bias: int, n: nat)
    requires PositiveGeometry(x.g) && x.layout == HWIO && 0 <= x.oc < x.g.outputC && n <= x.g.kernelH
    requires Transposed(x.g, x.weights, ohwi)
    ensures SumRows(x, n) == SumRows(x.(layout := OHWI, weights := ohwi), n)
    ensures n == x.g.kernelH ==> Convolve(x, bias) == Convolve(x.(layout := OHWI, weights := ohwi), bias)
  {
    if n > 0 {
      LayoutsAgree(x, ohwi, bias, n - 1);
      SameTapsSameColumns(x, x.(layout := OHWI, weights := ohwi), n - 1, x.g.kernelW);
    }
  }

  // ---------- the unfused kernel ----------

  datatype Status = Success | InvalidArgument

  predicate RangeExceeds(begin: int, count: int, limit: int) {
    begin < 0 || count < 0 || limit < 0 || begin > limit || count > limit - begin
  }

  datatype Tile = Tile(begin: int, count: int)

  /** The accumulator of output cell `k` of a tile, cells numbered row by row. */
  function TileAccumulator(g: Geometry, layout: Layout, input: seq<int>, weights: seq<int>, bias: seq<int>,
                           tile: Tile, k: int): int
    requires PositiveGeometry(g)
  {
    var oc, ow, tr := k % g.outputC, k / g.outputC % g.outputW, k / g.outputC / g.outputW;
    Convolve(Cell(g, layout, input, weights, tile.begin + tr, ow, oc), At(bias, oc))
  }

  /** The parameter block; the layout is absent when the enumeration holds neither of its values. */
  datatype ConvParams = ConvParams(g: Geometry, layout: Option<Layout>, tile: Tile)

  /** The negation of `is_invalid_conv_params`. */
  predicate ValidConvParams(params: ConvParams) {
    && PositiveGeometry(params.g)
    && !RangeExceeds(params.tile.begin, params.tile.count, params.g.outputH)
    && params.layout.Some?
  }

  /** The buffers an accepted call must pass; a null bias is the empty sequence and counts as 0. */
  predicate SizedConv(
    input: seq<int>, weights: seq<int>, bias: seq<int>, outputLength: int, g: Geometry, tile: Tile)
  {
    && |input| == g.inputH * g.inputW * g.inputC
    && |weights| == g.outputC * g.kernelH * g.kernelW * g.inputC
    && (bias == [] || |bias| == g.outputC)
    && outputLength == tile.count * g.outputW * g.outputC
  }

  /** The loops of `rrtos_ai_ukernel_conv2d_i8_tile`. */
  method ConvolveTile(
    input: seq<int>, weights: seq<int>, bias: seq<int>, accumulator: array<int>,
    g: Geometry, layout: Layout, tile: Tile)
    requires PositiveGeometry(g) && !RangeExceeds(tile.begin, tile.count, g.outputH)
    requires SizedConv(input, weights, bias, accumulator.Length, g, tile)
    modifies accumulator
    ensures forall k :: 0 <= k < accumulator.Length ==>
              accumulator[k] == TileAccumulator(g, layout, input, weights, bias, tile, k)
  {
    for tr := 0 to tile.count
      invariant forall k :: 0 <= k < accumulator.Length && k < Index3(tr, 0, 0, g.outputW, g.outputC) ==>
                  accumulator[k] == TileAccumulator(g, layout, input, weights, bias, tile, k)
    {
      for ow := 0 to g.outputW
        invariant forall k :: 0 <= k < accumulator.Length && k < Index3(tr, ow, 0, g.outputW, g.outputC) ==>
                    accumulator[k] == TileAccumulator(g, layout, input, weights, bias, tile, k)
      {
        for oc := 0 to g.outputC
          invariant forall k :: 0 <= k < accumulator.Length && k < Index3(tr, ow, oc, g.outputW, g.outputC) ==>
                      accumulator[k] == TileAccumulator(g, layout, input, weights, bias, tile, k)
        {
          var x := Cell(g, layout, input, weights, tile.begin + tr, ow, oc);
          var acc := Accumulate(x, if bias != [] then bias[oc] else 0);
          IndexInRange(tr, ow, oc, tile.count, g.outputW, g.outputC);
          IndexDecodes(tr, ow, oc, g.outputW, g.outputC);
          accumulator[Index3(tr, ow, oc, g.outputW, g.outputC)] := acc;
        }
        assert Index3(tr, ow, g.outputC, g.outputW, g.outputC) == Index3(tr, ow + 1, 0, g.outputW, g.outputC);
      }
      assert Index3(tr, g.outputW, 0, g.outputW, g.outputC) == Index3(tr + 1, 0, 0, g.outputW, g.outputC);
    }
  }

  /** The arguments of the call that may be null, and are refused when they are. */
  datatype ConvArguments = ConvArguments(
    input: Option<seq<int>>, weights: Option<seq<int>>, params: Option<ConvParams>)
  {
    predicate Accepted() {
      input.Some? && weights.Some? && params.Some? && ValidConvParams(params.value)
    }
  }

  /** `rrtos_ai_ukernel_conv2d_i8_tile` */
  method Conv2dTile(arguments: ConvArguments, bias: seq<int>, accumulator: array?<int>) returns (status: Status)
    requires arguments.Accepted() && accumulator != null ==>
               SizedConv(arguments.input.value, arguments.weights.value, bias, accumulator.Length,
                         arguments.params.value.g, arguments.params.value.tile)
    modifies if accumulator != null then {accumulator} else {}
    ensures status == Success <==> arguments.Accepted() && accumulator != null
    ensures status == Success ==>
              var p := arguments.params.value;
              forall k :: 0 <= k < accumulator.Length ==>
                accumulator[k] == TileAccumulator(p.g, p.layout.value, arguments.input.value, arguments.weights.value,
                                                  bias, p.tile, k)
    ensures status == InvalidArgument && accumulator != null ==> accumulator[..] == old(accumulator[..])
  {
    if arguments.input.None? || arguments.weights.None? || accumulator == null || arguments.params.None?
      || !ValidConvParams(arguments.params.value)
    {
      return InvalidArgument;
    }
    var p := arguments.params.value;
    ConvolveTile(arguments.input.value, arguments.weights.value, bias, accumulator, p.g, p.layout.value, p.tile);
    status := Success;
  }

  datatype RequantParams = RequantParams(zeroPoint: int, lo: int, hi: int)

  /** The first `count` values of a tile requantised with one multiplier and shift; the rest kept. */
  ghost predicate Requantized(
    input: seq<int>, before: seq<int>, after: seq<int>, count: int, multiplier: int, shift: int, p: RequantParams)
    requires count <= |input|
  {
    && |after| == |before|
    && forall k :: 0 <= k < |after| ==>
         after[k] == if k < count then Requantize(input[k], multiplier, shift, p.zeroPoint, p.lo, p.hi) else before[k]
  }

  /** Each of the first `count` bytes is the one nearest to its scaled accumulator. */
  ghost predicate AllRequantized(
    input: seq<int>, output: seq<int>, count: int, multiplier: int, shift: int, p: RequantParams)
    requires count <= |input| && count <= |output|
  {
    forall k :: 0 <= k < count ==> IsRequantized(output[k], input[k], multiplier, shift, p.zeroPoint, p.lo, p.hi)
  }

  lemma BytesAreRequantized(
    input: seq<int>, before: seq<int>, after: seq<int>, count: int, multiplier: int, shift: int, p: RequantParams)
    requires count <= |input| && count <= |after| && Requantized(input, before, after, count, multiplier, shift, p)
    ensures AllRequantized(input, after, count, multiplier, shift, p)
  {
    forall k | 0 <= k < count
      ensures IsRequantized(after[k], input[k], multiplier, shift, p.zeroPoint, p.lo, p.hi)
    {
      RequantizedByteIs(input[k], multiplier, shift, p.zeroPoint, p.lo, p.hi);
    }
  }

  /** `rrtos_ai_ukernel_requant_i32_to_i8_tile` */
  method RequantTile(
    input: Option<seq<int>>, output: array?<int>, count: int, multiplier: int, shift: int,
    params: Option<RequantParams>)
    returns (status: Status)
    requires input.Some? && output != null && params.Some? ==> count <= |input.value| && count <= output.Length
    modifies if output != null then {output} else {}
    ensures status == Success <==> input.Some? && output != null && params.Some? && count >= 0
    ensures status == Success ==>
              Requantized(input.value, old(output[..]), output[..], count, multiplier, shift, params.value)
    ensures status == Success ==>
              AllRequantized(input.value, output[..], count, multiplier, shift, params.value)
    ensures status == InvalidArgument && output != null ==> output[..] == old(output[..])
  {
    if input.None? || output == null || params.None? || count < 0 {
      return InvalidArgument;
    }
    var p := params.value;
    for i := 0 to count
      invariant Requantized(input.value, old(output[..]), output[..], i, multiplier, shift, p)
    {
      var value := MultiplyByQuantizedMultiplier(input.value[i], multiplier, shift);
      output[i] := SaturateI8(value + p.zeroPoint, p.lo, p.hi);
    }
    BytesAreRequantized(input.value, old(output[..]), output[..], count, multiplier, shift, p);
    status := Success;
  }
}
