/** The int8 max-pooling kernel of rrtos_ai_ukernel.c, and when its windows stay inside the image. */
module MaxPool {
  import opened Basics
  import opened Conv

  datatype Pool = Pool(inputH: int, inputW: int, channels: int, poolH: int, poolW: int, strideH: int, strideW: int)

  predicate PositivePool(p: Pool) {
    p.inputH > 0 && p.inputW > 0 && p.channels > 0 && p.poolH > 0 && p.poolW > 0 && p.strideH > 0 && p.strideW > 0
  }

  /** C division, towards zero. */
  function TruncDiv(a: int, b: int): int
    requires b > 0
  {
    if a >= 0 then a / b else -(-a / b)
  }

  function OutputDim(input: int, pool: int, stride: int): int
    requires stride > 0
  {
    TruncDiv(input - pool, stride) + 1
  }

  /** The argument check of the kernel. */
  predicate ValidCall(p: Pool, tile: Tile) {
    && PositivePool(p) && tile.begin >= 0 && tile.count >= 0
    && OutputDim(p.inputH, p.poolH, p.strideH) > 0 && OutputDim(p.inputW, p.poolW, p.strideW) > 0
    && !RangeExceeds(tile.begin, tile.count, OutputDim(p.inputH, p.poolH, p.strideH))
  }

  /** Every window along one dimension stays inside the image. */
  ghost predicate WindowsInside(input: int, pool: int, stride: int)
    requires stride > 0
  {
    forall o, k :: 0 <= o < OutputDim(input, pool, stride) && 0 <= k < pool ==> Position(o, stride, k) < input
  }

  function Position(o: int, stride: int, k: int): int {
    o * stride + k
  }

  /**
    The check divides towards zero, so it lets a window larger than the image through when it
    exceeds it by less than a stride. Windows stay inside exactly when the window fits.
   */
  lemma WindowsInsideExactly(input: int, pool: int, stride: int)
    requires input > 0 && pool > 0 && stride > 0 && OutputDim(input, pool, stride) > 0
    ensures WindowsInside(input, pool, stride) <==> pool <= input
  {
    if pool <= input {
      forall o, k | 0 <= o < OutputDim(input, pool, stride) && 0 <= k < pool
        ensures Position(o, stride, k) < input
      {
        MulLe(o, (input - pool) / stride, stride);
      }
    } else {
      assert Position(0, stride, pool - 1) >= input;
    }
  }

  /** Of a window that fits, the output has exactly the positions at which it still fits. */
  lemma OutputDimCountsPositions(input: int, pool: int, stride: int, o: nat)
    requires 0 < pool <= input && stride > 0
    ensures o < OutputDim(input, pool, stride) <==> o * stride + pool <= input
  {
    var q := (input - pool) / stride;
    assert q * stride <= input - pool < q * stride + stride;
    if o <= q {
      MulLe(o, q, stride);
    } else {
      MulLe(q + 1, o, stride);
      assert (q + 1) * stride == q * stride + stride;
    }
  }

  /** Where the kernel reads element (kh, kw) of the window of output cell (oh, ow). */
  function PixelIndex(p: Pool, oh: int, ow: int, c: int, kh: int, kw: int): int {
    Index3(Position(oh, p.strideH, kh), Position(ow, p.strideW, kw), c, p.inputW, p.channels)
  }

  function Pixel(p: Pool, input: seq<int>, oh: int, ow: int, c: int, kh: int, kw: int): int {
    At(input, PixelIndex(p, oh, ow, c, kh, kw))
  }

  /** The highest index a tile reads. */
  function LastRead(p: Pool, tile: Tile): int
    requires PositivePool(p)
  {
    PixelIndex(p, tile.begin + tile.count - 1, OutputDim(p.inputW, p.poolW, p.strideW) - 1, p.channels - 1,
               p.poolH - 1, p.poolW - 1)
  }

  predicate InTile(p: Pool, tile: Tile, oh: int, ow: int, c: int)
    requires PositivePool(p)
  {
    && tile.begin <= oh < tile.begin + tile.count
    && 0 <= ow < OutputDim(p.inputW, p.poolW, p.strideW) && 0 <= c < p.channels
  }

  predicate InWindow(p: Pool, kh: int, kw: int) {
    0 <= kh < p.poolH && 0 <= kw < p.poolW
  }

  /** Every read of a tile is a read of the image. */
  ghost predicate ReadsInside(p: Pool, tile: Tile)
    requires PositivePool(p)
  {
    forall oh, ow, c, kh, kw :: InTile(p, tile, oh, ow, c) && InWindow(p, kh, kw) ==>
      0 <= PixelIndex(p, oh, ow, c, kh, kw) < p.inputH * p.inputW * p.channels
  }

  lemma IndexMonotone(a: int, a': int, b: int, b': int, c: int, c': int, sizeB: int, sizeC: int)
    requires 0 <= a <= a' && 0 <= b <= b' && 0 <= c <= c' && 0 <= sizeB && 0 <= sizeC
    ensures 0 <= Index3(a, b, c, sizeB, sizeC) <= Index3(a', b', c', sizeB, sizeC)
  {
    MulLe(0, a, sizeB);
    MulLe(a, a', sizeB);
    MulLe(0, a * sizeB + b, sizeC);
    MulLe(a * sizeB + b, a' * sizeB + b', sizeC);
  }

  lemma ReadsUpToLast(p: Pool, tile: Tile, oh: int, ow: int, c: int, kh: int, kw: int)
    requires ValidCall(p, tile) && InTile(p, tile, oh, ow, c) && InWindow(p, kh, kw)
    ensures 0 <= PixelIndex(p, oh, ow, c, kh, kw) <= LastRead(p, tile)
  {
    var lastH, lastW := tile.begin + tile.count - 1, OutputDim(p.inputW, p.poolW, p.strideW) - 1;
    MulLe(0, oh, p.strideH);
    MulLe(oh, lastH, p.strideH);
    MulLe(0, ow, p.strideW);
    MulLe(ow, lastW, p.strideW);
    IndexMonotone(Position(oh, p.strideH, kh), Position(lastH, p.strideH, p.poolH - 1),
                  Position(ow, p.strideW, kw), Position(lastW, p.strideW, p.poolW - 1),
                  c, p.channels - 1, p.inputW, p.channels);
  }

  /** An accepted tile reads only its image exactly when its last read does. */
  lemma ReadsInsideExactly(p: Pool, tile: Tile)
    requires ValidCall(p, tile) && tile.count > 0
    ensures ReadsInside(p, tile) <==> LastRead(p, tile) < p.inputH * p.inputW * p.channels
  {
    if ReadsInside(p, tile) {
      assert InTile(p, tile, tile.begin + tile.count - 1, OutputDim(p.inputW, p.poolW, p.strideW) - 1, p.channels - 1);
      assert InWindow(p, p.poolH - 1, p.poolW - 1);
    } else {
      var oh, ow, c, kh, kw :| InTile(p, tile, oh, ow, c) && InWindow(p, kh, kw)
                               && !(0 <= PixelIndex(p, oh, ow, c, kh, kw) < p.inputH * p.inputW * p.channels);
      ReadsUpToLast(p, tile, oh, ow, c, kh, kw);
    }
  }

  /** A window that fits the image is read inside it, whatever the tile. */
  lemma FittingWindowReadsInside(p: Pool, tile: Tile)
    requires ValidCall(p, tile) && p.poolH <= p.inputH && p.poolW <= p.inputW
    ensures ReadsInside(p, tile)
  {
    WindowsInsideExactly(p.inputH, p.poolH, p.strideH);
    WindowsInsideExactly(p.inputW, p.poolW, p.strideW);
    forall oh, ow, c, kh, kw | InTile(p, tile, oh, ow, c) && InWindow(p, kh, kw)
      ensures 0 <= PixelIndex(p, oh, ow, c, kh, kw) < p.inputH * p.inputW * p.channels
    {
      MulLe(0, oh, p.strideH);
      MulLe(0, ow, p.strideW);
      IndexInRange(Position(oh, p.strideH, kh), Position(ow, p.strideW, kw), c, p.inputH, p.inputW, p.channels);
    }
  }

  /** A 3-wide window on a 2-wide image with stride 2 passes the check, and its tile reads outside the image. */
  lemma OversizedWindowIsAccepted()
    ensures ValidCall(Pool(2, 2, 1, 3, 3, 2, 2), Tile(0, 1)) && !WindowsInside(2, 3, 2)
    ensures !ReadsInside(Pool(2, 2, 1, 3, 3, 2, 2), Tile(0, 1))
  {
    WindowsInsideExactly(2, 3, 2);
    ReadsInsideExactly(Pool(2, 2, 1, 3, 3, 2, 2), Tile(0, 1));
  }

  /** `m` is the largest pixel of the window. */
  ghost predicate IsWindowMax(p: Pool, input: seq<int>, oh: int, ow: int, c: int, m: int) {
    && (forall kh, kw :: 0 <= kh < p.poolH && 0 <= kw < p.poolW ==> Pixel(p, input, oh, ow, c, kh, kw) <= m)
    && exists kh, kw :: 0 <= kh < p.poolH && 0 <= kw < p.poolW && Pixel(p, input, oh, ow, c, kh, kw) == m
  }

  /** The two window loops for one output value. */
  method PoolCell(p: Pool, input: seq<int>, tile: Tile, oh: int, ow: int, c: int) returns (maxValue: int)
    requires ValidCall(p, tile) && ReadsInside(p, tile) && InTile(p, tile, oh, ow, c)
    requires |input| == p.inputH * p.inputW * p.channels && AllInt8(input)
    ensures IsWindowMax(p, input, oh, ow, c, maxValue)
  {
    maxValue := -128;
    ghost var atH, atW := 0, 0;
    assert InWindow(p, 0, 0);
    for kh := 0 to p.poolH
      invariant forall i, j :: 0 <= i < kh && 0 <= j < p.poolW ==> Pixel(p, input, oh, ow, c, i, j) <= maxValue
      invariant 0 <= atH < p.poolH && 0 <= atW < p.poolW
      invariant maxValue == -128 || Pixel(p, input, oh, ow, c, atH, atW) == maxValue
      invariant maxValue >= -128
    {
      for kw := 0 to p.poolW
        invariant forall i, j :: 0 <= i < kh && 0 <= j < p.poolW ==> Pixel(p, input, oh, ow, c, i, j) <= maxValue
        invariant forall j :: 0 <= j < kw ==> Pixel(p, input, oh, ow, c, kh, j) <= maxValue
        invariant 0 <= atH < p.poolH && 0 <= atW < p.poolW
        invariant maxValue == -128 || Pixel(p, input, oh, ow, c, atH, atW) == maxValue
        invariant maxValue >= -128
      {
        assert InWindow(p, kh, kw);
        var value := input[PixelIndex(p, oh, ow, c, kh, kw)];
        if value > maxValue {
          maxValue := value;
          atH, atW := kh, kw;
        }
      }
    }
    if maxValue == -128 {
      assert Pixel(p, input, oh, ow, c, 0, 0) == -128;
    }
  }

  /** Output value `k` of a tile, values numbered row by row, is the maximum of its window. */
  ghost predicate IsPooled(p: Pool, input: seq<int>, tile: Tile, k: int, m: int)
    requires PositivePool(p)
  {
    var outputW := OutputDim(p.inputW, p.poolW, p.strideW);
    outputW > 0 ==>
      IsWindowMax(p, input, tile.begin + k / p.channels / outputW, k / p.channels % outputW, k % p.channels, m)
  }

  /** The pixel `kh` rows and `kw` columns into the window, which starts at the output position times the stride. */
  function WindowPixel(p: Pool, input: seq<int>, oh: int, ow: int, c: int, kh: int, kw: int): int {
    At(input, ((oh * p.strideH + kh) * p.inputW + (ow * p.strideW + kw)) * p.channels + c)
  }

  /** Tile row `tr`, column `ow` and channel `c` of the output hold the largest of their window's pixels. */
  ghost predicate HoldsMaximum(p: Pool, input: seq<int>, tile: Tile, output: seq<int>, tr: int, ow: int, c: int)
    requires PositivePool(p)
  {
    var k := (tr * OutputDim(p.inputW, p.poolW, p.strideW) + ow) * p.channels + c;
    && 0 <= k < |output|
    && (forall kh, kw {:trigger InWindow(p, kh, kw)} :: InWindow(p, kh, kw) ==>
          WindowPixel(p, input, tile.begin + tr, ow, c, kh, kw) <= output[k])
    && exists kh, kw {:trigger InWindow(p, kh, kw)} ::
         InWindow(p, kh, kw) && WindowPixel(p, input, tile.begin + tr, ow, c, kh, kw) == output[k]
  }

  ghost predicate AllHoldMaxima(p: Pool, input: seq<int>, tile: Tile, output: seq<int>)
    requires PositivePool(p)
  {
    forall tr, ow, c {:trigger HoldsMaximum(p, input, tile, output, tr, ow, c)} ::
      0 <= tr < tile.count && 0 <= ow < OutputDim(p.inputW, p.poolW, p.strideW) && 0 <= c < p.channels ==>
        HoldsMaximum(p, input, tile, output, tr, ow, c)
  }

  lemma PooledHoldsMaximum(p: Pool, input: seq<int>, tile: Tile, output: seq<int>, tr: int, ow: int, c: int)
    requires PositivePool(p)
    requires |output| == tile.count * OutputDim(p.inputW, p.poolW, p.strideW) * p.channels
    requires forall k :: 0 <= k < |output| ==> IsPooled(p, input, tile, k, output[k])
    requires 0 <= tr < tile.count && 0 <= ow < OutputDim(p.inputW, p.poolW, p.strideW) && 0 <= c < p.channels
    ensures HoldsMaximum(p, input, tile, output, tr, ow, c)
  {
    var outputW := OutputDim(p.inputW, p.poolW, p.strideW);
    var k := Index3(tr, ow, c, outputW, p.channels);
    IndexInRange(tr, ow, c, tile.count, outputW, p.channels);
    IndexDecodes(tr, ow, c, outputW, p.channels);
    assert IsPooled(p, input, tile, k, output[k]);
    WindowMaxIsMaximum(p, input, tile.begin + tr, ow, c, output[k]);
  }

  lemma PixelIsWindowPixel(p: Pool, input: seq<int>, oh: int, ow: int, c: int, kh: int, kw: int)
    ensures Pixel(p, input, oh, ow, c, kh, kw) == WindowPixel(p, input, oh, ow, c, kh, kw)
  {
  }

  lemma WindowMaxIsMaximum(p: Pool, input: seq<int>, oh: int, ow: int, c: int, m: int)
    requires IsWindowMax(p, input, oh, ow, c, m)
    ensures forall kh, kw {:trigger InWindow(p, kh, kw)} :: InWindow(p, kh, kw) ==>
              WindowPixel(p, input, oh, ow, c, kh, kw) <= m
    ensures exists kh, kw {:trigger InWindow(p, kh, kw)} ::
              InWindow(p, kh, kw) && WindowPixel(p, input, oh, ow, c, kh, kw) == m
  {
    forall kh, kw
      ensures Pixel(p, input, oh, ow, c, kh, kw) == WindowPixel(p, input, oh, ow, c, kh, kw)
    {
      PixelIsWindowPixel(p, input, oh, ow, c, kh, kw);
    }
    var kh, kw :| 0 <= kh < p.poolH && 0 <= kw < p.poolW && Pixel(p, input, oh, ow, c, kh, kw) == m;
    assert InWindow(p, kh, kw);
  }

  /** The output values before value `c` of column `ow` of tile row `tr` are pooled. */
  ghost predicate PooledBefore(p: Pool, input: seq<int>, tile: Tile, output: seq<int>, tr: int, ow: int, c: int)
    requires PositivePool(p)
  {
    forall k :: 0 <= k < |output| && k < Index3(tr, ow, c, OutputDim(p.inputW, p.poolW, p.strideW), p.channels) ==>
      IsPooled(p, input, tile, k, output[k])
  }

  lemma NextColumn(p: Pool, input: seq<int>, tile: Tile, output: seq<int>, tr: int, ow: int)
    requires PositivePool(p) && PooledBefore(p, input, tile, output, tr, ow, p.channels)
    ensures PooledBefore(p, input, tile, output, tr, ow + 1, 0)
  {
    var outputW := OutputDim(p.inputW, p.poolW, p.strideW);
    assert Index3(tr, ow, p.channels, outputW, p.channels) == Index3(tr, ow + 1, 0, outputW, p.channels);
  }

  lemma NextRow(p: Pool, input: seq<int>, tile: Tile, output: seq<int>, tr: int)
    requires PositivePool(p)
    requires PooledBefore(p, input, tile, output, tr, OutputDim(p.inputW, p.poolW, p.strideW), 0)
    ensures PooledBefore(p, input, tile, output, tr + 1, 0, 0)
  {
    var outputW := OutputDim(p.inputW, p.poolW, p.strideW);
    assert Index3(tr, outputW, 0, outputW, p.channels) == Index3(tr + 1, 0, 0, outputW, p.channels);
  }

  /** The sizes an accepted call relies on. */
  ghost predicate Sized(p: Pool, input: seq<int>, outputLength: int, tile: Tile)
    requires ValidCall(p, tile)
  {
    && ReadsInside(p, tile)
    && |input| == p.inputH * p.inputW * p.channels && AllInt8(input)
    && outputLength == tile.count * OutputDim(p.inputW, p.poolW, p.strideW) * p.channels
  }

  /** One output value. */
  method WritePooled(p: Pool, input: seq<int>, output: array<int>, tile: Tile, tr: int, ow: int, c: int)
    requires ValidCall(p, tile) && Sized(p, input, output.Length, tile)
    requires 0 <= tr < tile.count && InTile(p, tile, tile.begin + tr, ow, c)
    requires PooledBefore(p, input, tile, output[..], tr, ow, c)
    modifies output
    ensures PooledBefore(p, input, tile, output[..], tr, ow, c + 1)
  {
    var outputW := OutputDim(p.inputW, p.poolW, p.strideW);
    var m := PoolCell(p, input, tile, tile.begin + tr, ow, c);
    IndexInRange(tr, ow, c, tile.count, outputW, p.channels);
    IndexDecodes(tr, ow, c, outputW, p.channels);
    output[Index3(tr, ow, c, outputW, p.channels)] := m;
  }

  /** All channels of one output pixel. */
  method PoolPixel(p: Pool, input: seq<int>, output: array<int>, tile: Tile, tr: int, ow: int)
    requires ValidCall(p, tile) && Sized(p, input, output.Length, tile)
    requires 0 <= tr < tile.count && 0 <= ow < OutputDim(p.inputW, p.poolW, p.strideW)
    requires PooledBefore(p, input, tile, output[..], tr, ow, 0)
    modifies output
    ensures PooledBefore(p, input, tile, output[..], tr, ow + 1, 0)
  {
    for c := 0 to p.channels
      invariant PooledBefore(p, input, tile, output[..], tr, ow, c)
    {
      WritePooled(p, input, output, tile, tr, ow, c);
    }
    NextColumn(p, input, tile, output[..], tr, ow);
  }

  /** One output row. */
  method PoolRow(p: Pool, input: seq<int>, output: array<int>, tile: Tile, tr: int)
    requires ValidCall(p, tile) && Sized(p, input, output.Length, tile) && 0 <= tr < tile.count
    requires PooledBefore(p, input, tile, output[..], tr, 0, 0)
    modifies output
    ensures PooledBefore(p, input, tile, output[..], tr + 1, 0, 0)
  {
    for ow := 0 to OutputDim(p.inputW, p.poolW, p.strideW)
      invariant PooledBefore(p, input, tile, output[..], tr, ow, 0)
    {
      PoolPixel(p, input, output, tile, tr, ow);
    }
    NextRow(p, input, tile, output[..], tr);
  }

  lemma MaximaAreHeld(p: Pool, input: seq<int>, tile: Tile, output: seq<int>)
    requires ValidCall(p, tile) && Sized(p, input, |output|, tile)
    requires PooledBefore(p, input, tile, output, tile.count, 0, 0)
    ensures forall k :: 0 <= k < |output| ==> IsPooled(p, input, tile, k, output[k])
    ensures AllHoldMaxima(p, input, tile, output)
  {
    forall tr, ow, c |
      0 <= tr < tile.count && 0 <= ow < OutputDim(p.inputW, p.poolW, p.strideW) && 0 <= c < p.channels
      ensures HoldsMaximum(p, input, tile, output, tr, ow, c)
    {
      PooledHoldsMaximum(p, input, tile, output, tr, ow, c);
    }
  }

  /** `rrtos_ai_ukernel_maxpool_i8_tile`, for tiles that read nothing but the image. */
  method MaxPoolTile(p: Pool, input: Option<seq<int>>, output: array?<int>, tile: Tile) returns (status: Status)
    requires input.Some? && output != null && ValidCall(p, tile) ==> Sized(p, input.value, output.Length, tile)
    modifies if output != null then {output} else {}
    ensures status == Success <==> input.Some? && output != null && ValidCall(p, tile)
    ensures status == Success ==>
              forall k :: 0 <= k < output.Length ==> IsPooled(p, input.value, tile, k, output[k])
    ensures status == Success ==> AllHoldMaxima(p, input.value, tile, output[..])
    ensures status == InvalidArgument && output != null ==> output[..] == old(output[..])
  {
    if input.None? || output == null || !ValidCall(p, tile) {
      return InvalidArgument;
    }
    for tr := 0 to tile.count
      invariant PooledBefore(p, input.value, tile, output[..], tr, 0, 0)
    {
      PoolRow(p, input.value, output, tile, tr);
    }
    MaximaAreHeld(p, input.value, tile, output[..]);
    status := Success;
  }
}
