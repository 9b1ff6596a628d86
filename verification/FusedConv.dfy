/**
  The fused kernel that convolves, requantises and writes into an output padded with a halo of one
  cell, and the composition of its row tiles.
 */
module FusedConv {
  import opened Basics
  import opened Q31
  import opened Conv

  datatype Fused = Fused(
    g: Geometry, paddedH: int, paddedW: int, outputZeroPoint: int, activationMin: int, activationMax: int)

  /** The tensors of one layer; weights are OHWI. */
  datatype Tensors = Tensors(
    input: seq<int>, weights: seq<int>, bias: seq<int>, multipliers: seq<int>, shifts: seq<int>)

  predicate ExcludesHalo(paddedDim: int, outputDim: int) {
    paddedDim < 2 || outputDim <= 0 || paddedDim - 2 < outputDim
  }

  /** The layer part of `is_invalid_requant_tile_params`. */
  predicate ValidLayer(f: Fused) {
    && PositiveGeometry(f.g)
    && !ExcludesHalo(f.paddedH, f.g.outputH) && !ExcludesHalo(f.paddedW, f.g.outputW)
    && f.activationMin <= f.activationMax
  }

  predicate ValidTile(f: Fused, tile: Tile) {
    tile.count > 0 && !RangeExceeds(tile.begin, tile.count, f.g.outputH)
  }

  /** The buffers the caller must pass. */
  predicate SizedTensors(f: Fused, t: Tensors, paddedLength: int)
    requires ValidLayer(f)
  {
    && |t.input| == f.g.inputH * f.g.inputW * f.g.inputC
    && |t.weights| == f.g.outputC * f.g.kernelH * f.g.kernelW * f.g.inputC
    && |t.bias| == |t.multipliers| == |t.shifts| == f.g.outputC
    && paddedLength == f.paddedH * f.paddedW * f.g.outputC
  }

  // ---------- what a tile writes ----------

  /** Cell (row, column) of the unpadded output, requantised. */
  function OutputValue(f: Fused, t: Tensors, row: int, column: int, oc: int): int
    requires PositiveGeometry(f.g)
  {
    Requantize(Convolve(Cell(f.g, OHWI, t.input, t.weights, row, column, oc), At(t.bias, oc)),
               At(t.multipliers, oc), At(t.shifts, oc), f.outputZeroPoint, f.activationMin, f.activationMax)
  }

  /** The coordinates of index `k` of the padded output, without the halo. */
  function RowOf(f: Fused, k: int): int
    requires ValidLayer(f)
  {
    k / f.g.outputC / f.paddedW - 1
  }

  function ColumnOf(f: Fused, k: int): int
    requires ValidLayer(f)
  {
    k / f.g.outputC % f.paddedW - 1
  }

  function ChannelOf(f: Fused, k: int): int
    requires ValidLayer(f)
  {
    k % f.g.outputC
  }

  /** Index `k` is an output cell in the rows of the tile. */
  predicate InTile(f: Fused, tile: Tile, k: int)
    requires ValidLayer(f)
  {
    tile.begin <= RowOf(f, k) < tile.begin + tile.count && 0 <= ColumnOf(f, k) < f.g.outputW
  }

  function ValueAt(f: Fused, t: Tensors, k: int): int
    requires ValidLayer(f)
  {
    OutputValue(f, t, RowOf(f, k), ColumnOf(f, k), ChannelOf(f, k))
  }

  /** The padded output after one tile: its cells written, everything else kept. */
  function AfterTile(f: Fused, t: Tensors, tile: Tile, before: seq<int>): (after: seq<int>)
    requires ValidLayer(f)
    ensures |after| == |before|
  {
    seq(|before|, k requires 0 <= k < |before| => if InTile(f, tile, k) then ValueAt(f, t, k) else before[k])
  }

  // ---------- the kernels ----------

  /** Index `k` is written before cell (tr, ow, oc) of the tile. */
  predicate Done(f: Fused, tile: Tile, tr: int, ow: int, oc: int, k: int)
    requires ValidLayer(f)
  {
    var a, b, c := RowOf(f, k) - tile.begin, ColumnOf(f, k), ChannelOf(f, k);
    && 0 <= a && 0 <= b < f.g.outputW
    && (a < tr || (a == tr && (b < ow || (b == ow && c < oc))))
  }

  ghost predicate Progress(f: Fused, t: Tensors, tile: Tile, tr: int, ow: int, oc: int, before: seq<int>, now: seq<int>)
    requires ValidLayer(f)
  {
    && |now| == |before|
    && forall k :: 0 <= k < |now| ==> now[k] == if Done(f, tile, tr, ow, oc, k) then ValueAt(f, t, k) else before[k]
  }

  lemma ProgressWrites(
    f: Fused, t: Tensors, tile: Tile, tr: int, ow: int, oc: int, before: seq<int>, now: seq<int>, value: int)
    requires ValidLayer(f) && ValidTile(f, tile) && |before| == f.paddedH * f.paddedW * f.g.outputC
    requires 0 <= tr < tile.count && 0 <= ow < f.g.outputW && 0 <= oc < f.g.outputC
    requires Progress(f, t, tile, tr, ow, oc, before, now)
    requires value == OutputValue(f, t, tile.begin + tr, ow, oc)
    ensures
      var index := Index3(tile.begin + tr + 1, ow + 1, oc, f.paddedW, f.g.outputC);
      0 <= index < |now| && Progress(f, t, tile, tr, ow, oc + 1, before, now[index := value])
  {
    var index := Index3(tile.begin + tr + 1, ow + 1, oc, f.paddedW, f.g.outputC);
    IndexInRange(tile.begin + tr + 1, ow + 1, oc, f.paddedH, f.paddedW, f.g.outputC);
    IndexDecodes(tile.begin + tr + 1, ow + 1, oc, f.paddedW, f.g.outputC);
    forall k | 0 <= k < |now|
      ensures Done(f, tile, tr, ow, oc + 1, k) <==> Done(f, tile, tr, ow, oc, k) || k == index
    {
      IndexEncodes(k, f.paddedW, f.g.outputC);
    }
  }

  lemma ProgressTurns(f: Fused, t: Tensors, tile: Tile, tr: int, ow: int, before: seq<int>, now: seq<int>)
    requires ValidLayer(f)
    ensures Progress(f, t, tile, tr, ow, f.g.outputC, before, now) ==> Progress(f, t, tile, tr, ow + 1, 0, before, now)
    ensures Progress(f, t, tile, tr, f.g.outputW, 0, before, now) ==> Progress(f, t, tile, tr + 1, 0, 0, before, now)
  {
    forall k | 0 <= k < |now|
      ensures Done(f, tile, tr, ow, f.g.outputC, k) <==> Done(f, tile, tr, ow + 1, 0, k)
      ensures Done(f, tile, tr, f.g.outputW, 0, k) <==> Done(f, tile, tr + 1, 0, 0, k)
    {
      IndexEncodes(k, f.paddedW, f.g.outputC);
    }
  }

  /** The loops over rows, columns and channels shared by both fused kernels. */
  method WriteTile(f: Fused, t: Tensors, tile: Tile, padded: array<int>, fast: bool)
    requires ValidLayer(f) && ValidTile(f, tile) && SizedTensors(f, t, padded.Length)
    requires fast ==> TakesFastPath(f.g)
    modifies padded
    ensures padded[..] == AfterTile(f, t, tile, old(padded[..]))
  {
    ghost var before := padded[..];
    for tr := 0 to tile.count
      invariant Progress(f, t, tile, tr, 0, 0, before, padded[..])
    {
      for ow := 0 to f.g.outputW
        invariant Progress(f, t, tile, tr, ow, 0, before, padded[..])
      {
        for oc := 0 to f.g.outputC
          invariant Progress(f, t, tile, tr, ow, oc, before, padded[..])
        {
          WriteCell(f, t, tile, padded, fast, tr, ow, oc, before);
        }
        ProgressTurns(f, t, tile, tr, ow, before, padded[..]);
      }
      ProgressTurns(f, t, tile, tr, 0, before, padded[..]);
    }
  }

  /** One output cell: accumulate on either path, requantise, write. */
  method WriteCell(
    f: Fused, t: Tensors, tile: Tile, padded: array<int>, fast: bool, tr: int, ow: int, oc: int, ghost before: seq<int>)
    requires ValidLayer(f) && ValidTile(f, tile) && SizedTensors(f, t, padded.Length)
    requires fast ==> TakesFastPath(f.g)
    requires 0 <= tr < tile.count && 0 <= ow < f.g.outputW && 0 <= oc < f.g.outputC
    requires Progress(f, t, tile, tr, ow, oc, before, padded[..])
    modifies padded
    ensures Progress(f, t, tile, tr, ow, oc + 1, before, padded[..])
  {
    var x := Cell(f.g, OHWI, t.input, t.weights, tile.begin + tr, ow, oc);
    var acc: int;
    if fast {
      acc := AccumulateFast(x, t.bias[oc]);
    } else {
      acc := Accumulate(x, t.bias[oc]);
    }
    var outputQ := MultiplyByQuantizedMultiplier(acc, t.multipliers[oc], t.shifts[oc]) + f.outputZeroPoint;
    var value := SaturateI8(outputQ, f.activationMin, f.activationMax);
    ghost var now := padded[..];
    ProgressWrites(f, t, tile, tr, ow, oc, before, now, value);
    var index := Index3(tile.begin + tr + 1, ow + 1, oc, f.paddedW, f.g.outputC);
    padded[index] := value;
    assert padded[..] == now[index := value];
  }

  /** The ABI fields of the parameter block: 25 fields of 32 bits, version 1. */
  datatype Header = Header(structSize: nat, abiVersion: nat, flags: nat, reserved: nat)

  predicate ValidHeader(h: Header) {
    h == Header(100, 1, 0, 0)
  }

  datatype FusedParams = FusedParams(header: Header, f: Fused, tile: Tile)

  /** The negation of `is_invalid_requant_tile_params`. */
  predicate ValidParams(p: FusedParams) {
    ValidHeader(p.header) && ValidLayer(p.f) && ValidTile(p.f, p.tile)
  }

  /** The arguments that may be null; the tensors are absent when one of their pointers is. */
  datatype FusedArguments = FusedArguments(tensors: Option<Tensors>, params: Option<FusedParams>) {
    predicate Accepted() {
      tensors.Some? && params.Some? && ValidParams(params.value)
    }
  }

  /**
    The padded output holds, one row and one column behind the halo, the byte nearest to the scaled
    convolution of this cell with the multiplier, shift and bias of its channel.
   */
  ghost predicate CellIsRequantized(f: Fused, t: Tensors, padded: seq<int>, row: int, column: int, oc: int)
    requires ValidLayer(f) && SizedTensors(f, t, |padded|) && 0 <= oc < f.g.outputC
  {
    var k := ((row + 1) * f.paddedW + column + 1) * f.g.outputC + oc;
    && 0 <= k < |padded|
    && IsRequantized(padded[k], Convolve(Cell(f.g, OHWI, t.input, t.weights, row, column, oc), t.bias[oc]),
                     t.multipliers[oc], t.shifts[oc], f.outputZeroPoint, f.activationMin, f.activationMax)
  }

  ghost predicate TileIsRequantized(f: Fused, t: Tensors, tile: Tile, padded: seq<int>)
    requires ValidLayer(f) && SizedTensors(f, t, |padded|)
  {
    forall row, column, oc {:trigger CellIsRequantized(f, t, padded, row, column, oc)} ::
      tile.begin <= row < tile.begin + tile.count && 0 <= column < f.g.outputW && 0 <= oc < f.g.outputC ==>
        CellIsRequantized(f, t, padded, row, column, oc)
  }

  lemma WrittenCellIsRequantized(
    f: Fused, t: Tensors, tile: Tile, before: seq<int>, row: int, column: int, oc: int)
    requires ValidLayer(f) && ValidTile(f, tile) && SizedTensors(f, t, |before|)
    requires tile.begin <= row < tile.begin + tile.count && 0 <= column < f.g.outputW && 0 <= oc < f.g.outputC
    ensures CellIsRequantized(f, t, AfterTile(f, t, tile, before), row, column, oc)
  {
    var k := Index3(row + 1, column + 1, oc, f.paddedW, f.g.outputC);
    IndexInRange(row + 1, column + 1, oc, f.paddedH, f.paddedW, f.g.outputC);
    IndexDecodes(row + 1, column + 1, oc, f.paddedW, f.g.outputC);
    assert InTile(f, tile, k);
    RequantizedByteIs(Convolve(Cell(f.g, OHWI, t.input, t.weights, row, column, oc), t.bias[oc]),
                      t.multipliers[oc], t.shifts[oc], f.outputZeroPoint, f.activationMin, f.activationMax);
  }

  lemma WrittenTileIsRequantized(f: Fused, t: Tensors, tile: Tile, before: seq<int>)
    requires ValidLayer(f) && ValidTile(f, tile) && SizedTensors(f, t, |before|)
    ensures TileIsRequantized(f, t, tile, AfterTile(f, t, tile, before))
  {
    forall row, column, oc |
      tile.begin <= row < tile.begin + tile.count && 0 <= column < f.g.outputW && 0 <= oc < f.g.outputC
      ensures CellIsRequantized(f, t, AfterTile(f, t, tile, before), row, column, oc)
    {
      WrittenCellIsRequantized(f, t, tile, before, row, column, oc);
    }
  }

  /**
    `rrtos_ai_ukernel_conv2d_i8_ohwi_requant_tile_q31`: whichever path is taken, the tile's cells
    hold the requantised convolution and nothing else changes.
   */
  method FusedTile(arguments: FusedArguments, padded: array?<int>) returns (status: Status)
    requires arguments.Accepted() && padded != null ==>
               SizedTensors(arguments.params.value.f, arguments.tensors.value, padded.Length)
    modifies if padded != null then {padded} else {}
    ensures status == Success <==> arguments.Accepted() && padded != null
    ensures status == Success ==>
              var p := arguments.params.value;
              padded[..] == AfterTile(p.f, arguments.tensors.value, p.tile, old(padded[..]))
    ensures status == Success ==>
              var p := arguments.params.value;
              TileIsRequantized(p.f, arguments.tensors.value, p.tile, padded[..])
    ensures status == InvalidArgument && padded != null ==> padded[..] == old(padded[..])
  {
    if arguments.tensors.None? || padded == null || arguments.params.None? || !ValidParams(arguments.params.value) {
      return InvalidArgument;
    }
    var p := arguments.params.value;
    if TakesFastPath(p.f.g) {
      WriteTile(p.f, arguments.tensors.value, p.tile, padded, true);
    } else {
      WriteTile(p.f, arguments.tensors.value, p.tile, padded, false);
    }
    WrittenTileIsRequantized(p.f, arguments.tensors.value, p.tile, old(padded[..]));
    status := Success;
  }

  // ---------- the halo ----------

  /** An index of the padded output outside the output cells. */
  predicate InHalo(f: Fused, k: int)
    requires ValidLayer(f)
  {
    !(0 <= RowOf(f, k) < f.g.outputH && 0 <= ColumnOf(f, k) < f.g.outputW)
  }

  /** No tile writes the halo, and each writes exactly the output cells of its rows. */
  lemma TileWritesExactly(f: Fused, t: Tensors, tile: Tile, before: seq<int>, k: int)
    requires ValidLayer(f) && ValidTile(f, tile) && 0 <= k < |before|
    ensures InHalo(f, k) ==> AfterTile(f, t, tile, before)[k] == before[k]
    ensures !(tile.begin <= RowOf(f, k) < tile.begin + tile.count) ==> AfterTile(f, t, tile, before)[k] == before[k]
    ensures !InHalo(f, k) && tile.begin <= RowOf(f, k) < tile.begin + tile.count ==>
              AfterTile(f, t, tile, before)[k] == ValueAt(f, t, k)
  {
    IndexEncodes(k, f.paddedW, f.g.outputC);
  }

  // ---------- tiling ----------

  /** A list of tiles, one call after the other. */
  function AfterTiles(f: Fused, t: Tensors, tiles: seq<Tile>, before: seq<int>): (after: seq<int>)
    requires ValidLayer(f)
    ensures |after| == |before|
  {
    if tiles == [] then before
    else AfterTile(f, t, tiles[|tiles| - 1], AfterTiles(f, t, tiles[..|tiles| - 1], before))
  }

  predicate RowCovered(tiles: seq<Tile>, row: int) {
    exists i :: 0 <= i < |tiles| && tiles[i].begin <= row < tiles[i].begin + tiles[i].count
  }

  lemma {:induction false} AfterTilesAt(f: Fused, t: Tensors, tiles: seq<Tile>, before: seq<int>, k: int)
    requires ValidLayer(f) && 0 <= k < |before|
    ensures AfterTiles(f, t, tiles, before)[k] ==
            if RowCovered(tiles, RowOf(f, k)) && 0 <= ColumnOf(f, k) < f.g.outputW then ValueAt(f, t, k) else before[k]
  {
    if tiles != [] {
      var n := |tiles| - 1;
      AfterTilesAt(f, t, tiles[..n], before, k);
      var row := RowOf(f, k);
      assert RowCovered(tiles, row) <==>
             RowCovered(tiles[..n], row) || tiles[n].begin <= row < tiles[n].begin + tiles[n].count by {
        if RowCovered(tiles[..n], row) {
          var i :| 0 <= i < n && tiles[..n][i].begin <= row < tiles[..n][i].begin + tiles[..n][i].count;
          assert tiles[i] == tiles[..n][i];
        }
        if RowCovered(tiles, row) {
          var i :| 0 <= i < |tiles| && tiles[i].begin <= row < tiles[i].begin + tiles[i].count;
          assert i < n ==> tiles[..n][i] == tiles[i];
        }
      }
    }
  }

  /** Valid tiles that between them cover every output row. */
  ghost predicate CoversOutput(f: Fused, tiles: seq<Tile>)
    requires ValidLayer(f)
  {
    && (forall i :: 0 <= i < |tiles| ==> ValidTile(f, tiles[i]))
    && forall row :: 0 <= row < f.g.outputH ==> RowCovered(tiles, row)
  }

  /** Row tiling composes: in any order, with or without overlap, the result is one full-height call. */
  lemma {:induction false} TilingComposes(f: Fused, t: Tensors, tiles: seq<Tile>, before: seq<int>)
    requires ValidLayer(f) && CoversOutput(f, tiles)
    ensures AfterTiles(f, t, tiles, before) == AfterTile(f, t, Tile(0, f.g.outputH), before)
  {
    forall k | 0 <= k < |before|
      ensures AfterTiles(f, t, tiles, before)[k] == AfterTile(f, t, Tile(0, f.g.outputH), before)[k]
    {
      AfterTilesAt(f, t, tiles, before, k);
      var row := RowOf(f, k);
      if RowCovered(tiles, row) {
        var i :| 0 <= i < |tiles| && tiles[i].begin <= row < tiles[i].begin + tiles[i].count;
        assert ValidTile(f, tiles[i]);
      }
    }
  }

  // ---------- fused and unfused ----------

  /**
    The unfused pipeline on one tile, accumulators then requantisation with one multiplier and
    shift, produces at each cell the int8 that the fused kernel writes there.
   */
  lemma UnfusedPipelineAgrees(
    f: Fused, t: Tensors, tile: Tile, before: seq<int>, accumulator: seq<int>, output: seq<int>,
    multiplier: int, shift: int, tr: int, ow: int, oc: int)
    requires ValidLayer(f) && ValidTile(f, tile) && SizedTensors(f, t, |before|)
    requires forall c :: 0 <= c < f.g.outputC ==> t.multipliers[c] == multiplier && t.shifts[c] == shift
    requires |accumulator| == |output| == tile.count * f.g.outputW * f.g.outputC
    requires forall k :: 0 <= k < |accumulator| ==>
               accumulator[k] == TileAccumulator(f.g, OHWI, t.input, t.weights, t.bias, tile, k)
    requires forall k :: 0 <= k < |output| ==>
               output[k] == Requantize(accumulator[k], multiplier, shift,
                                       f.outputZeroPoint, f.activationMin, f.activationMax)
    requires 0 <= tr < tile.count && 0 <= ow < f.g.outputW && 0 <= oc < f.g.outputC
    ensures
      var compact := Index3(tr, ow, oc, f.g.outputW, f.g.outputC);
      var padded := Index3(tile.begin + tr + 1, ow + 1, oc, f.paddedW, f.g.outputC);
      && 0 <= compact < |output| && 0 <= padded < |before|
      && AfterTile(f, t, tile, before)[padded] == output[compact]
  {
    IndexInRange(tr, ow, oc, tile.count, f.g.outputW, f.g.outputC);
    IndexDecodes(tr, ow, oc, f.g.outputW, f.g.outputC);
    IndexInRange(tile.begin + tr + 1, ow + 1, oc, f.paddedH, f.paddedW, f.g.outputC);
    IndexDecodes(tile.begin + tr + 1, ow + 1, oc, f.paddedW, f.g.outputC);
  }

  /** The compact output of the unfused kernels and the padded one of the fused kernel at one cell. */
  predicate SameCell(f: Fused, tile: Tile, compact: seq<int>, padded: seq<int>, tr: int, ow: int, oc: int)
    requires ValidLayer(f)
  {
    var i := Index3(tr, ow, oc, f.g.outputW, f.g.outputC);
    var j := Index3(tile.begin + tr + 1, ow + 1, oc, f.paddedW, f.g.outputC);
    0 <= i < |compact| && 0 <= j < |padded| && padded[j] == compact[i]
  }

  /** Every cell of the tile. */
  ghost predicate SameTile(f: Fused, tile: Tile, compact: seq<int>, padded: seq<int>)
    requires ValidLayer(f)
  {
    forall tr, ow, oc {:trigger SameCell(f, tile, compact, padded, tr, ow, oc)} ::
      0 <= tr < tile.count && 0 <= ow < f.g.outputW && 0 <= oc < f.g.outputC ==>
        SameCell(f, tile, compact, padded, tr, ow, oc)
  }

  /** One multiplier and one shift for all channels, as the unfused kernel has them. */
  predicate IsUniform(t: Tensors, multiplier: int, shift: int) {
    && (forall c :: 0 <= c < |t.multipliers| ==> t.multipliers[c] == multiplier)
    && forall c :: 0 <= c < |t.shifts| ==> t.shifts[c] == shift
  }

  /** The unfused pipeline: convolution into accumulators, then requantisation. */
  method RunUnfused(f: Fused, t: Tensors, tile: Tile, multiplier: int, shift: int,
                    accumulator: array<int>, compact: array<int>, ghost paddedLength: int)
    returns (status: Status)
    requires ValidLayer(f) && ValidTile(f, tile) && SizedTensors(f, t, paddedLength) && accumulator != compact
    requires accumulator.Length == compact.Length == tile.count * f.g.outputW * f.g.outputC
    modifies accumulator, compact
    ensures status == Success
    ensures forall k :: 0 <= k < accumulator.Length ==>
              accumulator[k] == TileAccumulator(f.g, OHWI, t.input, t.weights, t.bias, tile, k)
    ensures forall k :: 0 <= k < compact.Length ==>
              compact[k] == Requantize(accumulator[k], multiplier, shift,
                                       f.outputZeroPoint, f.activationMin, f.activationMax)
  {
    var convolution := ConvArguments(Some(t.input), Some(t.weights), Some(ConvParams(f.g, Some(OHWI), tile)));
    status := Conv2dTile(convolution, t.bias, accumulator);
    if status == Success {
      status := RequantTile(Some(accumulator[..]), compact, accumulator.Length, multiplier, shift,
                            Some(RequantParams(f.outputZeroPoint, f.activationMin, f.activationMax)));
    }
  }

  /** Both pipelines on the same tile: they succeed and agree at every cell. */
  method RunBoth(f: Fused, t: Tensors, tile: Tile, multiplier: int, shift: int,
                 accumulator: array<int>, compact: array<int>, padded: array<int>)
    returns (unfused: Status, fused: Status)
    requires ValidLayer(f) && ValidTile(f, tile) && SizedTensors(f, t, padded.Length)
    requires IsUniform(t, multiplier, shift)
    requires accumulator != compact && accumulator != padded && compact != padded
    requires accumulator.Length == compact.Length == tile.count * f.g.outputW * f.g.outputC
    modifies accumulator, compact, padded
    ensures unfused == fused == Success
    ensures SameTile(f, tile, compact[..], padded[..])
  {
    ghost var before := padded[..];
    unfused := RunUnfused(f, t, tile, multiplier, shift, accumulator, compact, padded.Length);
    fused := FusedTile(FusedArguments(Some(t), Some(FusedParams(Header(100, 1, 0, 0), f, tile))), padded);
    forall tr, ow, oc | 0 <= tr < tile.count && 0 <= ow < f.g.outputW && 0 <= oc < f.g.outputC
      ensures SameCell(f, tile, compact[..], padded[..], tr, ow, oc)
    {
      UnfusedPipelineAgrees(f, t, tile, before, accumulator[..], compact[..], multiplier, shift, tr, ow, oc);
    }
  }
}
