/**
  The header-carrying bump arena of ai_runtime.c, on real bytes: headers are stored in the arena
  itself, blocks are never reclaimed one by one, and sizes are 32-bit.
 */
module BumpArena {
  import opened Basics
  import opened Machine

  /** `OS_ALIGN_UP(sizeof(ai_arena_block_header_t), 8)` */
  const HEADER: nat := 8

  /** The next multiple of 8, without wrap-around. */
  function RoundUp8(size: nat): nat {
    (size + 7) / 8 * 8
  }

  /** `OS_ALIGN_UP(size, 8)` in 32-bit arithmetic. */
  function Align32(size: nat): nat {
    (size + 7) % U32 / 8 * 8
  }

  // ---------- when the 32-bit test is right ----------

  /** The out-of-memory test of `arena_alloc_with_header` lets the request through. */
  predicate Accepts(used: nat, total: nat, size: nat) {
    (Align32(used) + HEADER + Align32(size)) % U32 <= total
  }

  /** The request and its header fit the 32-bit sizes. */
  predicate NoWrap(used: nat, size: nat) {
    used + HEADER + RoundUp8(size) < U32
  }

  /** An accepted request really fits exactly when no 32-bit sum wrapped. */
  lemma AcceptanceIsSoundWithoutWrap(used: nat, total: nat, size: nat)
    requires used <= total < U32 && used % 8 == 0 && 0 < size < U32
    requires Accepts(used, total, size)
    ensures used + HEADER + RoundUp8(size) <= total <==> NoWrap(used, size)
  {
    if NoWrap(used, size) {
      AlignWithoutWrap(used, size);
    }
  }

  /** The largest sizes wrap to a block without payload and are accepted. */
  lemma WrappedSizeIsAccepted()
    ensures Accepts(0, 1024, U32 - 1) && Align32(U32 - 1) == 0 && !NoWrap(0, U32 - 1)
  {
  }

  lemma AlignWithoutWrap(used: nat, size: nat)
    requires used % 8 == 0 && NoWrap(used, size)
    ensures Align32(size) == RoundUp8(size) && Align32(used) == used
  {
    assert size + 7 < U32 by {
      assert RoundUp8(size) < U32 && RoundUp8(size) % 8 == 0;
    }
  }

  /** The 32-bit sum of the test does not wrap; the rounded size may have. */
  predicate SumFits(used: nat, size: nat) {
    size < U32 && used + HEADER + Align32(size) < U32
  }

  /** The payload of a block holds what was asked for unless rounding wrapped, which leaves none. */
  lemma PayloadHoldsRequestExactly(size: nat)
    requires size < U32
    ensures size <= Align32(size) <==> size <= U32 - 8
    ensures size > U32 - 8 ==> Align32(size) == 0
  {
  }

  /** A request whose sum wraps is always accepted, and would move the end of the arena back. */
  lemma WrappedSumIsAccepted(used: nat, total: nat, size: nat)
    requires used <= total < U32 && used % 8 == 0 && size < U32 && !SumFits(used, size)
    requires Align32(used) == used
    ensures Accepts(used, total, size) && (used + HEADER + Align32(size)) % U32 <= used
  {
  }

  lemma Unwrapped(used: nat, alignedSize: nat)
    requires used % 8 == 0 && used + HEADER + alignedSize < U32
    ensures Align32(used) == used
    ensures (Align32(used) + HEADER + alignedSize) % U32 == used + HEADER + alignedSize
  {
    assert used + 7 < U32;
    assert (used + 7) / 8 * 8 == used;
  }

  // ---------- blocks and the headers stored in front of them ----------

  /** A live block: `header` is 8 for blocks from malloc, calloc and realloc, 0 for raw ones. */
  datatype Block = Block(start: nat, header: nat, payload: nat) {
    function End(): nat {
      start + header + payload
    }

    function Pointer(): nat {
      start + header
    }

    predicate WellFormed() {
      && start % 8 == 0 && payload % 8 == 0
      && (header == 0 || header == HEADER)
    }
  }

  /** Blocks follow each other from the start of the arena up to `used`. */
  ghost predicate Tiled(blocks: seq<Block>, used: nat) {
    if blocks == [] then used == 0
    else
      var last := blocks[|blocks| - 1];
      last.WellFormed() && last.End() == used && Tiled(blocks[..|blocks| - 1], last.start)
  }

  lemma MultiplesAdd(a: nat, b: nat, c: nat)
    requires a % 8 == 0 && b % 8 == 0 && c % 8 == 0
    ensures (a + b + c) % 8 == 0
  {
    assert a + b + c == 8 * (a / 8 + b / 8 + c / 8);
  }

  lemma {:induction false} TiledExtends(blocks: seq<Block>, used: nat, block: Block)
    requires Tiled(blocks, used) && block.WellFormed() && block.start == used
    ensures Tiled(blocks + [block], block.End()) && block.End() % 8 == 0
  {
    MultiplesAdd(block.start, block.header, block.payload);
    assert (blocks + [block])[..|blocks|] == blocks;
  }

  lemma {:induction false} BlockIsInside(blocks: seq<Block>, used: nat, i: nat)
    requires Tiled(blocks, used) && i < |blocks|
    ensures blocks[i].WellFormed() && blocks[i].Pointer() % 8 == 0 && blocks[i].End() <= used
  {
    var front := blocks[..|blocks| - 1];
    if i < |front| {
      assert front[i] == blocks[i];
      BlockIsInside(front, blocks[|blocks| - 1].start, i);
    } else {
      MultiplesAdd(blocks[i].start, blocks[i].header, 0);
    }
  }

  lemma {:induction false} EarlierEndsFirst(blocks: seq<Block>, used: nat, i: nat, j: nat)
    requires Tiled(blocks, used) && i < j < |blocks|
    ensures blocks[i].End() <= blocks[j].start
  {
    var front, start := blocks[..|blocks| - 1], blocks[|blocks| - 1].start;
    assert front[i] == blocks[i];
    if j < |front| {
      assert front[j] == blocks[j];
      EarlierEndsFirst(front, start, i, j);
    } else {
      BlockIsInside(front, start, i);
    }
  }

  /** Live blocks are aligned, inside what is used, and pairwise disjoint. */
  lemma {:induction false} TiledBlocksAreDisjoint(blocks: seq<Block>, used: nat, i: nat, j: nat)
    requires Tiled(blocks, used) && i < j < |blocks|
    ensures blocks[i].Pointer() % 8 == 0 && blocks[j].Pointer() % 8 == 0
    ensures blocks[i].End() <= blocks[j].start && blocks[j].End() <= used
  {
    BlockIsInside(blocks, used, i);
    BlockIsInside(blocks, used, j);
    EarlierEndsFirst(blocks, used, i, j);
  }

  /** The little-endian 32-bit word at `at`. */
  function Get32(mem: seq<Byte>, at: nat): nat
    requires at + 4 <= |mem|
  {
    (mem[at] as int) + 0x100 * (mem[at + 1] as int)
    + 0x1_0000 * (mem[at + 2] as int) + 0x100_0000 * (mem[at + 3] as int)
  }

  lemma BytesOf32(value: nat)
    requires value < U32
    ensures value % 0x100 + 0x100 * (value / 0x100 % 0x100) + 0x1_0000 * (value / 0x1_0000 % 0x100)
            + 0x100_0000 * (value / 0x100_0000) == value
    ensures value / 0x100_0000 < 0x100
  {
    QuotientTwice(value);
    QuotientThrice(value);
    assert value == 0x100 * (value / 0x100) + value % 0x100;
  }

  lemma QuotientTwice(value: nat)
    ensures value / 0x1_0000 == value / 0x100 / 0x100
  {
    var a := value / 0x100;
    assert 0x100 * a <= value < 0x100 * a + 0x100;
    assert 0x100 * (a / 0x100) <= a < 0x100 * (a / 0x100) + 0x100;
    assert 0x1_0000 * (a / 0x100) <= value < 0x1_0000 * (a / 0x100) + 0x1_0000;
  }

  lemma QuotientThrice(value: nat)
    ensures value / 0x100_0000 == value / 0x1_0000 / 0x100
  {
    var a := value / 0x1_0000;
    assert 0x1_0000 * a <= value < 0x1_0000 * a + 0x1_0000;
    assert 0x100 * (a / 0x100) <= a < 0x100 * (a / 0x100) + 0x100;
    assert 0x100_0000 * (a / 0x100) <= value < 0x100_0000 * (a / 0x100) + 0x100_0000;
  }

  /** The word at `at` is a matter of its four bytes. */
  lemma SameWord(mem: seq<Byte>, after: seq<Byte>, at: nat)
    requires at + 4 <= |mem| && |mem| == |after|
    requires mem[at..at + 4] == after[at..at + 4]
    ensures Get32(mem, at) == Get32(after, at)
  {
    var word := mem[at..at + 4];
    assert word[0] == mem[at] == after[at] && word[1] == mem[at + 1] == after[at + 1];
    assert word[2] == mem[at + 2] == after[at + 2] && word[3] == mem[at + 3] == after[at + 3];
  }

  /** The size stored in the header of a block never exceeds its payload. */
  ghost predicate HeaderOk(mem: seq<Byte>, block: Block) {
    block.header == HEADER ==>
      block.start + HEADER <= block.End() <= |mem| && Get32(mem, block.start) <= block.payload
  }

  ghost predicate HeadersOk(mem: seq<Byte>, blocks: seq<Block>) {
    forall i {:trigger blocks[i]} :: 0 <= i < |blocks| ==> HeaderOk(mem, blocks[i])
  }

  /** Writes above `used` leave every header as it was. */
  lemma {:induction false} HeadersBelowStay(mem: seq<Byte>, after: seq<Byte>, blocks: seq<Block>, used: nat)
    requires Tiled(blocks, used) && HeadersOk(mem, blocks)
    requires used <= |mem| == |after| && mem[..used] == after[..used]
    ensures HeadersOk(after, blocks)
  {
    forall i | 0 <= i < |blocks| ensures HeaderOk(after, blocks[i]) {
      BlockIsInside(blocks, used, i);
      if blocks[i].header == HEADER {
        PrefixSlice(mem, after, blocks[i].start, blocks[i].start + 4, used);
        SameWord(mem, after, blocks[i].start);
      }
    }
  }

  lemma PrefixSlice(mem: seq<Byte>, after: seq<Byte>, lo: nat, hi: nat, n: nat)
    requires lo <= hi <= n <= |mem| == |after| && mem[..n] == after[..n]
    ensures mem[lo..hi] == after[lo..hi]
  {
    assert mem[lo..hi] == mem[..n][lo..hi] && after[lo..hi] == after[..n][lo..hi];
  }

  /** Writes inside block `k` that leave its own header small enough leave every header valid. */
  lemma {:induction false} OtherHeadersStay(mem: seq<Byte>, after: seq<Byte>, blocks: seq<Block>, used: nat, k: nat)
    requires Tiled(blocks, used) && HeadersOk(mem, blocks) && k < |blocks| && used <= |mem| == |after|
    requires blocks[k].End() <= |mem|
    requires mem[..blocks[k].start] == after[..blocks[k].start] && mem[blocks[k].End()..] == after[blocks[k].End()..]
    requires HeaderOk(after, blocks[k])
    ensures HeadersOk(after, blocks)
    ensures forall j {:trigger blocks[j]} :: 0 <= j < |blocks| && j != k ==> SameBlock(mem, after, blocks[j])
  {
    forall j | 0 <= j < |blocks| && j != k ensures HeaderOk(after, blocks[j]) && SameBlock(mem, after, blocks[j]) {
      BlockIsInside(blocks, used, j);
      var b := blocks[j];
      if j < k {
        EarlierEndsFirst(blocks, used, j, k);
        PrefixSlice(mem, after, b.start, b.End(), blocks[k].start);
      } else {
        EarlierEndsFirst(blocks, used, k, j);
        SuffixSlice(mem, after, b.start, b.End(), blocks[k].End());
      }
      if b.header == HEADER {
        assert mem[b.start..b.End()][..4] == mem[b.start..b.start + 4];
        assert after[b.start..b.End()][..4] == after[b.start..b.start + 4];
        SameWord(mem, after, b.start);
      }
    }
  }

  lemma SuffixSlice(mem: seq<Byte>, after: seq<Byte>, lo: nat, hi: nat, n: nat)
    requires n <= lo <= hi <= |mem| == |after| && mem[n..] == after[n..]
    ensures mem[lo..hi] == after[lo..hi]
  {
    forall k | lo <= k < hi ensures mem[k] == after[k] {
      assert mem[k] == mem[n..][k - n] && after[k] == after[n..][k - n];
    }
  }

  /** Header and payload of the block hold the same bytes. */
  ghost predicate SameBlock(mem: seq<Byte>, after: seq<Byte>, block: Block) {
    block.End() <= |mem| && |mem| == |after| && mem[block.start..block.End()] == after[block.start..block.End()]
  }

  /** Writes above `used` leave every block as it was. */
  lemma {:induction false} BlocksBelowStay(mem: seq<Byte>, after: seq<Byte>, blocks: seq<Block>, used: nat)
    requires Tiled(blocks, used)
    requires used <= |mem| == |after| && mem[..used] == after[..used]
    ensures forall i {:trigger blocks[i]} :: 0 <= i < |blocks| ==> SameBlock(mem, after, blocks[i])
  {
    forall i | 0 <= i < |blocks| ensures SameBlock(mem, after, blocks[i]) {
      BlockIsInside(blocks, used, i);
      PrefixSlice(mem, after, blocks[i].start, blocks[i].End(), used);
    }
  }

  /** A new block was written above `end`, then filled from below it. */
  lemma MovedOut(
    mem: seq<Byte>, next: seq<Byte>, after: seq<Byte>, from: nat, to: nat, count: nat, end: nat)
    requires from + count <= end <= to && to + count <= |mem| && |mem| == |next| == |after|
    requires next[..end] == mem[..end] && after[..to] == next[..to]
    requires after[to..to + count] == next[from..from + count]
    ensures after[..end] == mem[..end] && Keeps(mem, from, after, to, count)
  {
    PrefixSlice(mem, next, from, from + count, end);
    PrefixSlice(next, after, 0, end, to);
  }

  // ---------- peak ----------

  function MaxOf(log: seq<nat>): nat
    requires log != []
  {
    var last := log[|log| - 1];
    if |log| == 1 then last
    else
      var rest := MaxOf(log[..|log| - 1]);
      if rest < last then last else rest
  }

  /** `peak` is the largest `used` since the last reset of the peak. */
  ghost predicate PeakOk(log: seq<nat>, used: nat, peak: nat) {
    log != [] && log[|log| - 1] == used && peak == MaxOf(log)
  }

  lemma PeakExtends(log: seq<nat>, used: nat, peak: nat, next: nat)
    requires PeakOk(log, used, peak)
    ensures PeakOk(log + [next], next, if next > peak then next else peak)
  {
    assert (log + [next])[..|log|] == log;
  }

  // ---------- the arena ----------

  class RuntimeArena {
    const base: array<Byte>
    var used: nat
    var peak: nat
    /** Blocks handed out since the last reset, oldest first. */
    ghost var blocks: seq<Block>
    /** The values of `used` since the last reset of the peak. */
    ghost var usedLog: seq<nat>

    ghost predicate Valid()
      reads this, base
    {
      && base.Length < U32
      && used <= base.Length && used % 8 == 0
      && Tiled(blocks, used)
      && HeadersOk(base[..], blocks)
      && PeakOk(usedLog, used, peak)
    }

    /** The arena part of `ai_runtime_init`. */
    constructor (base: array<Byte>)
      requires base.Length < U32
      ensures Valid() && this.base == base && used == 0 && blocks == []
    {
      this.base := base;
      used, peak, blocks, usedLog := 0, 0, [], [0];
    }

    /** `arena_reset` */
    method Reset()
      requires Valid()
      modifies this
      ensures Valid() && used == 0 && peak == 0 && blocks == [] && usedLog == [0]
    {
      used, peak, blocks, usedLog := 0, 0, [], [0];
    }

    /** `ai_runtime_reset_peak` */
    method ResetPeak()
      requires Valid()
      modifies this`peak, this`usedLog
      ensures Valid() && peak == used && usedLog == [used]
    {
      peak, usedLog := used, [used];
    }

    /** Moves the bump pointer past a new block whose header is already stored. */
    method Bump(end: nat, ghost block: Block)
      requires base.Length < U32 && Tiled(blocks, used) && PeakOk(usedLog, used, peak)
      requires HeadersOk(base[..], blocks) && HeaderOk(base[..], block)
      requires block.WellFormed() && block.start == used && end == block.End() <= base.Length
      modifies this
      ensures Valid() && used == end
      ensures blocks == old(blocks) + [block] && usedLog == old(usedLog) + [end]
    {
      TiledExtends(blocks, used, block);
      PeakExtends(usedLog, used, peak, end);
      used := end;
      if used > peak {
        peak := used;
      }
      blocks, usedLog := blocks + [block], usedLog + [end];
    }

    /** `OS_ALIGN_UP(size, 8)` */
    method RoundTo8(size: nat) returns (aligned: nat)
      ensures aligned == Align32(size) && aligned % 8 == 0
    {
      aligned := (size + 7) % U32 / 8 * 8;
    }

    /** The out-of-memory test of `arena_alloc`. */
    method IsFull(aligned: nat) returns (full: bool)
      requires used + aligned < U32
      ensures full <==> used + aligned > base.Length
    {
      full := (used + aligned) % U32 > base.Length;
    }

    /** A block without header of an aligned size. */
    method TakeRaw(aligned: nat) returns (ptr: Option<nat>)
      requires Valid() && aligned % 8 == 0 && used + aligned < U32
      modifies this
      ensures Valid()
      ensures ptr == if old(used) + aligned <= base.Length then Some(old(used)) else None
      ensures ptr.Some? ==> blocks == old(blocks) + [Block(old(used), 0, aligned)] && usedLog == old(usedLog) + [used]
      ensures ptr.None? ==> unchanged(this)
    {
      var full := IsFull(aligned);
      if full {
        return None;
      }
      ptr := Some(used);
      Bump(used + aligned, Block(used, 0, aligned));
    }

    /** `arena_alloc`: a block without header; `None` is a null pointer. */
    method AllocRaw(size: nat) returns (ptr: Option<nat>)
      requires Valid() && size < U32 && used + Align32(size) < U32
      modifies this
      ensures Valid()
      ensures ptr == if old(used) + Align32(size) <= base.Length then Some(old(used)) else None
      ensures ptr.Some? ==> blocks == old(blocks) + [Block(old(used), 0, Align32(size))]
      ensures ptr.Some? ==> usedLog == old(usedLog) + [used]
      ensures ptr.None? ==> unchanged(this)
    {
      var aligned := RoundTo8(size);
      ptr := TakeRaw(aligned);
    }

    /** Stores a 32-bit header at `at`. */
    method WriteHeader(at: nat, value: nat)
      requires at + 4 <= base.Length && value < U32
      modifies base
      ensures Get32(base[..], at) == value
      ensures base[..at] == old(base[..at]) && base[at + 4..] == old(base[at + 4..])
    {
      BytesOf32(value);
      base[at] := value % 0x100;
      base[at + 1] := value / 0x100 % 0x100;
      base[at + 2] := value / 0x1_0000 % 0x100;
      base[at + 3] := value / 0x100_0000;
    }

    method ReadHeader(at: nat) returns (value: nat)
      requires at + 4 <= base.Length
      ensures value == Get32(base[..], at)
    {
      value := (base[at] as int) + 0x100 * (base[at + 1] as int)
      + 0x1_0000 * (base[at + 2] as int) + 0x100_0000 * (base[at + 3] as int);
    }

    /** `memset(ptr, 0, count)` */
    method ZeroPayload(ptr: nat, count: nat)
      requires ptr + count <= base.Length
      modifies base
      ensures base[..ptr] == old(base[..ptr]) && base[ptr + count..] == old(base[ptr + count..])
      ensures forall b :: ptr <= b < ptr + count ==> base[b] == 0
    {
      forall b | ptr <= b < ptr + count {
        base[b] := 0;
      }
    }

    /** `memcpy(to, from, count)` of ranges that do not overlap. */
    method CopyPayload(to: nat, from: nat, count: nat)
      requires from + count <= to && to + count <= base.Length
      modifies base
      ensures base[..to] == old(base[..to]) && base[to + count..] == old(base[to + count..])
      ensures base[to..to + count] == old(base[from..from + count])
    {
      forall b | 0 <= b < count {
        base[to + b] := base[from + b];
      }
    }

    /** Header and, if asked, zeroed payload of a block at `offset`; nothing below is touched. */
    method FillBlock(offset: nat, payload: nat, zero: bool)
      requires offset + HEADER + payload <= base.Length < U32
      modifies base
      ensures Get32(base[..], offset) == payload
      ensures base[..offset] == old(base[..offset])
      ensures zero ==> forall b :: offset + HEADER <= b < offset + HEADER + payload ==> base[b] == 0
    {
      WriteHeader(offset, payload);
      if zero {
        ghost var mem := base[..];
        ZeroPayload(offset + HEADER, payload);
        assert base[..offset + HEADER] == mem[..offset + HEADER];
        PrefixSlice(mem, base[..], offset, offset + 4, offset + HEADER);
        SameWord(mem, base[..], offset);
        assert base[..offset] == base[..offset + HEADER][..offset];
      }
    }

    /** The out-of-memory test of `arena_alloc_with_header`; `Some` is where the header goes. */
    method FindOffset(alignedSize: nat) returns (offset: Option<nat>)
      requires Valid() && alignedSize % 8 == 0 && used + HEADER + alignedSize < U32
      ensures offset == if used + HEADER + alignedSize <= base.Length then Some(used) else None
    {
      Unwrapped(used, alignedSize);
      var end := (Align32(used) + HEADER + alignedSize) % U32;
      offset := if end > base.Length then None else Some(Align32(used));
    }

    /** A block with a header, of an aligned size. */
    method TakeBlock(alignedSize: nat, zero: bool) returns (ptr: Option<nat>)
      requires Valid() && alignedSize % 8 == 0 && used + HEADER + alignedSize < U32
      modifies this, base
      ensures Valid()
      ensures ptr.Some? <==> old(used) + HEADER + alignedSize <= base.Length
      ensures ptr.Some? ==> Extended(old(used), old(blocks), old(usedLog), alignedSize, ptr.value)
      ensures ptr.Some? && zero ==> forall b :: ptr.value <= b < ptr.value + alignedSize ==> base[b] == 0
      ensures ptr.None? ==> unchanged(this) && unchanged(base)
      ensures base[..old(used)] == old(base[..used])
    {
      var offset := FindOffset(alignedSize);
      if offset.None? {
        return None;
      }
      FillBlock(offset.value, alignedSize, zero);
      HeadersBelowStay(old(base[..]), base[..], blocks, used);
      Bump(offset.value + HEADER + alignedSize, Block(offset.value, HEADER, alignedSize));
      ptr := Some(offset.value + HEADER);
    }

    /** `arena_alloc_with_header`, for requests whose 32-bit sum does not wrap. */
    method AllocWithHeader(size: nat, zero: bool) returns (ptr: Option<nat>)
      requires Valid() && (size > 0 ==> SumFits(used, size))
      modifies this, base
      ensures Valid()
      ensures ptr.Some? <==> size > 0 && old(used) + HEADER + Align32(size) <= base.Length
      ensures ptr.Some? ==> Extended(old(used), old(blocks), old(usedLog), Align32(size), ptr.value)
      ensures ptr.Some? && zero ==> forall b :: ptr.value <= b < ptr.value + Align32(size) ==> base[b] == 0
      ensures ptr.None? ==> unchanged(this) && unchanged(base)
      ensures base[..old(used)] == old(base[..used])
    {
      if size == 0 {
        return None;
      }
      var alignedSize := RoundTo8(size);
      ptr := TakeBlock(alignedSize, zero);
    }

    /** One block with a header has been added at the old end. */
    ghost predicate Extended(oldUsed: nat, oldBlocks: seq<Block>, oldLog: seq<nat>, payload: nat, ptr: nat)
      reads this, base
    {
      && ptr == oldUsed + HEADER && used == ptr + payload <= base.Length
      && blocks == oldBlocks + [Block(oldUsed, HEADER, payload)]
      && usedLog == oldLog + [used]
      && StoredSize(ptr) == payload
    }

    /** `ai_runtime_arena_malloc` */
    method Malloc(size: nat) returns (ptr: Option<nat>)
      requires Valid() && (size > 0 ==> SumFits(used, size))
      modifies this, base
      ensures Valid()
      ensures ptr.Some? <==> size > 0 && old(used) + HEADER + Align32(size) <= base.Length
      ensures ptr.Some? ==> Extended(old(used), old(blocks), old(usedLog), Align32(size), ptr.value)
      ensures ptr.None? ==> unchanged(this) && unchanged(base)
      ensures base[..old(used)] == old(base[..used])
    {
      ptr := AllocWithHeader(size, false);
    }

    /** `ai_runtime_arena_calloc` */
    method Calloc(size: nat) returns (ptr: Option<nat>)
      requires Valid() && (size > 0 ==> SumFits(used, size))
      modifies this, base
      ensures Valid()
      ensures ptr.Some? <==> size > 0 && old(used) + HEADER + Align32(size) <= base.Length
      ensures ptr.Some? ==> Extended(old(used), old(blocks), old(usedLog), Align32(size), ptr.value)
      ensures ptr.Some? ==> forall b :: ptr.value <= b < ptr.value + Align32(size) ==> base[b] == 0
      ensures ptr.None? ==> unchanged(this) && unchanged(base)
      ensures base[..old(used)] == old(base[..used])
    {
      ptr := AllocWithHeader(size, true);
    }

    /** `ai_runtime_arena_free`: blocks are reclaimed only by a reset. */
    method Free(ptr: Option<nat>)
    {
    }

    /** Block `i` was handed out at `ptr` with a header. */
    ghost predicate IsBlock(i: nat, ptr: nat)
      reads this
    {
      i < |blocks| && blocks[i].header == HEADER && blocks[i].Pointer() == ptr
    }

    /** The size in the header before `ptr`: how much `realloc` will keep. */
    ghost function StoredSize(ptr: nat): nat
      requires HEADER <= ptr <= base.Length
      reads base
    {
      Get32(base[..], ptr - HEADER)
    }

    /** The shrinking branch of `ai_runtime_arena_realloc`: only the header changes. */
    method Shrink(ptr: nat, alignedSize: nat, ghost i: nat)
      requires Valid() && IsBlock(i, ptr) && ptr <= base.Length && alignedSize <= StoredSize(ptr)
      modifies base
      ensures Valid() && StoredSize(ptr) == alignedSize
      ensures Keeps(old(base[..]), ptr, base[..], ptr, alignedSize)
      ensures SameOthers(old(base[..]), base[..], blocks, i)
    {
      ghost var mem, b := base[..], blocks[i];
      BlockIsInside(blocks, used, i);
      assert HeaderOk(mem, b);
      WriteHeader(ptr - HEADER, alignedSize);
      ghost var after := base[..];
      assert base[ptr - HEADER + 4..] == after[ptr - HEADER + 4..];
      SuffixSlice(mem, after, ptr, ptr + alignedSize, ptr - HEADER + 4);
      SuffixSlice(mem, after, b.End(), |mem|, ptr - HEADER + 4);
      OtherHeadersStay(mem, after, blocks, used, i);
    }

    /** What `realloc` of block `i` may assume about it. */
    lemma BlockFacts(i: nat, ptr: nat)
      requires Valid() && IsBlock(i, ptr)
      ensures blocks[i].End() <= used && StoredSize(ptr) <= blocks[i].payload
      ensures SameOthers(base[..], base[..], blocks, i)
    {
      BlockIsInside(blocks, used, i);
      assert HeaderOk(base[..], blocks[i]);
      BlocksBelowStay(base[..], base[..], blocks, used);
    }

    /**
      `ai_runtime_arena_realloc` of a live block: the payload is kept up to the smaller of the stored
      and the new size, and no byte of any other block changes.
     */
    method ReallocBlock(ptr: nat, size: nat, ghost i: nat) returns (moved: Option<nat>)
      requires Valid() && IsBlock(i, ptr) && ptr <= base.Length && size < U32
      requires 0 < size && Align32(size) > StoredSize(ptr) ==> SumFits(used, size)
      modifies this, base
      ensures Valid()
      ensures moved.None? <==>
              || size == 0
              || (Align32(size) > old(StoredSize(ptr)) && old(used) + HEADER + Align32(size) > base.Length)
      ensures moved.None? ==> unchanged(this) && unchanged(base)
      ensures moved.Some? && Align32(size) <= old(StoredSize(ptr)) ==>
                moved.value == ptr && unchanged(this) && StoredSize(ptr) == Align32(size)
      ensures moved.Some? && Align32(size) > old(StoredSize(ptr)) ==>
                Extended(old(used), old(blocks), old(usedLog), Align32(size), moved.value)
      ensures moved.Some? ==>
                Keeps(old(base[..]), ptr, base[..], moved.value, Min(old(StoredSize(ptr)), Align32(size)))
      ensures SameOthers(old(base[..]), base[..], old(blocks), i)
    {
      BlockFacts(i, ptr);
      if size == 0 {
        Free(Some(ptr));
        return None;
      }
      var oldSize := ReadHeader(ptr - HEADER);
      var alignedSize := RoundTo8(size);
      if alignedSize <= oldSize {
        Shrink(ptr, alignedSize, i);
        moved := Some(ptr);
      } else {
        moved := Grow(ptr, size, oldSize, i);
      }
    }

    /** The growing branch of `ai_runtime_arena_realloc`. */
    method Grow(ptr: nat, size: nat, oldSize: nat, ghost i: nat) returns (moved: Option<nat>)
      requires Valid() && IsBlock(i, ptr) && 0 < size && SumFits(used, size)
      requires blocks[i].End() <= used && oldSize <= blocks[i].payload && oldSize < Align32(size)
      modifies this, base
      ensures Valid()
      ensures moved.Some? <==> old(used) + HEADER + Align32(size) <= base.Length
      ensures moved.None? ==> unchanged(this) && unchanged(base)
      ensures moved.Some? ==> Extended(old(used), old(blocks), old(usedLog), Align32(size), moved.value)
      ensures moved.Some? ==> Keeps(old(base[..]), ptr, base[..], moved.value, oldSize)
      ensures SameOthers(old(base[..]), base[..], old(blocks), i)
    {
      ghost var mem, end, live := base[..], used, blocks;
      moved := Malloc(size);
      ghost var next := base[..];
      if moved.Some? {
        CopyOut(ptr, moved.value, oldSize, |live|);
        MovedOut(mem, next, base[..], ptr, moved.value, oldSize, end);
      }
      BlocksBelowStay(mem, base[..], live, end);
    }

    /** Copies `count` bytes into the payload of the newest block, `last`. */
    method CopyOut(from: nat, to: nat, count: nat, ghost last: nat)
      requires Valid() && last == |blocks| - 1 && IsBlock(last, to)
      requires from + count <= blocks[last].start && count <= blocks[last].payload && used <= base.Length
      modifies base
      ensures Valid() && StoredSize(to) == old(StoredSize(to))
      ensures base[to..to + count] == old(base[from..from + count])
      ensures base[..to] == old(base[..to])
    {
      ghost var mem, b := base[..], blocks[last];
      BlockIsInside(blocks, used, last);
      assert HeaderOk(mem, b);
      CopyPayload(to, from, count);
      ghost var after := base[..];
      assert after[..to] == mem[..to];
      PrefixSlice(mem, after, b.start, b.start + 4, to);
      SameWord(mem, after, b.start);
      assert mem[..b.start] == mem[..to][..b.start] && after[..b.start] == after[..to][..b.start];
      SuffixSlice(mem, after, b.End(), |mem|, to + count);
      OtherHeadersStay(mem, after, blocks, used, last);
    }

    /** When `realloc` of a pointer finds room: in place, or as a new block at the end. */
    ghost predicate HasRoom(ptr: Option<nat>, size: nat)
      requires ptr.Some? ==> HEADER <= ptr.value <= base.Length
      reads this, base
    {
      size > 0 && (StaysInPlace(ptr, size) || used + HEADER + Align32(size) <= base.Length)
    }

    /** The block keeps its place: the size stored in its header is large enough. */
    ghost predicate StaysInPlace(ptr: Option<nat>, size: nat)
      requires ptr.Some? ==> HEADER <= ptr.value <= base.Length
      reads base
    {
      ptr.Some? && Align32(size) <= StoredSize(ptr.value)
    }

    /**
      `ai_runtime_arena_realloc`; a null pointer makes it an allocation. On success the result is the
      payload of block `at`, the same block or a new last one, and its header holds the new size.
     */
    method Realloc(ptr: Option<nat>, size: nat, ghost i: nat) returns (moved: Option<nat>, ghost at: nat)
      requires Valid() && size < U32
      requires ptr.Some? ==> IsBlock(i, ptr.value) && ptr.value <= base.Length
      requires size > 0 && !StaysInPlace(ptr, size) ==> SumFits(used, size)
      modifies this, base
      ensures Valid()
      ensures moved.Some? <==> old(HasRoom(ptr, size))
      ensures moved.None? ==> unchanged(this) && unchanged(base)
      ensures moved.Some? ==> IsBlock(at, moved.value) && moved.value <= base.Length
      ensures moved.Some? ==> StoredSize(moved.value) == Align32(size) <= blocks[at].payload
      ensures moved.Some? && old(StaysInPlace(ptr, size)) ==> moved == ptr && at == i && unchanged(this)
      ensures moved.Some? && !old(StaysInPlace(ptr, size)) ==>
                at == |old(blocks)| && Extended(old(used), old(blocks), old(usedLog), Align32(size), moved.value)
      ensures ptr.Some? && moved.Some? ==>
                var kept := Min(old(StoredSize(ptr.value)), Align32(size));
                Keeps(old(base[..]), ptr.value, base[..], moved.value, kept)
      ensures SameOthers(old(base[..]), base[..], old(blocks), if ptr.Some? then i else |old(blocks)|)
    {
      if ptr.None? {
        at := |blocks|;
        moved := Malloc(size);
        BlocksBelowStay(old(base[..]), base[..], old(blocks), old(used));
      } else {
        moved := ReallocBlock(ptr.value, size, i);
        at := if Align32(size) <= old(StoredSize(ptr.value)) then i else |old(blocks)|;
        if moved.Some? {
          BlockFacts(at, moved.value);
        }
      }
    }

    /** A client's write into the payload of block `i`: headers and other blocks are safe. */
    method Store(i: nat, at: nat, value: Byte)
      requires Valid() && i < |blocks| && blocks[i].Pointer() <= at < blocks[i].End() <= base.Length
      modifies base
      ensures Valid() && base[..] == old(base[..])[at := value]
      ensures SameOthers(old(base[..]), base[..], blocks, i)
    {
      ghost var mem, b := base[..], blocks[i];
      assert HeaderOk(mem, b);
      BlockIsInside(blocks, used, i);
      base[at] := value;
      ghost var after := base[..];
      if b.header == HEADER {
        assert mem[b.start..b.start + 4] == after[b.start..b.start + 4];
        SameWord(mem, after, b.start);
      }
      OtherHeadersStay(mem, after, blocks, used, i);
    }
  }

  /** `count` bytes at `from` before are the `count` bytes at `to` after. */
  ghost predicate Keeps(mem: seq<Byte>, from: nat, after: seq<Byte>, to: nat, count: nat) {
    from + count <= |mem| && to + count <= |after| && mem[from..from + count] == after[to..to + count]
  }

  /** Every block other than `k` holds the same bytes. */
  ghost predicate SameOthers(mem: seq<Byte>, after: seq<Byte>, blocks: seq<Block>, k: nat) {
    forall j {:trigger blocks[j]} :: 0 <= j < |blocks| && j != k ==> SameBlock(mem, after, blocks[j])
  }
}
