/**
  The 64-bit timer protocol of hal_clint.c over 32-bit registers. The clock is an oracle that may
  tick by any amount between any two register accesses.
 */
module Clint {
  import opened Basics

  const U64: nat := 0x1_0000_0000_0000_0000

  /** The value of mtime at the `i`-th register access: never decreasing, never wrapping. */
  ghost predicate Monotone(clock: nat -> nat) {
    && (forall i: nat :: clock(i) < U64)
    && forall i: nat, j: nat :: i <= j ==> clock(i) <= clock(j)
  }

  function Low(value: nat): nat {
    value % U32
  }

  function High(value: nat): nat {
    value / U32
  }

  function Join(hi: nat, lo: nat): nat {
    hi * U32 + lo
  }

  /** A monotone clock whose high words agree at both ends has that high word in between. */
  lemma HighIsSteady(a: nat, b: nat, c: nat)
    requires a <= b <= c && High(a) == High(c)
    ensures High(b) == High(a) && Join(High(a), Low(b)) == b
  {
  }

  lemma HighIsMonotone(clock: nat -> nat, i: nat, j: nat)
    requires Monotone(clock) && i <= j
    ensures High(clock(i)) <= High(clock(j)) < U32
  {
    assert clock(i) <= clock(j);
  }

  /** The value assembled from accesses `i`, `i + 1`, `i + 2` when the two high words agree. */
  lemma RoundIsAtomic(clock: nat -> nat, i: nat)
    requires Monotone(clock) && High(clock(i)) == High(clock(i + 2))
    ensures Join(High(clock(i)), Low(clock(i + 1))) == clock(i + 1)
  {
    HighIsSteady(clock(i), clock(i + 1), clock(i + 2));
  }

  /**
    `hal_clint_mtime_get`, starting at access number `start`: `rounds` rounds of three accesses.
    The result is the exact value of mtime at the low-word access of the last round, and every
    retry is paid for by an increment of the high word.
   */
  method MtimeGet(clock: nat -> nat, start: nat) returns (value: nat, rounds: nat)
    requires Monotone(clock)
    ensures rounds >= 1 && value == clock(start + 3 * rounds - 2)
    ensures rounds - 1 <= High(clock(start + 3 * rounds - 1)) - High(clock(start))
  {
    var at := start;
    var hi := High(clock(at));
    var lo := Low(clock(at + 1));
    var again := High(clock(at + 2));
    rounds := 1;
    HighIsMonotone(clock, at, at + 2);
    while hi != again
      invariant rounds >= 1 && at == start + 3 * (rounds - 1)
      invariant hi == High(clock(at)) && lo == Low(clock(at + 1)) && again == High(clock(at + 2))
      invariant rounds - 1 <= hi - High(clock(start)) && hi <= again < U32
      decreases U32 - hi
    {
      HighIsMonotone(clock, at + 2, at + 3);
      HighIsMonotone(clock, at + 3, at + 5);
      at, rounds := at + 3, rounds + 1;
      hi := High(clock(at));
      lo := Low(clock(at + 1));
      again := High(clock(at + 2));
    }
    RoundIsAtomic(clock, at);
    value := Join(hi, lo);
  }

  /** Successive reads never go backwards, whatever happens in between. */
  method ReadTwice(clock: nat -> nat, start: nat, pause: nat) returns (first: nat, second: nat)
    requires Monotone(clock)
    ensures clock(start) <= first <= second
  {
    var rounds, more: nat;
    first, rounds := MtimeGet(clock, start);
    second, more := MtimeGet(clock, start + 3 * rounds + pause);
    assert clock(start + 3 * rounds - 2) <= clock(start + 3 * rounds + pause + 3 * more - 2);
  }

  /** The compare register of one hart as two 32-bit words. */
  class CompareRegister {
    var low: nat
    var high: nat
    /** Every value the register has held, in order. */
    ghost var held: seq<nat>

    ghost predicate Valid()
      reads this
    {
      low < U32 && high < U32 && held != [] && held[|held| - 1] == Join(high, low)
    }

    constructor (value: nat)
      requires value < U64
      ensures Valid() && held == [value]
    {
      low, high, held := Low(value), High(value), [value];
    }

    method WriteLow(word: nat)
      requires Valid() && word < U32
      modifies this
      ensures Valid() && low == word && high == old(high) && held == old(held) + [Join(high, word)]
    {
      low := word;
      held := held + [Join(high, low)];
    }

    method WriteHigh(word: nat)
      requires Valid() && word < U32
      modifies this
      ensures Valid() && high == word && low == old(low) && held == old(held) + [Join(word, low)]
    {
      high := word;
      held := held + [Join(high, low)];
    }

    /**
      `hal_clint_mtimecmp_set`: ends at the new value, and on the way never holds less than the
      smaller of the old and the new value, so no timer interrupt is raised early.
     */
    method Set(value: nat)
      requires Valid() && value < U64
      modifies this
      ensures Valid() && Join(high, low) == value
      ensures |held| == |old(held)| + 3 && held[..|old(held)|] == old(held)
      ensures
        var before := Join(old(high), old(low));
        forall i :: |old(held)| <= i < |held| ==> held[i] >= if before < value then before else value
    {
      WriteLow(U32 - 1);
      WriteHigh(High(value));
      WriteLow(Low(value));
    }
  }
}
