/** Small shared vocabulary: optional values, results, and rounding up to an alignment. */
module Basics {

  /** One more than the largest 32-bit unsigned integer. */
  const U32: nat := 0x1_0000_0000

  datatype Option<+T> = None | Some(value: T)

  datatype Result<+T, +E> = Ok(value: T) | Err(error: E)

  function Max(a: int, b: int): int {
    if a < b then b else a
  }

  function Min(a: int, b: int): int {
    if a < b then a else b
  }

  /** 2 to the power of `n`. */
  function Pow2(n: nat): (p: nat)
    ensures p > 0
  {
    if n == 0 then 1 else 2 * Pow2(n - 1)
  }

  /** `_align_up` of the planner scripts. */
  function AlignUp(value: nat, alignment: nat): nat {
    if alignment <= 1 then value else (value + alignment - 1) / alignment * alignment
  }

  /** `AlignUp` is the least multiple of the alignment that is not below the value. */
  lemma AlignUpIsLeast(value: nat, alignment: nat)
    requires alignment > 0
    ensures AlignUp(value, alignment) % alignment == 0
    ensures value <= AlignUp(value, alignment) < value + alignment
    ensures forall m: nat :: m % alignment == 0 && value <= m ==> AlignUp(value, alignment) <= m
  {
    if alignment > 1 {
      var q := (value + alignment - 1) / alignment;
      var r := (value + alignment - 1) % alignment;
      assert q * alignment + r == value + alignment - 1;
      MultipleHasNoRemainder(q, alignment);
      forall m: nat | m % alignment == 0 && value <= m
        ensures q * alignment <= m
      {
        var k := m / alignment;
        assert k * alignment == m;
        if k < q {
          MulLe(k + 1, q, alignment);
          assert false;
        }
        MulLe(q, k, alignment);
      }
    }
  }

  lemma MulLe(a: int, b: int, c: nat)
    requires a <= b
    ensures a * c <= b * c
  {
  }

  lemma MultipleHasNoRemainder(q: int, m: int)
    requires m > 0
    ensures (q * m) % m == 0 && (q * m) / m == q
  {
    var quotient, remainder := (q * m) / m, (q * m) % m;
    assert quotient * m + remainder == q * m;
    assert (quotient - q) * m == -remainder;
    if quotient < q {
      MulLe(quotient - q, -1, m);
    } else if quotient > q {
      MulLe(1, quotient - q, m);
    }
  }

  /** The unique quotient and remainder of `q * m + r`. */
  lemma DivModUnique(q: int, m: int, r: int)
    requires 0 <= r < m
    ensures (q * m + r) / m == q && (q * m + r) % m == r
  {
    var x := q * m + r;
    assert x / m * m + x % m == x;
    assert (x / m - q) * m == r - x % m;
    if x / m < q {
      MulLe(x / m - q, -1, m);
    } else if x / m > q {
      MulLe(1, x / m - q, m);
    }
  }
}
