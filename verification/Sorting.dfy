/** Python's `sorted(..., key=...)`: a stable insertion sort by a strict order on keys. */
module Sorting {

  /** Lexicographic order on integer tuples of equal length. */
  predicate LexLess(a: seq<int>, b: seq<int>) {
    if a == [] || b == [] then a == [] && b != []
    else a[0] < b[0] || (a[0] == b[0] && LexLess(a[1..], b[1..]))
  }

  /** Lexicographic order on strings by code point. */
  predicate StrLess(a: string, b: string) {
    if a == [] || b == [] then a == [] && b != []
    else a[0] < b[0] || (a[0] == b[0] && StrLess(a[1..], b[1..]))
  }

  lemma {:induction false} StrLessTransitive(a: string, b: string, c: string)
    requires StrLess(a, b) && StrLess(b, c)
    ensures StrLess(a, c)
  {
    if a != [] && a[0] == b[0] == c[0] {
      StrLessTransitive(a[1..], b[1..], c[1..]);
    }
  }

  lemma {:induction false} StrLessIrreflexive(a: string)
    ensures !StrLess(a, a)
  {
    if a != [] {
      StrLessIrreflexive(a[1..]);
    }
  }

  /** Strings that first differ at position `k`. */
  lemma {:induction false} StrLessAt(a: string, b: string, k: nat)
    requires k < |a| && k < |b| && a[..k] == b[..k] && a[k] < b[k]
    ensures StrLess(a, b)
  {
    if k > 0 {
      assert a[0] == a[..k][0] == b[..k][0] == b[0];
      assert a[1..][..k - 1] == a[..k][1..] == b[..k][1..] == b[1..][..k - 1];
      StrLessAt(a[1..], b[1..], k - 1);
    }
  }

  function Insert<T>(lt: (T, T) -> bool, x: T, ys: seq<T>): (zs: seq<T>)
    ensures multiset(zs) == multiset([x]) + multiset(ys)
  {
    if ys == [] || !lt(ys[0], x) then
      [x] + ys
    else
      assert ys == [ys[0]] + ys[1..];
      [ys[0]] + Insert(lt, x, ys[1..])
  }

  function SortBy<T>(lt: (T, T) -> bool, xs: seq<T>): (ys: seq<T>)
    ensures multiset(ys) == multiset(xs)
  {
    if xs == [] then []
    else
      assert xs == [xs[0]] + xs[1..];
      Insert(lt, xs[0], SortBy(lt, xs[1..]))
  }

  /** `lt` compares keys: it is asymmetric, and what is not before is transitive. */
  ghost predicate IsKeyOrder<T(!new)>(lt: (T, T) -> bool) {
    && (forall a, b :: lt(a, b) ==> !lt(b, a))
    && forall a, b, c :: !lt(a, b) && !lt(b, c) ==> !lt(a, c)
  }

  /** No later element is before an earlier one. */
  ghost predicate IsSorted<T(!new)>(lt: (T, T) -> bool, xs: seq<T>) {
    forall i, j :: 0 <= i < j < |xs| ==> !lt(xs[j], xs[i])
  }

  /** The elements whose key is that of `x`, in order. */
  function SameKey<T>(lt: (T, T) -> bool, x: T, xs: seq<T>): seq<T> {
    if xs == [] then []
    else (if lt(x, xs[0]) || lt(xs[0], x) then [] else [xs[0]]) + SameKey(lt, x, xs[1..])
  }

  lemma {:induction false} InsertKeepsOrder<T(!new)>(lt: (T, T) -> bool, x: T, ys: seq<T>)
    requires IsKeyOrder(lt) && IsSorted(lt, ys)
    ensures IsSorted(lt, Insert(lt, x, ys))
  {
    var zs := Insert(lt, x, ys);
    if ys == [] {
    } else if !lt(ys[0], x) {
      forall j | 1 <= j < |zs|
        ensures !lt(zs[j], zs[0])
      {
        assert zs[j] == ys[j - 1] && !lt(ys[j - 1], ys[0]);
      }
    } else {
      InsertKeepsOrder(lt, x, ys[1..]);
      var rest := Insert(lt, x, ys[1..]);
      forall j | 1 <= j < |zs|
        ensures !lt(zs[j], zs[0])
      {
        assert rest[j - 1] in multiset(rest);
        assert rest[j - 1] == x || rest[j - 1] in ys[1..];
      }
    }
  }

  lemma {:induction false} InsertKeepsKeys<T(!new)>(lt: (T, T) -> bool, x: T, ys: seq<T>, k: T)
    requires IsKeyOrder(lt)
    ensures SameKey(lt, k, Insert(lt, x, ys)) == SameKey(lt, k, [x] + ys)
  {
    assert ([x] + ys)[1..] == ys;
    if ys != [] && lt(ys[0], x) {
      InsertKeepsKeys(lt, x, ys[1..], k);
      var rest := Insert(lt, x, ys[1..]);
      assert ([ys[0]] + rest)[1..] == rest;
      assert ([x] + ys[1..])[1..] == ys[1..];
    }
  }

  /** The result is in key order, and elements of one key keep their order. */
  lemma {:induction false} SortByIsStableSort<T(!new)>(lt: (T, T) -> bool, xs: seq<T>, k: T)
    requires IsKeyOrder(lt)
    ensures IsSorted(lt, SortBy(lt, xs))
    ensures SameKey(lt, k, SortBy(lt, xs)) == SameKey(lt, k, xs)
  {
    if xs != [] {
      SortByIsStableSort(lt, xs[1..], k);
      var rest := SortBy(lt, xs[1..]);
      InsertKeepsOrder(lt, xs[0], rest);
      InsertKeepsKeys(lt, xs[0], rest, k);
      assert ([xs[0]] + rest)[1..] == rest;
    }
  }

  lemma {:induction false} LexLessIsTotal(a: seq<int>, b: seq<int>)
    ensures LexLess(a, b) ==> !LexLess(b, a)
    ensures !LexLess(a, b) && !LexLess(b, a) ==> a == b
  {
    if a != [] && b != [] {
      LexLessIsTotal(a[1..], b[1..]);
      assert a == [a[0]] + a[1..] && b == [b[0]] + b[1..];
    }
  }

  lemma {:induction false} LexLessIsTransitive(a: seq<int>, b: seq<int>, c: seq<int>)
    requires LexLess(a, b) && LexLess(b, c)
    ensures LexLess(a, c)
  {
    if a != [] && a[0] == b[0] == c[0] {
      LexLessIsTransitive(a[1..], b[1..], c[1..]);
    }
  }

  lemma {:induction false} StrLessIsTotal(a: string, b: string)
    ensures StrLess(a, b) ==> !StrLess(b, a)
    ensures !StrLess(a, b) && !StrLess(b, a) ==> a == b
  {
    if a != [] && b != [] {
      StrLessIsTotal(a[1..], b[1..]);
      assert a == [a[0]] + a[1..] && b == [b[0]] + b[1..];
    }
  }

  /** Comparing by a tuple of integers, then by a name, compares keys. */
  lemma TupleThenName(ka: seq<int>, na: string, kb: seq<int>, nb: string, kc: seq<int>, nc: string)
    ensures TupleNameLess(ka, na, kb, nb) ==> !TupleNameLess(kb, nb, ka, na)
    ensures !TupleNameLess(ka, na, kb, nb) && !TupleNameLess(kb, nb, kc, nc) ==> !TupleNameLess(ka, na, kc, nc)
  {
    LexLessIsTotal(ka, kb);
    LexLessIsTotal(kb, kc);
    LexLessIsTotal(ka, kc);
    StrLessIsTotal(na, nb);
    StrLessIsTotal(nb, nc);
    StrLessIsTotal(na, nc);
    if LexLess(kc, kb) && LexLess(kb, ka) {
      LexLessIsTransitive(kc, kb, ka);
    }
    if StrLess(nc, nb) && StrLess(nb, na) {
      StrLessTransitive(nc, nb, na);
    }
  }

  predicate TupleNameLess(ka: seq<int>, na: string, kb: seq<int>, nb: string) {
    LexLess(ka, kb) || (ka == kb && StrLess(na, nb))
  }
}
