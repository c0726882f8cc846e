/** Small integer helpers: magnitudes, loop counts, and products stepped one factor at a time. */
module Arithmetic {
  function Abs(x: int): nat
  {
    if x < 0 then -x else x
  }

  /** The number of passes of `for (i = 0; i < x; ++i)`. */
  function Max0(x: int): nat
  {
    if x > 0 then x else 0
  }

  lemma MulSucc(a: nat, b: nat)
    ensures (a + 1) * b == a * b + b
  {
  }

  lemma MulPositive(a: nat, b: nat)
    ensures a * b > 0 <==> a > 0 && b > 0
  {
    if a > 0 && b > 0 {
      assert a * b >= b;
    }
  }
}

/**
 * The distinct values a function takes on a block of records: the tool
 * behind "every record gets its own key".
 */
module Counting {
  import opened ByteCodec
  import opened Arithmetic

  /** The values `f` takes on the records `(t, i)` with `t < m` and `i < n`. */
  ghost function Image2<T>(f: (Int32, Int32) -> T, m: nat, n: nat): set<T>
    requires m <= TWO_31 && n <= TWO_31
  {
    set t: Int32, i: Int32 | 0 <= t < m && 0 <= i < n :: f(t, i)
  }

  /** `g` reads every record `(t, i)` with `t < m` and `i < n` back from its value under `f`. */
  ghost predicate LeftInverse<T>(f: (Int32, Int32) -> T, g: T -> (Int32, Int32), m: nat, n: nat)
  {
    forall t: Int32, i: Int32 :: 0 <= t < m && 0 <= i < n ==> g(f(t, i)) == (t, i)
  }

  /** The values `f` takes on records `(t, i)` with `i < n`, for one `t`. */
  ghost function RowImage<T>(f: (Int32, Int32) -> T, t: Int32, n: nat): set<T>
    requires n <= TWO_31
  {
    set i: Int32 | 0 <= i < n :: f(t, i)
  }

  /** Adding row `m - 1` to the first `m - 1` rows adds that row's values. */
  lemma Image2AddRow<T>(f: (Int32, Int32) -> T, m: nat, n: nat)
    requires 0 < m <= TWO_31 && n <= TWO_31
    ensures Image2(f, m, n) == Image2(f, m - 1, n) + RowImage(f, (m - 1) as Int32, n)
  {
    forall x | x in Image2(f, m, n)
      ensures x in Image2(f, m - 1, n) + RowImage(f, (m - 1) as Int32, n)
    {
      var t: Int32, i: Int32 :| 0 <= t < m && 0 <= i < n && f(t, i) == x;
      if t == m - 1 {
        assert x in RowImage(f, t, n);
      } else {
        assert x in Image2(f, m - 1, n);
      }
    }
  }

  /** With a left inverse, row `t` of `n` records takes `n` distinct values. */
  lemma {:induction false} RowImageCount<T>(f: (Int32, Int32) -> T, g: T -> (Int32, Int32), t: Int32, n: nat)
    requires n <= TWO_31
    requires forall i: Int32 :: 0 <= i < n ==> g(f(t, i)) == (t, i)
    ensures |RowImage(f, t, n)| == n
  {
    if n > 0 {
      var last := (n - 1) as Int32;
      RowImageCount(f, g, t, n - 1);
      assert RowImage(f, t, n) == RowImage(f, t, n - 1) + {f(t, last)};
      assert f(t, last) !in RowImage(f, t, n - 1);
    }
  }

  /** Under a left inverse, no value of row `m - 1` is taken on an earlier row. */
  lemma NewRowIsDisjoint<T>(f: (Int32, Int32) -> T, g: T -> (Int32, Int32), m: nat, n: nat)
    requires 0 < m <= TWO_31 && n <= TWO_31
    requires LeftInverse(f, g, m, n)
    ensures Image2(f, m - 1, n) !! RowImage(f, (m - 1) as Int32, n)
  {
  }

  /** With a left inverse, the block of `m * n` records takes `m * n` distinct values. */
  lemma {:induction false} Image2Count<T>(f: (Int32, Int32) -> T, g: T -> (Int32, Int32), m: nat, n: nat)
    requires m <= TWO_31 && n <= TWO_31
    requires LeftInverse(f, g, m, n)
    ensures |Image2(f, m, n)| == m * n
  {
    if m > 0 {
      var row := (m - 1) as Int32;
      Image2Count(f, g, m - 1, n);
      RowImageCount(f, g, row, n);
      Image2AddRow(f, m, n);
      NewRowIsDisjoint(f, g, m, n);
      DisjointUnionSize(Image2(f, m - 1, n), RowImage(f, row, n));
      MulSucc(m - 1, n);
    }
  }

  lemma DisjointUnionSize<T>(a: set<T>, b: set<T>)
    requires a !! b
    ensures |a + b| == |a| + |b|
  {
  }

  /** `f` on records `0 .. n - 1`, in order. */
  function Tabulate<T>(f: Int32 -> T, n: nat): seq<T>
    requires n <= TWO_31
  {
    if n == 0 then [] else Tabulate(f, n - 1) + [f((n - 1) as Int32)]
  }

  lemma {:induction false} TabulateIndex<T>(f: Int32 -> T, n: nat)
    requires n <= TWO_31
    ensures |Tabulate(f, n)| == n
    ensures forall i: Int32 :: 0 <= i < n ==> Tabulate(f, n)[i] == f(i)
  {
    if n > 0 {
      TabulateIndex(f, n - 1);
      assert forall i: Int32 :: 0 <= i < n - 1 ==> Tabulate(f, n)[i] == Tabulate(f, n - 1)[i];
    }
  }
}
