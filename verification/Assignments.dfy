/**
 * Assignments of rows to columns and their total cost.
 *
 * An assignment is an injective partial map from rows to columns. `Cheapest` is
 * the optimality argument behind the solver: a cost grid that equals the input
 * up to row offsets, column offsets and one shift certifies the assignment lying
 * on its zeros.
 */
module Assignments {
  import opened Grids

  type Assignment = map<nat, nat>

  ghost predicate IsAssignment(a: Assignment, rows: nat, cols: nat) {
    && (forall i | i in a :: i < rows && a[i] < cols)
    && (forall i, k | i in a && k in a && a[i] == a[k] :: i == k)
  }

  /** Total cost of the cells that `a` picks in the first n rows. */
  ghost function Total(cost: Grid<real>, a: Assignment, n: nat): real
    requires n <= |cost|
    requires forall i | i in a && i < n :: a[i] < |cost[i]|
  {
    if n == 0 then 0.0
    else Total(cost, a, n - 1) + if n - 1 in a then cost[n - 1][a[n - 1]] else 0.0
  }

  /** No assignment of the same size is cheaper than `a`. */
  ghost predicate IsCheapest(cost: Grid<real>, a: Assignment, rows: nat, cols: nat)
    requires Shaped(cost, rows, cols) && IsAssignment(a, rows, cols)
  {
    forall other: Assignment | IsAssignment(other, rows, cols) && |other| == |a| ::
      Total(cost, a, rows) <= Total(cost, other, rows)
  }

  // ----- offsets -----

  /** What the solver has added to and taken from the lines of the input so far. */
  datatype Offsets = Offsets(row: seq<real>, col: seq<real>, shift: real)

  ghost predicate Offsetting(input: Grid<real>, cost: Grid<real>, o: Offsets, rows: nat, cols: nat) {
    && Shaped(input, rows, cols) && Shaped(cost, rows, cols)
    && |o.row| == rows && |o.col| == cols
    && forall i, j | 0 <= i < rows && 0 <= j < cols ::
         cost[i][j] == input[i][j] + o.row[i] + o.col[j] - o.shift
  }

  ghost predicate AllNonNegative(s: seq<real>) {
    forall i | 0 <= i < |s| :: s[i] >= 0.0
  }

  ghost function RowSum(u: seq<real>, a: Assignment, n: nat): real
    requires n <= |u|
  {
    if n == 0 then 0.0 else RowSum(u, a, n - 1) + if n - 1 in a then u[n - 1] else 0.0
  }

  ghost function ColSum(v: seq<real>, a: Assignment, n: nat): real
    requires forall i | i in a && i < n :: a[i] < |v|
  {
    if n == 0 then 0.0 else ColSum(v, a, n - 1) + if n - 1 in a then v[a[n - 1]] else 0.0
  }

  ghost function Size(a: Assignment, n: nat): nat {
    if n == 0 then 0 else Size(a, n - 1) + if n - 1 in a then 1 else 0
  }

  ghost function Sum(s: seq<real>): real {
    if |s| == 0 then 0.0 else Sum(s[..|s| - 1]) + s[|s| - 1]
  }

  ghost function Repeat(x: real, n: nat): real {
    if n == 0 then 0.0 else Repeat(x, n - 1) + x
  }

  lemma {:induction false} SizeIsCardinality(a: Assignment, n: nat)
    ensures Size(a, n) == |set i | i in a && i < n|
  {
    if n == 0 {
      assert (set i | i in a && i < 0) == {};
    } else {
      SizeIsCardinality(a, n - 1);
      var before := set i | i in a && i < n - 1;
      assert (set i | i in a && i < n) == if n - 1 in a then before + {n - 1} else before;
    }
  }

  lemma {:induction false} TotalSplits(input: Grid<real>, cost: Grid<real>, o: Offsets,
                                       rows: nat, cols: nat, a: Assignment, n: nat)
    requires Offsetting(input, cost, o, rows, cols) && IsAssignment(a, rows, cols) && n <= rows
    ensures Total(input, a, n)
         == Total(cost, a, n) - RowSum(o.row, a, n) - ColSum(o.col, a, n) + Repeat(o.shift, Size(a, n))
  {
    if n != 0 { TotalSplits(input, cost, o, rows, cols, a, n - 1); }
  }

  lemma {:induction false} TotalNonNegative(cost: Grid<real>, rows: nat, cols: nat, a: Assignment, n: nat)
    requires Shaped(cost, rows, cols) && NonNegative(cost) && IsAssignment(a, rows, cols) && n <= rows
    ensures Total(cost, a, n) >= 0.0
  {
    if n != 0 { TotalNonNegative(cost, rows, cols, a, n - 1); }
  }

  lemma {:induction false} TotalOnZeros(cost: Grid<real>, rows: nat, cols: nat, a: Assignment, n: nat)
    requires Shaped(cost, rows, cols) && IsAssignment(a, rows, cols) && n <= rows
    requires forall i | i in a :: cost[i][a[i]] == 0.0
    ensures Total(cost, a, n) == 0.0
  {
    if n != 0 { TotalOnZeros(cost, rows, cols, a, n - 1); }
  }

  lemma {:induction false} RowSumBounded(u: seq<real>, a: Assignment, n: nat)
    requires n <= |u| && AllNonNegative(u)
    ensures RowSum(u, a, n) <= Sum(u[..n])
    ensures (forall i | 0 <= i < n && i !in a :: u[i] == 0.0) ==> RowSum(u, a, n) == Sum(u[..n])
  {
    if n != 0 {
      RowSumBounded(u, a, n - 1);
      assert u[..n][..n - 1] == u[..n - 1];
    }
  }

  lemma {:induction false} SumWithZero(v: seq<real>, k: nat)
    requires k < |v|
    ensures Sum(v[k := 0.0]) == Sum(v) - v[k]
  {
    var n := |v| - 1;
    if k < n {
      SumWithZero(v[..n], k);
      assert v[k := 0.0][..n] == v[..n][k := 0.0];
    } else {
      assert v[k := 0.0][..n] == v[..n];
    }
  }

  lemma {:induction false} SumOfZeros(v: seq<real>)
    requires forall j | 0 <= j < |v| :: v[j] == 0.0
    ensures Sum(v) == 0.0
  {
    if |v| != 0 { SumOfZeros(v[..|v| - 1]); }
  }

  lemma {:induction false} SumNonNegative(v: seq<real>)
    requires AllNonNegative(v)
    ensures Sum(v) >= 0.0
  {
    if |v| != 0 { SumNonNegative(v[..|v| - 1]); }
  }

  /** Changing an entry that no earlier row picks leaves the column sum alone. */
  lemma {:induction false} ColSumIgnores(v: seq<real>, a: Assignment, n: nat, k: nat)
    requires k < |v| && forall i | i in a && i < n :: a[i] < |v| && a[i] != k
    ensures ColSum(v[k := 0.0], a, n) == ColSum(v, a, n)
  {
    if n != 0 { ColSumIgnores(v, a, n - 1, k); }
  }

  lemma {:induction false} ColSumAtMost(v: seq<real>, a: Assignment, rows: nat, n: nat)
    requires IsAssignment(a, rows, |v|) && n <= rows && AllNonNegative(v)
    ensures ColSum(v, a, n) <= Sum(v)
    decreases n
  {
    if n == 0 {
      SumNonNegative(v);
    } else if n - 1 !in a {
      ColSumAtMost(v, a, rows, n - 1);
    } else {
      ColSumAtMost(v[a[n - 1] := 0.0], a, rows, n - 1);
      ColSumIgnores(v, a, n - 1, a[n - 1]);
      SumWithZero(v, a[n - 1]);
    }
  }

  /** One of the first n rows picks column j. */
  ghost predicate Picked(a: Assignment, n: nat, j: nat) { exists i :: i in a && i < n && a[i] == j }

  lemma {:induction false} ColSumExact(v: seq<real>, a: Assignment, rows: nat, n: nat)
    requires IsAssignment(a, rows, |v|) && n <= rows
    requires forall j | 0 <= j < |v| && v[j] != 0.0 :: Picked(a, n, j)
    ensures ColSum(v, a, n) == Sum(v)
    decreases n
  {
    if n == 0 {
      SumOfZeros(v);
    } else if n - 1 !in a {
      PickedBefore(v, a, n);
      ColSumExact(v, a, rows, n - 1);
    } else {
      var w := v[a[n - 1] := 0.0];
      PickedBefore(w, a, n);
      ColSumExact(w, a, rows, n - 1);
      ColSumIgnores(v, a, n - 1, a[n - 1]);
      SumWithZero(v, a[n - 1]);
    }
  }

  /** What row n - 1 does not pick was picked before. */
  lemma PickedBefore(v: seq<real>, a: Assignment, n: nat)
    requires n > 0 && forall j | 0 <= j < |v| && v[j] != 0.0 :: Picked(a, n, j)
    requires n - 1 in a ==> a[n - 1] < |v| && v[a[n - 1]] == 0.0
    ensures forall j | 0 <= j < |v| && v[j] != 0.0 :: Picked(a, n - 1, j)
  {
    forall j | 0 <= j < |v| && v[j] != 0.0 ensures Picked(a, n - 1, j) {
      var i :| i in a && i < n && a[i] == j;
      assert i < n - 1;
    }
  }

  /**
   * The dual certificate. `s` lies on zeros of a non-negative grid that is the
   * input plus non-negative line offsets, less a shift, where the lines `s` does
   * not use have offset zero. Then `s` is cheapest, whatever the shape.
   */
  lemma Cheapest(input: Grid<real>, cost: Grid<real>, o: Offsets, rows: nat, cols: nat, s: Assignment)
    requires Offsetting(input, cost, o, rows, cols) && IsAssignment(s, rows, cols)
    requires NonNegative(cost) && AllNonNegative(o.row) && AllNonNegative(o.col)
    requires forall i | i in s :: cost[i][s[i]] == 0.0
    requires forall i | 0 <= i < rows && i !in s :: o.row[i] == 0.0
    requires forall j | 0 <= j < cols && j !in s.Values :: o.col[j] == 0.0
    ensures IsCheapest(input, s, rows, cols)
  {
    forall a: Assignment | IsAssignment(a, rows, cols) && |a| == |s|
      ensures Total(input, s, rows) <= Total(input, a, rows)
    {
      TotalSplits(input, cost, o, rows, cols, a, rows);
      TotalSplits(input, cost, o, rows, cols, s, rows);
      TotalNonNegative(cost, rows, cols, a, rows);
      TotalOnZeros(cost, rows, cols, s, rows);
      SizeOfAll(a, rows, cols);
      SizeOfAll(s, rows, cols);
      RowSumBounded(o.row, a, rows);
      RowSumBounded(o.row, s, rows);
      ColSumAtMost(o.col, a, rows, rows);
      forall j | 0 <= j < cols && o.col[j] != 0.0 ensures Picked(s, rows, j) {
        assert j in s.Values;
      }
      ColSumExact(o.col, s, rows, rows);
    }
  }

  lemma SizeOfAll(a: Assignment, rows: nat, cols: nat)
    requires IsAssignment(a, rows, cols)
    ensures Size(a, rows) == |a|
  {
    SizeIsCardinality(a, rows);
    assert (set i | i in a && i < rows) == a.Keys;
  }
}
