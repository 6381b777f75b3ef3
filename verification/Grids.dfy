/** Rectangular grids of values: the snapshot of a two-dimensional array. */
module Grids {

  type Grid<T> = seq<seq<T>>

  predicate Shaped<T>(g: Grid<T>, rows: nat, cols: nat) {
    && |g| == rows
    && forall i | 0 <= i < rows :: |g[i]| == cols
  }

  ghost function GridOf<T>(a: array2<T>): (g: Grid<T>)
    reads a
    ensures Shaped(g, a.Length0, a.Length1)
    ensures forall i, j | 0 <= i < a.Length0 && 0 <= j < a.Length1 :: g[i][j] == a[i, j]
  {
    seq(a.Length0, i requires 0 <= i < a.Length0 reads a =>
      seq(a.Length1, j requires 0 <= j < a.Length1 reads a => a[i, j]))
  }

  ghost predicate NonNegative(g: Grid<real>) {
    forall i, j | 0 <= i < |g| && 0 <= j < |g[i]| :: g[i][j] >= 0.0
  }

  lemma SameGrid<T>(g: Grid<T>, h: Grid<T>, rows: nat, cols: nat)
    requires Shaped(g, rows, cols) && Shaped(h, rows, cols)
    requires forall i, j | 0 <= i < rows && 0 <= j < cols :: g[i][j] == h[i][j]
    ensures g == h
  {
    forall i | 0 <= i < rows ensures g[i] == h[i] {
      assert forall j | 0 <= j < cols :: g[i][j] == h[i][j];
    }
  }
}
