/** What the solver guarantees between its steps, one clause a step, and that each step keeps it. */
module SolverInvariant {
  import opened Grids
  import opened Assignments
  import opened FiniteSets
  import opened Covers
  import opened Augmentation

  /** The part of the solver's state that its control flow turns on. */
  datatype Progress = Progress(v: View, o: Offsets, order: seq<nat>, r: nat, c: nat)

  function MinSize(rows: nat, cols: nat): nat { if rows < cols then rows else cols }

  ghost predicate Blank(m: Grid<Mark>) {
    forall i, j | 0 <= i < |m| && 0 <= j < |m[i]| :: m[i][j] == Normal
  }

  ghost function ZeroOffsets(rows: nat, cols: nat): Offsets {
    Offsets(seq(rows, _ => 0.0), seq(cols, _ => 0.0), 0.0)
  }

  ghost predicate AtStart(p: Progress, input: Grid<real>, rows: nat, cols: nat) {
    && ViewShaped(p.v, rows, cols) && p.v.cost == input && Blank(p.v.mask) && Uncovered(p.v)
    && p.order == [] && p.o == ZeroOffsets(rows, cols)
  }

  ghost predicate BeforeCovering(p: Progress, rows: nat, cols: nat) {
    Stars(p.v, rows, cols) && NoPrimes(p.v.mask) && Uncovered(p.v) && p.order == []
  }

  ghost predicate Unfinished(p: Progress, rows: nat, cols: nat) {
    |StarRows(p.v.mask)| < MinSize(rows, cols)
  }

  ghost predicate BeforeAugmenting(p: Progress, rows: nat, cols: nat) {
    && Stars(p.v, rows, cols) && Unpaired(p.v.mask, rows, cols, p.order, p.r, p.c)
    && forall i, j :: IsPrime(p.v.mask, i, j) ==> p.v.cost[i][j] == 0.0
  }

  ghost predicate BeforeShifting(p: Progress, rows: nat, cols: nat) {
    && Searching(p.v, rows, cols, p.order) && !HasUncoveredZero(p.v, rows, cols)
  }

  ghost predicate Finished(p: Progress, rows: nat, cols: nat) {
    Stars(p.v, rows, cols) && |StarRows(p.v.mask)| == MinSize(rows, cols)
  }

  /** The invariant of the driver loop: what holds when `step` is about to run. */
  ghost predicate At(step: nat, p: Progress, input: Grid<real>, rows: nat, cols: nat) {
    && step <= 5
    && (step == 1 ==> AtStart(p, input, rows, cols))
    && (step != 1 ==> OffsetsFor(input, p.v, p.o, rows, cols))
    && (step == 2 ==> BeforeCovering(p, rows, cols))
    && (step == 3 ==> Searching(p.v, rows, cols, p.order) && Unfinished(p, rows, cols))
    && (step == 4 ==> BeforeAugmenting(p, rows, cols) && Unfinished(p, rows, cols))
    && (step == 5 ==> BeforeShifting(p, rows, cols) && Unfinished(p, rows, cols))
    && (step == 0 ==> Finished(p, rows, cols))
  }

  lemma StarsFit(v: View, rows: nat, cols: nat)
    requires Stars(v, rows, cols)
    ensures |StarRows(v.mask)| <= MinSize(rows, cols)
  {
    SubsetSize(StarRows(v.mask), Below(rows));
    SubsetSize(StarCols(v.mask, cols), Below(cols));
  }

  lemma OrderFits(p: Progress, rows: nat, cols: nat)
    requires Chained(p.v.mask, p.order) && forall i | i in p.order :: i < rows
    ensures |p.order| <= rows
  {
    DistinctSize(p.order);
    SubsetSize(Elements(p.order), Below(rows));
  }

  ghost function Elements(s: seq<nat>): set<nat> { set i | i in s }

  lemma {:induction false} DistinctSize(s: seq<nat>)
    requires Distinct(s)
    ensures |Elements(s)| == |s|
  {
    if |s| > 0 {
      var n := |s| - 1;
      DistinctSize(s[..n]);
      assert s == s[..n] + [s[n]];
      assert Elements(s) == Elements(s[..n]) + {s[n]};
    }
  }

  lemma AfterStep1(p: Progress, q: Progress, input: Grid<real>, rows: nat, cols: nat)
    requires AtStart(p, input, rows, cols)
    requires q.v.cost == p.v.cost && q.v.rowCov == p.v.rowCov && q.v.colCov == p.v.colCov
    requires Stars(q.v, rows, cols) && NoPrimes(q.v.mask) && q.o == p.o && q.order == p.order
    ensures At(2, q, input, rows, cols)
  {
  }

  lemma AfterStep2(p: Progress, q: Progress, input: Grid<real>, rows: nat, cols: nat, next: nat)
    requires At(2, p, input, rows, cols)
    requires q.v.mask == p.v.mask && q.v.cost == p.v.cost && q.v.rowCov == p.v.rowCov && |q.v.colCov| == cols
    requires forall j | 0 <= j < cols :: q.v.colCov[j] <==> StarInCol(p.v.mask, j)
    requires q.o == p.o && q.order == []
    requires next == if |StarRows(p.v.mask)| >= MinSize(rows, cols) then 0 else 3
    ensures At(next, q, input, rows, cols)
  {
    CoverStarredColumns(p.v, q.v, rows, cols);
    StarsFit(p.v, rows, cols);
  }

  lemma SwapAfterStep3(p: Progress, q: Progress, input: Grid<real>, rows: nat, cols: nat, c': nat)
    requires At(3, p, input, rows, cols) && UncoveredZero(p.v, rows, cols, q.r, q.c)
    requires IsStar(p.v.mask, q.r, c') && q.v == Swapped(p.v, q.r, q.c, c')
    requires q.o == p.o && q.order == p.order + [q.r]
    ensures At(3, q, input, rows, cols) && StarRows(q.v.mask) == StarRows(p.v.mask)
  {
    SwapKeepsSearching(p.v, rows, cols, p.order, q.r, q.c, c');
    PrimeKeepsStars(p.v, rows, cols, p.order, q.r, q.c);
    PrimedOffsets(p, q, input, rows, cols);
  }

  /** Marking a prime leaves the starred lines, and so the offsets, alone. */
  lemma PrimedOffsets(p: Progress, q: Progress, input: Grid<real>, rows: nat, cols: nat)
    requires OffsetsFor(input, p.v, p.o, rows, cols) && ViewShaped(q.v, rows, cols)
    requires q.o == p.o && q.v.cost == p.v.cost
    requires forall i, j :: IsStar(q.v.mask, i, j) <==> IsStar(p.v.mask, i, j)
    ensures OffsetsFor(input, q.v, q.o, rows, cols)
  {
    assert forall i :: StarInRow(q.v.mask, i) <==> StarInRow(p.v.mask, i);
    assert forall j :: StarInCol(q.v.mask, j) <==> StarInCol(p.v.mask, j);
  }

  lemma PrimeAfterStep3(p: Progress, q: Progress, input: Grid<real>, rows: nat, cols: nat)
    requires At(3, p, input, rows, cols) && UncoveredZero(p.v, rows, cols, q.r, q.c)
    requires !StarInRow(p.v.mask, q.r)
    requires q.v == p.v.(mask := Marked(p.v.mask, q.r, q.c, Prime)) && q.o == p.o && q.order == p.order
    ensures At(4, q, input, rows, cols) && StarRows(q.v.mask) == StarRows(p.v.mask)
  {
    PrimeKeepsStars(p.v, rows, cols, p.order, q.r, q.c);
    PrimedOffsets(p, q, input, rows, cols);
    PrimedIsUnpaired(p, q, rows, cols);
  }

  lemma PrimedIsUnpaired(p: Progress, q: Progress, rows: nat, cols: nat)
    requires Searching(p.v, rows, cols, p.order) && UncoveredZero(p.v, rows, cols, q.r, q.c)
    requires !StarInRow(p.v.mask, q.r)
    requires q.v == p.v.(mask := Marked(p.v.mask, q.r, q.c, Prime)) && q.order == p.order
    ensures Unpaired(q.v.mask, rows, cols, q.order, q.r, q.c)
  {
    PrimeKeepsStars(p.v, rows, cols, p.order, q.r, q.c);
    assert IsPrime(q.v.mask, q.r, q.c);
    forall i | i in q.order ensures StarInRow(q.v.mask, i) && PrimeInRow(q.v.mask, i) {
      var j, k :| IsStar(p.v.mask, i, j) && IsPrime(p.v.mask, i, k);
      assert IsStar(q.v.mask, i, j) && IsPrime(q.v.mask, i, k);
    }
    forall t, j, k | 0 <= t < |q.order| && IsPrime(q.v.mask, q.order[t], j) && IsStar(q.v.mask, k, j)
      ensures k in q.order[..t]
    {
      assert IsPrime(p.v.mask, p.order[t], j) && IsStar(p.v.mask, k, j);
    }
  }

  lemma AfterStep4(p: Progress, q: Progress, input: Grid<real>, rows: nat, cols: nat)
    requires At(4, p, input, rows, cols)
    requires exists path, rank :: Maximal(p.v.mask, p.order, p.r, p.c, path, rank) && Augmented(p.v.mask, q.v.mask, rows, cols, path)
    requires q.v.cost == p.v.cost && |q.v.rowCov| == rows && |q.v.colCov| == cols && Uncovered(q.v)
    requires q.o == p.o && q.order == []
    ensures At(2, q, input, rows, cols)
    ensures |StarRows(q.v.mask)| == |StarRows(p.v.mask)| + 1
  {
    var path, rank :| Maximal(p.v.mask, p.order, p.r, p.c, path, rank) && Augmented(p.v.mask, q.v.mask, rows, cols, path);
    AugmentAddsOne(p.v.mask, q.v.mask, rows, cols, p.order, p.r, p.c, path, rank);
    AfterFlip(p, q, input, rows, cols, path);
  }

  lemma AfterFlip(p: Progress, q: Progress, input: Grid<real>, rows: nat, cols: nat, path: seq<Cell>)
    requires At(4, p, input, rows, cols) && Augmented(p.v.mask, q.v.mask, rows, cols, path)
    requires Independent(q.v.mask) && NoPrimes(q.v.mask) && |StarRows(q.v.mask)| == |StarCols(q.v.mask, cols)|
    requires StarRows(p.v.mask) <= StarRows(q.v.mask) && StarCols(p.v.mask, cols) <= StarCols(q.v.mask, cols)
    requires q.v.cost == p.v.cost && |q.v.rowCov| == rows && |q.v.colCov| == cols && Uncovered(q.v)
    requires q.o == p.o && q.order == []
    ensures At(2, q, input, rows, cols)
  {
    AugmentKeepsZeros(p.v.mask, q.v.mask, p.v.cost, rows, cols, path);
    assert IsPrime(p.v.mask, p.r, p.c);
    OffsetsAfterAugment(p, q, input, rows, cols);
  }

  lemma OffsetsAfterAugment(p: Progress, q: Progress, input: Grid<real>, rows: nat, cols: nat)
    requires OffsetsFor(input, p.v, p.o, rows, cols) && ViewShaped(q.v, rows, cols)
    requires q.v.cost == p.v.cost && q.o == p.o && p.r < rows && p.c < cols && p.v.cost[p.r][p.c] == 0.0
    requires StarRows(p.v.mask) <= StarRows(q.v.mask) && StarCols(p.v.mask, cols) <= StarCols(q.v.mask, cols)
    ensures OffsetsFor(input, q.v, q.o, rows, cols)
  {
    forall i | 0 <= i < rows && !StarInRow(q.v.mask, i) ensures q.o.row[i] == 0.0 {
      assert i !in StarRows(p.v.mask);
    }
    forall j | 0 <= j < cols && !StarInCol(q.v.mask, j) ensures q.o.col[j] == 0.0 {
      assert j !in StarCols(p.v.mask, cols);
    }
  }

  lemma AfterStep5(p: Progress, q: Progress, input: Grid<real>, rows: nat, cols: nat, h: real)
    requires At(5, p, input, rows, cols) && ViewShaped(q.v, rows, cols)
    requires IsSmallestUncovered(p.v, rows, cols, h) && ShiftedBy(p.v, q.v, rows, cols, h)
    requires q.o == Raised(p.o, p.v.rowCov, p.v.colCov, h) && q.order == p.order
    ensures At(3, q, input, rows, cols) && HasUncoveredZero(q.v, rows, cols)
  {
    ShiftKeepsSearching(p.v, q.v, rows, cols, p.order, h);
    ShiftKeepsOffsets(input, p.v, q.v, p.o, rows, cols, p.order, h);
  }

  // ----- when the zeros of the input already form a complete assignment -----

  ghost predicate ZerosForm(input: Grid<real>, z: Assignment, rows: nat, cols: nat) {
    && Shaped(input, rows, cols) && IsAssignment(z, rows, cols) && |z| == MinSize(rows, cols)
    && forall i: nat, j: nat | i < rows && j < cols :: input[i][j] == 0.0 <==> i in z && z[i] == j
  }

  ghost predicate StarredBy(m: Grid<Mark>, z: Assignment) {
    forall i: nat, j: nat :: IsStar(m, i, j) <==> i in z && z[i] == j
  }

  /** Step 1 settles such an input: the solver stops with exactly its zeros, whatever the other costs. */
  ghost predicate Settled(step: nat, p: Progress, input: Grid<real>, rows: nat, cols: nat) {
    forall z | ZerosForm(input, z, rows, cols) :: step <= 2 && (step != 1 ==> StarredBy(p.v.mask, z))
  }

  lemma GreedyIsSettled(p: Progress, input: Grid<real>, rows: nat, cols: nat)
    requires Stars(p.v, rows, cols) && p.v.cost == input
    requires forall i: nat, j: nat | i < rows && j < cols && input[i][j] == 0.0 ::
               StarInRow(p.v.mask, i) || StarInCol(p.v.mask, j)
    ensures Settled(2, p, input, rows, cols)
  {
    forall z | ZerosForm(input, z, rows, cols) ensures StarredBy(p.v.mask, z) {
      forall i: nat, j: nat ensures IsStar(p.v.mask, i, j) <==> i in z && z[i] == j {
        if i in z && z[i] == j {
          assert input[i][j] == 0.0;
          assert StarInRow(p.v.mask, i) || StarInCol(p.v.mask, j);
          if StarInRow(p.v.mask, i) {
            var l: nat :| IsStar(p.v.mask, i, l);
          } else {
            var k :| IsStar(p.v.mask, k, j);
          }
        }
      }
    }
  }

  lemma SettledIsFull(p: Progress, input: Grid<real>, rows: nat, cols: nat, z: Assignment)
    requires ZerosForm(input, z, rows, cols) && StarredBy(p.v.mask, z) && Shaped(p.v.mask, rows, cols)
    ensures |StarRows(p.v.mask)| == MinSize(rows, cols)
  {
    forall i: nat ensures i in StarRows(p.v.mask) <==> i in z {
      if i in z { assert IsStar(p.v.mask, i, z[i]); }
    }
    assert StarRows(p.v.mask) == z.Keys;
    assert |z| == |z.Keys|;
  }
}
