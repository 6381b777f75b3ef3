/** The Hungarian solver: five steps over a cost matrix, a mask and two cover arrays. */
module MunkresSolver {
  import opened Grids
  import opened Assignments
  import opened Covers
  import opened Augmentation
  import opened SolverInvariant
  import opened SolverSteps

  datatype Cost = Finite(value: real) | Infinite

  // ----- the input with its infinite cells replaced -----

  function Max(a: real, b: real): real { if b > a then b else a }

  /** The largest finite cost of a row, or 0 when there is none above it. */
  ghost function RowHigh(row: seq<Cost>): real {
    if |row| == 0 then 0.0
    else
      var c := row[|row| - 1];
      if c.Finite? then Max(RowHigh(row[..|row| - 1]), c.value) else RowHigh(row[..|row| - 1])
  }

  ghost function High(g: Grid<Cost>): real {
    if |g| == 0 then 0.0 else Max(High(g[..|g| - 1]), RowHigh(g[|g| - 1]))
  }

  /** Infinite cells become one more than the largest finite cost. */
  ghost function Substituted(g: Grid<Cost>): (s: Grid<real>) {
    seq(|g|, i requires 0 <= i < |g| => seq(|g[i]|, j requires 0 <= j < |g[i]| =>
      if g[i][j].Finite? then g[i][j].value else High(g) + 1.0))
  }

  ghost predicate NonNegativeCosts(g: Grid<Cost>) {
    forall i, j | 0 <= i < |g| && 0 <= j < |g[i]| && g[i][j].Finite? :: g[i][j].value >= 0.0
  }

  lemma {:induction false} RowHighBounds(row: seq<Cost>, j: nat)
    requires j < |row|
    ensures RowHigh(row) >= 0.0 && (row[j].Finite? ==> row[j].value <= RowHigh(row))
  {
    if j < |row| - 1 {
      RowHighBounds(row[..|row| - 1], j);
    } else if |row| > 1 {
      RowHighBounds(row[..|row| - 1], 0);
    }
  }

  lemma {:induction false} HighBounds(g: Grid<Cost>)
    ensures High(g) >= 0.0
    ensures forall i, j | 0 <= i < |g| && 0 <= j < |g[i]| && g[i][j].Finite? :: g[i][j].value <= High(g)
  {
    if |g| > 0 {
      var n := |g| - 1;
      HighBounds(g[..n]);
      forall i, j | 0 <= i < |g| && 0 <= j < |g[i]| && g[i][j].Finite? ensures g[i][j].value <= High(g) {
        if i < n { assert g[i] == g[..n][i]; } else { RowHighBounds(g[n], j); }
      }
    }
  }

  /** A substituted cell costs more than every finite one. */
  lemma SubstitutedAboveFinite(g: Grid<Cost>, i: nat, j: nat, k: nat, l: nat)
    requires i < |g| && j < |g[i]| && g[i][j].Infinite?
    requires k < |g| && l < |g[k]| && g[k][l].Finite?
    ensures Substituted(g)[i][j] > Substituted(g)[k][l]
  {
    HighBounds(g);
  }

  ghost predicate ZeroFreeCosts(g: Grid<Cost>) {
    forall i, j | 0 <= i < |g| && 0 <= j < |g[i]| && g[i][j].Finite? :: g[i][j].value != 0.0
  }

  lemma SubstitutedTame(g: Grid<Cost>)
    requires NonNegativeCosts(g) || ZeroFreeCosts(g)
    ensures Tame(Substituted(g))
  {
    HighBounds(g);
  }

  // ----- the assignment the stars stand for -----

  ghost function StarCol(m: Grid<Mark>, i: nat): (j: nat)
    requires StarInRow(m, i)
    ensures IsStar(m, i, j)
  {
    var j: nat :| IsStar(m, i, j); j
  }

  ghost function StarMap(m: Grid<Mark>): Assignment {
    map i: nat | i < |m| && StarInRow(m, i) :: StarCol(m, i)
  }

  lemma StarMapIsAssignment(m: Grid<Mark>, rows: nat, cols: nat)
    requires Shaped(m, rows, cols) && Independent(m)
    ensures IsAssignment(StarMap(m), rows, cols)
    ensures |StarMap(m)| == |StarRows(m)| && StarMap(m).Keys == StarRows(m)
    ensures StarMap(m).Values == StarCols(m, cols)
    ensures forall i: nat, j: nat :: IsStar(m, i, j) <==> i in StarMap(m) && StarMap(m)[i] == j
  {
    var a := StarMap(m);
    assert a.Keys == StarRows(m);
    forall j: nat ensures j in a.Values <==> j in StarCols(m, cols) {
      if j in a.Values {
        var i :| i in a && a[i] == j;
        assert IsStar(m, i, j);
      }
      if j in StarCols(m, cols) {
        var i :| IsStar(m, i, j);
        assert i in a && a[i] == j;
      }
    }
  }

  /** The stars at the end of a run of the solver on this input. */
  ghost predicate SolvedBy(input: Grid<real>, a: Assignment, rows: nat, cols: nat) {
    exists run: seq<Stage> :: IsCompleteRun(run, input, rows, cols) && a == StarMap(run[|run| - 1].p.v.mask)
  }

  /** An input has one answer, whatever the signs of the costs and however many assignments are cheapest. */
  lemma SolvedOnce(input: Grid<real>, a: Assignment, b: Assignment, rows: nat, cols: nat)
    requires SolvedBy(input, a, rows, cols) && SolvedBy(input, b, rows, cols)
    ensures a == b
  {
    var run: seq<Stage> :| IsCompleteRun(run, input, rows, cols) && a == StarMap(run[|run| - 1].p.v.mask);
    var run': seq<Stage> :| IsCompleteRun(run', input, rows, cols) && b == StarMap(run'[|run'| - 1].p.v.mask);
    CompleteRunsAgree(run, run', input, rows, cols);
  }

  /** The solver's verdict: chosen cells hold 0, all others -1. */
  ghost predicate Verdict(result: Grid<Cost>, a: Assignment, rows: nat, cols: nat) {
    && Shaped(result, rows, cols)
    && forall i, j | 0 <= i < rows && 0 <= j < cols ::
         result[i][j] == if i in a && a[i] == j then Finite(0.0) else Finite(-1.0)
  }

  // ----- one star more -----

  lemma NextRow(v: View, rows: nat, cols: nat, row: nat)
    requires GreedyStars(v, rows, cols, row, cols)
    ensures GreedyStars(v, rows, cols, row + 1, 0)
  {
    assert forall i: nat, j: nat | j < cols :: Precedes(i, j, row, cols) <==> Precedes(i, j, row + 1, 0);
  }

  /** A cell that is passed over because a line of it has a star. */
  lemma PassOver(v: View, rows: nat, cols: nat, r: nat, c: nat)
    requires GreedyStars(v, rows, cols, r, c) && r < rows && c < cols
    requires v.cost[r][c] == 0.0 ==> StarInRow(v.mask, r) || StarInCol(v.mask, c)
    ensures GreedyStars(v, rows, cols, r, c + 1)
  {
    if v.cost[r][c] == 0.0 {
      if StarInRow(v.mask, r) {
        var l :| IsStar(v.mask, r, l);
        assert Precedes(r, l, r, c);
      } else {
        var k :| IsStar(v.mask, k, c);
        assert Precedes(k, c, r, c);
      }
    }
  }

  /** Every zero shares a line with a star. */
  lemma GreedyLeavesNone(v: View, rows: nat, cols: nat)
    requires GreedyStars(v, rows, cols, rows, 0)
    ensures forall i: nat, j: nat | i < rows && j < cols && v.cost[i][j] == 0.0 :: StarInRow(v.mask, i) || StarInCol(v.mask, j)
  {
    forall i: nat, j: nat | i < rows && j < cols && v.cost[i][j] == 0.0 ensures StarInRow(v.mask, i) || StarInCol(v.mask, j) {
      assert Precedes(i, j, rows, 0);
    }
  }

  /** What starring a cell of a star-free row and column adds. */
  lemma OneStarMore(m: Grid<Mark>, rows: nat, cols: nat, r: nat, c: nat)
    requires Shaped(m, rows, cols) && NoPrimes(m) && r < rows && c < cols
    ensures var w := Marked(m, r, c, Star);
      && (forall i, j :: IsStar(w, i, j) <==> IsStar(m, i, j) || (i == r && j == c))
      && (forall i: nat | i < rows :: StarInRow(w, i) <==> StarInRow(m, i) || i == r)
      && (forall j: nat | j < cols :: StarInCol(w, j) <==> StarInCol(m, j) || j == c)
      && NoPrimes(w)
  {
    var w := Marked(m, r, c, Star);
    assert forall i, j :: IsStar(w, i, j) <==> IsStar(m, i, j) || (i == r && j == c);
    assert forall i, j :: IsPrime(w, i, j) ==> IsPrime(m, i, j);
    assert IsStar(w, r, c);
    forall i: nat | i < rows ensures StarInRow(w, i) <==> StarInRow(m, i) || i == r {
      if StarInRow(m, i) { var j :| IsStar(m, i, j); assert IsStar(w, i, j); }
    }
    forall j: nat | j < cols ensures StarInCol(w, j) <==> StarInCol(m, j) || j == c {
      if StarInCol(m, j) { var i :| IsStar(m, i, j); assert IsStar(w, i, j); }
    }
  }

  lemma AddStar(v: View, rows: nat, cols: nat, r: nat, c: nat)
    requires Stars(v, rows, cols) && NoPrimes(v.mask) && r < rows && c < cols && v.cost[r][c] == 0.0
    requires !StarInRow(v.mask, r) && !StarInCol(v.mask, c) && Greedy(v, rows, cols, r, c)
    ensures Stars(v.(mask := Marked(v.mask, r, c, Star)), rows, cols)
    ensures NoPrimes(Marked(v.mask, r, c, Star))
    ensures Greedy(v.(mask := Marked(v.mask, r, c, Star)), rows, cols, r, c + 1)
  {
    StarKeepsStars(v, rows, cols, r, c);
    StarKeepsGreedy(v, rows, cols, r, c);
  }

  lemma StarKeepsStars(v: View, rows: nat, cols: nat, r: nat, c: nat)
    requires Stars(v, rows, cols) && NoPrimes(v.mask) && r < rows && c < cols && v.cost[r][c] == 0.0
    requires !StarInRow(v.mask, r) && !StarInCol(v.mask, c)
    ensures Stars(v.(mask := Marked(v.mask, r, c, Star)), rows, cols) && NoPrimes(Marked(v.mask, r, c, Star))
  {
    OneStarMore(v.mask, rows, cols, r, c);
    var m, w := v.mask, Marked(v.mask, r, c, Star);
    assert StarRows(w) == StarRows(m) + {r} && StarCols(w, cols) == StarCols(m, cols) + {c};
  }

  lemma StarKeepsGreedy(v: View, rows: nat, cols: nat, r: nat, c: nat)
    requires ViewShaped(v, rows, cols) && NoPrimes(v.mask) && r < rows && c < cols && Greedy(v, rows, cols, r, c)
    ensures Greedy(v.(mask := Marked(v.mask, r, c, Star)), rows, cols, r, c + 1)
  {
    OneStarMore(v.mask, rows, cols, r, c);
    var w := Marked(v.mask, r, c, Star);
    forall i: nat, j: nat | i < rows && j < cols && Precedes(i, j, r, c + 1) && v.cost[i][j] == 0.0
      ensures IsStar(w, i, j) || StarBefore(w, i, j)
    {
      if (i, j) != (r, c) { assert Precedes(i, j, r, c); }
    }
  }

  // ----- counting the stars while covering their columns -----

  /** `seen` holds the starred rows among the cells before (row,col); their columns are covered. */
  ghost predicate Counted(m: Grid<Mark>, cov: seq<bool>, seen: set<nat>, row: nat, col: nat) {
    && (forall i :: i in seen ==> i <= row && StarInRow(m, i))
    && (row in seen ==> exists j :: j < col && IsStar(m, row, j))
    && (forall i, j :: IsStar(m, i, j) && (i < row || (i == row && j < col)) ==> i in seen && j < |cov| && cov[j])
    && (forall j | 0 <= j < |cov| && cov[j] :: StarInCol(m, j))
  }

  lemma CountCell(m: Grid<Mark>, cov: seq<bool>, seen: set<nat>, row: nat, col: nat)
    requires Counted(m, cov, seen, row, col) && OnePerRow(m)
    requires row < |m| && col < |m[row]| && col < |cov|
    ensures m[row][col] == Star ==> row !in seen && Counted(m, cov[col := true], seen + {row}, row, col + 1)
    ensures m[row][col] != Star ==> Counted(m, cov, seen, row, col + 1)
  {
    if m[row][col] == Star {
      assert IsStar(m, row, col);
    }
  }

  // ----- the driver's measure: stars missing, rows uncovered, steps until one of the two falls -----

  ghost function Weight(step: nat, p: Progress, rows: nat, cols: nat): nat
    requires ViewShaped(p.v, rows, cols)
  {
    match step
    case 1 => 6
    case 2 => 5
    case 3 => if HasUncoveredZero(p.v, rows, cols) then 2 else 4
    case 4 => 1
    case 5 => 3
    case _ => 0
  }

  ghost predicate Advanced(step: nat, p: Progress, next: nat, q: Progress, rows: nat, cols: nat)
    requires ViewShaped(p.v, rows, cols) && ViewShaped(q.v, rows, cols)
  {
    var before, after := |StarRows(p.v.mask)|, |StarRows(q.v.mask)|;
    || before < after
    || (before == after && |p.order| < |q.order|)
    || (before == after && |p.order| == |q.order| && Weight(next, q, rows, cols) < Weight(step, p, rows, cols))
  }

  lemma StartHasNoStars(p: Progress, input: Grid<real>, rows: nat, cols: nat)
    requires AtStart(p, input, rows, cols)
    ensures |StarRows(p.v.mask)| == 0
  {
    assert StarRows(p.v.mask) == {};
  }

  class Munkres {
    var matrix: array2<real>
    var mask: array2<Mark>
    var rowMask: array<bool>
    var colMask: array<bool>
    var saveRow: nat
    var saveCol: nat

    /** The covered rows in the order in which they were covered. */
    ghost var order: seq<nat>
    /** What has been added to and taken from the lines of the input. */
    ghost var offsets: Offsets

    ghost predicate Valid()
      reads this
    {
      && mask.Length0 == matrix.Length0 == rowMask.Length
      && mask.Length1 == matrix.Length1 == colMask.Length
      && rowMask != colMask
    }

    ghost function V(): View
      reads this, matrix, mask, rowMask, colMask
    {
      View(GridOf(matrix), GridOf(mask), rowMask[..], colMask[..])
    }

    ghost function Rows(): nat reads this { matrix.Length0 }
    ghost function Cols(): nat reads this { matrix.Length1 }

    constructor ()
      ensures Valid() && fresh(matrix) && fresh(mask) && fresh(rowMask) && fresh(colMask)
      ensures mask.Length0 == 0
    {
      matrix := new real[0, 0];
      mask := new Mark[0, 0];
      rowMask := new bool[0];
      colMask := new bool[0];
      saveRow, saveCol := 0, 0;
      order, offsets := [], Offsets([], [], 0.0);
    }

    /** The first uncovered cell in row-major order that holds `item`. */
    method FindUncoveredInMatrix(item: real) returns (found: bool, row: nat, col: nat)
      requires Valid()
      ensures found ==> row < Rows() && col < Cols() && !rowMask[row] && !colMask[col] && matrix[row, col] == item
      ensures forall i: nat, j: nat | i < Rows() && j < Cols() && !rowMask[i] && !colMask[j]
                && (found ==> i < row || (i == row && j < col)) :: matrix[i, j] != item
    {
      row, col := 0, 0;
      while row < matrix.Length0
        invariant row <= Rows()
        invariant forall i: nat, j: nat | i < row && j < Cols() && !rowMask[i] && !colMask[j] :: matrix[i, j] != item
      {
        if !rowMask[row] {
          col := 0;
          while col < matrix.Length1
            invariant col <= Cols()
            invariant forall j: nat | j < col && !colMask[j] :: matrix[row, j] != item
          {
            if !colMask[col] && matrix[row, col] == item {
              return true, row, col;
            }
            col := col + 1;
          }
        }
        row := row + 1;
      }
      found := false;
    }

    /** Whether the row or the column of a cell already has a star. */
    method IsStarred(row: nat, col: nat) returns (isStarred: bool)
      requires Valid() && row < Rows() && col < Cols()
      ensures isStarred <==> StarInRow(V().mask, row) || StarInCol(V().mask, col)
    {
      ghost var m := V().mask;
      for nrow := 0 to matrix.Length0
        invariant forall i | 0 <= i < nrow :: !IsStar(m, i, col)
      {
        if mask[nrow, col] == Star {
          assert IsStar(m, nrow, col);
          return true;
        }
      }
      for ncol := 0 to matrix.Length1
        invariant forall j | 0 <= j < ncol :: !IsStar(m, row, j)
      {
        if mask[row, ncol] == Star {
          assert IsStar(m, row, ncol);
          return true;
        }
      }
      isStarred := false;
    }

    /** The body of step 1: star a zero whose row and column have no star. */
    method StarIfFree(row: nat, col: nat)
      requires Valid() && row < Rows() && col < Cols()
      requires GreedyStars(V(), Rows(), Cols(), row, col)
      modifies mask
      ensures GreedyStars(V(), Rows(), Cols(), row, col + 1)
    {
      ghost var before := V();
      if matrix[row, col] == 0.0 {
        var isStarred := IsStarred(row, col);
        if isStarred {
          PassOver(before, Rows(), Cols(), row, col);
        } else {
          mask[row, col] := Star;
          SameGrid(V().mask, Marked(before.mask, row, col, Star), Rows(), Cols());
          AddStar(before, Rows(), Cols(), row, col);
          assert V() == before.(mask := Marked(before.mask, row, col, Star));
        }
      } else {
        PassOver(before, Rows(), Cols(), row, col);
      }
    }

    /** Stars zeros greedily, row by row, skipping lines that have a star. */
    method Step1() returns (next: nat)
      requires Valid()
      requires forall i, j | 0 <= i < Rows() && 0 <= j < Cols() :: mask[i, j] == Normal
      modifies mask
      ensures next == 2
      ensures GreedyStars(V(), Rows(), Cols(), Rows(), 0)
    {
      assert StarRows(V().mask) == {} && StarCols(V().mask, Cols()) == {};
      var row := 0;
      while row < matrix.Length0
        invariant row <= Rows()
        invariant GreedyStars(V(), Rows(), Cols(), row, 0)
      {
        var col := 0;
        while col < matrix.Length1
          invariant col <= Cols()
          invariant GreedyStars(V(), Rows(), Cols(), row, col)
        {
          StarIfFree(row, col);
          col := col + 1;
        }
        NextRow(V(), Rows(), Cols(), row);
        row := row + 1;
      }
      next := 2;
    }

    /** The body of step 2: covers the column of a star and counts it. */
    method CoverIfStar(row: nat, col: nat, ghost seen: set<nat>) returns (isStar: bool)
      requires Valid() && row < Rows() && col < Cols()
      requires OnePerRow(V().mask) && Counted(V().mask, colMask[..], seen, row, col)
      modifies colMask
      ensures V().mask == old(V().mask)
      ensures V().rowCov == old(V().rowCov)
      ensures isStar ==> row !in seen
      ensures Counted(V().mask, colMask[..], if isStar then seen + {row} else seen, row, col + 1)
    {
      CountCell(V().mask, colMask[..], seen, row, col);
      isStar := mask[row, col] == Star;
      if isStar {
        ghost var before := colMask[..];
        colMask[col] := true;
        assert colMask[..] == before[col := true];
      }
    }

    /** Covers the starred columns; done when there are as many stars as lines on the shorter side. */
    method Step2() returns (next: nat)
      requires Valid() && Independent(V().mask) && Uncovered(V())
      modifies colMask, `order
      ensures V().rowCov == old(V().rowCov) && order == []
      ensures forall j | 0 <= j < Cols() :: colMask[j] <==> StarInCol(V().mask, j)
      ensures next == if |StarRows(V().mask)| >= MinSize(Rows(), Cols()) then 0 else 3
    {
      ghost var m := V().mask;
      ghost var seen: set<nat> := {};
      var coverCount := 0;
      var row := 0;
      while row < matrix.Length0
        invariant row <= Rows() && coverCount == |seen|
        invariant V().mask == m && Counted(m, colMask[..], seen, row, 0)
      {
        var col := 0;
        while col < matrix.Length1
          invariant col <= Cols() && coverCount == |seen|
          invariant V().mask == m && Counted(m, colMask[..], seen, row, col)
        {
          var isStar := CoverIfStar(row, col, seen);
          if isStar {
            coverCount := coverCount + 1;
            seen := seen + {row};
          }
          col := col + 1;
        }
        assert Counted(m, colMask[..], seen, row + 1, 0);
        row := row + 1;
      }
      assert seen == StarRows(m);
      order := [];
      next := if coverCount >= MinSize(matrix.Length0, matrix.Length1) then 0 else 3;
    }

    method PrimeSaved()
      requires Valid() && saveRow < Rows() && saveCol < Cols()
      modifies mask
      ensures V() == old(V()).(mask := Marked(old(V()).mask, saveRow, saveCol, Prime))
    {
      ghost var m := V().mask;
      mask[saveRow, saveCol] := Prime;
      SameGrid(V().mask, Marked(m, saveRow, saveCol, Prime), Rows(), Cols());
    }

    /** Step 3.1: primes the first uncovered zero. */
    method PrimeZero() returns (found: bool)
      requires Valid()
      modifies this`saveRow, this`saveCol, mask
      ensures found <==> HasUncoveredZero(old(V()), Rows(), Cols())
      ensures !found ==> V() == old(V())
      ensures found ==> FirstUncoveredZero(old(V()), Rows(), Cols(), saveRow, saveCol)
      ensures found ==> V() == old(V()).(mask := Marked(old(V()).mask, saveRow, saveCol, Prime))
    {
      ghost var before := V();
      var row, col;
      found, row, col := FindUncoveredInMatrix(0.0);
      if found {
        assert UncoveredZero(before, Rows(), Cols(), row, col);
        assert FirstUncoveredZero(before, Rows(), Cols(), row, col);
        saveRow, saveCol := row, col;
        PrimeSaved();
      } else {
        assert forall r, c :: !UncoveredZero(before, Rows(), Cols(), r, c);
      }
    }

    method StarOfRow(row: nat) returns (found: bool, col: nat)
      requires Valid() && row < Rows()
      ensures found ==> IsStar(V().mask, row, col)
      ensures !found ==> !StarInRow(V().mask, row)
    {
      ghost var m := V().mask;
      for ncol := 0 to matrix.Length1
        invariant forall j | 0 <= j < ncol :: !IsStar(m, row, j)
      {
        if mask[row, ncol] == Star {
          return true, ncol;
        }
      }
      found, col := false, 0;
    }

    /** The saved row is covered in place of a column. */
    method CoverRowFor(col: nat)
      requires Valid() && saveRow < Rows() && col < Cols()
      modifies rowMask, colMask
      ensures V() == old(V()).(rowCov := old(V()).rowCov[saveRow := true], colCov := old(V()).colCov[col := false])
    {
      rowMask[saveRow] := true;
      colMask[col] := false;
    }

    /**
     * Primes an uncovered zero. If its row has a star, covers the row and uncovers
     * the star's column (3 again); if not, an augmenting path starts there (4);
     * without an uncovered zero the costs must be shifted (5).
     */
    method Step3() returns (next: nat)
      requires Valid() && Searching(V(), Rows(), Cols(), order)
      modifies this`saveRow, this`saveCol, this`order, mask, rowMask, colMask
      ensures next == 3 || next == 4 || next == 5
      ensures next == 5 <==> !HasUncoveredZero(old(V()), Rows(), Cols())
      ensures next == 5 ==> V() == old(V()) && order == old(order)
      ensures next != 5 ==> FirstUncoveredZero(old(V()), Rows(), Cols(), saveRow, saveCol)
      ensures next == 3 ==> (
                && order == old(order) + [saveRow]
                && exists c': nat :: IsStar(old(V()).mask, saveRow, c')
                                  && V() == Swapped(old(V()), saveRow, saveCol, c'))
      ensures next == 4 ==> (
                && order == old(order) && !StarInRow(old(V()).mask, saveRow)
                && V() == old(V()).(mask := Marked(old(V()).mask, saveRow, saveCol, Prime)))
    {
      ghost var before := V();
      var found := PrimeZero();
      if !found {
        return 5;
      }
      PrimeKeepsStars(before, Rows(), Cols(), order, saveRow, saveCol);
      var starred, ncol := StarOfRow(saveRow);
      if starred {
        assert IsStar(before.mask, saveRow, ncol);
        CoverRowFor(ncol);
        order := order + [saveRow];
        assert V() == Swapped(before, saveRow, saveCol, ncol);
        return 3;
      }
      assert !StarInRow(before.mask, saveRow);
      next := 4;
    }

    method PairInList(needle: Cell, haystack: seq<Cell>) returns (found: bool)
      ensures found <==> needle in haystack
    {
      for i := 0 to |haystack|
        invariant needle !in haystack[..i]
      {
        if needle == haystack[i] {
          return true;
        }
      }
      found := false;
    }

    /** The first cell of column `col` with a star that is not on the path. */
    method NextStar(col: nat, path: seq<Cell>) returns (madePair: bool, row: nat)
      requires Valid() && col < Cols()
      ensures madePair ==> IsStar(V().mask, row, col) && (row, col) !in path
      ensures madePair ==> forall i: nat | i < row :: IsStar(V().mask, i, col) ==> (i, col) in path
      ensures !madePair ==> forall i: nat :: IsStar(V().mask, i, col) ==> (i, col) in path
    {
      madePair, row := false, 0;
      while row < matrix.Length0
        invariant row <= Rows()
        invariant forall i: nat | i < row :: IsStar(V().mask, i, col) ==> (i, col) in path
      {
        if mask[row, col] == Star {
          var seen := PairInList((row, col), path);
          if !seen {
            return true, row;
          }
        }
        row := row + 1;
      }
    }

    /** The first cell of row `row` with a prime that is not on the path. */
    method NextPrime(row: nat, path: seq<Cell>) returns (madePair: bool, col: nat)
      requires Valid() && row < Rows()
      ensures madePair ==> IsPrime(V().mask, row, col) && (row, col) !in path
      ensures madePair ==> forall j: nat | j < col :: IsPrime(V().mask, row, j) ==> (row, j) in path
      ensures !madePair ==> forall j: nat :: IsPrime(V().mask, row, j) ==> (row, j) in path
    {
      madePair, col := false, 0;
      while col < matrix.Length1
        invariant col <= Cols()
        invariant forall j: nat | j < col :: IsPrime(V().mask, row, j) ==> (row, j) in path
      {
        if mask[row, col] == Prime {
          var seen := PairInList((row, col), path);
          if !seen {
            return true, col;
          }
        }
        col := col + 1;
      }
    }

    /** Second half of a round of step 4.1: appends the star found and the prime in its row. */
    method AppendPair(path: seq<Cell>, ghost rank: seq<nat>, row: nat, starCol: nat)
      returns (madePair: bool, longer: seq<Cell>, ghost rank': seq<nat>)
      requires Valid() && Unpaired(V().mask, Rows(), Cols(), order, saveRow, saveCol)
      requires Alternating(V().mask, order, saveRow, saveCol, path, rank) && |path| % 2 == 1
      requires starCol == path[|path| - 1].1 && row < Rows() && IsStar(V().mask, row, starCol)
      ensures madePair && |longer| == |path| + 2
      ensures Alternating(V().mask, order, saveRow, saveCol, longer, rank')
      ensures rank'[|rank'| - 1] < rank[|rank| - 1]
    {
      ghost var at := StarRound(V().mask, Rows(), Cols(), order, saveRow, saveCol, path, rank, row, starCol);
      longer := path + [(row, starCol)];
      var col;
      madePair, col := NextPrime(row, longer);
      longer, rank' := longer + [(row, col)], rank + [at] + [at];
    }

    lemma StaysOdd(n: nat)
      requires n % 2 == 1
      ensures (n + 2) % 2 == 1
    {
    }

    /** One round of step 4.1: the star below the last prime, and the prime in its row. */
    method ExtendPath(path: seq<Cell>, ghost rank: seq<nat>) returns (madePair: bool, longer: seq<Cell>, ghost rank': seq<nat>)
      requires Valid() && Unpaired(V().mask, Rows(), Cols(), order, saveRow, saveCol)
      requires Alternating(V().mask, order, saveRow, saveCol, path, rank) && |path| % 2 == 1
      ensures Alternating(V().mask, order, saveRow, saveCol, longer, rank') && |longer| % 2 == 1
      ensures !madePair ==> !StarInCol(V().mask, longer[|longer| - 1].1)
      ensures if madePair then rank'[|rank'| - 1] < rank[|rank| - 1] else rank' == rank
    {
      LastIsPrime(V().mask, Rows(), Cols(), order, saveRow, saveCol, path, rank);
      var col := path[|path| - 1].1;
      var row;
      madePair, row := NextStar(col, path);
      if madePair {
        madePair, longer, rank' := AppendPair(path, rank, row, col);
        StaysOdd(|path|);
      } else {
        longer, rank' := path, rank;
        NoStarAfter(V().mask, Rows(), Cols(), order, saveRow, saveCol, path, rank, col);
      }
    }

    /** Step 4.1: the alternating path of primes and stars from the unpaired prime. */
    method BuildPath() returns (path: seq<Cell>, ghost rank: seq<nat>)
      requires Valid() && Unpaired(V().mask, Rows(), Cols(), order, saveRow, saveCol)
      ensures Maximal(V().mask, order, saveRow, saveCol, path, rank)
      ensures |path| % 2 == 1 && path[0] == (saveRow, saveCol) && !StarInCol(V().mask, path[|path| - 1].1)
    {
      path := [(saveRow, saveCol)];
      rank := [|order|];
      StartPath(V().mask, Rows(), Cols(), order, saveRow, saveCol);
      var madePair := true;
      while madePair
        invariant Alternating(V().mask, order, saveRow, saveCol, path, rank) && |path| % 2 == 1
        invariant !madePair ==> !StarInCol(V().mask, path[|path| - 1].1)
        decreases rank[|rank| - 1], madePair
      {
        madePair, path, rank := ExtendPath(path, rank);
      }
    }

    /** Step 4.2 and 4.3: unstars the stars of the path and stars its primes. */
    method FlipPath(path: seq<Cell>)
      requires Valid() && Distinct(path)
      requires forall k | 0 <= k < |path| :: path[k].0 < Rows() && path[k].1 < Cols()
      modifies mask
      ensures forall i: nat, j: nat | i < Rows() && j < Cols() ::
                mask[i, j] == if (i, j) !in path || old(mask[i, j]) == Normal then old(mask[i, j])
                              else if old(mask[i, j]) == Star then Normal else Star
    {
      for k := 0 to |path|
        invariant forall i: nat, j: nat | i < Rows() && j < Cols() ::
                    mask[i, j] == if (i, j) !in path[..k] || old(mask[i, j]) == Normal then old(mask[i, j])
                                  else if old(mask[i, j]) == Star then Normal else Star
      {
        var (row, col) := path[k];
        if mask[row, col] == Star {
          mask[row, col] := Normal;
        } else if mask[row, col] == Prime {
          mask[row, col] := Star;
        }
        assert path[..k + 1] == path[..k] + [path[k]];
      }
    }

    method ErasePrimes()
      requires Valid()
      modifies mask
      ensures forall i, j | 0 <= i < Rows() && 0 <= j < Cols() ::
                mask[i, j] == if old(mask[i, j]) == Prime then Normal else old(mask[i, j])
    {
      for row := 0 to mask.Length0
        invariant forall i, j | 0 <= i < Rows() && 0 <= j < Cols() ::
                    mask[i, j] == if i < row && old(mask[i, j]) == Prime then Normal else old(mask[i, j])
      {
        for col := 0 to mask.Length1
          invariant forall i, j | 0 <= i < Rows() && 0 <= j < Cols() ::
                      mask[i, j] == if (i < row || (i == row && j < col)) && old(mask[i, j]) == Prime then Normal else old(mask[i, j])
        {
          if mask[row, col] == Prime {
            mask[row, col] := Normal;
          }
        }
      }
    }

    method FlipAndErase(path: seq<Cell>)
      requires Valid() && Distinct(path)
      requires forall k | 0 <= k < |path| :: IsPrime(V().mask, path[k].0, path[k].1) || IsStar(V().mask, path[k].0, path[k].1)
      modifies mask
      ensures Augmented(old(V()).mask, V().mask, Rows(), Cols(), path)
    {
      ghost var m := V().mask;
      FlipPath(path);
      ErasePrimes();
      forall i: nat, j: nat | i < Rows() && j < Cols() && (i, j) in path ensures m[i][j] != Normal {
        var k :| 0 <= k < |path| && path[k] == (i, j);
        assert IsPrime(m, path[k].0, path[k].1) || IsStar(m, path[k].0, path[k].1);
      }
    }

    method UncoverAll()
      requires Valid()
      modifies rowMask, colMask
      ensures Uncovered(V()) && V().mask == old(V().mask)
    {
      for i := 0 to rowMask.Length
        invariant forall k | 0 <= k < i :: !rowMask[k]
      {
        rowMask[i] := false;
      }
      for i := 0 to colMask.Length
        invariant forall k | 0 <= k < rowMask.Length :: !rowMask[k]
        invariant forall k | 0 <= k < i :: !colMask[k]
      {
        colMask[i] := false;
      }
    }

    /** Flips the path of the unpaired prime, erases the other primes and uncovers all lines. */
    method Step4() returns (next: nat)
      requires Valid() && Unpaired(V().mask, Rows(), Cols(), order, saveRow, saveCol)
      modifies mask, rowMask, colMask
      ensures next == 2 && Uncovered(V())
      ensures exists path, rank :: Maximal(old(V()).mask, order, saveRow, saveCol, path, rank)
                                && Augmented(old(V()).mask, V().mask, Rows(), Cols(), path)
    {
      ghost var before := V().mask;
      var path, rank := BuildPath();
      PathIsSimple(before, order, saveRow, saveCol, path, rank);
      FlipAndErase(path);
      UncoverAll();
      assert Maximal(before, order, saveRow, saveCol, path, rank) && Augmented(before, V().mask, Rows(), Cols(), path);
      next := 2;
    }

    /** First part of step 5. No cost in question is 0, so 0 can stand for `none yet`. */
    method SmallestUncovered() returns (h: real)
      requires Valid() && !HasUncoveredZero(V(), Rows(), Cols())
      requires exists i, j :: 0 <= i < Rows() && 0 <= j < Cols() && !rowMask[i] && !colMask[j]
      ensures IsSmallestUncovered(V(), Rows(), Cols(), h)
    {
      ghost var v := V();
      ghost var rows, cols := Rows(), Cols();
      h := 0.0;
      var row := 0;
      while row < matrix.Length0
        invariant row <= rows
        invariant h != 0.0 ==> exists i: nat, j: nat :: i < rows && j < cols && !v.rowCov[i] && !v.colCov[j] && v.cost[i][j] == h
        invariant forall i: nat, j: nat | i < row && j < cols && !v.rowCov[i] && !v.colCov[j] :: h != 0.0 && h <= v.cost[i][j]
      {
        if !rowMask[row] {
          var col := 0;
          while col < matrix.Length1
            invariant col <= cols
            invariant h != 0.0 ==> exists i: nat, j: nat :: i < rows && j < cols && !v.rowCov[i] && !v.colCov[j] && v.cost[i][j] == h
            invariant forall i: nat, j: nat | i < rows && j < cols && (i < row || (i == row && j < col))
                        && !v.rowCov[i] && !v.colCov[j] :: h != 0.0 && h <= v.cost[i][j]
          {
            if !colMask[col] {
              assert !UncoveredZero(v, rows, cols, row, col);
              if (h > matrix[row, col] && matrix[row, col] != 0.0) || h == 0.0 {
                h := matrix[row, col];
                assert v.cost[row][col] == h && !v.rowCov[row] && !v.colCov[col];
              }
            }
            col := col + 1;
          }
        }
        row := row + 1;
      }
    }

    method AddToCoveredRows(h: real)
      requires Valid()
      modifies matrix
      ensures forall i, j | 0 <= i < Rows() && 0 <= j < Cols() ::
                matrix[i, j] == old(matrix[i, j]) + if rowMask[i] then h else 0.0
    {
      for row := 0 to matrix.Length0
        invariant forall i, j | 0 <= i < Rows() && 0 <= j < Cols() ::
                    matrix[i, j] == old(matrix[i, j]) + if i < row && rowMask[i] then h else 0.0
      {
        if rowMask[row] {
          for col := 0 to matrix.Length1
            invariant forall i, j | 0 <= i < Rows() && 0 <= j < Cols() ::
                        matrix[i, j] == old(matrix[i, j]) + if rowMask[i] && (i < row || (i == row && j < col)) then h else 0.0
          {
            matrix[row, col] := matrix[row, col] + h;
          }
        }
      }
    }

    method SubtractFromUncoveredColumns(h: real)
      requires Valid()
      modifies matrix
      ensures forall i, j | 0 <= i < Rows() && 0 <= j < Cols() ::
                matrix[i, j] == old(matrix[i, j]) - if colMask[j] then 0.0 else h
    {
      for col := 0 to matrix.Length1
        invariant forall i, j | 0 <= i < Rows() && 0 <= j < Cols() ::
                    matrix[i, j] == old(matrix[i, j]) - if j < col && !colMask[j] then h else 0.0
      {
        if !colMask[col] {
          for row := 0 to matrix.Length0
            invariant forall i, j | 0 <= i < Rows() && 0 <= j < Cols() ::
                        matrix[i, j] == old(matrix[i, j]) - if !colMask[j] && (j < col || (j == col && i < row)) then h else 0.0
          {
            matrix[row, col] := matrix[row, col] - h;
          }
        }
      }
    }

    method ShiftCosts(h: real)
      requires Valid()
      modifies matrix
      ensures ShiftedBy(old(V()), V(), Rows(), Cols(), h)
    {
      AddToCoveredRows(h);
      SubtractFromUncoveredColumns(h);
    }

    /** Makes a new zero: shifts the costs by the smallest uncovered one. */
    method Step5() returns (next: nat, ghost h: real)
      requires Valid() && !HasUncoveredZero(V(), Rows(), Cols())
      requires exists i, j :: 0 <= i < Rows() && 0 <= j < Cols() && !rowMask[i] && !colMask[j]
      requires |offsets.row| == Rows() && |offsets.col| == Cols()
      modifies matrix, `offsets
      ensures next == 3
      ensures IsSmallestUncovered(old(V()), Rows(), Cols(), h) && ShiftedBy(old(V()), V(), Rows(), Cols(), h)
      ensures offsets == Raised(old(offsets), V().rowCov, V().colCov, h)
    {
      var smallest := SmallestUncovered();
      h := smallest;
      ShiftCosts(smallest);
      offsets := Raised(offsets, V().rowCov, V().colCov, h);
      next := 3;
    }

    ghost function P(): Progress
      reads this, matrix, mask, rowMask, colMask
    {
      Progress(V(), offsets, order, saveRow, saveCol)
    }

    /** Step 1 from the start. */
    method Turn1(ghost input: Grid<real>) returns (next: nat)
      requires Valid() && At(1, P(), input, Rows(), Cols())
      modifies this`saveRow, this`saveCol, this`order, this`offsets, matrix, mask, rowMask, colMask
      ensures At(next, P(), input, Rows(), Cols())
      ensures Follows(Stage(1, old(P())), Stage(next, P()), Rows(), Cols())
      ensures Advanced(1, old(P()), next, P(), Rows(), Cols())
      ensures Settled(1, old(P()), input, Rows(), Cols()) ==> Settled(next, P(), input, Rows(), Cols())
    {
      ghost var p := P();
      StartHasNoStars(p, input, Rows(), Cols());
      next := Step1();
      GreedyLeavesNone(V(), Rows(), Cols());
      AfterStep1(p, P(), input, Rows(), Cols());
      GreedyIsSettled(P(), input, Rows(), Cols());
    }

    /** Step 2 either finishes or starts a search. */
    method Turn2(ghost input: Grid<real>) returns (next: nat)
      requires Valid() && At(2, P(), input, Rows(), Cols())
      modifies this`saveRow, this`saveCol, this`order, this`offsets, matrix, mask, rowMask, colMask
      ensures At(next, P(), input, Rows(), Cols())
      ensures Follows(Stage(2, old(P())), Stage(next, P()), Rows(), Cols())
      ensures Advanced(2, old(P()), next, P(), Rows(), Cols())
      ensures Settled(2, old(P()), input, Rows(), Cols()) ==> Settled(next, P(), input, Rows(), Cols())
    {
      ghost var p := P();
      next := Step2();
      AfterStep2(p, P(), input, Rows(), Cols(), next);
      forall z | ZerosForm(input, z, Rows(), Cols()) && StarredBy(p.v.mask, z) ensures next == 0 {
        SettledIsFull(p, input, Rows(), Cols(), z);
      }
    }

    /** Step 3 covers one more row, or leads to an augmentation or a shift. */
    method Turn3(ghost input: Grid<real>) returns (next: nat)
      requires Valid() && At(3, P(), input, Rows(), Cols())
      modifies this`saveRow, this`saveCol, this`order, this`offsets, matrix, mask, rowMask, colMask
      ensures At(next, P(), input, Rows(), Cols())
      ensures Follows(Stage(3, old(P())), Stage(next, P()), Rows(), Cols())
      ensures Advanced(3, old(P()), next, P(), Rows(), Cols())
    {
      ghost var p := P();
      next := Step3();
      if next == 3 {
        ghost var c': nat :| IsStar(p.v.mask, saveRow, c') && V() == Swapped(p.v, saveRow, saveCol, c');
        SwapAfterStep3(p, P(), input, Rows(), Cols(), c');
      } else if next == 4 {
        PrimeAfterStep3(p, P(), input, Rows(), Cols());
      }
    }

    /** Step 4 adds one star. */
    method Turn4(ghost input: Grid<real>) returns (next: nat)
      requires Valid() && At(4, P(), input, Rows(), Cols())
      modifies this`saveRow, this`saveCol, this`order, this`offsets, matrix, mask, rowMask, colMask
      ensures At(next, P(), input, Rows(), Cols())
      ensures Follows(Stage(4, old(P())), Stage(next, P()), Rows(), Cols())
      ensures Advanced(4, old(P()), next, P(), Rows(), Cols())
    {
      ghost var p := P();
      next := Step4();
      order := [];
      AfterStep4(p, P(), input, Rows(), Cols());
    }

    /** Step 5 makes an uncovered zero. */
    method Turn5(ghost input: Grid<real>) returns (next: nat)
      requires Valid() && At(5, P(), input, Rows(), Cols())
      modifies this`saveRow, this`saveCol, this`order, this`offsets, matrix, mask, rowMask, colMask
      ensures At(next, P(), input, Rows(), Cols())
      ensures Follows(Stage(5, old(P())), Stage(next, P()), Rows(), Cols())
      ensures Advanced(5, old(P()), next, P(), Rows(), Cols())
    {
      ghost var p := P();
      SomeCellUncovered(p.v, Rows(), Cols(), p.order);
      ghost var h;
      next, h := Step5();
      AfterStep5(p, P(), input, Rows(), Cols(), h);
    }

    /** One turn of the driver: the switch over the step number. */
    method RunStep(step: nat, ghost input: Grid<real>) returns (next: nat)
      requires 1 <= step
      requires Valid() && At(step, P(), input, Rows(), Cols())
      modifies this`saveRow, this`saveCol, this`order, this`offsets, matrix, mask, rowMask, colMask
      ensures At(next, P(), input, Rows(), Cols())
      ensures Follows(Stage(step, old(P())), Stage(next, P()), Rows(), Cols())
      ensures Advanced(step, old(P()), next, P(), Rows(), Cols())
      ensures Settled(step, old(P()), input, Rows(), Cols()) ==> Settled(next, P(), input, Rows(), Cols())
    {
      match step
      case 1 => next := Turn1(input);
      case 2 => next := Turn2(input);
      case 3 => next := Turn3(input);
      case 4 => next := Turn4(input);
      case _ => next := Turn5(input);
    }

    /** The driver loop; it ends for every real matrix, whatever the signs. */
    method Run(ghost input: Grid<real>) returns (ghost run: seq<Stage>)
      requires Valid() && At(1, P(), input, Rows(), Cols())
      modifies this`saveRow, this`saveCol, this`order, this`offsets, matrix, mask, rowMask, colMask
      ensures At(0, P(), input, Rows(), Cols()) && Settled(0, P(), input, Rows(), Cols())
      ensures IsCompleteRun(run, input, Rows(), Cols())
      ensures run[0] == Stage(1, old(P())) && run[|run| - 1] == Stage(0, P())
    {
      var notDone, step := true, 1;
      run := [Stage(1, P())];
      while notDone
        invariant At(step, P(), input, Rows(), Cols()) && Settled(step, P(), input, Rows(), Cols())
        invariant IsRun(run, input, Rows(), Cols()) && run[0] == Stage(1, old(P())) && run[|run| - 1] == Stage(step, P())
        invariant !notDone ==> step == 0
        decreases notDone, MinSize(Rows(), Cols()) - |StarRows(V().mask)|, Rows() - |order|, Weight(step, P(), Rows(), Cols())
      {
        if step == 0 {
          notDone := false;
        } else {
          Bounded(step, P(), input, Rows(), Cols());
          step := RunStep(step, input);
          RunOn(run, Stage(step, P()), input, Rows(), Cols());
          run := run + [Stage(step, P())];
        }
      }
    }

    /** The largest finite cost, at least 0. */
    method HighValue(m: array2<Cost>) returns (high: real)
      ensures high == High(GridOf(m))
    {
      ghost var g := GridOf(m);
      high := 0.0;
      for row := 0 to m.Length0
        invariant high == High(g[..row])
      {
        assert g[..row + 1][..row] == g[..row];
        HighBounds(g[..row]);
        for col := 0 to m.Length1
          invariant high == Max(High(g[..row]), RowHigh(g[row][..col]))
        {
          assert g[row][..col + 1][..col] == g[row][..col];
          if m[row, col].Finite? && m[row, col].value > high {
            high := m[row, col].value;
          }
        }
        assert g[row][..m.Length1] == g[row];
      }
      assert g[..m.Length0] == g;
    }

    method ReplaceInfinite(m: array2<Cost>, high: real)
      modifies m
      ensures forall i, j | 0 <= i < m.Length0 && 0 <= j < m.Length1 ::
                m[i, j] == if old(m[i, j]).Infinite? then Finite(high) else old(m[i, j])
    {
      for row := 0 to m.Length0
        invariant forall i, j | 0 <= i < m.Length0 && 0 <= j < m.Length1 ::
                    m[i, j] == if i < row && old(m[i, j]).Infinite? then Finite(high) else old(m[i, j])
      {
        for col := 0 to m.Length1
          invariant forall i, j | 0 <= i < m.Length0 && 0 <= j < m.Length1 ::
                      m[i, j] == if (i < row || (i == row && j < col)) && old(m[i, j]).Infinite? then Finite(high) else old(m[i, j])
        {
          if m[row, col].Infinite? {
            m[row, col] := Finite(high);
          }
        }
      }
    }

    method Costs(m: array2<Cost>) returns (c: array2<real>)
      requires forall i, j | 0 <= i < m.Length0 && 0 <= j < m.Length1 :: m[i, j].Finite?
      ensures fresh(c) && c.Length0 == m.Length0 && c.Length1 == m.Length1
      ensures forall i, j | 0 <= i < c.Length0 && 0 <= j < c.Length1 :: c[i, j] == m[i, j].value
    {
      c := new real[m.Length0, m.Length1];
      for row := 0 to m.Length0
        invariant forall i, j | 0 <= i < row && 0 <= j < c.Length1 :: c[i, j] == m[i, j].value
      {
        for col := 0 to m.Length1
          invariant forall i, j | 0 <= i < c.Length0 && 0 <= j < c.Length1 && (i < row || (i == row && j < col)) ::
                      c[i, j] == m[i, j].value
        {
          c[row, col] := m[row, col].value;
        }
      }
    }

    /** A mask of the new size that keeps what the old one held. */
    method Resized(rows: nat, cols: nat) returns (fresher: array2<Mark>)
      ensures fresh(fresher) && fresher.Length0 == rows && fresher.Length1 == cols
      ensures forall i, j | 0 <= i < rows && 0 <= j < cols ::
                fresher[i, j] == if i < mask.Length0 && j < mask.Length1 then mask[i, j] else Normal
    {
      fresher := new Mark[rows, cols];
      for row := 0 to rows
        invariant forall i, j | 0 <= i < row && 0 <= j < cols ::
                    fresher[i, j] == if i < mask.Length0 && j < mask.Length1 then mask[i, j] else Normal
      {
        for col := 0 to cols
          invariant forall i, j | 0 <= i < rows && 0 <= j < cols && (i < row || (i == row && j < col)) ::
                      fresher[i, j] == if i < mask.Length0 && j < mask.Length1 then mask[i, j] else Normal
        {
          fresher[row, col] := if row < mask.Length0 && col < mask.Length1 then mask[row, col] else Normal;
        }
      }
    }

    /** Takes over the costs, resizes the mask and clears the covers. */
    method Load(m: array2<Cost>)
      requires forall i, j | 0 <= i < m.Length0 && 0 <= j < m.Length1 :: m[i, j].Finite?
      requires forall i: nat, j: nat | i < mask.Length0 && j < mask.Length1 && i < m.Length0 && j < m.Length1 ::
                 mask[i, j] == Normal
      modifies this
      ensures Valid() && fresh(matrix) && fresh(mask) && fresh(rowMask) && fresh(colMask)
      ensures Rows() == m.Length0 && Cols() == m.Length1
      ensures forall i, j | 0 <= i < Rows() && 0 <= j < Cols() :: matrix[i, j] == m[i, j].value
      ensures forall i, j | 0 <= i < Rows() && 0 <= j < Cols() :: mask[i, j] == Normal
      ensures Uncovered(V())
      ensures order == [] && offsets == ZeroOffsets(Rows(), Cols())
    {
      matrix := Costs(m);
      mask := Resized(m.Length0, m.Length1);
      rowMask := new bool[m.Length0];
      colMask := new bool[m.Length1];
      UncoverAll();
      order, offsets := [], ZeroOffsets(m.Length0, m.Length1);
    }

    /** Writes 0 into the cells of the stars and -1 into all others. */
    method Store(m: array2<Cost>)
      requires Valid() && m.Length0 == Rows() && m.Length1 == Cols()
      modifies m
      ensures forall i, j | 0 <= i < Rows() && 0 <= j < Cols() ::
                m[i, j] == if mask[i, j] == Star then Finite(0.0) else Finite(-1.0)
    {
      for row := 0 to m.Length0
        invariant forall i, j | 0 <= i < row && 0 <= j < Cols() ::
                    m[i, j] == if mask[i, j] == Star then Finite(0.0) else Finite(-1.0)
      {
        for col := 0 to m.Length1
          invariant forall i, j | 0 <= i < Rows() && 0 <= j < Cols() && (i < row || (i == row && j < col)) ::
                      m[i, j] == if mask[i, j] == Star then Finite(0.0) else Finite(-1.0)
        {
          m[row, col] := if mask[row, col] == Star then Finite(0.0) else Finite(-1.0);
        }
      }
    }

    /** Everything `Solve` does before its loop. */
    method Prepare(m: array2<Cost>)
      requires forall i: nat, j: nat | i < mask.Length0 && j < mask.Length1 && i < m.Length0 && j < m.Length1 ::
                 mask[i, j] == Normal
      modifies this, m
      ensures Valid() && fresh(matrix) && fresh(mask) && fresh(rowMask) && fresh(colMask)
      ensures Rows() == m.Length0 && Cols() == m.Length1
      ensures At(1, P(), Substituted(old(GridOf(m))), Rows(), Cols())
    {
      ghost var g := GridOf(m);
      var high := HighValue(m);
      ReplaceInfinite(m, high + 1.0);
      Load(m);
      SameGrid(V().cost, Substituted(g), m.Length0, m.Length1);
    }

    /**
     * Solves the assignment problem in place. Whatever the costs, the cells left
     * at 0 form an assignment as large as the shape allows: the one that the steps
     * arrive at from these costs, which is determined by them. When no cost is
     * negative, or no cost is zero, no other assignment of that size is cheaper.
     */
    method Solve(m: array2<Cost>) returns (ghost a: Assignment)
      requires forall i: nat, j: nat | i < mask.Length0 && j < mask.Length1 && i < m.Length0 && j < m.Length1 ::
                 mask[i, j] == Normal
      modifies this, m
      ensures Verdict(GridOf(m), a, m.Length0, m.Length1)
      ensures IsAssignment(a, m.Length0, m.Length1) && |a| == MinSize(m.Length0, m.Length1)
      ensures SolvedBy(Substituted(old(GridOf(m))), a, m.Length0, m.Length1)
      ensures forall z | ZerosForm(Substituted(old(GridOf(m))), z, m.Length0, m.Length1) :: a == z
      ensures NonNegativeCosts(old(GridOf(m))) || ZeroFreeCosts(old(GridOf(m))) ==>
                IsCheapest(Substituted(old(GridOf(m))), a, m.Length0, m.Length1)
    {
      ghost var g := GridOf(m);
      Prepare(m);
      ghost var run := Run(Substituted(g));
      Store(m);
      a := StarMap(V().mask);
      Concluded(P(), g, GridOf(m), Rows(), Cols());
    }
  }

  /** What the marks and costs at the end say about the assignment they stand for. */
  lemma Concluded(p: Progress, g: Grid<Cost>, result: Grid<Cost>, rows: nat, cols: nat)
    requires At(0, p, Substituted(g), rows, cols) && Settled(0, p, Substituted(g), rows, cols) && Shaped(result, rows, cols)
    requires Shaped(p.v.mask, rows, cols)
    requires forall i, j | 0 <= i < rows && 0 <= j < cols ::
               result[i][j] == if p.v.mask[i][j] == Star then Finite(0.0) else Finite(-1.0)
    ensures Verdict(result, StarMap(p.v.mask), rows, cols)
    ensures IsAssignment(StarMap(p.v.mask), rows, cols) && |StarMap(p.v.mask)| == MinSize(rows, cols)
    ensures forall z | ZerosForm(Substituted(g), z, rows, cols) :: StarMap(p.v.mask) == z
    ensures Shaped(Substituted(g), rows, cols)
    ensures NonNegativeCosts(g) || ZeroFreeCosts(g) ==> IsCheapest(Substituted(g), StarMap(p.v.mask), rows, cols)
  {
    FinishedIsCheapest(p, Substituted(g), rows, cols);
    StarsAreVerdict(p.v.mask, result, rows, cols);
    forall z | ZerosForm(Substituted(g), z, rows, cols) ensures StarMap(p.v.mask) == z {
      SettledMap(p.v.mask, z, rows, cols);
    }
    if NonNegativeCosts(g) || ZeroFreeCosts(g) {
      SubstitutedTame(g);
    }
  }

  lemma StarsAreVerdict(m: Grid<Mark>, result: Grid<Cost>, rows: nat, cols: nat)
    requires Shaped(m, rows, cols) && Shaped(result, rows, cols) && Independent(m)
    requires forall i, j | 0 <= i < rows && 0 <= j < cols ::
               result[i][j] == if m[i][j] == Star then Finite(0.0) else Finite(-1.0)
    ensures Verdict(result, StarMap(m), rows, cols)
  {
    StarMapIsAssignment(m, rows, cols);
    forall i: nat, j: nat | i < rows && j < cols
      ensures result[i][j] == if i in StarMap(m) && StarMap(m)[i] == j then Finite(0.0) else Finite(-1.0)
    {
      assert m[i][j] == Star <==> IsStar(m, i, j);
    }
  }

  lemma SettledMap(m: Grid<Mark>, z: Assignment, rows: nat, cols: nat)
    requires Shaped(m, rows, cols) && Independent(m) && StarredBy(m, z) && IsAssignment(z, rows, cols)
    ensures StarMap(m) == z
  {
    StarMapIsAssignment(m, rows, cols);
    forall i: nat ensures i in StarMap(m) <==> i in z {
      if i in z { assert IsStar(m, i, z[i]); }
      if i in StarMap(m) { assert IsStar(m, i, StarMap(m)[i]); }
    }
    forall i | i in z ensures StarMap(m)[i] == z[i] {
      assert IsStar(m, i, z[i]);
    }
  }

  lemma FinishedIsCheapest(p: Progress, input: Grid<real>, rows: nat, cols: nat)
    requires At(0, p, input, rows, cols)
    ensures Shaped(input, rows, cols) && IsAssignment(StarMap(p.v.mask), rows, cols)
    ensures |StarMap(p.v.mask)| == MinSize(rows, cols)
    ensures Tame(input) ==> IsCheapest(input, StarMap(p.v.mask), rows, cols)
  {
    var m := p.v.mask;
    StarMapIsAssignment(m, rows, cols);
    var a := StarMap(m);
    if Tame(input) {
      if NonNegative(p.v.cost) {
        forall i | 0 <= i < rows && i !in a ensures p.o.row[i] == 0.0 {
          assert !StarInRow(m, i);
        }
        forall j | 0 <= j < cols && j !in a.Values ensures p.o.col[j] == 0.0 {
          assert j !in StarCols(m, cols);
        }
        Cheapest(input, p.v.cost, p.o, rows, cols, a);
      } else {
        assert a.Keys == {};
      }
    }
  }

  /** The first two parts of the measure never go below zero. */
  lemma Bounded(step: nat, p: Progress, input: Grid<real>, rows: nat, cols: nat)
    requires At(step, p, input, rows, cols)
    ensures |StarRows(p.v.mask)| <= MinSize(rows, cols)
    ensures step != 0 ==> |p.order| <= rows
  {
    if step == 1 {
      StartHasNoStars(p, input, rows, cols);
    } else {
      StarsFit(p.v, rows, cols);
    }
    if step >= 3 {
      OrderFits(p, rows, cols);
    }
  }
}
