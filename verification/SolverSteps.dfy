/**
 * What each step of the solver does, as a relation between the states before and
 * after it, and whole runs of it. The relations leave no choice: from the same
 * input, any two complete runs are the same.
 */
module SolverSteps {
  import opened Grids
  import opened Assignments
  import opened Covers
  import opened Augmentation
  import opened SolverInvariant

  // ----- step 1 -----

  ghost predicate Precedes(i: nat, j: nat, row: nat, col: nat) { i < row || (i == row && j < col) }

  /** A star to the left in the same row or above in the same column. */
  ghost predicate StarBefore(m: Grid<Mark>, i: nat, j: nat) {
    (exists l: nat :: l < j && IsStar(m, i, l)) || (exists k: nat :: k < i && IsStar(m, k, j))
  }

  /**
   * First come, first served: among the cells before (row,col) in row-major order
   * a zero is starred unless a star in its row or column came before it; no other
   * cell is starred. That determines the stars.
   */
  ghost predicate Greedy(v: View, rows: nat, cols: nat, row: nat, col: nat)
    requires ViewShaped(v, rows, cols)
  {
    && (forall i: nat, j: nat | i < rows && j < cols && Precedes(i, j, row, col) && v.cost[i][j] == 0.0 ::
          IsStar(v.mask, i, j) || StarBefore(v.mask, i, j))
    && (forall i: nat, j: nat | IsStar(v.mask, i, j) :: Precedes(i, j, row, col))
  }

  ghost predicate GreedyStars(v: View, rows: nat, cols: nat, row: nat, col: nat) {
    Stars(v, rows, cols) && NoPrimes(v.mask) && Greedy(v, rows, cols, row, col)
  }

  /** Step 1 changes the mask only: it stars zeros, first come, first served. */
  ghost predicate StarsGreedily(p: Progress, q: Progress, rows: nat, cols: nat) {
    q == p.(v := p.v.(mask := q.v.mask)) && GreedyStars(q.v, rows, cols, rows, 0)
  }

  // ----- step 2 -----

  /** Step 2 covers the columns that have a star and no other. */
  ghost predicate CoversStars(p: Progress, q: Progress, cols: nat) {
    && q == p.(v := p.v.(colCov := q.v.colCov), order := []) && |q.v.colCov| == cols
    && forall j | 0 <= j < cols :: q.v.colCov[j] <==> StarInCol(p.v.mask, j)
  }

  // ----- step 3 -----

  /** No uncovered zero comes before (r,c) in row-major order. */
  ghost predicate FirstUncoveredZero(v: View, rows: nat, cols: nat, r: nat, c: nat)
    requires ViewShaped(v, rows, cols)
  {
    && UncoveredZero(v, rows, cols, r, c)
    && forall i: nat, j: nat | UncoveredZero(v, rows, cols, i, j) :: !Precedes(i, j, r, c)
  }

  /**
   * Step 3 primes the first uncovered zero. If its row has a star, the row is
   * covered in place of the column of the star and the search goes on; if not,
   * step 4 is next. Without an uncovered zero it changes nothing and step 5 is next.
   */
  ghost predicate Primes(p: Progress, next: nat, q: Progress, rows: nat, cols: nat)
    requires ViewShaped(p.v, rows, cols)
  {
    if !HasUncoveredZero(p.v, rows, cols) then next == 5 && q == p.(r := q.r, c := q.c)
    else
      && FirstUncoveredZero(p.v, rows, cols, q.r, q.c) && q.o == p.o
      && if StarInRow(p.v.mask, q.r) then
           && next == 3 && q.order == p.order + [q.r]
           && exists c': nat :: IsStar(p.v.mask, q.r, c') && q.v == Swapped(p.v, q.r, q.c, c')
         else
           && next == 4 && q.order == p.order
           && q.v == p.v.(mask := Marked(p.v.mask, q.r, q.c, Prime))
  }

  // ----- step 4 -----

  /** Step 4 flips the alternating path from the prime just made, erases the primes and uncovers all lines. */
  ghost predicate Augments(p: Progress, q: Progress, rows: nat, cols: nat) {
    && q.o == p.o && q.order == [] && q.v.cost == p.v.cost
    && |q.v.rowCov| == rows && |q.v.colCov| == cols && Uncovered(q.v)
    && exists path, rank :: Maximal(p.v.mask, p.order, p.r, p.c, path, rank) && Augmented(p.v.mask, q.v.mask, rows, cols, path)
  }

  // ----- step 5 -----

  /** Step 5 adds the smallest uncovered cost to the covered rows and takes it from the uncovered columns. */
  ghost predicate Shifts(p: Progress, q: Progress, rows: nat, cols: nat)
    requires ViewShaped(p.v, rows, cols) && ViewShaped(q.v, rows, cols)
  {
    && |p.o.row| == rows && |p.o.col| == cols && q.order == p.order
    && exists h :: IsSmallestUncovered(p.v, rows, cols, h) && ShiftedBy(p.v, q.v, rows, cols, h)
                && q.o == Raised(p.o, p.v.rowCov, p.v.colCov, h)
  }

  // ----- runs -----

  /** A state of the driver loop: the step about to be taken, and what it works on. */
  datatype Stage = Stage(step: nat, p: Progress)

  ghost predicate Follows(s: Stage, t: Stage, rows: nat, cols: nat) {
    && ViewShaped(s.p.v, rows, cols) && ViewShaped(t.p.v, rows, cols)
    && match s.step
       case 1 => t.step == 2 && StarsGreedily(s.p, t.p, rows, cols)
       case 2 => t.step == (if |StarRows(s.p.v.mask)| >= MinSize(rows, cols) then 0 else 3) && CoversStars(s.p, t.p, cols)
       case 3 => Primes(s.p, t.step, t.p, rows, cols)
       case 4 => t.step == 2 && Augments(s.p, t.p, rows, cols)
       case 5 => t.step == 3 && Shifts(s.p, t.p, rows, cols)
       case _ => false
  }

  ghost predicate IsRun(run: seq<Stage>, input: Grid<real>, rows: nat, cols: nat) {
    && |run| > 0 && run[0].step == 1 && AtStart(run[0].p, input, rows, cols)
    && forall k | 0 < k < |run| :: Follows(run[k - 1], run[k], rows, cols)
  }

  /** The states of the solver from the input to the end. */
  ghost predicate IsCompleteRun(run: seq<Stage>, input: Grid<real>, rows: nat, cols: nat) {
    IsRun(run, input, rows, cols) && run[|run| - 1].step == 0
  }

  lemma RunOn(run: seq<Stage>, t: Stage, input: Grid<real>, rows: nat, cols: nat)
    requires IsRun(run, input, rows, cols) && Follows(run[|run| - 1], t, rows, cols)
    ensures IsRun(run + [t], input, rows, cols)
  {
    var longer := run + [t];
    forall k | 0 < k < |longer| ensures Follows(longer[k - 1], longer[k], rows, cols) {
      assert longer[k - 1] == run[k - 1];
    }
  }

  /** The step relation keeps the invariant of the driver loop. */
  lemma FollowsKeeps(s: Stage, t: Stage, input: Grid<real>, rows: nat, cols: nat)
    requires At(s.step, s.p, input, rows, cols) && Follows(s, t, rows, cols)
    ensures At(t.step, t.p, input, rows, cols)
  {
    match s.step
    case 1 => AfterStep1(s.p, t.p, input, rows, cols);
    case 2 => AfterStep2(s.p, t.p, input, rows, cols, t.step);
    case 3 => PrimesKeeps(s.p, t.step, t.p, input, rows, cols);
    case 4 => AfterStep4(s.p, t.p, input, rows, cols);
    case 5 => ShiftsKeeps(s.p, t.p, input, rows, cols);
    case _ =>
  }

  lemma PrimesKeeps(p: Progress, next: nat, q: Progress, input: Grid<real>, rows: nat, cols: nat)
    requires At(3, p, input, rows, cols) && Primes(p, next, q, rows, cols)
    ensures At(next, q, input, rows, cols)
  {
    if next == 3 {
      var c': nat :| IsStar(p.v.mask, q.r, c') && q.v == Swapped(p.v, q.r, q.c, c');
      SwapAfterStep3(p, q, input, rows, cols, c');
    } else if next == 4 {
      PrimeAfterStep3(p, q, input, rows, cols);
    }
  }

  lemma ShiftsKeeps(p: Progress, q: Progress, input: Grid<real>, rows: nat, cols: nat)
    requires At(5, p, input, rows, cols) && ViewShaped(q.v, rows, cols) && Shifts(p, q, rows, cols)
    ensures At(3, q, input, rows, cols) && HasUncoveredZero(q.v, rows, cols)
  {
    var h :| IsSmallestUncovered(p.v, rows, cols, h) && ShiftedBy(p.v, q.v, rows, cols, h) && q.o == Raised(p.o, p.v.rowCov, p.v.colCov, h);
    AfterStep5(p, q, input, rows, cols, h);
  }

  lemma {:induction false} RunKeeps(run: seq<Stage>, input: Grid<real>, rows: nat, cols: nat, k: nat)
    requires IsRun(run, input, rows, cols) && k < |run|
    ensures At(run[k].step, run[k].p, input, rows, cols)
  {
    if k > 0 {
      RunKeeps(run, input, rows, cols, k - 1);
      FollowsKeeps(run[k - 1], run[k], input, rows, cols);
    }
  }

  // ----- the steps leave no choice -----

  /** Stars taken greedily are determined: a cell is starred if and only if it is a zero with no star before it. */
  lemma GreedyCell(v: View, rows: nat, cols: nat, i: nat, j: nat)
    requires GreedyStars(v, rows, cols, rows, 0) && i < rows && j < cols
    ensures IsStar(v.mask, i, j) <==> v.cost[i][j] == 0.0 && !StarBefore(v.mask, i, j)
  {
    assert Precedes(i, j, rows, 0);
  }

  lemma {:induction false} GreedyAgree(v: View, w: View, rows: nat, cols: nat, i: nat, j: nat)
    requires GreedyStars(v, rows, cols, rows, 0) && GreedyStars(w, rows, cols, rows, 0) && v.cost == w.cost
    requires i < rows && j < cols
    ensures IsStar(v.mask, i, j) <==> IsStar(w.mask, i, j)
    decreases i + j
  {
    GreedyCell(v, rows, cols, i, j);
    GreedyCell(w, rows, cols, i, j);
    forall l: nat | l < j ensures IsStar(v.mask, i, l) <==> IsStar(w.mask, i, l) {
      GreedyAgree(v, w, rows, cols, i, l);
    }
    forall k: nat | k < i ensures IsStar(v.mask, k, j) <==> IsStar(w.mask, k, j) {
      GreedyAgree(v, w, rows, cols, k, j);
    }
  }

  lemma GreedyUnique(v: View, w: View, rows: nat, cols: nat)
    requires GreedyStars(v, rows, cols, rows, 0) && GreedyStars(w, rows, cols, rows, 0) && v.cost == w.cost
    ensures v.mask == w.mask
  {
    forall i: nat, j: nat | i < rows && j < cols ensures v.mask[i][j] == w.mask[i][j] {
      GreedyAgree(v, w, rows, cols, i, j);
      assert !IsPrime(v.mask, i, j) && !IsPrime(w.mask, i, j);
    }
    SameGrid(v.mask, w.mask, rows, cols);
  }

  /** The alternating path is determined: one star in a column, one prime in a row. */
  lemma {:induction false} PathAgrees(m: Grid<Mark>, rows: nat, cols: nat, order: seq<nat>, r: nat, c: nat,
                                      path: seq<Cell>, rank: seq<nat>, path': seq<Cell>, rank': seq<nat>, t: nat)
    requires Unpaired(m, rows, cols, order, r, c) && t < |path| && t < |path'|
    requires Alternating(m, order, r, c, path, rank) && Alternating(m, order, r, c, path', rank')
    ensures path[t] == path'[t]
  {
    if t > 0 {
      PathAgrees(m, rows, cols, order, r, c, path, rank, path', rank', t - 1);
      if t % 2 == 1 {
        assert IsStar(m, path[t].0, path[t].1) && IsStar(m, path'[t].0, path'[t].1);
      } else {
        assert IsPrime(m, path[t].0, path[t].1) && IsPrime(m, path'[t].0, path'[t].1);
      }
    }
  }

  /** A path that goes on from a prime does so by a star of its column. */
  lemma GoesOnByStar(m: Grid<Mark>, order: seq<nat>, r: nat, c: nat, path: seq<Cell>, rank: seq<nat>, t: nat)
    requires Alternating(m, order, r, c, path, rank) && 0 < t < |path| && t % 2 == 1
    ensures StarInCol(m, path[t - 1].1)
  {
    assert IsStar(m, path[t].0, path[t].1);
  }

  /** A maximal path is no longer than any other alternating path from its start. */
  lemma MaximalIsLongest(m: Grid<Mark>, rows: nat, cols: nat, order: seq<nat>, r: nat, c: nat,
                         path: seq<Cell>, rank: seq<nat>, path': seq<Cell>, rank': seq<nat>)
    requires Unpaired(m, rows, cols, order, r, c)
    requires Maximal(m, order, r, c, path, rank) && Alternating(m, order, r, c, path', rank')
    ensures |path'| <= |path|
  {
    var n := |path|;
    if n < |path'| {
      PathAgrees(m, rows, cols, order, r, c, path, rank, path', rank', n - 1);
      GoesOnByStar(m, order, r, c, path', rank', n);
    }
  }

  lemma PathUnique(m: Grid<Mark>, rows: nat, cols: nat, order: seq<nat>, r: nat, c: nat,
                   path: seq<Cell>, rank: seq<nat>, path': seq<Cell>, rank': seq<nat>)
    requires Unpaired(m, rows, cols, order, r, c)
    requires Maximal(m, order, r, c, path, rank) && Maximal(m, order, r, c, path', rank')
    ensures path == path'
  {
    MaximalIsLongest(m, rows, cols, order, r, c, path, rank, path', rank');
    MaximalIsLongest(m, rows, cols, order, r, c, path', rank', path, rank);
    forall t | 0 <= t < |path| ensures path[t] == path'[t] {
      PathAgrees(m, rows, cols, order, r, c, path, rank, path', rank', t);
    }
  }

  /** The same but for the cell saved by step 3, which only step 4 looks at. */
  ghost predicate Alike(s: Stage, s': Stage) {
    && s.step == s'.step && s.p == s'.p.(r := s.p.r, c := s.p.c)
    && (s.step == 4 ==> s == s')
  }

  lemma UncoveredUnique(v: View, w: View)
    requires |v.rowCov| == |w.rowCov| && |v.colCov| == |w.colCov| && Uncovered(v) && Uncovered(w)
    ensures v.rowCov == w.rowCov && v.colCov == w.colCov
  {
  }

  lemma AugmentsUnique(p: Progress, q: Progress, q': Progress, rows: nat, cols: nat)
    requires Unpaired(p.v.mask, rows, cols, p.order, p.r, p.c)
    requires Augments(p, q, rows, cols) && Augments(p, q', rows, cols)
    ensures q.v == q'.v
  {
    var path, rank :| Maximal(p.v.mask, p.order, p.r, p.c, path, rank) && Augmented(p.v.mask, q.v.mask, rows, cols, path);
    var path', rank' :| Maximal(p.v.mask, p.order, p.r, p.c, path', rank') && Augmented(p.v.mask, q'.v.mask, rows, cols, path');
    PathUnique(p.v.mask, rows, cols, p.order, p.r, p.c, path, rank, path', rank');
    SameGrid(q.v.mask, q'.v.mask, rows, cols);
    UncoveredUnique(q.v, q'.v);
  }

  lemma ShiftedUnique(v: View, w: View, w': View, rows: nat, cols: nat, h: real, h': real)
    requires ViewShaped(v, rows, cols) && ViewShaped(w, rows, cols) && ViewShaped(w', rows, cols)
    requires IsSmallestUncovered(v, rows, cols, h) && ShiftedBy(v, w, rows, cols, h)
    requires IsSmallestUncovered(v, rows, cols, h') && ShiftedBy(v, w', rows, cols, h')
    ensures h == h' && w == w'
  {
    forall i, j | 0 <= i < rows && 0 <= j < cols ensures w.cost[i][j] == w'.cost[i][j] {
      assert w.cost[i][j] == v.cost[i][j] + (if v.rowCov[i] then h else 0.0) - (if v.colCov[j] then 0.0 else h);
    }
    SameGrid(w.cost, w'.cost, rows, cols);
  }

  lemma ShiftsUnique(p: Progress, p': Progress, q: Progress, q': Progress, rows: nat, cols: nat)
    requires ViewShaped(p.v, rows, cols) && ViewShaped(q.v, rows, cols) && ViewShaped(q'.v, rows, cols)
    requires p' == p.(r := p'.r, c := p'.c) && Shifts(p, q, rows, cols) && Shifts(p', q', rows, cols)
    ensures q.v == q'.v && q.o == q'.o && q.order == q'.order
  {
    var h :| IsSmallestUncovered(p.v, rows, cols, h) && ShiftedBy(p.v, q.v, rows, cols, h) && q.o == Raised(p.o, p.v.rowCov, p.v.colCov, h);
    var h' :| IsSmallestUncovered(p.v, rows, cols, h') && ShiftedBy(p.v, q'.v, rows, cols, h') && q'.o == Raised(p.o, p.v.rowCov, p.v.colCov, h');
    ShiftedUnique(p.v, q.v, q'.v, rows, cols, h, h');
  }

  lemma FirstIsUnique(v: View, rows: nat, cols: nat, r: nat, c: nat, r': nat, c': nat)
    requires ViewShaped(v, rows, cols) && FirstUncoveredZero(v, rows, cols, r, c) && FirstUncoveredZero(v, rows, cols, r', c')
    ensures r == r' && c == c'
  {
    assert !Precedes(r, c, r', c') && !Precedes(r', c', r, c);
  }

  lemma PrimesUnique(p: Progress, p': Progress, next: nat, q: Progress, next': nat, q': Progress, rows: nat, cols: nat)
    requires ViewShaped(p.v, rows, cols) && OnePerRow(p.v.mask) && p' == p.(r := p'.r, c := p'.c)
    requires Primes(p, next, q, rows, cols) && Primes(p', next', q', rows, cols)
    ensures next == next' && q.v == q'.v && q.o == q'.o && q.order == q'.order
    ensures next == 4 ==> q == q'
  {
    if HasUncoveredZero(p.v, rows, cols) {
      FirstIsUnique(p.v, rows, cols, q.r, q.c, q'.r, q'.c);
      if StarInRow(p.v.mask, q.r) {
        var a: nat :| IsStar(p.v.mask, q.r, a) && q.v == Swapped(p.v, q.r, q.c, a);
        var b: nat :| IsStar(p.v.mask, q.r, b) && q'.v == Swapped(p.v, q.r, q.c, b);
        assert a == b;
      }
    }
  }

  lemma StarsUnique(p: Progress, p': Progress, q: Progress, q': Progress, rows: nat, cols: nat)
    requires ViewShaped(p.v, rows, cols) && p' == p.(r := p'.r, c := p'.c)
    requires StarsGreedily(p, q, rows, cols) && StarsGreedily(p', q', rows, cols)
    ensures q' == q.(r := q'.r, c := q'.c)
  {
    assert q.v == p.v.(mask := q.v.mask) && q'.v == p.v.(mask := q'.v.mask);
    GreedyUnique(q.v, q'.v, rows, cols);
  }

  /** From states alike, a step leads to states alike. */
  lemma FollowsUnique(s: Stage, s': Stage, t: Stage, t': Stage, input: Grid<real>, rows: nat, cols: nat)
    requires At(s.step, s.p, input, rows, cols) && Alike(s, s')
    requires Follows(s, t, rows, cols) && Follows(s', t', rows, cols)
    ensures Alike(t, t')
  {
    match s.step
    case 1 => StarsUnique(s.p, s'.p, t.p, t'.p, rows, cols);
    case 2 => assert t.p.v.colCov == t'.p.v.colCov;
    case 3 => PrimesUnique(s.p, s'.p, t.step, t.p, t'.step, t'.p, rows, cols);
    case 4 => AugmentsUnique(s.p, t.p, t'.p, rows, cols);
    case 5 => ShiftsUnique(s.p, s'.p, t.p, t'.p, rows, cols);
    case _ =>
  }

  lemma StartUnique(p: Progress, p': Progress, input: Grid<real>, rows: nat, cols: nat)
    requires AtStart(p, input, rows, cols) && AtStart(p', input, rows, cols)
    ensures p == p'.(r := p.r, c := p.c)
  {
    SameGrid(p.v.mask, p'.v.mask, rows, cols);
    UncoveredUnique(p.v, p'.v);
  }

  /** Two runs of the solver on the same input go through the same states. */
  lemma {:induction false} RunsAgree(run: seq<Stage>, run': seq<Stage>, input: Grid<real>, rows: nat, cols: nat, k: nat)
    requires IsRun(run, input, rows, cols) && IsRun(run', input, rows, cols) && k < |run| && k < |run'|
    ensures Alike(run[k], run'[k])
  {
    if k == 0 {
      StartUnique(run[0].p, run'[0].p, input, rows, cols);
    } else {
      RunsAgree(run, run', input, rows, cols, k - 1);
      RunKeeps(run, input, rows, cols, k - 1);
      FollowsUnique(run[k - 1], run'[k - 1], run[k], run'[k], input, rows, cols);
    }
  }

  lemma RunGoesOn(run: seq<Stage>, input: Grid<real>, rows: nat, cols: nat, k: nat)
    requires IsRun(run, input, rows, cols) && 0 < k < |run|
    ensures run[k - 1].step != 0
  {
    assert Follows(run[k - 1], run[k], rows, cols);
  }

  lemma CompleteIsLongest(run: seq<Stage>, run': seq<Stage>, input: Grid<real>, rows: nat, cols: nat)
    requires IsCompleteRun(run, input, rows, cols) && IsRun(run', input, rows, cols)
    ensures |run'| <= |run|
  {
    var n := |run|;
    if n < |run'| {
      RunsAgree(run, run', input, rows, cols, n - 1);
      RunGoesOn(run', input, rows, cols, n);
    }
  }

  /** The solver's answer is determined by its input, whatever the signs of the costs. */
  lemma CompleteRunsAgree(run: seq<Stage>, run': seq<Stage>, input: Grid<real>, rows: nat, cols: nat)
    requires IsCompleteRun(run, input, rows, cols) && IsCompleteRun(run', input, rows, cols)
    ensures |run| == |run'|
    ensures run[|run| - 1].p.v == run'[|run'| - 1].p.v
  {
    CompleteIsLongest(run, run', input, rows, cols);
    CompleteIsLongest(run', run, input, rows, cols);
    RunsAgree(run, run', input, rows, cols, |run| - 1);
  }
}
