/**
 * Runs of the solver on costs of which no two low ones share a line: whatever
 * their signs, all low ones are chosen.
 */
module SeparateCosts {
  import opened Grids
  import opened Assignments
  import opened FiniteSets
  import opened Covers
  import opened Augmentation
  import opened SolverInvariant
  import opened SolverSteps

  /** The input, its low cells z, and what every other cell costs. */
  datatype Task = Task(input: Grid<real>, z: Assignment, far: real, rows: nat, cols: nat)

  ghost predicate Low(k: Task, i: nat, j: nat) { i in k.z && k.z[i] == j }

  ghost predicate Separate(k: Task) {
    && Shaped(k.input, k.rows, k.cols) && IsAssignment(k.z, k.rows, k.cols) && k.far > 0.0
    && forall i: nat, j: nat | i < k.rows && j < k.cols ::
         if Low(k, i, j) then k.input[i][j] < k.far else k.input[i][j] == k.far
  }

  ghost predicate AllStarred(k: Task, m: Grid<Mark>) { forall i | i in k.z :: IsStar(m, i, k.z[i]) }

  ghost predicate OnlyLowStarred(k: Task, m: Grid<Mark>) { forall i: nat, j: nat | IsStar(m, i, j) :: Low(k, i, j) }

  /** No row and no column without a low cell has been raised. */
  ghost predicate OnlyLowRaised(k: Task, o: Offsets) {
    && |o.row| == k.rows && |o.col| == k.cols
    && (forall i | 0 <= i < k.rows :: o.row[i] == 0.0)
    && (forall j: nat | j < k.cols && j !in k.z.Values :: o.col[j] == 0.0)
  }

  /** At first only low cells are starred, and no row is covered. */
  ghost predicate StarringLow(k: Task, step: nat, p: Progress) {
    && p.o.shift < k.far && OnlyLowStarred(k, p.v.mask)
    && (step == 3 || step == 5 ==> p.order == [])
    && (step == 4 ==> p.order == [] && Low(k, p.r, p.c))
  }

  /** Once all are starred the other columns are zero, and the search stays in them. */
  ghost predicate StarringFar(k: Task, step: nat, p: Progress) {
    && p.o.shift == k.far && AllStarred(k, p.v.mask) && step != 5
    && forall i, j :: IsPrime(p.v.mask, i, j) ==> j !in k.z.Values
  }

  ghost predicate Keeps(k: Task, step: nat, p: Progress) {
    && Separate(k) && At(step, p, k.input, k.rows, k.cols)
    && OnlyLowRaised(k, p.o) && (StarringLow(k, step, p) || StarringFar(k, step, p))
  }

  // ----- what the costs are now -----

  /** A cell that is not low costs more than zero, unless all low cells are starred and its column has none. */
  lemma FarCost(k: Task, step: nat, p: Progress, i: nat, j: nat)
    requires Keeps(k, step, p) && step != 1 && i < k.rows && j < k.cols && !Low(k, i, j)
    ensures ViewShaped(p.v, k.rows, k.cols)
    ensures j !in k.z.Values ==> p.v.cost[i][j] == k.far - p.o.shift
    ensures j in k.z.Values && Stars(p.v, k.rows, k.cols) ==> p.v.cost[i][j] > 0.0
  {
    assert p.v.cost[i][j] == k.input[i][j] + p.o.row[i] + p.o.col[j] - p.o.shift;
    if j in k.z.Values && Stars(p.v, k.rows, k.cols) {
      var l :| l in k.z && k.z[l] == j;
      assert Low(k, l, j) && p.v.cost[l][j] == k.input[l][j] + p.o.row[l] + p.o.col[j] - p.o.shift;
      if StarInCol(p.v.mask, j) {
        StarIsLow(k, step, p, l, j);
      }
    }
  }

  /** The star of a column with a low cell is on it. */
  lemma StarIsLow(k: Task, step: nat, p: Progress, l: nat, j: nat)
    requires Keeps(k, step, p) && step != 1 && Low(k, l, j) && Stars(p.v, k.rows, k.cols) && StarInCol(p.v.mask, j)
    ensures IsStar(p.v.mask, l, j) && p.v.cost[l][j] == 0.0
  {
    var i: nat :| IsStar(p.v.mask, i, j);
  }

  // ----- steps 1 and 2 -----

  lemma BeginsLow(k: Task, p: Progress, q: Progress)
    requires Separate(k) && AtStart(p, k.input, k.rows, k.cols) && StarsGreedily(p, q, k.rows, k.cols)
    ensures Keeps(k, 2, q)
  {
    AfterStep1(p, q, k.input, k.rows, k.cols);
    forall i: nat, j: nat | IsStar(q.v.mask, i, j) ensures Low(k, i, j) {
      assert q.v.cost[i][j] == 0.0;
    }
  }

  // ----- step 3 -----

  /** While low cells are being starred, an uncovered zero is a low cell whose row has no star. */
  lemma ZeroIsLow(k: Task, p: Progress, r: nat, c: nat)
    requires Keeps(k, 3, p) && StarringLow(k, 3, p) && UncoveredZero(p.v, k.rows, k.cols, r, c)
    ensures Low(k, r, c) && !StarInRow(p.v.mask, r)
  {
    if !Low(k, r, c) { FarCost(k, 3, p, r, c); }
    assert !IsStar(p.v.mask, r, c);
    assert forall j: nat :: IsStar(p.v.mask, r, j) ==> Low(k, r, j);
  }

  /** Later an uncovered zero lies in a column without a low cell. */
  lemma ZeroIsFar(k: Task, p: Progress, r: nat, c: nat)
    requires Keeps(k, 3, p) && StarringFar(k, 3, p) && UncoveredZero(p.v, k.rows, k.cols, r, c)
    ensures c !in k.z.Values
  {
    if !Low(k, r, c) { FarCost(k, 3, p, r, c); }
  }

  /** Later there is always an uncovered zero, where an unstarred row meets an unstarred column. */
  lemma FarHasZero(k: Task, p: Progress)
    requires Keeps(k, 3, p) && StarringFar(k, 3, p)
    ensures HasUncoveredZero(p.v, k.rows, k.cols)
  {
    var m := p.v.mask;
    if forall i: nat | i < k.rows :: i in StarRows(m) {
      SubsetSize(Below(k.rows), StarRows(m));
    } else if forall j: nat | j < k.cols :: j in StarCols(m, k.cols) {
      SubsetSize(Below(k.cols), StarCols(m, k.cols));
    } else {
      var i: nat :| i < k.rows && i !in StarRows(m);
      var j: nat :| j < k.cols && j !in StarCols(m, k.cols);
      FreeCellIsZero(k, p, i, j);
    }
  }

  lemma LowColumnsStarred(k: Task, m: Grid<Mark>)
    requires AllStarred(k, m)
    ensures forall j: nat | j in k.z.Values :: StarInCol(m, j)
  {
    forall j: nat | j in k.z.Values ensures StarInCol(m, j) {
      var i :| i in k.z && k.z[i] == j;
      assert IsStar(m, i, j);
    }
  }

  lemma FreeCellIsZero(k: Task, p: Progress, i: nat, j: nat)
    requires Keeps(k, 3, p) && StarringFar(k, 3, p) && i < k.rows && j < k.cols
    requires !StarInRow(p.v.mask, i) && !StarInCol(p.v.mask, j)
    ensures UncoveredZero(p.v, k.rows, k.cols, i, j)
  {
    LowColumnsStarred(k, p.v.mask);
    FarCost(k, 3, p, i, j);
  }

  lemma PrimesLow(k: Task, p: Progress, next: nat, q: Progress)
    requires Keeps(k, 3, p) && StarringLow(k, 3, p) && Primes(p, next, q, k.rows, k.cols)
    ensures StarringLow(k, next, q)
  {
    if HasUncoveredZero(p.v, k.rows, k.cols) {
      PrimeKeepsStars(p.v, k.rows, k.cols, p.order, q.r, q.c);
      ZeroIsLow(k, p, q.r, q.c);
    }
  }

  lemma PrimesFar(k: Task, p: Progress, next: nat, q: Progress)
    requires Keeps(k, 3, p) && StarringFar(k, 3, p) && Primes(p, next, q, k.rows, k.cols)
    ensures StarringFar(k, next, q)
  {
    FarHasZero(k, p);
    PrimeKeepsStars(p.v, k.rows, k.cols, p.order, q.r, q.c);
    ZeroIsFar(k, p, q.r, q.c);
  }

  lemma PrimesKeep(k: Task, p: Progress, next: nat, q: Progress)
    requires Keeps(k, 3, p) && Primes(p, next, q, k.rows, k.cols)
    ensures Keeps(k, next, q)
  {
    PrimesKeeps(p, next, q, k.input, k.rows, k.cols);
    if StarringLow(k, 3, p) {
      PrimesLow(k, p, next, q);
    } else {
      PrimesFar(k, p, next, q);
    }
  }

  // ----- step 4 -----

  /** The path is one prime long at first, so only that is starred. */
  lemma AugmentsLow(k: Task, p: Progress, q: Progress)
    requires Keeps(k, 4, p) && StarringLow(k, 4, p) && Augments(p, q, k.rows, k.cols)
    ensures OnlyLowStarred(k, q.v.mask)
  {
    var path, rank :| Maximal(p.v.mask, p.order, p.r, p.c, path, rank)
                   && Augmented(p.v.mask, q.v.mask, k.rows, k.cols, path);
    forall i: nat, j: nat | IsStar(q.v.mask, i, j) ensures Low(k, i, j) {
      var t := AugmentedStar(p.v.mask, q.v.mask, k.rows, k.cols, p.order, p.r, p.c, path, rank, i, j);
    }
  }

  /** Later the path keeps to columns without a low cell, so no low cell loses its star. */
  lemma AugmentsFar(k: Task, p: Progress, q: Progress)
    requires Keeps(k, 4, p) && StarringFar(k, 4, p) && Augments(p, q, k.rows, k.cols)
    ensures AllStarred(k, q.v.mask)
  {
    var path, rank :| Maximal(p.v.mask, p.order, p.r, p.c, path, rank)
                   && Augmented(p.v.mask, q.v.mask, k.rows, k.cols, path);
    forall i | i in k.z ensures IsStar(q.v.mask, i, k.z[i]) {
      assert IsStar(p.v.mask, i, k.z[i]);
      if (i, k.z[i]) in path {
        var t :| 0 <= t < |path| && path[t] == (i, k.z[i]);
        StarFollowsPrime(p.v.mask, p.order, p.r, p.c, path, rank, t);
      }
    }
  }

  lemma StarFollowsPrime(m: Grid<Mark>, order: seq<nat>, r: nat, c: nat, path: seq<Cell>, rank: seq<nat>, t: nat)
    requires Alternating(m, order, r, c, path, rank) && t < |path| && IsStar(m, path[t].0, path[t].1)
    ensures exists i :: IsPrime(m, i, path[t].1)
  {
    if t % 2 == 0 {
      assert IsPrime(m, path[t].0, path[t].1);
    } else {
      assert IsPrime(m, path[t - 1].0, path[t - 1].1) && path[t - 1].1 == path[t].1;
    }
  }

  lemma AugmentsKeep(k: Task, p: Progress, q: Progress)
    requires Keeps(k, 4, p) && Augments(p, q, k.rows, k.cols)
    ensures Keeps(k, 2, q)
  {
    AfterStep4(p, q, k.input, k.rows, k.cols);
    if StarringLow(k, 4, p) {
      AugmentsLow(k, p, q);
    } else {
      AugmentsFar(k, p, q);
    }
  }

  // ----- step 5 -----

  /** While low cells are being starred the covered columns are those of the starred ones, and no row is covered. */
  lemma LowCovers(k: Task, p: Progress)
    requires Keeps(k, 5, p) && StarringLow(k, 5, p)
    ensures forall i | 0 <= i < k.rows :: !p.v.rowCov[i]
    ensures forall j: nat | j < k.cols && p.v.colCov[j] :: j in k.z.Values
    ensures forall i: nat | i in k.z && p.v.colCov[k.z[i]] :: IsStar(p.v.mask, i, k.z[i])
  {
    forall j: nat | j < k.cols && p.v.colCov[j] ensures j in k.z.Values {
      var i: nat :| IsStar(p.v.mask, i, j);
      assert Low(k, i, j);
    }
    forall i: nat | i in k.z && p.v.colCov[k.z[i]] ensures IsStar(p.v.mask, i, k.z[i]) {
      var l: nat :| IsStar(p.v.mask, l, k.z[i]);
      assert Low(k, l, k.z[i]) && Low(k, i, k.z[i]);
    }
  }

  /** The shift stops at the next low cell, and reaches the others when all low cells are starred. */
  lemma ShiftsTo(k: Task, p: Progress, h: real)
    requires Keeps(k, 5, p) && StarringLow(k, 5, p) && IsSmallestUncovered(p.v, k.rows, k.cols, h)
    ensures AllStarred(k, p.v.mask) ==> p.o.shift + h == k.far
    ensures !AllStarred(k, p.v.mask) ==> p.o.shift + h < k.far
  {
    LowCovers(k, p);
    if AllStarred(k, p.v.mask) {
      var i: nat, j: nat :| i < k.rows && j < k.cols && !p.v.rowCov[i] && !p.v.colCov[j] && p.v.cost[i][j] == h;
      forall l | l in k.z ensures k.z[l] != j {
        assert IsStar(p.v.mask, l, k.z[l]) && p.v.rowCov[l] != p.v.colCov[k.z[l]];
      }
      FarCost(k, 5, p, i, j);
    } else {
      var i :| i in k.z && !IsStar(p.v.mask, i, k.z[i]);
      NextLow(k, p, i);
    }
  }

  lemma NextLow(k: Task, p: Progress, i: nat)
    requires Keeps(k, 5, p) && StarringLow(k, 5, p) && i in k.z && !IsStar(p.v.mask, i, k.z[i])
    ensures p.v.cost[i][k.z[i]] == k.input[i][k.z[i]] - p.o.shift < k.far - p.o.shift
    ensures !p.v.rowCov[i] && !p.v.colCov[k.z[i]]
  {
    LowCovers(k, p);
    var j := k.z[i];
    assert Low(k, i, j);
    assert forall l: nat :: IsStar(p.v.mask, l, j) ==> Low(k, l, j);
    assert !StarInCol(p.v.mask, j);
    assert p.v.cost[i][j] == k.input[i][j] + p.o.row[i] + p.o.col[j] - p.o.shift;
  }

  /** No row is covered, so none is raised, nor is a column without a low cell; and there are no primes. */
  lemma LowRaises(k: Task, p: Progress, h: real)
    requires Keeps(k, 5, p) && StarringLow(k, 5, p)
    ensures OnlyLowRaised(k, Raised(p.o, p.v.rowCov, p.v.colCov, h)) && NoPrimes(p.v.mask)
  {
    LowCovers(k, p);
  }

  lemma ShiftsKeep(k: Task, p: Progress, q: Progress)
    requires Keeps(k, 5, p) && ViewShaped(q.v, k.rows, k.cols) && Shifts(p, q, k.rows, k.cols)
    ensures Keeps(k, 3, q)
  {
    ShiftsKeeps(p, q, k.input, k.rows, k.cols);
    var h :| IsSmallestUncovered(p.v, k.rows, k.cols, h) && ShiftedBy(p.v, q.v, k.rows, k.cols, h)
          && q.o == Raised(p.o, p.v.rowCov, p.v.colCov, h);
    LowRaises(k, p, h);
    ShiftsTo(k, p, h);
  }

  // ----- whole runs -----

  lemma StepKeepsSeparate(k: Task, s: Stage, t: Stage)
    requires Keeps(k, s.step, s.p) && s.step != 1 && Follows(s, t, k.rows, k.cols)
    ensures Keeps(k, t.step, t.p)
  {
    match s.step
    case 2 => FollowsKeeps(s, t, k.input, k.rows, k.cols);
    case 3 => PrimesKeep(k, s.p, t.step, t.p);
    case 4 => AugmentsKeep(k, s.p, t.p);
    case 5 => ShiftsKeep(k, s.p, t.p);
    case _ =>
  }

  lemma {:induction false} RunKeepsSeparate(k: Task, run: seq<Stage>, n: nat)
    requires Separate(k) && IsRun(run, k.input, k.rows, k.cols) && 0 < n < |run|
    ensures Keeps(k, run[n].step, run[n].p) && run[n].step != 1
  {
    assert Follows(run[n - 1], run[n], k.rows, k.cols);
    if n == 1 {
      BeginsLow(k, run[0].p, run[1].p);
    } else {
      RunKeepsSeparate(k, run, n - 1);
      StepKeepsSeparate(k, run[n - 1], run[n]);
    }
  }

  /** At the end the low cells are starred: as many lines are starred as there are on the shorter side. */
  lemma FinishedWithLow(k: Task, p: Progress)
    requires Keeps(k, 0, p)
    ensures AllStarred(k, p.v.mask)
  {
    if StarringLow(k, 0, p) {
      var m := p.v.mask;
      forall i | i in k.z ensures IsStar(m, i, k.z[i]) {
        if k.rows <= k.cols {
          SubsetSize(StarRows(m), Below(k.rows));
          assert i in StarRows(m);
          var j: nat :| IsStar(m, i, j);
          assert Low(k, i, j);
        } else {
          SubsetSize(StarCols(m, k.cols), Below(k.cols));
          assert k.z[i] in StarCols(m, k.cols);
          var l: nat :| IsStar(m, l, k.z[i]);
          assert Low(k, l, k.z[i]) && Low(k, i, k.z[i]);
        }
      }
    }
  }

  /**
   * When no two low cells share a line and all other cells cost the same, a run
   * of the solver ends with every low cell starred, whatever the signs of the costs.
   */
  lemma AllLowChosen(k: Task, run: seq<Stage>)
    requires Separate(k) && IsCompleteRun(run, k.input, k.rows, k.cols)
    ensures AllStarred(k, run[|run| - 1].p.v.mask)
  {
    RunKeepsSeparate(k, run, |run| - 1);
    FinishedWithLow(k, run[|run| - 1].p);
  }
}
