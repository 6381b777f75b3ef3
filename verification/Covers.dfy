/**
 * The solver's working state as a value, the invariant its steps keep, and what
 * priming a zero, shifting the costs and flipping a path do to it.
 */
module Covers {
  import opened Grids
  import opened Assignments
  import opened FiniteSets

  datatype Mark = Normal | Star | Prime

  datatype View = View(cost: Grid<real>, mask: Grid<Mark>, rowCov: seq<bool>, colCov: seq<bool>)

  ghost predicate IsStar(m: Grid<Mark>, i: int, j: int) {
    0 <= i < |m| && 0 <= j < |m[i]| && m[i][j] == Star
  }

  ghost predicate IsPrime(m: Grid<Mark>, i: int, j: int) {
    0 <= i < |m| && 0 <= j < |m[i]| && m[i][j] == Prime
  }

  ghost predicate StarInRow(m: Grid<Mark>, i: int) { exists j :: IsStar(m, i, j) }
  ghost predicate StarInCol(m: Grid<Mark>, j: int) { exists i :: IsStar(m, i, j) }
  ghost predicate PrimeInRow(m: Grid<Mark>, i: int) { exists j :: IsPrime(m, i, j) }

  ghost predicate OnePerRow(m: Grid<Mark>) {
    forall i, j, k :: IsStar(m, i, j) && IsStar(m, i, k) ==> j == k
  }

  ghost predicate OnePerCol(m: Grid<Mark>) {
    forall i, j, k :: IsStar(m, i, j) && IsStar(m, k, j) ==> i == k
  }

  ghost predicate Independent(m: Grid<Mark>) { OnePerRow(m) && OnePerCol(m) }

  ghost function StarRows(m: Grid<Mark>): set<nat> {
    set i: nat | i < |m| && StarInRow(m, i)
  }

  ghost function StarCols(m: Grid<Mark>, cols: nat): set<nat> {
    set j: nat | j < cols && StarInCol(m, j)
  }

  ghost predicate ViewShaped(v: View, rows: nat, cols: nat) {
    && Shaped(v.cost, rows, cols) && Shaped(v.mask, rows, cols)
    && |v.rowCov| == rows && |v.colCov| == cols
  }

  /** Independent stars on zeros, as many starred rows as starred columns. */
  ghost predicate Stars(v: View, rows: nat, cols: nat) {
    && ViewShaped(v, rows, cols)
    && Independent(v.mask)
    && |StarRows(v.mask)| == |StarCols(v.mask, cols)|
    && forall i, j :: IsStar(v.mask, i, j) ==> v.cost[i][j] == 0.0
  }

  ghost predicate NoPrimes(m: Grid<Mark>) { forall i, j :: !IsPrime(m, i, j) }

  ghost predicate Uncovered(v: View) {
    && (forall i | 0 <= i < |v.rowCov| :: !v.rowCov[i])
    && (forall j | 0 <= j < |v.colCov| :: !v.colCov[j])
  }

  ghost predicate Distinct<T(!new)>(s: seq<T>) {
    forall a, b | 0 <= a < b < |s| :: s[a] != s[b]
  }

  /**
   * The marks behind the covers: `order` lists the covered rows in the order in
   * which they were covered. Each has a star and exactly one prime, and a star in
   * the column of that prime lies in a row covered earlier.
   */
  ghost predicate Chained(m: Grid<Mark>, order: seq<nat>) {
    && Distinct(order)
    && (forall i | i in order :: StarInRow(m, i) && PrimeInRow(m, i))
    && (forall i, j, k :: IsPrime(m, i, j) && IsPrime(m, i, k) ==> j == k)
    && (forall t, j, k | 0 <= t < |order| && IsPrime(m, order[t], j) && IsStar(m, k, j) :: k in order[..t])
  }

  /** Each star lies under exactly one cover, each cover has its star, primes are zeros. */
  ghost predicate Covering(v: View, rows: nat, cols: nat, order: seq<nat>)
    requires ViewShaped(v, rows, cols)
  {
    && (forall i: nat | i < rows :: v.rowCov[i] <==> i in order)
    && (forall i | i in order :: i < rows)
    && (forall i, j :: IsStar(v.mask, i, j) ==> v.rowCov[i] != v.colCov[j])
    && (forall j | 0 <= j < cols && v.colCov[j] :: StarInCol(v.mask, j))
    && (forall i, j :: IsPrime(v.mask, i, j) ==> v.rowCov[i] && !v.colCov[j] && v.cost[i][j] == 0.0)
  }

  /** What holds whenever step 3 or step 5 is about to run. */
  ghost predicate Searching(v: View, rows: nat, cols: nat, order: seq<nat>) {
    Stars(v, rows, cols) && Chained(v.mask, order) && Covering(v, rows, cols, order)
  }

  ghost predicate UncoveredZero(v: View, rows: nat, cols: nat, r: int, c: int)
    requires ViewShaped(v, rows, cols)
  {
    && 0 <= r < rows && 0 <= c < cols
    && !v.rowCov[r] && !v.colCov[c] && v.cost[r][c] == 0.0
  }

  ghost predicate HasUncoveredZero(v: View, rows: nat, cols: nat)
    requires ViewShaped(v, rows, cols)
  {
    exists r, c :: UncoveredZero(v, rows, cols, r, c)
  }

  function Marked(m: Grid<Mark>, r: nat, c: nat, k: Mark): Grid<Mark>
    requires r < |m| && c < |m[r]|
  {
    m[r := m[r][c := k]]
  }

  // ----- step 2: cover the starred columns -----

  lemma CoverStarredColumns(v: View, w: View, rows: nat, cols: nat)
    requires Stars(v, rows, cols) && NoPrimes(v.mask)
    requires w.mask == v.mask && w.cost == v.cost && |w.rowCov| == rows && |w.colCov| == cols
    requires forall i | 0 <= i < rows :: !w.rowCov[i]
    requires forall j | 0 <= j < cols :: w.colCov[j] <==> StarInCol(v.mask, j)
    ensures Searching(w, rows, cols, [])
  {
    forall i, j | IsStar(v.mask, i, j) ensures w.rowCov[i] != w.colCov[j] {
      assert StarInCol(v.mask, j);
    }
  }

  // ----- step 3: prime a zero -----

  /** The state after priming (r,c), covering row r and uncovering column c'. */
  function Swapped(v: View, r: nat, c: nat, c': nat): View
    requires r < |v.mask| && c < |v.mask[r]| && r < |v.rowCov| && c' < |v.colCov|
  {
    v.(mask := Marked(v.mask, r, c, Prime), rowCov := v.rowCov[r := true], colCov := v.colCov[c' := false])
  }

  /** Priming an uncovered zero never overwrites a star or a prime. */
  lemma PrimeKeepsStars(v: View, rows: nat, cols: nat, order: seq<nat>, r: nat, c: nat)
    requires Searching(v, rows, cols, order) && UncoveredZero(v, rows, cols, r, c)
    ensures v.mask[r][c] == Normal && r !in order
    ensures forall i, j :: IsStar(Marked(v.mask, r, c, Prime), i, j) <==> IsStar(v.mask, i, j)
    ensures forall i, j :: IsPrime(Marked(v.mask, r, c, Prime), i, j) <==> IsPrime(v.mask, i, j) || (i == r && j == c)
    ensures StarRows(Marked(v.mask, r, c, Prime)) == StarRows(v.mask)
    ensures StarCols(Marked(v.mask, r, c, Prime), cols) == StarCols(v.mask, cols)
  {
    var m := Marked(v.mask, r, c, Prime);
    assert !IsStar(v.mask, r, c) && !IsPrime(v.mask, r, c);
    assert forall i, j :: IsStar(m, i, j) <==> IsStar(v.mask, i, j);
    assert forall i :: StarInRow(m, i) <==> StarInRow(v.mask, i);
    assert forall j :: StarInCol(m, j) <==> StarInCol(v.mask, j);
  }

  lemma SwapKeepsSearching(v: View, rows: nat, cols: nat, order: seq<nat>, r: nat, c: nat, c': nat)
    requires Searching(v, rows, cols, order) && UncoveredZero(v, rows, cols, r, c)
    requires IsStar(v.mask, r, c')
    ensures Searching(Swapped(v, r, c, c'), rows, cols, order + [r])
    ensures StarRows(Swapped(v, r, c, c').mask) == StarRows(v.mask)
  {
    var w := Swapped(v, r, c, c');
    var after := order + [r];
    PrimeKeepsStars(v, rows, cols, order, r, c);
    assert IsStar(w.mask, r, c') && IsPrime(w.mask, r, c);
    forall i | i in after ensures StarInRow(w.mask, i) && PrimeInRow(w.mask, i) {
      if i != r {
        var j, k :| IsStar(v.mask, i, j) && IsPrime(v.mask, i, k);
        assert IsStar(w.mask, i, j) && IsPrime(w.mask, i, k);
      }
    }
    forall t, j, k | 0 <= t < |after| && IsPrime(w.mask, after[t], j) && IsStar(w.mask, k, j)
      ensures k in after[..t]
    {
      if t < |order| {
        assert IsPrime(v.mask, order[t], j) && IsStar(v.mask, k, j);
        assert after[..t] == order[..t];
      } else {
        assert after[..t] == order;
        assert IsStar(v.mask, k, j);
      }
    }
    forall j | 0 <= j < cols && w.colCov[j] ensures StarInCol(w.mask, j) {
      var i :| IsStar(v.mask, i, j);
      assert IsStar(w.mask, i, j);
    }
  }

  // ----- step 5: shift the costs -----

  ghost predicate IsSmallestUncovered(v: View, rows: nat, cols: nat, h: real)
    requires ViewShaped(v, rows, cols)
  {
    && (exists i, j :: 0 <= i < rows && 0 <= j < cols && !v.rowCov[i] && !v.colCov[j] && v.cost[i][j] == h)
    && (forall i, j | 0 <= i < rows && 0 <= j < cols && !v.rowCov[i] && !v.colCov[j] :: h <= v.cost[i][j])
  }

  /** h is added to covered rows and subtracted from uncovered columns. */
  ghost predicate ShiftedBy(v: View, w: View, rows: nat, cols: nat, h: real)
    requires ViewShaped(v, rows, cols) && ViewShaped(w, rows, cols)
  {
    && w.mask == v.mask && w.rowCov == v.rowCov && w.colCov == v.colCov
    && forall i, j | 0 <= i < rows && 0 <= j < cols ::
         w.cost[i][j] == v.cost[i][j] + (if v.rowCov[i] then h else 0.0) - (if v.colCov[j] then 0.0 else h)
  }

  lemma ShiftKeepsSearching(v: View, w: View, rows: nat, cols: nat, order: seq<nat>, h: real)
    requires Searching(v, rows, cols, order) && ViewShaped(w, rows, cols)
    requires ShiftedBy(v, w, rows, cols, h) && IsSmallestUncovered(v, rows, cols, h)
    ensures Searching(w, rows, cols, order) && HasUncoveredZero(w, rows, cols)
  {
    var i, j :| 0 <= i < rows && 0 <= j < cols && !v.rowCov[i] && !v.colCov[j] && v.cost[i][j] == h;
    assert UncoveredZero(w, rows, cols, i, j);
  }

  ghost predicate ZeroFree(g: Grid<real>) {
    forall i, j | 0 <= i < |g| && 0 <= j < |g[i]| :: g[i][j] != 0.0
  }

  /** The costs for which the result is promised to be cheapest: no cost is negative, or none is zero. */
  ghost predicate Tame(g: Grid<real>) { NonNegative(g) || ZeroFree(g) }

  ghost predicate NoStars(m: Grid<Mark>) { forall i, j :: !IsStar(m, i, j) }

  /** Costs and offsets are non-negative, or negative costs remain but no zero has been starred yet. */
  ghost predicate Balanced(v: View, o: Offsets) {
    && AllNonNegative(o.row) && AllNonNegative(o.col)
    && (NonNegative(v.cost) || (ZeroFree(v.cost) && NoStars(v.mask)))
  }

  /** The offsets live on starred lines only, and stay balanced for tame input. */
  ghost predicate OffsetsFor(input: Grid<real>, v: View, o: Offsets, rows: nat, cols: nat) {
    && ViewShaped(v, rows, cols)
    && Offsetting(input, v.cost, o, rows, cols)
    && (forall i | 0 <= i < rows && !StarInRow(v.mask, i) :: o.row[i] == 0.0)
    && (forall j | 0 <= j < cols && !StarInCol(v.mask, j) :: o.col[j] == 0.0)
    && (Tame(input) ==> Balanced(v, o))
  }

  function Raised(o: Offsets, rowCov: seq<bool>, colCov: seq<bool>, h: real): Offsets
    requires |o.row| == |rowCov| && |o.col| == |colCov|
  {
    Offsets(seq(|o.row|, i requires 0 <= i < |o.row| => o.row[i] + if rowCov[i] then h else 0.0),
            seq(|o.col|, j requires 0 <= j < |o.col| => o.col[j] + if colCov[j] then h else 0.0),
            o.shift + h)
  }

  lemma ShiftKeepsOffsets(input: Grid<real>, v: View, w: View, o: Offsets, rows: nat, cols: nat,
                          order: seq<nat>, h: real)
    requires Searching(v, rows, cols, order) && OffsetsFor(input, v, o, rows, cols) && ViewShaped(w, rows, cols)
    requires ShiftedBy(v, w, rows, cols, h) && IsSmallestUncovered(v, rows, cols, h)
    ensures OffsetsFor(input, w, Raised(o, v.rowCov, v.colCov, h), rows, cols)
  {
    if Tame(input) {
      ShiftKeepsBalance(v, w, o, rows, cols, order, h);
    }
  }

  lemma ShiftKeepsBalance(v: View, w: View, o: Offsets, rows: nat, cols: nat, order: seq<nat>, h: real)
    requires Searching(v, rows, cols, order) && ViewShaped(w, rows, cols) && Balanced(v, o)
    requires ShiftedBy(v, w, rows, cols, h) && IsSmallestUncovered(v, rows, cols, h)
    requires |o.row| == rows && |o.col| == cols
    ensures Balanced(w, Raised(o, v.rowCov, v.colCov, h)) && NonNegative(w.cost)
  {
    if NonNegative(v.cost) {
      assert h >= 0.0;
    } else {
      assert forall i | 0 <= i < rows :: !v.rowCov[i];
      assert forall j | 0 <= j < cols :: !v.colCov[j];
    }
    forall i, j | 0 <= i < |w.cost| && 0 <= j < |w.cost[i]| ensures w.cost[i][j] >= 0.0 {
      assert |w.cost[i]| == cols;
      assert w.cost[i][j] == v.cost[i][j] + (if v.rowCov[i] then h else 0.0) - (if v.colCov[j] then 0.0 else h);
      if !v.rowCov[i] && !v.colCov[j] {
        assert h <= v.cost[i][j];
      } else {
        assert 0 <= i < |v.cost| && 0 <= j < |v.cost[i]| && v.cost[i][j] >= 0.0;
      }
    }
  }

  /** Fewer stars than lines of the shorter side leave an uncovered cell. */
  lemma SomeCellUncovered(v: View, rows: nat, cols: nat, order: seq<nat>)
    requires Searching(v, rows, cols, order)
    requires |StarRows(v.mask)| < rows && |StarRows(v.mask)| < cols
    ensures exists i, j :: 0 <= i < rows && 0 <= j < cols && !v.rowCov[i] && !v.colCov[j]
  {
    if forall i | 0 <= i < rows :: v.rowCov[i] {
      assert Below(rows) <= StarRows(v.mask);
      SubsetSize(Below(rows), StarRows(v.mask));
    } else if forall j | 0 <= j < cols :: v.colCov[j] {
      assert Below(cols) <= StarCols(v.mask, cols);
      SubsetSize(Below(cols), StarCols(v.mask, cols));
    } else {
      var i :| 0 <= i < rows && !v.rowCov[i];
      var j :| 0 <= j < cols && !v.colCov[j];
    }
  }
}
