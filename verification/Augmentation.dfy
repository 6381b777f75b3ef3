/** The alternating path of primed and starred zeros, and what flipping it does. */
module Augmentation {
  import opened Grids
  import opened Covers

  type Cell = (nat, nat)

  /** A fresh prime at (r,c) whose row has no star: what step 4 starts from. */
  ghost predicate Unpaired(m: Grid<Mark>, rows: nat, cols: nat, order: seq<nat>, r: nat, c: nat) {
    && Shaped(m, rows, cols) && Independent(m) && Chained(m, order)
    && (forall i | i in order :: i < rows)
    && r !in order && IsPrime(m, r, c) && !StarInRow(m, r)
    && (forall i, j :: IsPrime(m, i, j) ==> i == r || i in order)
    && (forall k :: IsStar(m, k, c) ==> k in order)
  }

  /**
   * `path` starts at the unpaired prime and alternates: a star in the column of
   * the prime before it, then the prime in the row of that star. `rank` gives the
   * covering time of each cell's row; it falls with every star.
   */
  ghost predicate Alternating(m: Grid<Mark>, order: seq<nat>, r: nat, c: nat, path: seq<Cell>, rank: seq<nat>) {
    && |path| == |rank| > 0 && path[0] == (r, c) && rank[0] == |order|
    && (forall t | 0 < t < |path| :: rank[t] < |order| && order[rank[t]] == path[t].0)
    && (forall t | 0 <= t < |path| && t % 2 == 0 :: IsPrime(m, path[t].0, path[t].1))
    && (forall t | 0 <= t < |path| && t % 2 == 1 :: IsStar(m, path[t].0, path[t].1))
    && (forall t, u | 0 <= t < |path| && u == t + 1 && u < |path| ::
          if t % 2 == 0 then path[t].1 == path[u].1 else path[t].0 == path[u].0)
    && (forall t, u | 0 <= t < u < |path| :: rank[u] <= rank[t] && (rank[u] == rank[t] ==> t % 2 == 1 && u == t + 1))
  }

  lemma StartPath(m: Grid<Mark>, rows: nat, cols: nat, order: seq<nat>, r: nat, c: nat)
    requires Unpaired(m, rows, cols, order, r, c)
    ensures Alternating(m, order, r, c, [(r, c)], [|order|])
  {
  }

  lemma LastIsPrime(m: Grid<Mark>, rows: nat, cols: nat, order: seq<nat>, r: nat, c: nat, path: seq<Cell>, rank: seq<nat>)
    requires Shaped(m, rows, cols) && Alternating(m, order, r, c, path, rank) && |path| % 2 == 1
    ensures path[|path| - 1].0 < rows && path[|path| - 1].1 < cols && |rank| > 0
  {
    assert IsPrime(m, path[|path| - 1].0, path[|path| - 1].1);
  }

  lemma RanksAreRows(m: Grid<Mark>, order: seq<nat>, r: nat, c: nat, path: seq<Cell>, rank: seq<nat>, t: nat, u: nat)
    requires Distinct(order) && r !in order
    requires Alternating(m, order, r, c, path, rank) && t < |path| && u < |path|
    ensures path[t].0 == path[u].0 <==> rank[t] == rank[u]
  {
  }

  /** No cell occurs twice on the path. */
  lemma PathIsSimple(m: Grid<Mark>, order: seq<nat>, r: nat, c: nat, path: seq<Cell>, rank: seq<nat>)
    requires Distinct(order) && r !in order
    requires Alternating(m, order, r, c, path, rank)
    ensures Distinct(path)
  {
    forall t, u | 0 <= t < u < |path| ensures path[t] != path[u] {
      RanksAreRows(m, order, r, c, path, rank, t, u);
    }
  }

  /** The row of a star below the last prime was covered before any row of the path. */
  lemma StarWasBefore(m: Grid<Mark>, rows: nat, cols: nat, order: seq<nat>, r: nat, c: nat,
                      path: seq<Cell>, rank: seq<nat>, k: nat) returns (at: nat)
    requires Unpaired(m, rows, cols, order, r, c) && Alternating(m, order, r, c, path, rank)
    requires |path| % 2 == 1 && IsStar(m, k, path[|path| - 1].1)
    ensures at < |order| && at < rank[|path| - 1] && order[at] == k
  {
    var n := |path| - 1;
    if n == 0 {
      at :| at < |order| && order[at] == k;
    } else {
      assert IsPrime(m, order[rank[n]], path[n].1);
      assert k in order[..rank[n]];
      at :| at < rank[n] && order[at] == k;
    }
  }

  lemma StarIsNew(m: Grid<Mark>, order: seq<nat>, r: nat, c: nat, path: seq<Cell>, rank: seq<nat>, k: nat, at: nat)
    requires Distinct(order) && r !in order && Alternating(m, order, r, c, path, rank)
    requires at < |order| && at < rank[|path| - 1] && order[at] == k
    ensures forall t | 0 <= t < |path| :: path[t].0 != k
  {
    forall t | 0 <= t < |path| ensures path[t].0 != k {
      assert rank[|path| - 1] <= rank[t];
    }
  }

  lemma AlternatesOn(m: Grid<Mark>, order: seq<nat>, r: nat, c: nat, path: seq<Cell>, rank: seq<nat>, k: nat, at: nat)
    requires Alternating(m, order, r, c, path, rank)
    requires |path| % 2 == 1 && IsStar(m, k, path[|path| - 1].1)
    requires at < |order| && at < rank[|path| - 1] && order[at] == k
    ensures Alternating(m, order, r, c, path + [(k, path[|path| - 1].1)], rank + [at])
  {
    forall t | 0 <= t < |path| ensures at < rank[t] {
      assert rank[|path| - 1] <= rank[t];
    }
  }

  /** A star below the last prime is new to the path and was covered before all of it. */
  lemma ExtendByStar(m: Grid<Mark>, rows: nat, cols: nat, order: seq<nat>, r: nat, c: nat,
                     path: seq<Cell>, rank: seq<nat>, k: nat) returns (at: nat)
    requires Unpaired(m, rows, cols, order, r, c) && Alternating(m, order, r, c, path, rank)
    requires |path| % 2 == 1 && IsStar(m, k, path[|path| - 1].1)
    ensures (k, path[|path| - 1].1) !in path
    ensures at < rank[|path| - 1]
    ensures Alternating(m, order, r, c, path + [(k, path[|path| - 1].1)], rank + [at])
  {
    at := StarWasBefore(m, rows, cols, order, r, c, path, rank, k);
    StarIsNew(m, order, r, c, path, rank, k, at);
    AlternatesOn(m, order, r, c, path, rank, k, at);
  }

  /** The prime in the row of the last star is new to the path. */
  lemma ExtendByPrime(m: Grid<Mark>, rows: nat, cols: nat, order: seq<nat>, r: nat, c: nat,
                      path: seq<Cell>, rank: seq<nat>, j: nat)
    requires Unpaired(m, rows, cols, order, r, c) && Alternating(m, order, r, c, path, rank)
    requires |path| % 2 == 0 && IsPrime(m, path[|path| - 1].0, j)
    ensures (path[|path| - 1].0, j) !in path
    ensures Alternating(m, order, r, c, path + [(path[|path| - 1].0, j)], rank + [rank[|path| - 1]])
  {
    var n := |path| - 1;
    forall t | 0 <= t < |path| ensures path[t] != (path[n].0, j) {
      if t < n { RanksAreRows(m, order, r, c, path, rank, t, n); }
    }
  }

  /** Adds the star at (k,col) and prepares for a prime of its row, which exists off the path. */
  lemma StarRound(m: Grid<Mark>, rows: nat, cols: nat, order: seq<nat>, r: nat, c: nat,
                  path: seq<Cell>, rank: seq<nat>, k: nat, col: nat) returns (at: nat)
    requires Unpaired(m, rows, cols, order, r, c) && Alternating(m, order, r, c, path, rank)
    requires |path| % 2 == 1 && col == path[|path| - 1].1 && IsStar(m, k, col)
    ensures at < rank[|path| - 1]
    ensures exists j: nat :: IsPrime(m, k, j) && (k, j) !in path + [(k, col)]
    ensures forall j: nat :: IsPrime(m, k, j) ==>
              Alternating(m, order, r, c, path + [(k, col)] + [(k, j)], rank + [at] + [at])
  {
    at := ExtendByStar(m, rows, cols, order, r, c, path, rank, k);
    assert k in order;
    forall j: nat | IsPrime(m, k, j)
      ensures (k, j) !in path + [(k, col)]
      ensures Alternating(m, order, r, c, path + [(k, col)] + [(k, j)], rank + [at] + [at])
    {
      ExtendByPrime(m, rows, cols, order, r, c, path + [(k, col)], rank + [at], j);
    }
  }

  /** If every star below the last prime is on the path already, there is none. */
  lemma NoStarAfter(m: Grid<Mark>, rows: nat, cols: nat, order: seq<nat>, r: nat, c: nat,
                    path: seq<Cell>, rank: seq<nat>, col: nat)
    requires Unpaired(m, rows, cols, order, r, c) && Alternating(m, order, r, c, path, rank)
    requires |path| % 2 == 1 && col == path[|path| - 1].1
    requires forall i: nat :: IsStar(m, i, col) ==> (i, col) in path
    ensures !StarInCol(m, col)
  {
    forall i: nat ensures !IsStar(m, i, col) {
      if IsStar(m, i, col) {
        var at := ExtendByStar(m, rows, cols, order, r, c, path, rank, i);
      }
    }
  }

  /** w is m with the stars of the path unstarred, its primes starred, all other primes erased. */
  ghost predicate Augmented(m: Grid<Mark>, w: Grid<Mark>, rows: nat, cols: nat, path: seq<Cell>) {
    && Shaped(m, rows, cols) && Shaped(w, rows, cols)
    && forall i: nat, j: nat | i < rows && j < cols ::
         w[i][j] == if (i, j) in path then (if m[i][j] == Prime then Star else Normal)
                    else if m[i][j] == Star then Star else Normal
  }

  /** The path ends where no star is in the column of its last prime. */
  ghost predicate Maximal(m: Grid<Mark>, order: seq<nat>, r: nat, c: nat, path: seq<Cell>, rank: seq<nat>) {
    && Alternating(m, order, r, c, path, rank)
    && |path| % 2 == 1 && !StarInCol(m, path[|path| - 1].1)
  }

  /** A star in the row of a prime of the path is on the path. */
  lemma StarInPrimeRow(m: Grid<Mark>, order: seq<nat>, r: nat, c: nat, path: seq<Cell>, rank: seq<nat>, t: nat, k: nat)
    requires OnePerRow(m) && !StarInRow(m, r) && Alternating(m, order, r, c, path, rank)
    requires t < |path| && t % 2 == 0 && IsStar(m, path[t].0, k)
    ensures (path[t].0, k) in path
  {
    if t > 0 {
      assert IsStar(m, path[t - 1].0, path[t - 1].1);
      assert path[t - 1] == (path[t].0, k);
    }
  }

  /** A star in the column of a prime of the path comes next on the path. */
  lemma StarInPrimeCol(m: Grid<Mark>, order: seq<nat>, r: nat, c: nat, path: seq<Cell>, rank: seq<nat>, t: nat, k: nat)
    requires OnePerCol(m) && Maximal(m, order, r, c, path, rank)
    requires t < |path| && t % 2 == 0 && IsStar(m, k, path[t].1)
    ensures t + 1 < |path| && path[t + 1] == (k, path[t].1)
  {
    if t + 1 < |path| {
      assert IsStar(m, path[t + 1].0, path[t + 1].1);
    }
  }

  /** A star of the augmented mask is a prime of the path or a star off the path. */
  lemma AugmentedStar(m: Grid<Mark>, w: Grid<Mark>, rows: nat, cols: nat, order: seq<nat>, r: nat, c: nat,
                      path: seq<Cell>, rank: seq<nat>, i: nat, j: nat) returns (t: nat)
    requires Alternating(m, order, r, c, path, rank)
    requires Augmented(m, w, rows, cols, path) && IsStar(w, i, j)
    ensures t <= |path|
    ensures t == |path| ==> IsStar(m, i, j) && (i, j) !in path
    ensures t < |path| ==> t % 2 == 0 && path[t] == (i, j)
  {
    if (i, j) in path {
      t :| t < |path| && path[t] == (i, j);
    } else {
      t := |path|;
    }
  }

  lemma AugmentKeepsOnePerRow(m: Grid<Mark>, w: Grid<Mark>, rows: nat, cols: nat, order: seq<nat>, r: nat, c: nat,
                              path: seq<Cell>, rank: seq<nat>)
    requires Unpaired(m, rows, cols, order, r, c) && Maximal(m, order, r, c, path, rank)
    requires Augmented(m, w, rows, cols, path)
    ensures OnePerRow(w)
  {
    forall i, j, k | IsStar(w, i, j) && IsStar(w, i, k) ensures j == k {
      var t := AugmentedStar(m, w, rows, cols, order, r, c, path, rank, i, j);
      var u := AugmentedStar(m, w, rows, cols, order, r, c, path, rank, i, k);
      if t < |path| && u < |path| {
        RanksAreRows(m, order, r, c, path, rank, t, u);
      } else if t < |path| {
        StarInPrimeRow(m, order, r, c, path, rank, t, k);
      } else if u < |path| {
        StarInPrimeRow(m, order, r, c, path, rank, u, j);
      }
    }
  }

  /** Two primes of the path never share a column. */
  lemma PrimesInDistinctCols(m: Grid<Mark>, order: seq<nat>, r: nat, c: nat, path: seq<Cell>, rank: seq<nat>,
                             t: nat, u: nat)
    requires Distinct(order) && r !in order && OnePerCol(m) && Maximal(m, order, r, c, path, rank)
    requires t < |path| && u < |path| && t % 2 == 0 && u % 2 == 0 && path[t].1 == path[u].1
    ensures t == u
  {
    if t + 1 < |path| {
      assert IsStar(m, path[t + 1].0, path[t + 1].1);
      StarInPrimeCol(m, order, r, c, path, rank, u, path[t + 1].0);
      RanksAreRows(m, order, r, c, path, rank, t + 1, u + 1);
    } else if u + 1 < |path| {
      assert IsStar(m, path[u + 1].0, path[u + 1].1);
      StarInPrimeCol(m, order, r, c, path, rank, t, path[u + 1].0);
    }
  }

  lemma AugmentKeepsOnePerCol(m: Grid<Mark>, w: Grid<Mark>, rows: nat, cols: nat, order: seq<nat>, r: nat, c: nat,
                              path: seq<Cell>, rank: seq<nat>)
    requires Unpaired(m, rows, cols, order, r, c) && Maximal(m, order, r, c, path, rank)
    requires Augmented(m, w, rows, cols, path)
    ensures OnePerCol(w)
  {
    forall i, j, k | IsStar(w, i, j) && IsStar(w, k, j) ensures i == k {
      var t := AugmentedStar(m, w, rows, cols, order, r, c, path, rank, i, j);
      var u := AugmentedStar(m, w, rows, cols, order, r, c, path, rank, k, j);
      if t < |path| && u < |path| {
        PrimesInDistinctCols(m, order, r, c, path, rank, t, u);
      } else if t < |path| {
        StarInPrimeCol(m, order, r, c, path, rank, t, k);
      } else if u < |path| {
        StarInPrimeCol(m, order, r, c, path, rank, u, i);
      }
    }
  }

  lemma PrimeBecomesStar(m: Grid<Mark>, w: Grid<Mark>, rows: nat, cols: nat, order: seq<nat>, r: nat, c: nat,
                         path: seq<Cell>, rank: seq<nat>, t: nat)
    requires Alternating(m, order, r, c, path, rank) && Augmented(m, w, rows, cols, path)
    requires t < |path| && t % 2 == 0
    ensures IsStar(w, path[t].0, path[t].1)
  {
    assert IsPrime(m, path[t].0, path[t].1) && path[t] in path;
  }

  /** A star that the path unstars hands its column to the prime before it and its row to the one after. */
  lemma StarReplaced(m: Grid<Mark>, w: Grid<Mark>, rows: nat, cols: nat, order: seq<nat>, r: nat, c: nat,
                     path: seq<Cell>, rank: seq<nat>, i: nat, j: nat)
    requires Maximal(m, order, r, c, path, rank) && Augmented(m, w, rows, cols, path) && IsStar(m, i, j)
    ensures StarInRow(w, i) && StarInCol(w, j)
  {
    if (i, j) in path {
      var t :| 0 <= t < |path| && path[t] == (i, j);
      assert !IsPrime(m, path[t].0, path[t].1);
      PrimeBecomesStar(m, w, rows, cols, order, r, c, path, rank, t - 1);
      PrimeBecomesStar(m, w, rows, cols, order, r, c, path, rank, t + 1);
      assert path[t - 1].1 == path[t].1 && path[t + 1].0 == path[t].0;
    } else {
      assert IsStar(w, i, j);
    }
  }

  /** A star of the augmented mask lies in a starred line, or where the path starts or ends. */
  lemma StarOrigin(m: Grid<Mark>, w: Grid<Mark>, rows: nat, cols: nat, order: seq<nat>, r: nat, c: nat,
                   path: seq<Cell>, rank: seq<nat>, i: nat, j: nat)
    requires Maximal(m, order, r, c, path, rank) && Augmented(m, w, rows, cols, path) && IsStar(w, i, j)
    ensures StarInRow(m, i) || i == r
    ensures StarInCol(m, j) || j == path[|path| - 1].1
  {
    var t := AugmentedStar(m, w, rows, cols, order, r, c, path, rank, i, j);
    if 0 < t < |path| { assert IsStar(m, path[t - 1].0, path[t - 1].1); }
    if t + 1 < |path| { assert IsStar(m, path[t + 1].0, path[t + 1].1); }
  }

  lemma AugmentStarRows(m: Grid<Mark>, w: Grid<Mark>, rows: nat, cols: nat, order: seq<nat>, r: nat, c: nat,
                        path: seq<Cell>, rank: seq<nat>, i: nat)
    requires Unpaired(m, rows, cols, order, r, c) && Maximal(m, order, r, c, path, rank)
    requires Augmented(m, w, rows, cols, path) && i < rows
    ensures StarInRow(w, i) <==> StarInRow(m, i) || i == r
  {
    if StarInRow(m, i) {
      var j :| IsStar(m, i, j);
      StarReplaced(m, w, rows, cols, order, r, c, path, rank, i, j);
    }
    if StarInRow(w, i) {
      var j :| IsStar(w, i, j);
      StarOrigin(m, w, rows, cols, order, r, c, path, rank, i, j);
    }
    PrimeBecomesStar(m, w, rows, cols, order, r, c, path, rank, 0);
  }

  lemma AugmentStarCols(m: Grid<Mark>, w: Grid<Mark>, rows: nat, cols: nat, order: seq<nat>, r: nat, c: nat,
                        path: seq<Cell>, rank: seq<nat>, j: nat)
    requires Unpaired(m, rows, cols, order, r, c) && Maximal(m, order, r, c, path, rank)
    requires Augmented(m, w, rows, cols, path) && j < cols
    ensures StarInCol(w, j) <==> StarInCol(m, j) || j == path[|path| - 1].1
  {
    if StarInCol(m, j) {
      var i :| IsStar(m, i, j);
      StarReplaced(m, w, rows, cols, order, r, c, path, rank, i, j);
    }
    if StarInCol(w, j) {
      var i :| IsStar(w, i, j);
      StarOrigin(m, w, rows, cols, order, r, c, path, rank, i, j);
    }
    PrimeBecomesStar(m, w, rows, cols, order, r, c, path, rank, |path| - 1);
  }

  /**
   * Flipping the path keeps the stars independent, leaves every starred row and
   * column starred, and adds exactly the row it starts in and the column it ends in.
   */
  lemma AugmentAddsOne(m: Grid<Mark>, w: Grid<Mark>, rows: nat, cols: nat, order: seq<nat>, r: nat, c: nat,
                       path: seq<Cell>, rank: seq<nat>)
    requires Unpaired(m, rows, cols, order, r, c) && Maximal(m, order, r, c, path, rank)
    requires Augmented(m, w, rows, cols, path)
    ensures Independent(w) && NoPrimes(w)
    ensures r !in StarRows(m) && StarRows(w) == StarRows(m) + {r}
    ensures path[|path| - 1].1 !in StarCols(m, cols) && StarCols(w, cols) == StarCols(m, cols) + {path[|path| - 1].1}
    ensures |StarRows(w)| == |StarRows(m)| + 1 && |StarCols(w, cols)| == |StarCols(m, cols)| + 1
  {
    AugmentKeepsOnePerRow(m, w, rows, cols, order, r, c, path, rank);
    AugmentKeepsOnePerCol(m, w, rows, cols, order, r, c, path, rank);
    forall i: nat | i < rows ensures StarInRow(w, i) <==> StarInRow(m, i) || i == r {
      AugmentStarRows(m, w, rows, cols, order, r, c, path, rank, i);
    }
    forall j: nat | j < cols ensures StarInCol(w, j) <==> StarInCol(m, j) || j == path[|path| - 1].1 {
      AugmentStarCols(m, w, rows, cols, order, r, c, path, rank, j);
    }
    assert IsPrime(m, path[|path| - 1].0, path[|path| - 1].1);
  }

  /** The new stars lie on zeros, since stars and primes did. */
  lemma AugmentKeepsZeros(m: Grid<Mark>, w: Grid<Mark>, cost: Grid<real>, rows: nat, cols: nat, path: seq<Cell>)
    requires Augmented(m, w, rows, cols, path) && Shaped(cost, rows, cols)
    requires forall i, j :: IsStar(m, i, j) || IsPrime(m, i, j) ==> cost[i][j] == 0.0
    ensures forall i, j :: IsStar(w, i, j) ==> cost[i][j] == 0.0
  {
    forall i, j | IsStar(w, i, j) ensures cost[i][j] == 0.0 {
      assert IsStar(m, i, j) || IsPrime(m, i, j);
    }
  }
}
