/**
 * How good the match of a frame is: how much overlap it keeps, and whether
 * matched pairs overlap. The program promises the most overlap; this says when
 * it keeps the promise and what it maximises otherwise. A frame enters as the
 * grid of the overlaps of its tracks with its blobs.
 */
module MatchCoverage {
  import opened Grids
  import opened Assignments
  import opened MunkresSolver
  import opened SolverInvariant
  import opened BlobTracking
  import opened FiniteSets

  function Overlaps(tracks: seq<Track>, blobs: seq<Blob>, overlap: Overlap): (o: Grid<nat>)
    requires forall i | 0 <= i < |tracks| :: |tracks[i].history| > 0
    ensures Shaped(o, |tracks|, |blobs|)
    ensures forall i, j | 0 <= i < |tracks| && 0 <= j < |blobs| :: o[i][j] == Matches(tracks[i], blobs[j], overlap)
  {
    seq(|tracks|, i requires 0 <= i < |tracks| => seq(|blobs|, j requires 0 <= j < |blobs| => Matches(tracks[i], blobs[j], overlap)))
  }

  // ----- what a match is worth -----

  /** The overlap that a match of the first k tracks covers. */
  ghost function Coverage(o: Grid<nat>, n: nat, m: nat, b: Assignment, k: nat): nat
    requires Shaped(o, n, m) && IsAssignment(b, n, m) && k <= n
  {
    if k == 0 then 0 else Coverage(o, n, m, b, k - 1) + if k - 1 in b then o[k - 1][b[k - 1]] else 0
  }

  /** How many of the first k tracks are matched with a blob they do not overlap. */
  ghost function Strays(o: Grid<nat>, n: nat, m: nat, b: Assignment, k: nat): nat
    requires Shaped(o, n, m) && IsAssignment(b, n, m) && k <= n
  {
    if k == 0 then 0 else Strays(o, n, m, b, k - 1) + if k - 1 in b && o[k - 1][b[k - 1]] == 0 then 1 else 0
  }

  ghost function WorthOf(o: Grid<nat>, n: nat, m: nat, b: Assignment, stray: int, i: nat): int
    requires Shaped(o, n, m) && IsAssignment(b, n, m) && i < n
  {
    if i !in b then 0 else if o[i][b[i]] == 0 then stray else o[i][b[i]]
  }

  /** Overlap covered, with each stray counting for `stray`. */
  ghost function Worth(o: Grid<nat>, n: nat, m: nat, b: Assignment, stray: int, k: nat): int
    requires Shaped(o, n, m) && IsAssignment(b, n, m) && k <= n
  {
    if k == 0 then 0 else Worth(o, n, m, b, stray, k - 1) + WorthOf(o, n, m, b, stray, k - 1)
  }

  lemma {:induction false} WorthSplits(o: Grid<nat>, n: nat, m: nat, b: Assignment, stray: int, k: nat)
    requires Shaped(o, n, m) && IsAssignment(b, n, m) && k <= n
    ensures Worth(o, n, m, b, stray, k) == Coverage(o, n, m, b, k) + stray * Strays(o, n, m, b, k)
  {
    if k > 0 { WorthSplits(o, n, m, b, stray, k - 1); }
  }

  // ----- conditions on the overlaps of a frame -----

  ghost predicate Occurs(o: Grid<nat>, s: nat) { exists i, j :: 0 <= i < |o| && 0 <= j < |o[i]| && o[i][j] == s }

  ghost predicate IsTop(o: Grid<nat>, best: nat) {
    && (forall i, j | 0 <= i < |o| && 0 <= j < |o[i]| :: o[i][j] <= best)
    && (best > 0 ==> Occurs(o, best))
  }

  /** The smallest overlap of a pair that overlaps. */
  ghost predicate IsLeast(o: Grid<nat>, least: nat) {
    least > 0 && Occurs(o, least) && forall i, j | 0 <= i < |o| && 0 <= j < |o[i]| :: o[i][j] == 0 || o[i][j] >= least
  }

  /** No overlap is one pixel short of the best: no cost is zero. */
  ghost predicate NoneOneShort(o: Grid<nat>, best: nat) { best > 1 ==> !Occurs(o, best - 1) }

  ghost predicate AllOverlap(o: Grid<nat>) { !Occurs(o, 0) }

  ghost predicate AllEqual(o: Grid<nat>, best: nat) {
    forall i, j | 0 <= i < |o| && 0 <= j < |o[i]| :: o[i][j] == 0 || o[i][j] == best
  }

  /**
   * What a pair that does not overlap is worth to the solver: an infinite cost is
   * replaced by one more than the largest finite cost, but at least by 1.
   */
  function StrayWorth(best: nat, least: nat): int { if least < best then least - 1 else best - 2 }

  // ----- the answer of the solver for a frame -----

  ghost predicate IsCharge(g: Grid<Cost>, o: Grid<nat>, n: nat, m: nat, best: nat)
    requires Shaped(o, n, m)
  {
    && Shaped(g, Larger(n, m), Larger(n, m))
    && forall i, j | 0 <= i < |g| && 0 <= j < |g[i]| ::
         g[i][j] == if i < n && j < m && o[i][j] > 0 then Finite((best - 1 - o[i][j]) as real) else Infinite
  }

  /** The match is a solver answer for the costs of these overlaps, cut down to real tracks and blobs. */
  ghost predicate Answered(o: Grid<nat>, n: nat, m: nat, best: nat, match_: Assignment)
    requires Shaped(o, n, m)
  {
    exists g, a :: IsCharge(g, o, n, m, best) && SolverAnswer(g, a, Larger(n, m)) && match_ == Restricted(a, n, m)
  }

  /** The match of every frame is such an answer. */
  lemma FrameIsAnswered(tracks: seq<Track>, blobs: seq<Blob>, overlap: Overlap, match_: Assignment) returns (best: nat)
    requires Measurable(tracks) && MatchedBySolver(tracks, blobs, overlap, match_)
    ensures IsBest(tracks, blobs, overlap, best) && IsTop(Overlaps(tracks, blobs, overlap), best)
    ensures Answered(Overlaps(tracks, blobs, overlap), |tracks|, |blobs|, best, match_)
  {
    var g, top, a :| IsBest(tracks, blobs, overlap, top) && IsCostMatrix(g, tracks, blobs, overlap, top)
      && SolverAnswer(g, a, Larger(|tracks|, |blobs|)) && match_ == Restricted(a, |tracks|, |blobs|);
    best := top;
    BestIsTop(tracks, blobs, overlap, best);
    ChargesAreCosts(g, tracks, blobs, overlap, best);
  }

  lemma BestIsTop(tracks: seq<Track>, blobs: seq<Blob>, overlap: Overlap, best: nat)
    requires Measurable(tracks) && IsBest(tracks, blobs, overlap, best)
    ensures IsTop(Overlaps(tracks, blobs, overlap), best)
  {
    if best > 0 {
      var i, j :| 0 <= i < |tracks| && 0 <= j < |blobs| && Matches(tracks[i], blobs[j], overlap) == best;
      assert Overlaps(tracks, blobs, overlap)[i][j] == best;
    }
  }

  lemma ChargesAreCosts(g: Grid<Cost>, tracks: seq<Track>, blobs: seq<Blob>, overlap: Overlap, best: nat)
    requires Measurable(tracks) && IsCostMatrix(g, tracks, blobs, overlap, best)
    ensures IsCharge(g, Overlaps(tracks, blobs, overlap), |tracks|, |blobs|, best)
  {
    forall i, j | 0 <= i < |g| && 0 <= j < |g[i]|
      ensures g[i][j] == if i < |tracks| && j < |blobs| && Overlaps(tracks, blobs, overlap)[i][j] > 0
                         then Finite((best - 1 - Overlaps(tracks, blobs, overlap)[i][j]) as real) else Infinite
    {
      assert g[i][j] == CostOf(tracks, blobs, overlap, best, i, j);
    }
  }

  /** The match is complete on the shorter side. */
  lemma MatchIsComplete(o: Grid<nat>, n: nat, m: nat, best: nat, match_: Assignment)
    requires Shaped(o, n, m) && Answered(o, n, m, best, match_)
    ensures IsAssignment(match_, n, m) && |match_| == MinSize(n, m)
  {
    var g, a :| IsCharge(g, o, n, m, best) && SolverAnswer(g, a, Larger(n, m)) && match_ == Restricted(a, n, m);
    RestrictedIsFull(a, n, m);
  }

  // ----- the cost that stands for infinity -----

  lemma {:induction false} RowHighIsReached(row: seq<Cost>)
    ensures RowHigh(row) == 0.0 || exists j :: 0 <= j < |row| && row[j] == Finite(RowHigh(row))
  {
    if |row| > 0 {
      var short := row[..|row| - 1];
      RowHighIsReached(short);
      if RowHigh(row) != 0.0 && RowHigh(row) == RowHigh(short) {
        var j :| 0 <= j < |short| && short[j] == Finite(RowHigh(short));
        assert row[j] == Finite(RowHigh(row));
      }
    }
  }

  lemma {:induction false} HighIsReached(g: Grid<Cost>)
    ensures High(g) == 0.0 || exists i, j :: 0 <= i < |g| && 0 <= j < |g[i]| && g[i][j] == Finite(High(g))
  {
    if |g| > 0 {
      var n := |g| - 1;
      HighIsReached(g[..n]);
      RowHighIsReached(g[n]);
      if High(g) != 0.0 && High(g) == High(g[..n]) {
        var i, j :| 0 <= i < n && 0 <= j < |g[..n][i]| && g[..n][i][j] == Finite(High(g[..n]));
        assert g[i][j] == Finite(High(g));
      } else if High(g) != 0.0 {
        var j :| 0 <= j < |g[n]| && g[n][j] == Finite(RowHigh(g[n]));
        assert g[n][j] == Finite(High(g));
      }
    }
  }

  lemma HighOfFrame(g: Grid<Cost>, o: Grid<nat>, n: nat, m: nat, best: nat, least: nat)
    requires Shaped(o, n, m) && IsCharge(g, o, n, m, best) && IsTop(o, best) && IsLeast(o, least)
    ensures High(g) + 1.0 == (best - 1 - StrayWorth(best, least)) as real
  {
    HighBounds(g);
    HighIsReached(g);
    var i, j :| 0 <= i < |o| && 0 <= j < |o[i]| && o[i][j] == least;
    assert g[i][j] == Finite((best - 1 - least) as real);
  }

  // ----- cost and worth of an assignment of the whole square add up -----

  /** x for each of the first k rows that b matches, y for each of the others. */
  ghost function Even(b: Assignment, x: real, y: real, k: nat): real {
    if k == 0 then 0.0 else Even(b, x, y, k - 1) + if k - 1 in b then x else y
  }

  lemma {:induction false} EvenBySize(b: Assignment, x: real, y: real, k: nat)
    ensures Even(b, x, y, k) == Repeat(x - y, Size(b, k)) + Repeat(y, k)
  {
    if k > 0 { EvenBySize(b, x, y, k - 1); }
  }

  /** A complete assignment of the square, and the part of it that matches tracks with blobs. */
  ghost predicate Square(g: Grid<Cost>, n: nat, m: nat, a: Assignment, r: Assignment) {
    && Shaped(g, Larger(n, m), Larger(n, m)) && IsAssignment(a, |g|, |g|) && (forall i: nat | i < |g| :: i in a)
    && r == Restricted(a, n, m) && IsAssignment(r, n, m)
  }

  lemma CellBalance(g: Grid<Cost>, o: Grid<nat>, n: nat, m: nat, best: nat, stray: int, a: Assignment, r: Assignment, i: nat)
    requires Shaped(o, n, m) && IsCharge(g, o, n, m, best) && Square(g, n, m, a, r) && i < n
    requires High(g) + 1.0 == (best - 1 - stray) as real
    ensures Substituted(g)[i][a[i]] + WorthOf(o, n, m, r, stray, i) as real == if i in r then (best - 1) as real else High(g) + 1.0
  {
    assert i in r <==> a[i] < m;
  }

  lemma {:induction false} CostPlusWorth(g: Grid<Cost>, o: Grid<nat>, n: nat, m: nat, best: nat, stray: int,
                                         a: Assignment, r: Assignment, k: nat)
    requires Shaped(o, n, m) && IsCharge(g, o, n, m, best) && Square(g, n, m, a, r) && k <= n
    requires High(g) + 1.0 == (best - 1 - stray) as real
    ensures Total(Substituted(g), a, k) + Worth(o, n, m, r, stray, k) as real == Even(r, (best - 1) as real, High(g) + 1.0, k)
  {
    if k > 0 {
      CostPlusWorth(g, o, n, m, best, stray, a, r, k - 1);
      CellBalance(g, o, n, m, best, stray, a, r, k - 1);
    }
  }

  lemma {:induction false} CostOfSquare(g: Grid<Cost>, o: Grid<nat>, n: nat, m: nat, best: nat, stray: int,
                                        a: Assignment, r: Assignment, k: nat)
    requires Shaped(o, n, m) && IsCharge(g, o, n, m, best) && Square(g, n, m, a, r) && n <= k <= |g|
    requires High(g) + 1.0 == (best - 1 - stray) as real
    ensures Total(Substituted(g), a, k) + Worth(o, n, m, r, stray, n) as real == Even(r, (best - 1) as real, High(g) + 1.0, k)
    decreases k
  {
    if k == n {
      CostPlusWorth(g, o, n, m, best, stray, a, r, k);
    } else {
      CostOfSquare(g, o, n, m, best, stray, a, r, k - 1);
    }
  }

  /** So cost and worth balance the same for all matches of one size. */
  lemma SquareBalance(g: Grid<Cost>, o: Grid<nat>, n: nat, m: nat, best: nat, stray: int, a: Assignment, r: Assignment,
                      x: real, y: real, size: nat)
    requires Shaped(o, n, m) && IsCharge(g, o, n, m, best) && Square(g, n, m, a, r) && |r| == size
    requires High(g) + 1.0 == (best - 1 - stray) as real == y && x == (best - 1) as real
    ensures Total(Substituted(g), a, |g|) + Worth(o, n, m, r, stray, n) as real == Repeat(x - y, size) + Repeat(y, |g|)
  {
    CostOfSquare(g, o, n, m, best, stray, a, r, |g|);
    EvenBySize(r, x, y, |g|);
    SizeOfAll(r, |g|, |g|);
  }

  // ----- any match of a frame is part of an assignment of the whole square -----

  lemma FreeLine(s: set<nat>, n: nat) returns (k: nat)
    requires s <= Below(n) && |s| < n
    ensures k < n && k !in s
  {
    var free := Below(n) - s;
    assert Below(n) == s + free;
    k :| k in free;
  }

  lemma OnePairMore(b: Assignment, n: nat, i: nat, j: nat)
    requires IsAssignment(b, n, n) && i < n && j < n && i !in b && j !in b.Values
    ensures IsAssignment(b[i := j], n, n) && |b[i := j]| == |b| + 1
  {
    assert forall k | k in b :: b[k] in b.Values;
    assert b[i := j].Keys == b.Keys + {i};
    assert |b[i := j]| == |b[i := j].Keys| && |b| == |b.Keys|;
  }

  lemma AddPair(b: Assignment, n: nat) returns (more: Assignment)
    requires IsAssignment(b, n, n) && |b| < n
    ensures IsAssignment(more, n, n) && |more| == |b| + 1 && forall i | i in b :: i in more && more[i] == b[i]
  {
    ValuesSize(b);
    SizeWithin(b, n);
    assert |b.Keys| == |b|;
    var i := FreeLine(b.Keys, n);
    var j := FreeLine(b.Values, n);
    OnePairMore(b, n, i, j);
    more := b[i := j];
  }

  lemma {:induction false} ExtendToSquare(b: Assignment, n: nat) returns (a: Assignment)
    requires IsAssignment(b, n, n)
    ensures IsAssignment(a, n, n) && |a| == n && forall i | i in b :: i in a && a[i] == b[i]
    decreases n - |b|
  {
    SizeWithin(b, n);
    if |b| == n {
      a := b;
    } else {
      var more := AddPair(b, n);
      a := ExtendToSquare(more, n);
    }
  }

  lemma SizeWithin(b: Assignment, n: nat)
    requires IsAssignment(b, n, n)
    ensures b.Keys <= Below(n) && b.Values <= Below(n) && |b| <= n
  {
    assert |b| == |b.Keys|;
    SubsetSize(b.Keys, Below(n));
  }

  /** Any match of a frame is part of one complete on the shorter side that comes from an assignment of the square. */
  lemma ExtendMatch(n: nat, m: nat, b: Assignment) returns (a: Assignment, r: Assignment)
    requires IsAssignment(b, n, m)
    ensures IsAssignment(a, Larger(n, m), Larger(n, m)) && |a| == Larger(n, m) && r == Restricted(a, n, m)
    ensures IsAssignment(r, n, m) && |r| == MinSize(n, m) && forall i | i in b :: i in r && r[i] == b[i]
  {
    a := ExtendToSquare(b, Larger(n, m));
    r := Restricted(a, n, m);
    RestrictedIsFull(a, n, m);
  }

  lemma SameSizeSame(b: Assignment, r: Assignment)
    requires |b| == |r| && forall i | i in b :: i in r && r[i] == b[i]
    ensures b == r
  {
    assert b.Keys <= r.Keys && |b.Keys| == |b| && |r.Keys| == |r|;
    SubsetSize(b.Keys, r.Keys);
  }

  // ----- what the solver's answer maximises -----

  /** A cost is zero exactly where an overlap is one pixel short of the best. Unless there is one, an answer is cheapest. */
  lemma CheapestUnlessOneShort(g: Grid<Cost>, o: Grid<nat>, n: nat, m: nat, best: nat, a: Assignment)
    requires Shaped(o, n, m) && IsCharge(g, o, n, m, best) && SolverAnswer(g, a, Larger(n, m)) && NoneOneShort(o, best)
    ensures IsCheapest(Substituted(g), a, Larger(n, m), Larger(n, m))
  {
    forall i, j | 0 <= i < |g| && 0 <= j < |g[i]| && g[i][j].Finite? ensures g[i][j].value != 0.0 {
      assert Occurs(o, o[i][j]);
    }
  }

  /**
   * When no overlap is one pixel short of the best, the match of a frame is worth
   * most among all that are complete on the shorter side: the overlap it covers,
   * with each pair that does not overlap counting as one pixel less than the least
   * overlap (two less when all overlaps are equal).
   */
  lemma MatchIsWorthMost(o: Grid<nat>, n: nat, m: nat, best: nat, least: nat, match_: Assignment, b: Assignment)
    requires Shaped(o, n, m) && IsTop(o, best) && Answered(o, n, m, best, match_)
    requires NoneOneShort(o, best) && IsLeast(o, least)
    requires IsAssignment(b, n, m) && |b| == MinSize(n, m)
    ensures IsAssignment(match_, n, m) && |match_| == MinSize(n, m)
    ensures Worth(o, n, m, match_, StrayWorth(best, least), n) >= Worth(o, n, m, b, StrayWorth(best, least), n)
  {
    MatchIsComplete(o, n, m, best, match_);
    var g, a :| IsCharge(g, o, n, m, best) && SolverAnswer(g, a, Larger(n, m)) && match_ == Restricted(a, n, m);
    HighOfFrame(g, o, n, m, best, least);
    CheapestUnlessOneShort(g, o, n, m, best, a);
    AnswerIsWorthMost(g, o, n, m, best, StrayWorth(best, least), a, match_, b);
  }

  lemma AnswerIsWorthMost(g: Grid<Cost>, o: Grid<nat>, n: nat, m: nat, best: nat, stray: int, a: Assignment, match_: Assignment, b: Assignment)
    requires Shaped(o, n, m) && IsCharge(g, o, n, m, best) && High(g) + 1.0 == (best - 1 - stray) as real
    requires IsAssignment(a, |g|, |g|) && |a| == |g| && IsCheapest(Substituted(g), a, |g|, |g|) && match_ == Restricted(a, n, m)
    requires IsAssignment(match_, n, m) && |match_| == MinSize(n, m) && IsAssignment(b, n, m) && |b| == MinSize(n, m)
    ensures Worth(o, n, m, match_, stray, n) >= Worth(o, n, m, b, stray, n)
  {
    var c, r := ExtendMatch(n, m, b);
    SameSizeSame(b, r);
    CheaperIsWorthMore(g, o, n, m, best, stray, a, match_, c, b);
  }

  /** Of two assignments of the square the cheaper is worth more. */
  lemma CheaperIsWorthMore(g: Grid<Cost>, o: Grid<nat>, n: nat, m: nat, best: nat, stray: int,
                           a: Assignment, ra: Assignment, c: Assignment, rc: Assignment)
    requires Shaped(o, n, m) && IsCharge(g, o, n, m, best) && High(g) + 1.0 == (best - 1 - stray) as real
    requires IsAssignment(a, |g|, |g|) && |a| == |g| && ra == Restricted(a, n, m) && IsAssignment(ra, n, m)
    requires IsAssignment(c, |g|, |g|) && |c| == |g| && rc == Restricted(c, n, m) && IsAssignment(rc, n, m)
    requires |ra| == |rc| && Total(Substituted(g), a, |g|) <= Total(Substituted(g), c, |g|)
    ensures Worth(o, n, m, ra, stray, n) >= Worth(o, n, m, rc, stray, n)
  {
    AllRowsUsed(a, |g|);
    AllRowsUsed(c, |g|);
    CheaperAt(g, o, n, m, best, stray, a, ra, c, rc, (best - 1) as real, High(g) + 1.0, |ra|);
  }

  lemma CheaperAt(g: Grid<Cost>, o: Grid<nat>, n: nat, m: nat, best: nat, stray: int,
                  a: Assignment, ra: Assignment, c: Assignment, rc: Assignment, x: real, y: real, size: nat)
    requires Shaped(o, n, m) && IsCharge(g, o, n, m, best) && Square(g, n, m, a, ra) && Square(g, n, m, c, rc)
    requires High(g) + 1.0 == (best - 1 - stray) as real == y && x == (best - 1) as real
    requires |ra| == |rc| == size && Total(Substituted(g), a, |g|) <= Total(Substituted(g), c, |g|)
    ensures Worth(o, n, m, ra, stray, n) >= Worth(o, n, m, rc, stray, n)
  {
    SquareBalance(g, o, n, m, best, stray, a, ra, x, y, size);
    SquareBalance(g, o, n, m, best, stray, c, rc, x, y, size);
    SameBalance(Total(Substituted(g), a, |g|), Total(Substituted(g), c, |g|), Worth(o, n, m, ra, stray, n), Worth(o, n, m, rc, stray, n),
                Repeat(x - y, size) + Repeat(y, |g|));
  }

  lemma SameBalance(ca: real, cc: real, wa: int, wc: int, level: real)
    requires ca + wa as real == level && cc + wc as real == level && ca <= cc
    ensures wa >= wc
  {
  }

  // ----- counting -----

  lemma {:induction false} CountStrays(o: Grid<nat>, n: nat, m: nat, b: Assignment, k: nat)
    requires Shaped(o, n, m) && IsAssignment(b, n, m) && k <= n
    ensures Strays(o, n, m, b, k) == 0 <==> forall i | i in b && i < k :: o[i][b[i]] > 0
    ensures Strays(o, n, m, b, k) <= Size(b, k)
    ensures Strays(o, n, m, b, k) == Size(b, k) ==> Coverage(o, n, m, b, k) == 0
  {
    if k > 0 { CountStrays(o, n, m, b, k - 1); }
  }

  /** With equal overlaps, each pair that is no stray covers as much as any other. */
  lemma {:induction false} EqualCoverage(o: Grid<nat>, n: nat, m: nat, best: nat, b: Assignment, k: nat)
    requires Shaped(o, n, m) && IsAssignment(b, n, m) && k <= n && AllEqual(o, best)
    ensures Coverage(o, n, m, b, k) == best * (Size(b, k) - Strays(o, n, m, b, k))
  {
    if k > 0 {
      EqualCoverage(o, n, m, best, b, k - 1);
      var before := Size(b, k - 1) - Strays(o, n, m, b, k - 1);
      assert best * (before + 1) == best * before + best;
    }
  }

  lemma {:induction false} LeastExists(o: Grid<nat>, s: nat) returns (least: nat)
    requires s > 0 && Occurs(o, s)
    ensures least <= s && IsLeast(o, least)
    decreases s
  {
    if i, j :| 0 <= i < |o| && 0 <= j < |o[i]| && 0 < o[i][j] < s {
      least := LeastExists(o, o[i][j]);
    } else {
      least := s;
    }
  }

  // ----- what the match maximises -----

  lemma EqualWorth(o: Grid<nat>, n: nat, m: nat, best: nat, stray: int, b: Assignment)
    requires Shaped(o, n, m) && IsAssignment(b, n, m) && AllEqual(o, best)
    ensures Coverage(o, n, m, b, n) == best * (|b| - Strays(o, n, m, b, n))
    ensures Worth(o, n, m, b, stray, n) == best * |b| - (best - stray) * Strays(o, n, m, b, n)
  {
    EqualCoverage(o, n, m, best, b, n);
    SizeOfAll(b, n, m);
    WorthSplits(o, n, m, b, stray, n);
    Distribute(best, stray, |b|, Strays(o, n, m, b, n));
  }

  lemma Distribute(best: int, stray: int, size: int, strays: int)
    ensures best * (size - strays) + stray * strays == best * size - (best - stray) * strays
  {
  }

  lemma FewerIsMore(best: nat, size: int, sa: int, sb: int)
    requires sa <= sb
    ensures best * (size - sa) >= best * (size - sb)
  {
  }

  /** With equal overlaps both weights of a stray order the matches of one size by their strays. */
  lemma EqualOrder(o: Grid<nat>, n: nat, m: nat, best: nat, a: Assignment, b: Assignment)
    requires Shaped(o, n, m) && IsAssignment(a, n, m) && IsAssignment(b, n, m) && |a| == |b| && AllEqual(o, best)
    requires Worth(o, n, m, a, best - 2, n) >= Worth(o, n, m, b, best - 2, n)
    ensures Strays(o, n, m, a, n) <= Strays(o, n, m, b, n)
    ensures Coverage(o, n, m, a, n) >= Coverage(o, n, m, b, n)
    ensures Worth(o, n, m, a, best - 1, n) >= Worth(o, n, m, b, best - 1, n)
  {
    EqualWorth(o, n, m, best, best - 2, a);
    EqualWorth(o, n, m, best, best - 2, b);
    EqualWorth(o, n, m, best, best - 1, a);
    EqualWorth(o, n, m, best, best - 1, b);
    FewerIsMore(best, |a|, Strays(o, n, m, a, n), Strays(o, n, m, b, n));
  }

  lemma EqualLeast(o: Grid<nat>, best: nat, least: nat)
    requires AllEqual(o, best) && IsLeast(o, least)
    ensures least == best
  {
  }

  lemma LeastIsTop(o: Grid<nat>, best: nat, least: nat)
    requires IsTop(o, best) && IsLeast(o, least) && least >= best
    ensures least == best && AllEqual(o, best)
  {
  }

  lemma BestIsOne(tracks: seq<Track>, blobs: seq<Blob>, overlap: Overlap, best: nat, other: nat)
    requires Measurable(tracks) && IsBest(tracks, blobs, overlap, best) && IsBest(tracks, blobs, overlap, other)
    ensures best == other
  {
  }

  /**
   * In every case without an overlap one short of the best, what is maximised is
   * coverage plus, for each stray, one pixel less than the least overlap.
   */
  lemma MatchMaximises(o: Grid<nat>, n: nat, m: nat, best: nat, least: nat, match_: Assignment, b: Assignment)
    requires Shaped(o, n, m) && IsTop(o, best) && Answered(o, n, m, best, match_)
    requires NoneOneShort(o, best) && IsLeast(o, least) && IsAssignment(b, n, m) && |b| == MinSize(n, m)
    ensures IsAssignment(match_, n, m)
    ensures Coverage(o, n, m, match_, n) + (least - 1) * Strays(o, n, m, match_, n)
         >= Coverage(o, n, m, b, n) + (least - 1) * Strays(o, n, m, b, n)
  {
    MatchIsWorthMost(o, n, m, best, least, match_, b);
    if least >= best {
      LeastIsTop(o, best, least);
      EqualOrder(o, n, m, best, match_, b);
    }
    WorthSplits(o, n, m, match_, least - 1, n);
    WorthSplits(o, n, m, b, least - 1, n);
  }

  // ----- when matched pairs overlap -----

  /** Every pair of b overlaps. */
  ghost predicate Overlapping(o: Grid<nat>, n: nat, m: nat, b: Assignment)
    requires Shaped(o, n, m) && IsAssignment(b, n, m)
  {
    forall i | i in b :: o[i][b[i]] > 0
  }

  /** The overlapping pairs allow a match that is complete on the shorter side. */
  ghost predicate CanAllOverlap(o: Grid<nat>, n: nat, m: nat)
    requires Shaped(o, n, m)
  {
    exists b :: IsAssignment(b, n, m) && |b| == MinSize(n, m) && Overlapping(o, n, m, b)
  }

  /** Every matched pair overlaps when every track overlaps every blob. */
  lemma AllOverlapMatches(o: Grid<nat>, n: nat, m: nat, best: nat, match_: Assignment)
    requires Shaped(o, n, m) && Answered(o, n, m, best, match_) && AllOverlap(o)
    ensures IsAssignment(match_, n, m) && Overlapping(o, n, m, match_)
  {
    MatchIsComplete(o, n, m, best, match_);
    forall i | i in match_ ensures o[i][match_[i]] > 0 {
      assert Occurs(o, o[i][match_[i]]);
    }
  }

  /** Some matched pair does not overlap whenever no complete match of overlapping pairs exists. */
  lemma StrayUnlessPossible(o: Grid<nat>, n: nat, m: nat, best: nat, match_: Assignment)
    requires Shaped(o, n, m) && Answered(o, n, m, best, match_) && !CanAllOverlap(o, n, m)
    ensures IsAssignment(match_, n, m) && exists i :: i in match_ && o[i][match_[i]] == 0
  {
    MatchIsComplete(o, n, m, best, match_);
    assert !Overlapping(o, n, m, match_);
  }

  /**
   * Where overlaps are all equal, or one side has a single member and no overlap is
   * one short of the best, every matched pair overlaps exactly when that is possible.
   */
  lemma OverlapsIfPossible(o: Grid<nat>, n: nat, m: nat, best: nat, match_: Assignment)
    requires Shaped(o, n, m) && IsTop(o, best) && Answered(o, n, m, best, match_)
    requires AllEqual(o, best) || (MinSize(n, m) <= 1 && NoneOneShort(o, best))
    ensures IsAssignment(match_, n, m) && (Overlapping(o, n, m, match_) <==> CanAllOverlap(o, n, m))
  {
    MatchIsComplete(o, n, m, best, match_);
    NothingOverlapsAtZero(o, n, m, match_, best);
    if CanAllOverlap(o, n, m) && best > 0 {
      var b :| IsAssignment(b, n, m) && |b| == MinSize(n, m) && Overlapping(o, n, m, b);
      CountStrays(o, n, m, match_, n);
      if AllEqual(o, best) {
        EqualHasNoStray(o, n, m, best, match_, b);
      } else {
        SingleHasNoStray(o, n, m, best, match_, b);
      }
    }
  }

  lemma EqualHasNoStray(o: Grid<nat>, n: nat, m: nat, best: nat, match_: Assignment, b: Assignment)
    requires Shaped(o, n, m) && IsTop(o, best) && Answered(o, n, m, best, match_) && best > 0 && AllEqual(o, best)
    requires IsAssignment(b, n, m) && |b| == MinSize(n, m) && Overlapping(o, n, m, b)
    ensures IsAssignment(match_, n, m) && Strays(o, n, m, match_, n) == 0
  {
    var least := LeastExists(o, best);
    EqualIsNotShort(o, best);
    EqualLeast(o, best, least);
    MatchIsWorthMost(o, n, m, best, least, match_, b);
    EqualOrder(o, n, m, best, match_, b);
    CountStrays(o, n, m, b, n);
  }

  lemma SingleHasNoStray(o: Grid<nat>, n: nat, m: nat, best: nat, match_: Assignment, b: Assignment)
    requires Shaped(o, n, m) && IsTop(o, best) && Answered(o, n, m, best, match_) && best > 0
    requires MinSize(n, m) <= 1 && NoneOneShort(o, best)
    requires IsAssignment(b, n, m) && |b| == MinSize(n, m) && Overlapping(o, n, m, b)
    ensures IsAssignment(match_, n, m) && Strays(o, n, m, match_, n) == 0
  {
    var least := LeastExists(o, best);
    MatchIsComplete(o, n, m, best, match_);
    MatchMaximises(o, n, m, best, least, match_, b);
    CountStrays(o, n, m, b, n);
    CountStrays(o, n, m, match_, n);
    SizeOfAll(match_, n, m);
    SizeOfAll(b, n, m);
    AtLeastLeast(o, n, m, least, b, n);
    if |b| == 1 { NoSingleStray(least, Strays(o, n, m, match_, n), Coverage(o, n, m, match_, n), Coverage(o, n, m, b, n)); }
  }

  lemma EqualIsNotShort(o: Grid<nat>, best: nat)
    requires AllEqual(o, best)
    ensures NoneOneShort(o, best)
  {
  }

  lemma NoSingleStray(least: nat, strays: nat, ca: nat, cb: nat)
    requires strays <= 1 && (strays == 1 ==> ca == 0) && cb >= least
    requires ca + (least - 1) * strays >= cb + (least - 1) * 0
    ensures strays == 0
  {
    assert strays == 1 ==> (least - 1) * strays == least - 1;
  }

  lemma {:induction false} AtLeastLeast(o: Grid<nat>, n: nat, m: nat, least: nat, b: Assignment, k: nat)
    requires Shaped(o, n, m) && IsAssignment(b, n, m) && k <= n && IsLeast(o, least) && Overlapping(o, n, m, b)
    ensures Size(b, k) > 0 ==> Coverage(o, n, m, b, k) >= least
  {
    if k > 0 { AtLeastLeast(o, n, m, least, b, k - 1); }
  }

  /** When nothing overlaps, only an empty match can overlap throughout. */
  lemma NothingOverlapsAtZero(o: Grid<nat>, n: nat, m: nat, match_: Assignment, best: nat)
    requires Shaped(o, n, m) && IsTop(o, best) && IsAssignment(match_, n, m) && |match_| == MinSize(n, m)
    ensures best == 0 && CanAllOverlap(o, n, m) ==> Overlapping(o, n, m, match_)
    ensures Overlapping(o, n, m, match_) ==> CanAllOverlap(o, n, m)
  {
    if best == 0 && CanAllOverlap(o, n, m) {
      var b :| IsAssignment(b, n, m) && |b| == MinSize(n, m) && Overlapping(o, n, m, b);
      assert b.Keys == {};
      assert |b.Keys| == |b| == |match_| == |match_.Keys|;
    }
  }

  // ----- the same for frames -----

  /** What is promised of the overlap of matched pairs, for the match of any frame. */
  lemma FrameOverlaps(tracks: seq<Track>, blobs: seq<Blob>, overlap: Overlap, match_: Assignment, best: nat)
    requires Measurable(tracks) && MatchedBySolver(tracks, blobs, overlap, match_) && IsBest(tracks, blobs, overlap, best)
    ensures IsAssignment(match_, |tracks|, |blobs|)
    ensures var o, n, m := Overlaps(tracks, blobs, overlap), |tracks|, |blobs|;
            && (AllOverlap(o) ==> Overlapping(o, n, m, match_))
            && (!CanAllOverlap(o, n, m) ==> exists i :: i in match_ && o[i][match_[i]] == 0)
            && (AllEqual(o, best) || (MinSize(n, m) <= 1 && NoneOneShort(o, best)) ==>
                  (Overlapping(o, n, m, match_) <==> CanAllOverlap(o, n, m)))
  {
    var o, n, m := Overlaps(tracks, blobs, overlap), |tracks|, |blobs|;
    var top := FrameIsAnswered(tracks, blobs, overlap, match_);
    BestIsOne(tracks, blobs, overlap, best, top);
    MatchIsComplete(o, n, m, best, match_);
    if AllOverlap(o) { AllOverlapMatches(o, n, m, best, match_); }
    if !CanAllOverlap(o, n, m) { StrayUnlessPossible(o, n, m, best, match_); }
    if AllEqual(o, best) || (MinSize(n, m) <= 1 && NoneOneShort(o, best)) { OverlapsIfPossible(o, n, m, best, match_); }
  }

  /** What the match of any frame maximises when no overlap is one short of the best. */
  lemma FrameMaximises(tracks: seq<Track>, blobs: seq<Blob>, overlap: Overlap, match_: Assignment, best: nat, least: nat, b: Assignment)
    requires Measurable(tracks) && MatchedBySolver(tracks, blobs, overlap, match_) && IsBest(tracks, blobs, overlap, best)
    requires NoneOneShort(Overlaps(tracks, blobs, overlap), best) && IsLeast(Overlaps(tracks, blobs, overlap), least)
    requires IsAssignment(b, |tracks|, |blobs|) && |b| == MinSize(|tracks|, |blobs|)
    ensures IsAssignment(match_, |tracks|, |blobs|)
    ensures var o, n, m := Overlaps(tracks, blobs, overlap), |tracks|, |blobs|;
            Coverage(o, n, m, match_, n) + (least - 1) * Strays(o, n, m, match_, n)
              >= Coverage(o, n, m, b, n) + (least - 1) * Strays(o, n, m, b, n)
  {
    var top := FrameIsAnswered(tracks, blobs, overlap, match_);
    BestIsOne(tracks, blobs, overlap, best, top);
    MatchMaximises(Overlaps(tracks, blobs, overlap), |tracks|, |blobs|, best, least, match_, b);
  }

  // ----- frames on which the promises fail -----

  function Pair(a: nat, b: nat, c: nat, d: nat): (o: Grid<nat>)
    ensures Shaped(o, 2, 2)
  {
    [[a, b], [c, d]]
  }

  /** A frame of two tracks and two blobs with the overlaps of o. */
  ghost predicate PairFrame(tracks: seq<Track>, blobs: seq<Blob>, overlap: Overlap, o: Grid<nat>) {
    Measurable(tracks) && |tracks| == |blobs| == 2 && Overlaps(tracks, blobs, overlap) == o
  }

  /** There is such a frame for any overlaps. */
  lemma PairFrameExists(o: Grid<nat>) returns (tracks: seq<Track>, blobs: seq<Blob>, overlap: Overlap)
    requires Shaped(o, 2, 2)
    ensures PairFrame(tracks, blobs, overlap, o)
  {
    tracks := [NewTrack(1, Blob(0, 0)), NewTrack(2, Blob(0, 1))];
    blobs := [Blob(1, 0), Blob(1, 1)];
    overlap := (b: Blob, last: Blob) => if b.shape < 2 && last.shape < 2 then o[last.shape][b.shape] else 0;
    var seen := Overlaps(tracks, blobs, overlap);
    assert forall i | 0 <= i < 2 :: seen[i] == o[i];
  }

  lemma PairAnswered(tracks: seq<Track>, blobs: seq<Blob>, overlap: Overlap, o: Grid<nat>, match_: Assignment) returns (top: nat)
    requires Shaped(o, 2, 2) && PairFrame(tracks, blobs, overlap, o) && MatchedBySolver(tracks, blobs, overlap, match_)
    ensures IsTop(o, top) && Answered(o, 2, 2, top, match_)
  {
    top := FrameIsAnswered(tracks, blobs, overlap, match_);
  }

  const STRAIGHT: Assignment := map[0 := 0, 1 := 1]
  const CROSSED: Assignment := map[0 := 1, 1 := 0]

  lemma CoverageOfTwo(o: Grid<nat>, b: Assignment)
    requires Shaped(o, 2, 2) && IsAssignment(b, 2, 2) && 0 in b && 1 in b
    ensures Coverage(o, 2, 2, b, 2) == o[0][b[0]] + o[1][b[1]]
    ensures Strays(o, 2, 2, b, 2) == (if o[0][b[0]] == 0 then 1 else 0) + (if o[1][b[1]] == 0 then 1 else 0)
  {
    assert Coverage(o, 2, 2, b, 1) == o[0][b[0]];
    assert Strays(o, 2, 2, b, 1) == if o[0][b[0]] == 0 then 1 else 0;
  }

  lemma PairCoverage(o: Grid<nat>)
    requires Shaped(o, 2, 2)
    ensures IsAssignment(STRAIGHT, 2, 2) && IsAssignment(CROSSED, 2, 2) && |STRAIGHT| == |CROSSED| == 2
    ensures Coverage(o, 2, 2, STRAIGHT, 2) == o[0][0] + o[1][1]
    ensures Coverage(o, 2, 2, CROSSED, 2) == o[0][1] + o[1][0]
  {
    PairPairs();
    CoverageOfTwo(o, STRAIGHT);
    CoverageOfTwo(o, CROSSED);
  }

  lemma PairPairs()
    ensures 0 in STRAIGHT && STRAIGHT[0] == 0 && 1 in STRAIGHT && STRAIGHT[1] == 1
    ensures 0 in CROSSED && CROSSED[0] == 1 && 1 in CROSSED && CROSSED[1] == 0
  {
  }

  lemma FullPair(a: Assignment)
    requires IsAssignment(a, 2, 2) && |a| == 2
    ensures a == STRAIGHT || a == CROSSED
  {
    AllRowsUsed(a, 2);
    assert a.Keys == {0, 1};
    assert a[0] != a[1];
  }

  /**
   * That no overlap is one short of the best is needed: for every best above 1
   * these two tracks and two blobs, which all overlap, are matched with two pixels
   * less than possible, as their zero costs settle the matter before any -1 is seen.
   */
  lemma OneShortLosesCoverage(tracks: seq<Track>, blobs: seq<Blob>, overlap: Overlap, best: nat, o: Grid<nat>, match_: Assignment)
    requires best > 1 && o == Pair(best - 1, best, best, best - 1)
    requires PairFrame(tracks, blobs, overlap, o) && MatchedBySolver(tracks, blobs, overlap, match_)
    ensures match_ == STRAIGHT && IsAssignment(STRAIGHT, 2, 2) && IsAssignment(CROSSED, 2, 2)
    ensures IsTop(o, best) && AllOverlap(o)
    ensures Coverage(o, 2, 2, match_, 2) + 2 == Coverage(o, 2, 2, CROSSED, 2)
  {
    var top := PairAnswered(tracks, blobs, overlap, o, match_);
    OneShortOutcome(best, o, top, match_);
  }

  lemma OneShortOutcome(best: nat, o: Grid<nat>, top: nat, match_: Assignment)
    requires best > 1 && o == Pair(best - 1, best, best, best - 1) && IsTop(o, top) && Answered(o, 2, 2, top, match_)
    ensures match_ == STRAIGHT && IsAssignment(STRAIGHT, 2, 2) && IsAssignment(CROSSED, 2, 2)
    ensures IsTop(o, best) && AllOverlap(o)
    ensures Coverage(o, 2, 2, match_, 2) + 2 == Coverage(o, 2, 2, CROSSED, 2)
  {
    OneShortAnswer(best, o, top, match_);
    PairCoverage(o);
  }

  lemma OneShortAnswer(best: nat, o: Grid<nat>, top: nat, match_: Assignment)
    requires best > 1 && o == Pair(best - 1, best, best, best - 1) && IsTop(o, top) && Answered(o, 2, 2, top, match_)
    ensures top == best && match_ == STRAIGHT
  {
    var g, a :| IsCharge(g, o, 2, 2, top) && SolverAnswer(g, a, 2) && match_ == Restricted(a, 2, 2);
    OneShortCosts(g, best, top);
    assert Restricted(STRAIGHT, 2, 2) == STRAIGHT;
  }

  lemma OneShortCosts(g: Grid<Cost>, best: nat, top: nat)
    requires best > 1 && IsTop(Pair(best - 1, best, best, best - 1), top)
    requires IsCharge(g, Pair(best - 1, best, best, best - 1), 2, 2, top)
    ensures top == best && ZerosForm(Substituted(g), STRAIGHT, 2, 2)
    ensures g[0][0] == Finite(0.0) && g[0][1] == Finite(-1.0)
  {
    var o := Pair(best - 1, best, best, best - 1);
    assert o[0][1] == best;
    assert g[0][0] == Finite(0.0) && g[1][1] == Finite(0.0) && g[0][1] == Finite(-1.0) && g[1][0] == Finite(-1.0);
  }

  /**
   * So is the other half: with overlaps best, least / least, 0 and best at least two
   * above a least, no pair is one short, yet the second track is matched with a blob
   * it does not overlap although both could overlap theirs, and what is covered is
   * best pixels of twice the least: too few whenever best is below that.
   */
  lemma StrayLosesCoverage(tracks: seq<Track>, blobs: seq<Blob>, overlap: Overlap, best: nat, least: nat, o: Grid<nat>,
                           match_: Assignment)
    requires 0 < least && least + 2 <= best && o == Pair(best, least, least, 0)
    requires PairFrame(tracks, blobs, overlap, o) && MatchedBySolver(tracks, blobs, overlap, match_)
    ensures match_ == STRAIGHT && IsAssignment(STRAIGHT, 2, 2) && IsAssignment(CROSSED, 2, 2)
    ensures IsTop(o, best) && NoneOneShort(o, best) && CanAllOverlap(o, 2, 2) && o[1][match_[1]] == 0
    ensures Coverage(o, 2, 2, match_, 2) == best && Coverage(o, 2, 2, CROSSED, 2) == 2 * least
  {
    var top := PairAnswered(tracks, blobs, overlap, o, match_);
    StrayTop(best, least, top);
    StrayAnswer(best, least, o, match_);
    StrayOutcome(best, least, o);
  }

  lemma StrayOutcome(best: nat, least: nat, o: Grid<nat>)
    requires 0 < least && o == Pair(best, least, least, 0)
    ensures IsAssignment(STRAIGHT, 2, 2) && IsAssignment(CROSSED, 2, 2)
    ensures CanAllOverlap(o, 2, 2) && Coverage(o, 2, 2, STRAIGHT, 2) == best && Coverage(o, 2, 2, CROSSED, 2) == 2 * least
  {
    PairCoverage(o);
    assert Overlapping(o, 2, 2, CROSSED);
  }

  lemma StrayAnswer(best: nat, least: nat, o: Grid<nat>, match_: Assignment)
    requires 0 < least && least + 2 <= best && o == Pair(best, least, least, 0) && Answered(o, 2, 2, best, match_)
    requires IsTop(o, best) && NoneOneShort(o, best) && IsLeast(o, least)
    ensures match_ == STRAIGHT
  {
    MatchIsComplete(o, 2, 2, best, match_);
    FullPair(match_);
    CrossedIsWorthLess(best, least, o);
    MatchMaximises(o, 2, 2, best, least, match_, STRAIGHT);
  }

  lemma CrossedIsWorthLess(best: nat, least: nat, o: Grid<nat>)
    requires 0 < least && least + 2 <= best && o == Pair(best, least, least, 0)
    ensures IsAssignment(STRAIGHT, 2, 2) && |STRAIGHT| == 2 && IsAssignment(CROSSED, 2, 2)
    ensures Coverage(o, 2, 2, CROSSED, 2) + (least - 1) * Strays(o, 2, 2, CROSSED, 2)
          < Coverage(o, 2, 2, STRAIGHT, 2) + (least - 1) * Strays(o, 2, 2, STRAIGHT, 2)
  {
    PairCoverage(o);
    StrayCount(best, least);
  }

  lemma StrayTop(best: nat, least: nat, top: nat)
    requires 0 < least && least + 2 <= best && IsTop(Pair(best, least, least, 0), top)
    ensures top == best && NoneOneShort(Pair(best, least, least, 0), best) && IsLeast(Pair(best, least, least, 0), least)
  {
    var o := Pair(best, least, least, 0);
    assert o[0][0] == best && o[0][1] == least;
  }

  lemma StrayCount(best: nat, least: nat)
    requires 0 < least && least + 2 <= best
    ensures IsAssignment(STRAIGHT, 2, 2) && IsAssignment(CROSSED, 2, 2)
    ensures Strays(Pair(best, least, least, 0), 2, 2, STRAIGHT, 2) == 1
    ensures Strays(Pair(best, least, least, 0), 2, 2, CROSSED, 2) == 0
  {
    PairPairs();
    CoverageOfTwo(Pair(best, least, least, 0), STRAIGHT);
    CoverageOfTwo(Pair(best, least, least, 0), CROSSED);
  }

  /** A single track and a single blob are matched even when they do not overlap. */
  lemma LonePairIsMatched(track: Track, blob: Blob, overlap: Overlap, match_: Assignment)
    requires |track.history| > 0 && Matches(track, blob, overlap) == 0
    requires MatchedBySolver([track], [blob], overlap, match_)
    ensures match_ == map[0 := 0]
  {
    var best := FrameIsAnswered([track], [blob], overlap, match_);
    MatchIsComplete(Overlaps([track], [blob], overlap), 1, 1, best, match_);
    OnlyPair(match_);
  }

  lemma OnlyPair(a: Assignment)
    requires IsAssignment(a, 1, 1) && |a| == 1
    ensures a == map[0 := 0]
  {
    AllRowsUsed(a, 1);
    assert a.Keys == {0};
  }
}
