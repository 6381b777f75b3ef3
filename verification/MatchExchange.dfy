/**
 * When the match of a frame covers the most overlap of all matches. The match is
 * worth most in the terms of MatchCoverage; were another to cover more, so would
 * it along one alternating chain of pairs, and exchanging that chain would make a
 * match worth more.
 */
module MatchExchange {
  import opened FiniteSets
  import opened Grids
  import opened Assignments
  import opened MunkresSolver
  import opened SolverInvariant
  import opened BlobTracking
  import opened MatchCoverage

  // ----- pieces of matches -----

  /** The pairs of b for the tracks in s. */
  ghost function Within(b: Assignment, s: set<nat>): Assignment { map i | i in b && i in s :: b[i] }

  /** The pairs of b that overlap. */
  ghost function Firm(o: Grid<nat>, n: nat, m: nat, b: Assignment): (f: Assignment)
    requires Shaped(o, n, m) && IsAssignment(b, n, m)
    ensures IsAssignment(f, n, m) && Overlapping(o, n, m, f)
  {
    map i | i in b && o[i][b[i]] > 0 :: b[i]
  }

  /** What the first k pairs of b cover, less `stray` for each. */
  ghost function Gain(o: Grid<nat>, n: nat, m: nat, b: Assignment, stray: int, k: nat): int
    requires Shaped(o, n, m) && IsAssignment(b, n, m) && k <= n
  {
    if k == 0 then 0 else Gain(o, n, m, b, stray, k - 1) + if k - 1 in b then o[k - 1][b[k - 1]] - stray else 0
  }

  lemma {:induction false} GainSplits(o: Grid<nat>, n: nat, m: nat, b: Assignment, stray: int, k: nat)
    requires Shaped(o, n, m) && IsAssignment(b, n, m) && k <= n
    ensures Gain(o, n, m, b, stray, k) == Coverage(o, n, m, b, k) - stray * Size(b, k)
  {
    if k > 0 { GainSplits(o, n, m, b, stray, k - 1); }
  }

  lemma {:induction false} CoverageOfUnion(o: Grid<nat>, n: nat, m: nat, b: Assignment, s: set<nat>, t: set<nat>, k: nat)
    requires Shaped(o, n, m) && IsAssignment(b, n, m) && k <= n && s !! t
    ensures Coverage(o, n, m, Within(b, s + t), k) == Coverage(o, n, m, Within(b, s), k) + Coverage(o, n, m, Within(b, t), k)
  {
    if k > 0 { CoverageOfUnion(o, n, m, b, s, t, k - 1); }
  }

  // ----- a match that is worth most gains most -----

  /** No overlapping pairs gain more than those of a. */
  ghost predicate GainsMost(o: Grid<nat>, n: nat, m: nat, a: Assignment, stray: int)
    requires Shaped(o, n, m) && IsAssignment(a, n, m)
  {
    forall c | IsAssignment(c, n, m) && Overlapping(o, n, m, c) :: Gain(o, n, m, c, stray, n) <= Gain(o, n, m, a, stray, n)
  }

  /** `stray` for each of the first k tracks that b matches. */
  ghost function Flat(b: Assignment, stray: int, k: nat): int {
    if k == 0 then 0 else Flat(b, stray, k - 1) + if k - 1 in b then stray else 0
  }

  lemma {:induction false} FlatBySize(b: Assignment, stray: int, k: nat)
    ensures Flat(b, stray, k) == stray * Size(b, k)
  {
    if k > 0 {
      FlatBySize(b, stray, k - 1);
      OneMore(stray, Size(b, k - 1));
    }
  }

  lemma OneMore(x: int, k: int)
    ensures x * (k + 1) == x * k + x
  {
  }

  lemma {:induction false} FirmGain(o: Grid<nat>, n: nat, m: nat, b: Assignment, stray: int, k: nat)
    requires Shaped(o, n, m) && IsAssignment(b, n, m) && k <= n
    ensures Worth(o, n, m, b, stray, k) == Gain(o, n, m, Firm(o, n, m, b), stray, k) + Flat(b, stray, k)
    ensures Coverage(o, n, m, b, k) == Coverage(o, n, m, Firm(o, n, m, b), k)
  {
    if k > 0 { FirmGain(o, n, m, b, stray, k - 1); }
  }

  lemma {:induction false} ExtensionIsWorth(o: Grid<nat>, n: nat, m: nat, c: Assignment, r: Assignment, stray: int, k: nat)
    requires Shaped(o, n, m) && IsAssignment(c, n, m) && IsAssignment(r, n, m) && k <= n
    requires forall i, j | 0 <= i < n && 0 <= j < m && o[i][j] > 0 :: o[i][j] >= stray
    requires Overlapping(o, n, m, c) && forall i | i in c :: i in r && r[i] == c[i]
    ensures Worth(o, n, m, r, stray, k) >= Gain(o, n, m, c, stray, k) + Flat(r, stray, k)
  {
    if k > 0 { ExtensionIsWorth(o, n, m, c, r, stray, k - 1); }
  }

  lemma SameFlat(n: nat, m: nat, a: Assignment, b: Assignment, stray: int)
    requires IsAssignment(a, n, m) && IsAssignment(b, n, m) && |a| == |b|
    ensures Flat(a, stray, n) == Flat(b, stray, n)
  {
    FlatBySize(a, stray, n);
    FlatBySize(b, stray, n);
    SizeOfAll(a, n, m);
    SizeOfAll(b, n, m);
  }

  lemma WorthDecides(o: Grid<nat>, n: nat, m: nat, stray: int, match_: Assignment, c: Assignment, r: Assignment)
    requires Shaped(o, n, m) && IsAssignment(match_, n, m) && IsAssignment(c, n, m) && IsAssignment(r, n, m)
    requires forall i, j | 0 <= i < n && 0 <= j < m && o[i][j] > 0 :: o[i][j] >= stray
    requires Overlapping(o, n, m, c) && forall i | i in c :: i in r && r[i] == c[i]
    requires |r| == |match_| && Worth(o, n, m, match_, stray, n) >= Worth(o, n, m, r, stray, n)
    ensures Gain(o, n, m, c, stray, n) <= Gain(o, n, m, Firm(o, n, m, match_), stray, n)
  {
    ExtensionIsWorth(o, n, m, c, r, stray, n);
    FirmGain(o, n, m, match_, stray, n);
    SameFlat(n, m, r, match_, stray);
  }

  lemma MatchIsWorthAs(o: Grid<nat>, n: nat, m: nat, best: nat, least: nat, stray: int, match_: Assignment, b: Assignment)
    requires Shaped(o, n, m) && IsTop(o, best) && Answered(o, n, m, best, match_)
    requires NoneOneShort(o, best) && IsLeast(o, least) && least < best && stray == least - 1
    requires IsAssignment(b, n, m) && |b| == MinSize(n, m)
    ensures IsAssignment(match_, n, m) && |match_| == |b|
    ensures Worth(o, n, m, match_, stray, n) >= Worth(o, n, m, b, stray, n)
  {
    MatchIsWorthMost(o, n, m, best, least, match_, b);
  }

  lemma MatchGainsMore(o: Grid<nat>, n: nat, m: nat, best: nat, least: nat, stray: int, match_: Assignment, c: Assignment)
    requires Shaped(o, n, m) && IsTop(o, best) && Answered(o, n, m, best, match_) && IsAssignment(match_, n, m)
    requires NoneOneShort(o, best) && IsLeast(o, least) && least < best && stray == least - 1
    requires IsAssignment(c, n, m) && Overlapping(o, n, m, c)
    ensures Gain(o, n, m, c, stray, n) <= Gain(o, n, m, Firm(o, n, m, match_), stray, n)
  {
    var _, r := ExtendMatch(n, m, c);
    MatchIsWorthAs(o, n, m, best, least, stray, match_, r);
    WorthDecides(o, n, m, stray, match_, c, r);
  }

  lemma MatchGainsMost(o: Grid<nat>, n: nat, m: nat, best: nat, least: nat, stray: int, match_: Assignment)
    requires Shaped(o, n, m) && IsTop(o, best) && Answered(o, n, m, best, match_)
    requires NoneOneShort(o, best) && IsLeast(o, least) && least < best && stray == least - 1
    ensures IsAssignment(match_, n, m) && GainsMost(o, n, m, Firm(o, n, m, match_), stray)
  {
    MatchIsComplete(o, n, m, best, match_);
    forall c | IsAssignment(c, n, m) && Overlapping(o, n, m, c)
      ensures Gain(o, n, m, c, stray, n) <= Gain(o, n, m, Firm(o, n, m, match_), stray, n)
    {
      MatchGainsMore(o, n, m, best, least, stray, match_, c);
    }
  }

  // ----- exchanging a chain -----

  /** A column that b gives to one of the tracks in s is not given by a to another track. */
  ghost predicate Closed(a: Assignment, b: Assignment, s: set<nat>) {
    forall i, k | i in b && k in a && b[i] == a[k] :: i in s <==> k in s
  }

  ghost function Exchanged(a: Assignment, b: Assignment, s: set<nat>): Assignment {
    map i | i in a.Keys + b.Keys && i in (if i in s then b else a) :: if i in s then b[i] else a[i]
  }

  lemma ExchangeFits(o: Grid<nat>, n: nat, m: nat, a: Assignment, b: Assignment, s: set<nat>)
    requires Shaped(o, n, m) && IsAssignment(a, n, m) && IsAssignment(b, n, m) && Closed(a, b, s)
    requires Overlapping(o, n, m, a) && Overlapping(o, n, m, b)
    ensures IsAssignment(Exchanged(a, b, s), n, m) && Overlapping(o, n, m, Exchanged(a, b, s))
  {
  }

  lemma {:induction false} ExchangeGain(o: Grid<nat>, n: nat, m: nat, a: Assignment, b: Assignment, s: set<nat>, stray: int, k: nat)
    requires Shaped(o, n, m) && IsAssignment(a, n, m) && IsAssignment(b, n, m) && k <= n
    requires IsAssignment(Exchanged(a, b, s), n, m)
    ensures Gain(o, n, m, Exchanged(a, b, s), stray, k) - Gain(o, n, m, a, stray, k)
         == Gain(o, n, m, Within(b, s), stray, k) - Gain(o, n, m, Within(a, s), stray, k)
  {
    if k > 0 { ExchangeGain(o, n, m, a, b, s, stray, k - 1); }
  }

  /** All overlaps differ from the least by multiples of g, and g is at least the least overlap. */
  ghost predicate Spread(o: Grid<nat>, least: nat, g: nat) {
    g > 0 && g >= least && forall i, j | 0 <= i < |o| && 0 <= j < |o[i]| && o[i][j] > 0 :: (o[i][j] - least) % g == 0
  }

  lemma Step(x: int, g: nat, z: int) returns (w: int)
    requires g > 0 && x % g == 0
    ensures g * w == g * z + x
  {
    var y := x / g;
    assert g * y == x;
    w := z + y;
    assert g * w == g * z + g * y;
  }

  lemma {:induction false} GainSteps(o: Grid<nat>, n: nat, m: nat, least: nat, g: nat, b: Assignment, k: nat) returns (z: int)
    requires Shaped(o, n, m) && IsAssignment(b, n, m) && k <= n && Overlapping(o, n, m, b) && Spread(o, least, g)
    ensures Gain(o, n, m, b, least - 1, k) == Size(b, k) + g * z
  {
    if k == 0 {
      z := 0;
    } else {
      z := GainSteps(o, n, m, least, g, b, k - 1);
      if k - 1 in b { z := Step(o[k - 1][b[k - 1]] - least, g, z); }
    }
  }

  /** Exchanging such a set of tracks shows that they gain no more in b than in a. */
  lemma ExchangeGainsLess(o: Grid<nat>, n: nat, m: nat, a: Assignment, b: Assignment, s: set<nat>, stray: int)
    requires Shaped(o, n, m) && IsAssignment(a, n, m) && IsAssignment(b, n, m) && Closed(a, b, s)
    requires Overlapping(o, n, m, a) && Overlapping(o, n, m, b) && GainsMost(o, n, m, a, stray)
    ensures Gain(o, n, m, Within(b, s), stray, n) <= Gain(o, n, m, Within(a, s), stray, n)
  {
    ExchangeFits(o, n, m, a, b, s);
    ExchangeGain(o, n, m, a, b, s, stray, n);
  }

  /** Nor do they cover more, if their tracks but one are all matched by a. */
  lemma ExchangeCoversLess(o: Grid<nat>, n: nat, m: nat, least: nat, g: nat, a: Assignment, b: Assignment, s: set<nat>)
    requires Shaped(o, n, m) && IsAssignment(a, n, m) && IsAssignment(b, n, m) && least > 0 && Spread(o, least, g)
    requires Overlapping(o, n, m, a) && Overlapping(o, n, m, b) && GainsMost(o, n, m, a, least - 1)
    requires Closed(a, b, s) && |Within(b, s)| <= |Within(a, s)| + 1
    ensures Coverage(o, n, m, Within(b, s), n) <= Coverage(o, n, m, Within(a, s), n)
  {
    ExchangeGainsLess(o, n, m, a, b, s, least - 1);
    GainDecides(o, n, m, least, g, Within(a, s), Within(b, s));
  }

  lemma GainDecides(o: Grid<nat>, n: nat, m: nat, least: nat, g: nat, a: Assignment, b: Assignment)
    requires Shaped(o, n, m) && IsAssignment(a, n, m) && IsAssignment(b, n, m) && least > 0 && Spread(o, least, g)
    requires Overlapping(o, n, m, a) && Overlapping(o, n, m, b) && |b| <= |a| + 1
    requires Gain(o, n, m, b, least - 1, n) <= Gain(o, n, m, a, least - 1, n)
    ensures Coverage(o, n, m, b, n) <= Coverage(o, n, m, a, n)
  {
    var x := GainSteps(o, n, m, least, g, a, n);
    var y := GainSteps(o, n, m, least, g, b, n);
    GainSplits(o, n, m, a, least - 1, n);
    GainSplits(o, n, m, b, least - 1, n);
    SizeOfAll(a, n, m);
    SizeOfAll(b, n, m);
    StepsDecide(least, g, |a|, |b|, g * x, g * y, x, y);
  }

  lemma StepsDecide(least: nat, g: nat, p: nat, q: nat, gx: int, gy: int, x: int, y: int)
    requires 0 < least <= g && q <= p + 1 && gx == g * x && gy == g * y && q + gy <= p + gx
    ensures q + gy + (least - 1) * q <= p + gx + (least - 1) * p
  {
    if q <= p {
      Monotone(least - 1, q, p);
    } else {
      OneMore(least - 1, p);
      if y >= x { Monotone(g, x, y); }
      Monotone(g, y + 1, x);
      OneMore(g, y);
    }
  }

  lemma Monotone(g: nat, x: int, y: int)
    requires x <= y
    ensures g * x <= g * y
  {
  }

  // ----- finding the chains -----

  /** The chain that starts in a track whose blob in a no track has in b. */
  lemma {:induction false} Chain(n: nat, m: nat, a: Assignment, b: Assignment, r: set<nat>, first: nat, last: nat, s: set<nat>)
      returns (t: set<nat>)
    requires IsAssignment(a, n, m) && IsAssignment(b, n, m) && r <= Below(n) && Closed(a, b, r)
    requires first in s && last in s && s <= r && s - {first} <= a.Keys
    requires forall i, k | i in b && k in a && b[i] == a[k] :: (k in s ==> i in s) && (i in s && i != last ==> k in s)
    ensures first in t && t <= r && t - {first} <= a.Keys && Closed(a, b, t)
    decreases r - s
  {
    if k :| last in b && k in a && a[k] == b[last] && k !in s {
      t := Chain(n, m, a, b, r, first, k, s + {k});
    } else {
      t := s;
    }
  }

  lemma NearlyMatched(a: Assignment, b: Assignment, s: set<nat>, first: nat)
    requires first in s && s - {first} <= a.Keys
    ensures |Within(b, s)| <= |Within(a, s)| + 1
  {
    assert |Within(b, s)| == |Within(b, s).Keys| && |Within(a, s)| == |Within(a, s).Keys|;
    SubsetSize(Within(b, s).Keys, s);
    SubsetSize(s - {first}, Within(a, s).Keys);
  }

  lemma UnionCoversLess(o: Grid<nat>, n: nat, m: nat, a: Assignment, b: Assignment, s: set<nat>, r: set<nat>)
    requires Shaped(o, n, m) && IsAssignment(a, n, m) && IsAssignment(b, n, m) && s <= r
    requires Coverage(o, n, m, Within(b, s), n) <= Coverage(o, n, m, Within(a, s), n)
    requires Coverage(o, n, m, Within(b, r - s), n) <= Coverage(o, n, m, Within(a, r - s), n)
    ensures Coverage(o, n, m, Within(b, r), n) <= Coverage(o, n, m, Within(a, r), n)
  {
    CoverageOfUnion(o, n, m, a, s, r - s, n);
    CoverageOfUnion(o, n, m, b, s, r - s, n);
    assert s + (r - s) == r;
  }

  lemma OneChain(o: Grid<nat>, n: nat, m: nat, least: nat, g: nat, a: Assignment, b: Assignment, r: set<nat>, first: nat)
      returns (s: set<nat>)
    requires Shaped(o, n, m) && IsAssignment(a, n, m) && IsAssignment(b, n, m) && least > 0 && Spread(o, least, g)
    requires Overlapping(o, n, m, a) && Overlapping(o, n, m, b) && GainsMost(o, n, m, a, least - 1)
    requires r <= Below(n) && Closed(a, b, r) && first in r && forall i | i in b && first in a :: b[i] != a[first]
    ensures first in s && s <= r && Closed(a, b, s)
    ensures Coverage(o, n, m, Within(b, s), n) <= Coverage(o, n, m, Within(a, s), n)
  {
    s := Chain(n, m, a, b, r, first, first, {first});
    NearlyMatched(a, b, s, first);
    ExchangeCoversLess(o, n, m, least, g, a, b, s);
  }

  /** Chain by chain, b covers no more than a. */
  lemma {:induction false} ChainsCoverLess(o: Grid<nat>, n: nat, m: nat, least: nat, g: nat, a: Assignment, b: Assignment, r: set<nat>)
    requires Shaped(o, n, m) && IsAssignment(a, n, m) && IsAssignment(b, n, m) && least > 0 && Spread(o, least, g)
    requires Overlapping(o, n, m, a) && Overlapping(o, n, m, b) && GainsMost(o, n, m, a, least - 1)
    requires r <= Below(n) && Closed(a, b, r)
    ensures Coverage(o, n, m, Within(b, r), n) <= Coverage(o, n, m, Within(a, r), n)
    decreases r
  {
    if first :| first in r && forall i | i in b && first in a :: b[i] != a[first] {
      var s := OneChain(o, n, m, least, g, a, b, r, first);
      ChainsCoverLess(o, n, m, least, g, a, b, r - s);
      UnionCoversLess(o, n, m, a, b, s, r);
    } else {
      AllMatched(a, b, r);
      ExchangeCoversLess(o, n, m, least, g, a, b, r);
    }
  }

  lemma AllMatched(a: Assignment, b: Assignment, r: set<nat>)
    requires forall k | k in r :: k in a
    ensures |Within(b, r)| <= |Within(a, r)| + 1
  {
    assert |Within(b, r)| == |Within(b, r).Keys| && |Within(a, r)| == |Within(a, r).Keys|;
    SubsetSize(Within(b, r).Keys, r);
    assert Within(a, r).Keys == r;
  }

  // ----- when the match covers most -----

  /**
   * Frames for which the promise of the program, the most overlap, is kept: no
   * overlap is one pixel short of the best, and either every track overlaps every
   * blob, or the overlaps of pairs that do are no closer than the least of them,
   * as multiples of one distance. The latter holds when one overlap is a single
   * pixel, and when all are equal.
   */
  ghost predicate KeepsMost(o: Grid<nat>, best: nat) {
    NoneOneShort(o, best) && (best == 0 || AllOverlap(o) || exists least: nat, g: nat :: IsLeast(o, least) && Spread(o, least, g))
  }

  lemma KeepsMostIf(o: Grid<nat>, best: nat)
    requires NoneOneShort(o, best) && IsTop(o, best) && (AllOverlap(o) || Occurs(o, 1) || AllEqual(o, best))
    ensures KeepsMost(o, best)
  {
    if best > 0 && !AllOverlap(o) {
      var least := LeastExists(o, best);
      if AllEqual(o, best) {
        assert Spread(o, least, best);
      } else {
        assert Spread(o, least, 1);
      }
    }
  }

  lemma {:induction false} NothingToCover(o: Grid<nat>, n: nat, m: nat, b: Assignment, k: nat)
    requires Shaped(o, n, m) && IsAssignment(b, n, m) && k <= n && IsTop(o, 0)
    ensures Coverage(o, n, m, b, k) == 0
  {
    if k > 0 { NothingToCover(o, n, m, b, k - 1); }
  }

  lemma OverlapsHaveNoStrays(o: Grid<nat>, n: nat, m: nat, b: Assignment)
    requires Shaped(o, n, m) && IsAssignment(b, n, m) && AllOverlap(o)
    ensures Strays(o, n, m, b, n) == 0
  {
    CountStrays(o, n, m, b, n);
    forall i | i in b && i < n ensures o[i][b[i]] > 0 {
      assert Occurs(o, o[i][b[i]]);
    }
  }

  lemma WorthWithoutStrays(o: Grid<nat>, n: nat, m: nat, stray: int, b: Assignment)
    requires Shaped(o, n, m) && IsAssignment(b, n, m) && AllOverlap(o)
    ensures Worth(o, n, m, b, stray, n) == Coverage(o, n, m, b, n)
  {
    OverlapsHaveNoStrays(o, n, m, b);
    WorthSplits(o, n, m, b, stray, n);
    assert stray * 0 == 0;
  }

  lemma {:induction false} LargerCoversMore(o: Grid<nat>, n: nat, m: nat, b: Assignment, c: Assignment, k: nat)
    requires Shaped(o, n, m) && IsAssignment(b, n, m) && IsAssignment(c, n, m) && k <= n
    requires forall i | i in b :: i in c && c[i] == b[i]
    ensures Coverage(o, n, m, b, k) <= Coverage(o, n, m, c, k)
  {
    if k > 0 { LargerCoversMore(o, n, m, b, c, k - 1); }
  }

  lemma AllOverlapCoversMost(o: Grid<nat>, n: nat, m: nat, best: nat, least: nat, match_: Assignment, r: Assignment)
    requires Shaped(o, n, m) && IsTop(o, best) && Answered(o, n, m, best, match_) && NoneOneShort(o, best)
    requires IsLeast(o, least) && AllOverlap(o) && IsAssignment(r, n, m) && |r| == MinSize(n, m)
    ensures IsAssignment(match_, n, m) && Coverage(o, n, m, match_, n) >= Coverage(o, n, m, r, n)
  {
    MatchIsWorthMost(o, n, m, best, least, match_, r);
    WorthWithoutStrays(o, n, m, StrayWorth(best, least), match_);
    WorthWithoutStrays(o, n, m, StrayWorth(best, least), r);
  }

  lemma EqualCoversMost(o: Grid<nat>, n: nat, m: nat, best: nat, least: nat, match_: Assignment, r: Assignment)
    requires Shaped(o, n, m) && IsTop(o, best) && Answered(o, n, m, best, match_) && NoneOneShort(o, best)
    requires IsLeast(o, least) && least >= best && IsAssignment(r, n, m) && |r| == MinSize(n, m)
    ensures IsAssignment(match_, n, m) && Coverage(o, n, m, match_, n) >= Coverage(o, n, m, r, n)
  {
    MatchIsWorthMost(o, n, m, best, least, match_, r);
    LeastIsTop(o, best, least);
    EqualOrder(o, n, m, best, match_, r);
  }

  lemma SpreadCoversMost(o: Grid<nat>, n: nat, m: nat, best: nat, least: nat, g: nat, match_: Assignment, b: Assignment)
    requires Shaped(o, n, m) && IsTop(o, best) && Answered(o, n, m, best, match_) && NoneOneShort(o, best)
    requires IsLeast(o, least) && least < best && Spread(o, least, g) && IsAssignment(b, n, m)
    ensures IsAssignment(match_, n, m) && Coverage(o, n, m, match_, n) >= Coverage(o, n, m, b, n)
  {
    MatchGainsMost(o, n, m, best, least, least - 1, match_);
    FirmCovers(o, n, m, match_);
    FirmCovers(o, n, m, b);
    ChainsCoverAll(o, n, m, least, g, Firm(o, n, m, match_), Firm(o, n, m, b));
  }

  lemma FirmCovers(o: Grid<nat>, n: nat, m: nat, b: Assignment)
    requires Shaped(o, n, m) && IsAssignment(b, n, m)
    ensures Coverage(o, n, m, b, n) == Coverage(o, n, m, Firm(o, n, m, b), n)
  {
    FirmGain(o, n, m, b, 0, n);
  }

  lemma ChainsCoverAll(o: Grid<nat>, n: nat, m: nat, least: nat, g: nat, a: Assignment, b: Assignment)
    requires Shaped(o, n, m) && IsAssignment(a, n, m) && IsAssignment(b, n, m) && least > 0 && Spread(o, least, g)
    requires Overlapping(o, n, m, a) && Overlapping(o, n, m, b) && GainsMost(o, n, m, a, least - 1)
    ensures Coverage(o, n, m, b, n) <= Coverage(o, n, m, a, n)
  {
    ChainsCoverLess(o, n, m, least, g, a, b, Below(n));
    assert Within(a, Below(n)) == a && Within(b, Below(n)) == b;
  }

  /** The promise is kept, against every other match of the frame whatever its size, when the overlaps allow. */
  lemma MatchCoversMost(o: Grid<nat>, n: nat, m: nat, best: nat, match_: Assignment, b: Assignment)
    requires Shaped(o, n, m) && IsTop(o, best) && Answered(o, n, m, best, match_) && KeepsMost(o, best)
    requires IsAssignment(b, n, m)
    ensures IsAssignment(match_, n, m) && Coverage(o, n, m, match_, n) >= Coverage(o, n, m, b, n)
  {
    MatchIsComplete(o, n, m, best, match_);
    if best == 0 {
      NothingToCover(o, n, m, b, n);
    } else {
      var least := LeastExists(o, best);
      if AllOverlap(o) || least >= best {
        CompleteCoversMost(o, n, m, best, least, match_, b);
      } else {
        var x: nat, g: nat :| IsLeast(o, x) && Spread(o, x, g);
        SpreadCoversMost(o, n, m, best, x, g, match_, b);
      }
    }
  }

  lemma CompleteCoversMost(o: Grid<nat>, n: nat, m: nat, best: nat, least: nat, match_: Assignment, b: Assignment)
    requires Shaped(o, n, m) && IsTop(o, best) && Answered(o, n, m, best, match_) && NoneOneShort(o, best)
    requires IsLeast(o, least) && (AllOverlap(o) || least >= best) && IsAssignment(b, n, m)
    ensures IsAssignment(match_, n, m) && Coverage(o, n, m, match_, n) >= Coverage(o, n, m, b, n)
  {
    var _, r := ExtendMatch(n, m, b);
    LargerCoversMore(o, n, m, b, r, n);
    if AllOverlap(o) {
      AllOverlapCoversMost(o, n, m, best, least, match_, r);
    } else {
      EqualCoversMost(o, n, m, best, least, match_, r);
    }
  }

  /** The same for a frame: nothing the tracker could have matched covers more. */
  lemma FrameCoversMost(tracks: seq<Track>, blobs: seq<Blob>, overlap: Overlap, match_: Assignment, best: nat, b: Assignment)
    requires Measurable(tracks) && MatchedBySolver(tracks, blobs, overlap, match_) && IsBest(tracks, blobs, overlap, best)
    requires KeepsMost(Overlaps(tracks, blobs, overlap), best) && IsAssignment(b, |tracks|, |blobs|)
    ensures IsAssignment(match_, |tracks|, |blobs|)
    ensures var o, n, m := Overlaps(tracks, blobs, overlap), |tracks|, |blobs|;
            Coverage(o, n, m, match_, n) >= Coverage(o, n, m, b, n)
  {
    var top := FrameIsAnswered(tracks, blobs, overlap, match_);
    BestIsOne(tracks, blobs, overlap, best, top);
    MatchCoversMost(Overlaps(tracks, blobs, overlap), |tracks|, |blobs|, best, match_, b);
  }

  // ----- two overlaps decide when the condition can be met -----

  /** All overlaps are low or high, or there is none. */
  ghost predicate TwoOverlaps(o: Grid<nat>, low: nat, high: nat) {
    forall i, j | 0 <= i < |o| && 0 <= j < |o[i]| :: o[i][j] == 0 || o[i][j] == low || o[i][j] == high
  }

  /** On every frame with these two overlaps the match covers the most. */
  ghost predicate AlwaysMost(low: nat, high: nat) {
    forall o: Grid<nat>, n: nat, m: nat, best: nat, match_, b |
      && Shaped(o, n, m) && TwoOverlaps(o, low, high) && IsTop(o, best) && Answered(o, n, m, best, match_)
      && IsAssignment(match_, n, m) && IsAssignment(b, n, m) ::
        Coverage(o, n, m, match_, n) >= Coverage(o, n, m, b, n)
  }

  lemma TwoOverlapsKeepMost(o: Grid<nat>, low: nat, high: nat, best: nat)
    requires TwoOverlaps(o, low, high) && IsTop(o, best) && 0 < low <= high
    requires high == low || (high >= 2 * low && high != low + 1)
    ensures KeepsMost(o, best)
  {
    if AllEqual(o, best) {
      KeepsMostIf(o, best);
    } else {
      var i, j :| 0 <= i < |o| && 0 <= j < |o[i]| && o[i][j] != 0 && o[i][j] != best;
      assert o[i][j] == low && best == high;
      OneDistance(high - low);
      assert IsLeast(o, low);
      assert Spread(o, low, high - low);
    }
  }

  lemma OneDistance(g: nat)
    requires g > 0
    ensures 0 % g == 0 && g % g == 0
  {
  }

  // ----- answers that lose coverage exist -----

  lemma TotalOfTwo(g: Grid<real>, a: Assignment)
    requires Shaped(g, 2, 2) && IsAssignment(a, 2, 2) && 0 in a && 1 in a
    ensures Total(g, a, 2) == g[0][a[0]] + g[1][a[1]]
  {
    assert Total(g, a, 1) == g[0][a[0]];
  }

  lemma PairTotal(g: Grid<real>)
    requires Shaped(g, 2, 2)
    ensures IsAssignment(STRAIGHT, 2, 2) && IsAssignment(CROSSED, 2, 2)
    ensures Total(g, STRAIGHT, 2) == g[0][0] + g[1][1] && Total(g, CROSSED, 2) == g[0][1] + g[1][0]
  {
    PairPairs();
    TotalOfTwo(g, STRAIGHT);
    TotalOfTwo(g, CROSSED);
  }

  lemma StraightIsCheapest(g: Grid<real>)
    requires Shaped(g, 2, 2) && g[0][0] + g[1][1] <= g[0][1] + g[1][0]
    ensures IsAssignment(STRAIGHT, 2, 2) && |STRAIGHT| == 2 && IsCheapest(g, STRAIGHT, 2, 2)
  {
    PairTotal(g);
    forall c: Assignment | IsAssignment(c, 2, 2) && |c| == |STRAIGHT| ensures Total(g, STRAIGHT, 2) <= Total(g, c, 2) {
      FullPair(c);
    }
  }

  lemma StraightIsAnswer(g: Grid<Cost>, o: Grid<nat>, best: nat)
    requires Shaped(o, 2, 2) && IsCharge(g, o, 2, 2, best) && SolverAnswer(g, STRAIGHT, 2)
    ensures Answered(o, 2, 2, best, STRAIGHT)
  {
    assert Restricted(STRAIGHT, 2, 2) == STRAIGHT;
  }

  function Charge(o: Grid<nat>, best: nat): (g: Grid<Cost>)
    requires Shaped(o, 2, 2)
    ensures IsCharge(g, o, 2, 2, best)
  {
    seq(2, i requires 0 <= i < 2 => seq(2, j requires 0 <= j < 2 =>
      if o[i][j] > 0 then Finite((best - 1 - o[i][j]) as real) else Infinite))
  }

  lemma StrayCosts(best: nat, low: nat, o: Grid<nat>, g: Grid<Cost>, x: real)
    requires 0 < low && low + 2 <= best && o == Pair(best, low, low, 0) && IsCharge(g, o, 2, 2, best) && x == (best - 1 - low) as real
    ensures IsTop(o, best) && x > 0.0 && Substituted(g) == [[-1.0, x], [x, x + 1.0]]
  {
    assert o[0][0] == best;
    StrayTop(best, low, best);
    HighOfFrame(g, o, 2, 2, best, low);
    var s := Substituted(g);
    assert s[0] == [-1.0, x] && s[1] == [x, x + 1.0];
  }

  lemma StraySolved(g: Grid<Cost>, x: real)
    requires Shaped(g, 2, 2) && x > 0.0 && Substituted(g) == [[-1.0, x], [x, x + 1.0]]
    ensures SolverAnswer(g, STRAIGHT, 2)
  {
    var s := Substituted(g);
    StraightIsCheapest(s);
    forall z ensures !ZerosForm(s, z, 2, 2) {
      if IsAssignment(z, 2, 2) && |z| == 2 { NoZerosForm(s, z); }
    }
  }

  lemma NoZerosForm(g: Grid<real>, z: Assignment)
    requires Shaped(g, 2, 2) && g[0][0] != 0.0 && g[0][1] != 0.0 && IsAssignment(z, 2, 2) && |z| == 2
    ensures !ZerosForm(g, z, 2, 2)
  {
    AllRowsUsed(z, 2);
    assert 0 in z;
  }

  /** On the frame of StrayLosesCoverage there is an answer. */
  lemma StrayIsAnswered(best: nat, low: nat)
    requires 0 < low && low + 2 <= best
    ensures Answered(Pair(best, low, low, 0), 2, 2, best, STRAIGHT)
  {
    var o := Pair(best, low, low, 0);
    var g := Charge(o, best);
    StrayCosts(best, low, o, g, (best - 1 - low) as real);
    StraySolved(g, (best - 1 - low) as real);
    StraightIsAnswer(g, o, best);
  }

  lemma OneShortIsAnswered(best: nat)
    requires best > 1
    ensures Answered(Pair(best - 1, best, best, best - 1), 2, 2, best, STRAIGHT)
  {
    var o := Pair(best - 1, best, best, best - 1);
    var g := Charge(o, best);
    assert o[0][1] == best;
    OneShortCosts(g, best, best);
    forall z | ZerosForm(Substituted(g), z, 2, 2) ensures STRAIGHT == z {
      SameZeros(Substituted(g), STRAIGHT, z);
    }
    StraightIsAnswer(g, o, best);
  }

  lemma SameZeros(g: Grid<real>, y: Assignment, z: Assignment)
    requires ZerosForm(g, y, 2, 2) && ZerosForm(g, z, 2, 2)
    ensures y == z
  {
    assert forall i | i in y :: g[i][y[i]] == 0.0;
    assert forall i | i in z :: g[i][z[i]] == 0.0;
  }

  lemma NotAlways(low: nat, high: nat, o: Grid<nat>)
    requires Shaped(o, 2, 2) && TwoOverlaps(o, low, high) && IsTop(o, high) && Answered(o, 2, 2, high, STRAIGHT)
    requires o[0][0] + o[1][1] < o[0][1] + o[1][0]
    ensures !AlwaysMost(low, high)
  {
    PairCoverage(o);
  }

  /**
   * Where frames can have no more than two different overlaps, the promise is kept
   * on all of them exactly when the two are equal, or the high one is at least twice
   * the low one and not one pixel above it.
   */
  lemma TwoOverlapsDecide(low: nat, high: nat)
    requires 0 < low <= high
    ensures AlwaysMost(low, high) <==> high == low || (high >= 2 * low && high != low + 1)
  {
    if high == low || (high >= 2 * low && high != low + 1) {
      forall o: Grid<nat>, n: nat, m: nat, best: nat, match_, b |
        && Shaped(o, n, m) && TwoOverlaps(o, low, high) && IsTop(o, best) && Answered(o, n, m, best, match_)
        && IsAssignment(match_, n, m) && IsAssignment(b, n, m)
        ensures Coverage(o, n, m, match_, n) >= Coverage(o, n, m, b, n)
      {
        TwoOverlapsKeepMost(o, low, high, best);
        MatchCoversMost(o, n, m, best, match_, b);
      }
    } else if high == low + 1 {
      OneShortIsAnswered(high);
      var o := Pair(low, high, high, low);
      assert o[0][1] == high;
      NotAlways(low, high, o);
    } else {
      StrayIsAnswered(high, low);
      var o := Pair(high, low, low, 0);
      assert o[0][0] == high;
      NotAlways(low, high, o);
    }
  }

  /** On every frame with these two overlaps all matched pairs overlap if that is possible. */
  ghost predicate AlwaysOverlapping(low: nat, high: nat) {
    forall o: Grid<nat>, n: nat, m: nat, best: nat, match_ |
      && Shaped(o, n, m) && TwoOverlaps(o, low, high) && IsTop(o, best) && Answered(o, n, m, best, match_)
      && IsAssignment(match_, n, m) && CanAllOverlap(o, n, m) ::
        Overlapping(o, n, m, match_)
  }

  /** Where neither overlap is one pixel short of the other, that is so exactly when they are equal. */
  lemma TwoOverlapsAllow(low: nat, high: nat)
    requires 0 < low <= high && high != low + 1
    ensures AlwaysOverlapping(low, high) <==> high == low
  {
    if high == low {
      OneOverlapAllows(low);
    } else {
      StrayNotOverlapping(low, high);
    }
  }

  lemma OneOverlapAllows(low: nat)
    requires 0 < low
    ensures AlwaysOverlapping(low, low)
  {
    forall o: Grid<nat>, n: nat, m: nat, best: nat, match_ |
      && Shaped(o, n, m) && TwoOverlaps(o, low, low) && IsTop(o, best) && Answered(o, n, m, best, match_)
      && IsAssignment(match_, n, m) && CanAllOverlap(o, n, m)
      ensures Overlapping(o, n, m, match_)
    {
      assert AllEqual(o, best);
      OverlapsIfPossible(o, n, m, best, match_);
    }
  }

  lemma StrayNotOverlapping(low: nat, high: nat)
    requires 0 < low && low + 2 <= high
    ensures !AlwaysOverlapping(low, high)
  {
    StrayIsAnswered(high, low);
    StrayOutcome(high, low, Pair(high, low, low, 0));
    StrayFrame(high, low);
    NotOverlapping(low, high, Pair(high, low, low, 0));
  }

  lemma StrayFrame(best: nat, low: nat)
    requires 0 < low <= best
    ensures TwoOverlaps(Pair(best, low, low, 0), low, best) && IsTop(Pair(best, low, low, 0), best)
  {
    assert Pair(best, low, low, 0)[0][0] == best;
  }

  lemma NotOverlapping(low: nat, high: nat, o: Grid<nat>)
    requires Shaped(o, 2, 2) && TwoOverlaps(o, low, high) && IsTop(o, high) && Answered(o, 2, 2, high, STRAIGHT)
    requires CanAllOverlap(o, 2, 2) && o[1][1] == 0 && IsAssignment(STRAIGHT, 2, 2)
    ensures !AlwaysOverlapping(low, high)
  {
    assert 1 in STRAIGHT && STRAIGHT[1] == 1;
  }
}
