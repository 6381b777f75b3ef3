/**
 * The match of a frame as the run of the solver on its costs: it is determined
 * by the overlaps, and when overlaps are separate it keeps every one of them.
 */
module FrameRuns {
  import opened Grids
  import opened Assignments
  import opened Covers
  import opened SolverSteps
  import opened MunkresSolver
  import opened SeparateCosts
  import opened BlobTracking
  import opened MatchCoverage
  import opened TrackFollowing

  /** The costs of a frame and what the solver arrived at from them. */
  lemma FrameIsSolved(tracks: seq<Track>, blobs: seq<Blob>, overlap: Overlap, match_: Assignment)
    returns (best: nat, g: Grid<Cost>, a: Assignment)
    requires Measurable(tracks) && MatchedBySolver(tracks, blobs, overlap, match_)
    ensures SolvedFrame(tracks, blobs, overlap, match_, best, g, a)
    ensures IsCharge(g, Overlaps(tracks, blobs, overlap), |tracks|, |blobs|, best)
  {
    var n := Larger(|tracks|, |blobs|);
    var h, top, b :| IsBest(tracks, blobs, overlap, top) && IsCostMatrix(h, tracks, blobs, overlap, top)
      && SolverAnswer(h, b, n) && SolvedBy(Substituted(h), b, n, n) && match_ == Restricted(b, |tracks|, |blobs|);
    best, g, a := top, h, b;
    ChargesAreCosts(g, tracks, blobs, overlap, best);
  }

  ghost predicate SolvedFrame(tracks: seq<Track>, blobs: seq<Blob>, overlap: Overlap, match_: Assignment,
                              best: nat, g: Grid<Cost>, a: Assignment)
    requires Measurable(tracks)
  {
    var n := Larger(|tracks|, |blobs|);
    && IsBest(tracks, blobs, overlap, best) && IsCostMatrix(g, tracks, blobs, overlap, best)
    && SolvedBy(Substituted(g), a, n, n) && match_ == Restricted(a, |tracks|, |blobs|)
  }

  lemma SolvedFramesAgree(tracks: seq<Track>, blobs: seq<Blob>, overlap: Overlap, match_: Assignment, match': Assignment,
                          best: nat, g: Grid<Cost>, a: Assignment, best': nat, g': Grid<Cost>, a': Assignment)
    requires Measurable(tracks)
    requires SolvedFrame(tracks, blobs, overlap, match_, best, g, a) && SolvedFrame(tracks, blobs, overlap, match', best', g', a')
    ensures match_ == match'
  {
    var n := Larger(|tracks|, |blobs|);
    BestIsOne(tracks, blobs, overlap, best, best');
    SameGrid(g, g', n, n);
    SolvedOnce(Substituted(g), a, a', n, n);
  }

  /** A frame has one match: the overlaps decide it, however many matches are equally good. */
  lemma MatchIsDetermined(tracks: seq<Track>, blobs: seq<Blob>, overlap: Overlap, match_: Assignment, match': Assignment)
    requires Measurable(tracks) && MatchedBySolver(tracks, blobs, overlap, match_) && MatchedBySolver(tracks, blobs, overlap, match')
    ensures match_ == match'
  {
    var best, g, a := FrameIsSolved(tracks, blobs, overlap, match_);
    var best', g', a' := FrameIsSolved(tracks, blobs, overlap, match');
    SolvedFramesAgree(tracks, blobs, overlap, match_, match', best, g, a, best', g', a');
  }

  // ----- frames on which no track and no blob has two overlaps -----

  ghost predicate SeparateOverlaps(o: Grid<nat>) {
    && (forall i, j, l | 0 <= i < |o| && 0 <= j < |o[i]| && 0 <= l < |o[i]| && o[i][j] > 0 && o[i][l] > 0 :: j == l)
    && (forall i, k, j | 0 <= i < |o| && 0 <= k < |o| && 0 <= j < |o[i]| && j < |o[k]| && o[i][j] > 0 && o[k][j] > 0 :: i == k)
  }

  ghost predicate OverlapsSome(o: Grid<nat>, i: nat) { i < |o| && exists j :: 0 <= j < |o[i]| && o[i][j] > 0 }

  ghost function TheOverlap(o: Grid<nat>, i: nat): (j: nat)
    requires OverlapsSome(o, i)
    ensures j < |o[i]| && o[i][j] > 0
  {
    var j: nat :| j < |o[i]| && o[i][j] > 0;
    j
  }

  /** Each track that overlaps a blob with that blob. */
  ghost function OverlapMap(o: Grid<nat>): Assignment {
    map i: nat | i < |o| && OverlapsSome(o, i) :: TheOverlap(o, i)
  }

  lemma OverlapMapIsAssignment(o: Grid<nat>, n: nat, m: nat)
    requires Shaped(o, n, m) && SeparateOverlaps(o)
    ensures IsAssignment(OverlapMap(o), n, m)
    ensures forall i: nat, j: nat | i < n && j < m :: o[i][j] > 0 <==> i in OverlapMap(o) && OverlapMap(o)[i] == j
  {
  }

  /** The costs of such a frame, as the solver sees them: an overlapping pair is cheap, all others cost the same. */
  lemma SeparateFrameCosts(g: Grid<Cost>, o: Grid<nat>, n: nat, m: nat, best: nat)
    requires Shaped(o, n, m) && SeparateOverlaps(o) && IsCharge(g, o, n, m, best)
    ensures Separate(Task(Substituted(g), OverlapMap(o), High(g) + 1.0, Larger(n, m), Larger(n, m)))
  {
    var k := Task(Substituted(g), OverlapMap(o), High(g) + 1.0, Larger(n, m), Larger(n, m));
    OverlapMapIsAssignment(o, n, m);
    HighBounds(g);
    forall i: nat, j: nat | i < k.rows && j < k.cols
      ensures if Low(k, i, j) then k.input[i][j] < k.far else k.input[i][j] == k.far
    {
      assert Low(k, i, j) <==> g[i][j].Finite?;
    }
  }

  /** Where a run has starred the low cells, the assignment it stands for chooses them. */
  lemma LowAreAssigned(k: Task, run: seq<Stage>, a: Assignment)
    requires Separate(k) && IsCompleteRun(run, k.input, k.rows, k.cols) && a == StarMap(run[|run| - 1].p.v.mask)
    ensures forall i | i in k.z :: i in a && a[i] == k.z[i]
  {
    var m := run[|run| - 1].p.v.mask;
    AllLowChosen(k, run);
    RunKeeps(run, k.input, k.rows, k.cols, |run| - 1);
    StarMapIsAssignment(m, k.rows, k.cols);
    forall i | i in k.z ensures i in a && a[i] == k.z[i] {
      assert IsStar(m, i, k.z[i]);
    }
  }

  lemma SeparateAnswer(o: Grid<nat>, n: nat, m: nat, g: Grid<Cost>, best: nat, a: Assignment, i: nat, j: nat)
    requires Shaped(o, n, m) && SeparateOverlaps(o) && IsCharge(g, o, n, m, best)
    requires SolvedBy(Substituted(g), a, Larger(n, m), Larger(n, m)) && i < n && j < m && o[i][j] > 0
    ensures i in a && a[i] == j
  {
    var size := Larger(n, m);
    var run: seq<Stage> :| IsCompleteRun(run, Substituted(g), size, size) && a == StarMap(run[|run| - 1].p.v.mask);
    SeparateFrameCosts(g, o, n, m, best);
    LowAreAssigned(Task(Substituted(g), OverlapMap(o), High(g) + 1.0, size, size), run, a);
    OverlapMapIsAssignment(o, n, m);
  }

  /**
   * When no track overlaps two blobs and no blob two tracks, every track that
   * overlaps a blob is matched with it, however small the overlap is and also
   * when one is a pixel short of the best.
   */
  lemma SeparateAreMatched(tracks: seq<Track>, blobs: seq<Blob>, overlap: Overlap, match_: Assignment, i: nat, j: nat)
    requires Measurable(tracks) && MatchedBySolver(tracks, blobs, overlap, match_)
    requires SeparateOverlaps(Overlaps(tracks, blobs, overlap))
    requires i < |tracks| && j < |blobs| && Overlaps(tracks, blobs, overlap)[i][j] > 0
    ensures i in match_ && match_[i] == j
  {
    var best, g, a := FrameIsSolved(tracks, blobs, overlap, match_);
    SeparateAnswer(Overlaps(tracks, blobs, overlap), |tracks|, |blobs|, g, best, a, i, j);
  }

  /**
   * From frame to frame: on such a frame a track that is not lost gets the blob
   * that its last blob overlaps.
   */
  lemma SeparateAreFollowed(frames: seq<Frame>, first: nat, tracks: seq<Track>, blobs: seq<Blob>, overlap: Overlap,
                            match_: Assignment, serial: nat, t: nat, j: nat)
    requires Measurable(tracks) && t < |tracks| && j < |blobs| && Remembers(frames, first, t, tracks[t]) && !Lost(frames, t)
    requires MatchedBySolver(tracks, blobs, overlap, match_) && SeparateOverlaps(Overlaps(tracks, blobs, overlap))
    requires overlap(blobs[j], Trail(frames, t)[|Trail(frames, t)| - 1]) > 0
    ensures Got(Frame(|tracks|, blobs, match_, serial), t) && GotBlob(Frame(|tracks|, blobs, match_, serial), t) == blobs[j]
  {
    OverlapIsWithLastBlob(frames, first, tracks, blobs, overlap, t, j);
    SeparateAreMatched(tracks, blobs, overlap, match_, t, j);
    GotIsTaken(Frame(|tracks|, blobs, match_, serial), t, j);
  }
}
