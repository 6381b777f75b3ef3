/** Matching detected blobs to the tracks of earlier frames with the assignment solver. */
module BlobTracking {
  import opened Grids
  import opened Assignments
  import opened MunkresSolver
  import opened SolverInvariant
  import opened FiniteSets

  datatype TrackState = Birth | Alive | Dead

  /** A detected blob: the frame it was seen in, and an opaque shape. */
  datatype Blob = Blob(frame: nat, shape: nat)

  datatype Track = Track(id: nat, age: nat, state: TrackState, history: seq<Blob>)

  const DIE_THRESHOLD := 10
  const HISTORY_SIZE := 10

  /** The overlap of two bounding rectangles, in pixels. */
  type Overlap = (Blob, Blob) -> nat

  /** A new track records its first blob twice. */
  function NewTrack(id: nat, blob: Blob): Track {
    Track(id, 0, Birth, [blob, blob])
  }

  function Measured(t: Track, blob: Blob): Track {
    var h := t.history + [blob];
    t.(age := t.age + 1, history := if |h| > HISTORY_SIZE then h[1..] else h)
  }

  /** Frame numbers are 32-bit, so their difference wraps. */
  function Missed(t: Track, serial: nat): Track
    requires |t.history| > 0
  {
    var silent := (serial - t.history[|t.history| - 1].frame) % 0x1_0000_0000;
    t.(age := t.age + 1, state := if silent > DIE_THRESHOLD then Dead else t.state)
  }

  function Matches(t: Track, blob: Blob, overlap: Overlap): nat
    requires |t.history| > 0
  {
    if t.state == Dead then 0 else overlap(blob, t.history[|t.history| - 1])
  }

  ghost predicate Measurable(tracks: seq<Track>) {
    forall i | 0 <= i < |tracks| :: |tracks[i].history| > 0
  }

  // ----- the cost matrix -----

  ghost predicate IsBest(tracks: seq<Track>, blobs: seq<Blob>, overlap: Overlap, best: nat)
    requires Measurable(tracks)
  {
    && (forall i, j | 0 <= i < |tracks| && 0 <= j < |blobs| :: Matches(tracks[i], blobs[j], overlap) <= best)
    && (best > 0 ==> exists i, j :: 0 <= i < |tracks| && 0 <= j < |blobs| && Matches(tracks[i], blobs[j], overlap) == best)
  }

  function Larger(a: nat, b: nat): nat { if a > b then a else b }

  /** What the solver is charged for a cell: best - 1 - score where a track and a blob overlap, else infinite. */
  function CostOf(tracks: seq<Track>, blobs: seq<Blob>, overlap: Overlap, best: nat, i: nat, j: nat): Cost
    requires i < |tracks| ==> |tracks[i].history| > 0
  {
    if i < |tracks| && j < |blobs| && Matches(tracks[i], blobs[j], overlap) > 0
    then Finite((best - 1 - Matches(tracks[i], blobs[j], overlap)) as real)
    else Infinite
  }

  ghost predicate IsCostMatrix(g: Grid<Cost>, tracks: seq<Track>, blobs: seq<Blob>, overlap: Overlap, best: nat)
    requires Measurable(tracks)
  {
    && Shaped(g, Larger(|tracks|, |blobs|), Larger(|tracks|, |blobs|))
    && forall i, j | 0 <= i < |g| && 0 <= j < |g[i]| :: g[i][j] == CostOf(tracks, blobs, overlap, best, i, j)
  }

  ghost predicate NothingOverlaps(tracks: seq<Track>, blobs: seq<Blob>, overlap: Overlap)
    requires Measurable(tracks)
  {
    forall i, j | 0 <= i < |tracks| && 0 <= j < |blobs| :: Matches(tracks[i], blobs[j], overlap) == 0
  }

  /**
   * One is taken off the best score before the costs are formed, so the best pair
   * always costs -1: the solver's non-negativity holds exactly when nothing overlaps.
   */
  lemma CostsNonNegativeIff(g: Grid<Cost>, tracks: seq<Track>, blobs: seq<Blob>, overlap: Overlap, best: nat)
    requires Measurable(tracks) && IsBest(tracks, blobs, overlap, best) && IsCostMatrix(g, tracks, blobs, overlap, best)
    ensures NonNegativeCosts(g) <==> NothingOverlaps(tracks, blobs, overlap)
  {
    if NothingOverlaps(tracks, blobs, overlap) {
      AllInfinite(g, tracks, blobs, overlap, best);
    } else {
      var i, j :| 0 <= i < |tracks| && 0 <= j < |blobs| && Matches(tracks[i], blobs[j], overlap) == best;
      assert g[i][j] == Finite(-1.0);
    }
  }

  lemma AllInfinite(g: Grid<Cost>, tracks: seq<Track>, blobs: seq<Blob>, overlap: Overlap, best: nat)
    requires Measurable(tracks) && IsCostMatrix(g, tracks, blobs, overlap, best)
    requires NothingOverlaps(tracks, blobs, overlap)
    ensures forall i, j | 0 <= i < |g| && 0 <= j < |g[i]| :: g[i][j].Infinite?
  {
    forall i, j | 0 <= i < |g| && 0 <= j < |g[i]| ensures g[i][j].Infinite? {
      if i < |tracks| && j < |blobs| {
        assert Matches(tracks[i], blobs[j], overlap) == 0;
      }
    }
  }

  /** What the solver promises about the assignment `a` it leaves in a square matrix. */
  ghost predicate SolverAnswer(g: Grid<Cost>, a: Assignment, n: nat)
    requires Shaped(g, n, n)
  {
    && IsAssignment(a, n, n) && |a| == n
    && (forall z | ZerosForm(Substituted(g), z, n, n) :: a == z)
    && (NonNegativeCosts(g) || ZeroFreeCosts(g) ==> IsCheapest(Substituted(g), a, n, n))
  }

  /**
   * `match_` is what the solver arrives at from the costs of this frame, cut down
   * to real tracks and blobs, and has all that the solver promises of it.
   */
  ghost predicate MatchedBySolver(tracks: seq<Track>, blobs: seq<Blob>, overlap: Overlap, match_: Assignment)
    requires Measurable(tracks)
  {
    exists g, best, a ::
      && IsBest(tracks, blobs, overlap, best) && IsCostMatrix(g, tracks, blobs, overlap, best)
      && SolverAnswer(g, a, Larger(|tracks|, |blobs|))
      && SolvedBy(Substituted(g), a, Larger(|tracks|, |blobs|), Larger(|tracks|, |blobs|))
      && match_ == Restricted(a, |tracks|, |blobs|)
  }

  ghost function Restricted(a: Assignment, tracks: nat, blobs: nat): Assignment {
    map i | i in a && i < tracks && a[i] < blobs :: a[i]
  }

  // ----- what one frame does to the tracks -----

  function Followed(tracks: seq<Track>, blobs: seq<Blob>, match_: Assignment, serial: nat): (r: seq<Track>)
    requires forall i | 0 <= i < |tracks| :: |tracks[i].history| > 0
    requires forall i | i in match_ :: match_[i] < |blobs|
  {
    seq(|tracks|, i requires 0 <= i < |tracks| =>
      if i in match_ then Measured(tracks[i], blobs[match_[i]]) else Missed(tracks[i], serial))
  }

  /** New tracks for the blobs from j on that no old track took, numbered from id on. */
  ghost function Started(blobs: seq<Blob>, taken: set<nat>, upTo: nat, id: nat): seq<Track>
    requires upTo <= |blobs|
  {
    if upTo == 0 then []
    else
      var before := Started(blobs, taken, upTo - 1, id);
      if upTo - 1 in taken then before else before + [NewTrack(id + |before| + 1, blobs[upTo - 1])]
  }

  lemma {:induction false} StartedSize(blobs: seq<Blob>, taken: set<nat>, upTo: nat, id: nat)
    requires upTo <= |blobs|
    ensures |Started(blobs, taken, upTo, id)| + |set j | j in taken && j < upTo| == upTo
  {
    if upTo == 0 {
      assert (set j | j in taken && j < upTo) == {};
    } else {
      StartedSize(blobs, taken, upTo - 1, id);
      var before := set j | j in taken && j < upTo - 1;
      assert (set j | j in taken && j < upTo) == if upTo - 1 in taken then before + {upTo - 1} else before;
    }
  }

  lemma {:induction false} StartedIds(blobs: seq<Blob>, taken: set<nat>, upTo: nat, id: nat)
    requires upTo <= |blobs|
    ensures forall k | 0 <= k < |Started(blobs, taken, upTo, id)| :: Started(blobs, taken, upTo, id)[k].id == id + k + 1
    ensures Measurable(Started(blobs, taken, upTo, id))
  {
    if upTo > 0 { StartedIds(blobs, taken, upTo - 1, id); }
  }

  /** The indices below upTo that are not taken, in order. */
  ghost function Untaken(taken: set<nat>, upTo: nat): (u: seq<nat>)
    ensures forall k | 0 <= k < |u| :: u[k] < upTo
    ensures forall k, l | 0 <= k < l < |u| :: u[k] < u[l]
    ensures forall j: nat :: j in u <==> j < upTo && j !in taken
  {
    if upTo == 0 then []
    else
      var before := Untaken(taken, upTo - 1);
      if upTo - 1 in taken then before else before + [upTo - 1]
  }

  /** The k-th track started comes from the k-th blob that was not taken. */
  lemma {:induction false} StartedFrom(blobs: seq<Blob>, taken: set<nat>, upTo: nat, id: nat)
    requires upTo <= |blobs|
    ensures |Started(blobs, taken, upTo, id)| == |Untaken(taken, upTo)|
    ensures forall k | 0 <= k < |Untaken(taken, upTo)| ::
              Started(blobs, taken, upTo, id)[k] == NewTrack(id + k + 1, blobs[Untaken(taken, upTo)[k]])
  {
    if upTo > 0 {
      StartedFrom(blobs, taken, upTo - 1, id);
      var u, started := Untaken(taken, upTo - 1), Started(blobs, taken, upTo - 1, id);
      if upTo - 1 in taken {
        assert Untaken(taken, upTo) == u && Started(blobs, taken, upTo, id) == started;
      } else {
        assert Untaken(taken, upTo) == u + [upTo - 1];
        assert Started(blobs, taken, upTo, id) == started + [NewTrack(id + |u| + 1, blobs[upTo - 1])];
      }
    }
  }

  /** Each blob that was not taken starts exactly one track, and a taken one starts none. */
  lemma StartedOnce(blobs: seq<Blob>, taken: set<nat>, id: nat, j: nat)
    requires j < |blobs|
    ensures var u, started := Untaken(taken, |blobs|), Started(blobs, taken, |blobs|, id);
            && |started| == |u|
            && (j in taken ==> forall k | 0 <= k < |u| :: u[k] != j)
            && (j !in taken ==> exists k :: 0 <= k < |u| && u[k] == j && started[k] == NewTrack(id + k + 1, blobs[j])
                                            && forall l | 0 <= l < |u| && u[l] == j :: l == k)
  {
    StartedFrom(blobs, taken, |blobs|, id);
  }

  // ----- each blob goes to one track -----

  /** The track at index t of a frame's result got blob j, as an old track or as one of those started. */
  ghost predicate Takes(older: nat, blobs: nat, match_: Assignment, t: nat, j: nat) {
    if t < older then t in match_ && match_[t] == j
    else t - older < |Untaken(match_.Values, blobs)| && Untaken(match_.Values, blobs)[t - older] == j
  }

  ghost predicate TakenBySome(older: nat, blobs: nat, match_: Assignment, tracks: nat, j: nat) {
    exists t: nat :: t < tracks && Takes(older, blobs, match_, t, j)
  }

  ghost predicate TakenByOne(older: nat, blobs: nat, match_: Assignment, j: nat) {
    forall s: nat, t: nat | Takes(older, blobs, match_, s, j) && Takes(older, blobs, match_, t, j) :: s == t
  }

  /** The track at t got blob j and ends its history in it, or it got none and was told so. */
  ghost predicate Served(older: seq<Track>, tracks: seq<Track>, blobs: seq<Blob>, match_: Assignment, serial: nat, id: nat, t: nat)
    requires Measurable(older) && t < |tracks|
  {
    && (forall j: nat | Takes(|older|, |blobs|, match_, t, j) :: j < |blobs|
          && tracks[t] == (if t < |older| then Measured(older[t], blobs[j]) else NewTrack(id + (t - |older|) + 1, blobs[j]))
          && tracks[t].history != [] && tracks[t].history[|tracks[t].history| - 1] == blobs[j])
    && ((forall j: nat :: !Takes(|older|, |blobs|, match_, t, j)) ==> t < |older| && tracks[t] == Missed(older[t], serial))
  }

  /** Each blob goes to exactly one track, old or new. */
  ghost predicate Partitioned(older: seq<Track>, tracks: seq<Track>, blobs: seq<Blob>, match_: Assignment, serial: nat, id: nat)
    requires Measurable(older)
  {
    && (forall j: nat | j < |blobs| ::
          TakenBySome(|older|, |blobs|, match_, |tracks|, j) && TakenByOne(|older|, |blobs|, match_, j))
    && (forall t: nat | t < |tracks| :: Served(older, tracks, blobs, match_, serial, id, t))
  }

  lemma EachTakenByOne(older: nat, blobs: nat, match_: Assignment, j: nat)
    requires IsAssignment(match_, older, blobs)
    ensures TakenByOne(older, blobs, match_, j)
  {
    forall s: nat, t: nat | Takes(older, blobs, match_, s, j) && Takes(older, blobs, match_, t, j) ensures s == t {
      if s < older { assert j in match_.Values; }
      if t < older { assert j in match_.Values; }
    }
  }

  lemma EachTakenBySome(older: nat, blobs: nat, match_: Assignment, j: nat)
    requires IsAssignment(match_, older, blobs) && j < blobs
    ensures TakenBySome(older, blobs, match_, older + |Untaken(match_.Values, blobs)|, j)
  {
    if j in match_.Values {
      var i :| i in match_ && match_[i] == j;
      assert Takes(older, blobs, match_, i, j);
    } else {
      assert j in Untaken(match_.Values, blobs);
      var k :| 0 <= k < |Untaken(match_.Values, blobs)| && Untaken(match_.Values, blobs)[k] == j;
      assert Takes(older, blobs, match_, older + k, j);
    }
  }

  lemma EachServed(older: seq<Track>, tracks: seq<Track>, blobs: seq<Blob>, match_: Assignment, serial: nat, id: nat, t: nat)
    requires Measurable(older) && IsAssignment(match_, |older|, |blobs|) && t < |tracks|
    requires tracks == Followed(older, blobs, match_, serial) + Started(blobs, match_.Values, |blobs|, id)
    ensures Served(older, tracks, blobs, match_, serial, id, t)
  {
    if t >= |older| {
      StartedFrom(blobs, match_.Values, |blobs|, id);
      assert Takes(|older|, |blobs|, match_, t, Untaken(match_.Values, |blobs|)[t - |older|]);
    } else if t in match_ {
      assert Takes(|older|, |blobs|, match_, t, match_[t]);
    }
  }

  lemma FramePartitions(older: seq<Track>, tracks: seq<Track>, blobs: seq<Blob>, match_: Assignment, serial: nat, id: nat)
    requires Measurable(older) && IsAssignment(match_, |older|, |blobs|)
    requires tracks == Followed(older, blobs, match_, serial) + Started(blobs, match_.Values, |blobs|, id)
    ensures Partitioned(older, tracks, blobs, match_, serial, id)
  {
    StartedFrom(blobs, match_.Values, |blobs|, id);
    forall j: nat | j < |blobs|
      ensures TakenBySome(|older|, |blobs|, match_, |tracks|, j) && TakenByOne(|older|, |blobs|, match_, j)
    {
      EachTakenBySome(|older|, |blobs|, match_, j);
      EachTakenByOne(|older|, |blobs|, match_, j);
    }
    forall t: nat | t < |tracks| ensures Served(older, tracks, blobs, match_, serial, id, t) {
      EachServed(older, tracks, blobs, match_, serial, id, t);
    }
  }

  // ----- the square solution restricted to real tracks and blobs -----

  lemma RestrictedRows(a: Assignment, tracks: nat, blobs: nat)
    requires IsAssignment(a, blobs, blobs) && tracks <= blobs
    requires forall i: nat | i < blobs :: i in a
    ensures |Restricted(a, tracks, blobs)| == tracks
    ensures forall i: nat | i < tracks :: i in Restricted(a, tracks, blobs)
  {
    var b := Restricted(a, tracks, blobs);
    assert b.Keys == Below(tracks);
    assert |b| == |b.Keys|;
  }

  lemma RestrictedColumns(a: Assignment, tracks: nat, blobs: nat)
    requires IsAssignment(a, tracks, tracks) && blobs <= tracks
    requires forall j: nat | j < tracks :: j in a.Values
    ensures |Restricted(a, tracks, blobs)| == blobs
    ensures forall j: nat | j < blobs :: j in Restricted(a, tracks, blobs).Values
  {
    var b := Restricted(a, tracks, blobs);
    forall j: nat ensures j in b.Values <==> j < blobs {
      if j < blobs {
        assert j in a.Values;
        var i :| i in a && a[i] == j;
        assert i in b && b[i] == j;
      }
    }
    assert b.Values == Below(blobs);
    ValuesSize(b);
  }

  /** A complete assignment of the square matches all tracks or all blobs, whichever are fewer. */
  lemma RestrictedIsFull(a: Assignment, tracks: nat, blobs: nat)
    requires IsAssignment(a, Larger(tracks, blobs), Larger(tracks, blobs)) && |a| == Larger(tracks, blobs)
    ensures IsAssignment(Restricted(a, tracks, blobs), tracks, blobs)
    ensures |Restricted(a, tracks, blobs)| == MinSize(tracks, blobs)
    ensures tracks <= blobs ==> forall i: nat | i < tracks :: i in Restricted(a, tracks, blobs)
    ensures blobs <= tracks ==> forall j: nat | j < blobs :: j in Restricted(a, tracks, blobs).Values
  {
    AllRowsUsed(a, Larger(tracks, blobs));
    AllColumnsUsed(a, Larger(tracks, blobs));
    if tracks <= blobs {
      RestrictedRows(a, tracks, blobs);
    }
    if blobs <= tracks {
      RestrictedColumns(a, tracks, blobs);
    }
  }

  lemma AllRowsUsed(a: Assignment, n: nat)
    requires IsAssignment(a, n, n) && |a| == n
    ensures forall i: nat | i < n :: i in a
  {
    assert |a.Keys| == n;
    SubsetSize(a.Keys, Below(n));
  }

  lemma AllColumnsUsed(a: Assignment, n: nat)
    requires IsAssignment(a, n, n) && |a| == n
    ensures forall j: nat | j < n :: j in a.Values
  {
    ValuesSize(a);
    SubsetSize(a.Values, Below(n));
  }

  lemma {:induction false} ValuesSize(a: Assignment)
    requires forall i, k | i in a && k in a && a[i] == a[k] :: i == k
    ensures |a.Values| == |a|
    decreases |a|
  {
    if a.Keys == {} {
      assert a.Values == {};
    } else {
      var x :| x in a.Keys;
      var b := a - {x};
      ValuesSize(b);
      assert a.Keys == b.Keys + {x};
      forall y ensures y in a.Values <==> y in b.Values || y == a[x] {
        if y in a.Values && y != a[x] {
          var i :| i in a && a[i] == y;
          assert i in b && b[i] == y;
        }
      }
      assert a.Values == b.Values + {a[x]};
    }
  }

  ghost predicate FreshIds(tracks: seq<Track>, counter: nat) {
    && Measurable(tracks)
    && (forall i | 0 <= i < |tracks| :: 1 <= tracks[i].id <= counter)
    && (forall i, k | 0 <= i < k < |tracks| :: tracks[i].id != tracks[k].id)
  }

  lemma AppendKeepsIds(older: seq<Track>, newer: seq<Track>, id: nat)
    requires FreshIds(older, id) && Measurable(newer)
    requires forall k | 0 <= k < |newer| :: newer[k].id == id + k + 1
    ensures FreshIds(older + newer, id + |newer|)
  {
    var all := older + newer;
    forall i, k | 0 <= i < k < |all| ensures all[i].id != all[k].id {
      if k < |older| {
        assert older[i].id != older[k].id;
      } else {
        assert all[k].id == id + (k - |older|) + 1;
      }
    }
  }

  /** One frame keeps every id, and every new id was never used before. */
  lemma FrameKeepsIds(tracks: seq<Track>, blobs: seq<Blob>, match_: Assignment, serial: nat, id: nat)
    requires FreshIds(tracks, id) && IsAssignment(match_, |tracks|, |blobs|)
    ensures FreshIds(Followed(tracks, blobs, match_, serial) + Started(blobs, match_.Values, |blobs|, id),
                     id + |Started(blobs, match_.Values, |blobs|, id)|)
  {
    var followed := Followed(tracks, blobs, match_, serial);
    assert forall i | 0 <= i < |tracks| :: followed[i].id == tracks[i].id && |followed[i].history| > 0;
    StartedIds(blobs, match_.Values, |blobs|, id);
    AppendKeepsIds(followed, Started(blobs, match_.Values, |blobs|, id), id);
  }

  // ----- what a track remembers of all the frames before -----

  /** A frame seen from outside: how many tracks there were, what was detected, and what was matched. */
  datatype Frame = Frame(older: nat, blobs: seq<Blob>, match_: Assignment, serial: nat)

  ghost predicate Got(f: Frame, t: nat) {
    exists j: nat :: j < |f.blobs| && Takes(f.older, |f.blobs|, f.match_, t, j)
  }

  /** The blob that track t got in the frame. */
  ghost function GotBlob(f: Frame, t: nat): Blob
    requires Got(f, t)
  {
    var j: nat :| j < |f.blobs| && Takes(f.older, |f.blobs|, f.match_, t, j);
    f.blobs[j]
  }

  /** All blobs that track t has got, in order. */
  ghost function Trail(frames: seq<Frame>, t: nat): seq<Blob> {
    if frames == [] then []
    else
      var n := |frames| - 1;
      Trail(frames[..n], t) + if Got(frames[n], t) then [GotBlob(frames[n], t)] else []
  }

  /** How many frames track t has been through after its first. */
  ghost function Lived(frames: seq<Frame>, t: nat): nat {
    if frames == [] then 0
    else Lived(frames[..|frames| - 1], t) + if Trail(frames[..|frames| - 1], t) != [] then 1 else 0
  }

  /** How long ago, in 32-bit frame numbers, a blob was seen. */
  function Silence(serial: nat, blob: Blob): nat { (serial - blob.frame) % 0x1_0000_0000 }

  /** In some frame track t got no blob, and its last one was seen too long before. */
  ghost predicate Lost(frames: seq<Frame>, t: nat) {
    frames != []
    && var before, f := frames[..|frames| - 1], frames[|frames| - 1];
       var trail := Trail(before, t);
       Lost(before, t) || (trail != [] && !Got(f, t) && Silence(f.serial, trail[|trail| - 1]) > DIE_THRESHOLD)
  }

  function Latest<T>(s: seq<T>, n: nat): seq<T> { if |s| > n then s[|s| - n..] else s }

  /** All there is to a track, in terms of the blobs it got: its first is recorded twice, and ten are kept. */
  ghost predicate Remembers(frames: seq<Frame>, first: nat, t: nat, track: Track) {
    var trail := Trail(frames, t);
    && trail != [] && track.id == first + t + 1 && track.age == Lived(frames, t)
    && track.history == Latest([trail[0]] + trail, HISTORY_SIZE)
    && track.state == if Lost(frames, t) then Dead else Birth
  }

  ghost predicate Unborn(frames: seq<Frame>, t: nat) {
    Trail(frames, t) == [] && Lived(frames, t) == 0 && !Lost(frames, t)
  }

  ghost predicate AllRemember(frames: seq<Frame>, first: nat, tracks: seq<Track>) {
    && (forall t: nat | t < |tracks| :: Remembers(frames, first, t, tracks[t]))
    && (forall t: nat | t >= |tracks| :: Unborn(frames, t))
  }

  lemma FrameOn(frames: seq<Frame>, f: Frame, t: nat)
    ensures Trail(frames + [f], t) == Trail(frames, t) + if Got(f, t) then [GotBlob(f, t)] else []
    ensures Lived(frames + [f], t) == Lived(frames, t) + if Trail(frames, t) != [] then 1 else 0
    ensures Lost(frames + [f], t) <==> (
              || Lost(frames, t)
              || (Trail(frames, t) != [] && !Got(f, t) && Silence(f.serial, Trail(frames, t)[|Trail(frames, t)| - 1]) > DIE_THRESHOLD))
  {
    assert (frames + [f])[..|frames|] == frames;
  }

  /** Once lost, a track stays lost. */
  lemma {:induction false} LostForGood(frames: seq<Frame>, more: seq<Frame>, t: nat)
    requires Lost(frames, t)
    ensures Lost(frames + more, t)
    decreases |more|
  {
    if more == [] {
      assert frames + more == frames;
    } else {
      var n := |more| - 1;
      LostForGood(frames, more[..n], t);
      FrameOn(frames + more[..n], more[n], t);
      assert frames + more[..n] + [more[n]] == frames + more;
    }
  }

  /** A track gets one blob in a frame at most. */
  lemma GotIsTaken(f: Frame, t: nat, j: nat)
    requires j < |f.blobs| && Takes(f.older, |f.blobs|, f.match_, t, j)
    ensures Got(f, t) && GotBlob(f, t) == f.blobs[j]
  {
  }

  lemma MeasuredRemembers(frames: seq<Frame>, first: nat, t: nat, track: Track, f: Frame)
    requires Remembers(frames, first, t, track) && Got(f, t)
    ensures Remembers(frames + [f], first, t, Measured(track, GotBlob(f, t)))
  {
    FrameOn(frames, f, t);
    var trail, blob := Trail(frames, t), GotBlob(f, t);
    assert [trail[0]] + (trail + [blob]) == [trail[0]] + trail + [blob];
  }

  lemma LatestEnds(trail: seq<Blob>)
    requires trail != []
    ensures var h := Latest([trail[0]] + trail, HISTORY_SIZE);
            |h| > 0 && h[|h| - 1] == trail[|trail| - 1]
  {
  }

  lemma MissedRemembers(frames: seq<Frame>, first: nat, t: nat, track: Track, f: Frame)
    requires Remembers(frames, first, t, track) && !Got(f, t)
    ensures |track.history| > 0 && Remembers(frames + [f], first, t, Missed(track, f.serial))
  {
    var trail := Trail(frames, t);
    LatestEnds(trail);
    var silent := Silence(f.serial, trail[|trail| - 1]);
    assert Missed(track, f.serial) == track.(age := track.age + 1, state := if silent > DIE_THRESHOLD then Dead else track.state);
    FrameOn(frames, f, t);
  }

  lemma StartedRemembers(frames: seq<Frame>, first: nat, t: nat, f: Frame)
    requires Unborn(frames, t) && Got(f, t)
    ensures Remembers(frames + [f], first, t, NewTrack(first + t + 1, GotBlob(f, t)))
  {
    FrameOn(frames, f, t);
  }

  lemma StaysUnborn(frames: seq<Frame>, f: Frame, t: nat)
    requires Unborn(frames, t) && !Got(f, t)
    ensures Unborn(frames + [f], t)
  {
    FrameOn(frames, f, t);
  }

  /** Track t after a frame, given what it was before, if it was. */
  lemma TrackRemembers(frames: seq<Frame>, first: nat, older: seq<Track>, track: Track, f: Frame, t: nat)
    requires Measurable(older) && f.older == |older| && IsAssignment(f.match_, |older|, |f.blobs|)
    requires if t < |older| then Remembers(frames, first, t, older[t]) else Unborn(frames, t)
    requires t < |older| && t in f.match_ ==> track == Measured(older[t], f.blobs[f.match_[t]])
    requires t < |older| && t !in f.match_ ==> track == Missed(older[t], f.serial)
    requires t >= |older| ==>
               var untaken := Untaken(f.match_.Values, |f.blobs|);
               t - |older| < |untaken| && track == NewTrack(first + t + 1, f.blobs[untaken[t - |older|]])
    ensures Remembers(frames + [f], first, t, track)
  {
    if t >= |older| {
      GotIsTaken(f, t, Untaken(f.match_.Values, |f.blobs|)[t - |older|]);
      StartedRemembers(frames, first, t, f);
    } else if t in f.match_ {
      GotIsTaken(f, t, f.match_[t]);
      MeasuredRemembers(frames, first, t, older[t], f);
    } else {
      MissedRemembers(frames, first, t, older[t], f);
    }
  }

  ghost predicate StartsFrom(started: seq<Track>, blobs: seq<Blob>, untaken: seq<nat>, id: nat) {
    && |started| == |untaken|
    && forall k | 0 <= k < |untaken| :: untaken[k] < |blobs| && started[k] == NewTrack(id + k + 1, blobs[untaken[k]])
  }

  /** After a frame as well, each track is what the blobs it got make of it. */
  lemma FrameRemembered(frames: seq<Frame>, first: nat, older: seq<Track>, tracks: seq<Track>, blobs: seq<Blob>,
                        match_: Assignment, serial: nat, id: nat)
    requires Measurable(older) && AllRemember(frames, first, older) && IsAssignment(match_, |older|, |blobs|)
    requires id == first + |older|
    requires tracks == Followed(older, blobs, match_, serial) + Started(blobs, match_.Values, |blobs|, id)
    ensures AllRemember(frames + [Frame(|older|, blobs, match_, serial)], first, tracks)
  {
    var started, untaken := Started(blobs, match_.Values, |blobs|, id), Untaken(match_.Values, |blobs|);
    assert StartsFrom(started, blobs, untaken, id) by { StartedFrom(blobs, match_.Values, |blobs|, id); }
    TracksRemembered(frames, first, older, started, untaken, Frame(|older|, blobs, match_, serial));
  }

  lemma TracksRemembered(frames: seq<Frame>, first: nat, older: seq<Track>, started: seq<Track>, untaken: seq<nat>, f: Frame)
    requires Measurable(older) && AllRemember(frames, first, older) && f.older == |older|
    requires IsAssignment(f.match_, |older|, |f.blobs|) && untaken == Untaken(f.match_.Values, |f.blobs|)
    requires StartsFrom(started, f.blobs, untaken, first + |older|)
    ensures AllRemember(frames + [f], first, Followed(older, f.blobs, f.match_, f.serial) + started)
  {
    var followed := Followed(older, f.blobs, f.match_, f.serial);
    var tracks := followed + started;
    forall t: nat
      ensures t < |tracks| ==> Remembers(frames + [f], first, t, tracks[t])
      ensures t >= |tracks| ==> Unborn(frames + [f], t)
    {
      if t < |tracks| {
        assert tracks[t] == if t < |older| then followed[t] else started[t - |older|];
        TrackRemembers(frames, first, older, tracks[t], f, t);
      } else {
        StaysUnborn(frames, f, t);
      }
    }
  }

  class BlobTracker {
    var tracks: seq<Track>
    var idCounter: nat

    /** The frames of the session so far, and the value of the counter when it began. */
    ghost var frames: seq<Frame>
    ghost var first: nat

    /**
     * Ids are handed out once: all are distinct and none exceeds the counter. Each
     * track is what the blobs it got in the frames of the session make of it.
     */
    ghost predicate Valid()
      reads this
    {
      && FreshIds(tracks, idCounter)
      && idCounter == first + |tracks| && AllRemember(frames, first, tracks)
    }

    constructor ()
      ensures Valid() && tracks == [] && idCounter == 0 && frames == []
    {
      tracks, idCounter := [], 0;
      frames, first := [], 0;
    }

    /** Forgets all tracks; their ids are not handed out again. */
    method Stop()
      requires Valid()
      modifies this
      ensures Valid() && tracks == [] && idCounter == old(idCounter) && frames == []
    {
      tracks := [];
      frames, first := [], idCounter;
    }

    method BestScore(blobs: seq<Blob>, overlap: Overlap) returns (best: nat)
      requires Measurable(tracks)
      ensures IsBest(tracks, blobs, overlap, best)
    {
      best := 0;
      for i := 0 to |tracks|
        invariant forall k, j | 0 <= k < i && 0 <= j < |blobs| :: Matches(tracks[k], blobs[j], overlap) <= best
        invariant best > 0 ==> exists k, j :: 0 <= k < |tracks| && 0 <= j < |blobs| && Matches(tracks[k], blobs[j], overlap) == best
      {
        for j := 0 to |blobs|
          invariant forall k, l | 0 <= k < |tracks| && 0 <= l < |blobs| && (k < i || (k == i && l < j)) ::
                      Matches(tracks[k], blobs[l], overlap) <= best
          invariant best > 0 ==> exists k, l :: 0 <= k < |tracks| && 0 <= l < |blobs| && Matches(tracks[k], blobs[l], overlap) == best
        {
          var score := Matches(tracks[i], blobs[j], overlap);
          if score > best {
            best := score;
          }
        }
      }
    }

    /** Fills the square matrix: infinite everywhere, then the costs of overlapping pairs. */
    method BuildCosts(blobs: seq<Blob>, overlap: Overlap, best: nat) returns (m: array2<Cost>)
      requires Measurable(tracks)
      ensures fresh(m) && m.Length0 == m.Length1 == Larger(|tracks|, |blobs|)
      ensures IsCostMatrix(GridOf(m), tracks, blobs, overlap, best)
    {
      var n := Larger(|tracks|, |blobs|);
      m := new Cost[n, n]((i, j) => Infinite);
      for i := 0 to |tracks|
        invariant forall k, l | 0 <= k < n && 0 <= l < n ::
                    m[k, l] == if k < i then CostOf(tracks, blobs, overlap, best, k, l) else Infinite
      {
        for j := 0 to |blobs|
          invariant forall k, l | 0 <= k < n && 0 <= l < n ::
                      m[k, l] == if k < i || (k == i && l < j) then CostOf(tracks, blobs, overlap, best, k, l) else Infinite
        {
          var score := Matches(tracks[i], blobs[j], overlap);
          if score > 0 {
            m[i, j] := Finite((best - 1 - score) as real);
          }
        }
      }
    }

    /** The last blob whose cell in the row of a track holds 0. */
    method MatchOf(m: array2<Cost>, i: nat, blobs: nat) returns (found: bool, j: nat)
      requires i < m.Length0 && blobs <= m.Length1
      ensures found ==> j < blobs && m[i, j] == Finite(0.0) && forall l | j < l < blobs :: m[i, l] != Finite(0.0)
      ensures !found ==> forall l | 0 <= l < blobs :: m[i, l] != Finite(0.0)
    {
      found, j := false, 0;
      for l := 0 to blobs
        invariant found ==> j < l && m[i, j] == Finite(0.0) && forall k | j < k < l :: m[i, k] != Finite(0.0)
        invariant !found ==> forall k | 0 <= k < l :: m[i, k] != Finite(0.0)
      {
        if m[i, l] == Finite(0.0) {
          found, j := true, l;
        }
      }
    }

    /** Gives each matched track its blob and tells the others that they were missed. */
    method FollowTracks(m: array2<Cost>, blobs: seq<Blob>, serial: nat, ghost a: Assignment) returns (taken: set<nat>)
      requires Measurable(tracks)
      requires m.Length0 == m.Length1 == Larger(|tracks|, |blobs|)
      requires Verdict(GridOf(m), a, m.Length0, m.Length1) && IsAssignment(a, m.Length0, m.Length1)
      modifies this`tracks
      ensures tracks == Followed(old(tracks), blobs, Restricted(a, |old(tracks)|, |blobs|), serial)
      ensures taken == Restricted(a, |old(tracks)|, |blobs|).Values
    {
      ghost var before := tracks;
      ghost var b := Restricted(a, |tracks|, |blobs|);
      ghost var after := Followed(before, blobs, b, serial);
      taken := {};
      for i := 0 to |tracks|
        invariant |tracks| == |before|
        invariant forall k | 0 <= k < |before| :: tracks[k] == if k < i then after[k] else before[k]
        invariant forall j :: j in taken <==> exists k :: k in b && k < i && b[k] == j
      {
        var found, j := MatchOf(m, i, |blobs|);
        assert found <==> i in b by {
          if i in b { assert m[i, b[i]] == Finite(0.0); }
        }
        if found {
          assert GridOf(m)[i][j] == Finite(0.0) && b[i] == j;
          tracks := tracks[i := Measured(tracks[i], blobs[j])];
          taken := taken + {j};
        } else {
          tracks := tracks[i := Missed(tracks[i], serial)];
        }
      }
    }

    /** Starts a track with a fresh id for each blob that was not taken, in order. */
    method StartTracks(blobs: seq<Blob>, taken: set<nat>)
      modifies this`tracks, this`idCounter
      ensures tracks == old(tracks) + Started(blobs, taken, |blobs|, old(idCounter))
      ensures idCounter == old(idCounter) + |Started(blobs, taken, |blobs|, old(idCounter))|
    {
      for j := 0 to |blobs|
        invariant tracks == old(tracks) + Started(blobs, taken, j, old(idCounter))
        invariant idCounter == old(idCounter) + |Started(blobs, taken, j, old(idCounter))|
      {
        if j !in taken {
          idCounter := idCounter + 1;
          tracks := tracks + [NewTrack(idCounter, blobs[j])];
        }
      }
    }

    /** Hands the costs of the frame to the solver, which leaves its verdict in the matrix. */
    method SolveFrame(blobs: seq<Blob>, overlap: Overlap) returns (m: array2<Cost>, ghost a: Assignment)
      requires Measurable(tracks)
      ensures m.Length0 == m.Length1 == Larger(|tracks|, |blobs|)
      ensures Verdict(GridOf(m), a, m.Length0, m.Length1) && IsAssignment(a, m.Length0, m.Length1)
      ensures IsAssignment(Restricted(a, |tracks|, |blobs|), |tracks|, |blobs|)
      ensures |Restricted(a, |tracks|, |blobs|)| == MinSize(|tracks|, |blobs|)
      ensures MatchedBySolver(tracks, blobs, overlap, Restricted(a, |tracks|, |blobs|))
    {
      var best := BestScore(blobs, overlap);
      m := BuildCosts(blobs, overlap, best);
      ghost var g := GridOf(m);
      var munk := new Munkres();
      a := munk.Solve(m);
      assert SolverAnswer(g, a, Larger(|tracks|, |blobs|));
      RestrictedIsFull(a, |tracks|, |blobs|);
    }

    /**
     * One frame. The matrix is square, so the matching is complete on the shorter
     * side: a track is missed only when tracks outnumber blobs, and a new track is
     * started only when blobs outnumber tracks.
     */
    method MatchBlobs(blobs: seq<Blob>, overlap: Overlap, serial: nat) returns (ghost match_: Assignment)
      requires Valid()
      modifies this
      ensures Valid()
      ensures IsAssignment(match_, |old(tracks)|, |blobs|) && |match_| == MinSize(|old(tracks)|, |blobs|)
      ensures MatchedBySolver(old(tracks), blobs, overlap, match_)
      ensures tracks == Followed(old(tracks), blobs, match_, serial)
                      + Started(blobs, match_.Values, |blobs|, old(idCounter))
      ensures Partitioned(old(tracks), tracks, blobs, match_, serial, old(idCounter))
      ensures |tracks| == Larger(|old(tracks)|, |blobs|)
      ensures idCounter - old(idCounter) == |tracks| - |old(tracks)|
      ensures first == old(first) && frames == old(frames) + [Frame(|old(tracks)|, blobs, match_, serial)]
    {
      var m, a := SolveFrame(blobs, overlap);
      match_ := Restricted(a, |tracks|, |blobs|);
      TakeFrame(m, blobs, serial, a, match_);
    }

    /** What a match makes of the tracks, and of what they remember. */
    method TakeFrame(m: array2<Cost>, blobs: seq<Blob>, serial: nat, ghost a: Assignment, ghost match_: Assignment)
      requires Valid() && m.Length0 == m.Length1 == Larger(|tracks|, |blobs|)
      requires Verdict(GridOf(m), a, m.Length0, m.Length1) && IsAssignment(a, m.Length0, m.Length1)
      requires match_ == Restricted(a, |tracks|, |blobs|)
      requires IsAssignment(match_, |tracks|, |blobs|) && |match_| == MinSize(|tracks|, |blobs|)
      modifies this
      ensures Valid()
      ensures tracks == Followed(old(tracks), blobs, match_, serial)
                      + Started(blobs, match_.Values, |blobs|, old(idCounter))
      ensures Partitioned(old(tracks), tracks, blobs, match_, serial, old(idCounter))
      ensures |tracks| == Larger(|old(tracks)|, |blobs|)
      ensures idCounter - old(idCounter) == |tracks| - |old(tracks)|
      ensures first == old(first) && frames == old(frames) + [Frame(|old(tracks)|, blobs, match_, serial)]
    {
      ghost var before, earlier := tracks, frames;
      UpdateTracks(m, blobs, serial, a, match_);
      FrameRemembered(earlier, first, before, tracks, blobs, match_, serial, old(idCounter));
      frames := earlier + [Frame(|before|, blobs, match_, serial)];
    }


    method UpdateTracks(m: array2<Cost>, blobs: seq<Blob>, serial: nat, ghost a: Assignment, ghost match_: Assignment)
      requires FreshIds(tracks, idCounter) && m.Length0 == m.Length1 == Larger(|tracks|, |blobs|)
      requires Verdict(GridOf(m), a, m.Length0, m.Length1) && IsAssignment(a, m.Length0, m.Length1)
      requires match_ == Restricted(a, |tracks|, |blobs|)
      requires IsAssignment(match_, |tracks|, |blobs|) && |match_| == MinSize(|tracks|, |blobs|)
      modifies this`tracks, this`idCounter
      ensures FreshIds(tracks, idCounter)
      ensures tracks == Followed(old(tracks), blobs, match_, serial)
                      + Started(blobs, match_.Values, |blobs|, old(idCounter))
      ensures Partitioned(old(tracks), tracks, blobs, match_, serial, old(idCounter))
      ensures |tracks| == Larger(|old(tracks)|, |blobs|)
      ensures idCounter - old(idCounter) == |tracks| - |old(tracks)|
    {
      var taken := FollowTracks(m, blobs, serial, a);
      StartTracks(blobs, taken);
      FrameSize(match_, |old(tracks)|, blobs, old(idCounter));
      FrameKeepsIds(old(tracks), blobs, match_, serial, old(idCounter));
      FramePartitions(old(tracks), tracks, blobs, match_, serial, old(idCounter));
    }
  }

  lemma FrameSize(match_: Assignment, tracks: nat, blobs: seq<Blob>, id: nat)
    requires IsAssignment(match_, tracks, |blobs|) && |match_| == MinSize(tracks, |blobs|)
    ensures tracks + |Started(blobs, match_.Values, |blobs|, id)| == Larger(tracks, |blobs|)
  {
    StartedSize(blobs, match_.Values, |blobs|, id);
    ValuesSize(match_);
    assert (set j | j in match_.Values && j < |blobs|) == match_.Values;
  }
}
