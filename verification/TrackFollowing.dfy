/**
 * What the next match is made from: the overlaps of the tracks, in terms of the
 * blobs they got in the frames before. Frames are those that `BlobTracker` keeps.
 */
module TrackFollowing {
  import opened Grids
  import opened BlobTracking
  import opened MatchCoverage

  /** A track that keeps the latest of a trail overlaps a blob as the last blob of the trail does. */
  lemma OverlapWithLast(trail: seq<Blob>, lost: bool, tracks: seq<Track>, blobs: seq<Blob>, overlap: Overlap, t: nat, k: nat)
    requires Measurable(tracks) && t < |tracks| && k < |blobs| && trail != []
    requires tracks[t].history == Latest([trail[0]] + trail, HISTORY_SIZE) && tracks[t].state == if lost then Dead else Birth
    ensures Overlaps(tracks, blobs, overlap)[t][k] == if lost then 0 else overlap(blobs[k], trail[|trail| - 1])
  {
    LatestEnds(trail);
  }

  /** A track overlaps a blob as the last blob it got does; one that was lost overlaps nothing. */
  lemma OverlapIsWithLastBlob(frames: seq<Frame>, first: nat, tracks: seq<Track>, blobs: seq<Blob>, overlap: Overlap,
                              t: nat, k: nat)
    requires Measurable(tracks) && t < |tracks| && k < |blobs| && Remembers(frames, first, t, tracks[t])
    ensures Trail(frames, t) != []
    ensures Overlaps(tracks, blobs, overlap)[t][k]
         == if Lost(frames, t) then 0 else overlap(blobs[k], Trail(frames, t)[|Trail(frames, t)| - 1])
  {
    OverlapWithLast(Trail(frames, t), Lost(frames, t), tracks, blobs, overlap, t, k);
  }

  /**
   * Two consecutive frames. A track that got blob j in the first, as an old track
   * or a new one, overlaps the blobs of the second as blob j does, unless it was
   * lost before.
   */
  lemma TakenThenOverlaps(frames: seq<Frame>, f: Frame, first: nat, tracks: seq<Track>, blobs: seq<Blob>, overlap: Overlap,
                          t: nat, j: nat, k: nat)
    requires Measurable(tracks) && t < |tracks| && k < |blobs| && Remembers(frames + [f], first, t, tracks[t])
    requires j < |f.blobs| && Takes(f.older, |f.blobs|, f.match_, t, j)
    ensures Overlaps(tracks, blobs, overlap)[t][k] == if Lost(frames, t) then 0 else overlap(blobs[k], f.blobs[j])
  {
    OverlapIsWithLastBlob(frames + [f], first, tracks, blobs, overlap, t, k);
    GotIsTaken(f, t, j);
    FrameOn(frames, f, t);
  }

  lemma MissedIsSilent(frames: seq<Frame>, f: Frame, t: nat, trail: seq<Blob>)
    requires trail == Trail(frames, t) && !Got(f, t)
    ensures Trail(frames + [f], t) == trail
    ensures trail != [] ==> (
              Lost(frames + [f], t) <==> Lost(frames, t) || Silence(f.serial, trail[|trail| - 1]) > DIE_THRESHOLD)
  {
    FrameOn(frames, f, t);
  }

  /**
   * A track that got none in the first overlaps the blobs of the second as the
   * blob it last got does, unless that was seen more than ten frames before.
   */
  lemma MissedThenOverlaps(frames: seq<Frame>, f: Frame, first: nat, tracks: seq<Track>, blobs: seq<Blob>, overlap: Overlap,
                           t: nat, k: nat, trail: seq<Blob>)
    requires Measurable(tracks) && t < |tracks| && k < |blobs| && Remembers(frames + [f], first, t, tracks[t])
    requires trail == Trail(frames, t) && forall j: nat | j < |f.blobs| :: !Takes(f.older, |f.blobs|, f.match_, t, j)
    ensures trail != []
    ensures Overlaps(tracks, blobs, overlap)[t][k]
         == if Lost(frames, t) || Silence(f.serial, trail[|trail| - 1]) > 10 then 0 else overlap(blobs[k], trail[|trail| - 1])
  {
    MissedIsSilent(frames, f, t, trail);
    OverlapWithLast(trail, Lost(frames + [f], t), tracks, blobs, overlap, t, k);
  }

  /** A track that was lost overlaps nothing in any later frame, whatever it gets. */
  lemma LostNeverOverlaps(frames: seq<Frame>, more: seq<Frame>, first: nat, tracks: seq<Track>, blobs: seq<Blob>, overlap: Overlap,
                          t: nat, k: nat)
    requires Measurable(tracks) && t < |tracks| && k < |blobs| && Remembers(frames + more, first, t, tracks[t])
    requires Lost(frames, t)
    ensures Overlaps(tracks, blobs, overlap)[t][k] == 0
  {
    LostForGood(frames, more, t);
    OverlapIsWithLastBlob(frames + more, first, tracks, blobs, overlap, t, k);
  }
}
