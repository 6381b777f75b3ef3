# ParleVision: verified models of its core

ParleVision runs graphs of video processing elements. This project models, in
Dafny, the three parts whose correctness is global, and proves what each is for.

**Assignment solver and blob tracking** (`FiniteSets`, `Grids`, `Assignments`,
`Covers`, `Augmentation`, `SolverInvariant`, `SolverSteps`, `MunkresSolver`,
`SeparateCosts`, `BlobTracking`, `MatchCoverage`, `MatchExchange`, `TrackFollowing`,
`FrameRuns`). The Hungarian algorithm as the program writes it: five
steps over a cost matrix, a mask of stars and primes and two cover arrays, driven by a
loop over step numbers. The class `Munkres` mutates its arrays in nested loops. Ghost row
and column offsets carry the optimality argument, and a lexicographic measure the
termination of the loop. `SolverSteps` relates the states before and after each step,
for costs of any signs, and shows that the relations leave no choice.
`BlobTracker.MatchBlobs` is its user; `TrackFollowing` says what a track is after any
number of frames and what it overlaps next, in terms of the blobs it got.
`MatchCoverage` and `MatchExchange` say how good the match of a frame is: what it
maximises, when that is the overlap covered, and when all matched pairs overlap;
`FrameRuns` that it is determined, and right when overlaps are separate. Costs are real
numbers.

**Pipeline runtime** (`PipelineGraph`, `PipelineSteps`, `PipelineInvariant`,
`PipelineSafety`, `PipelineRuns`, `PipelineBounds`, `PipelineHistory`). A transition
system over an arbitrary finite graph. A step is one locked action: of the scheduler (reap, dispatch,
scan one queue, dispatch producers), of a worker running an element (begin, take one
item, push one item, tell one consumer, finish), or of start and stop. An execution is
any interleaving of such steps. `PipelineGraph` also holds the reference semantics:
what every connection carries when the graph is evaluated serial by serial in
topological order. `PipelineHistory` counts events over the steps of an execution.
`GraphOrdering` is the depth-first cycle check that precedes a start.
`PinConnections`, `RunShapes`, `SchedulerShapes`, `PipelineReach` and `PipelineRuntime`
are the same runtime as objects that change in place. Each method of `Pipeline` moves
the ghost field `state` along steps of the transition system, so the theorems about
executions hold of what the objects do.

**TCP link** (`WireFormat`, `TcpClient`, `TcpServer`, `TcpSession`). The
length-prefixed messages, the incremental readers of both ends, the server's frame
queue with partial writes, and the acknowledgements that limit what is in flight.
`TcpSession.Session` joins both ends by two byte channels that deliver pieces of any
size. Its methods are the events of a session, so `Valid` holds in every run.

## Assumptions

- The connection graph is acyclic, no element is connected to itself, and every
  processor has a connected input. The cycle check is proved to establish the first.
- All connections are synchronous, and a run takes exactly one item from each input.
  The program means to enforce this and does not: `DataConsumer::postInput` is empty.
- A run does not fail, nor does the start or stop of a pipeline; the element's own
  methods `Init`, `Start`, `Stop` and `Deinit` are modelled with both outcomes. The user
  code of an element is a fixed function of its memory, its serial and its inputs, and
  puts on each output pin at most once.
- Serial numbers are unbounded naturals.
- A worker's actions and the scheduler's interleave at the granularity of the locks
  they take. All producers are dispatched in one step, as only the scheduler's thread
  dispatches.
- The solver is a new object for each matrix, or one whose mask holds no mark where
  the new matrix has a cell: resizing keeps old marks.
- The socket takes at least one byte of a write it does not refuse; otherwise the
  sending loop of the program would not end.
- A serialised value is read back by the same codec whatever follows it.

## What the code does and its comments do not say

- `matchBlobs` is described as maximising area coverage. It does not always, for two
  reasons. The maximum score is lowered by one before the costs are formed, so the best
  pair costs -1, and pairs one pixel short of it cost 0 and are starred before any -1 is
  seen: two such pairs are kept where two best ones are possible, whatever the best
  (`MatchCoverage.OneShortLosesCoverage`). And the solver replaces an infinite cost by one
  more than the largest finite cost, so a pair that does not overlap counts as one pixel
  less than the least overlap instead of nothing: overlaps 10, 6 / 6, 0 are matched as
  10 and 0 although 6 and 6 cover more (`MatchCoverage.StrayLosesCoverage`).
- When no overlap is one pixel short of the best, what is maximised is coverage plus,
  for each matched pair that does not overlap, the least overlap less one
  (`MatchCoverage.FrameMaximises`). Coverage itself is then maximal when every track
  overlaps every blob, or when all overlaps differ from the least by multiples of one
  number that is not below the least; that is so when one overlap is a single pixel and
  when all are equal (`MatchExchange.FrameCoversMost`, `MatchExchange.KeepsMostIf`). For
  frames with at most two different overlaps the condition is exact: all such frames are
  covered most if and only if the two are equal, or the high one is at least twice the
  low one and not one pixel above it (`MatchExchange.TwoOverlapsDecide`).
- When no track overlaps two blobs and no blob two tracks, every overlapping pair is
  matched, whatever the overlaps, so a track that is not lost gets the blob that its last
  one overlaps (`FrameRuns.SeparateAreMatched`, `FrameRuns.SeparateAreFollowed`).
- A track that is missed more than ten frames after its last blob is dead for good: it
  overlaps nothing in any later frame, but stays in the list, where it can still be matched
  with a blob it does not overlap (`TrackFollowing.LostNeverOverlaps`).
- A track can be matched with a blob it does not overlap: a lone track and a lone blob
  always are matched (`MatchCoverage.LonePairIsMatched`), and it happens even where all
  pairs of a complete match could overlap (`MatchCoverage.StrayLosesCoverage`). All
  matched pairs overlap when every track overlaps every blob; some do not whenever no
  complete match of overlapping pairs exists; and when all overlaps are equal, or one side
  has one member and no overlap is one short of the best, they all overlap exactly when
  that is possible (`MatchCoverage.FrameOverlaps`, `MatchExchange.TwoOverlapsAllow`).
- Costs are non-negative exactly when nothing overlaps (`BlobTracking.CostsNonNegativeIff`).
- A frame without arguments is read four bytes too far, or to the end of what has
  arrived if that is less, and is not acknowledged.
- What ends a wait of the server is an acknowledgement on a lossless connection with a frame
  in flight, and nothing else. So a lossy connection whose socket has once refused a write
  never writes again, nor does a lossless one that was refused with nothing in flight
  (`ServerConnection.QueueFrame`, `SendData` and `ReadyRead` say so call by call).
- Dropping the oldest frame of a lossy connection cuts the byte stream exactly when
  that frame had been written in part.

## Model

| member | source | states |
|---|---|---|
| `MunkresSolver.Munkres.Solve` | src/plvblobtracker/munkres.cpp:267-365 | For every matrix, rectangular or not and of any signs, the cells left at 0 are one assignment of size min(rows, columns), all others are -1: the stars at the end of a run whose consecutive states are related step by step, from the input with no marks, which leaves one possible answer; it is cheapest among all assignments of that size when no cost is negative or none is zero, and equals the zeros of the input when those already form a full assignment. Needs a mask without stars, as a fresh solver has |
| `MunkresSolver.Munkres.Run` | src/plvblobtracker/munkres.cpp:318-339 | The step loop ends for every real matrix and leaves a full set of independent stars; the states it went through are a complete run, each related to the one before by what its step number does |
| `MunkresSolver.Munkres.RunStep` | src/plvblobtracker/munkres.cpp:319-338 | Each step is one of the relation between states, keeps the invariant of its step number and makes the measure (stars, covered rows, has an uncovered zero) progress |
| `MunkresSolver.Munkres.Turn1` | src/plvblobtracker/munkres.cpp:323-325 | Stars exactly the zeros that come first in their row and column in row-major order, skipping lines that have a star; costs and covers untouched |
| `MunkresSolver.Munkres.Turn2` | src/plvblobtracker/munkres.cpp:326-328 | Finishes exactly when the stars are enough, else starts a search; either way exactly the starred columns are covered |
| `MunkresSolver.Munkres.Turn3` | src/plvblobtracker/munkres.cpp:329-331 | Primes the first uncovered zero and covers its row in place of the column of its star, or hands the prime to the augmentation when the row has no star, or asks for a shift because no zero is uncovered |
| `MunkresSolver.Munkres.Turn4` | src/plvblobtracker/munkres.cpp:332-334 | Flips a maximal alternating path from that prime, erases the primes and uncovers all lines: exactly one star more |
| `MunkresSolver.Munkres.Turn5` | src/plvblobtracker/munkres.cpp:335-337 | Adds the smallest uncovered cost, whatever its sign, to the covered rows and takes it from the uncovered columns, which makes an uncovered zero |
| `MunkresSolver.Munkres.FindUncoveredInMatrix` | src/plvblobtracker/munkres.cpp:30-40 | The first uncovered cell, in row-major order, that holds the item |
| `MunkresSolver.Munkres.PairInList` | src/plvblobtracker/munkres.cpp:42-50 | Whether a cell is on the path |
| `MunkresSolver.Munkres.IsStarred` | src/plvblobtracker/munkres.cpp:57-70 | Whether the row or the column of a cell has a star |
| `MunkresSolver.Munkres.StarIfFree` | src/plvblobtracker/munkres.cpp:56-75 | Stars a zero of a star-free row and column, keeps the greedy invariant |
| `MunkresSolver.Munkres.Step1` | src/plvblobtracker/munkres.cpp:52-78 | Takes the zeros in row-major order and stars each unless its row or column has a star already: that determines the stars, and every zero shares a line with one |
| `MunkresSolver.Munkres.Step2` | src/plvblobtracker/munkres.cpp:80-115 | Covers exactly the starred columns and counts one per star |
| `MunkresSolver.Munkres.PrimeZero` | src/plvblobtracker/munkres.cpp:126-130 | Primes the first uncovered zero in row-major order, or says that there is none |
| `MunkresSolver.Munkres.Step3` | src/plvblobtracker/munkres.cpp:117-140 | The three outcomes with the exact marks and covers each leaves |
| `MunkresSolver.Munkres.NextStar` | src/plvblobtracker/munkres.cpp:168-179 | The first star of the column that is not on the path, or none |
| `MunkresSolver.Munkres.NextPrime` | src/plvblobtracker/munkres.cpp:186-195 | The first prime of the row that is not on the path |
| `MunkresSolver.Munkres.ExtendPath` | src/plvblobtracker/munkres.cpp:166-196 | One round extends the alternating path by a star and a prime covered earlier than all before, or finds no star left |
| `MunkresSolver.Munkres.BuildPath` | src/plvblobtracker/munkres.cpp:147-196 | The loop ends with a maximal alternating path |
| `MunkresSolver.Munkres.FlipPath` | src/plvblobtracker/munkres.cpp:198-209 | Unstars the stars and stars the primes of the path, nothing else |
| `MunkresSolver.Munkres.ErasePrimes` | src/plvblobtracker/munkres.cpp:211-215 | Erases all primes and nothing else |
| `MunkresSolver.Munkres.UncoverAll` | src/plvblobtracker/munkres.cpp:217-223 | Uncovers every line |
| `MunkresSolver.Munkres.Step4` | src/plvblobtracker/munkres.cpp:142-227 | Flips a maximal path of the marks found and uncovers everything |
| `MunkresSolver.Munkres.SmallestUncovered` | src/plvblobtracker/munkres.cpp:241-252 | The smallest uncovered cost, although 0 stands for none yet |
| `MunkresSolver.Munkres.AddToCoveredRows` | src/plvblobtracker/munkres.cpp:254-257 | Adds to the covered rows only |
| `MunkresSolver.Munkres.SubtractFromUncoveredColumns` | src/plvblobtracker/munkres.cpp:259-262 | Subtracts from the uncovered columns only |
| `MunkresSolver.Munkres.Step5` | src/plvblobtracker/munkres.cpp:229-265 | Shifts costs by the smallest uncovered one and the offsets with them |
| `MunkresSolver.Munkres.HighValue` | src/plvblobtracker/munkres.cpp:287-293 | The largest finite cost, at least 0 |
| `MunkresSolver.Munkres.ReplaceInfinite` | src/plvblobtracker/munkres.cpp:296-299 | Infinite cells become the high value, others stay |
| `MunkresSolver.Munkres.Resized` | src/plvblobtracker/matrix.cpp:113-118 | A resized mask keeps the marks that fit |
| `MunkresSolver.Munkres.Load` | src/plvblobtracker/munkres.cpp:304-316 | A solver with a star-free mask starts with no marks and no covers |
| `MunkresSolver.Munkres.Prepare` | src/plvblobtracker/munkres.cpp:287-316 | All of it establishes the invariant of step 1 for the substituted costs |
| `MunkresSolver.Munkres.Store` | src/plvblobtracker/munkres.cpp:341-347 | 0 at the stars, -1 elsewhere |
| `MunkresSolver.SubstitutedAboveFinite` | src/plvblobtracker/munkres.cpp:287-299 | An infinite cell costs more than every finite one |
| `MunkresSolver.FinishedIsCheapest` | src/plvblobtracker/munkres.cpp:318-347 | A finished state is a full assignment and, for tame input, a cheapest one |
| `MunkresSolver.StarsAreVerdict` | src/plvblobtracker/munkres.cpp:341-347 | The stored matrix stands for exactly the starred assignment |
| `MunkresSolver.Concluded` | src/plvblobtracker/munkres.cpp:318-361 | Everything promised of a result, from the state the loop ends in |
| `MunkresSolver.Bounded` | src/plvblobtracker/munkres.cpp:318-339 | The measure of the loop is bounded in every state |
| `MunkresSolver.SolvedOnce` | src/plvblobtracker/munkres.cpp:267-365 | An input has one answer, whatever the signs of the costs and however many assignments are cheapest |
| `SolverSteps.FollowsKeeps` | src/plvblobtracker/munkres.cpp:319-338 | The relation of each step keeps the invariant of the driver loop |
| `SolverSteps.GreedyUnique` | src/plvblobtracker/munkres.cpp:52-78 | Costs determine the stars of step 1 |
| `SolverSteps.FirstIsUnique` | src/plvblobtracker/munkres.cpp:30-40 | And the zero that step 3 primes |
| `SolverSteps.PathUnique` | src/plvblobtracker/munkres.cpp:166-196 | Marks determine the path that step 4 flips |
| `SolverSteps.ShiftedUnique` | src/plvblobtracker/munkres.cpp:241-262 | Costs and covers determine by how much step 5 shifts and what it leaves |
| `SolverSteps.RunsAgree` | src/plvblobtracker/munkres.cpp:318-339 | Two runs on the same input go through the same states |
| `SolverSteps.CompleteRunsAgree` | src/plvblobtracker/munkres.cpp:318-339 | So complete ones are equally long and end alike |
| `SeparateCosts.ZeroIsLow` | src/plvblobtracker/munkres.cpp:126-139 | When no two low costs share a line and all others are equal: until all low cells are starred an uncovered zero is a low cell whose row has no star |
| `SeparateCosts.ShiftsTo` | src/plvblobtracker/munkres.cpp:241-262 | Until then the shift stops at the next low cell |
| `SeparateCosts.AugmentsFar` | src/plvblobtracker/munkres.cpp:198-209 | Afterwards no low cell loses its star |
| `SeparateCosts.AllLowChosen` | src/plvblobtracker/munkres.cpp:267-347 | So a complete run ends with every low cell starred, whatever the signs of the costs |
| `Assignments.Cheapest` | src/plvblobtracker/munkres.cpp:229-274 | Dual certificate: an assignment on zero reduced costs, with offsets that are non-negative and vanish on unused lines, is cheapest among all of its size |
| `Covers.CoverStarredColumns` | src/plvblobtracker/munkres.cpp:85-90 | Covering the starred columns starts a search |
| `Covers.PrimeKeepsStars` | src/plvblobtracker/munkres.cpp:126-127 | Priming an uncovered zero overwrites neither star nor prime |
| `Covers.SwapKeepsSearching` | src/plvblobtracker/munkres.cpp:132-137 | Covering the row and uncovering the column of a star keeps each star under exactly one line and one prime per covered row |
| `Covers.ShiftKeepsSearching` | src/plvblobtracker/munkres.cpp:254-262 | The shift keeps stars and primes on zeros and makes an uncovered zero |
| `Covers.ShiftKeepsOffsets` | src/plvblobtracker/munkres.cpp:254-262 | Costs stay the input plus offsets that live on starred lines; for tame input they stay non-negative |
| `Covers.SomeCellUncovered` | src/plvblobtracker/munkres.cpp:241-252 | A search that is not finished leaves an uncovered cell |
| `Augmentation.ExtendByStar` | src/plvblobtracker/munkres.cpp:169-179 | The star below the last prime is new to the path and was covered before all of it |
| `Augmentation.ExtendByPrime` | src/plvblobtracker/munkres.cpp:186-195 | The prime of its row is new to the path |
| `Augmentation.NoStarAfter` | src/plvblobtracker/munkres.cpp:181-182 | If every star of the column is on the path there is none |
| `Augmentation.PathIsSimple` | src/plvblobtracker/munkres.cpp:166-196 | No cell occurs twice on the path |
| `Augmentation.AugmentAddsOne` | src/plvblobtracker/munkres.cpp:198-215 | Flipping a maximal path keeps stars independent, unmatches no matched row or column, and adds exactly one of each |
| `Augmentation.AugmentKeepsZeros` | src/plvblobtracker/munkres.cpp:198-215 | Stars stay on zeros |
| `SolverInvariant.AfterStep1` | src/plvblobtracker/munkres.cpp:52-78 | Step 1 leads to the invariant of step 2 |
| `SolverInvariant.AfterStep2` | src/plvblobtracker/munkres.cpp:80-115 | Step 2 leads to finished or to the search invariant |
| `SolverInvariant.SwapAfterStep3` | src/plvblobtracker/munkres.cpp:132-137 | The search goes on with the stars unchanged |
| `SolverInvariant.PrimeAfterStep3` | src/plvblobtracker/munkres.cpp:126-139 | The prime handed to step 4 is unpaired |
| `SolverInvariant.AfterStep4` | src/plvblobtracker/munkres.cpp:198-227 | One star more, invariant of step 2 |
| `SolverInvariant.AfterStep5` | src/plvblobtracker/munkres.cpp:254-264 | Search invariant, with an uncovered zero |
| `SolverInvariant.SettledIsFull` | src/plvblobtracker/munkres.cpp:92-99 | Zeros that form a full assignment are all starred at once and end the loop |
| `BlobTracking.BlobTracker.BestScore` | src/plvblobtracker/BlobTracker.cpp:116-135 | The largest overlap of a track and a blob |
| `BlobTracking.BlobTracker.BuildCosts` | src/plvblobtracker/BlobTracker.cpp:180-201 | The square cost matrix: infinite but for overlapping pairs |
| `BlobTracking.BlobTracker.MatchOf` | src/plvblobtracker/BlobTracker.cpp:212-217 | The last blob whose cell in the row holds 0, or none does |
| `BlobTracking.BlobTracker.FollowTracks` | src/plvblobtracker/BlobTracker.cpp:207-229 | Each matched track measures its own blob, each other one is told it was missed |
| `BlobTracking.BlobTracker.StartTracks` | src/plvblobtracker/BlobTracker.cpp:256-266 | One new track per blob not taken, in order, with the next ids |
| `BlobTracking.BlobTracker.MatchBlobs` | src/plvblobtracker/BlobTracker.cpp:90-266 | A frame partitions the blobs: each goes to exactly one track, old or new, whose history it then ends, and an old track without one is told it was missed; the match is what the solver arrives at from the overlaps and complete on the shorter side, the tracks grow to the larger count, ids stay distinct, and each track stays what the blobs it got in all frames make of it: id, age, last ten blobs, lost or not |
| `BlobTracking.CostsNonNegativeIff` | src/plvblobtracker/BlobTracker.cpp:116-201 | All costs are non-negative if and only if nothing overlaps |
| `BlobTracking.RestrictedIsFull` | src/plvblobtracker/BlobTracker.cpp:181-229 | A full assignment of the square matches every track or every blob |
| `BlobTracking.BlobTracker.SolveFrame` | src/plvblobtracker/BlobTracker.cpp:116-205 | The verdict left in the matrix is a solver answer for the costs of this frame, complete on the shorter side |
| `BlobTracking.FramePartitions` | src/plvblobtracker/BlobTracker.cpp:207-266 | Per blob: one track and only one gets it, old if it was matched and new if not; per track: it got the blob that ends its history, or it is old and was told it was missed |
| `BlobTracking.StartedFrom` | src/plvblobtracker/BlobTracker.cpp:256-266 | The k-th track started comes from the k-th blob that was not taken |
| `BlobTracking.StartedOnce` | src/plvblobtracker/BlobTracker.cpp:256-266 | A blob not taken starts exactly one track, and a taken one starts none |
| `BlobTracking.StartedSize` | src/plvblobtracker/BlobTracker.cpp:256-266 | As many tracks start as blobs are left |
| `BlobTracking.FrameKeepsIds` | src/plvblobtracker/BlobTracker.cpp:256-266 | No id is used twice over any number of frames |
| `BlobTracking.BlobTracker.Stop` | src/plvblobtracker/BlobTracker.cpp:64-68 | All tracks are forgotten, their ids are not handed out again |
| `BlobTracking.FrameRemembered` | src/plvblobtracker/BlobTrack.cpp:36-53 | After any frames a track has the id of its place, the age of the frames since its first, the last ten of the blobs it got with the first counted twice, and is dead if and only if it once got none more than ten frames after its last blob |
| `BlobTracking.LostForGood` | src/plvblobtracker/BlobTrack.cpp:36-43 | A track that was lost stays lost, whatever it gets later |
| `TrackFollowing.OverlapIsWithLastBlob` | src/plvblobtracker/BlobTrack.cpp:77-83 | After any frames a track overlaps a blob as the last blob it got does; one that was lost overlaps nothing |
| `TrackFollowing.TakenThenOverlaps` | src/plvblobtracker/BlobTrack.cpp:45-83 | Two consecutive frames: a track, old or new, that got blob j in the first overlaps the blobs of the second as blob j does, unless it was lost before |
| `TrackFollowing.MissedThenOverlaps` | src/plvblobtracker/BlobTrack.cpp:35-83 | A track that got none overlaps them as the blob it last got does, unless that was seen more than ten 32-bit frame numbers before; then it overlaps nothing |
| `TrackFollowing.LostNeverOverlaps` | src/plvblobtracker/BlobTrack.cpp:36-83 | Nor does it in any later frame |
| `FrameRuns.MatchIsDetermined` | src/plvblobtracker/BlobTracker.cpp:90-205 | A frame has one match: the overlaps decide it |
| `FrameRuns.SeparateAreMatched` | src/plvblobtracker/BlobTracker.cpp:88-217 | When no track overlaps two blobs and no blob two tracks, every track that overlaps a blob is matched with it, also when an overlap is one pixel short of the best |
| `FrameRuns.SeparateAreFollowed` | src/plvblobtracker/BlobTracker.cpp:88-229 | From frame to frame: on such a frame a track that is not lost gets the blob that its last blob overlaps |
| `MatchCoverage.FrameIsAnswered` | src/plvblobtracker/BlobTracker.cpp:90-205 | The match of every frame is a solver answer for the overlaps of its tracks and blobs |
| `MatchCoverage.HighOfFrame` | src/plvblobtracker/munkres.cpp:287-299 | What stands for an infinite cost is what a pair one pixel short of the least overlap would cost (two short when all overlaps are equal) |
| `MatchCoverage.CheapestUnlessOneShort` | src/plvblobtracker/BlobTracker.cpp:136-205 | The answer is cheapest unless an overlap is one pixel short of the best |
| `MatchCoverage.MatchIsWorthMost` | src/plvblobtracker/BlobTracker.cpp:88-205 | Then the match is worth most among all that are complete on the shorter side, with each stray pair counting for what stands for infinity |
| `MatchCoverage.FrameMaximises` | src/plvblobtracker/BlobTracker.cpp:88-205 | What is maximised instead of coverage, on every frame without an overlap one short of the best: coverage plus (least overlap - 1) for each matched pair that does not overlap |
| `MatchCoverage.OneShortLosesCoverage` | src/plvblobtracker/BlobTracker.cpp:136-205 | Against the comment above the code: for every best above 1 a frame on which two pixels less than possible are covered |
| `MatchCoverage.StrayLosesCoverage` | src/plvblobtracker/munkres.cpp:296-299 | For every least and best at least two above it, a frame with no overlap one short on which a track is matched with a blob it does not overlap although both could overlap theirs, and less than possible is covered when the best is below twice the least |
| `MatchCoverage.PairFrameExists` | src/plvblobtracker/BlobTracker.cpp:116-135 | Any four overlaps of two tracks with two blobs occur on some frame, so the frames of the two lemmas above exist |
| `MatchCoverage.LonePairIsMatched` | src/plvblobtracker/BlobTracker.cpp:181-217 | A lone track and a lone blob are matched although they do not overlap |
| `MatchCoverage.FrameOverlaps` | src/plvblobtracker/BlobTracker.cpp:181-217 | When matched pairs overlap: all do if every track overlaps every blob, some does not if no complete overlapping match exists, and with equal overlaps or a single track or blob they do exactly when they can |
| `MatchExchange.ExchangeGainsLess` | src/plvblobtracker/BlobTracker.cpp:88-205 | Exchanging a set of tracks closed under shared blobs shows that they are worth no more in another match |
| `MatchExchange.ChainsCoverLess` | src/plvblobtracker/BlobTracker.cpp:88-205 | Chain by chain no other match covers more, when overlaps are spread by multiples of one distance |
| `MatchExchange.MatchCoversMost` | src/plvblobtracker/BlobTracker.cpp:88-205 | Coverage is maximal, against every match whatever its size, when the overlaps allow |
| `MatchExchange.FrameCoversMost` | src/plvblobtracker/BlobTracker.cpp:88-205 | The same for frames: the promise of the comment above the code, with its condition |
| `MatchExchange.KeepsMostIf` | src/plvblobtracker/BlobTracker.cpp:88-205 | The condition holds when every track overlaps every blob, one overlap is a single pixel, or all are equal |
| `MatchExchange.TwoOverlapsDecide` | src/plvblobtracker/BlobTracker.cpp:88-205 | Where frames have at most two different overlaps the promise is kept on all of them if and only if the two are equal, or the high one is at least twice the low one and not one pixel above it |
| `MatchExchange.TwoOverlapsAllow` | src/plvblobtracker/BlobTracker.cpp:181-217 | And all matched pairs overlap whenever they can if and only if the two are equal, neither being one pixel short of the other |
| `PipelineGraph.SessionBegins` | src/plvcore/Pipeline.cpp:440-470 | The reference semantics: in its first run an element remembers what it had when the session began |
| `PipelineGraph.RunProcesses` | src/plvcore/PipelineProcessor.cpp:93-122 | If every guaranteed input carries data the user code runs on what all inputs carry, NULL on the others included, decides what is remembered, and each output carries what it put there or NULL |
| `PipelineGraph.RunSkips` | src/plvcore/PipelineProcessor.cpp:93-103 | If some guaranteed input carries NULL nothing is remembered of the run and every output carries NULL |
| `PipelineGraph.LawsDetermineAll` | src/plvcore/PipelineProcessor.cpp:93-122 | Any account of memories and connections that obeys these three laws is the reference semantics |
| `PipelineSafety.Synchronised` | src/plvcore/DataConsumer.cpp:194-207 | Every input of an element that is dispatched, or is running and has not taken it, holds the item of exactly its serial in front |
| `PipelineSafety.HeadsAreInputs` | src/plvcore/DataConsumer.cpp:340-359 | The heads a run sees are the inputs of the reference evaluation |
| `PipelineSafety.ReapKeeps` | src/plvcore/Pipeline.cpp:574-598 | Reaping keeps the invariant |
| `PipelineSafety.BeginKeeps` | src/plvcore/PipelineProcessor.cpp:66-98 | Beginning a run keeps it; no serial assertion fails |
| `PipelineSafety.TakeKeeps` | src/plvcore/IInputPin.cpp:148-178 | Taking an item keeps it; the queue is never empty |
| `PipelineSafety.PushKeeps` | src/plvcore/IOutputPin.cpp:111-138 | Pushing an item keeps it; the item is the reference value |
| `PipelineSafety.TellKeeps` | src/plvcore/DataConsumer.cpp:366-403 | Telling a consumer keeps it; the serial is ahead of the consumer |
| `PipelineSafety.FinishKeeps` | src/plvcore/PipelineElement.cpp:295-301 | Finishing a run keeps it |
| `PipelineSafety.DispatchKeeps` | src/plvcore/Pipeline.cpp:600-615 | Dispatching a processor keeps it; its state is STARTED |
| `PipelineSafety.ProducersKeep` | src/plvcore/Pipeline.cpp:641-651 | Dispatching all producers keeps it |
| `PipelineSafety.StartKeeps` | src/plvcore/Pipeline.cpp:398-493 | Starting keeps it, with scoreboards that were never cleared |
| `PipelineSafety.StopKeeps` | src/plvcore/Pipeline.cpp:495-548 | Stopping keeps it |
| `PipelineSafety.ReadyIsNext` | src/plvcore/Pipeline.cpp:603-613 | The serial to dispatch is the one after the last run, and was handed out |
| `PipelineSafety.TellScored` | include/plvcore/DataConsumer.h:46-60 | The scoreboard stays a count of distinct pins although the pin id is ignored; a row completes once, in order |
| `PipelineRuns.StepKeeps` | src/plvcore/Pipeline.cpp:565-738 | Every step keeps the invariant |
| `PipelineRuns.AlwaysInv` | src/plvcore/Pipeline.cpp:565-738 | In every state of every execution, over any number of starts and stops, no assertion of the runtime has failed and no serials have disagreed |
| `PipelineRuns.RunsAreSynchronised` | src/plvcore/DataConsumer.cpp:194-207 | A run that begins finds one item of its own serial on every input |
| `PipelineRuns.PushesAreDetermined` | src/plvcore/IOutputPin.cpp:91-138 | Whatever the interleaving, what is put on a connection is the payload or NULL that serial-by-serial evaluation puts there |
| `PipelineRuns.QueuedIsDetermined` | src/plvcore/PinConnection.cpp:311-317 | So is every queued item of every state |
| `PipelineRuns.MemoryIsDetermined` | src/plvcore/PipelineProcessor.cpp:105-122 | So is what an element remembers between runs |
| `PipelineRuns.SessionsAgree` | src/plvcore/PipelineProcessor.cpp:66-122 | Two executions whose sessions start alike queue the same item under the same serial |
| `PipelineRuns.QueuesAreConsecutive` | src/plvcore/PinConnection.cpp:253-317 | In every state a queue is exactly the consecutive serials put and not taken |
| `PipelineRuns.RunQueueIsPhase` | src/plvcore/Pipeline.cpp:574-615 | In the run queue exactly when dispatched, running or done |
| `PipelineRuns.ScoreboardCounts` | include/plvcore/DataConsumer.h:46-60 | The scoreboard entry of a serial is the number of pins that announced it, below the pin count; the ready queue is strictly increasing |
| `PipelineBounds.QueueBound` | src/plvcore/Pipeline.cpp:619-652 | No connection into an element that d connections lead to from a producer ever holds more than 6d + 1 items, in every interleaving, the size scan included |
| `PipelineBounds.AtomicQueueBound` | src/plvcore/Pipeline.cpp:619-652 | 4d + 1, for the same connections, when no element is mid-run and every queue is short at each producer dispatch |
| `PipelineBounds.StepKeepsKeeping` | src/plvcore/Pipeline.cpp:600-652 | No step lets an element fall further behind than that |
| `PipelineBounds.IdleIsDrained` | src/plvcore/Pipeline.cpp:574-665 | With nothing running and nothing ready, every serial is handled and every queue is empty |
| `PipelineBounds.IdleCanLaunch` | src/plvcore/Pipeline.cpp:619-651 | So the producers can be dispatched |
| `PipelineBounds.NoDeadlock` | src/plvcore/Pipeline.cpp:574-665 | Unless the pipeline is idle, some element can take a step |
| `PipelineBounds.RunningCanStep` | src/plvcore/Pipeline.cpp:504-523 | A run under way can always be carried on, also while stopping |
| `PipelineBounds.StepWorks` | src/plvcore/Pipeline.cpp:574-665 | Every step of a run brings the pipeline exactly one step nearer to idle |
| `PipelineBounds.WorkIsZeroWhenIdle` | src/plvcore/Pipeline.cpp:574-665 | No work is left if and only if the pipeline is idle |
| `PipelineBounds.Draining` | src/plvcore/Pipeline.cpp:574-665 | Between producer dispatches, every maximal sequence of steps has the same length and ends idle |
| `PipelineHistory.EachSerialOnce` | src/plvcore/Pipeline.cpp:574-651 | Over any session the runs an element begins, the items put on and taken from a connection, and the rows that complete at a processor each have the serials base, base + 1, ...: each once, in order, without a gap |
| `PipelineHistory.PutsMinusTakes` | src/plvcore/PinConnection.cpp:253-317 | Conservation over a session: items put on a connection less items taken are the items in its queue |
| `PipelineHistory.ClockMoves` | src/plvcore/Pipeline.cpp:574-651 | Each such event moves its serial on by one, and no other step does |
| `PipelineHistory.EventIsOnTime` | src/plvcore/DataConsumer.cpp:194-207 | The k-th event is about serial base + k |
| `GraphOrdering.CycleCheck.IsEndNode` | src/plvcore/DataConsumer.cpp:48-53 | True for every processor; for a producer, when nothing is connected to it |
| `GraphOrdering.CycleCheck.Visit` | src/plvcore/DataConsumer.cpp:294-320 | Lists an element after all that feeds it and leaves the search path as it was, or ends with an element that feeds itself |
| `GraphOrdering.CycleCheck.VisitInputs` | src/plvcore/DataConsumer.cpp:322-338 | All elements that feed this one are listed, or a cycle was found |
| `GraphOrdering.CycleCheck.GenerateGraphOrdering` | src/plvcore/Pipeline.cpp:833-876 | True if and only if the graph has no cycle; then every element is listed once, after those that feed it, else the last listed is on a cycle |
| `GraphOrdering.SomeEndNode` | src/plvcore/Pipeline.cpp:851-855 | A graph with elements always has an end node |
| `GraphOrdering.EndNodesReachAll` | src/plvcore/Pipeline.cpp:837-867 | The search misses no element |
| `GraphOrdering.SortedRanks` | src/plvcore/Pipeline.cpp:857-867 | The ordering ranks the graph |
| `GraphOrdering.RankedIsAcyclic` | src/plvcore/Pipeline.cpp:431-438 | A ranked graph has no cycle |
| `PinConnections.ScoreBoard.SetPinCount` | include/plvcore/DataConsumer.h:44 | Sets the count, keeps the table |
| `PinConnections.ScoreBoard.Add` | include/plvcore/DataConsumer.h:46-60 | Counts one more pin; true and forgotten exactly when that reaches the pin count |
| `PinConnections.PinConnection.Put` | src/plvcore/PinConnection.cpp:311-316 | Appends |
| `PinConnections.PinConnection.Get` | src/plvcore/PinConnection.cpp:253-271 | Takes the oldest, or nothing where the program throws |
| `PinConnections.PinConnection.Peek` | src/plvcore/PinConnection.cpp:291-309 | Shows the oldest, or nothing where the program throws |
| `PinConnections.PinConnection.Flush` | src/plvcore/PinConnection.cpp:212-220 | Empties |
| `PinConnections.PinConnection.FastForward` | src/plvcore/PinConnection.cpp:182-200 | Drops exactly the items before the first with the serial; succeeds if and only if there is one |
| `PipelineRuntime.PipelineElement.Init` | src/plvcore/PipelineElement.cpp:181-192 | UNDEFINED to INITIALIZED, or to the error state; the scoreboard is told its pin count and keeps its table |
| `PipelineRuntime.PipelineElement.Start` | src/plvcore/PipelineElement.cpp:213-223 | INITIALIZED to STARTED, or to the error state |
| `PipelineRuntime.PipelineElement.Stop` | src/plvcore/PipelineElement.cpp:225-235 | Back to INITIALIZED, or to the error state |
| `PipelineRuntime.PipelineElement.Deinit` | src/plvcore/PipelineElement.cpp:194-211 | Back to UNDEFINED with serial 0, also from the error state, or to the error state |
| `PipelineRuntime.PipelineElement.Dispatch` | src/plvcore/Pipeline.cpp:984-991 | STARTED to DISPATCHED |
| `PipelineRuntime.Pipeline.NewData` | src/plvcore/DataConsumer.cpp:366-403 | The scoreboard counts; a complete row joins the ready queue of the consumer |
| `PipelineRuntime.Pipeline.Put` | src/plvcore/PinConnection.cpp:311-317 | Queues and tells: the two steps of the transition system |
| `PipelineRuntime.Pipeline.Get` | src/plvcore/IInputPin.cpp:148-178 | One taking step and the payload taken; thrown exactly when the queue is empty, which is the fault of the transition system |
| `PipelineRuntime.Pipeline.DataAvailableOnInputPins` | src/plvcore/DataConsumer.cpp:162-213 | The next serial exactly when every input has an item; the corrupted-input error is unreachable |
| `PipelineRuntime.Pipeline.PreInput` | src/plvcore/DataConsumer.cpp:340-359 | NULL is detected if and only if an input that is guaranteed data has one in front; NULL on the others does not count |
| `PipelineRuntime.Pipeline.GetInputs` | src/plvcore/IInputPin.cpp:123-178 | One item less on each input and the payloads that were in front |
| `PipelineRuntime.Pipeline.FlushFirst` | src/plvcore/DataConsumer.cpp:412-425 | One item less on each input |
| `PipelineRuntime.Pipeline.PutVariant` | src/plvcore/IOutputPin.cpp:111-138 | The payload goes to every connection of the pin, once per run; a second put is refused |
| `PipelineRuntime.Pipeline.PostOutput` | src/plvcore/IOutputPin.cpp:91-109 | NULL goes to every connection of pins nothing was put on |
| `PipelineRuntime.Pipeline.Process` | src/plvcore/PipelineProcessor.cpp:105-122 | The user code is applied to the heads; every output gets what it put or NULL |
| `PipelineRuntime.Pipeline.Skip` | src/plvcore/PipelineProcessor.cpp:93-103 | The row is thrown away and NULL sent on |
| `PipelineRuntime.Pipeline.Run` | src/plvcore/PipelineElement.cpp:237-302 | A whole run: one item of its serial less on each input, the reference value of that serial more on each output, the reference memory, nothing else touched; in terms of the queues, if a guaranteed input has NULL in front the memory stays and NULL is sent, else the user code runs on what all inputs have in front and what it put is sent |
| `PipelineRuntime.Pipeline.Reap` | src/plvcore/Pipeline.cpp:574-598 | Exactly the finished runs leave the run queue |
| `PipelineRuntime.Pipeline.DispatchReady` | src/plvcore/Pipeline.cpp:600-615 | Every element with no run in the run queue and a ready row is dispatched under the oldest, which leaves its ready queue; all others stay as they were |
| `PipelineRuntime.Pipeline.MaxQueue` | src/plvcore/Pipeline.cpp:620-625 | The longest queue |
| `PipelineRuntime.Pipeline.AllReady` | src/plvcore/Pipeline.cpp:631-639 | Every producer is idle and has something to produce |
| `PipelineRuntime.Pipeline.LaunchAll` | src/plvcore/Pipeline.cpp:641-651 | All producers are dispatched under one serial, and the serial goes up |
| `PipelineRuntime.Pipeline.RunProducers` | src/plvcore/Pipeline.cpp:619-651 | That happens if and only if all are ready and no queue holds five items |
| `PipelineRuntime.Pipeline.Schedule` | src/plvcore/Pipeline.cpp:565-738 | One tick: a sequence of steps after which no finished run is in the run queue and no row waits for an element that is free. A run under way is left alone, a free element runs its oldest row and keeps the rest, producers are launched if and only if all are willing and free and no queue holds five. It leaves a run under way or the pipeline idle; with nothing under way and something to do and no launch the work left falls; an idle pipeline with willing producers launches |
| `PipelineRuntime.Pipeline.CountInputs` | src/plvcore/DataConsumer.cpp:18-46 | The number of connected inputs |
| `PipelineRuntime.Pipeline.InitAll` | src/plvcore/Pipeline.cpp:277-334 | All elements initialised, all ready queues empty |
| `PipelineRuntime.Pipeline.Start` | src/plvcore/Pipeline.cpp:398-493 | Running afterwards if and only if there are elements and no cycle; then every element is started with what its start code leaves in memory, an empty ready queue and the next serial, with serials and scoreboards of earlier sessions kept; after a cycle they are left initialised |
| `PipelineRuntime.Pipeline.CheckGraph` | src/plvcore/Pipeline.cpp:431-438 | Passes if and only if the graph has no cycle |
| `PipelineRuntime.Pipeline.Stop` | src/plvcore/Pipeline.cpp:495-548 | Waits for every run under way, a sequence of steps, then: all elements undefined, all connections empty, the run queue empty, the next serial kept; scoreboards and memories are kept when no run was still to come |
| `PipelineRuntime.Pipeline.AwaitRuns` | src/plvcore/Pipeline.cpp:504-523 | Every dispatched run is carried to its end by steps of the transition system; nothing happens when none is |
| `RunShapes.RunEnds` | src/plvcore/PipelineElement.cpp:237-302 | Taking every input and sending every output amounts to one reference run |
| `RunShapes.RunBegins` | src/plvcore/PipelineProcessor.cpp:66-98 | A dispatched element finds its row, and every consumer is behind it |
| `RunShapes.HeadsAreNext` | src/plvcore/DataConsumer.cpp:194-207 | Between runs, any item in front of an input carries the serial of the next run |
| `SchedulerShapes.LaunchReaches` | src/plvcore/Pipeline.cpp:619-651 | A scan of short queues and a dispatch are steps of the transition system |
| `RunShapes.RunIsComputed` | src/plvcore/PipelineProcessor.cpp:88-122 | Whether a run is skipped, and what it computes, in terms of the items in front of its inputs |
| `SchedulerShapes.TickWorks` | src/plvcore/Pipeline.cpp:574-651 | The account of a tick: each run reaped and each row dispatched is one unit of work less, a launch adds exactly one run of every element |
| `SchedulerShapes.TickNeverStalls` | src/plvcore/Pipeline.cpp:574-651 | A tick of a pipeline that is not idle, with no run under way, does at least one thing; whatever the state it leaves a run under way or the pipeline idle |
| `SchedulerShapes.TickLeavesNoneWaiting` | src/plvcore/Pipeline.cpp:574-615 | After a tick no row waits for an element that is free |
| `SchedulerShapes.IdleTickLaunches` | src/plvcore/Pipeline.cpp:565-738 | A tick of an idle pipeline whose producers are willing launches them |
| `SchedulerShapes.StopReaches` | src/plvcore/Pipeline.cpp:495-548 | Once its runs have ended, a stopping pipeline can finish |
| `PipelineReach.ReachesKeeps` | src/plvcore/Pipeline.cpp:565-738 | What the objects do keeps the invariant of the transition system |
| `PipelineReach.Extends` | src/plvcore/Pipeline.cpp:565-738 | A sequence of steps extends an execution, so all theorems about executions apply |
| `WireFormat.WordValue` | src/plvtcpserver/TCPServerProcessor.cpp:194-197 | A 32-bit word reads back as what was written |
| `WireFormat.LengthFirst` | src/plvtcpserver/TCPServerProcessor.cpp:240-242 | The length in front counts what follows it |
| `WireFormat.OpcodeFirst` | src/plvtcpserver/TCPClientProducer.cpp:259-262 | Then the opcode, then the body |
| `WireFormat.WaitingIsIncomplete` | src/plvtcpserver/TCPClientProducer.cpp:238-247 | A reader that waits has less than one message pending |
| `WireFormat.MoreArrives` | src/plvtcpserver/TCPClientProducer.cpp:235-247 | Bytes that arrive do not disturb what was read |
| `WireFormat.ReadOn` | src/plvtcpserver/TCPClientProducer.cpp:257-297 | Handling one message of the announced length consumes exactly that message |
| `WireFormat.NoneIsBehind` | src/plvtcpserver/TCPClientProducer.cpp:233-306 | A waiting reader has handled every message that arrived in full |
| `WireFormat.ChunksAgree` | src/plvtcpserver/TCPClientProducer.cpp:233-306 | Chunk independence: the messages handled depend on the bytes received, not on how they were split into arrivals |
| `TcpClient.TCPClientProducer.ReadVariant` | src/plvtcpserver/TCPClientProducer.cpp:382-388 | A well-formed value is read exactly, whatever follows it |
| `TcpClient.TCPClientProducer.AckFrame` | src/plvtcpserver/TCPClientProducer.cpp:308-325 | Writes the encoding of one acknowledgement |
| `TcpClient.TCPClientProducer.ParseFrame` | src/plvtcpserver/TCPClientProducer.cpp:359-408 | Reads exactly the frame, acknowledges it and keeps its arguments; a frame without arguments takes the next four bytes with it, or all that follows when that is less |
| `TcpClient.TCPClientProducer.ReadArguments` | src/plvtcpserver/TCPClientProducer.cpp:379-399 | The argument list that was encoded |
| `TcpClient.TCPClientProducer.HandleMessage` | src/plvtcpserver/TCPClientProducer.cpp:259-283 | Any understood message is consumed whole; only frames are kept and acknowledged |
| `TcpClient.TCPClientProducer.ReadMessage` | src/plvtcpserver/TCPClientProducer.cpp:257-297 | One turn of the loop handles one message and reads the next length |
| `TcpClient.TCPClientProducer.FirstLength` | src/plvtcpserver/TCPClientProducer.cpp:238-247 | The pending length is read once |
| `TcpClient.TCPClientProducer.ReadData` | src/plvtcpserver/TCPClientProducer.cpp:233-306 | Ends on any bytes; on a stream of well-formed messages, handles in order every one that is complete |
| `TcpClient.TCPClientProducer.Produce` | src/plvtcpserver/TCPClientProducer.cpp:203-206 | Hands over the frames in the order they were sent |
| `TcpServer.EncodeFrame` | src/plvtcpserver/TCPServerProcessor.cpp:187-242 | The block with its length patched in last is the encoding the client reads |
| `TcpServer.ServerConnection.WriteFirst` | src/plvtcpserver/ServerConnection.cpp:129-166 | Writes on where it stopped; the stream stays whole |
| `TcpServer.ServerConnection.FirstIsPartlyWritten` | src/plvtcpserver/ServerConnection.cpp:135-157 | What has gone is remembered |
| `TcpServer.ServerConnection.FirstIsWritten` | src/plvtcpserver/ServerConnection.cpp:140-144 | A frame written whole is in flight and off the queue |
| `TcpServer.ServerConnection.SendData` | src/plvtcpserver/ServerConnection.cpp:106-174 | Stops only when enough is in flight, nothing is queued or the socket refuses; waits exactly in the last case |
| `TcpServer.ServerConnection.QueueFrame` | src/plvtcpserver/ServerConnection.cpp:51-104 | Lossless: every frame is kept. Lossy: the oldest goes when the queue is too long. Sends what it can: unless it was told to wait or the socket refuses, afterwards nothing is queued or the flight is full; while waiting or with a full flight it writes nothing |
| `TcpServer.ServerConnection.QueueAndSend` | src/plvtcpserver/ServerConnection.cpp:58-64 | Queues, and sends unless the flight is full |
| `TcpServer.ServerConnection.Trim` | src/plvtcpserver/ServerConnection.cpp:85-102 | Too long a queue makes the sender wait, or loses its oldest frame |
| `TcpServer.ServerConnection.DropOldest` | src/plvtcpserver/ServerConnection.cpp:97-98 | The stream is torn if and only if the dropped frame had been written in part |
| `TcpServer.ServerConnection.AckFrame` | src/plvtcpserver/ServerConnection.cpp:176-198 | Takes the expected serial out of flight, ignores any other; on a lossless connection either ends a wait, unless nothing was in flight |
| `TcpServer.ServerConnection.HandleMessage` | src/plvtcpserver/ServerConnection.cpp:218-237 | Acknowledgements are taken and may end a wait, anything else is skipped |
| `TcpServer.ServerConnection.ReadMessage` | src/plvtcpserver/ServerConnection.cpp:216-251 | One turn of the loop handles one message and reads the next length |
| `TcpServer.ServerConnection.ReadyRead` | src/plvtcpserver/ServerConnection.cpp:200-252 | Ends on any bytes; on a stream of well-formed messages, takes in order every acknowledgement that is complete, and ends a wait if and only if the connection is lossless, a frame was in flight and one of them came |
| `TcpServer.FrameGone` | src/plvtcpserver/ServerConnection.cpp:140-144 | Frame by frame the bytes taken stay a prefix of the frames queued |
| `TcpServer.FramePartGone` | src/plvtcpserver/ServerConnection.cpp:133-157 | Also when a frame goes in part |
| `TcpServer.NothingLost` | src/plvtcpserver/ServerConnection.cpp:51-174 | Lossless stream: the bytes the socket took, followed by what is still to write, are the frames kept, in order |
| `TcpServer.FrameDropped` | src/plvtcpserver/ServerConnection.cpp:95-101 | Dropping the oldest frame keeps that if and only if none of it has gone |
| `TcpServer.AcknowledgedInOrder` | src/plvtcpserver/ServerConnection.cpp:176-198 | Acknowledgements in the order of the flight empty it and none is ignored |
| `TcpSession.Session.QueueFrame` | src/plvtcpserver/ServerConnection.cpp:51-104 | Queueing keeps everything both ends know of each other, unless a lossy drop cuts the stream |
| `TcpSession.Session.SendData` | src/plvtcpserver/ServerConnection.cpp:106-174 | So does sending, whatever the socket takes |
| `TcpSession.Session.DeliverToClient` | src/plvtcpserver/TCPClientProducer.cpp:233-325 | So does any delivery of bytes to the client, which reads and acknowledges |
| `TcpSession.Session.DeliverToServer` | src/plvtcpserver/ServerConnection.cpp:200-252 | So does any delivery of bytes to the server |
| `TcpSession.Session.Produce` | src/plvtcpserver/TCPClientProducer.cpp:203-206 | So does the pipeline taking the oldest frame, which is the next of those handled |
| `TcpSession.Session.AckProtocol` | src/plvtcpserver/ServerConnection.cpp:176-198 | In flight are exactly the frames whose acknowledgements are on their way, then those not handled yet; no acknowledgement is ignored and the limit is kept |
| `TcpSession.Session.AcksOnTheirWay` | src/plvtcpserver/TCPClientProducer.cpp:308-325 | The bytes on their way to the server are the acknowledgements of exactly those frames |
| `TcpSession.Session.FramesArriveInOrder` | src/plvtcpserver/TCPClientProducer.cpp:402-405 | The client holds the argument lists of the oldest frames, in order |
| `TcpSession.Session.AllDelivered` | src/plvtcpserver/ServerConnection.cpp:124-173 | When all is written and delivered, every frame kept has been handled |
| `TcpSession.Session.AllAcknowledged` | src/plvtcpserver/ServerConnection.cpp:176-198 | And when the acknowledgements are delivered, nothing is in flight |
| `TcpSession.HandledAreWhole` | src/plvtcpserver/ServerConnection.cpp:124-173 | The client cannot have handled a frame that is not written whole |
| `TcpSession.ExpectedNext` | src/plvtcpserver/ServerConnection.cpp:183-187 | The acknowledgements to come are those expected, in order |

## Left out

- MunkresSolver.Munkres.Solve: with both negative and zero costs the result is a full assignment that its run determines, but not always a cheapest one; that it is cheapest is proved when no cost is negative or none is zero, and that it takes all low costs when no two of them share a line. How far it can be from cheapest otherwise is not bounded.
- MunkresSolver.Munkres.Load: needs a mask without marks, as a fresh solver has; `resize` keeps the marks of an earlier matrix that fit the new one, and what a reused solver makes of them is not modelled. `MunkresSolver.Munkres.Prepare` and `MunkresSolver.Munkres.Solve` need the same.
- MunkresSolver.Munkres.Prepare: needs a mask without marks, as `Load` does.
- MatchCoverage.CheapestUnlessOneShort: one direction only; with an overlap one short of the best the answer may still be cheapest, depending on the order in which zeros are starred.
- MatchExchange.FrameCoversMost: sufficient for every frame and exact for the frames with at most two different overlaps; a frame with more may be covered most without meeting it.
- BlobTracking.BlobTracker.MatchBlobs: the smallest positive double that the best score starts from is modelled as 0, which it equals after subtracting 1 in double precision; the candidate lists, colours and centre tracks of a blob are not modelled.
- PipelineRuntime.Pipeline.Start: the check for required pins is the assumption that every processor has an input, and `init` and `start` of the elements succeed; when one fails, the clean-up of those already started is not modelled.
- PipelineRuntime.Pipeline.InitAll: every `init` succeeds; the failing one, after which the program de-initialises the others, is modelled for one element only (`PipelineElement.Init`).
- PipelineRuntime.Pipeline.Stop: the worker threads it waits for are modelled by carrying each dispatched run to its end; every `stop` and `deinit` succeeds.
- PipelineRuntime.Pipeline.Run: reads the whole run as one sequence of steps; its interleavings with others are those of the transition system. A run that throws or returns false, and the error state it ends in, is left out.
- PipelineRuntime.Pipeline.Reap: only finished runs; a failed one, which stops the pipeline, is left out, here and in `Pipeline.Schedule`.
- PipelineRuntime.Pipeline.Schedule: does not stop the pipeline, since no run fails.
- PipelineRuntime.Pipeline.Get: answers a NULL item with no payload, where the program throws; its only caller clears such an item instead.
- PipelineRuntime.Pipeline.NewData: synchronous pins only; the branch for asynchronous ones is left out, here, in `Pipeline.DataAvailableOnInputPins` and in `Pipeline.CountInputs`.
- PipelineRuntime.Pipeline.DataAvailableOnInputPins: synchronous pins only.
- PipelineRuntime.Pipeline.CountInputs: synchronous pins only.
- PipelineRuntime.Pipeline.PutVariant: loops over the connections of the graph and picks those of the pin, where the program keeps a list per pin; viewers that listen to a pin are left out, and so is the error a refused second put ends the run with.
- PipelineSafety.ProducersKeep: dispatching all producers is one step; that a producer may begin before the next one is dispatched is not a separate interleaving, since the two touch different elements.
- GraphOrdering.CycleCheck.Visit: the method of producers and that of processors are one method with both branches.
- TcpServer.ServerConnection.QueueFrame: nothing is claimed of the byte stream after a frame written in part was dropped; the further call of `sendData` that it leaves to the event loop is a call of `SendData`, which may come at any time.
- TcpSession.Session.QueueFrame: nothing is claimed of a session in which a lossy connection dropped a frame written in part.
- TcpServer.ServerConnection.SendData: liveness after a refused write; the program then waits for an acknowledgement, which need not come.
- TcpClient.TCPClientProducer.ParseFrame: of malformed frames only that reading ends and nothing half-read is kept or acknowledged.
- TcpClient.TCPClientProducer.AckFrame: the write of an acknowledgement is taken to succeed; the program only warns when it does not.
- Asynchronous pins and asynchronous-only processors: they get no NULL items and may repeat or skip serials.
- Errors during a run, error states and messages, and what stops a pipeline after one.
- 32-bit wrap-around of serial numbers, and memory layout, reference counting and locks themselves.
- Frame rate and timing statistics, signals to viewers, logging.
- XML loading and saving, plugin loading, device and camera threads, the graphical interface, and the image processing elements.
- The serialisation of single values and images: they are opaque byte strings.
- Accepting, configuring and closing connections, and broadcasting a frame to several of them.
- Matrix operations the solver does not use, and birth logic and drawing of blob tracks.
