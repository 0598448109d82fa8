# Verified model of the store-monitoring backend

This project models the stateful core of the backend and proves what it keeps
over whole runs. Each module follows one part of the program:

- `Rdp`, `PathSplit`, `Polygon`, `Projection`, `Geometry`: the plan geometry of the
  footfall aggregator. Coordinates are reals. Distances are compared by cross
  products and squares, which orders points of one interval as the roots would.
- `FootfallModel`, `FootfallFrames`, `FootfallEvents`, `FootfallEffects`, `FootfallWorld`,
  `FootfallRuns`, `FootfallStays`, `FootfallTraces`, `FootfallVisits`, `FootfallHistory`,
  `FootfallResults`, `FootfallBadges`, `FootfallCases`, `FootfallTenancy`,
  `FootfallAggregator`, `Tally`: the aggregator. `FootfallAggregator`
  is the object with its maps, changed by the loops of the program; each method is
  proved equal to a transition of `FootfallModel`. `FootfallEvents` says what a log of
  openings, closings, gate hits, badges, prunes and flushes means; `FootfallWorld` sets
  the object beside the database and that log, and `FootfallRuns` proves what holds over
  every run of camera lookups, frames and flushes that may fail. `FootfallBadges` says
  which visits a badge takes back, and `FootfallCases` holds runs of real frames in which
  a promise fails. `FootfallFrames` says what a frame contributes, track by track.
  `FootfallStays` and `FootfallVisits` read stays and store visits off a bare list of
  sightings; `FootfallTraces` and `FootfallHistory` tie the program to that list, batch by
  batch and over runs, and `FootfallResults` says what the tables hold in its terms. The gate flags a batch
  carries may be stale, as in the program, where they are read before the lock; only
  `HitCountsExactly`, `VisitNeedsAbsence` and the cases ask for frames one at a time.
- `Breach`, `BreachRuns`, `BreachEpisodes`, `BreachFires`: the sustain/cooldown/in-flight
  machine per camera and person, its timing over all runs, which episodes are reported,
  and exactly when a reading fires.
- `Watchdog`: the offline and camera-down detection, shown to be one small
  automaton per camera.
- `ClipWindow`, `Sorting`: the clip window, the choice of recording segments, the seek,
  and what the cut clip shows when recording has gaps.
- `ZoneFlow`, `ZoneFlowCase`: zone assignment, the query of stored edges, and the netting of movement.
- `VisitorIds`, `Decimal`: visitor numbers recovered through text order.
- `Retention`: the clip sweep under failing unlinks and rollbacks.
- `CameraPaths`: unique stream paths.
- `AlertDebounce`: the severity debounce of pushed alerts.
- `Catalog`: the upgrade of a stored behavior catalog.
- `Options`, `Sequences`: optional values; increasing indices and dictionary orders.

Stores, organizations, cameras and clips are identified by integers or strings,
the clock is a real parameter, and an hour is its number since the epoch. The
order in which a dictionary or a set yields its entries is arbitrary: contracts
hold for every order. The database is a set of tables with all-or-nothing
transactions.

Where the code differs from its own documentation the model follows the code:

- Shared endpoints can count as an intersection (`PathSplit.SharedEndsExactly`,
  `PathSplit.SharedEndCanCount`).
- A late badge takes back at most one visit of its key, and none after a failed flush
  or a prune that forgot the key, even while they are still buffered
  (`FootfallBadges.LateBadgeExactly`, `FootfallCases.FailedFlushForgetsCredits`,
  `FootfallCases.TwoTracksOneCredit`).
- A return to a gate after 45 s is not always counted: a prune must have found the key
  that old (`FootfallRuns.HitCountsExactly`, `FootfallCases.ReturnNotCounted`).
- The zone totals cover the 200 busiest cell edges, not the whole window
  (`ZoneFlow.WholeWindowExactly`, `ZoneFlowCase.CutWindowMissesFlow`).
- The breach cooldown survives pruning only up to 300 s plus the sustain time
  (`BreachRuns.CooldownExact`).
- The capped clip window can lose the breach (`ClipWindow.BreachSurvivesExactly`).
- A gap in the recording shifts what the clip shows, and a window that begins in one
  loses footage (`ClipWindow.ConcatenationKeepsTime`, `ClipWindow.GapLosesFootage`).
- Visitor numbers repeat when a batch starts with 1000 or more walks of its day stored,
  short runs before each power of ten excepted (`VisitorIds.NextExact`).
- A retention backlog does not drain past 200 files that cannot be unlinked
  (`Retention.TakenExactly`, `Retention.RunStarves`), and a clip file whose row is never
  stored is not swept (`Retention.RunOrphans`).
- The append loop of the catalog upgrade cannot fire, so a release with a new
  built-in resets operator weights and thresholds (`Catalog.NothingToAppend`,
  `Catalog.AdditiveExactly`, `Catalog.MissingBuiltinResetsWeights`,
  `Catalog.NewBuiltinLosesEdits`).

`dafny verify dfyconfig.toml` checks everything.

## Model

| member | source | states |
|---|---|---|
| `Rdp.Rdp` | src/sentry_backend/services/footfall_aggregator.py:203-229 | the stack-and-flags loop returns exactly the points recursive Douglas-Peucker keeps; it terminates by the measure summed over stacked intervals |
| `Rdp.ScanFarthest` | src/sentry_backend/services/footfall_aggregator.py:213-224 | one scan finds the first interior point at the largest deviation from the chord (from the point, when the chord collapses), or none when nothing deviates |
| `Rdp.FindSplit` | src/sentry_backend/services/footfall_aggregator.py:212-228 | an interval is split at that point exactly when its deviation exceeds eps |
| `Rdp.SimplifyCorrect` | src/sentry_backend/services/footfall_aggregator.py:203-229 | both endpoints stay, the result is a subsequence, and every dropped point is within eps of the line through the kept points around it |
| `Rdp.WithinIsNear` | src/sentry_backend/services/footfall_aggregator.py:203-210 | what the tolerance means: some point of the line through the two kept points is within eps of the dropped one; below a chord of 1e-12, the first of them is |
| `Rdp.SplitExactly` | src/sentry_backend/services/footfall_aggregator.py:212-228 | an interval is split if and only if some point inside it strays that far, and then at the first that strays most |
| `Rdp.KeptTolerance` | src/sentry_backend/services/footfall_aggregator.py:211-229 | the tolerance between any two neighbouring kept indices of any interval |
| `Rdp.KeptNested` | src/sentry_backend/services/footfall_aggregator.py:203-229 | a larger eps keeps a subset of what a smaller one keeps |
| `Rdp.SimplifyIdempotent` | src/sentry_backend/services/footfall_aggregator.py:203-229 | simplifying a simplified path changes nothing |
| `PathSplit.IntersectExact` | src/sentry_backend/services/footfall_aggregator.py:398-411 | the four sign tests say yes if and only if the closed segments meet at a point counted by one half-open touching rule |
| `PathSplit.IntersectMeets` | src/sentry_backend/services/footfall_aggregator.py:398-411 | a yes names the meeting point: its position on both segments from the four cross products |
| `PathSplit.MeetsIntersect` | src/sentry_backend/services/footfall_aggregator.py:398-411 | every strict crossing, and every touch the rule counts, is a yes |
| `PathSplit.SharedEndCanCount` | src/sentry_backend/services/footfall_aggregator.py:401-411 | the comment says shared endpoints do not count; a wall that ends at the start of a step counts in one direction of the wall and not in the other |
| `PathSplit.SharedEndsExactly` | src/sentry_backend/services/footfall_aggregator.py:401-411 | a step that shares an end with a wall counts if and only if it begins at the wall's second end, or ends at its first, with the wall's other end strictly to its left |
| `PathSplit.ReverseStep` | src/sentry_backend/services/footfall_aggregator.py:398-411 | a step and its reverse get the same answer exactly when the step does not cross the wall's line with one wall end on the step's own line |
| `PathSplit.AnyIntersects` | src/sentry_backend/services/footfall_aggregator.py:701-702 | the any() over walls: yes if and only if some wall is met |
| `PathSplit.IsBlocked` | src/sentry_backend/services/footfall_aggregator.py:428-429 | a step is blocked if and only if it is a jump of at least 0.12 or meets a wall |
| `PathSplit.BlockedExactly` | src/sentry_backend/services/footfall_aggregator.py:428-429 | in numbers: a step of 0.12 or more, or one that meets a wall at a point the touching rule counts |
| `PathSplit.SplitPath` | src/sentry_backend/services/footfall_aggregator.py:420-438 | the loop returns the stretches between consecutive cuts, in order, without those shorter than three points |
| `PathSplit.StartsExact` | src/sentry_backend/services/footfall_aggregator.py:420-438 | a new stretch starts at the first point and at exactly those points whose incoming step is blocked |
| `PathSplit.RunOf` | src/sentry_backend/services/footfall_aggregator.py:420-438 | every input point lies in exactly one stretch |
| `PathSplit.SavedExactly` | src/sentry_backend/services/footfall_aggregator.py:431-437 | the p-th saved stretch is the p-th run of three points or more, point for point |
| `PathSplit.LongRunsExactly` | src/sentry_backend/services/footfall_aggregator.py:431-437 | those runs are listed in order, each once, and no other |
| `PathSplit.RunSteps` | src/sentry_backend/services/footfall_aggregator.py:420-438 | inside a stretch no step is blocked, and its first step is blocked (unless the path starts there) |
| `PathSplit.SavedRespectsWalls` | src/sentry_backend/services/footfall_aggregator.py:420-438 | no step of a saved stretch strictly crosses any wall or jumps 0.12 |
| `Polygon.PointInPolygon` | src/sentry_backend/services/footfall_aggregator.py:232-248 | the loop with its toggling flag computes crossing parity, and false for fewer than three or malformed points |
| `Polygon.HitIsSide` | src/sentry_backend/services/footfall_aggregator.py:245-246 | for an edge that straddles the ray, the division test is the sign of a cross product, the same in both directions |
| `Polygon.RotationInvariant` | src/sentry_backend/services/footfall_aggregator.py:232-248 | starting the vertex list elsewhere does not change the answer |
| `Polygon.DirectionInvariant` | src/sentry_backend/services/footfall_aggregator.py:232-248 | nor does listing the vertices backwards |
| `Polygon.ChordAdditive` | src/sentry_backend/services/footfall_aggregator.py:232-248 | a chord cuts a polygon into two whose answers differ exactly where the whole says inside |
| `Polygon.OutsideBoxIsOutside` | src/sentry_backend/services/footfall_aggregator.py:232-248 | false for every point outside the bounding box; on the left because a closed cycle changes sides evenly often |
| `Polygon.UnitInvariant` | src/sentry_backend/api/v1/stores.py:412-426 | positive scaling and shifting of each axis does not change the answer, so plan units and normalized units agree |
| `Polygon.TriangleExact` | src/sentry_backend/services/footfall_aggregator.py:232-248 | for a triangle it is inside when all three signed areas are positive and outside when one is negative |
| `Projection.FindCamera` | src/sentry_backend/services/footfall_aggregator.py:114-120 | the first camera entry of the plan with this id, none exactly when there is none |
| `Projection.InvertIsInverse` | src/sentry_backend/services/footfall_aggregator.py:173-192 | a matrix is inverted if and only if its determinant is not within 1e-12 of zero, and the scaled adjugate is its left inverse, entry by entry |
| `Projection.ApplyInverse` | src/sentry_backend/services/footfall_aggregator.py:138-146 | a point seen through the homography is recovered exactly; the denominator guard refuses it if and only if the forward weight exceeds 1e9 |
| `Projection.ProjectionRoundTrip` | src/sentry_backend/services/footfall_aggregator.py:84-170 | projecting the image of a plan point (after lens undistortion, any k1) gives that point clipped to the plan, and the point itself when it lies in [0, size - 0.001] |
| `Projection.UnclippedAgrees` | src/sentry_backend/services/footfall_aggregator.py:84-170 | the unclipped form answers what the clipped form answers, and refuses exactly the points not near the plan |
| `Projection.Project` | src/sentry_backend/services/footfall_aggregator.py:84-170 | a result has a positive plan size and lies left of and above the inset edge |
| `Projection.UndistortIsRadial` | src/sentry_backend/services/footfall_aggregator.py:130-137 | undistortion moves a point along its ray from the image centre, by a factor of 1 + k1 times the squared radius, for every k1 |
| `Projection.FallbackIsBlob` | src/sentry_backend/services/footfall_aggregator.py:147-157 | without a calibration the image centre falls on the camera, mid-plan when it has no place, and the image spans 0.28 of the smaller side |
| `Projection.NearPlanExactly` | src/sentry_backend/services/footfall_aggregator.py:159-170 | a point is kept by the unclipped form if and only if some point of the plan is within 5 % of the smaller side of it, along both axes |
| `Projection.SizeExactly` | src/sentry_backend/services/footfall_aggregator.py:106-112 | no size means 20 by 20; a size other than two positive numbers gives no answer |
| `Projection.ClipIsNearest` | src/sentry_backend/services/footfall_aggregator.py:159-170 | clipping gives the nearest coordinate of [0, size - 0.001] |
| `Projection.ProjectToCell` | src/sentry_backend/services/footfall_aggregator.py:67-81 | the cell is inside the 48 by 48 grid for every input |
| `Projection.CellHoldsPoint` | src/sentry_backend/services/footfall_aggregator.py:63-81 | the point lies in the cell it is counted in, per axis, once the plan is no thinner than the 0.001 inset on that axis |
| `Projection.FlowCellDecodes` | src/sentry_backend/services/footfall_aggregator.py:595-597 | the coarse cell number divides by 12 into its row and column |
| `Tally.BumpAllCounts` | src/sentry_backend/services/footfall_aggregator.py:638-639 | adding one per sample yields the histogram of the samples |
| `Tally.Merge` | src/sentry_backend/repository/analytics_repo.py:51-85 | every key holds the sum of both counters |
| `Tally.UpsertAdd` | src/sentry_backend/repository/analytics_repo.py:51-85 | the add-on-conflict insert of rows with pairwise distinct conflict keys is that sum |
| `Tally.Items` | src/sentry_backend/services/footfall_aggregator.py:806-819 | a counter turned into rows lists every key once with its count |
| `FootfallModel.DemoBucket` | src/sentry_backend/services/footfall_aggregator.py:328-338 | nothing when both labels are missing; otherwise each label is kept when known and reads unknown when not |
| `FootfallModel.Round4` | src/sentry_backend/services/footfall_aggregator.py:707 | path points are rounded to within half of 0.0001 |
| `FootfallEffects.CollectFlags` | src/sentry_backend/services/footfall_aggregator.py:609-610 | a gate hit is flagged fresh exactly when its key had not been seen before the frame |
| `FootfallEffects.CollectPending` | src/sentry_backend/services/footfall_aggregator.py:556-614 | heatmap samples of a frame do not depend on the gate memory |
| `FootfallFrames.FootExactly` | src/sentry_backend/services/footfall_aggregator.py:251-263 | the foot is the middle of the box's lower edge, in whichever order its corners come; divided by the frame size when a coordinate exceeds 1.5, else kept in the image |
| `FootfallFrames.StaffExactly` | src/sentry_backend/services/footfall_aggregator.py:556-570 | for every frame: the staff marks are the badged tracks other than mannequins, each once and in order |
| `FootfallFrames.VisibleExactly` | src/sentry_backend/services/footfall_aggregator.py:556-580 | the visible are the numbered tracks that are neither staff nor mannequins |
| `FootfallFrames.ShoppersExactly` | src/sentry_backend/services/footfall_aggregator.py:556-580 | each with the shopper identity it carries |
| `FootfallFrames.ClassesExactly` | src/sentry_backend/services/footfall_aggregator.py:556-583 | the classifications are those of the visible tracks with a label |
| `FootfallFrames.HeatExactly` | src/sentry_backend/services/footfall_aggregator.py:584-593 | the heatmap samples are the 48 by 48 cells of all visitors on the plan, columns from x and rows from y, and equal to what the cell projection alone gives |
| `FootfallFrames.CellsExactly` | src/sentry_backend/services/footfall_aggregator.py:594-597 | the coarse cells are those of the numbered visitors on the plan, row major |
| `FootfallFrames.PointsExactly` | src/sentry_backend/services/footfall_aggregator.py:598 | with their places as shares of the plan |
| `FootfallFrames.HitsExactly` | src/sentry_backend/services/footfall_aggregator.py:599-611 | the gate hits are the numbered visitors inside some gate, one each however many gates, under the shopper's key if it has one, fresh if that key was not seen before the frame |
| `FootfallEffects.HitGatesCount` | src/sentry_backend/services/footfall_aggregator.py:640-646 | visits grow by exactly the fresh hits |
| `FootfallEffects.CancelVisitsEffect` | src/sentry_backend/services/footfall_aggregator.py:620-637 | visits shrink by exactly the credits the badges find, each credit once, and every remaining credit stays backed |
| `FootfallEffects.GuardNeverBlocks` | src/sentry_backend/services/footfall_aggregator.py:628-630 | while credits are backed the guard on the count never stops a cancellation |
| `FootfallEffects.HitGatesKeepsCredits` | src/sentry_backend/services/footfall_aggregator.py:640-646 | a hit keeps every credit backed and every credit key among the seen keys |
| `FootfallEffects.PruneGatesKeepsCredits` | src/sentry_backend/services/footfall_aggregator.py:773-786 | so does forgetting stale gate keys |
| `FootfallEffects.BatchKeepsSeen` | src/sentry_backend/services/footfall_aggregator.py:620-646 | with the log of hits, badges and prunes beside it, a batch keeps the gate memory exactly the keys touched and not forgotten since, each with its last touch, and the credits exactly those the log gives |
| `FootfallEffects.CountDemosCount` | src/sentry_backend/services/footfall_aggregator.py:674-682 | the demographics buffer grows by exactly one per track not counted yet |
| `FootfallEffects.CountFlowsCount` | src/sentry_backend/services/footfall_aggregator.py:708-717 | the flow buffer grows by one per logged crossing of the batch; which those are `FootfallTraces.FlowsAreSteps` says |
| `FootfallEffects.IngestPresence` | src/sentry_backend/services/footfall_aggregator.py:647-717 | a batch opens a presence for exactly the visible tracks that had none, and loses none |
| `FootfallEffects.CloseDwellCount` | src/sentry_backend/services/footfall_aggregator.py:727-760 | closing presences adds each non-staff, unlinked one to its bucket once; for how long `FootfallTraces.ClosingsAreEnds` says |
| `FootfallEffects.CloseSpansCount` | src/sentry_backend/services/footfall_aggregator.py:761-771 | closing store spans adds each to the store bucket once, with its time |
| `FootfallEffects.BatchTracksTold` | src/sentry_backend/services/footfall_aggregator.py:620-717 | a batch moves every presence along its life: opened when first visible, badged, linked, never twice open |
| `FootfallEffects.ClosingsTold` | src/sentry_backend/services/footfall_aggregator.py:727-760 | closing presences ends each life once, with the outcome its life calls for |
| `FootfallEffects.BatchSpansTold` | src/sentry_backend/services/footfall_aggregator.py:620-667 | a batch opens spans that were not there and drops those a badge names |
| `FootfallEffects.SpanClosingsTold` | src/sentry_backend/services/footfall_aggregator.py:761-771 | closing spans ends each once |
| `FootfallEffects.PathsPart` | src/sentry_backend/services/footfall_aggregator.py:862-872 | the path rows a flush writes and those it skips are a permutation of the buffer |
| `FootfallEvents.OpenedOnceEndedOnce` | src/sentry_backend/services/footfall_aggregator.py:647-771 | in a life without a broken step, openings of a key equal its endings plus one if it is open |
| `FootfallEvents.ClosedExactly` | src/sentry_backend/services/footfall_aggregator.py:727-760 | a closing ends the one life begun at its opening: discarded if and only if badged in it, carried if and only if linked and not badged, else banked with a time that is not negative |
| `FootfallEvents.CreditExactly` | src/sentry_backend/services/footfall_aggregator.py:620-646 | a visit of the key can be taken back from a bucket if and only if its last counted hit went there and since then no flush found anything buffered, no badge of it came and no prune forgot it |
| `FootfallEvents.RememberedExactly` | src/sentry_backend/services/footfall_aggregator.py:773-786 | a key touched last at some event is forgotten if and only if some prune since came at least 45 s after it |
| `FootfallStays.StayTells` | src/sentry_backend/services/footfall_aggregator.py:647-654 | of a track that is here: its stay began at the one sighting since its last closing with no sighting between, whose store, hour and time it holds, and its last time is that of its latest sighting |
| `FootfallStays.GoneTells` | src/sentry_backend/services/footfall_aggregator.py:647-771 | a track is not here if and only if every sighting of it was followed by a closing |
| `FootfallStays.CellTells` | src/sentry_backend/services/footfall_aggregator.py:713-717 | its cell is the last one it was seen in since the stay began, and none if there was none |
| `FootfallStays.FlagsTell` | src/sentry_backend/services/footfall_aggregator.py:631-667 | it is staff (known across cameras) if and only if a badge (an identity) was seen since |
| `FootfallTraces.FlowsAreSteps` | src/sentry_backend/services/footfall_aggregator.py:708-717 | the crossings a batch logs over (store, camera, hour, a, b) are as many as its sightings in b of tracks last in a, a and b different and near, under its own store, camera and hour |
| `FootfallTraces.DemosAreNewcomers` | src/sentry_backend/services/footfall_aggregator.py:674-682 | the classifications it counts under a key are those of tracks not known |
| `FootfallTraces.ClosingsAreEnds` | src/sentry_backend/services/footfall_aggregator.py:727-760 | the closings banked under a bucket are the stays that ended unmarked there, and their time is the whole milliseconds from first to last sighting |
| `FootfallTraces.PathsAreRows` | src/sentry_backend/services/footfall_aggregator.py:735-750 | the rows written are those of the stays that ended |
| `FootfallVisits.VisitTells` | src/sentry_backend/services/footfall_aggregator.py:655-667 | a store visit holds the hour and time of its first sighting since it last ended or was revoked, and the time of its latest |
| `FootfallVisits.SpansAreVisits` | src/sentry_backend/services/footfall_aggregator.py:761-771 | the spans banked are the visits that ended, with their time |
| `FootfallEffects.FlushConserves` | src/sentry_backend/services/footfall_aggregator.py:843-887 | one flush moves a buffer into table plus skipped part without changing the total of any key |
| `FootfallRuns.RunInv` | src/sentry_backend/services/footfall_aggregator.py:441-907 | in every reachable state, for every key, stored + buffered + skipped equals what happened: samples, fresh visits minus cancellations, flow, demographics, closed dwells; and presences, spans, paths, gate memory and credits are what the log of events says |
| `FootfallTenancy.NothingLost` | src/sentry_backend/services/footfall_aggregator.py:844-887 | for each key: when at every flush that writes its store has an organization, or nothing is buffered under it, stored + buffered alone is what happened, whatever other stores do |
| `FootfallTenancy.KnownStoreLosesNothing` | src/sentry_backend/services/footfall_aggregator.py:494-518 | so a store whose frames are handled only once its organization is known never loses a count, over any mix of committed and failed flushes |
| `FootfallRuns.LivesBalance` | src/sentry_backend/services/footfall_aggregator.py:647-771 | over any run, key by key: openings of a presence equal its endings plus one if it is open, and so for store spans, with badge drops among the endings |
| `FootfallRuns.PathsConserved` | src/sentry_backend/services/footfall_aggregator.py:735-750 | over any run, stored, buffered and skipped path rows are a permutation of all rows ever closed |
| `FootfallRuns.VisitsBacked` | src/sentry_backend/services/footfall_aggregator.py:616-646 | after any run no visit count is below its outstanding credits, and credit keys are gate-seen keys |
| `FootfallRuns.VisitNeedsAbsence` | src/sentry_backend/services/footfall_aggregator.py:600-646 | with frames handled one at a time, a key at a gate before is counted again only after at least 45 s away, and not counted within 45 s |
| `FootfallRuns.HitCountsExactly` | src/sentry_backend/services/footfall_aggregator.py:600-646 | over any run, a hit counts if and only if its key was never at a gate before or some prune since came at least 45 s after it last was |
| `FootfallCases.ReturnNotCounted` | src/sentry_backend/services/footfall_aggregator.py:448-449 | the comment says a genuine re-entry recounts; a shopper at the gate at 0 s and at the till at 40 s is not counted when the next frame, 45 s or any longer after the first, shows the return to the gate |
| `FootfallRuns.StaffNeverBanked` | src/sentry_backend/services/footfall_aggregator.py:631-760 | over any run, a presence that closes is discarded if and only if a badge was seen in its life; carried if and only if linked and not badged; else banked with a time that is not negative |
| `FootfallHistory.RunTold` | src/sentry_backend/services/footfall_aggregator.py:441-907 | over any run the presences, the memory of classifications and the prune clock are what the list of sightings, read off the batches, says |
| `FootfallResults.DwellExactly` | src/sentry_backend/services/footfall_aggregator.py:727-771 | over any run, stored + buffered + skipped dwell of a bucket, tracks and milliseconds, is that of the stays and store visits that ended under it |
| `FootfallResults.StayCounts` | src/sentry_backend/services/footfall_aggregator.py:647-760 | a stay that ends counts under a bucket if and only if it began in the bucket's store and hour at its camera and neither a badge nor an identity was seen since; its time is from its first sighting to its last |
| `FootfallResults.VisitCounts` | src/sentry_backend/services/footfall_aggregator.py:655-771 | a store visit that ends counts under the store's own bucket of the hour it began in, for the time from its first sighting to its last |
| `FootfallResults.FlowExactly` | src/sentry_backend/services/footfall_aggregator.py:708-717 | over any run, stored + buffered + skipped flow from a to b is the number of steps taken from a to b |
| `FootfallResults.StepIs` | src/sentry_backend/services/footfall_aggregator.py:708-717 | a sighting in b is a step from a if and only if a is the last cell the track was in since its stay began, and a and b differ by at most two rows and two columns, but differ |
| `FootfallResults.DemographicsExactly` | src/sentry_backend/services/footfall_aggregator.py:674-682 | over any run, stored + buffered + skipped demographics of a key are the classifications of tracks not known at the time |
| `FootfallResults.KnownTells` | src/sentry_backend/services/footfall_aggregator.py:674-682 | a track is known if and only if no prune came 45 s or more after its last classification |
| `FootfallResults.RowsExactly` | src/sentry_backend/services/footfall_aggregator.py:735-750 | over any run, stored, buffered and skipped path rows are a permutation of the rows of the stays that ended |
| `FootfallResults.RowHolds` | src/sentry_backend/services/footfall_aggregator.py:735-750 | a row holds the store and hour its stay began in, the camera, the time from first to last sighting, and three or more points of one stretch between walls, simplified by 0.003; no badge was seen in the stay |
| `FootfallResults.PathTells` | src/sentry_backend/services/footfall_aggregator.py:683-707 | each point of a path is a sighting, rounded, that was on the canvas, not behind a wall, 0.005 or more from the point before it, and among the first 400 |
| `FootfallResults.LeavesLate` | src/sentry_backend/services/footfall_aggregator.py:727-734 | over any run no stay ends within 45 s of its last sighting |
| `FootfallResults.NobodyOverstays` | src/sentry_backend/services/footfall_aggregator.py:727-734 | and after a frame nobody unseen for 45 s is still here |
| `FootfallResults.FinishesLate` | src/sentry_backend/services/footfall_aggregator.py:761-771 | over any run no store visit ends within 120 s of its last sighting |
| `FootfallResults.NoVisitOverstays` | src/sentry_backend/services/footfall_aggregator.py:761-771 | and after a frame no shopper unseen for 120 s is still visiting |
| `FootfallResults.PrunesExactly` | src/sentry_backend/services/footfall_aggregator.py:773-786 | over any run the gate memory is pruned by exactly the frames 45 s or more after the last prune |
| `FootfallResults.FlushInTime` | src/sentry_backend/services/footfall_aggregator.py:719-725 | no frame leaves 90 s without an attempt to flush, nor 800 buffered cells |
| `FootfallResults.FlushEmpties` | src/sentry_backend/services/footfall_aggregator.py:793-907 | a flush that commits leaves nothing buffered, path rows included; one that fails leaves every count and row as it was |
| `FootfallResults.LookupsExactly` | src/sentry_backend/services/footfall_aggregator.py:494-518 | over any run a store's organization and walls and a camera's place are those of the last lookup that had them |
| `FootfallBadges.CreditsExact` | src/sentry_backend/services/footfall_aggregator.py:616-646 | over any run, a key has a credit in a bucket if and only if its last counted hit went there and no flush attempt that found something buffered, no badge of it and no forgetting prune came since |
| `FootfallBadges.BadgeTakesBack` | src/sentry_backend/services/footfall_aggregator.py:620-637 | over any run, a badge takes one visit out of exactly that bucket, and nothing when there is none |
| `FootfallBadges.VisitsAreBuffered` | src/sentry_backend/services/footfall_aggregator.py:620-646 | over any run, each visit count is the number of counted hits of its bucket that the log shows neither written nor taken back |
| `FootfallBadges.BufferedParts` | src/sentry_backend/services/footfall_aggregator.py:451-456 | that number is the key's own such hits plus the other keys', and a key with a credit has at least one |
| `FootfallBadges.LateBadgeExactly` | src/sentry_backend/services/footfall_aggregator.py:454-456 | the comment says a late badge can retro-cancel a visit while it is still buffered; over any run, of the n visits of the key still buffered a badge takes back one, if its last is among them and no flush has failed and no prune has forgotten the key since, and otherwise none; so none is left if and only if n is 0, or n is 1 and that holds |
| `FootfallCases.FailedFlushForgetsCredits` | src/sentry_backend/services/footfall_aggregator.py:888-907 | two frames of one camera: the visit of the shopper at the gate is taken back by the badge 2 s later; when the first frame ended in a failed flush, it is still buffered and still counted |
| `FootfallCases.TwoTracksOneCredit` | src/sentry_backend/services/footfall_aggregator.py:599-646 | a frame with two tracks of one re-identified shopper in the gate counts two visits; a badge takes back one, and a second badge none, with no flush and no prune in between |
| `FootfallCases.FilmIsRun` | src/sentry_backend/services/footfall_aggregator.py:520-725 | the series of frames of these cases, after the camera's lookup, is a reachable run |
| `FootfallCases.FilmIsSerial` | src/sentry_backend/services/footfall_aggregator.py:556-614 | in it each batch is what its frame gives in the state the frames before left |
| `FootfallWorld.FrameIsStep` | src/sentry_backend/services/footfall_aggregator.py:520-725 | a frame handled by the object below is one step of these runs |
| `FootfallAggregator.GroupByStore` | src/sentry_backend/services/footfall_aggregator.py:804-826 | grouping by store keeps every row once, under its own store |
| `FootfallAggregator.WriteCounter` | src/sentry_backend/services/footfall_aggregator.py:845-879 | store by store, the tables gain exactly the rows of stores with a known organization |
| `FootfallAggregator.FootfallAggregator.WriteOrPutBack` | src/sentry_backend/db/session.py:51-61 | the session commits the staged tables as a whole, or rolls back: then no table changes and every count is back in the buffers |
| `FootfallAggregator.FootfallAggregator.constructor` | src/sentry_backend/services/footfall_aggregator.py:442-485 | starts empty |
| `FootfallAggregator.FootfallAggregator.RegisterCamera` | src/sentry_backend/services/footfall_aggregator.py:494-518 | a lookup changes only the store's organization, walls and camera position |
| `FootfallAggregator.FootfallAggregator.CollectFrame` | src/sentry_backend/services/footfall_aggregator.py:538-611 | the loop over tracks gathers the batch; mannequins add nothing, staff only their mark, one gate hit per track |
| `FootfallAggregator.FootfallAggregator.CancelStaff` | src/sentry_backend/services/footfall_aggregator.py:620-637 | late badges take visits back, mark presences and drop spans |
| `FootfallAggregator.FootfallAggregator.CountCells` | src/sentry_backend/services/footfall_aggregator.py:638-639 | the heatmap buffer after the samples |
| `FootfallAggregator.FootfallAggregator.CountGateHits` | src/sentry_backend/services/footfall_aggregator.py:640-646 | visits, credits and gate memory after the hits |
| `FootfallAggregator.FootfallAggregator.TouchPresences` | src/sentry_backend/services/footfall_aggregator.py:647-654 | presences after the visible tracks are extended or opened; over runs, `FootfallStays.StayTells` says what they hold |
| `FootfallAggregator.FootfallAggregator.TouchSpans` | src/sentry_backend/services/footfall_aggregator.py:655-667 | store spans and links after the re-identified tracks |
| `FootfallAggregator.FootfallAggregator.StampDemographics` | src/sentry_backend/services/footfall_aggregator.py:668-673 | the first known gender stays on a presence |
| `FootfallAggregator.FootfallAggregator.CountDemographics` | src/sentry_backend/services/footfall_aggregator.py:674-682 | the demographics buffer and memory |
| `FootfallAggregator.FootfallAggregator.SamplePaths` | src/sentry_backend/services/footfall_aggregator.py:683-707 | walked paths after the samples that move enough, on the canvas, not behind a wall, below the cap |
| `FootfallAggregator.FootfallAggregator.CountMovement` | src/sentry_backend/services/footfall_aggregator.py:708-717 | the flow buffer and each track's last cell; over runs, `FootfallResults.FlowExactly` says what the buffer holds |
| `FootfallAggregator.FootfallAggregator.PruneGateSeen` | src/sentry_backend/services/footfall_aggregator.py:773-786 | forgets exactly the keys 45 s old, with their credits, at most once per 45 s |
| `FootfallAggregator.FootfallAggregator.PruneTracks` | src/sentry_backend/services/footfall_aggregator.py:730-760 | closes exactly the presences 45 s old, with their rows and dwell, in the order the dictionary yields them |
| `FootfallAggregator.FootfallAggregator.PathRows` | src/sentry_backend/services/footfall_aggregator.py:735-750 | a closed path is cut at walls, each stretch simplified, and stretches below three points dropped |
| `FootfallAggregator.FootfallAggregator.PruneSpans` | src/sentry_backend/services/footfall_aggregator.py:761-771 | closes exactly the spans 120 s old |
| `FootfallAggregator.FootfallAggregator.ApplyBatch` | src/sentry_backend/services/footfall_aggregator.py:616-717 | the locked section before the prunes, as a whole |
| `FootfallAggregator.FootfallAggregator.PruneAll` | src/sentry_backend/services/footfall_aggregator.py:718-719 | both prunes |
| `FootfallAggregator.FootfallAggregator.TakeSnapshot` | src/sentry_backend/services/footfall_aggregator.py:827-842 | all buffers and the credits leave the object |
| `FootfallAggregator.FootfallAggregator.PutBack` | src/sentry_backend/services/footfall_aggregator.py:892-907 | the loops that add a snapshot back restore every count |
| `FootfallAggregator.FootfallAggregator.FlushLocked` | src/sentry_backend/services/footfall_aggregator.py:793-907 | a flush empties the buffers into the tables, or on failure changes no table and restores all but the credits; with nothing buffered it only notes the time |
| `FootfallAggregator.FootfallAggregator.OnFrame` | src/sentry_backend/services/footfall_aggregator.py:520-725 | the whole frame: gather, apply, prune, flush when due |
| `Breach.ThresholdHandler.ReadTrack` | src/sentry_backend/services/threshold_handler.py:179-302 | one reading: state created or updated, then node-push, cooldown, threshold, sustain and in-flight decide whether it fires; over runs, `BreachFires.FiresExactly` |
| `Breach.ThresholdHandler.MaybeCleanup` | src/sentry_backend/services/threshold_handler.py:309-343 | at most every 60 s drops exactly the persons unseen for over 300 s with their marks, and summarizes those above 10 once each; over runs, `BreachEpisodes.SummariesExactly` |
| `Breach.ThresholdHandler.OnFrame` | src/sentry_backend/services/threshold_handler.py:150-307 | a frame is a cleanup followed by its readings in order; fires and summaries are theirs |
| `Breach.ThresholdHandler.HandlerDone` | src/sentry_backend/services/threshold_handler.py:460-462 | a finished handler frees its key |
| `Breach.ThresholdHandler.MarkAlerted` | src/sentry_backend/services/threshold_handler.py:706-711 | an alert that was created is noted on the state, if it still exists |
| `BreachRuns.FrameRun` | src/sentry_backend/services/threshold_handler.py:177-302 | running a frame's events one by one is the method's effect |
| `BreachRuns.FireWasSustained` | src/sentry_backend/services/threshold_handler.py:244-255 | each fire has an earlier reading of its key at least the sustain time before, and every reading from there on met its frame's threshold |
| `BreachRuns.FireReportsPeak` | src/sentry_backend/services/threshold_handler.py:195-255 | the reported peak is the largest reading since the previous fire or the state's creation, and zero at least |
| `BreachRuns.PeakSinceIsPeak` | src/sentry_backend/services/threshold_handler.py:195 | the running peak is that maximum over any history |
| `BreachRuns.FireSpacing` | src/sentry_backend/services/threshold_handler.py:237-255 | two fires of one key are at least the cooldown apart, or further than 300 s plus the sustain time |
| `BreachRuns.CooldownExact` | src/sentry_backend/services/threshold_handler.py:237-340 | for every run the cooldown separates fires if and only if alerts come by node push or cooldown <= 300 + max(0, sustain) |
| `BreachRuns.ShortSpacing` | src/sentry_backend/services/threshold_handler.py:321-340 | a longer cooldown is broken: a run in which pruning forgets it |
| `BreachRuns.OneHandler` | src/sentry_backend/services/threshold_handler.py:247-340 | at most one handler per key is at work, as long as none outlives the 300 s its key may stay unseen |
| `BreachRuns.PushNeverFires` | src/sentry_backend/services/threshold_handler.py:230-235 | with node push the backend never fires |
| `BreachEpisodes.EventsTold` | src/sentry_backend/services/threshold_handler.py:177-343 | over any run the persons kept, and their first and last times, peaks and alert marks, are what the events since each was last dropped say |
| `BreachEpisodes.EpisodeTells` | src/sentry_backend/services/threshold_handler.py:195-210 | an episode runs from the first reading since its person was last dropped to the latest, its peak is the largest of all of them (fires do not reset it; zero at least), and it is marked if and only if an alert came in it |
| `BreachEpisodes.SummariesExactly` | src/sentry_backend/services/threshold_handler.py:309-343 | over any run, a cleanup reports exactly one summary for each person it drops whose largest reading exceeds 10, with that peak, the mark and the time from first reading to last, and none for anyone else |
| `BreachFires.FiresExactly` | src/sentry_backend/services/threshold_handler.py:230-302 | over any run, a reading fires if and only if alerts do not come by node push, no handler of the person is at work, the last fire of its state (or time zero) is a cooldown back, and it and all readings since one a sustain time back, itself past the cooldown, meet their thresholds |
| `BreachFires.WaitingTells` | src/sentry_backend/services/threshold_handler.py:244-255 | the sustain timer runs from the first reading of the latest such stretch |
| `BreachFires.BusyExactly` | src/sentry_backend/services/threshold_handler.py:247-340 | a person's handler is at work if and only if its last fire started one that has neither finished nor been dropped |
| `BreachFires.FrameFires` | src/sentry_backend/services/threshold_handler.py:177-302 | the fires of a frame are those of its readings, in order |
| `ClipWindow.WindowCoversEpisode` | src/sentry_backend/services/threshold_handler.py:738-771 | uncapped, a cut 0 to 2 s after the post-roll covers the episode start minus the pad up to breach plus post-roll |
| `ClipWindow.WindowCoversBreach` | src/sentry_backend/services/threshold_handler.py:764-771 | with a time missing or an episode start after the breach, an uncapped cut 0 to 2 s after the post-roll covers five seconds before the breach up to breach plus post-roll |
| `ClipWindow.WindowExactly` | src/sentry_backend/services/threshold_handler.py:763-771 | in numbers: the window ends at the cut and lasts the whole seconds that hold reach, post-roll and two seconds, capped at max_sec, and five at least |
| `ClipWindow.WindowIsTight` | src/sentry_backend/services/threshold_handler.py:763-771 | it reaches back less than three seconds further than the pad before the episode start, or than 5 s when that is unknown or after the breach, or is the five-second minimum |
| `ClipWindow.BreachSurvivesExactly` | src/sentry_backend/services/threshold_handler.py:755-771 | the docstring says breach and post-roll always survive the cap; they do for all cuts 0 to 2 s late if and only if max(5, max_sec) >= post-roll + 2 |
| `ClipWindow.CapLosesBreach` | src/sentry_backend/services/threshold_handler.py:755-771 | one such loss: ten seconds of post-roll under a cap of eight |
| `ClipWindow.FindSegmentsInWindow` | src/sentry_backend/services/clip_cutter.py:81-114 | the sorted, filtered listing: exactly the segments overlapping the window, in time order, none for a missing directory |
| `ClipWindow.OverlapsExactly` | src/sentry_backend/services/clip_cutter.py:102-111 | a segment counts as overlapping if and only if it shares a stretch of time with the window, running up to the next segment, the newest for 120 s |
| `ClipWindow.SegmentsExactly` | src/sentry_backend/services/clip_cutter.py:81-100 | the library is the .mp4 files whose names parse as times and do not begin with live_, one segment each, in listing order |
| `ClipWindow.PickedIsRange` | src/sentry_backend/services/clip_cutter.py:106-114 | the chosen segments are one contiguous stretch |
| `ClipWindow.LengthsTelescope` | src/sentry_backend/services/clip_cutter.py:105-111 | the footage of the chosen segments adds up to at most the span from the first start to the last end, and to all of it if and only if there is no recording gap |
| `ClipWindow.ConcatenationKeepsTime` | src/sentry_backend/services/clip_cutter.py:173-187 | every offset of the concatenation shows the wall time first start plus offset if and only if there is no gap among the segments |
| `ClipWindow.SeekInFirst` | src/sentry_backend/services/clip_cutter.py:173-178 | the seek falls inside the span taken for the first chosen segment, and inside its footage if and only if the window does not begin in a gap after it |
| `ClipWindow.ClipShowsWindow` | src/sentry_backend/services/clip_cutter.py:152-178 | every second of the asked window is in the clip at its own time if and only if recording had begun by its start, did not pause and lasted to its end |
| `ClipWindow.ClipShowsMoment` | src/sentry_backend/services/clip_cutter.py:152-178 | a moment of the window is in the clip if and only if a chosen segment filmed it and the seek does not skip it |
| `ClipWindow.FilmedIsReached` | src/sentry_backend/services/clip_cutter.py:152-178 | unless the window begins in a gap, that is every filmed moment |
| `ClipWindow.GapLosesFootage` | src/sentry_backend/services/clip_cutter.py:102-178 | a window that begins in a gap: footage filmed in it is not in the clip |
| `ClipWindow.ClipShowsEpisode` | src/sentry_backend/services/threshold_handler.py:490-505 | end to end: every moment of the padded episode up to the post-roll is in the cut clip if and only if all of it was filmed and the seek does not skip its beginning |
| `Sorting.SortSorts` | src/sentry_backend/services/clip_cutter.py:100 | the stable sort yields a sorted permutation |
| `Sorting.SortIsStable` | src/sentry_backend/services/clip_cutter.py:100 | elements with equal keys keep their order |
| `Watchdog.NodeWatchdog.DetectTransitions` | src/sentry_backend/services/node_watchdog.py:59-90 | the loop leaves the set and the two lists of its per-node rule, vanished ids dropped; `Watchdog.NodesReported` says who is on them |
| `Watchdog.NodesReported` | src/sentry_backend/services/node_watchdog.py:59-90 | with ids of their own, newly offline are exactly the listed nodes unseen (since last heard, or created) for the threshold or longer whose id was not notified, recovered exactly those seen since whose id was; each once, in listing order |
| `Watchdog.NoticesExactly` | src/sentry_backend/services/node_watchdog.py:59-90 | over any run, a node is reported offline (recovered) in a tick if and only if it is listed and silent (heard from) there and its id was not (was) listed and silent the tick before |
| `Watchdog.NoticesAlternate` | src/sentry_backend/services/node_watchdog.py:59-90 | over any run, notices of an id that stays listed alternate, beginning with offline |
| `Watchdog.NotifiedIsOffline` | src/sentry_backend/services/node_watchdog.py:59-90 | afterwards exactly the offline ids are notified, whatever was before (of repeated ids the last decides) |
| `Watchdog.AskingAgainIsQuiet` | src/sentry_backend/services/node_watchdog.py:59-90 | a second pass over the same nodes reports nothing if and only if nodes sharing an id agree |
| `Watchdog.NodeWatchdog.DetectCameraTransitions` | src/sentry_backend/services/node_watchdog.py:104-153 | both sets and both lists after the loop over nodes and cameras |
| `Watchdog.ObservedIs` | src/sentry_backend/services/node_watchdog.py:93-121 | what a tick shows of a camera: frozen while its node is silent, else okay or down by what the node tells of it, and absent when no node lists it |
| `Watchdog.TickFollows` | src/sentry_backend/services/node_watchdog.py:104-153 | for any telemetry, a tick moves each camera along its own automaton, once per time it is listed |
| `Watchdog.TickIsAutomaton` | src/sentry_backend/services/node_watchdog.py:104-153 | with distinct ids: exactly one automaton step per camera, announcements and recoveries included; frozen while the node is offline, reset when it vanishes |
| `Watchdog.RunIsAutomaton` | src/sentry_backend/services/node_watchdog.py:104-153 | over any run of ticks the sets are the automaton phases, and candidate and notified stay disjoint |
| `Watchdog.AnnounceNeedsTwo` | src/sentry_backend/services/node_watchdog.py:123-146 | an announcement follows two down checks with only frozen checks between |
| `Watchdog.Alternation` | src/sentry_backend/services/node_watchdog.py:123-153 | between two announcements the camera recovered with a notice or vanished |
| `Watchdog.OneOutageAtATime` | src/sentry_backend/services/node_watchdog.py:123-153 | while a camera does not vanish, announcements minus recoveries is one if it is out and zero if not |
| `Watchdog.PassSends` | src/sentry_backend/services/node_watchdog.py:104-153 | over any run of ticks, a pass sends a camera's outage (recovery) exactly when its automaton announces (recovers), and once |
| `Watchdog.SentNeedsTwo` | src/sentry_backend/services/node_watchdog.py:123-146 | over any run, an outage sent follows two down ticks with only frozen ticks between |
| `Watchdog.SentAlternates` | src/sentry_backend/services/node_watchdog.py:123-153 | over any run, between two outages sent for a camera its recovery was sent or it vanished |
| `Watchdog.SentBalance` | src/sentry_backend/services/node_watchdog.py:123-153 | over any run in which the camera never vanishes, outages sent minus recoveries sent is one if it is notified and zero if not |
| `ZoneFlow.ZoneOf` | src/sentry_backend/api/v1/stores.py:423-432 | the first zone containing the point, else the first at the smallest centroid distance |
| `ZoneFlow.ZoneUnique` | src/sentry_backend/api/v1/stores.py:423-432 | that rule names one zone |
| `ZoneFlow.CellZones` | src/sentry_backend/api/v1/stores.py:434-437 | every coarse cell has the zone of its centre |
| `ZoneFlow.CentreIsMidway` | src/sentry_backend/api/v1/stores.py:434-437 | the centre of the cell in column x of row y lies midway between the edges of both |
| `ZoneFlow.ReadZones` | src/sentry_backend/api/v1/stores.py:405-419 | every fixture that is not furniture and has at least three points is a zone, in order, centred at the mean of its vertices |
| `ZoneFlow.FlowEdges` | src/sentry_backend/repository/analytics_repo.py:309-333 | the query: stored rows summed per cell pair, ranked busiest first, and cut after 200 |
| `ZoneFlow.GrossFlow` | src/sentry_backend/api/v1/stores.py:439-445 | gross holds, per ordered pair of different zones, everything the queried rows moved between them |
| `ZoneFlow.NetFlow` | src/sentry_backend/api/v1/stores.py:447-455 | whatever order the dictionary yields, net holds exactly the positive differences |
| `ZoneFlow.NetEdges` | src/sentry_backend/api/v1/stores.py:447-478 | never both directions; count plus back count is the winner's gross |
| `ZoneFlow.TopIsBusiest` | src/sentry_backend/api/v1/stores.py:457 | the shown edges are net edges, busiest first, ten or all of them, and no hidden edge is busier than a shown one |
| `ZoneFlow.Totals` | src/sentry_backend/api/v1/stores.py:459-463 | each zone's totals are its row and column sums over all gross edges |
| `ZoneFlow.NettingConserves` | src/sentry_backend/api/v1/stores.py:447-463 | a zone's out minus in is the same over gross and over net |
| `ZoneFlow.TotalsAddUp` | src/sentry_backend/api/v1/stores.py:459-463 | for any gross map holding what moved and any totals that are its row and column sums, each zone's totals are what left and what entered it in the rows, and over all zones both add up to everything that changed zone |
| `ZoneFlow.WholeWindowExactly` | src/sentry_backend/api/v1/stores.py:439-463 | the comment says the totals reflect all edges of the whole window; they do if and only if no edge the query cut changes zone, as with at most 200 stored edges |
| `ZoneFlow.ZoneWindowExactly` | src/sentry_backend/api/v1/stores.py:459-463 | zone by zone, the departures (arrivals) are those of the whole window if and only if no cut edge leaves (enters) the zone |
| `ZoneFlowCase.CutWindowMissesFlow` | src/sentry_backend/api/v1/stores.py:459-463 | a plan with a shelf along each side wall and 201 stored steps over the middle: whatever the endpoint answers, its totals miss flow |
| `ZoneFlow.Summarize` | src/sentry_backend/api/v1/stores.py:439-478 | from the queried rows to the answer: the arrows are the busiest of the net flow, each with what moved back along it, and each zone's totals are what left and what entered it |
| `ZoneFlow.StoreZoneFlow` | src/sentry_backend/api/v1/stores.py:376-478 | the endpoint: fewer than two zones give nothing; otherwise that answer over the query's rows, with every cell in the zone of its centre |
| `VisitorIds.AssignNumbers` | src/sentry_backend/repository/analytics_repo.py:353-376 | the loop with its per-day dictionary gives each walk the number after the stored ones and the batch's earlier ones of its day |
| `VisitorIds.PathTable.InsertPaths` | src/sentry_backend/repository/analytics_repo.py:337-377 | the table gains the batch, sorted by start and numbered; an empty batch adds nothing |
| `VisitorIds.NextAfter` | src/sentry_backend/repository/analytics_repo.py:396-411 | with exactly 1..m stored, text order picks m, or, where that differs, the longest run of nines below m |
| `VisitorIds.NextReads` | src/sentry_backend/repository/analytics_repo.py:402-411 | only what follows the last dash of the text-largest id is read; unless it is a number, numbering restarts at 1 |
| `VisitorIds.NextExact` | src/sentry_backend/repository/analytics_repo.py:396-411 | the next number is m + 1 if and only if m <= 999 or m is nines up to its last digit; otherwise a stored id is issued again |
| `VisitorIds.ThousandRepeats` | src/sentry_backend/repository/analytics_repo.py:396-411 | the first failure: with 1000 stored, number 1000 is issued twice |
| `VisitorIds.BatchAdds` | src/sentry_backend/repository/analytics_repo.py:353-377 | a batch adds to a day exactly the numbers from the next one on, as many as it has walks of that day |
| `VisitorIds.OtherStoreUntouched` | src/sentry_backend/repository/analytics_repo.py:401 | other stores keep their ids |
| `VisitorIds.BatchKeepsNumbering` | src/sentry_backend/repository/analytics_repo.py:337-377 | a batch keeps a day numbered 1..m if and only if it adds nothing to the day or the stored count is safe |
| `VisitorIds.NumbersFollowTime` | src/sentry_backend/repository/analytics_repo.py:354-359 | of two walks of one day in a batch the later has the larger number |
| `VisitorIds.NumberedIsDistinct` | src/sentry_backend/repository/analytics_repo.py:374 | a numbered day has no id twice |
| `VisitorIds.RunStaysNumbered` | src/sentry_backend/repository/analytics_repo.py:337-411 | over any series of batches that start safe, every store and day stays numbered 1..m in insertion order |
| `Decimal.PadSpells` | src/sentry_backend/repository/analytics_repo.py:374 | what :03d prints reads back as the same number |
| `Decimal.SameWidthOrder` | src/sentry_backend/repository/analytics_repo.py:402 | printed numbers of one width stand in numeric order as text |
| `Retention.HandleClip` | src/sentry_backend/services/retention.py:155-169 | one clip: file first, then the row as planned; the counters move with it |
| `Retention.HandleClips` | src/sentry_backend/services/retention.py:155-169 | the loop clears exactly the files that unlink, and deletes or stamps exactly their rows; deleted + kept + retried is what was handled |
| `Retention.RetentionSweeper.SweepOnce` | src/sentry_backend/services/retention.py:129-169 | a sweep as a whole: row changes take effect only on commit, unlinks always; a day count of zero or less does nothing |
| `Retention.CutoffExactly` | src/sentry_backend/services/retention.py:56-60 | none for zero days or fewer, else that many days before now |
| `Retention.RunKeepsInv` | src/sentry_backend/services/retention.py:129-169 | over any run of sweeps, files written, rows stored and alerts raised, with failing unlinks and rollbacks: paths stay unique, every alert keeps its clip, and no row marked deleted has a file |
| `Retention.MarkedHasNoFile` | src/sentry_backend/services/retention.py:156-167 | in any reachable state a row marked deleted has no file |
| `Retention.SweepKeepsOrphans` | src/sentry_backend/services/retention.py:75-88 | no sweep orphans a file or removes an orphan: a file still there after a sweep keeps the row it had |
| `Retention.RunOrphans` | src/sentry_backend/services/threshold_handler.py:862-877 | over any run, the files no row expects are exactly those without one at the start or written since, less those given a row; no sweep clears them |
| `Retention.RowGoesExactly` | src/sentry_backend/services/retention.py:155-169 | a row goes exactly when its sweep commits, it is in the batch, its unlink does not fail and no alert refers to it |
| `Retention.SweepDrains` | src/sentry_backend/services/retention.py:133-169 | with f stuck clips as old as a given moment, a committed sweep past it leaves none of the n others that old, or takes 200 - f of them |
| `Retention.RunDrains` | src/sentry_backend/services/retention.py:42-46 | so they are down to max(0, n - (200 - f) k) after k such sweeps, whatever else is stored meanwhile: none is left after ceil(n / (200 - f)) |
| `Retention.StuckExactly` | src/sentry_backend/services/retention.py:75-101 | a committed sweep changes no row if and only if every unlink of its batch fails |
| `Retention.RunStarves` | src/sentry_backend/services/retention.py:42-46 | the comment says a backlog simply drains; 200 clips that never unlink keep the row and file of every newer clip over any run |
| `Retention.TakenExactly` | src/sentry_backend/services/retention.py:42-46 | with a fixed set of clips failing to unlink, another live clip is taken within some number of sweeps if and only if fewer than 200 of that set are as old as it |
| `Retention.OneStuckTooMany` | src/sentry_backend/services/retention.py:42-46 | 201 clips: the newest is taken in the end when 199 older ones are stuck, and need not be when 200 are |
| `Retention.StarvingRun` | src/sentry_backend/services/retention.py:42-46 | a run of any number of sweeps that fails on those 200 and leaves the newest its row and its file |
| `CameraPaths.AllocateMediamtxPath` | src/sentry_backend/repository/camera_repo.py:115-128 | terminates, and returns the preferred name or its smallest free suffix, which never exceeds the number of taken names plus one |
| `CameraPaths.CandidatesDiffer` | src/sentry_backend/repository/camera_repo.py:125 | suffixed names are pairwise distinct and none is the preferred name |
| `CameraPaths.TriedCount` | src/sentry_backend/repository/camera_repo.py:123-128 | i - 1 names have been tried before candidate i |
| `CameraPaths.AllocationUnique` | src/sentry_backend/repository/camera_repo.py:115-128 | the taken names determine the result |
| `CameraPaths.CameraRepo.CreateCamera` | src/sentry_backend/repository/camera_repo.py:67-106 | nothing for a foreign store; else a new camera whose path is allocated from the given path or the slug |
| `CameraPaths.CameraRepo.UpdateCamera` | src/sentry_backend/repository/camera_repo.py:155-157 | the path changes only when one is given that differs, and then to an allocated one; other cameras stay |
| `CameraPaths.CameraRepo.DeleteCamera` | src/sentry_backend/repository/camera_repo.py:180-181 | one camera goes, the others stay in order |
| `CameraPaths.StepKeepsDistinct` | src/sentry_backend/repository/camera_repo.py:115-157 | creating, updating or deleting keeps non-null paths pairwise distinct |
| `CameraPaths.RunKeepsDistinct` | src/sentry_backend/repository/camera_repo.py:115-157 | so does any serial run |
| `CameraPaths.UpdateMovesExactly` | src/sentry_backend/repository/camera_repo.py:155-157 | an update leaves the path alone if and only if none is given or it is the current one, since the camera's own name counts as taken |
| `CameraPaths.AskingAgainMoves` | src/sentry_backend/repository/camera_repo.py:155-157 | a camera at a_2 that asks for the taken a moves to a_3 |
| `AlertDebounce.LevelsFollowConfidence` | src/sentry_backend/services/alert_service.py:6-25 | a level other than ignore exactly for concealment with confidence of at least 0.50, and more confidence never lowers it |
| `AlertDebounce.ConcealmentBands` | src/sentry_backend/services/alert_service.py:6-25 | a concealment is logged from 0.50, notified from 0.70 and reviewed from 0.85 |
| `AlertDebounce.WantedLevels` | src/sentry_backend/repository/alert_repo.py:36 | the slice of the level list is the levels of at least that rank |
| `AlertDebounce.AlertTable.CreateLiveAlert` | src/sentry_backend/services/threshold_handler.py:821-910 | an alert is stored unless the camera is unknown, the level is ignore, an equal or higher recent one of this person exists, or it cannot be saved |
| `AlertDebounce.StoredExactly` | src/sentry_backend/services/threshold_handler.py:821-910 | after any run, a push is stored if and only if it is a concealment of 0.50 or more on a known camera, can be saved, and no live alert of its camera and person from within the cooldown already says as much; and with which level |
| `AlertDebounce.SeverityClimbs` | src/sentry_backend/services/threshold_handler.py:832-851 | of two pushed alerts of one person within the cooldown the later is strictly more severe |
| `AlertDebounce.AtMostThree` | src/sentry_backend/services/threshold_handler.py:836-851 | no four fall within one cooldown |
| `AlertDebounce.ThreeFit` | src/sentry_backend/services/threshold_handler.py:836-851 | three can |
| `Catalog.AppendMissing` | src/sentry_backend/api/v1/behaviors.py:432-435 | the append loop adds a seed per built-in the row lacks |
| `Catalog.NothingToAppend` | src/sentry_backend/api/v1/behaviors.py:417-435 | which is none: a row lacking a built-in is never on that path |
| `Catalog.BackfillParams` | src/sentry_backend/api/v1/behaviors.py:437-440 | built-ins without parameters gain the defaults, and the flag says whether any did |
| `Catalog.FillEngine` | src/sentry_backend/api/v1/behaviors.py:442-445 | missing engine knobs gain the defaults, stored values stay, and the flag says whether any were missing |
| `Catalog.RestoreToggles` | src/sentry_backend/api/v1/behaviors.py:450-454 | re-seeded built-ins keep their stored switch |
| `Catalog.UpgradeV2` | src/sentry_backend/api/v1/behaviors.py:423-446 | the v2 path as a whole, with an exact changed flag |
| `Catalog.BehaviorConfig.ReconcileV2` | src/sentry_backend/api/v1/behaviors.py:397-455 | the stored row after the upgrade, and changed if and only if it differs |
| `Catalog.SettledExactly` | src/sentry_backend/api/v1/behaviors.py:397-455 | the upgrade leaves a row alone if and only if it is v2, has no retired built-in, no built-in without parameters and no missing knob |
| `Catalog.ResultSettled` | src/sentry_backend/api/v1/behaviors.py:397-455 | every result is such a row |
| `Catalog.Idempotent` | src/sentry_backend/api/v1/behaviors.py:404 | upgrading twice is upgrading once |
| `Catalog.CustomSurvives` | src/sentry_backend/api/v1/behaviors.py:428-455 | operator-added criteria survive on both paths, unchanged and in order |
| `Catalog.EditsSurvive` | src/sentry_backend/api/v1/behaviors.py:423-446 | on the v2 path every other entry survives, at most gaining parameters it lacked |
| `Catalog.TogglesSurvive` | src/sentry_backend/api/v1/behaviors.py:415-454 | on both paths a built-in's switch is the stored one, the last entry of its key deciding |
| `Catalog.AdditiveExactly` | src/sentry_backend/api/v1/behaviors.py:411-421 | documented as additive for v2 rows, the upgrade keeps edited thresholds if and only if no built-in is missing |
| `Catalog.NewBuiltinLosesEdits` | src/sentry_backend/api/v1/behaviors.py:411-455 | a row of the first thirteen shipped built-ins with an edited threshold and weight loses both when the fourteenth arrives |
| `Catalog.MissingBuiltinResetsWeights` | src/sentry_backend/api/v1/behaviors.py:448-455 | with one missing, every stored built-in's weight is reset |
| `Catalog.ShippedIsSound` | src/sentry_backend/api/v1/behaviors.py:51-183 | the shipped built-ins have distinct keys and the default thresholds the v2 cut |
| `Catalog.SeedsHold` | src/sentry_backend/api/v1/behaviors.py:376-395 | a seed holds what the release says of its criterion: texts, weight, category, level, on if and only if it has a detector, and its tuning defaults, if any |
| `Catalog.SeededIsSettled` | src/sentry_backend/api/v1/behaviors.py:393-394 | a freshly seeded row has nothing to upgrade |

## Left out

- Floating point: reals throughout, so rounding, NaN, infinities and overflow are not modelled.
- Integer widths: counters are unbounded; the database's 32-bit columns are not modelled.
- Parsing of frames: JSON types, missing fields and lists of the wrong shape reach the model as options and `BadBox`.
- Hour buckets: a frame arrives with its hour, already cut from its timestamp.
- Parsing of floor plans: fixtures, walls and camera positions arrive extracted; the fallback for cameras without a homography follows the code.
- The 120 s cache of camera lookups: a lookup is a step that may come at any time, except inside a flush: there the program's awaits let one change a store's organization between two tables, while the model reads it once.
- One clock reading per frame: the second reading at the flush check and the one inside the flush are the frame's own.
- Task cancellation during a flush, which bypasses the restore.
- Simplified paths may cross walls: splitting comes first, and nothing is claimed about walls after `Rdp`.
- Dwell pairs: the two-element lists are held as two counters with the same keys.
- Presences and person states: the objects inside the dictionaries are held as values in maps, so aliasing of them is not modelled.
- FootfallAggregator.FootfallAggregator.FlushLocked: finished paths are appended as rows; their numbering by day is modelled apart, in `VisitorIds`.
- Breach context: sequences, behaviors, scores, offsets and the foot point carried with a breach are not modelled, nor the message for an unconfigured node.
- Breach.ThresholdHandler.MarkAlerted: the work of the handler between the fire and the stored alert (cut, verification, storage) is not modelled.
- ClipWindow.ClipShowsWindow: segments do not overlap and the newest holds at most the 120 s the cutter assumes; ffmpeg's own seek precision and the file-name parser are not modelled.
- ZoneFlow.StoreZoneFlow: ids, labels and the dropping of zones without a shown arrow from the answer are not modelled, and the plan arrives in normalized units (`Polygon.UnitInvariant`).
- VisitorIds.NextExact: text order is code-point order, and the tail of an id counts as a number only if it is all digits; other database collations and the looser forms Python's int() accepts are not modelled.
- Time zones: the local day of a walk is an arbitrary function from its start to a text of eight characters.
- VisitorIds.PathTable.InsertPaths: the one-decimal rounding of durations is not modelled.
- Retention: telemetry and pairing-code cleanup are plain bounded deletes; clips deleted by users and alerts raised during a sweep are not modelled, and paths are taken as distinct, as their random names make them.
- CameraPaths.CameraRepo.CreateCamera: slug generation and the 64-character column limit are not modelled; concurrent writers are left to the unique constraint.
- AlertDebounce: clip storage, notification and events after the alert are not modelled.
- Catalog.ShippedIsSound: display texts of the built-ins are a parameter.
- HTTP routes, authentication, Telegram and e-mail, media servers, streaming, billing, pub/sub, and the SQL of the reporting queries.
