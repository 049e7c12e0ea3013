# meat_deli core, modelled in Dafny

This project models the bookkeeping core of the meat_deli in-store video
analytics appliance. Cameras feed detectors. Trackers turn per-frame
detections into persistent identities. Completed visits are counted, and
each hour's statistics go through a storage updater that saves complete
hour buckets and uploads them in batches. The model covers these parts:

- `UtilsMain` (`utils_main.dfy`): `iou`, `any_overlap`, `distance`, label-map validation, the label-map to category conversion, the category index, `random_id` and the resize plan of `resize_max_size`.
- `PairSort` (`pair_sort.dfy`): Python's `sorted` on `(distance, row, column)` tuples, as both trackers use it. It is specified as the unique ascending permutation.
- `Tracker3` (`tracker3.dfy`): `box_dis` and `SimpleTracker`, the greedy box tracker of the face pipeline. `update` is a method on a class, proved against a frame-level specification function, with a tracker invariant it preserves. A pair's score is its `box_dis` as an order key, or none when the pair's mean size is zero. `overlap_list` is built from the table of scores of every detection against every track.
- `StorageUpdate` (`storage_update.dfy`): `StorageUpdater`, a class whose `data_save` and `data_send` maps are merged into, flushed and put back, and whose upload builds one request per complete bucket.
- `MainPipeline` (`main_pipeline.dfy`): the `FaceProcess.run` loop. It covers the size filter, the age and gender tally, the hand-off of sampled profiles, the `tracking_list` bookkeeping and the hourly record.
- `HumanPipeline` (`human_process.dfy`): the `HeatMap` counters and `HumanProcess.run`'s hourly heatmap rollover.
- `DayTotals` (`day_totals.dfy`): the totals, maxima, averages and per-hour slots that `load_day_data` folds from a day's rows.
- `WaitTime` (`wait_time.dfy`): `WaitTimeEstimator`, a class tracking time spent in the payment area.
- `Tracker2` (`tracker2.dfy`): the re-identification tracker's bookkeeping. This covers the frame buffer, `gallery_info`, `_index_to_id`, `match_id`, the match/spawn/expiry loops of `update_detection_result`, `avg_alive_time` and `alive_ids`.
- `HumanDetection` (`human_detection.dfy`): the post-processing loop of the person detector (score cut-off, class filter, overlap suppression).
- `Wrappers` (`wrappers.dfy`): `Option`.

Loops of the source are methods with loop invariants. Each is proved equal
to a specification function. Lemmas then state what the source promises
about that function: a one-to-one and maximal matching, a count taken
exactly once, buckets neither lost nor duplicated, and so on. Objects whose
fields the source updates (`SimpleTracker`, `StorageUpdater`, `HeatMap`,
`WaitTimeEstimator`, the re-identification `Tracker`) are classes. Each
of them has a `Valid` invariant that its methods keep. The heatmap's numpy
array is a class too (`HeatArray`, one cell updated in place), so that a
second name bound to it sees its changes.

Clocks, random draws, neural-network outputs and configuration values are
parameters:

- the current time is `now`, or the time stamp the frame buffer holds;
- `random.sample` and `random.randint` are `sample` and `pick`;
- `re_ranking`'s distance matrix is `distmat`, and `get_features`'s output is `feats`;
- `MIN_FACE_SIZE`, `MAX_DISTANCE`, `MIN_LIVE_TIME` and `SEND_DATA_INTERVAL` are fields or parameters.

Python's exceptions are explicit outcomes: `DivisionByZero`, `IndexError`, `TypeError`, `KeyError` and `UnboundLocalError`. Where the operands are numpy scalars, a division by zero does not raise: it gives inf or nan, and a comparison with nan is false. This holds for the face tracker's boxes (`recs.astype('int')`, main.py:746-750) and for the person detector's boxes (human_detection.py:104-107). The model follows that behaviour there.

## Model

| member | source | states |
|---|---|---|
| `UtilsMain.Iou` | utils_main.py:15-25 | disjoint boxes have IoU 0; otherwise the IoU times the union area is the intersection area; it raises (None) exactly when the boxes touch and the union area is zero |
| `UtilsMain.IouSymmetric` | utils_main.py:15-25 | `iou(a, b) == iou(b, a)` for all boxes, including the raising case |
| `UtilsMain.IouBounds` | utils_main.py:15-25 | for well-formed boxes, not both empty, the IoU is defined and lies in [0, 1] |
| `UtilsMain.AnyOverlapIff` | utils_main.py:28-33 | when every IoU is defined, `any_overlap` is true exactly when some listed box has IoU strictly above the threshold |
| `UtilsMain.AnyOverlapWitness` | utils_main.py:28-33 | false means every listed IoU is defined and at most the threshold; true means one defined IoU is above it; an exception means some IoU divides by zero |
| `UtilsMain.ZeroUnionIsZeroOverZero` | utils_main.py:15-25 | a zero union only occurs with a zero intersection, so on numpy scalars the IoU is 0 / 0, nan, and never an infinity |
| `UtilsMain.AnyOverlapNumpyIff` | utils_main.py:28-33 | on numpy scalars `any_overlap` is true exactly when some listed box has a defined IoU strictly above the threshold; a nan IoU is no overlap and the scan goes on |
| `UtilsMain.AnyOverlapNumpyAgrees` | utils_main.py:28-33 | wherever `any_overlap` on plain numbers answers without raising, the numpy answer is the same |
| `UtilsMain.SquaredDistanceSymmetric` | utils_main.py:159-161 | the (squared) distance between two points does not depend on their order |
| `UtilsMain.ItemError` | utils_main.py:36-42 | an item is refused for a negative id, or for id 0 when neither its name nor its display name is `background`, and for nothing else |
| `UtilsMain.ValidateLabelMap` | utils_main.py:36-42 | no error exactly when every item is acceptable; otherwise the error is that of the first offending item |
| `UtilsMain.ConvertLabelMapToCategories` | utils_main.py:57-82 | without a label map, `max_num_classes` categories `category_1`, `category_2`, … with ids 1, 2, …; with one, the categories of its items in range, first occurrence of each id only |
| `UtilsMain.CategoriesInRange` | utils_main.py:68-72 | every category id lies in `1..max_num_classes` |
| `UtilsMain.CategoriesDistinct` | utils_main.py:77-79 | no category id occurs twice |
| `UtilsMain.CategoriesComplete` | utils_main.py:68-79 | every in-range id of the label map has a category |
| `UtilsMain.CategoriesFirstWins` | utils_main.py:73-79 | each category carries the id and the (display) name of the first label item with that id |
| `UtilsMain.CreateCategoryIndex` | utils_main.py:85-89 | the index has exactly the category ids as keys, and each maps to the last category with that id |
| `UtilsMain.RandomId` | utils_main.py:92-93 | the id is five decimal digits, the k-th being the k-th draw |
| `UtilsMain.PlanResize` | utils_main.py:119-131 | the image is kept exactly when it already fits; otherwise it is resized by width when the width ratio is the smaller, else by height, to the clamped maximum; a zero side raises |
| `UtilsMain.ResizedFits` | utils_main.py:107-131 | for a non-empty image and non-negative maxima nothing raises and the new size fits within the maxima |
| `PairSort.BelowTotal` | tracker_3.py:47 | Python's order on `(score, row, col)` tuples is a strict total order |
| `PairSort.Sort` | tracker_2.py:181 | `sorted` returns the tuples in ascending tuple order, as a permutation of its input |
| `PairSort.SortedUnique` | tracker_3.py:47 | two sorted permutations of the same tuples are equal, so the sorted list is determined by its elements |
| `PairSort.SortedDistinctIncreasing` | tracker_3.py:47 | in a sorted list without repeats, earlier tuples are strictly below later ones |
| `Tracker3.DisKeyOfBoxDis` | tracker_3.py:10-19 | the model's distance key is the signed square of `box_dis`, the centre distance divided by the mean box size |
| `Tracker3.SignedSquareMonotone` | tracker_3.py:45-47 | the signed square preserves and reflects `<` and `==`, so comparing keys is comparing distances |
| `Tracker3.BoxDisSymmetric` | tracker_3.py:10-19 | `box_dis(a, b) == box_dis(b, a)`, and its divisor is zero on the same pairs |
| `Tracker3.BoxDisNonNegative` | tracker_3.py:10-19 | `box_dis` is non-negative when the mean size is positive |
| `Tracker3.CandidateTestMatchesBoxDis` | tracker_3.py:44-45 | the key test agrees with `box_dis < DIS_THRESHOLD`; a pair at exactly the threshold is no candidate |
| `Tracker3.CandidatesMembers` | tracker_3.py:41-46 | a tuple is in `overlap_list` exactly when it is a detection–track pair whose mean size is not zero and whose distance is strictly below the threshold; on the numpy rows main.py passes, a zero mean size gives inf or nan, which fails `dis < DIS_THRESHOLD` |
| `Tracker3.CandidatesTable` | tracker_3.py:41-46 | over any table of scores, the nested loop yields a tuple exactly when its row and column are in range, its score is present and strictly below the limit |
| `Tracker3.RowCandidatesMembers` | tracker_3.py:42-46 | the inner loop of one detection yields a tuple exactly when it names that detection and a track whose score is present and strictly below the limit |
| `Tracker3.CollectRow` | tracker_3.py:42-46 | the inner loop appends exactly that detection's candidate tuples, in track order, skipping every pair whose mean size is zero |
| `Tracker3.CollectCandidates` | tracker_3.py:41-46 | the nested loop yields exactly `overlap_list`, row after row in loop order |
| `Tracker3.GreedySound` | tracker_3.py:52-55 | every accepted pair comes from the list and has a live track |
| `Tracker3.GreedyOneToOne` | tracker_3.py:53 | no detection and no track is matched twice |
| `Tracker3.GreedyMaximal` | tracker_3.py:52-57 | every listed pair with a live track has its detection or its track matched |
| `Tracker3.GreedyNearestFirst` | tracker_3.py:47-57 | over the sorted list, a live pair left unmatched lost to a matched pair sharing one of its sides whose tuple is not above its own |
| `Tracker3.GreedyExample` | tracker_3.py:41-61 | detection 0 takes track 0 at 0.1; detection 1, at 0.15 from the same track, is left to spawn |
| `Tracker3.AcceptedSound` | tracker_3.py:41-57 | the accepted matching is one-to-one and each pair is a candidate whose track is live |
| `Tracker3.AcceptedMaximalNearestFirst` | tracker_3.py:41-57 | every live candidate has a matched side, and an unmatched one lost to a nearer-or-equal pair |
| `Tracker3.MatchedAt` | tracker_3.py:54-60 | the k-th matched track is the k-th accepted pair's track with the new box and `last_time = now` |
| `Tracker3.MatchIdsAt` | tracker_3.py:38-61 | after the greedy pass, a matched detection holds its track's id and the others `None` |
| `Tracker3.MatchGreedily` | tracker_3.py:49-61 | the greedy loop's `list_match`, `list_tracked_match`, matched tracks and `ret_ids` are those of the accepted pairs |
| `Tracker3.SpawnedFresh` | tracker_3.py:63-69 | the k-th spawned track has the k-th fresh id and was first and last seen now |
| `Tracker3.SpawnedSlot` | tracker_3.py:63-69 | each unmatched detection spawns the track at its own slot, carrying its box |
| `Tracker3.SpawnedBoxes` | tracker_3.py:63-68 | every spawned track carries the box of an unmatched detection |
| `Tracker3.AssignIdsAt` | tracker_3.py:63-69 | after spawning, an unmatched detection holds its new track's id and a matched one keeps its id |
| `Tracker3.SpawnTracks` | tracker_3.py:62-69 | the spawning loop appends one fresh track per unmatched detection, fills its `ret_ids` slot and advances the id counter by the number spawned |
| `Tracker3.KeptMembers` | tracker_3.py:71-76 | an unmatched old track is kept exactly when it is live |
| `Tracker3.KeptDistinct` | tracker_3.py:71-76 | keeping tracks does not duplicate ids |
| `Tracker3.CountedMembers` | tracker_3.py:72-80 | an id is counted exactly when its track is unmatched, expired and lived longer than `MIN_LIVE_TIME` |
| `Tracker3.CountedDistinct` | tracker_3.py:71-80 | `counted_ids` holds no id twice |
| `Tracker3.KeepOrRetire` | tracker_3.py:70-80 | the last loop appends the kept tracks in order and returns the counted ids |
| `Tracker3.AssembleDistinct` | tracker_3.py:52-82 | no id appears twice in the new track list, and all lie below the advanced counter |
| `Tracker3.AssembleIdsCoverBoxes` | tracker_3.py:38-84 | `update` returns one id per box, none `None`, each the id of a new-list track that carries that box and was seen now |
| `Tracker3.AssembleIdsDistinct` | tracker_3.py:61-69 | different boxes get different ids; matched boxes get old ids and unmatched ones fresh ids |
| `Tracker3.AssembleRefreshedOrSpawned` | tracker_3.py:54-69 | matched tracks keep id and first sighting and take the new box and time; every new id belongs to a track spawned now for an unmatched box |
| `Tracker3.AssembleUnmatchedTrack` | tracker_3.py:72-80 | an unmatched old track survives exactly when live and is counted exactly when expired and long-lived |
| `Tracker3.AssembleCountedDropped` | tracker_3.py:71-82 | counted ids are distinct and belong to dropped tracks, and a dropped id leaves the list |
| `Tracker3.AssembleItemsReported` | tracker_3.py:60-76 | every track in the new list is an old one or was reported for one of the frame's boxes |
| `Tracker3.StepIdsAccounted` | tracker_3.py:37-84 | one id per box, each of a live track; every live track is old or was just reported; every counted id was an old track that is now gone |
| `Tracker3.StepKeepsInvariant` | tracker_3.py:37-84 | one frame keeps live ids distinct and issued, never revives a dropped id, and adds exactly the frame's counted ids to `total_sequence` |
| `Tracker3.SimpleTracker.constructor` | tracker_3.py:23-26 | a new tracker has no tracks and a zero `total_sequence` |
| `Tracker3.SimpleTracker.AliveIds` | tracker_3.py:31-32 | the ids of the live tracks in order, pairwise distinct |
| `Tracker3.SimpleTracker.TotalSequenceCount` | tracker_3.py:34-35 | the number of visits reported so far |
| `Tracker3.SimpleTracker.Update` | tracker_3.py:37-84 | every frame, including one with a zero-size pair, makes the tracks, ids, counted ids and `total_sequence` those of one step, and the tracker's invariant holds again |
| `Tracker3.ExpiryExample` | tracker_3.py:72-80 | a track seen from 0 s to 5 s (max age 2 s, minimum 3 s) is counted by any frame at 7 s or later and kept before |
| `Tracker3.NoiseExample` | tracker_3.py:72-80 | a track seen only from 0 s to 1 s is never counted and is dropped from 3 s on |
| `Tracker3.ZeroSizeNotMatched` | tracker_3.py:10-80 | a live track and a new face with zero mean size, such as two faces truncated to `(0, 0, 0, 0)`, are not matched: the face gets a fresh id, and the track is kept, neither refreshed nor counted |
| `StorageUpdate.ProducersFillStoredFields` | main.py:818-827 | the face record written here and the motion record written at main.py lines 645-647 hold disjoint fields whose union is exactly what the store reads, 11 fields in all, the count that marks a bucket complete |
| `StorageUpdate.Merge` | storage_update.py:33 | `dict.update`: the result has both key sets, the new fields win, and the old fields not overwritten stay |
| `StorageUpdate.Record` | storage_update.py:28-33 | merging into bucket `key` creates it when missing and leaves every other bucket unchanged |
| `StorageUpdate.RecordIdempotent` | storage_update.py:31-33 | recording the same fields twice equals recording them once |
| `StorageUpdate.RecordCommutes` | storage_update.py:31-33 | producers writing disjoint fields may record in either order, and the bucket ends with the union of their fields |
| `StorageUpdate.MergeCommutes` | storage_update.py:33 | `dict.update` with two field sets that share no key gives the same dictionary in either order |
| `StorageUpdate.BothProducersComplete` | storage_update.py:56 | a new bucket that received the face record and the motion record, in either order, is complete |
| `StorageUpdate.CompletePart` | storage_update.py:55-58 | the extracted buckets are exactly the complete ones |
| `StorageUpdate.IncompletePart` | storage_update.py:55-58 | the buckets left pending are exactly the incomplete ones |
| `StorageUpdate.SplitLossless` | storage_update.py:55-58 | the complete and incomplete parts are disjoint and together give back the pending map |
| `StorageUpdate.FlushWithIdleWorker` | storage_update.py:52-63 | with an idle worker no complete bucket stays pending, and each bucket is either still pending or in the handed batch, never both |
| `StorageUpdate.FlushWithBusyWorker` | storage_update.py:64-69 | with a running worker the extracted buckets are put back: the pending map is unchanged and nothing is handed over |
| `StorageUpdate.Extract` | storage_update.py:53-58 | the extraction loop returns exactly the complete buckets and leaves exactly the incomplete ones |
| `StorageUpdate.PutBack` | storage_update.py:66-69 | the put-back loop assigns every extracted bucket back over the pending map |
| `StorageUpdate.Flushed` | storage_update.py:52-69 | one flush leaves the pending map and hands over the batch that AfterFlush and Handed describe |
| `StorageUpdate.CountComplete` | storage_update.py:72-76 | the counting loop returns the number of complete buckets |
| `StorageUpdate.HandedComplete` | storage_update.py:52-79 | a flush of either side, and the threshold-gated upload, hand over only non-empty batches of complete buckets |
| `StorageUpdate.StoredBucketUploads` | storage_update.py:113-144 | a bucket with exactly the stored fields and an image frame always yields an upload request |
| `StorageUpdate.PayloadOf` | storage_update.py:113-140 | a bucket yields a request exactly when it holds every field the upload reads and its frame is an image, since the frame is written out as a picture before the heatmap is looked at; the request's form holds the hour's date parts and the counters under their upload names, without `count`, and a stored heatmap is sent unchanged |
| `StorageUpdate.PostedPrefix` | storage_update.py:108-150 | the requests sent are, in order, those of a prefix of the batch; the first bucket without a request ends the upload of the rest |
| `StorageUpdate.StorageUpdater.constructor` | storage_update.py:19-25 | both pending maps start empty and nothing has been handed over |
| `StorageUpdate.StorageUpdater.Update` | storage_update.py:27-42 | the data is merged into the save bucket and flushed, then merged into the upload bucket and uploaded once `SEND_DATA_INTERVAL` buckets are complete; the whole new state is `Updated` of the old one, and every batch handed over so far holds only complete buckets |
| `StorageUpdate.StorageUpdater.Flush` | storage_update.py:44-50 | a save and an upload regardless of the threshold |
| `StorageUpdate.StorageUpdater.SaveData` | storage_update.py:52-69 | flushes the save side only, the upload side unchanged |
| `StorageUpdate.StorageUpdater.CheckAndSend` | storage_update.py:71-79 | uploads exactly when at least `SEND_DATA_INTERVAL` buckets are complete, the save side unchanged |
| `StorageUpdate.StorageUpdater.SendData` | storage_update.py:81-98 | flushes the upload side only, the save side unchanged |
| `MainPipeline.LargeFaces` | main.py:729-735 | the kept faces are exactly the detected faces whose mean side `(b - t + r - l) / 2` exceeds the minimum face size, and there are no more of them than detections |
| `MainPipeline.FilterFaces` | main.py:727-735 | the size-filter loop returns exactly `LargeFaces`, in detection order |
| `MainPipeline.Estimate` | main.py:738-744 | one observation per kept face, in order, with the estimated age raised by 5 and the gender kept |
| `MainPipeline.TruncatedBoxes` | main.py:746-748 | `recs.astype('int')` with the score column dropped gives one truncated box per kept face |
| `MainPipeline.Append` | main.py:785-790 | recording an observation appends the age and the gender, appends the aligned face, and drops the oldest face once there are more than 20, so a profile never holds more than 20 faces |
| `MainPipeline.ObservedProfiles` | main.py:778-790 | recording a frame's observations makes the tracking list hold exactly the old ids plus the frame's ids, keeps every profile well formed and leaves every other id's profile unchanged |
| `MainPipeline.ObserveKeepsProfiles` | main.py:779-790 | one (id, observation) pair adds at most its own id, keeps profiles well formed and changes no other id |
| `MainPipeline.Restrict` | main.py:794-798 | after removing dead ids, an id is in the tracking list exactly when it was there and is alive |
| `MainPipeline.MeanAbove` | main.py:756-757 | a mean of values that all exceed a bound exceeds it |
| `MainPipeline.SumAbove` | main.py:756-757 | a sum of `n` values that all exceed `b` exceeds `n * b` |
| `MainPipeline.SumConcat` | main.py:756-757 | the sum of two concatenated lists is the sum of their sums |
| `MainPipeline.AgeGroup` | main.py:758-765 | the four age groups are under 25, 25 to under 35, 35 to under 55, and 55 or older, each given by an if-and-only-if |
| `MainPipeline.TallyBalanced` | main.py:758-772 | every counted visitor lands in exactly one gender and exactly one age group |
| `MainPipeline.SampledFaces` | main.py:774-775 | sampling keeps at most five of a profile's faces (a sub-multiset of them) and changes nothing else |
| `MainPipeline.HandedOver` | main.py:753-776 | handing profiles over keeps the same ids, estimates and timestamps and never adds faces |
| `MainPipeline.SampledTwice` | main.py:774-775 | sampling an already sampled profile changes nothing |
| `MainPipeline.HandedOverAt` | main.py:753-776 | after the first `k` counted ids were handed over, an id's profile is sampled exactly when it was among them |
| `MainPipeline.Observations` | main.py:738-744 | one observation per kept face |
| `MainPipeline.IdValues` | main.py:750 | once the tracker gave every face an id, the ids in order |
| `MainPipeline.RecordObservations` | main.py:778-790 | the recording loop computes exactly the tracking list `ObservedProfiles` describes |
| `MainPipeline.RemoveDead` | main.py:794-798 | the removal loop leaves exactly the alive entries (`Restrict`) |
| `MainPipeline.NothingCounted` | main.py:705-711 | before any visitor is counted, all counters are zero |
| `MainPipeline.AddVisitorsCounts` | main.py:752-772 | counting visitor by visitor raises `count` by the number of visitors and each gender or age counter by the number of visitors in that group |
| `MainPipeline.AddVisitorsConcat` | main.py:752-772 | counting one batch of visitors and then another equals counting both batches at once |
| `MainPipeline.HourRecordBalanced` | main.py:818-827 | the hour record has exactly the nine face fields, wait and stay time are 0, and `count` equals male plus female and also the sum of the four age groups |
| `MainPipeline.CountedVisitors` | main.py:753-772 | the visitors of the counted ids, in order, one per id, each with its average age and gender |
| `MainPipeline.HandedProfiles` | main.py:773-776 | each handed profile carries its id's estimates and at most five of its recorded faces |
| `MainPipeline.HandOverStep` | main.py:753-776 | one turn of the counted-ids loop samples the next id's recorded profile and counts its visitor from unchanged estimates |
| `MainPipeline.CountStep` | main.py:752-772 | one turn of the counted-ids loop counts exactly the next id's visitor |
| `MainPipeline.TallyCounted` | main.py:752-776 | the counted-ids loop counts every counted visitor, hands over each sampled profile in order and leaves the tracking list handed over |
| `MainPipeline.NextTrackingListTracks` | main.py:752-798 | if the tracking list held well-formed profiles for exactly the old tracks, then after the frame it holds them for exactly the new tracks: every returned id is in it and no counted id is |
| `MainPipeline.CountedKnown` | main.py:750-757 | every counted id was a track, so `tracking_list[i]` exists and has estimates |
| `MainPipeline.FrameKeepsConsistent` | main.py:750-798 | a processed frame keeps the counters equal to the tally of the hour's visitors and keeps the tracking list keyed by the live tracks |
| `MainPipeline.UpdateTrackingList` | main.py:752-798 | the frame's bookkeeping keeps that invariant, adds exactly the counted visitors, and hands each counted profile over with at most five faces |
| `MainPipeline.HandedOverProfiles` | main.py:773-776 | handing profiles over keeps every profile well formed |
| `MainPipeline.AliveKeys` | main.py:794-798 | after pruning, the tracking list's ids are exactly the live track ids |
| `MainPipeline.TrackerAnswer` | main.py:750 | the tracker gives every face an id; each live track is old or newly assigned; each counted id was a track and is gone |
| `MainPipeline.ProcessFrame` | main.py:725-798 | a processed frame runs filter, estimate, tracker update, tally, hand-off, recording and pruning and keeps the invariant; the tracker always answers, since a zero-size pair on the numpy rows is only not a candidate |
| `MainPipeline.HourTick` | main.py:815-836 | when the hour changes, the finished hour's record is emitted and the counters restart at zero; otherwise nothing happens |
| `MainPipeline.HourRecordIsBalanced` | main.py:818-827 | every emitted hour record is balanced |
| `MainPipeline.StoreHour` | main.py:815-829 | on an hour change the record of exactly the finished hour's visitors is balanced and is what the storage updater records under the finished hour, and the counters restart; otherwise the storage updater is untouched |
| `MainPipeline.ReadFrame` | main.py:722-798 | a frame with detections is processed and one without is skipped, exactly as `FrameStep` says; the frame's visitors join the hour's and the tally and tracking list stay consistent with the tracks |
| `MainPipeline.NoFacesNoTracks` | main.py:722-798 | a frame with no face, read with no tracks: no ids, nobody counted, nothing handed over, and the tracker and the tracking list stay empty |
| `MainPipeline.FaceTurn` | main.py:714-836 | one loop turn: the frame moves the tracker and the tracking list as `FrameStep` says, so a skipped frame changes nothing and hands nothing over, and a processed frame takes exactly the tracker step on the size-filtered boxes, counts the visitors of the counted ids and hands over each counted id's sampled profile, at most five faces each. On an hour change the record is that of every visitor counted in the hour, this frame included; it names the previous hour, is balanced, and the storage updater's new state is `Updated` with it; otherwise the storage updater is untouched |
| `MainPipeline.FaceRun` | main.py:703-836 | over a stream of frames from an empty tracker and an empty tracking list: frame by frame, the tracker's answer, the visitors counted, the profiles handed over and the next tracker state and tracking list are exactly those of `FrameStep` from the previous frame's state, and everything handed over is the frames' hand-offs in order, at most five faces per profile; an hour is closed exactly by a frame after which the clock shows another hour; each closed hour's record names that hour and tallies exactly the visitors its frames counted; the storage updater's state is that of recording the closed hours in order; every record is balanced, the first closes the starting hour, and consecutive records name different hours |
| `MainPipeline.RunTurn` | main.py:714-836 | one loop turn extends the run's bookkeeping and its frame-by-frame trace by one `FrameStep`, and the storage updater's state by the hour it closes, if any |
| `MainPipeline.RunFrames` | main.py:714-836 | the loop over all frames: the run's bookkeeping and its trace of `FrameStep`s from the empty state hold after the last frame, and the hand-offs sent are those of the trace in order |
| `MainPipeline.TracedHandoffs` | main.py:771-774 | every profile handed over along a traced run keeps at most five faces |
| `MainPipeline.RanClosed` | main.py:815-829 | a frame that changes the hour closes the open hour: its visitors, this frame's included, become the next record, and an empty hour opens |
| `MainPipeline.RanOpen` | main.py:815 | a frame within the hour closes nothing and adds its visitors to the open hour |
| `DayTotals.Slot` | main.py:160-169 | an hour indexes a 24-slot list exactly when it lies in -24..23; a negative hour counts from the end |
| `DayTotals.FoldMeaning` | main.py:149-175 | the running totals equal the reference sums: total count, count-weighted wait and count-weighted stay. The maxima start at 0, bound every row, and `max_count` is 0 or some row's count |
| `DayTotals.WeightedBelowMax` | main.py:171-175 | with no negative count, the count-weighted wait is at most the total count times any bound on the waits; likewise the stay |
| `DayTotals.ScaledBelow` | main.py:171-172 | scaling by a non-negative count preserves `<=` |
| `DayTotals.EmptyHours` | main.py:155-159 | before any row, every slot holds 0 or `None` |
| `DayTotals.Place` | main.py:165-169 | writing a row into its slot keeps all five lists 24 long |
| `DayTotals.Placed` | main.py:160-169 | writing every row keeps the 24-slot shape |
| `DayTotals.LastIn` | main.py:160-169 | the row that ends up in a slot is one of the rows, and its hour names that slot |
| `DayTotals.PlacedIsLast` | main.py:160-169 | each slot holds the values of the last row for that hour; an hour without rows keeps 0 and `None` |
| `DayTotals.PrefixStep` | main.py:160-175 | one loop turn extends the fold and the slots by the next row; a row whose hour is out of range makes the day fail |
| `DayTotals.LoadDayData` | main.py:139-181 | no rows means "No information"; an out-of-range hour raises IndexError; otherwise the totals are the fold of every row, each slot holds its last row, and the averages are the count-weighted means, or both 0 when no visitor was counted |
| `DayTotals.AverageBelowMax` | main.py:176-178 | with no negative count, a day with visitors has an average wait no longer than its longest wait and an average stay no longer than its longest stay |
| `DayTotals.CountsNonNegative` | main.py:170 | non-negative row counts give a non-negative total |
| `DayTotals.DivideBelow` | main.py:176-178 | dividing a total that is at most `n * m` by a positive `n` gives at most `m` |
| `HumanPipeline.HeatMap.constructor` | heatmap.py:8-10 | a new heatmap has no map and a zero frame count |
| `HumanPipeline.HeatMap.Update` | heatmap.py:12-31 | each frame raises the count by one and adds its kernels' mass to the array in place: an existing array stays the same object, so every name bound to it sees the change; the first frame allocates a fresh zero array |
| `HumanPipeline.HeatMap.GetHeatmap` | heatmap.py:33-37 | there is a heatmap exactly when some frame was added, and it equals the heat divided by the frame count |
| `HumanPipeline.HeatMap.Reset` | heatmap.py:39-41 | reset clears the map and the count |
| `HumanPipeline.MeanHeat` | main.py:640-646 | the mean of the heat the hour's frames added exists exactly when the hour had frames |
| `HumanPipeline.HourHeatmapIsMean` | main.py:636-646 | while the heatmap has grown from the baseline by exactly the hour's frames, the hour heatmap is the mean of what they added, or `None` for an hour without frames, and nothing raises |
| `HumanPipeline.AddFrame` | main.py:605-608 | a frame with a detection result adds one frame and its mass to the hour |
| `HumanPipeline.MotionRecord` | main.py:647-649 | the stored record has exactly the `heatmap` and `frame` fields; the heatmap field is null exactly when no hour heatmap exists |
| `HumanPipeline.RolloverAsWritten` | main.py:633-653 | as written: the hour heatmap is the heat less the baseline's over the count less the baseline's; the baseline becomes the live array object, not a copy, and on a new date the map is dropped while the baseline keeps the old day's array |
| `HumanPipeline.SameDayHourStoresZero` | main.py:633-650 | because the baseline is the live array, which heatmap.py:31 updates in place, a second hour change on the same day stores a heatmap of 0, though that hour's one frame has mean heat `mass` |
| `HumanPipeline.SingleFrameMean` | main.py:640-644 | an hour with a single frame has that frame's heat as its mean |
| `HumanPipeline.HourTickAsWritten` | main.py:630-654 | as written: the hour heatmap is taken against the baseline, the record is stored under the finished hour, `last_heatmap` becomes the live heatmap array itself, and on a new date only the map is reset |
| `HumanPipeline.StaleBaselineRaises` | main.py:636-654 | after a date change, a first hour with no frames raises TypeError, though an hour without frames should store no heatmap |
| `HumanPipeline.StaleBaselineSkews` | main.py:636-654 | after a date change, one frame of mass 5 against an old baseline of 40 over 100 frames gives 35/99 instead of 5 |
| `HumanPipeline.Rollover` | main.py:633-653 | with the baseline a copy of the heatmap (`hmap.copy()`) and cleared on a new date: the hour heatmap is the mean of the heat the hour's frames added, `None` for an hour without frames, nothing raises, the next hour starts with no frames tracked, and a new date leaves no baseline |
| `HumanPipeline.HourTick` | main.py:630-654 | with the baseline a copy of the heatmap (`hmap.copy()`) and cleared together with the heatmap on a new date, the stored heatmap is the mean of the hour's own frames, the storage updater's new state is `Updated` with that record, and the next hour starts with no frames tracked; without an hour change the storage updater is untouched |
| `WaitTime.VisitedKeys` | wait_time_estimate.py:27-41 | visiting keeps every entry and adds one for exactly the confirmed pids seen inside the area, never for -1; with a clock that does not run backwards, no accumulated time decreases |
| `WaitTime.TotalOfRemove` | wait_time_estimate.py:44-49 | summing the finalised waits does not depend on which pid is taken first |
| `WaitTime.WaitTimeEstimator.constructor` | wait_time_estimate.py:8-13 | a new estimator has no entries, counts nothing, has a zero total and no area or mask |
| `WaitTime.WaitTimeEstimator.Update` | wait_time_estimate.py:15-49 | the mask is redrawn exactly when the area changed or none was drawn; every zipped detection is visited; every finalised pid (missing from the frame, dead, and counted) leaves, counts once and adds its accumulated time; every other entry stays |
| `WaitTime.WaitTimeEstimator.GetTotalWaitTime` | wait_time_estimate.py:51-52 | the total is the sum of the waits counted since the last reset |
| `WaitTime.WaitTimeEstimator.GetCount` | wait_time_estimate.py:54-55 | the count is the number of waits counted since the last reset |
| `WaitTime.WaitTimeEstimator.GetAvgWaitTime` | wait_time_estimate.py:57-58 | the average is the mean of the counted waits, and it raises ZeroDivisionError exactly when none was counted |
| `WaitTime.WaitTimeEstimator.ResetAll` | wait_time_estimate.py:60-63 | forgets every entry and every counted wait, and keeps the area and mask |
| `WaitTime.WaitTimeEstimator.ResetCount` | wait_time_estimate.py:65-67 | forgets the counted waits and keeps the entries |
| `WaitTime.VisitAll` | wait_time_estimate.py:27-41 | the first loop of `update` computes exactly the visit of every zipped detection, in order |
| `WaitTime.KeptStep` | wait_time_estimate.py:44-49 | looking at one more pid removes its entry exactly when it is finalised, and then adds one to the count and its time to the total |
| `WaitTime.FinaliseOne` | wait_time_estimate.py:45-49 | one turn of the second loop keeps the loop's progress invariant |
| `WaitTime.Finalise` | wait_time_estimate.py:43-49 | the second loop removes exactly the finalised pids, and the count and total grow by their number and their summed times |
| `Tracker2.MaxExists` | tracker_2.py:62-65 | a non-empty set of frame ids has a largest one |
| `Tracker2.LargestWithoutMax` | tracker_2.py:62-65 | the `n` largest ids are the largest id plus the `n - 1` largest of the rest |
| `Tracker2.LargestNone` | tracker_2.py:62-65 | with no ids, or none wanted, nothing is kept |
| `Tracker2.LargestStep` | tracker_2.py:62-65 | dropping the largest id leaves one id fewer among the largest |
| `Tracker2.LargestCount` | tracker_2.py:62-65 | keeping the `n` largest ids keeps `n` ids, or all of them when there are fewer |
| `Tracker2.LargestAbove` | tracker_2.py:63-65 | every kept frame id is above every dropped one |
| `Tracker2.SubsetCount` | tracker_2.py:62-65 | a subset of the ids has no more elements than the whole set |
| `Tracker2.TrimmedKeepsLargest` | tracker_2.py:61-65 | after trimming, the buffer holds exactly `MAX_BUFFER_SIZE` (100) frames when it overflowed and otherwise all of them. Kept entries are unchanged, and every kept frame id is above every dropped one |
| `Tracker2.WithoutStep` | tracker_2.py:69-72 | looking at one more key removes it exactly when it is to be dropped |
| `Tracker2.DeleteKeys` | tracker_2.py:64-65 | the deletion loop removes exactly the chosen keys and keeps every other entry |
| `Tracker2.OlderDropped` | tracker_2.py:69-72 | a frame stays buffered exactly when its id is not below `frame_id`, and stays unchanged |
| `Tracker2.GalleryInfoLists` | tracker_2.py:161-168 | `gallery_info` lists every track once, in ascending id order, with the size of its vector gallery |
| `Tracker2.GalleryInfoEntries` | tracker_2.py:162-168 | every entry names a track and its gallery size, and the ids strictly ascend |
| `Tracker2.GalleryInfoCovers` | tracker_2.py:162-168 | every track has an entry |
| `Tracker2.GetGalleryInfo` | tracker_2.py:161-168 | the filling loop computes exactly `GalleryInfo` |
| `Tracker2.OwnerIsSlice` | tracker_2.py:193-198 | a gallery row belongs to the track whose slice contains it |
| `Tracker2.OwnerDefined` | tracker_2.py:193-198 | a row has an owner exactly when it lies within the stacked gallery, and the owner is a listed track |
| `Tracker2.IndexToId` | tracker_2.py:193-198 | `_index_to_id` walks the slices and returns exactly the owner of the row, or nothing past the last row |
| `Tracker2.RowPairsMembers` | tracker_2.py:179-180 | a row's tuples are exactly `(distmat[i][j], i, j)` for its columns |
| `Tracker2.AllPairsMembers` | tracker_2.py:176-180 | every matrix entry is one tuple of `pairs`, and nothing else is |
| `Tracker2.Cut` | tracker_2.py:184-186 | the scan stops at a position between its start and the end of the list |
| `Tracker2.CutAtThreshold` | tracker_2.py:184-186 | in a sorted list, the visited tuples are exactly those at most `THRESHOLD` (0.45) away, so the threshold is inclusive |
| `Tracker2.SortedCols` | tracker_2.py:177-181 | sorting keeps every tuple a matrix entry with a column inside the gallery |
| `Tracker2.GreedyOneToOne` | tracker_2.py:184-190 | the greedy matching uses each row and each track at most once and pairs a row only with the owner of a column it was visited with |
| `Tracker2.GreedyMaximal` | tracker_2.py:184-190 | no visited tuple is left with both its row and its owner free |
| `Tracker2.VisitedTuples` | tracker_2.py:176-186 | the scan visits exactly the sorted matrix tuples at most `THRESHOLD` away |
| `Tracker2.VisitedBelow` | tracker_2.py:184-186 | every visited tuple is at most `THRESHOLD` away |
| `Tracker2.VisitedAll` | tracker_2.py:176-186 | every matrix entry at most `THRESHOLD` away is visited |
| `Tracker2.GreedyOnVisited` | tracker_2.py:184-190 | the greedy pass over exactly those tuples is a good matching |
| `Tracker2.MatchOfMeaning` | tracker_2.py:175-191 | `match_id`'s result is a good matching: one-to-one, each pair within `THRESHOLD`, and maximal |
| `Tracker2.MatchId` | tracker_2.py:175-191 | `match_id` computes exactly `MatchOf`: all tuples, sorted, scanned greedily until the first one above the threshold |
| `Tracker2.ScorePairs` | tracker_2.py:176-180 | the nested loop builds exactly the row-by-row tuples of the matrix |
| `Tracker2.GreedyScan` | tracker_2.py:182-191 | the scan loop with its break computes exactly the greedy matching of the visited prefix |
| `Tracker2.BumpedKeepsGallery` | tracker_2.py:91-95 | a matched track's gallery grows by one up to `MAX_GALLERY_SIZE` (30) and never beyond it |
| `Tracker2.NoIds` | tracker_2.py:87 | `ret` starts as `-1` for every detection |
| `Tracker2.ApplyUpTo` | tracker_2.py:88-97 | applying matched pairs keeps the set of tracks and the length of `ret` |
| `Tracker2.ApplyPairTo` | tracker_2.py:89-97 | one pair keeps the set of tracks and the length of `ret` |
| `Tracker2.ApplyLeavesTrack` | tracker_2.py:88-97 | a track that no applied pair names is untouched |
| `Tracker2.ApplyLeavesRet` | tracker_2.py:88-97 | a detection that no applied pair names keeps its `ret` |
| `Tracker2.ApplyPairTrack` | tracker_2.py:88-95 | in a one-to-one matching, each pair bumps its track exactly once |
| `Tracker2.ApplyPairRet` | tracker_2.py:96-97 | in a one-to-one matching, a matched detection gets its track's id exactly when the track reaches `MIN_MATCH_COUNT` (5) |
| `Tracker2.ApplyLastRet` | tracker_2.py:96-97 | the pair just applied sets its detection's id exactly when its track reaches `MIN_MATCH_COUNT` |
| `Tracker2.PairRet` | tracker_2.py:96-97 | one pair sets only its own detection's `ret`, and only when its track reaches `MIN_MATCH_COUNT` |
| `Tracker2.ApplyMeaning` | tracker_2.py:88-97 | applying the matched pairs bumps each matched track once and leaves every other track alone; a matched detection gets its id exactly on confirmation, and every other detection keeps `-1` |
| `Tracker2.AddFeature` | tracker_2.py:91-95 | the feature is appended, and past `MAX_GALLERY_SIZE` the vector at the drawn index is removed |
| `Tracker2.ApplyMatches` | tracker_2.py:87-97 | the loop over the matched pairs computes exactly `ApplyUpTo` over all pairs, starting from all `-1` |
| `Tracker2.ApplyPairStep` | tracker_2.py:89-97 | the loop body computes exactly one pair's effect |
| `Tracker2.UnmatchedLists` | tracker_2.py:99-100 | the unmatched detections are exactly those missing from `matched_det`, each once, in ascending order |
| `Tracker2.SpawnNext` | tracker_2.py:99-102 | `next_id` grows by the number of unmatched detections |
| `Tracker2.SpawnKeys` | tracker_2.py:99-103 | the tracks after spawning are the old ones plus exactly the ids from `next_id` up to `next_id + #unmatched` |
| `Tracker2.SpawnKeeps` | tracker_2.py:99-108 | spawning leaves every old track untouched |
| `Tracker2.SpawnNew` | tracker_2.py:99-108 | the `j`-th unmatched detection gets id `next_id + j`, with one match, no update, first and last seen now, and its own feature |
| `Tracker2.SpawnMeaning` | tracker_2.py:98-108 | unmatched detections take consecutive fresh ids in ascending detection order as new tracks, and old tracks are untouched |
| `Tracker2.SpawnTracks` | tracker_2.py:99-108 | the spawning loop computes exactly `SpawnUpTo` over all detections |
| `Tracker2.ExpireKey` | tracker_2.py:113-121 | one expiry step keeps the update counts positive, as the division needs |
| `Tracker2.ExpireUpTo` | tracker_2.py:111-121 | the corrected expiry loop keeps the update counts positive |
| `Tracker2.ExpireTrack` | tracker_2.py:113-121 | after the loop, exactly the dead tracks are gone, and each live track has been updated once more |
| `Tracker2.ExpireCountedMember` | tracker_2.py:115-120 | an id is counted exactly when its own track is dead (unseen for more than `MAX_AGE`, 300 s) and qualifies: it lived more than 180 s and was matched in more than a tenth of its updates |
| `Tracker2.ExpireCountedOrder` | tracker_2.py:112-120 | counted ids ascend, and each is logged with its own live time |
| `Tracker2.ExpireCounted` | tracker_2.py:111-121 | the corrected expiry counts, in ascending order, exactly the dead tracks that qualify on their own counts |
| `Tracker2.CountedLivedLong` | tracker_2.py:116-118 | every counted live time exceeds three minutes |
| `Tracker2.ExpireStep` | tracker_2.py:114-121 | the loop body computes exactly one expiry step; the customer total and total live time grow by what it counts |
| `Tracker2.Expire` | tracker_2.py:110-121 | the expiry loop computes exactly `ExpireUpTo`; the customer total and total live time grow by the counted lives |
| `Tracker2.ExpireAsWrittenUpTo` | tracker_2.py:110-121 | the loop as written, where `tid` stands for `k`, keeps the update counts positive and the last touched track alive |
| `Tracker2.ExpireAndReturnAsWritten` | tracker_2.py:110-123 | as written, a call without detections never returns: `ret` is unbound at the return even when the loop has no track to raise on |
| `Tracker2.CurrentTrackDecides` | tracker_2.py:114-120 | a long-lived, often matched customer who left over five minutes ago is not counted as written, because the newly spawned track decides for them; counted on their own track, they are |
| `Tracker2.LeftAndNewAsWritten` | tracker_2.py:114-120 | the as-written loop counts nobody in that example |
| `Tracker2.LeftAndNewCorrected` | tracker_2.py:113-121 | the corrected loop counts that customer with a live time of 250 s |
| `Tracker2.NoDetectionsRaises` | tracker_2.py:77-123 | with no detections, the loop as written raises on the first track, and with no tracks either the return raises; the corrected loop ages the track |
| `Tracker2.MatchingKnown` | tracker_2.py:79-85 | the applied matching names only known tracks and real detections, each once |
| `Tracker2.DetectMeaning` | tracker_2.py:77-108 | matching and spawning keep the tracks well formed, and `ret` reports only confirmed tracks, each at most once |
| `Tracker2.SpawnedWellFormed` | tracker_2.py:99-108 | spawning keeps the tracks well formed and the old tracks unchanged |
| `Tracker2.AppliedWellFormed` | tracker_2.py:88-95 | applying matches keeps every gallery between one and 30 vectors and every id below `next_id` |
| `Tracker2.AppliedConfirmed` | tracker_2.py:87-97 | every `ret` entry is `-1` or a confirmed track's id, and no id appears twice |
| `Tracker2.AppliedRetFrom` | tracker_2.py:87-97 | a detection's id comes from the pair that matched it, and that track reached `MIN_MATCH_COUNT` |
| `Tracker2.DetectResult` | tracker_2.py:77-108 | the matching half for a non-empty result computes exactly `Detect` and leaves `gallery_info` as `GalleryInfo` |
| `Tracker2.ExpireWellFormed` | tracker_2.py:110-121 | the expiry keeps the tracks well formed |
| `Tracker2.Process` | tracker_2.py:76-123 | one detection result keeps the bookkeeping (the customer count and total live time sum the counted lives) and does exactly match, spawn and then expire |
| `Tracker2.Tracker.constructor` | tracker_2.py:50-57 | a new tracker has an empty buffer, no tracks, next id 0 and zero totals |
| `Tracker2.Tracker.UpdateFrame` | tracker_2.py:59-65 | buffers the frame, keeps only the 100 most recent frame ids, and changes nothing else |
| `Tracker2.Tracker.UpdateDetectionResult` | tracker_2.py:67-123 | corrected (see Findings): older frames leave the buffer; an unbuffered frame returns nothing and changes nothing else; otherwise the result is the processed frame |
| `Tracker2.Tracker.DropOlder` | tracker_2.py:69-75 | frames older than `frame_id` leave the buffer, and the call reports whether `frame_id` was buffered |
| `Tracker2.Tracker.AvgAliveTime` | tracker_2.py:128-131 | corrected (see Findings): 0 before the first customer; afterwards the mean counted live time, which exceeds three minutes |
| `Tracker2.Tracker.TotalSequenceCount` | tracker_2.py:133-134 | the number of tracks counted as customers |
| `Tracker2.Tracker.AliveIds` | tracker_2.py:136-142 | exactly the tracks with at least `MIN_MATCH_COUNT` matches, in ascending id order |
| `HumanDetection.Settled` | human_detection.py:99-100 | once the loop has stopped or raised, later iterations change nothing |
| `HumanDetection.PostProcess` | human_detection.py:96-116 | the loop, with its `break`, its `continue`s and its `KeyError`, computes exactly the outcome of every iteration in order; an IoU with a zero union is nan on the numpy boxes and counts as no overlap |
| `HumanDetection.StopAt` | human_detection.py:96-100 | the stop is the first score below the threshold; every score before it is at or above the threshold |
| `HumanDetection.ScanStops` | human_detection.py:99-100 | the loop has stopped exactly when it has passed a score below the threshold |
| `HumanDetection.ScanShape` | human_detection.py:113-116 | the three output lists stay aligned, and the kept indices ascend |
| `HumanDetection.ScanSound` | human_detection.py:96-116 | every kept detection lies before the stop and has a kept class and its box in pixels, in input order |
| `HumanDetection.ScanSeparated` | human_detection.py:110-111 | no kept box has a defined IoU above `OVERLAP_THRESHOLD` with an earlier kept box; a nan IoU (zero union) is not an overlap |
| `HumanDetection.ScanComplete` | human_detection.py:99-111 | every detection before the stop that was not kept has a known class and was skipped for its class or for an overlap with an earlier kept box |
| `HumanDetection.ScanRaises` | human_detection.py:101-110 | the loop raises `KeyError` only for an unknown class id before the stop, and raises nothing else |
| `HumanDetection.PostProcessMeaning` | human_detection.py:96-116 | when nothing raises, the output is sound, separated and complete: exactly the greedy non-overlapping selection of confident kept-class detections |
| `HumanDetection.ZeroAreaBoxesKept` | human_detection.py:104-116 | two confident person detections with the same zero-area box are both kept, because their IoU is nan rather than an exception |

## Left out

- Neural-network inference is outside this model: the face, person and re-identification networks, `get_features`, the stacking of the gallery tensor, and `re_ranking`. Their results enter as parameters.
- `Tracker2.Tracker.UpdateDetectionResult`: the distance matrix is required to have one row per detection and one column per gallery row, the shape `re_ranking` returns; that shape is not checked at run time.
- SQLite storage (storage.py), the body of `_save_thread`, the image files `_send_thread` writes and the HTTP post itself are not modelled. The store is a sink, the sequence of handed-over batches. `_send_thread`'s loop that builds one request per bucket is modelled (`StorageUpdate.PayloadOf`, `StorageUpdate.Posted`, `StorageUpdate.PostedPrefix`); the request's status code is not.
- Threads and locks are not modelled. A worker's `is_alive()` is a boolean input, and joining a thread on `flush` is not modelled.
- `StorageUpdate.StorageUpdater.SaveData`: the put-back at storage_update.py:68 assigns rather than merges. Between releasing and re-acquiring the lock, another producer may write a fresh partial entry for the same key, and the put-back then overwrites it. The model runs each call atomically, so this interleaving is not captured.
- The single-slot multiprocessing queues of the detector (`put_frame`, `get_result`, `out_queue`) are not modelled, nor are the `HeatmapUpdater` and `FaceIDManager` threads. `faceid.put_data` is modelled as the sequence of handed profiles.
- `HumanPipeline.HeatMap.Update`: the heatmap array is an object with one cell, the accumulated kernel mass, rather than a 2-D array; its identity is kept, so aliasing of the array is modelled. The Gaussian kernels, `cv2` resizing and blending, and MOG2 motion detection are floating-point image work and are not modelled.
- Real arithmetic is exact: floating-point rounding in sums, means and IoU is not modelled. Of numpy's special values, only inf and nan from a division by zero are modelled: as a failed comparison in `box_dis` and in the person detector's `iou`.
- `Tracker3.SimpleTracker.Update`: the tracker is modelled on the numpy rows main.py passes it. Called with plain Python numbers, `box_dis` would raise ZeroDivisionError on a zero-size pair, and the model does not capture that path.
- `UtilsMain.SquaredDistanceSymmetric`: `distance` takes a square root. The model compares squared distances, which order pairs the same way, and never computes the root.
- `Tracker3.SimpleTracker.Update`: new identities take the next value of a counter rather than `time.time()`. One frame reads the clock once as `now`, whereas the source calls `time.time()` at each use. Two identities spawned within the same clock tick would share an id in the source; the model assumes the clock makes ids unique.
- Dictionary iteration order is modelled as ascending key order. This matters for `tracking` in tracker_2.py, `in_payment` in wait_time_estimate.py, and the pending maps of storage_update.py. Python iterates in insertion order; for `tracking`, ids are inserted in ascending order, so the two agree.
- The method `total_live_time` at tracker_2.py:125 is shadowed by the attribute of the same name set at tracker_2.py:57, so it can never be called. Only the attribute is modelled, as the sum of the counted live times.
- `get_gallery`'s side effect of assigning `gallery_info` is modelled; the `gallery_info` attribute is not defined before the first `get_gallery` call, and the model's empty initial list stands for that.
- Reading the label map file (`load_labelmap`) and the protobuf parsing are file I/O. The model starts from the parsed items.
- `HumanDetection.PostProcess`: the detector's tensors are required to have equal lengths, as the TF model returns them.
- `print` calls, the Qt GUI (`MainWindow` apart from `load_day_data`'s totals), the chart, the Excel export, `mark_payment_area.py`, and the configuration and start-up scripts are not modelled.
- `DayTotals.LoadDayData`: the label text's `int(...)` truncation of the averages is display formatting; the model keeps the exact averages.
- faceid.py's running age and gender means, and its identity index (`pretrain_index.py`, faiss), are not part of this model.

## Findings

| source | as written | input that shows it | evidently intended | confidence | as-written member | corrected member |
|---|---|---|---|---|---|---|
| main.py:649-653 | on a new date, the heatmap is reset but the baseline `last_heatmap`/`last_heatmap_count` keeps the previous day's values | a date change, then an hour with no frames: `None - last_heatmap` raises TypeError. With one frame of mass 5 against a baseline of 40 over 100 frames, the hour heatmap is 35/99 | clear the baseline together with the heatmap on a new date, and take the baseline as a copy (`last_heatmap = hmap.copy()`, the next row), so an hour's heatmap is the mean of the heat its own frames added | high (not executed) | `HumanPipeline.HourTickAsWritten` | `HumanPipeline.HourTick` |
| main.py:633-650 | `last_heatmap = hmap` binds the baseline to the live heatmap array, which `heatmap.update` then changes in place with `+=` (heatmap.py:31) | two hour changes on the same day with one frame of heat `mass` in between: the second stores a heatmap of 0 instead of `mass` | `last_heatmap = hmap.copy()`, together with clearing the baseline on a new date (the previous row) | high (not executed) | `HumanPipeline.SameDayHourStoresZero` | `HumanPipeline.Rollover` |
| tracker_2.py:114-117 | the expiry loop updates and tests `self.tracking[tid]` (the last track the match or spawn loop touched) instead of `self.tracking[k]` | a customer seen from 0 s to 250 s, matched often, and one new detection at 600 s: the new track decides, so the customer is never counted | each key's own track is updated once more and decides whether it is counted | high (not executed) | `Tracker2.CurrentTrackDecides` | `Tracker2.ExpireCounted` |
| tracker_2.py:77-123 | with no detections, the locals `tid` and `ret` are never bound in that call, so the expiry loop (or, with no tracks, the return) raises UnboundLocalError | an empty detection list while one track is known | tracks still age and expire, and the result for no detections is an empty `ret` | high (not executed) | `Tracker2.NoDetectionsRaises` | `Tracker2.Process` |
