# Video object detection: a verified model of the detection pipeline

This project models the deterministic part of a browser application. The
application samples frames from an uploaded video, runs a neural object
detector on each sampled frame, merges the detections into a list of unique
objects, and enhances object crops pixel by pixel. The model covers the
machinery around the detector:

- the frame-sampling schedules of both detector generations and of the page script;
- the detection threshold, cap and retry policy;
- the two deduplication rules;
- the crop-rectangle arithmetic;
- the image enhancement levels together with their Gaussian and bilateral filters;
- the block-matching tracker and frame preparation of the detection worker;
- the quota and history store;
- the list helpers of the page script.

The neural detector is a parameter of the model: a function from a frame
time to the predictions for that frame. So is `Math.exp`, which is only
required to be positive. All arithmetic is exact real arithmetic, with the
store into a `Uint8ClampedArray` written out explicitly: clamp, then round
half to even. Code that updates state in place is modelled as classes with
fields and as methods over arrays. Loops are `while`/`for` loops. Each method
is proved equal to a specification function, and the lemmas state what the
source promises about that function.

Modules, one per source component:

- `Sampling` (sampling.dfy): `calculateSamplingPoints` (detection.js), the `frameSkip / 30` step (js/detection.js), the frame schedule and progress of `processVideo` (app.js).
- `Detector` (detector.dfy): threshold and cap of `detectObjectsInCurrentFrame`, the sampling pass, `retryDetectionWithLowerThreshold`, the busy and model flags of `ObjectDetector` around `processVideo`, the crop margins of `extractAndEnhanceObjectImage` (detection.js).
- `Dedup` (dedup.dfy): `filterUniqueInstances` and `filterAndImproveDetections` (detection.js).
- `VideoDetection` (video_detection.dfy): the `DETECTION` state object: `processVideoFrames`, `processVideo`, `areSimilarObjects`, `clearResults` (js/detection.js).
- `DetectionWorker` (tracker.dfy): `trackObjectInFrames`, `prepareFrameForDetection` and `onmessage` (workers/detectionWorker.js).
- `Enhancement`, `Filters` (enhancement.dfy, filters.dfy): `enhanceImageData` and its basic, advanced and ultra levels, the Gaussian blur, the bilateral filter and auto levels (js/imageProcessing.js; workers/imageEnhancementWorker.js holds the same functions verbatim).
- `ImageProcessing`, `EnhancementWorker` (image_processing.dfy, enhancement_worker.dfy): the level gate of `applyImageEnhancement` and the worker's level switch.
- `Utils` (utils.dfy): `formatTime`, `adjustCanvasResolution`, `cropCenterSquare` (js/utils.js).
- `Storage` (storage.dfy): `StorageManager` (storage.js) over an in-memory record.
- `App` (app.dfy): `formatTime`, `processVideo`, `renderObjects`, `drawDetections`, `addToHistory`, `deleteHistoryItem` and the `localStorage` copy of the history they write (app.js).
- `Pixels`, `Image`, `Text`, `Seqs`, `Sorting`, `Predictions`, `Wrappers`: byte stores and `Math.round`, RGBA indexing, `toString`/`padStart`/`toLowerCase`/`includes`, `filter`/`indexOf`/`find`, stable `sort`, the prediction records, `Option`.

Where the two detector generations disagree, both are modelled. The per-class
map of js/detection.js keys on the lower-cased class name. The grouping in
detection.js uses the exact class string.

## Model

| member | source | states |
|---|---|---|
| Utils.Trunc | js/utils.js:35 | the truncation inside `%`: the floor for a non-negative number, otherwise the integer within one above it |
| Utils.MinutesSeconds | js/utils.js:34-35 | for t >= 0 the minutes are >= 0, the seconds lie in [0, 60), and minutes * 60 + seconds is the whole seconds of t |
| Utils.FormatTimeSpec | js/utils.js:33-37 | for t >= 0 the text is the unpadded minutes, a colon and exactly two digits of seconds below 60, and the two fields read back give floor(t) |
| Utils.ResolutionFor | js/utils.js:81 | the chosen resolution is positive, and any quality other than medium and ultra gets the high one, 1920 x 1080 |
| Utils.AspectFitWithin | js/utils.js:84-92 | one side of the fitted size equals the box's and the other lies in [0, box side]; the width is the box width when the picture is relatively wider, the height the box height otherwise |
| Utils.AdjustCanvasResolution | js/utils.js:80-103 | the returned size is the aspect fit into the quality's resolution, the canvas is given that size, and the ratio returned is width / height |
| Utils.CenterSquareInside | js/utils.js:173-175 | the square's side is min(w, h), its offsets are >= 0 and at least one of them is 0, it lies inside the picture, and it is centred |
| Utils.CropCenterSquare | js/utils.js:164-184 | the target canvas becomes size x size, and the source square is the centred square of the element's size, falling back to the video's size |
| Storage.ConsumeSpec | storage.js:85-97 | a video is granted exactly when quota remains after the reset check, and then exactly one unit is used; a refused call changes nothing; the reset happens only when now is strictly past the reset time; name and history are kept; a quota in [0, 10] stays there |
| Storage.ConsumeRunsOut | storage.js:87-97 | inside its window, a quota of n is used up after n granted calls, and the next call is refused |
| Storage.PushHistorySpec | storage.js:127-140 | the new entry comes first, the older ones follow shifted by one place, and at most 20 are kept, so the oldest are the ones dropped |
| Storage.FindItem | storage.js:151-154 | an entry is found exactly when one in the history has the id, and then it is the first such entry |
| Storage.StorageManager.constructor | storage.js:3-31 | the manager starts with the given address and the stored users |
| Storage.StorageManager.CreateUser | storage.js:65-79 | the address's record is overwritten by a user with 10 videos left, a reset time 172800000 ms after now and an empty history; the `Valid` bounds are preserved |
| Storage.StorageManager.UpdateUserQuota | storage.js:81-101 | without a record it returns false and changes nothing; otherwise the result and the new record are those of the quota rule, and only a granted call is saved; the bounds are preserved |
| Storage.StorageManager.AddToHistory | storage.js:121-144 | without a record nothing changes; otherwise that user's history becomes the capped push of the new entry, whose id is now in decimal; the bounds are preserved |
| Storage.StorageManager.GetHistory | storage.js:146-149 | the history of this address's record, or empty without one |
| Storage.StorageManager.GetHistoryItem | storage.js:151-154 | an entry with the id is found exactly when the history holds one; without a record nothing is found |
| Sampling.StepsBelowSpec | js/detection.js:147-157 | the step count counts exactly the k >= 0 with k * step below the duration |
| Sampling.SamplingRate | detection.js:335-346 | the interval is always positive |
| Sampling.SamplingRateMonotone | detection.js:335-346 | a longer video is never sampled more densely, and the interval lies in [0.5, 10] |
| Sampling.MultiplesSnoc | detection.js:349-351 | the loop's next point extends the list of multiples by one |
| Sampling.RegularCountSpec | detection.js:349-351 | the k >= 1 pushed by the loop are exactly those with k * rate below the duration |
| Sampling.SamplingPlan | detection.js:329-332 | the plan is never empty and starts with 0 |
| Sampling.CalculateSamplingPoints | detection.js:328-359 | the push loop builds exactly the sampling plan |
| Sampling.SamplingPlanNonPositive | detection.js:332-354 | a duration <= 0 is sampled only at 0 |
| Sampling.SamplingPlanRegular | detection.js:349-351 | every multiple of the interval below the duration is sampled, at its own index |
| Sampling.RegularPlanFacts | detection.js:332-351 | the regular points start at 0, rise strictly, and all points after the first are below the duration |
| Sampling.SamplingPlanIncreasing | detection.js:349-356 | the plan rises strictly, and every point after the first is below the duration |
| Sampling.SamplingPlanCoversEnd | detection.js:354-356 | for a duration above 1 the last point is at least duration - 1, and duration - 1 is added exactly when the last regular point is below it |
| Sampling.FrameCountSpec | js/detection.js:147-268 | frame k is visited exactly when its time k * frameSkip / 30 is below the duration |
| Sampling.AppFrameTimeInside | app.js:390-409 | every analysed frame time lies in [0, duration), and consecutive frames are interval / 30 apart |
| Sampling.ProgressBounds | app.js:402-406 | inside the loop the shown percentage stays in [0, 100) and never goes down |
| App.FormatTimeSpec | app.js:1077-1081 | for t >= 0 the text is at least two digits of minutes, a colon and exactly two digits of seconds below 60; read back, the fields give floor(t) |
| App.FrameObjectsFacts | app.js:437-444 | a frame's objects are its predictions, all stamped with the frame's time and its `MM:SS` form |
| App.AnalysedSound | app.js:402-445 | the objects of the first n frames are all predictions of their frame, with times between 0 and the last frame's time, in frame order |
| App.AnalysedComplete | app.js:402-445 | every prediction of every analysed frame is on the list, with that frame's time |
| App.AnalysedPrefix | app.js:402-445 | the objects of the first m frames are a prefix of those of the first n, for m <= n |
| App.AnalysedLast | app.js:427-445 | every prediction of the last analysed frame is on the list |
| App.AnalysedSpec | app.js:390-445 | the list holds the floor(floor(d * 30) / interval) frames at i * interval / 30 frame by frame: the k-th prediction of frame i is at position PredictionCount(i) + k, built with that frame's time, and the length is the total count, so nothing else is on it; every object's time is one of those frame times and lies in [0, duration) |
| App.AnalysedLength | app.js:402-445 | the list has exactly as many objects as the analysed frames have predictions |
| App.AnalysedAt | app.js:402-445 | the k-th prediction of frame i is at position PredictionCount(i) + k, as the object built from it with frame i's time |
| App.AnalysedBlocks | app.js:402-445 | the list is the frames' objects concatenated in frame order |
| App.AnalysedLayout | app.js:402-445 | the list's length is the prediction count of the frames and every prediction of every frame is at its position |
| App.AnalysedAtFrameTimes | app.js:402-445 | every object's time is the time of one of the analysed frames |
| App.AnalysedBeforeEnd | app.js:390-409 | every analysed time lies in [0, duration) |
| App.TypeFilterSpec | app.js:491-504 | the filter keeps exactly the objects whose lower-cased type contains the lower-cased query, in their order; an empty query keeps the list itself |
| App.ArrangedSpec | app.js:507-517 | the sort is a permutation: by descending confidence, ascending time, or type in code-unit order; an unknown choice keeps the order |
| App.RelevantSpec | app.js:579-582 | exactly the objects with abs(time - currentTime) <= 0.1 are drawn, in list order |
| App.EntryOfSpec | app.js:632-646 | the entry has the given id, timestamp and video name, counts and copies the objects, and has a thumbnail exactly when there is an object, the first one's image |
| App.WithoutIdSpec | app.js:784 | deletion removes every entry with the id and keeps every other entry in order; an absent id changes nothing |
| App.AppState.constructor | app.js:1068-1074 | the page starts with no objects, and both the history and its stored copy are the saved history |
| App.AppState.ProcessVideo | app.js:365-486 | without a model the objects are untouched and nothing is shown; otherwise the objects become the analysed list up to the first frame that throws, the results are shown only when no frame throws, and the history is unchanged |
| App.FramesReached | app.js:402-486 | the loop gets through every frame before the first one that throws, and through all frames when none throws |
| App.AppState.PushFrameObjects | app.js:427-445 | the frame's objects are appended to `detectedObjects`, in the detector's order |
| App.AppState.RenderObjects | app.js:490-517 | the shown list is the filtered list, sorted; with an empty query `detectedObjects` itself is the sorted list, otherwise it is unchanged |
| App.AppState.AddToHistory | app.js:631-652 | the entry, with the given id and timestamp, is appended to the history without a cap, and the stored copy becomes the new history; the objects are unchanged |
| App.AppState.DeleteHistoryItem | app.js:782-788 | on confirmation the history loses every entry with the id and the stored copy becomes the new history; otherwise neither changes |
| VideoDetection.Find | js/detection.js:184-185 | `has`/`get` of the map: the position of the first entry with the key, or -1 exactly when no entry has it |
| VideoDetection.Values | js/detection.js:105 | `Array.from(values())`: the objects of the entries, in insertion order |
| VideoDetection.MapSetFacts | js/detection.js:249-256 | after a `set` the keys stay distinct, the key maps to the new object, an existing key keeps its place, and every other entry is as before |
| VideoDetection.PaddedBoxInside | js/detection.js:193-196 | the padded crop starts at x, y >= 0 and ends by the canvas's right and bottom edges; with a non-negative padding a box inside the canvas stays inside the crop |
| VideoDetection.CropPlacementInside | js/detection.js:202-218 | the aspect-fitted crop fills the object canvas on one axis, is centred on the other, and stays inside it |
| VideoDetection.UpdateRule | js/detection.js:179-249 | a score below the threshold changes nothing; a score no higher than the one stored for the lower-cased class changes nothing; otherwise that key holds the new object and no other entry changes |
| VideoDetection.UpdateKeeps | js/detection.js:179-256 | an update keeps the map consistent (one entry per lower-cased class, all above the threshold, all from visited frames) and never lowers a stored score |
| VideoDetection.UpdateConsistent | js/detection.js:179-256 | an update keeps the keys distinct, each entry under its own lower-cased class, above the threshold and from a visited frame |
| VideoDetection.UpdateHolds | js/detection.js:184-187 | an update never lowers the score held under a key |
| VideoDetection.UpdateStores | js/detection.js:179-249 | after a prediction that clears the threshold, its lower-cased class holds at least its score |
| VideoDetection.UpdateAllKeeps | js/detection.js:175-258 | a frame's loop keeps the map consistent, never lowers a stored score, and leaves every kept prediction's class with at least its score |
| VideoDetection.ScanSpec | js/detection.js:147-284 | from a cleared map the frames leave one entry per lower-cased class, each above the threshold; every entry was built from a prediction of its own frame, a visited frame whose detection did not throw; and every kept prediction of such a frame has its class at least at its score |
| VideoDetection.ScanHolds | js/detection.js:147-284 | from a cleared map the scan is consistent, and every kept prediction of a frame that did not throw has its class at least at its score |
| VideoDetection.ScanSeen | js/detection.js:147-256 | every entry left by the scan was built from one of the predictions of its frame, a visited frame whose detection did not throw |
| VideoDetection.ScanBest | js/detection.js:179-190 | the entry held under a class scores at least as high as every prediction of that class clearing the threshold in any visited frame: it is the best-scoring one |
| VideoDetection.UpdateFrom | js/detection.js:179-256 | a property that every stored object has, and that the object built from the prediction has, holds of every object after the update |
| VideoDetection.UpdateAllFrom | js/detection.js:175-258 | a property that every stored object has, and that every object built from the frame's predictions has, holds of every object after the frame's loop |
| VideoDetection.FrameTimesSpec | js/detection.js:147-276 | the frame times are k * frameSkip / 30, all below the duration, starting at 0 for a positive duration, and none below the duration is missed |
| VideoDetection.FinalisedSpec | js/detection.js:105-108 | the final list is a permutation of the map's values in descending confidence |
| VideoDetection.SqrtFree | js/detection.js:310-318 | comparing the square root of the squared distance with the bound is the same as comparing squares when the bound is positive |
| VideoDetection.AreSimilarObjectsClasses | js/detection.js:292-318 | different class names are never similar, and a box with a positive side is similar to itself |
| VideoDetection.AreSimilarObjectsNotSymmetric | js/detection.js:316 | the bound uses only the first box's size, so there are two objects similar one way and not the other |
| VideoDetection.DetectionState.constructor | js/detection.js:67-75 | the state starts with no objects, an empty map, not busy and no model |
| VideoDetection.DetectionState.ProcessPredictions | js/detection.js:175-258 | the map becomes the update of every prediction of the frame, in order; the other fields are unchanged |
| VideoDetection.DetectionState.ProcessFrame | js/detection.js:160-278 | the frame's predictions are merged into the map, and a frame whose detection threw before any update (`None`) leaves it as it was |
| VideoDetection.DetectionState.ProcessVideoFrames | js/detection.js:130-284 | the map becomes the scan of every frame time 0, s, 2s, ... below the duration, with s = frameSkip / 30; the other fields are unchanged |
| VideoDetection.DetectionState.ProcessVideoAsWritten | js/detection.js:67-120 | a busy call changes nothing; a failed load leaves the busy flag set; otherwise the map is the scan from a cleared map and the objects are its values in descending confidence |
| VideoDetection.DetectionState.ProcessVideo | js/detection.js:67-120 | as written, except that every call not turned away as busy leaves the busy flag clear |
| VideoDetection.DetectionState.ClearResults | js/detection.js:333-336 | both result containers are emptied; the busy flag and the model are kept |
| VideoDetection.StuckAfterFailedLoad | js/detection.js:73-119 | as written, after a failed first load the next call is turned away as busy |
| VideoDetection.RecoversAfterFailedLoad | js/detection.js:67-120 | with the load guarded, the call after a failed load runs to completion |
| Predictions.StampAllRoundTrip | detection.js:396-402 | removing the time stamps gives back the predictions |
| Detector.SliceTo | detection.js:385 | `slice(0, end)` is a prefix of the list, of length min(end, length) for end >= 0, and end counted from the back for end < 0 |
| Detector.DetectObjectsInCurrentFrame | detection.js:362-414 | the result loop builds exactly the frame's kept detections |
| Detector.FrameDetectionsKept | detection.js:363-401 | without a model the frame yields nothing; otherwise every kept score is at least max(0.25, 0.7 t), every time is the frame's, there are at most min(maxDetections, 20), the detector's order is kept, and for maxDetections >= 0 the result is exactly the first min(maxDetections, 20) predictions clearing the threshold (all of them when fewer) |
| Detector.FrameDetectionsComplete | detection.js:383-402 | a prediction clearing the threshold with fewer than min(maxDetections, 20) clearing predictions before it is reported at its rank among them, with the frame's time |
| Detector.DetectionPass | detection.js:185-233 | the pass collects the frame detections of every sampling point whose seek succeeds, in order, and the total counts them |
| Detector.PassDetectionsFromPoints | detection.js:192-230 | every detection of the pass is at a sampling point whose seek succeeded and clears the frame threshold; without a model there are none |
| Detector.RetryKeptSpec | detection.js:438-449 | a probe keeps exactly the predictions scoring at least 0.1, with the probe's time |
| Detector.RetryDetectionWithLowerThreshold | detection.js:417-462 | the loops collect exactly the retry detections at the three probe times, and return nothing once a probe's seek or drawing throws |
| Detector.RetryOutcomeSpec | detection.js:417-462 | the retry keeps only detections at probe times scoring at least 0.1, nothing at all when some probe's seek throws, and, when every probe seeks with a model loaded, every such prediction |
| Detector.RetryFrame | detection.js:438-450 | the inner loop keeps exactly the probe's predictions scoring at least 0.1 |
| Detector.RetryDetectionsSpec | detection.js:420-450 | each retry detection is at a probe time and scores at least 0.1, and with a model every such prediction at those times is kept |
| Detector.RetryTimesInside | detection.js:420 | the probes start at 0 and lie within [0, duration] |
| Detector.DetectVideo | detection.js:181-258 | the objects are the deduplication of the pass, with the retry appended when the pass found nothing |
| Detector.RetryOnlyAfterEmptyPass | detection.js:239-251 | the retry's outcome is added only after a pass that found nothing with retrying enabled; otherwise the pass alone is kept |
| Detector.ObjectDetector.constructor | detection.js:4-15 | the detector starts with no model, idle, and retrying after an empty pass |
| Detector.ObjectDetector.LoadModel | detection.js:79-109 | a successful load sets the model flag, a failed one keeps it; the busy and retry flags are unchanged |
| Detector.ObjectDetector.WaitForModel | detection.js:299-311 | the wait ends with the model loaded and the other flags unchanged |
| Detector.ObjectDetector.ProcessVideo | detection.js:131-280 | a call while busy gives no results and changes no flag; otherwise the results carry the file name, the duration and the deduplicated detections with their count, and the detector ends idle with a model |
| Detector.ConsecutiveVideos | detection.js:131-280 | the busy flag is cleared on completion, so two videos processed one after the other both produce results |
| Detector.Margin | detection.js:473-475 | the margin is at least 10 and at least 0.15 of the side |
| Detector.ObjectCanvasSize | detection.js:478-479 | the object canvas is the box plus both margins, so at least 20 larger on each axis |
| Detector.CropSourceInside | detection.js:473-485 | the source rectangle starts at x, y >= 0, ends by the frame's edges, is no larger than the object canvas, and contains a box that lies within the frame |
| Dedup.KeyIndex | detection.js:644-649 | `has`/`get` of `positionGroups`: the position of the entry with the key, or -1 when there is none |
| Dedup.StepWellKeyed | detection.js:644-657 | one iteration keeps every entry under its own grid key, with no key twice |
| Dedup.ValuesIndex | detection.js:652-653 | in a well-keyed map, `indexOf` of a representative finds its own slot, so the guard `index !== -1` always holds |
| Dedup.FilterUniqueInstances | detection.js:623-662 | the loop returns exactly the representatives of the grid cells, and lists of length <= 1 unchanged |
| Dedup.GroupsRepresent | detection.js:634-659 | the loop keeps one well-keyed entry per cell seen so far, each the first best of its cell, drawn from the input |
| Dedup.UniqueInstancesDistinct | detection.js:624-646 | lists of length <= 1 pass through unchanged; otherwise no two kept detections share a (floor(x/30), floor(y/30), floor(w/30)) key |
| Dedup.UniqueInstancesSubMultiset | detection.js:634-659 | the kept detections are a sub-multiset of the input |
| Dedup.UniqueInstancesBest | detection.js:634-659 | each kept detection is the highest-scoring input of its cell, the earliest among equal scores; every cell of the input keeps one; and they are drawn from the input |
| Dedup.UniqueInstancesOfSorted | detection.js:601-650 | on input sorted by descending score, the one kept for a cell is the cell's first element |
| Dedup.HigherScoreOrder | detection.js:579-611 | the comparator `b.score - a.score` is a strict weak order, so the sorts are well defined |
| Dedup.FilterAndImproveDetections | detection.js:572-620 | the loops return exactly the improved list: the empty list for no input, otherwise the per-class unique instances, sorted |
| Dedup.GroupByClassPartitions | detection.js:582-592 | the grouping has one group per exact class string, each holding only that class, and every detection is in its class's group |
| Dedup.PerClassUniqueFrom | detection.js:595-608 | the concatenated per-class results are drawn from the groups' members |
| Dedup.PerClassUniqueDistinct | detection.js:595-608 | before the final sort no two detections share an exact class and a grid cell |
| Dedup.DistinctSlotsPermuted | detection.js:611 | reordering keeps pairwise distinct (class, cell) slots |
| Dedup.ImprovedSorted | detection.js:573-611 | the result is `[]` for no detections; otherwise it is sorted by descending score and a sub-multiset of the input |
| Dedup.ImprovedDistinct | detection.js:585-641 | the result keeps at most one detection per exact class string and grid cell |
| Dedup.ImprovedCovers | detection.js:584-611 | every input detection has a kept detection of the same class and cell scoring at least as high |
| DetectionWorker.Read | workers/detectionWorker.js:136 | a typed-array read is a number exactly when the index is inside the buffer, and then it is that byte |
| DetectionWorker.Half | workers/detectionWorker.js:129-130 | the number of iterations of a step-2 loop below n: i counts as an iteration exactly when 2i < n |
| DetectionWorker.ScoreBound | workers/detectionWorker.js:129-145 | the average similarity of any candidate is NaN or lies in [0, 255] |
| DetectionWorker.SearchWindow | workers/detectionWorker.js:113-117 | the search window starts at the box less the margin, clipped at 0, ends inside the frame, and is no larger than the box grown by the margin on each side |
| DetectionWorker.StepGood | workers/detectionWorker.js:147-149 | one comparison keeps the best-match invariant: the best is the first maximal candidate seen so far, or the box itself with 0 |
| DetectionWorker.RowScanGood | workers/detectionWorker.js:124-150 | a whole row of candidates keeps the best-match invariant |
| DetectionWorker.ScanGood | workers/detectionWorker.js:120-151 | all rows scanned from the start value (box position, similarity 0) keep the best-match invariant |
| DetectionWorker.TrackSpec | workers/detectionWorker.js:105-163 | the tracked box keeps w and h; confidence is in [0, 1]; the position is the old one with confidence 0, or a candidate whose score is 255 times the confidence; no candidate scores higher, every earlier candidate scores lower, and with no positive score the box stays |
| DetectionWorker.SelfScore | workers/detectionWorker.js:129-145 | against an identical frame, a non-empty box inside it has average similarity exactly 255 at its own position |
| DetectionWorker.BoxIsCandidate | workers/detectionWorker.js:113-124 | a box inside the frame is one of the positions the search visits |
| DetectionWorker.IdenticalFramesFullConfidence | workers/detectionWorker.js:105-163 | when the two frames are identical, a non-empty box inside them is tracked with confidence 1 |
| DetectionWorker.SampleSimilarity | workers/detectionWorker.js:135-138 | the channel loop adds the three terms 255 - abs(prev - cur) of one sample to the running sum |
| DetectionWorker.RowSimilarity | workers/detectionWorker.js:130-141 | the sx loop adds the terms of every second sample of a row and raises the count by 3 per sample |
| DetectionWorker.CandidateSimilarity | workers/detectionWorker.js:125-145 | the sy loop and the division compute the candidate's average similarity as defined by the score function |
| DetectionWorker.ScanRow | workers/detectionWorker.js:124-150 | the tx loop leaves the best match the row scan defines |
| DetectionWorker.TrackObjectInFrames | workers/detectionWorker.js:105-163 | the method returns exactly the tracking result whose properties TrackSpec states |
| DetectionWorker.BrightnessRatio | workers/detectionWorker.js:61-68 | the ratio is NaN exactly for an empty buffer, and otherwise lies in (0, 128] |
| DetectionWorker.Coords | workers/detectionWorker.js:73-81 | byte c of pixel (x, y) is found back at column x, row y, channel c |
| DetectionWorker.PreparedSpec | workers/detectionWorker.js:51-94 | the result keeps the length, every alpha byte is 255, every border colour byte 0, and each interior colour byte the 3x3 mean times the ratio, clamped into [0, 255] |
| DetectionWorker.PreparedAt | workers/detectionWorker.js:71-91 | the value of one colour byte of the result, interior or border |
| DetectionWorker.UniformRatio | workers/detectionWorker.js:61-68 | on a frame whose colour bytes all equal v >= 1 the ratio is 128 / v |
| DetectionWorker.UniformWindow | workers/detectionWorker.js:77-84 | on such a frame the 3x3 window of an interior pixel sums to 9v |
| DetectionWorker.UniformFrameNormalised | workers/detectionWorker.js:51-94 | on such a frame every interior colour byte comes out as the target brightness 128 |
| DetectionWorker.NeighbourSum | workers/detectionWorker.js:77-84 | the dy loop computes the sum of the nine window reads |
| DetectionWorker.NeighbourRow | workers/detectionWorker.js:80-83 | the dx loop adds the three reads of one window row |
| DetectionWorker.PrepareFrameForDetection | workers/detectionWorker.js:51-94 | the returned fresh buffer is exactly the prepared frame PreparedSpec describes |
| DetectionWorker.SetAlpha | workers/detectionWorker.js:56-58 | the first loop sets every alpha byte to 255 and leaves the others 0 |
| DetectionWorker.BrightnessLoop | workers/detectionWorker.js:61-64 | the second loop sums the per-pixel mean of r, g and b |
| DetectionWorker.SmoothInterior | workers/detectionWorker.js:71-91 | the y/x/c loops fill the interior colour bytes, leaving the buffer equal to the prepared frame |
| DetectionWorker.OnMessage | workers/detectionWorker.js:8-35 | prepareFrame replies with the prepared frame and its dimensions, trackObject with the tracked box and confidence, and any other action with an error naming it |
| Pixels.Clamp | js/imageProcessing.js:120 | `Math.max(0, Math.min(255, v))` lies in [0, 255], keeps a value inside that range and sends values below or above it to 0 or 255 |
| Pixels.MathRound | js/utils.js:89-91 | `Math.round` gives the integer within half a unit of v, a half going up |
| Pixels.Ceil | js/imageProcessing.js:252 | `Math.ceil` gives the least integer at or above v |
| Pixels.StoreByte | js/imageProcessing.js:300 | a store into a `Uint8ClampedArray` gives 0 at or below 0, 255 at or above 255, and otherwise a byte within half a unit of the value |
| Pixels.StoreByteOfByte | js/imageProcessing.js:276 | storing a value that already is a byte keeps it |
| Pixels.StoreByteMonotone | js/imageProcessing.js:120 | a larger value never stores as a smaller byte |
| Pixels.ClampStoreIsStore | js/imageProcessing.js:120 | the explicit clamp before a store changes nothing: the clamping store is the plain store |
| Pixels.GrayStaysGray | js/imageProcessing.js:116-132 | the contrast and saturation step keeps a neutral grey pixel neutral, each channel being the contrast-stretched value |
| Pixels.MidGrayFixed | js/imageProcessing.js:116-132 | mid grey 128 is a fixed point of the contrast and saturation step, whatever the factors |
| Pixels.ContrastSpreads | js/imageProcessing.js:118-121 | with a factor of at least 1, contrast never moves a channel towards 128 |
| Text.NatToString | js/utils.js:36 | `toString` of a non-negative integer is a non-empty digit string, one digit long exactly below 10 |
| Text.NatToStringRoundTrip | js/utils.js:36 | reading the decimal rendering back gives the number |
| Text.PadStart | js/utils.js:36 | `padStart` gives a string of the larger of the two lengths that ends with the input and starts with fill characters |
| Text.PadStartValue | app.js:1080 | zero-padding a digit string keeps it a digit string of the same value |
| Text.ToLower | app.js:491 | the result has the input's length and each character is the input's character with `A`-`Z` mapped to `a`-`z` |
| Text.ToLowerIdempotent | js/detection.js:181 | lower-casing twice is lower-casing once |
| Text.Contains | app.js:502 | `includes` holds exactly when the query occurs at some position of the string |
| Text.ContainsTrivial | app.js:501-503 | every string includes the empty string and itself |
| Seqs.Filter | app.js:501 | `filter` keeps exactly the elements satisfying the predicate, no more elements than the input, as a sub-multiset |
| Seqs.FilterIsSubsequence | detection.js:384 | filtering keeps the input's order: the result is a subsequence of the input |
| Seqs.FilterConcat | app.js:784 | filtering a concatenation is the concatenation of the filtered parts |
| Seqs.FilterAll | app.js:784 | filtering with a predicate every element satisfies returns the input |
| Seqs.BlocksAt | app.js:402-445 | in a concatenation of blocks, element k of block i sits right after the blocks before i |
| Seqs.SubsequencePrefix | detection.js:384-386 | a prefix of a subsequence is a subsequence |
| Seqs.IndexOf | detection.js:652 | `indexOf` gives the first index holding the element, or -1 exactly when it is absent |
| Seqs.FindFirst | storage.js:153 | `find` gives an element exactly when one satisfies the predicate, and then the first such one |
| Sorting.SortBy | app.js:507-517 | `sort` with a comparator returns a permutation of its input |
| Sorting.InsertSorted | detection.js:579 | inserting into an ordered sequence under a strict weak order keeps it ordered |
| Sorting.SortBySorted | detection.js:579 | under a strict weak order the sorted result is ordered by the comparator |
| Sorting.SortByOfSorted | detection.js:601 | an input already ordered by the comparator is returned unchanged |
| Sorting.SortByStable | app.js:507-515 | the sort is stable: for every e, the elements equivalent to e (neither before nor after it) appear in the result in their input order |
| Sorting.SortByKeepsClass | app.js:507-515 | sorting keeps each equivalence class of the comparator in its input order |
| Sorting.InsertKeepsClasses | app.js:507-515 | inserting an element ahead of the first one not before it puts it first in its class, ahead of the class's members already there |
| Sorting.BeforeLeavesClass | app.js:507-515 | under a strict weak order nothing strictly before a member of a class is in the class |
| Sorting.ClassOfIsFilter | app.js:507-515 | collecting a class element by element is filtering by membership of the class |
| Sorting.LexLessIsStrictWeakOrder | app.js:515 | the code-unit order of strings is a strict weak order, so sorting by type name is well defined |
| Enhancement.MapPixels | js/imageProcessing.js:116-132 | a per-pixel pass keeps the buffer length and every alpha byte |
| Enhancement.MapPixelsAt | js/imageProcessing.js:116-132 | after a per-pixel pass each pixel's colour is the pass function of its old colour, and its alpha byte is unchanged |
| Enhancement.MapPixelsInPlace | js/imageProcessing.js:116-132 | the `i += 4` loop leaves the buffer equal to the per-pixel pass of its old contents |
| Enhancement.MapPixelAt | js/imageProcessing.js:118-131 | one loop body writes the four bytes of pixel i / 4 and no other byte |
| Enhancement.MappedPixel | js/imageProcessing.js:118-131 | the bytes written for pixel i / 4 are the three channels of the new colour and the old alpha |
| Enhancement.BasicEnhancement | js/imageProcessing.js:112-133 | `applyBasicEnhancement` leaves the buffer equal to the colour pass with contrast 1.15 and saturation 1.2 of its old contents |
| Enhancement.ColourPassKeepsNeutral | js/imageProcessing.js:116-132 | the colour pass keeps a neutral grey pixel neutral, with each channel the contrast-stretched input, and keeps 128 at 128 |
| Enhancement.ChannelMinIsMin | js/imageProcessing.js:387-391 | the scanned minimum of a channel is at most every value of it, and is one of them when there is a pixel |
| Enhancement.ChannelMaxIsMax | js/imageProcessing.js:392-395 | the scanned maximum of a channel is at least every value of it, and is one of them when there is a pixel |
| Enhancement.AutoLevels | js/imageProcessing.js:382-408 | auto levels keeps the buffer length |
| Enhancement.LevelledAt | js/imageProcessing.js:403-407 | each colour byte becomes `255 * (v - lo) / (hi - lo)` stored as a byte, with its channel's levels |
| Enhancement.LevelByteEnds | js/imageProcessing.js:404 | with lo < hi the low level maps to 0 and the high level to 255 |
| Enhancement.AutoLevelsStretches | js/imageProcessing.js:382-408 | in a channel that is not constant the minimum becomes 0 and the maximum 255 |
| Enhancement.LevelByteMonotone | js/imageProcessing.js:404 | the level mapping is monotone in the value for lo <= hi |
| Enhancement.AutoLevelsMonotone | js/imageProcessing.js:382-408 | within one channel auto levels keeps the order of the values |
| Enhancement.AutoLevelsConstant | js/imageProcessing.js:398-407 | a constant channel is stretched from 0: a value above 0 becomes 255, and 0 stays 0 |
| Enhancement.ScanLevels | js/imageProcessing.js:383-395 | the scan loop returns the three channel minima and maxima over the whole buffer |
| Enhancement.AutoLevelsInPlace | js/imageProcessing.js:382-408 | `applyAutoLevels` leaves the buffer equal to the auto-levelled old contents |
| Enhancement.InteriorBounds | js/imageProcessing.js:147-163 | the nine bytes the sharpen kernel reads for an interior pixel lie inside the buffer |
| Enhancement.SharpenOfUniform | js/imageProcessing.js:154-165 | the sharpen weights sum to 1: nine equal values v give back v, also once stored |
| Enhancement.Sharpened | js/imageProcessing.js:144-168 | the sharpen keeps the buffer length |
| Enhancement.SharpenedAt | js/imageProcessing.js:147-168 | each byte of the sharpened buffer is the kernel on the copy for an interior colour byte, and the copy's byte otherwise |
| Enhancement.SharpenedKeepsBorder | js/imageProcessing.js:147-148 | the sharpen leaves border pixels and every alpha byte as they were |
| Enhancement.SharpenedUniform | js/imageProcessing.js:147-168 | a channel that holds one value everywhere is left unchanged by the sharpen |
| Enhancement.SharpenInPlace | js/imageProcessing.js:144-168 | the copy and sharpen loops leave the buffer equal to the sharpened old contents |
| Enhancement.SharpenLoops | js/imageProcessing.js:147-168 | the y loop writes every interior row and passes over the border rows |
| Enhancement.SharpenRow | js/imageProcessing.js:148-167 | the x loop writes every interior pixel of a row and passes over its first and last pixel |
| Enhancement.SharpenPixel | js/imageProcessing.js:152-166 | the c loop writes the three sharpened colour bytes of one interior pixel, read from the copy |
| Enhancement.SharpenedAlpha | js/imageProcessing.js:152 | alpha bytes come through the sharpen unchanged |
| Enhancement.AdvancedEnhancement | js/imageProcessing.js:142-191 | `applyAdvancedEnhancement` leaves the buffer equal to the colour pass with contrast 1.15 and saturation 1.3 of the sharpened old contents |
| Enhancement.AdvancedOfUniformGrey | js/imageProcessing.js:142-191 | the advanced level turns a uniform grey image of value v into the uniform grey contrast(v, 1.15) |
| Enhancement.SharpenedOfGrey | js/imageProcessing.js:144-168 | the sharpen keeps a uniform grey image as it is |
| Enhancement.ColourPassOfGrey | js/imageProcessing.js:174-190 | the colour pass maps a uniform grey pixel to the grey contrast(v, k) |
| Enhancement.ZipPixels | js/imageProcessing.js:215-236 | a pass that combines two buffers pixel by pixel keeps the length and the alpha bytes |
| Enhancement.ZipPixelsAt | js/imageProcessing.js:215-236 | after that pass each pixel is the combination of the same pixel of the two inputs |
| Enhancement.ZipPixelsInPlace | js/imageProcessing.js:215-236 | the `i += 4` loop of the ultra level leaves the buffer equal to that combination |
| Enhancement.UnsharpFlat | js/imageProcessing.js:218-224 | where the blur equals the denoised value the unsharp mask is a pure contrast 1.25 |
| Enhancement.Ultra | js/imageProcessing.js:200-240 | the ultra level keeps the buffer length |
| Enhancement.UltraEnhancement | js/imageProcessing.js:200-240 | `applyUltraEnhancement` leaves the buffer equal to auto levels of the unsharp mask, contrast and saturation pass over the denoised copy and its blur with sigma 1.5 |
| Enhancement.DenoiseOfUniformGrey | js/imageProcessing.js:205 | the bilateral filter keeps a uniform grey image as it is |
| Enhancement.BlurOfUniformGrey | js/imageProcessing.js:208 | the Gaussian blur keeps a uniform grey image as it is |
| Enhancement.UltraPixelOfGrey | js/imageProcessing.js:215-236 | on a uniform grey pixel the mask changes nothing but the contrast, and saturation keeps it grey |
| Enhancement.UltraKernel | js/imageProcessing.js:252-272 | the blur kernel of the ultra level is square with a positive side, and every weight is positive |
| Enhancement.UltraPassOfUniformGrey | js/imageProcessing.js:202-236 | before auto levels the ultra level maps a uniform grey image of value v to the uniform grey contrast(v, 1.25) |
| Enhancement.AutoLevelsOfGrey | js/imageProcessing.js:398-407 | auto levels maps a uniform grey image to white, or leaves it black |
| Enhancement.UltraOfUniformGrey | js/imageProcessing.js:200-240 | the ultra level turns a uniform grey image into white whenever the contrast step leaves any brightness, black otherwise |
| Enhancement.Enhanced | js/imageProcessing.js:87-105 | every level keeps the buffer length |
| Enhancement.EnhanceImageData | js/imageProcessing.js:87-105 | `enhanceImageData` leaves the buffer equal to the named level applied to its old contents |
| Enhancement.EnhancedKeepsAlpha | js/imageProcessing.js:87-105 | every level keeps every alpha byte |
| Enhancement.EnhancedUnknownLevel | js/imageProcessing.js:92-104 | a level other than basic, advanced and ultra leaves the buffer unchanged |
| EnhancementWorker.Reply | workers/imageEnhancementWorker.js:14-29 | the worker's reply keeps the buffer length |
| EnhancementWorker.OnMessage | workers/imageEnhancementWorker.js:6-34 | the switch leaves the received buffer equal to the reply for the level |
| EnhancementWorker.ReplyAgainstMainThread | workers/imageEnhancementWorker.js:14-29 | on basic, advanced and ultra the worker computes what `enhanceImageData` does; any other level gets the basic enhancement |
| EnhancementWorker.ReplyKeepsAlpha | workers/imageEnhancementWorker.js:14-29 | the reply keeps every alpha byte of the received buffer |
| ImageProcessing.EnhancementRoute | js/imageProcessing.js:11-25 | the call returns at once exactly for level none, and goes to a worker exactly for another level than none and basic when workers are supported |
| ImageProcessing.ApplyImageEnhancement | js/imageProcessing.js:11-25 | the canvas keeps its length whatever the path |
| ImageProcessing.NoneIsNoOp | js/imageProcessing.js:12 | level none leaves the canvas as it is |
| ImageProcessing.RouteIrrelevantForKnownLevels | js/imageProcessing.js:18-24 | for basic, advanced and ultra both paths give what the main thread computes |
| ImageProcessing.UnknownLevelByRoute | js/imageProcessing.js:18-24 | for any other level the worker path applies the basic enhancement and the main-thread path changes nothing |
| ImageProcessing.UnknownLevelRoutesDiffer | js/imageProcessing.js:18-24 | for level "high" one light grey pixel 200 comes out as 211 on the worker path and 200 on the main thread |
| ImageProcessing.ApplyKeepsAlpha | js/imageProcessing.js:11-25 | whatever the path, the canvas keeps its alpha bytes |
| Filters.ClampCoord | js/imageProcessing.js:290-291 | a clamped coordinate lies in [0, n - 1], is kept when inside, and goes to the nearer edge when outside |
| Filters.AverageBounds | js/imageProcessing.js:300 | a positively weighted average of values in [lo, hi] lies in [lo, hi] |
| Filters.ToInt32 | js/imageProcessing.js:252 | the int32 conversion of a bitwise operator gives a value in the int32 range congruent to the input modulo 2^32 |
| Filters.OrOne | js/imageProcessing.js:252 | `n \| 1` is odd and is n or n + 1 |
| Filters.KernelSize | js/imageProcessing.js:252 | the kernel side is odd and at least 3 |
| Filters.KernelSizeOfUltra | js/imageProcessing.js:252 | sigma 1.5 gives a 5 x 5 kernel |
| Filters.RawKernelAt | js/imageProcessing.js:259-266 | entry (i, j) of the raw kernel is the Gaussian weight of offsets (i - half, j - half) |
| Filters.NormalisedSumsToOne | js/imageProcessing.js:270-272 | dividing positive weights by their sum gives positive weights that sum to 1 |
| Filters.KernelNormalised | js/imageProcessing.js:252-272 | the kernel is square with an odd side of at least 3, positive, and sums to 1 |
| Filters.RawKernelLoop | js/imageProcessing.js:256-267 | the push loops build the raw kernel row by row, with `sum` its total |
| Filters.RawKernelRow | js/imageProcessing.js:260-266 | one inner loop pushes one row of the raw kernel and adds it to the sum |
| Filters.GaussianKernel | js/imageProcessing.js:252-272 | building and normalising in place gives the normalised Gaussian kernel |
| Filters.NeighbourIndex | js/imageProcessing.js:290-292 | the clamped neighbour's offset is a pixel start inside the buffer |
| Filters.Blurred | js/imageProcessing.js:250-306 | the blurred buffer has the input's length |
| Filters.BlurWithinWindow | js/imageProcessing.js:284-300 | a blurred byte lies between the smallest and largest value of its window |
| Filters.BlurUniform | js/imageProcessing.js:250-306 | blurring leaves a channel that holds one value everywhere as it is |
| Filters.BlurSums | js/imageProcessing.js:285-298 | the ky / kx loops compute the kernel-weighted sum of the window and the kernel's total |
| Filters.BlurSumsRow | js/imageProcessing.js:289-297 | the kx loop adds one window row to both sums |
| Filters.BlurTap | js/imageProcessing.js:290-296 | one step reads the clamped neighbour and adds its byte times its kernel weight, and the weight |
| Filters.WindowEntry | js/imageProcessing.js:290-295 | the window entry at offset (kx, ky) is the byte of the clamped neighbour |
| Filters.BlurChannel | js/imageProcessing.js:284-300 | one stored `sum / kernelSum` is the blurred byte of that channel |
| Filters.CopyAlpha | js/imageProcessing.js:275-277 | the alpha loop copies every alpha byte and changes no colour byte |
| Filters.GaussianBlur | js/imageProcessing.js:250-306 | `applyGaussianBlur` returns the input's alpha and every colour byte blurred with the normalised kernel |
| Filters.BlurredAt | js/imageProcessing.js:280-303 | colour byte c of pixel (x, y) of the blurred buffer is that pixel's blurred channel |
| Filters.BlurImage | js/imageProcessing.js:274-305 | the alpha copy and the pixel loops give the blurred buffer |
| Filters.BlurLoops | js/imageProcessing.js:280-303 | the y loop fills the blurred colour bytes of every pixel |
| Filters.BlurRow | js/imageProcessing.js:281-302 | the x loop fills one row |
| Filters.BlurPixel | js/imageProcessing.js:282-301 | the c loop fills the three colour bytes of one pixel |
| Filters.WriteChannel | js/imageProcessing.js:300 | one store writes one colour byte and nothing else |
| Filters.FilledComplete | js/imageProcessing.js:305 | once every pixel is written the result buffer is the filtered image |
| Filters.BilateralWeights | js/imageProcessing.js:338-359 | a 5 x 5 window has 25 weights |
| Filters.BilateralWeightsPositive | js/imageProcessing.js:349-359 | each weight, a product of two exponentials, is positive |
| Filters.Bilateral | js/imageProcessing.js:315-375 | the filtered buffer has the input's length |
| Filters.BilateralWithinWindow | js/imageProcessing.js:338-370 | a filtered byte lies between the smallest and largest value of its window, so the rounded average is already a byte |
| Filters.BilateralUniform | js/imageProcessing.js:315-375 | filtering leaves a channel that holds one value everywhere as it is |
| Filters.BilateralAtPixel | js/imageProcessing.js:327-371 | colour byte c of pixel (x, y) of the filtered buffer is that pixel's filtered channel |
| Filters.BilateralFilter | js/imageProcessing.js:315-375 | `applySimplifiedBilateralFilter` returns the input's alpha and every colour byte as its rounded weighted window average |
| Filters.BilateralLoops | js/imageProcessing.js:327-372 | the y loop fills every pixel |
| Filters.BilateralRow | js/imageProcessing.js:328-371 | the x loop fills one row |
| Filters.WritePixel | js/imageProcessing.js:368-370 | the three stores write one pixel's colour bytes |
| Filters.BilateralValues | js/imageProcessing.js:331-370 | the centre colour, the four sums and the three rounded averages are the filtered channels of the pixel |
| Filters.BilateralSums | js/imageProcessing.js:335-366 | the ky / kx loops give the weighted sums of the three channels and the total weight |
| Filters.BilateralSumsRow | js/imageProcessing.js:339-365 | the kx loop adds one window row to the four sums |
| Filters.BilateralNeighbour | js/imageProcessing.js:340-364 | one step reads the clamped neighbour, weighs it and adds it to the four sums |
| Filters.BilateralEntry | js/imageProcessing.js:349 | window entry (ky + 2, kx + 2) is at spatial distance kx * kx + ky * ky |
| Filters.BilateralNeighbourEntry | js/imageProcessing.js:340-359 | that entry of the weights and of the three channel windows is read at the clamped neighbour |

## Left out

- Floating-point rounding: every computation is exact real arithmetic. The drift of `currentTime += step` in js/detection.js and the binary rounding of the filter weights are not modelled. The frame schedules require `frameSkip > 0` and `interval >= 1`; other settings are not modelled.
- `Math.exp` is a parameter, required only to be positive. `Math.sqrt` in `areSimilarObjects` is avoided by comparing squared distances, which is equivalent for the non-negative values involved.
- `localeCompare` in the type sort is modelled as code-unit order.
- The neural detector (`cocoSsd.load`, `model.detect`) is a parameter `detectAt`, giving only the coco-ssd predictions, and model loading is a flag. Where a `catch` surrounds it, a `model.detect` that throws gives no predictions: in `detectObjectsInCurrentFrame` (detection.js:410-413), in the inner `catch` of the retry (detection.js:451-453), and in the per-frame `catch` of js/detection.js, where `detectAt` gives `None`.
- The secondary classifier of js/detection.js (`mobilenet.classify`, js/detection.js:228-242, and its `catch`) is not modelled, and neither are the `refinedClassName` and `subcategories` fields it spreads into a stored object (js/detection.js:255).
- VideoDetection.DetectionState.ProcessFrame: the per-frame `try` of js/detection.js (162-277) also surrounds the prediction loop, where the awaited `applyImageEnhancement` (js/detection.js:223, rejecting on the worker's `{error}` reply), `toDataURL` (246) and the `drawImage` calls can throw. A throw after the frame's first `set` (249) keeps the entries already set and skips the rest of the frame; this partial frame is not modelled, and the model either merges the whole frame or, on `None`, none of it.
- Detector.FrameDetectionsKept: the per-object `catch` of `detectObjectsInCurrentFrame` (detection.js:403) skips only an object whose `extractAndEnhanceObjectImage` (393) throws, and in the retry the same call (440) is inside the inner `try`, so a throw there drops the rest of that probe. Neither path is modelled; `enhanceObjectImage` catches its own errors (565), which leaves little in the extraction that can throw.
- Seeking and drawing in detection.js are the parameter `seekFails`. A seek that throws in the pass is caught per frame and skips that frame (detection.js:229-232). In the retry it reaches the outer `catch`, which discards every probe (detection.js:458-461).
- App.AppState.ProcessVideo: app.js has no per-frame `catch`. A frame that throws is the parameter `fails`, and it ends the loop in the outer `catch` (app.js:482-486) with the earlier frames' objects kept and nothing shown. A throw partway through one frame's predictions (the `drawImage` or `toDataURL` of one object) is not modelled; the model lets the whole frame fail before its first object. What the completion callback does once `finished` holds (`renderObjects`, `addToHistory`) is modelled by those methods, and its `videosLeft` counter in `localStorage` is not modelled.
- Text.ToLower: `toLowerCase` is modelled on ASCII letters only; the lower-casing of other Unicode letters is not modelled.
- A `maxDetections` setting that is not a number (NaN) is not modelled; the cap is `min(maxDetections, 20)` on integers.
- Canvas work is not modelled: `drawImage`, `toDataURL`, `getImageData`/`putImageData`, thumbnails, image enhancement inside `processVideoFrames`, and the debug overlay. Only the rectangle arithmetic is kept. Canvas sizes are integers, and the conversion of a fractional size to an integer canvas dimension is not modelled.
- The aspect fit and the crop placement require a positive height (zero-sized crops and canvases are excluded) because the source then divides by zero.
- Clocks and randomness: `Date.now()` is one instant `now` passed to each call. The random IP address of `getIPAddress` is a constructor argument. `generateUniqueId` is not modelled.
- The `isProcessing` flag of the page script (app.js:9, 322-368), the progress animation, `setTimeout`/`setInterval` trampolining, `seekVideoToTime` and `waitForModel` polling are asynchronous UI plumbing. The worker offload of `applyImageEnhancement` and its timeout fallback are reduced to a choice between the worker path and the main-thread path. The fallback (js/imageProcessing.js:41-49) runs on an `imageData` whose buffer was already transferred to the worker (line 77); under the HTML standard `putImageData` of a detached buffer throws, which would leave the promise unsettled; this path is not modelled.
- For a level other than `none`, `basic`, `advanced` and `ultra`, the two routes disagree: the worker falls back to `basic` (workers/imageEnhancementWorker.js:27) while `enhanceImageData` leaves the pixels as they are (js/imageProcessing.js:92-104). `ImageProcessing.UnknownLevelByRoute` states both behaviours and `ImageProcessing.UnknownLevelRoutesDiffer` gives a pixel on which they differ; neither route is evidently the intended one, so the model keeps both.
- Detector.ObjectDetector.ProcessVideo: the outer `catch` (detection.js:282-291) is not modelled. It handles an error outside a frame, such as reading the video's metadata or a callback that throws. It clears the busy flag, and it hands over partial results only when deduplication had already filled them. Every modelled step succeeds, so the model always takes the success path. The first-frame thumbnail of the results is canvas work and is left out.
- Detector.ObjectDetector.WaitForModel: the source polls until a pending `loadModel` succeeds, and waits forever if none does. The model lets the load finish at that point, so that endless wait is not modelled.
- The `timestamp: new Date()` of a history entry is the parameter `date`, a number. The page keeps the history in `localStorage` under `videoHistory`; the model keeps that copy as the field `storedHistory`. The JSON serialisation of the copy, which turns the date into a string, is not modelled.
- `adjustCanvasResolution` inside `processVideo` of js/detection.js is the same function as `Utils.AdjustCanvasResolution` and is not modelled a second time.
- `filterAndImproveDetections`: the key of a plain JavaScript object used as a map is modelled as a lookup by exact class string, and `for … in` enumeration as first-insertion order. Keys that collide with `Object.prototype` members are not modelled, and neither is the error path that returns the input already re-sorted in place (and aliased with it).
- Tracker boxes have integer coordinates. Fractional boxes, which would make typed-array reads at fractional indices `undefined`, are not modelled.
- `prepareFrameForDetection` requires a buffer of exactly `4 * width * height` bytes. Division by a zero brightness sum is modelled as NaN; `Infinity` never arises in the modelled paths.
- Errors thrown inside either worker's `onmessage`, and the `{error}` reply they produce, are not modelled. The transfer lists of `postMessage` are not modelled either.
- The `objects` field of the analysis stored by `addToHistory` (storage.js) is not modelled; only thumbnail, file name, object count and duration are kept.
- `formatFileSize`, exports (js/exports.js, `generatePresentationExport`, the PDF and presentation exports of app.js), js/ui.js, settings.js, login and navigation are UI glue, outside this model.

## Findings

| source | as written | input that shows it | evidently intended | confidence | as-written member | corrected member |
|---|---|---|---|---|---|---|
| js/detection.js:78-80 | `await this.loadModels()` runs after `processingVideo = true` but before the `try` whose `finally` clears the flag (82-119), so a failed load leaves the detector busy for good | a first call with no model loaded and a load that throws, then any second call, which is turned away as busy | a failed load clears the busy flag like any other failure | not executed | VideoDetection.DetectionState.ProcessVideoAsWritten, VideoDetection.StuckAfterFailedLoad | VideoDetection.DetectionState.ProcessVideo, VideoDetection.RecoversAfterFailedLoad |
