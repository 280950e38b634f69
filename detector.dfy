/**
  The root `ObjectDetector` (detection.js) around the neural detector: the
  per-frame threshold and cap, the sampling pass over the video, the
  lower-threshold retry after an empty pass, the busy guard of
  `processVideo`, and the margin arithmetic of the object crop. The detector itself is a parameter `detectAt` giving the
  predictions for the frame at a time; a `detect` that throws yields no
  predictions, as the source's `catch` blocks do. The parameter `seekFails`
  says at which times seeking the video and drawing the frame throw: the
  pass then skips that frame, and the retry then gives up altogether.
*/
module Detector {

  import opened Wrappers
  import opened Predictions
  import opened Seqs
  import Sampling
  import Dedup

  // ---------------------------------------------------------------------
  // detectObjectsInCurrentFrame
  // ---------------------------------------------------------------------

  /** `Math.max(0.25, confidenceThreshold * 0.7)`: the frame threshold is a relaxed user threshold. */
  function EffectiveThreshold(confidenceThreshold: real): real {
    if 0.25 >= confidenceThreshold * 0.7 then 0.25 else confidenceThreshold * 0.7
  }

  /** `Math.min(maxDetections, 20)`. */
  function FrameCap(maxDetections: int): int {
    if maxDetections < 20 then maxDetections else 20
  }

  /** `Array.prototype.slice(0, end)` for an integer `end`; a negative `end` counts from the back. */
  function SliceTo<T>(s: seq<T>, end: int): (r: seq<T>)
    ensures |r| <= |s| && r == s[..|r|]
    ensures end >= 0 ==> |r| == if end < |s| then end else |s|
    ensures end < 0 ==> |r| == if |s| + end > 0 then |s| + end else 0
  {
    if end >= 0 then (if end < |s| then s[..end] else s)
    else if |s| + end > 0 then s[..|s| + end]
    else []
  }

  /** The detections a loaded model keeps from `predictions` for the frame at `time`. */
  function FrameDetections(loaded: bool, predictions: seq<Prediction>, confidenceThreshold: real,
                           maxDetections: int, time: real): seq<Detection>
  {
    if !loaded then []
    else
      var kept := Filter(predictions, ScoreAtLeast(EffectiveThreshold(confidenceThreshold)));
      StampAll(SliceTo(kept, FrameCap(maxDetections)), time)
  }

  /** The result loop of `detectObjectsInCurrentFrame`. */
  method DetectObjectsInCurrentFrame(loaded: bool, predictions: seq<Prediction>, confidenceThreshold: real,
                                     maxDetections: int, currentTime: real) returns (results: seq<Detection>)
    ensures results == FrameDetections(loaded, predictions, confidenceThreshold, maxDetections, currentTime)
  {
    if !loaded {
      return [];
    }
    var threshold := EffectiveThreshold(confidenceThreshold);
    var filtered := SliceTo(Filter(predictions, ScoreAtLeast(threshold)), FrameCap(maxDetections));
    results := [];
    for i := 0 to |filtered|
      invariant results == StampAll(filtered[..i], currentTime)
    {
      results := results + [Stamp(filtered[i], currentTime)];
    }
    assert filtered[..|filtered|] == filtered;
  }

  /**
    A frame's detections all clear the effective threshold, carry the frame's
    time, number at most `min(maxDetections, 20)` and keep the detector's order;
    without a loaded model there are none.
  */
  lemma {:induction false} FrameDetectionsKept(loaded: bool, predictions: seq<Prediction>, confidenceThreshold: real,
                            maxDetections: int, time: real)
    ensures var r := FrameDetections(loaded, predictions, confidenceThreshold, maxDetections, time);
      && (!loaded ==> r == [])
      && (forall i :: 0 <= i < |r| ==> r[i].score >= EffectiveThreshold(confidenceThreshold) && r[i].time == time)
      && (maxDetections >= 0 ==> |r| <= FrameCap(maxDetections))
      && IsSubsequence(seq(|r|, i requires 0 <= i < |r| => Unstamp(r[i])), predictions)
      && (loaded && maxDetections >= 0 ==>
            var kept := Filter(predictions, ScoreAtLeast(EffectiveThreshold(confidenceThreshold)));
            && |r| == (if |kept| < FrameCap(maxDetections) then |kept| else FrameCap(maxDetections))
            && forall i :: 0 <= i < |r| ==> Unstamp(r[i]) == kept[i])
  {
    var r := FrameDetections(loaded, predictions, confidenceThreshold, maxDetections, time);
    var back := seq(|r|, i requires 0 <= i < |r| => Unstamp(r[i]));
    if loaded {
      var kept := Filter(predictions, ScoreAtLeast(EffectiveThreshold(confidenceThreshold)));
      var sliced := SliceTo(kept, FrameCap(maxDetections));
      assert back == sliced;
      forall i | 0 <= i < |r| ensures r[i].score >= EffectiveThreshold(confidenceThreshold) {
        assert sliced[i] == kept[i];
      }
      FilterIsSubsequence(predictions, ScoreAtLeast(EffectiveThreshold(confidenceThreshold)));
      SubsequencePrefix(kept, |sliced|, predictions);
    } else {
      assert back == [];
    }
  }

  /**
    The first qualifying predictions are the ones kept: the prediction at
    position `j` that clears the threshold, with `rank` qualifying ones
    before it, is reported at position `rank`, stamped with the time,
    whenever `rank` is below `min(maxDetections, 20)`. Under the cap that is
    every qualifying prediction.
  */
  lemma {:induction false} FrameDetectionsComplete(predictions: seq<Prediction>, confidenceThreshold: real,
                                maxDetections: int, time: real, j: nat)
    requires j < |predictions| && predictions[j].score >= EffectiveThreshold(confidenceThreshold)
    requires |Filter(predictions[..j], ScoreAtLeast(EffectiveThreshold(confidenceThreshold)))| < FrameCap(maxDetections)
    ensures var rank := |Filter(predictions[..j], ScoreAtLeast(EffectiveThreshold(confidenceThreshold)))|;
      var r := FrameDetections(true, predictions, confidenceThreshold, maxDetections, time);
      rank < |r| && r[rank] == Stamp(predictions[j], time)
  {
    var q := ScoreAtLeast(EffectiveThreshold(confidenceThreshold));
    var rank := |Filter(predictions[..j], q)|;
    FilterAt(predictions, q, j);
    var kept := Filter(predictions, q);
    var sliced := SliceTo(kept, FrameCap(maxDetections));
    assert rank < |sliced| && sliced[rank] == kept[rank];
  }

  /** A satisfying element at `j` follows the satisfying elements before it in the filtered sequence. */
  lemma {:induction false} FilterAt<T>(s: seq<T>, p: T -> bool, j: nat)
    requires j < |s| && p(s[j])
    ensures |Filter(s[..j], p)| < |Filter(s, p)| && Filter(s, p)[|Filter(s[..j], p)|] == s[j]
  {
    assert s == s[..j] + ([s[j]] + s[j + 1..]);
    FilterConcat(s[..j], [s[j]] + s[j + 1..], p);
    assert ([s[j]] + s[j + 1..])[1..] == s[j + 1..];
  }

  // ---------------------------------------------------------------------
  // The sampling pass of processVideo
  // ---------------------------------------------------------------------

  /** The detections of one sampling point; a frame whose seek or drawing throws is skipped by the per-frame `catch`. */
  function PointDetections(time: real, loaded: bool, detectAt: real -> seq<Prediction>, seekFails: real -> bool,
                           confidenceThreshold: real, maxDetections: int): seq<Detection>
  {
    if seekFails(time) then [] else FrameDetections(loaded, detectAt(time), confidenceThreshold, maxDetections, time)
  }

  /** Frame detections of every sampling point, concatenated in order. */
  function PassDetections(points: seq<real>, loaded: bool, detectAt: real -> seq<Prediction>, seekFails: real -> bool,
                          confidenceThreshold: real, maxDetections: int): seq<Detection>
  {
    if points == [] then []
    else
      var last := points[|points| - 1];
      PassDetections(points[..|points| - 1], loaded, detectAt, seekFails, confidenceThreshold, maxDetections)
        + PointDetections(last, loaded, detectAt, seekFails, confidenceThreshold, maxDetections)
  }

  /** The frame loop of `processVideo`: every sampling point in turn, counting what is found. */
  method DetectionPass(points: seq<real>, loaded: bool, detectAt: real -> seq<Prediction>, seekFails: real -> bool,
                       confidenceThreshold: real, maxDetections: int)
    returns (allDetections: seq<Detection>, totalDetections: nat)
    ensures allDetections == PassDetections(points, loaded, detectAt, seekFails, confidenceThreshold, maxDetections)
    ensures totalDetections == |allDetections|
  {
    allDetections, totalDetections := [], 0;
    for i := 0 to |points|
      invariant allDetections == PassDetections(points[..i], loaded, detectAt, seekFails, confidenceThreshold, maxDetections)
      invariant totalDetections == |allDetections|
    {
      var currentTime := points[i];
      assert points[..i + 1][..i] == points[..i];
      if seekFails(currentTime) {
        continue;
      }
      var frameDetections := DetectObjectsInCurrentFrame(loaded, detectAt(currentTime), confidenceThreshold,
                                                         maxDetections, currentTime);
      if |frameDetections| > 0 {
        totalDetections := totalDetections + |frameDetections|;
        allDetections := allDetections + frameDetections;
      }
    }
    assert points[..|points|] == points;
  }

  /** Every detection of the pass comes from one of the sampling points and clears the frame threshold. */
  lemma {:induction false} PassDetectionsFromPoints(points: seq<real>, loaded: bool, detectAt: real -> seq<Prediction>,
                                                    seekFails: real -> bool, confidenceThreshold: real, maxDetections: int)
    ensures var r := PassDetections(points, loaded, detectAt, seekFails, confidenceThreshold, maxDetections);
      forall d :: d in r ==> d.time in points && !seekFails(d.time) && d.score >= EffectiveThreshold(confidenceThreshold)
    ensures !loaded ==> PassDetections(points, loaded, detectAt, seekFails, confidenceThreshold, maxDetections) == []
  {
    if points != [] {
      var init := points[..|points| - 1];
      var last := points[|points| - 1];
      PassDetectionsFromPoints(init, loaded, detectAt, seekFails, confidenceThreshold, maxDetections);
      FrameDetectionsKept(loaded, detectAt(last), confidenceThreshold, maxDetections, last);
      forall d | d in PassDetections(points, loaded, detectAt, seekFails, confidenceThreshold, maxDetections)
        ensures d.time in points && !seekFails(d.time) && d.score >= EffectiveThreshold(confidenceThreshold)
      {
        if d in PassDetections(init, loaded, detectAt, seekFails, confidenceThreshold, maxDetections) {
          assert d.time in init;
        } else {
          var f := PointDetections(last, loaded, detectAt, seekFails, confidenceThreshold, maxDetections);
          assert d in f;
          var i :| 0 <= i < |f| && f[i] == d;
        }
      }
    }
  }

  // ---------------------------------------------------------------------
  // retryDetectionWithLowerThreshold
  // ---------------------------------------------------------------------

  /** The retry keeps every prediction scoring at least 0.1. */
  const RetryThreshold: real := 0.1

  /** `[0, duration / 2, Math.max(0, duration - 1)]`. */
  function RetryTimes(duration: real): seq<real> {
    [0.0, duration / 2.0, if 0.0 >= duration - 1.0 then 0.0 else duration - 1.0]
  }

  /** The predictions of one probe scoring at least 0.1, stamped with the probe time, in order. */
  function RetryKept(predictions: seq<Prediction>, time: real): seq<Detection> {
    if predictions == [] then []
    else
      var last := predictions[|predictions| - 1];
      RetryKept(predictions[..|predictions| - 1], time) + (if last.score >= RetryThreshold then [Stamp(last, time)] else [])
  }

  /** A probe keeps exactly its predictions scoring at least 0.1. */
  lemma {:induction false} RetryKeptSpec(predictions: seq<Prediction>, time: real)
    ensures forall d :: d in RetryKept(predictions, time) ==> d.time == time && d.score >= RetryThreshold
    ensures forall p :: p in predictions && p.score >= RetryThreshold ==> Stamp(p, time) in RetryKept(predictions, time)
  {
    if predictions != [] {
      var init := predictions[..|predictions| - 1];
      RetryKeptSpec(init, time);
      assert predictions == init + [predictions[|predictions| - 1]];
    }
  }

  /** The retry's detections at `times`, in order; without a model `detect` throws and nothing is found. */
  function RetryDetections(times: seq<real>, loaded: bool, detectAt: real -> seq<Prediction>): seq<Detection> {
    if times == [] || !loaded then []
    else
      var last := times[|times| - 1];
      RetryDetections(times[..|times| - 1], loaded, detectAt) + RetryKept(detectAt(last), last)
  }

  /** Every probe's seek and drawing succeed. */
  predicate ProbesSeek(times: seq<real>, seekFails: real -> bool) {
    forall t :: t in times ==> !seekFails(t)
  }

  /**
    What the retry returns: a seek or drawing that throws at any probe ends in
    the outer `catch`, which discards the probes already done.
  */
  function RetryOutcome(times: seq<real>, loaded: bool, detectAt: real -> seq<Prediction>, seekFails: real -> bool): seq<Detection> {
    if ProbesSeek(times, seekFails) then RetryDetections(times, loaded, detectAt) else []
  }

  /** The loops of `retryDetectionWithLowerThreshold`. */
  method RetryDetectionWithLowerThreshold(duration: real, loaded: bool, detectAt: real -> seq<Prediction>,
                                          seekFails: real -> bool)
    returns (allDetections: seq<Detection>)
    ensures allDetections == RetryOutcome(RetryTimes(duration), loaded, detectAt, seekFails)
  {
    var timePoints := RetryTimes(duration);
    allDetections := [];
    for n := 0 to |timePoints|
      invariant allDetections == RetryDetections(timePoints[..n], loaded, detectAt)
      invariant ProbesSeek(timePoints[..n], seekFails)
    {
      var time := timePoints[n];
      assert timePoints[..n + 1][..n] == timePoints[..n];
      assert timePoints[..n + 1] == timePoints[..n] + [time];
      if seekFails(time) {
        assert time in timePoints;
        return [];
      }
      if loaded {
        var found := RetryFrame(detectAt(time), time);
        allDetections := allDetections + found;
      }
    }
    assert timePoints[..|timePoints|] == timePoints;
  }

  /** The inner loop of the retry over one probe's predictions. */
  method RetryFrame(predictions: seq<Prediction>, time: real) returns (found: seq<Detection>)
    ensures found == RetryKept(predictions, time)
  {
    found := [];
    for k := 0 to |predictions|
      invariant found == RetryKept(predictions[..k], time)
    {
      assert predictions[..k + 1][..k] == predictions[..k];
      if predictions[k].score >= RetryThreshold {
        found := found + [Stamp(predictions[k], time)];
      }
    }
    assert predictions[..|predictions|] == predictions;
  }

  /**
    The retry probes exactly the start, the middle and the last second of the
    video: each detection is at one of those times and scores at least 0.1,
    and every such prediction at those times is kept.
  */
  lemma {:induction false} RetryDetectionsSpec(times: seq<real>, loaded: bool, detectAt: real -> seq<Prediction>)
    ensures forall d :: d in RetryDetections(times, loaded, detectAt) ==> d.time in times && d.score >= RetryThreshold
    ensures loaded ==> forall t, p :: t in times && p in detectAt(t) && p.score >= RetryThreshold ==>
                        Stamp(p, t) in RetryDetections(times, loaded, detectAt)
  {
    if times != [] && loaded {
      var init, last := times[..|times| - 1], times[|times| - 1];
      RetryDetectionsSpec(init, loaded, detectAt);
      RetryKeptSpec(detectAt(last), last);
      forall t, p | t in times && p in detectAt(t) && p.score >= RetryThreshold
        ensures Stamp(p, t) in RetryDetections(times, loaded, detectAt)
      {
        if t != last {
          assert t in init;
        }
      }
    }
  }

  /** The retry probes start at 0 and never go before the start of the video. */
  lemma {:induction false} RetryTimesInside(duration: real)
    requires duration >= 0.0
    ensures forall t :: t in RetryTimes(duration) ==> 0.0 <= t <= duration
    ensures RetryTimes(duration)[0] == 0.0
  {
  }

  /**
    The retry keeps only detections at probe times scoring at least 0.1, and
    nothing at all once a probe's seek or drawing throws; when every probe
    seeks and a model is loaded, every such prediction is kept.
  */
  lemma {:induction false} RetryOutcomeSpec(times: seq<real>, loaded: bool, detectAt: real -> seq<Prediction>, seekFails: real -> bool)
    ensures var r := RetryOutcome(times, loaded, detectAt, seekFails);
      && (forall d :: d in r ==> d.time in times && d.score >= RetryThreshold)
      && ((exists t :: t in times && seekFails(t)) ==> r == [])
      && (loaded && ProbesSeek(times, seekFails) ==>
            forall t, p :: t in times && p in detectAt(t) && p.score >= RetryThreshold ==> Stamp(p, t) in r)
  {
    RetryDetectionsSpec(times, loaded, detectAt);
  }

  // ---------------------------------------------------------------------
  // processVideo: pass, retry decision, deduplication
  // ---------------------------------------------------------------------

  /** `totalDetections === 0 && this.retryOnFailure`. */
  predicate NeedsRetry(totalDetections: int, retryOnFailure: bool) {
    totalDetections == 0 && retryOnFailure
  }

  /** Detections collected before deduplication: the pass, and the retry when the pass found nothing. */
  function Collected(duration: real, loaded: bool, detectAt: real -> seq<Prediction>, seekFails: real -> bool,
                     confidenceThreshold: real, maxDetections: int, retryOnFailure: bool): seq<Detection>
  {
    var pass := PassDetections(Sampling.SamplingPlan(duration), loaded, detectAt, seekFails, confidenceThreshold, maxDetections);
    if NeedsRetry(|pass|, retryOnFailure) then pass + RetryOutcome(RetryTimes(duration), loaded, detectAt, seekFails)
    else pass
  }

  /** The detection part of `processVideo`: sampling plan, pass, retry decision and final filtering. */
  method DetectVideo(duration: real, loaded: bool, detectAt: real -> seq<Prediction>, seekFails: real -> bool,
                     confidenceThreshold: real, maxDetections: int, retryOnFailure: bool)
    returns (objects: seq<Detection>)
    ensures objects == Dedup.Improved(Collected(duration, loaded, detectAt, seekFails, confidenceThreshold, maxDetections, retryOnFailure))
  {
    var timePoints := Sampling.CalculateSamplingPoints(duration);
    var allDetections, totalDetections := DetectionPass(timePoints, loaded, detectAt, seekFails, confidenceThreshold, maxDetections);
    if totalDetections == 0 && retryOnFailure {
      var extraDetections := RetryDetectionWithLowerThreshold(duration, loaded, detectAt, seekFails);
      if |extraDetections| > 0 {
        allDetections := allDetections + extraDetections;
      }
    }
    objects := Dedup.FilterAndImproveDetections(allDetections);
  }

  /** The retry runs only after a pass that found nothing: otherwise the pass alone is kept. */
  lemma {:induction false} RetryOnlyAfterEmptyPass(duration: real, loaded: bool, detectAt: real -> seq<Prediction>,
                                seekFails: real -> bool, confidenceThreshold: real, maxDetections: int, retryOnFailure: bool)
    ensures var pass := PassDetections(Sampling.SamplingPlan(duration), loaded, detectAt, seekFails, confidenceThreshold, maxDetections);
      var all := Collected(duration, loaded, detectAt, seekFails, confidenceThreshold, maxDetections, retryOnFailure);
      && (pass != [] || !retryOnFailure ==> all == pass)
      && (pass == [] && retryOnFailure ==> all == RetryOutcome(RetryTimes(duration), loaded, detectAt, seekFails))
  {
  }

  /** What `processVideo` hands to `completionCallback`, without the first-frame thumbnail (canvas work). */
  datatype DetectionResults = DetectionResults(fileName: string, duration: real, objectCount: int, objects: seq<Detection>)

  /** The flags of the detector object that `loadModel` and `processVideo` read and set. */
  class ObjectDetector {
    var isModelLoaded: bool
    var isProcessing: bool
    var retryOnFailure: bool

    /** No model yet, idle, and retry after an empty pass enabled. */
    constructor()
      ensures !isModelLoaded && !isProcessing && retryOnFailure
    {
      isModelLoaded := false;
      isProcessing := false;
      retryOnFailure := true;
    }

    /** `loadModel`: either model variant loading sets the flag; a failure of both leaves it as it was. */
    method LoadModel(succeeded: bool)
      modifies this
      ensures isModelLoaded == (old(isModelLoaded) || succeeded)
      ensures isProcessing == old(isProcessing) && retryOnFailure == old(retryOnFailure)
    {
      if succeeded {
        isModelLoaded := true;
      }
    }

    /**
      `waitForModel`: polls the flag until it is set, so it returns only once
      the pending load has finished; the model lets that load finish here.
    */
    method WaitForModel()
      modifies this
      ensures isModelLoaded
      ensures isProcessing == old(isProcessing) && retryOnFailure == old(retryOnFailure)
    {
      LoadModel(true);
    }

    /**
      `processVideo`: a call while another is running is turned away (no
      callback); otherwise the detector is busy while it waits for the model and
      detects, and is idle again when the results are handed over.
    */
    method ProcessVideo(fileName: string, duration: real, detectAt: real -> seq<Prediction>, seekFails: real -> bool,
                        confidenceThreshold: real, maxDetections: int)
      returns (r: Option<DetectionResults>)
      modifies this
      ensures old(isProcessing) ==> r == None && isProcessing && isModelLoaded == old(isModelLoaded)
      ensures !old(isProcessing) ==>
        var objects := Dedup.Improved(Collected(duration, true, detectAt, seekFails, confidenceThreshold, maxDetections, retryOnFailure));
        r == Some(DetectionResults(fileName, duration, |objects|, objects)) && !isProcessing && isModelLoaded
      ensures retryOnFailure == old(retryOnFailure)
    {
      if isProcessing {
        return None;
      }
      isProcessing := true;
      if !isModelLoaded {
        WaitForModel();
      }
      var objects := DetectVideo(duration, isModelLoaded, detectAt, seekFails, confidenceThreshold, maxDetections, retryOnFailure);
      isProcessing := false;
      r := Some(DetectionResults(fileName, duration, |objects|, objects));
    }
  }

  /** The busy flag is cleared on completion: two videos processed one after the other both produce results. */
  method ConsecutiveVideos(duration: real, detectAt: real -> seq<Prediction>, seekFails: real -> bool,
                           confidenceThreshold: real, maxDetections: int)
    returns (first: Option<DetectionResults>, second: Option<DetectionResults>)
    ensures first.Some? && second.Some?
    ensures first.value.objects == second.value.objects
    ensures first.value.objectCount == |first.value.objects|
  {
    var d := new ObjectDetector();
    first := d.ProcessVideo("a", duration, detectAt, seekFails, confidenceThreshold, maxDetections);
    second := d.ProcessVideo("b", duration, detectAt, seekFails, confidenceThreshold, maxDetections);
  }

  // ---------------------------------------------------------------------
  // extractAndEnhanceObjectImage: the source rectangle
  // ---------------------------------------------------------------------

  /** A rectangle on the frame canvas. */
  datatype Rect = Rect(x: real, y: real, width: real, height: real)

  /** `Math.max(10, side * 0.15)`: the margin added around a side. */
  function Margin(side: real): (m: real)
    ensures m >= 10.0 && m >= side * 0.15
  {
    if 10.0 >= side * 0.15 then 10.0 else side * 0.15
  }

  /** The part of the frame copied into the object canvas: the box grown by its margins, clipped. */
  function CropSource(b: BBox, canvasWidth: real, canvasHeight: real): Rect {
    var marginX, marginY := Margin(b.width), Margin(b.height);
    var sourceX := if 0.0 >= b.x - marginX then 0.0 else b.x - marginX;
    var sourceY := if 0.0 >= b.y - marginY then 0.0 else b.y - marginY;
    Rect(sourceX, sourceY,
         if canvasWidth - sourceX <= b.width + marginX * 2.0 then canvasWidth - sourceX else b.width + marginX * 2.0,
         if canvasHeight - sourceY <= b.height + marginY * 2.0 then canvasHeight - sourceY else b.height + marginY * 2.0)
  }

  /** The size of the object canvas: the box plus both margins on each axis. */
  function ObjectCanvasSize(b: BBox): (size: (real, real))
    ensures size.0 >= b.width + 20.0 && size.1 >= b.height + 20.0
  {
    (b.width + Margin(b.width) * 2.0, b.height + Margin(b.height) * 2.0)
  }

  /**
    The source rectangle starts inside the frame, ends at its right and bottom
    edges at the latest, is no larger than the object canvas, and contains the
    box whenever the box lies within the frame.
  */
  lemma {:induction false} CropSourceInside(b: BBox, canvasWidth: real, canvasHeight: real)
    ensures var r := CropSource(b, canvasWidth, canvasHeight);
      && r.x >= 0.0 && r.y >= 0.0
      && r.x + r.width <= canvasWidth && r.y + r.height <= canvasHeight
      && r.width <= ObjectCanvasSize(b).0 && r.height <= ObjectCanvasSize(b).1
      && (0.0 <= b.x && 0.0 <= b.width && b.x + b.width <= canvasWidth ==> r.x <= b.x && b.x + b.width <= r.x + r.width)
      && (0.0 <= b.y && 0.0 <= b.height && b.y + b.height <= canvasHeight ==> r.y <= b.y && b.y + b.height <= r.y + r.height)
  {
  }
}
