/**
  The module detector `DETECTION` (js/detection.js): a state object holding
  the unique-object map, the final object list and the busy flag, the
  fixed-step frame loop that feeds every prediction through the map-update
  rule, and the finalisation that turns the map into a list sorted by
  confidence. The detector is a parameter `detectAt`; `None` stands for a
  frame whose seek or detection threw, which the source skips.
*/
module VideoDetection {

  import opened Wrappers
  import opened Predictions
  import opened Sorting
  import Text
  import Sampling
  import Utils

  /** The settings `processVideoFrames` reads. */
  datatype Settings = Settings(confidenceThreshold: real, frameSkip: int, padding: real)

  /** A stored object: class as detected, score, frame time and padded box (thumbnail and secondary labels are not modelled). */
  datatype StoredObject = StoredObject(className: string, confidence: real, frameTime: real, bbox: BBox)

  /** One entry of `uniqueObjectsMap`; the sequence keeps the `Map`'s insertion order. */
  datatype Entry = Entry(key: string, obj: StoredObject)

  // ---------------------------------------------------------------------
  // The insertion-ordered map
  // ---------------------------------------------------------------------

  /** Position of `key`, or -1 when absent (`Map.prototype.has`). */
  function Find(m: seq<Entry>, key: string): (r: int)
    ensures -1 <= r < |m|
    ensures r >= 0 ==> m[r].key == key && forall j :: 0 <= j < r ==> m[j].key != key
    ensures r == -1 <==> forall j :: 0 <= j < |m| ==> m[j].key != key
  {
    if m == [] then -1
    else if m[|m| - 1].key == key && Find(m[..|m| - 1], key) == -1 then |m| - 1
    else Find(m[..|m| - 1], key)
  }

  /** `Map.prototype.set`: an existing key keeps its place, a new key goes last. */
  function MapSet(m: seq<Entry>, key: string, obj: StoredObject): seq<Entry> {
    var i := Find(m, key);
    if i >= 0 then m[i := Entry(key, obj)] else m + [Entry(key, obj)]
  }

  /** `Array.from(map.values())`. */
  function Values(m: seq<Entry>): (vs: seq<StoredObject>)
    ensures |vs| == |m| && forall i :: 0 <= i < |m| ==> vs[i] == m[i].obj
  {
    seq(|m|, i requires 0 <= i < |m| => m[i].obj)
  }

  predicate KeysDistinct(m: seq<Entry>) {
    forall i, j :: 0 <= i < j < |m| ==> m[i].key != m[j].key
  }

  /** After a `set`, the key maps to the new object and every other entry is as before, in place. */
  lemma {:induction false} MapSetFacts(m: seq<Entry>, key: string, obj: StoredObject)
    requires KeysDistinct(m)
    ensures var r := MapSet(m, key, obj);
      && KeysDistinct(r)
      && Find(r, key) >= 0 && r[Find(r, key)].obj == obj
      && (Find(m, key) >= 0 ==> |r| == |m| && Find(r, key) == Find(m, key))
      && (Find(m, key) == -1 ==> r == m + [Entry(key, obj)])
      && forall i :: 0 <= i < |m| && m[i].key != key ==> r[i] == m[i]
  {
    var r := MapSet(m, key, obj);
    var i := Find(m, key);
    if i == -1 {
      assert Find(r, key) == |m|;
    } else {
      assert r[i].key == key;
      forall j | 0 <= j < i ensures r[j].key != key {
        assert r[j] == m[j];
      }
      assert Find(r, key) == i;
    }
  }

  // ---------------------------------------------------------------------
  // The per-prediction update of processVideoFrames
  // ---------------------------------------------------------------------

  /** The box grown by `padding` on every side and clipped at the canvas origin and size. */
  function PaddedBox(b: BBox, padding: real, canvasWidth: real, canvasHeight: real): BBox {
    var x := if 0.0 >= b.x - padding then 0.0 else b.x - padding;
    var y := if 0.0 >= b.y - padding then 0.0 else b.y - padding;
    BBox(x, y,
         if canvasWidth - x <= b.width + padding * 2.0 then canvasWidth - x else b.width + padding * 2.0,
         if canvasHeight - y <= b.height + padding * 2.0 then canvasHeight - y else b.height + padding * 2.0)
  }

  /**
    The padded crop starts inside the canvas and ends at its right and bottom
    edges at the latest; a box inside the canvas stays inside the crop when
    the padding is not negative.
  */
  lemma {:induction false} PaddedBoxInside(b: BBox, padding: real, canvasWidth: real, canvasHeight: real)
    ensures var r := PaddedBox(b, padding, canvasWidth, canvasHeight);
      && r.x >= 0.0 && r.y >= 0.0
      && r.x + r.width <= canvasWidth && r.y + r.height <= canvasHeight
      && (padding >= 0.0 && 0.0 <= b.x && 0.0 <= b.width && b.x + b.width <= canvasWidth ==>
            r.x <= b.x && b.x + b.width <= r.x + r.width)
      && (padding >= 0.0 && 0.0 <= b.y && 0.0 <= b.height && b.y + b.height <= canvasHeight ==>
            r.y <= b.y && b.y + b.height <= r.y + r.height)
  {
  }

  /** Where `drawImage` puts the crop on the object canvas: the aspect-fitted size, centred. */
  datatype Placement = Placement(x: real, y: real, width: int, height: int)

  function CropPlacement(crop: BBox, objectCanvas: Utils.Size): Placement
    requires crop.height > 0.0 && objectCanvas.width >= 0 && objectCanvas.height > 0
  {
    var target := Utils.AspectFit(crop.width, crop.height, objectCanvas.width, objectCanvas.height);
    Placement((objectCanvas.width - target.width) as real / 2.0, (objectCanvas.height - target.height) as real / 2.0,
              target.width, target.height)
  }

  /** The placed crop fills the object canvas along one axis, is centred on the other, and stays inside it. */
  lemma {:induction false} CropPlacementInside(crop: BBox, objectCanvas: Utils.Size)
    requires crop.width >= 0.0 && crop.height > 0.0 && objectCanvas.width >= 0 && objectCanvas.height > 0
    ensures var p := CropPlacement(crop, objectCanvas);
      && (p.x == 0.0 || p.y == 0.0) && p.x >= 0.0 && p.y >= 0.0 && p.width >= 0 && p.height >= 0
      && p.x + p.width as real + p.x == objectCanvas.width as real
      && p.y + p.height as real + p.y == objectCanvas.height as real
  {
    Utils.AspectFitWithin(crop.width, crop.height, objectCanvas.width, objectCanvas.height);
  }

  /** What the map stores for a prediction seen at `time`. */
  function StoreOf(p: Prediction, time: real, s: Settings, canvasWidth: real, canvasHeight: real): StoredObject {
    StoredObject(p.cls, p.score, time, PaddedBox(p.bbox, s.padding, canvasWidth, canvasHeight))
  }

  /**
    One step of the prediction loop: a prediction below the threshold is
    dropped, one whose lower-cased class already holds an equal or higher
    score is skipped, and any other is stored under its lower-cased class.
  */
  function Update(m: seq<Entry>, p: Prediction, time: real, s: Settings, canvasWidth: real, canvasHeight: real): seq<Entry> {
    if p.score < s.confidenceThreshold then m
    else
      var key := Text.ToLower(p.cls);
      var i := Find(m, key);
      if i >= 0 && p.score <= m[i].obj.confidence then m
      else MapSet(m, key, StoreOf(p, time, s, canvasWidth, canvasHeight))
  }

  /** The whole prediction loop of one frame. */
  function UpdateAll(m: seq<Entry>, ps: seq<Prediction>, time: real, s: Settings, canvasWidth: real, canvasHeight: real): seq<Entry> {
    if ps == [] then m
    else Update(UpdateAll(m, ps[..|ps| - 1], time, s, canvasWidth, canvasHeight), ps[|ps| - 1], time, s, canvasWidth, canvasHeight)
  }

  /** `s / 30`-spaced frame times `0, s, 2 s, ...` below the duration, `s` the frame skip. */
  function FrameTimes(duration: real, frameSkip: int): (times: seq<real>)
    requires frameSkip > 0
    ensures |times| == Sampling.FrameCount(duration, frameSkip)
  {
    seq(Sampling.FrameCount(duration, frameSkip), k => k as real * Sampling.FrameStep(frameSkip))
  }

  /** What the detector gives for the frame at time `t`: `None` when detection threw. */
  function DetectFrame(detectAt: real -> Option<seq<Prediction>>, t: real): Option<seq<Prediction>> {
    detectAt(t)
  }

  /** Frame `k`, at `k * step` below the duration, is a visited frame, and the next one is a step later. */
  lemma {:induction false} FrameTimeNext(duration: real, frameSkip: int, k: nat, t: real)
    requires frameSkip > 0 && t == k as real * Sampling.FrameStep(frameSkip) && t < duration
    ensures k < |FrameTimes(duration, frameSkip)| && FrameTimes(duration, frameSkip)[k] == t
    ensures t + Sampling.FrameStep(frameSkip) == (k + 1) as real * Sampling.FrameStep(frameSkip)
  {
    Sampling.FrameCountSpec(duration, frameSkip, k);
    Sampling.StepNext(k, Sampling.FrameStep(frameSkip));
  }

  /** The first `k` with `k * step` at or past the duration is the number of visited frames. */
  lemma {:induction false} FrameTimesEnd(duration: real, frameSkip: int, k: nat, t: real)
    requires frameSkip > 0 && t == k as real * Sampling.FrameStep(frameSkip) && t >= duration
    requires k <= |FrameTimes(duration, frameSkip)|
    ensures k == |FrameTimes(duration, frameSkip)|
  {
    if k < |FrameTimes(duration, frameSkip)| {
      Sampling.FrameCountSpec(duration, frameSkip, k);
    }
  }

  /** One frame of the loop: a frame whose detection threw before any update leaves the map as it was. */
  function ScanFrame(m: seq<Entry>, t: real, detectAt: real -> Option<seq<Prediction>>, s: Settings,
                     canvasWidth: real, canvasHeight: real): seq<Entry>
  {
    match DetectFrame(detectAt, t)
    case None => m
    case Some(ps) => UpdateAll(m, ps, t, s, canvasWidth, canvasHeight)
  }

  /** The map after the frames at `times`. */
  function Scan(m: seq<Entry>, times: seq<real>, detectAt: real -> Option<seq<Prediction>>, s: Settings,
                canvasWidth: real, canvasHeight: real): seq<Entry>
  {
    if times == [] then m
    else ScanFrame(Scan(m, times[..|times| - 1], detectAt, s, canvasWidth, canvasHeight), times[|times| - 1], detectAt, s, canvasWidth, canvasHeight)
  }

  lemma {:induction false} ScanSnoc(m: seq<Entry>, times: seq<real>, k: nat, detectAt: real -> Option<seq<Prediction>>, s: Settings,
                 canvasWidth: real, canvasHeight: real)
    requires k < |times|
    ensures Scan(m, times[..k + 1], detectAt, s, canvasWidth, canvasHeight)
         == ScanFrame(Scan(m, times[..k], detectAt, s, canvasWidth, canvasHeight), times[k], detectAt, s, canvasWidth, canvasHeight)
  {
    assert times[..k + 1][..k] == times[..k];
  }

  /** `key` is in the map with a score of at least `score`. */
  predicate Holds(m: seq<Entry>, key: string, score: real) {
    var i := Find(m, key);
    i >= 0 && m[i].obj.confidence >= score
  }

  /** The invariant of the map: one entry per key, each under its own lower-cased class, all above the threshold, all seen at one of `times`. */
  predicate Consistent(m: seq<Entry>, threshold: real, times: seq<real>) {
    && KeysDistinct(m)
    && (forall i :: 0 <= i < |m| ==> m[i].key == Text.ToLower(m[i].obj.className))
    && (forall i :: 0 <= i < |m| ==> m[i].obj.confidence >= threshold && m[i].obj.frameTime in times)
  }

  /**
    The update rule: below the threshold nothing changes; a score no higher
    than the stored one for the lower-cased class changes nothing; otherwise
    that key now holds the new object, and no other entry moves or changes.
  */
  lemma {:induction false} UpdateRule(m: seq<Entry>, p: Prediction, time: real, s: Settings, canvasWidth: real, canvasHeight: real)
    requires KeysDistinct(m)
    ensures var r := Update(m, p, time, s, canvasWidth, canvasHeight);
      var key := Text.ToLower(p.cls);
      && (p.score < s.confidenceThreshold ==> r == m)
      && (Holds(m, key, p.score) ==> r == m)
      && (p.score >= s.confidenceThreshold && !Holds(m, key, p.score) ==>
            && Find(r, key) >= 0 && r[Find(r, key)].obj == StoreOf(p, time, s, canvasWidth, canvasHeight)
            && forall i :: 0 <= i < |m| && m[i].key != key ==> r[i] == m[i])
  {
    MapSetFacts(m, Text.ToLower(p.cls), StoreOf(p, time, s, canvasWidth, canvasHeight));
  }

  /** An update keeps the map consistent and never lowers the score held under a key. */
  lemma {:induction false} UpdateKeeps(m: seq<Entry>, p: Prediction, time: real, s: Settings, canvasWidth: real, canvasHeight: real,
                    times: seq<real>, key: string, score: real)
    requires Consistent(m, s.confidenceThreshold, times) && time in times
    ensures Consistent(Update(m, p, time, s, canvasWidth, canvasHeight), s.confidenceThreshold, times)
    ensures Holds(m, key, score) ==> Holds(Update(m, p, time, s, canvasWidth, canvasHeight), key, score)
  {
    UpdateConsistent(m, p, time, s, canvasWidth, canvasHeight, times);
    UpdateHolds(m, p, time, s, canvasWidth, canvasHeight, key, score);
  }

  lemma {:induction false} UpdateConsistent(m: seq<Entry>, p: Prediction, time: real, s: Settings,
                                            canvasWidth: real, canvasHeight: real, times: seq<real>)
    requires Consistent(m, s.confidenceThreshold, times) && time in times
    ensures Consistent(Update(m, p, time, s, canvasWidth, canvasHeight), s.confidenceThreshold, times)
  {
    var k := Text.ToLower(p.cls);
    var o := StoreOf(p, time, s, canvasWidth, canvasHeight);
    var r := Update(m, p, time, s, canvasWidth, canvasHeight);
    MapSetFacts(m, k, o);
    if r != m {
      Text.ToLowerIdempotent(p.cls);
      assert r == MapSet(m, k, o);
      forall i | 0 <= i < |r|
        ensures r[i].key == Text.ToLower(r[i].obj.className)
        ensures r[i].obj.confidence >= s.confidenceThreshold && r[i].obj.frameTime in times
      {
        if i < |m| && m[i].key != k {
          assert r[i] == m[i];
        } else {
          assert r[i] == Entry(k, o);
        }
      }
    }
  }

  lemma {:induction false} UpdateHolds(m: seq<Entry>, p: Prediction, time: real, s: Settings,
                                       canvasWidth: real, canvasHeight: real, key: string, score: real)
    requires KeysDistinct(m)
    ensures Holds(m, key, score) ==> Holds(Update(m, p, time, s, canvasWidth, canvasHeight), key, score)
  {
    var k := Text.ToLower(p.cls);
    var o := StoreOf(p, time, s, canvasWidth, canvasHeight);
    var r := Update(m, p, time, s, canvasWidth, canvasHeight);
    MapSetFacts(m, k, o);
    if r != m && Holds(m, key, score) && key != k {
      assert r == MapSet(m, k, o);
      assert Find(r, key) == Find(m, key) by {
        var j := Find(m, key);
        assert r[j] == m[j];
        forall q | 0 <= q < j ensures r[q].key != key {
          if m[q].key != k {
            assert r[q] == m[q];
          }
        }
      }
    }
  }

  /** After a kept prediction, its lower-cased class holds at least its score. */
  lemma {:induction false} UpdateStores(m: seq<Entry>, p: Prediction, time: real, s: Settings, canvasWidth: real, canvasHeight: real)
    requires KeysDistinct(m) && p.score >= s.confidenceThreshold
    ensures Holds(Update(m, p, time, s, canvasWidth, canvasHeight), Text.ToLower(p.cls), p.score)
  {
    MapSetFacts(m, Text.ToLower(p.cls), StoreOf(p, time, s, canvasWidth, canvasHeight));
  }

  lemma {:induction false} UpdateAllKeeps(m: seq<Entry>, ps: seq<Prediction>, time: real, s: Settings,
                                          canvasWidth: real, canvasHeight: real, times: seq<real>)
    requires Consistent(m, s.confidenceThreshold, times) && time in times
    ensures var r := UpdateAll(m, ps, time, s, canvasWidth, canvasHeight);
      && Consistent(r, s.confidenceThreshold, times)
      && (forall key, score :: Holds(m, key, score) ==> Holds(r, key, score))
      && (forall p :: p in ps && p.score >= s.confidenceThreshold ==> Holds(r, Text.ToLower(p.cls), p.score))
  {
    if ps != [] {
      var init, last := ps[..|ps| - 1], ps[|ps| - 1];
      var before := UpdateAll(m, init, time, s, canvasWidth, canvasHeight);
      UpdateAllKeeps(m, init, time, s, canvasWidth, canvasHeight, times);
      UpdateKeeps(before, last, time, s, canvasWidth, canvasHeight, times, "", 0.0);
      forall key, score | Holds(before, key, score)
        ensures Holds(UpdateAll(m, ps, time, s, canvasWidth, canvasHeight), key, score)
      {
        UpdateKeeps(before, last, time, s, canvasWidth, canvasHeight, times, key, score);
      }
      if last.score >= s.confidenceThreshold {
        UpdateStores(before, last, time, s, canvasWidth, canvasHeight);
      }
      assert forall p :: p in ps ==> p in init || p == last;
    }
  }

  /** `o` is what the map stores for one of the predictions of the frame at its time, a frame that did not throw. */
  predicate Seen(o: StoredObject, times: seq<real>, detectAt: real -> Option<seq<Prediction>>, s: Settings,
                 canvasWidth: real, canvasHeight: real)
  {
    && o.frameTime in times && detectAt(o.frameTime).Some?
    && exists p :: p in detectAt(o.frameTime).value && StoreOf(p, o.frameTime, s, canvasWidth, canvasHeight) == o
  }

  /** An update stores only objects satisfying `P` when every existing entry and the prediction's object satisfy it. */
  lemma {:induction false} UpdateFrom(m: seq<Entry>, p: Prediction, time: real, s: Settings,
                                      canvasWidth: real, canvasHeight: real, P: StoredObject -> bool)
    requires forall i :: 0 <= i < |m| ==> P(m[i].obj)
    requires P(StoreOf(p, time, s, canvasWidth, canvasHeight))
    ensures forall i :: 0 <= i < |Update(m, p, time, s, canvasWidth, canvasHeight)| ==>
              P(Update(m, p, time, s, canvasWidth, canvasHeight)[i].obj)
  {
    var k := Text.ToLower(p.cls);
    var o := StoreOf(p, time, s, canvasWidth, canvasHeight);
    var r := Update(m, p, time, s, canvasWidth, canvasHeight);
    if r != m {
      assert r == MapSet(m, k, o);
      forall i | 0 <= i < |r| ensures P(r[i].obj) {
        if Find(m, k) >= 0 {
          assert r == m[Find(m, k) := Entry(k, o)];
        } else {
          assert r == m + [Entry(k, o)];
        }
      }
    }
  }

  lemma {:induction false} UpdateAllFrom(m: seq<Entry>, ps: seq<Prediction>, time: real, s: Settings,
                                         canvasWidth: real, canvasHeight: real, P: StoredObject -> bool)
    requires forall i :: 0 <= i < |m| ==> P(m[i].obj)
    requires forall q :: q in ps ==> P(StoreOf(q, time, s, canvasWidth, canvasHeight))
    ensures forall i :: 0 <= i < |UpdateAll(m, ps, time, s, canvasWidth, canvasHeight)| ==>
              P(UpdateAll(m, ps, time, s, canvasWidth, canvasHeight)[i].obj)
  {
    if ps != [] {
      var init, last := ps[..|ps| - 1], ps[|ps| - 1];
      assert forall q :: q in init ==> q in ps;
      UpdateAllFrom(m, init, time, s, canvasWidth, canvasHeight, P);
      UpdateFrom(UpdateAll(m, init, time, s, canvasWidth, canvasHeight), last, time, s, canvasWidth, canvasHeight, P);
    }
  }

  /** Every entry the frame loop leaves in a cleared map was stored for a prediction of a visited frame that did not throw. */
  lemma {:induction false} ScanSeen(times: seq<real>, detectAt: real -> Option<seq<Prediction>>, s: Settings,
                                    canvasWidth: real, canvasHeight: real, all: seq<real>)
    requires forall u :: u in times ==> u in all
    ensures forall i :: 0 <= i < |Scan([], times, detectAt, s, canvasWidth, canvasHeight)| ==>
              Seen(Scan([], times, detectAt, s, canvasWidth, canvasHeight)[i].obj, all, detectAt, s, canvasWidth, canvasHeight)
  {
    if times != [] {
      var init, t := times[..|times| - 1], times[|times| - 1];
      assert forall u :: u in init ==> u in times;
      ScanSeen(init, detectAt, s, canvasWidth, canvasHeight, all);
      if detectAt(t).Some? {
        var P := (o: StoredObject) => Seen(o, all, detectAt, s, canvasWidth, canvasHeight);
        forall q | q in detectAt(t).value ensures P(StoreOf(q, t, s, canvasWidth, canvasHeight)) {
          assert StoreOf(q, t, s, canvasWidth, canvasHeight).frameTime == t;
        }
        UpdateAllFrom(Scan([], init, detectAt, s, canvasWidth, canvasHeight), detectAt(t).value, t, s, canvasWidth, canvasHeight, P);
      }
    }
  }

  /** In a map with one entry per key, a key held at `score` is held by its own entry. */
  lemma {:induction false} HoldsAt(m: seq<Entry>, i: nat, score: real)
    requires KeysDistinct(m) && i < |m| && Holds(m, m[i].key, score)
    ensures m[i].obj.confidence >= score
  {
    assert Find(m, m[i].key) == i;
  }

  /**
    What the frame loop leaves in a cleared map: one entry per lower-cased
    class, each above the threshold and stored for a prediction of that
    class at a visited frame that did not throw; for every prediction of
    such a frame that clears the threshold, its lower-cased class holds at
    least its score. So each entry holds the best score of its class.
  */
  lemma {:induction false} ScanSpec(times: seq<real>, detectAt: real -> Option<seq<Prediction>>, s: Settings,
                                    canvasWidth: real, canvasHeight: real)
    ensures var r := Scan([], times, detectAt, s, canvasWidth, canvasHeight);
      && Consistent(r, s.confidenceThreshold, times)
      && (forall i :: 0 <= i < |r| ==> Seen(r[i].obj, times, detectAt, s, canvasWidth, canvasHeight))
      && (forall t, p :: t in times && detectAt(t).Some? && p in detectAt(t).value && p.score >= s.confidenceThreshold ==>
           Holds(r, Text.ToLower(p.cls), p.score))
  {
    ScanHolds(times, detectAt, s, canvasWidth, canvasHeight);
    ScanSeen(times, detectAt, s, canvasWidth, canvasHeight, times);
  }

  /**
    Each entry is the best of its class: no prediction of a visited frame
    that clears the threshold and whose lower-cased class is the entry's key
    scores higher than the entry.
  */
  lemma {:induction false} ScanBest(times: seq<real>, detectAt: real -> Option<seq<Prediction>>, s: Settings,
                                    canvasWidth: real, canvasHeight: real, i: nat, t: real, p: Prediction)
    requires i < |Scan([], times, detectAt, s, canvasWidth, canvasHeight)|
    requires t in times && detectAt(t).Some? && p in detectAt(t).value && p.score >= s.confidenceThreshold
    requires Text.ToLower(p.cls) == Scan([], times, detectAt, s, canvasWidth, canvasHeight)[i].key
    ensures p.score <= Scan([], times, detectAt, s, canvasWidth, canvasHeight)[i].obj.confidence
  {
    var r := Scan([], times, detectAt, s, canvasWidth, canvasHeight);
    ScanHolds(times, detectAt, s, canvasWidth, canvasHeight);
    HoldsAt(r, i, p.score);
  }

  lemma {:induction false} ScanHolds(times: seq<real>, detectAt: real -> Option<seq<Prediction>>, s: Settings,
                                     canvasWidth: real, canvasHeight: real)
    ensures var r := Scan([], times, detectAt, s, canvasWidth, canvasHeight);
      && Consistent(r, s.confidenceThreshold, times)
      && forall t, p :: t in times && detectAt(t).Some? && p in detectAt(t).value && p.score >= s.confidenceThreshold ==>
           Holds(r, Text.ToLower(p.cls), p.score)
  {
    if times != [] {
      var init, t := times[..|times| - 1], times[|times| - 1];
      ScanHolds(init, detectAt, s, canvasWidth, canvasHeight);
      var before := Scan([], init, detectAt, s, canvasWidth, canvasHeight);
      assert Consistent(before, s.confidenceThreshold, times) by {
        assert forall u :: u in init ==> u in times;
      }
      if detectAt(t).Some? {
        UpdateAllKeeps(before, detectAt(t).value, t, s, canvasWidth, canvasHeight, times);
      }
    }
  }

  /** The frame times start at 0, are `frameSkip / 30` apart and all lie below the duration; no multiple of the step below it is missed. */
  lemma {:induction false} FrameTimesSpec(duration: real, frameSkip: int)
    requires frameSkip > 0
    ensures var times := FrameTimes(duration, frameSkip);
      && (forall k :: 0 <= k < |times| ==> times[k] == k as real * frameSkip as real / 30.0 && times[k] < duration)
      && (duration > 0.0 ==> |times| >= 1 && times[0] == 0.0)
      && (|times| > 0 ==> |times| as real * Sampling.FrameStep(frameSkip) >= duration)
  {
    var times := FrameTimes(duration, frameSkip);
    forall k | 0 <= k < |times| ensures times[k] < duration {
      Sampling.FrameCountSpec(duration, frameSkip, k);
    }
    Sampling.FrameCountSpec(duration, frameSkip, 0);
    Sampling.FrameCountSpec(duration, frameSkip, |times|);
  }

  // ---------------------------------------------------------------------
  // Finalisation and similarity
  // ---------------------------------------------------------------------

  /** The comparator `(a, b) => b.confidence - a.confidence`. */
  predicate ConfidenceBefore(a: StoredObject, b: StoredObject) {
    b.confidence - a.confidence < 0.0
  }

  /** The list `processVideo` returns: the map's values, highest confidence first. */
  function Finalised(m: seq<Entry>): seq<StoredObject> {
    SortBy(Values(m), ConfidenceBefore)
  }

  /** The final list is the map's values, rearranged into descending confidence. */
  lemma {:induction false} FinalisedSpec(m: seq<Entry>)
    ensures var r := Finalised(m);
      && multiset(r) == multiset(Values(m))
      && forall i, j :: 0 <= i < j < |r| ==> r[i].confidence >= r[j].confidence
  {
    assert StrictWeakOrder(ConfidenceBefore);
    var r := Finalised(m);
    SortBySorted(Values(m), ConfidenceBefore);
    assert forall i, j :: 0 <= i < j < |r| ==> !ConfidenceBefore(r[j], r[i]);
  }

  /**
    `areSimilarObjects`: same class name and centres closer than half the
    first box's larger side. The source compares `Math.sqrt(d2)` with the
    bound; `SqrtFree` shows the comparison of squares below is equivalent.
  */
  function AreSimilarObjects(o1: StoredObject, o2: StoredObject): bool {
    if o1.className != o2.className then false
    else
      var dx := (o1.bbox.x + o1.bbox.width / 2.0) - (o2.bbox.x + o2.bbox.width / 2.0);
      var dy := (o1.bbox.y + o1.bbox.height / 2.0) - (o2.bbox.y + o2.bbox.height / 2.0);
      var bound := (if o1.bbox.width >= o1.bbox.height then o1.bbox.width else o1.bbox.height) * 0.5;
      bound > 0.0 && dx * dx + dy * dy < bound * bound
  }

  /** For the distance `d >= 0` with `d * d == d2`, `d < bound` exactly when the bound is positive and `d2 < bound * bound`. */
  lemma {:induction false} SqrtFree(d: real, d2: real, bound: real)
    requires d >= 0.0 && d * d == d2
    ensures d < bound <==> bound > 0.0 && d2 < bound * bound
  {
    if d < bound {
      Utils.MulAtMostReal(d, bound, d);
      Utils.MulLessReal(d, bound, bound);
      calc {
        d2;
      ==
        d * d;
      <=
        bound * d;
      ==
        d * bound;
      <
        bound * bound;
      }
    } else if bound > 0.0 {
      Utils.MulAtMostReal(bound, d, bound);
      Utils.MulAtMostReal(bound, d, d);
      calc {
        bound * bound;
      <=
        d * bound;
      ==
        bound * d;
      <=
        d * d;
      }
    }
  }

  /** Different class names are never similar; a box with a positive side is similar to itself. */
  lemma {:induction false} AreSimilarObjectsClasses(o1: StoredObject, o2: StoredObject)
    ensures o1.className != o2.className ==> !AreSimilarObjects(o1, o2)
    ensures (o1.bbox.width > 0.0 || o1.bbox.height > 0.0) ==> AreSimilarObjects(o1, o1)
  {
  }

  /** Only the first argument's size sets the bound, so the relation is not symmetric. */
  lemma {:induction false} AreSimilarObjectsNotSymmetric()
    ensures exists o1, o2 :: AreSimilarObjects(o1, o2) && !AreSimilarObjects(o2, o1)
  {
    var big := StoredObject("car", 0.9, 0.0, BBox(0.0, 0.0, 100.0, 100.0));
    var small := StoredObject("car", 0.9, 0.0, BBox(20.0, 20.0, 4.0, 4.0));
    assert AreSimilarObjects(big, small);
    assert !AreSimilarObjects(small, big);
  }

  // ---------------------------------------------------------------------
  // The state object
  // ---------------------------------------------------------------------

  /** What a call of `processVideo` ends with. */
  datatype Outcome = AlreadyRunning | LoadFailed | Finished(objects: seq<StoredObject>)

  /** `DETECTION.state` (the models reduced to whether one is loaded). */
  class DetectionState {
    var detectedObjects: seq<StoredObject>
    var uniqueObjectsMap: seq<Entry>
    var processingVideo: bool
    var modelLoaded: bool

    constructor()
      ensures detectedObjects == [] && uniqueObjectsMap == [] && !processingVideo && !modelLoaded
    {
      detectedObjects := [];
      uniqueObjectsMap := [];
      processingVideo := false;
      modelLoaded := false;
    }

    /** The prediction loop over one frame's predictions. */
    method ProcessPredictions(predictions: seq<Prediction>, time: real, s: Settings, canvasWidth: real, canvasHeight: real)
      modifies this
      ensures uniqueObjectsMap == UpdateAll(old(uniqueObjectsMap), predictions, time, s, canvasWidth, canvasHeight)
      ensures detectedObjects == old(detectedObjects) && processingVideo == old(processingVideo) && modelLoaded == old(modelLoaded)
    {
      ghost var m0 := uniqueObjectsMap;
      for i := 0 to |predictions|
        invariant uniqueObjectsMap == UpdateAll(m0, predictions[..i], time, s, canvasWidth, canvasHeight)
        invariant detectedObjects == old(detectedObjects) && processingVideo == old(processingVideo) && modelLoaded == old(modelLoaded)
      {
        assert predictions[..i + 1][..i] == predictions[..i];
        var p := predictions[i];
        if p.score >= s.confidenceThreshold {
          var objectKey := Text.ToLower(p.cls);
          var at := Find(uniqueObjectsMap, objectKey);
          if !(at >= 0 && p.score <= uniqueObjectsMap[at].obj.confidence) {
            uniqueObjectsMap := MapSet(uniqueObjectsMap, objectKey, StoreOf(p, time, s, canvasWidth, canvasHeight));
          }
        }
      }
      assert predictions[..|predictions|] == predictions;
    }

    /** `processVideoFrames`: the frame at `currentTime`, then `currentTime += frameSkip / 30`, until the duration. */
    method ProcessVideoFrames(duration: real, s: Settings, canvasWidth: real, canvasHeight: real,
                              detectAt: real -> Option<seq<Prediction>>)
      requires s.frameSkip > 0
      modifies this
      ensures uniqueObjectsMap == Scan(old(uniqueObjectsMap), FrameTimes(duration, s.frameSkip), detectAt, s, canvasWidth, canvasHeight)
      ensures detectedObjects == old(detectedObjects) && processingVideo == old(processingVideo) && modelLoaded == old(modelLoaded)
    {
      ghost var m0 := uniqueObjectsMap;
      ghost var times := FrameTimes(duration, s.frameSkip);
      var frameStep := s.frameSkip as real / 30.0;
      assert frameStep == Sampling.FrameStep(s.frameSkip);
      var currentTime := 0.0;
      ghost var k: nat := 0;
      while currentTime < duration
        invariant k <= |times| && currentTime == k as real * frameStep
        invariant uniqueObjectsMap == Scan(m0, times[..k], detectAt, s, canvasWidth, canvasHeight)
        invariant detectedObjects == old(detectedObjects) && processingVideo == old(processingVideo) && modelLoaded == old(modelLoaded)
        decreases |times| - k
      {
        FrameTimeNext(duration, s.frameSkip, k, currentTime);
        ScanSnoc(m0, times, k, detectAt, s, canvasWidth, canvasHeight);
        ProcessFrame(currentTime, s, canvasWidth, canvasHeight, detectAt);
        currentTime := currentTime + frameStep;
        k := k + 1;
      }
      FrameTimesEnd(duration, s.frameSkip, k, currentTime);
      assert times[..k] == times;
    }

    /** The `try` of one frame: its predictions are merged into the map; a frame whose detection threw (`None`) is skipped. */
    method ProcessFrame(currentTime: real, s: Settings, canvasWidth: real, canvasHeight: real,
                        detectAt: real -> Option<seq<Prediction>>)
      modifies this
      ensures uniqueObjectsMap == ScanFrame(old(uniqueObjectsMap), currentTime, detectAt, s, canvasWidth, canvasHeight)
      ensures detectedObjects == old(detectedObjects) && processingVideo == old(processingVideo) && modelLoaded == old(modelLoaded)
    {
      match DetectFrame(detectAt, currentTime) {
        case Some(predictions) =>
          ProcessPredictions(predictions, currentTime, s, canvasWidth, canvasHeight);
        case None =>
      }
    }

    /**
      `processVideo` as written: a failing model load escapes before the
      `try`, so its `finally` never clears the busy flag.
    */
    method ProcessVideoAsWritten(duration: real, s: Settings, canvasWidth: real, canvasHeight: real,
                                 detectAt: real -> Option<seq<Prediction>>, loadSucceeds: bool)
      returns (outcome: Outcome)
      requires s.frameSkip > 0
      modifies this
      ensures old(processingVideo) ==> outcome == AlreadyRunning && unchanged(this)
      ensures !old(processingVideo) && !old(modelLoaded) && !loadSucceeds ==>
                outcome == LoadFailed && processingVideo && !modelLoaded && detectedObjects == [] && uniqueObjectsMap == []
      ensures !old(processingVideo) && (old(modelLoaded) || loadSucceeds) ==>
                && !processingVideo && modelLoaded
                && uniqueObjectsMap == Scan([], FrameTimes(duration, s.frameSkip), detectAt, s, canvasWidth, canvasHeight)
                && detectedObjects == Finalised(uniqueObjectsMap) && outcome == Finished(detectedObjects)
    {
      if processingVideo {
        return AlreadyRunning;
      }
      processingVideo := true;
      detectedObjects := [];
      uniqueObjectsMap := [];
      if !modelLoaded {
        if !loadSucceeds {
          return LoadFailed;
        }
        modelLoaded := true;
      }
      ProcessVideoFrames(duration, s, canvasWidth, canvasHeight, detectAt);
      detectedObjects := SortBy(Values(uniqueObjectsMap), ConfidenceBefore);
      processingVideo := false;
      outcome := Finished(detectedObjects);
    }

    /**
      `processVideo` with the model load inside the guarded region: every call
      that was not turned away as busy leaves the flag clear.
    */
    method ProcessVideo(duration: real, s: Settings, canvasWidth: real, canvasHeight: real,
                        detectAt: real -> Option<seq<Prediction>>, loadSucceeds: bool)
      returns (outcome: Outcome)
      requires s.frameSkip > 0
      modifies this
      ensures old(processingVideo) ==> outcome == AlreadyRunning && unchanged(this)
      ensures !old(processingVideo) ==> !processingVideo
      ensures !old(processingVideo) && !old(modelLoaded) && !loadSucceeds ==>
                outcome == LoadFailed && !modelLoaded && detectedObjects == [] && uniqueObjectsMap == []
      ensures !old(processingVideo) && (old(modelLoaded) || loadSucceeds) ==>
                && modelLoaded
                && uniqueObjectsMap == Scan([], FrameTimes(duration, s.frameSkip), detectAt, s, canvasWidth, canvasHeight)
                && detectedObjects == Finalised(uniqueObjectsMap) && outcome == Finished(detectedObjects)
    {
      if processingVideo {
        return AlreadyRunning;
      }
      processingVideo := true;
      detectedObjects := [];
      uniqueObjectsMap := [];
      if !modelLoaded {
        if !loadSucceeds {
          processingVideo := false;
          return LoadFailed;
        }
        modelLoaded := true;
      }
      ProcessVideoFrames(duration, s, canvasWidth, canvasHeight, detectAt);
      detectedObjects := SortBy(Values(uniqueObjectsMap), ConfidenceBefore);
      processingVideo := false;
      outcome := Finished(detectedObjects);
    }

    /** `clearResults`: both result containers emptied, the busy flag and the model kept. */
    method ClearResults()
      modifies this
      ensures detectedObjects == [] && uniqueObjectsMap == []
      ensures processingVideo == old(processingVideo) && modelLoaded == old(modelLoaded)
    {
      detectedObjects := [];
      uniqueObjectsMap := [];
    }
  }

  /** A failed first load leaves the state busy as written, so the next call is turned away. */
  method StuckAfterFailedLoad() returns (first: Outcome, second: Outcome)
    ensures first == LoadFailed && second == AlreadyRunning
  {
    var state := new DetectionState();
    var s := Settings(0.6, 3, 15.0);
    first := state.ProcessVideoAsWritten(10.0, s, 640.0, 480.0, t => Some([]), false);
    second := state.ProcessVideoAsWritten(10.0, s, 640.0, 480.0, t => Some([]), true);
  }

  /** With the load guarded, the call after a failed load runs. */
  method RecoversAfterFailedLoad() returns (first: Outcome, second: Outcome)
    ensures first == LoadFailed && second.Finished?
  {
    var state := new DetectionState();
    var s := Settings(0.6, 3, 15.0);
    first := state.ProcessVideo(10.0, s, 640.0, 480.0, t => Some([]), false);
    second := state.ProcessVideo(10.0, s, 640.0, 480.0, t => Some([]), true);
  }
}
