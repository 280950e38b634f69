/**
  The root page script (app.js): the frame-index schedule of `processVideo`
  and the list it builds, the type filter and sort of `renderObjects`, the
  time-tolerance filter of `drawDetections`, the `MM:SS` `formatTime`, and
  the in-memory video history. The detector is a parameter `detectAt`, the
  canvas snapshot of an object a parameter `snapshot`, the frames that throw
  a parameter `fails`; the page's globals are the fields of `AppState`.
*/
module App {

  import opened Wrappers
  import opened Predictions
  import opened Seqs
  import opened Sorting
  import Text
  import Utils
  import Sampling

  // ---------------------------------------------------------------------
  // formatTime
  // ---------------------------------------------------------------------

  /** `` `${minutes.toString().padStart(2, '0')}:${secs.toString().padStart(2, '0')}` ``. */
  function FormatTime(seconds: real): string {
    Text.PadStart(Text.IntToString(Utils.Minutes(seconds)), 2, '0') + ":" +
    Text.PadStart(Text.IntToString(Utils.Seconds(seconds)), 2, '0')
  }

  /**
    A non-negative time is shown as `MM:SS`: at least two digits of minutes,
    a colon, exactly two digits of seconds below 60; read back, the two
    fields give the whole seconds of the time.
  */
  lemma {:induction false} FormatTimeSpec(seconds: real)
    requires seconds >= 0.0
    ensures var s := FormatTime(seconds);
      && |s| >= 5 && s[|s| - 3] == ':'
      && var mm, ss := s[..|s| - 3], s[|s| - 2..];
      && Text.AllDigits(mm) && Text.AllDigits(ss)
      && Text.DigitsValue(ss) < 60
      && Text.DigitsValue(mm) * 60 + Text.DigitsValue(ss) == seconds.Floor
  {
    Utils.MinutesSeconds(seconds);
    FormatFields(Utils.Minutes(seconds), Utils.Seconds(seconds));
  }

  /** The two zero-padded fields of whole minutes `m` and seconds `sec` read back as `m` and `sec`. */
  lemma {:induction false} FormatFields(m: int, sec: int)
    requires m >= 0 && 0 <= sec < 60
    ensures var s := Text.PadStart(Text.IntToString(m), 2, '0') + ":" + Text.PadStart(Text.IntToString(sec), 2, '0');
      && |s| >= 5 && s[|s| - 3] == ':'
      && var mm, ss := s[..|s| - 3], s[|s| - 2..];
      && Text.AllDigits(mm) && Text.AllDigits(ss)
      && Text.DigitsValue(mm) == m && Text.DigitsValue(ss) == sec
  {
    var mm := Text.PadStart(Text.NatToString(m), 2, '0');
    var ss := Text.PadStart(Text.NatToString(sec), 2, '0');
    Text.PadStartValue(Text.NatToString(m), 2);
    Text.PadStartValue(Text.NatToString(sec), 2);
    Text.NatToStringRoundTrip(m);
    Text.NatToStringRoundTrip(sec);
    assert Text.IntToString(m) == Text.NatToString(m);
    assert Text.IntToString(sec) == Text.NatToString(sec);
    assert |mm| >= 2 && |ss| == 2;
    ColonSplit(mm, ss);
    var s := mm + ":" + ss;
    assert s[..|s| - 3] == mm;
    assert s[|s| - 2..] == ss;
  }

  lemma {:induction false} ColonSplit(mm: string, ss: string)
    requires |mm| >= 2 && |ss| == 2
    ensures var s := mm + ":" + ss;
      |s| >= 5 && s[|s| - 3] == ':' && s[..|s| - 3] == mm && s[|s| - 2..] == ss
  {
  }

  // ---------------------------------------------------------------------
  // Detected objects and processVideo
  // ---------------------------------------------------------------------

  /** A detected object (`kind` is the source's `type`). */
  datatype AppObject = AppObject(kind: string, confidence: real, time: real, timeFormatted: string, image: string, bbox: BBox)

  /** The detector's predictions for the video frame at time `t` (`detectObjects` once `currentTime` is `t`). */
  function Detect(detectAt: real -> seq<Prediction>, t: real): seq<Prediction> {
    detectAt(t)
  }

  /** The thumbnail `captureObjectImage` takes of prediction `p` at time `t`. */
  function Snapshot(snapshot: (real, Prediction) -> string, t: real, p: Prediction): string {
    snapshot(t, p)
  }

  /** The object pushed for prediction `p` of the frame at `time`. */
  function ObjectOf(p: Prediction, time: real, snapshot: (real, Prediction) -> string): AppObject {
    AppObject(p.cls, p.score, time, FormatTime(time), Snapshot(snapshot, time, p), p.bbox)
  }

  /** The objects one frame contributes, in the detector's order. */
  function FrameObjects(ps: seq<Prediction>, time: real, snapshot: (real, Prediction) -> string): (r: seq<AppObject>)
    ensures |r| == |ps|
  {
    seq(|ps|, i requires 0 <= i < |ps| => ObjectOf(ps[i], time, snapshot))
  }

  /** The objects of the first `n` analysed frames. */
  function Analysed(n: nat, interval: int, detectAt: real -> seq<Prediction>, snapshot: (real, Prediction) -> string): seq<AppObject> {
    if n == 0 then []
    else
      var t := Sampling.AppFrameTime(n - 1, interval);
      Analysed(n - 1, interval, detectAt, snapshot) + FrameObjects(Detect(detectAt, t), t, snapshot)
  }

  lemma {:induction false} FrameObjectsSnoc(ps: seq<Prediction>, k: nat, time: real, snapshot: (real, Prediction) -> string)
    requires k < |ps|
    ensures FrameObjects(ps[..k + 1], time, snapshot) == FrameObjects(ps[..k], time, snapshot) + [ObjectOf(ps[k], time, snapshot)]
  {
    var a, b := FrameObjects(ps[..k + 1], time, snapshot), FrameObjects(ps[..k], time, snapshot);
    forall j | 0 <= j < k + 1
      ensures a[j] == (b + [ObjectOf(ps[k], time, snapshot)])[j]
    {
      PrefixObjectAt(ps, k + 1, j, time, snapshot);
      if j < k {
        PrefixObjectAt(ps, k, j, time, snapshot);
      }
    }
  }

  lemma {:induction false} PrefixObjectAt(ps: seq<Prediction>, k: nat, j: nat, time: real, snapshot: (real, Prediction) -> string)
    requires j < k <= |ps|
    ensures FrameObjects(ps[..k], time, snapshot)[j] == ObjectOf(ps[j], time, snapshot)
  {
    assert ps[..k][j] == ps[j];
  }

  /** `Math.floor(Math.floor(d * 30) / interval)` frames, none when that is negative. */
  function FrameTotal(duration: real, interval: int): nat
    requires interval >= 1
  {
    var n := Sampling.FramesToProcess(duration, interval);
    if n <= 0 then 0 else n
  }

  /**
    The frames the loop gets through from frame `i` on, out of `n`: a frame
    whose drawing, detection or image capture throws (`fails` at its time)
    ends the loop in the outer `catch`, so the loop stops at the first one.
  */
  function FramesReached(i: nat, n: nat, interval: int, fails: real -> bool): (r: nat)
    ensures i <= n ==> i <= r <= n
    ensures i > n ==> r == n
    ensures forall j :: i <= j < r ==> !fails(Sampling.AppFrameTime(j, interval))
    ensures r < n ==> fails(Sampling.AppFrameTime(r, interval))
    decreases n - i
  {
    if i >= n then n
    else if fails(Sampling.AppFrameTime(i, interval)) then i
    else FramesReached(i + 1, n, interval, fails)
  }

  /** Every object is one of the detector's predictions at its time, with that time's `MM:SS` form. */
  predicate FromDetector(r: seq<AppObject>, detectAt: real -> seq<Prediction>) {
    forall j :: 0 <= j < |r| ==>
      && Prediction(r[j].kind, r[j].confidence, r[j].bbox) in Detect(detectAt, r[j].time)
      && r[j].timeFormatted == FormatTime(r[j].time)
  }

  /** Every object's time lies in `[lo, hi]`. */
  predicate TimesWithin(r: seq<AppObject>, lo: real, hi: real) {
    forall j :: 0 <= j < |r| ==> lo <= r[j].time <= hi
  }

  /** Times never decrease along the list. */
  predicate TimeOrdered(r: seq<AppObject>) {
    forall j, k :: 0 <= j < k < |r| ==> r[j].time <= r[k].time
  }

  /** A frame's objects all carry the frame's time and come from its predictions. */
  lemma {:induction false} FrameObjectsFacts(time: real, detectAt: real -> seq<Prediction>, snapshot: (real, Prediction) -> string)
    ensures var f := FrameObjects(Detect(detectAt, time), time, snapshot);
      FromDetector(f, detectAt) && TimesWithin(f, time, time) && TimeOrdered(f)
  {
    var ps := Detect(detectAt, time);
    var f := FrameObjects(ps, time, snapshot);
    forall j | 0 <= j < |f|
      ensures f[j].time == time && f[j].timeFormatted == FormatTime(time)
      ensures Prediction(f[j].kind, f[j].confidence, f[j].bbox) in Detect(detectAt, f[j].time)
    {
      assert f[j] == ObjectOf(ps[j], time, snapshot);
    }
  }

  lemma {:induction false} ConcatFacts(a: seq<AppObject>, b: seq<AppObject>, detectAt: real -> seq<Prediction>, lo: real, mid: real, hi: real)
    requires FromDetector(a, detectAt) && FromDetector(b, detectAt)
    requires lo <= mid <= hi && TimesWithin(a, lo, mid) && TimesWithin(b, mid, hi) && TimeOrdered(a) && TimeOrdered(b)
    ensures FromDetector(a + b, detectAt) && TimesWithin(a + b, lo, hi) && TimeOrdered(a + b)
  {
    var r := a + b;
    forall j | 0 <= j < |r|
      ensures Prediction(r[j].kind, r[j].confidence, r[j].bbox) in Detect(detectAt, r[j].time)
      ensures r[j].timeFormatted == FormatTime(r[j].time) && lo <= r[j].time <= hi
    {
      if j < |a| {
        assert r[j] == a[j];
      } else {
        assert r[j] == b[j - |a|];
      }
    }
    forall j, k | 0 <= j < k < |r| ensures r[j].time <= r[k].time {
      if k < |a| {
        assert r[j] == a[j] && r[k] == a[k];
      } else if j < |a| {
        assert r[j] == a[j] && r[k] == b[k - |a|];
      } else {
        assert r[j] == b[j - |a|] && r[k] == b[k - |a|];
      }
    }
  }

  /** The objects of the first `n` frames come from the detector, lie between 0 and the last frame's time, in frame order. */
  lemma {:induction false} AnalysedSound(n: nat, interval: int, detectAt: real -> seq<Prediction>,
                                         snapshot: (real, Prediction) -> string)
    requires interval >= 1
    ensures var r := Analysed(n, interval, detectAt, snapshot);
      FromDetector(r, detectAt) && TimesWithin(r, 0.0, Sampling.AppFrameTime(n - 1, interval)) && TimeOrdered(r)
  {
    if n > 0 {
      var t := Sampling.AppFrameTime(n - 1, interval);
      var before := Analysed(n - 1, interval, detectAt, snapshot);
      FrameObjectsFacts(t, detectAt, snapshot);
      FrameTimeOrder(0, n - 1, interval);
      if n > 1 {
        AnalysedSound(n - 1, interval, detectAt, snapshot);
        FrameTimeOrder(n - 2, n - 1, interval);
        assert TimesWithin(before, 0.0, t);
      }
      ConcatFacts(before, FrameObjects(Detect(detectAt, t), t, snapshot), detectAt, 0.0, t, t);
    }
  }

  lemma {:induction false} FrameTimeOrder(i: int, j: int, interval: int)
    requires 0 <= i <= j && interval >= 1
    ensures 0.0 <= Sampling.AppFrameTime(i, interval) <= Sampling.AppFrameTime(j, interval)
  {
    Sampling.MulIntLeft(i, j, interval);
    assert 0 <= i * interval;
  }

  /** Every prediction of every analysed frame is on the list, with that frame's time. */
  lemma {:induction false} AnalysedComplete(n: nat, interval: int, detectAt: real -> seq<Prediction>,
                                            snapshot: (real, Prediction) -> string, i: nat, p: Prediction)
    requires interval >= 1 && i < n
    requires p in Detect(detectAt, Sampling.AppFrameTime(i, interval))
    ensures ObjectOf(p, Sampling.AppFrameTime(i, interval), snapshot) in Analysed(n, interval, detectAt, snapshot)
  {
    var o := ObjectOf(p, Sampling.AppFrameTime(i, interval), snapshot);
    AnalysedLast(i + 1, interval, detectAt, snapshot, p);
    AnalysedPrefix(i + 1, n, interval, detectAt, snapshot);
    InPrefix(Analysed(n, interval, detectAt, snapshot), |Analysed(i + 1, interval, detectAt, snapshot)|, o);
  }

  /** The objects of the first `m` frames start the objects of the first `n`, for `m <= n`. */
  lemma {:induction false} AnalysedPrefix(m: nat, n: nat, interval: int, detectAt: real -> seq<Prediction>,
                                          snapshot: (real, Prediction) -> string)
    requires m <= n
    ensures |Analysed(m, interval, detectAt, snapshot)| <= |Analysed(n, interval, detectAt, snapshot)|
    ensures Analysed(n, interval, detectAt, snapshot)[..|Analysed(m, interval, detectAt, snapshot)|] == Analysed(m, interval, detectAt, snapshot)
    decreases n
  {
    if m < n {
      AnalysedPrefix(m, n - 1, interval, detectAt, snapshot);
      var t := Sampling.AppFrameTime(n - 1, interval);
      PrefixOfConcat(Analysed(n - 1, interval, detectAt, snapshot), FrameObjects(Detect(detectAt, t), t, snapshot),
                     |Analysed(m, interval, detectAt, snapshot)|);
    }
  }

  lemma {:induction false} PrefixOfConcat(a: seq<AppObject>, b: seq<AppObject>, k: nat)
    requires k <= |a|
    ensures (a + b)[..k] == a[..k]
  {
  }

  lemma {:induction false} InPrefix(s: seq<AppObject>, k: nat, x: AppObject)
    requires k <= |s| && x in s[..k]
    ensures x in s
  {
    var j :| 0 <= j < k && s[..k][j] == x;
    assert s[j] == x;
  }

  /** The predictions of frame `n - 1` are among the objects of the first `n` frames. */
  lemma {:induction false} AnalysedLast(n: nat, interval: int, detectAt: real -> seq<Prediction>,
                                        snapshot: (real, Prediction) -> string, p: Prediction)
    requires n > 0 && p in Detect(detectAt, Sampling.AppFrameTime(n - 1, interval))
    ensures ObjectOf(p, Sampling.AppFrameTime(n - 1, interval), snapshot) in Analysed(n, interval, detectAt, snapshot)
  {
    var t := Sampling.AppFrameTime(n - 1, interval);
    InFrameObjects(Detect(detectAt, t), t, snapshot, p);
    InConcat(Analysed(n - 1, interval, detectAt, snapshot), FrameObjects(Detect(detectAt, t), t, snapshot), ObjectOf(p, t, snapshot));
  }

  lemma {:induction false} PushAssociates(a: seq<AppObject>, b: seq<AppObject>, x: AppObject)
    ensures a + (b + [x]) == (a + b) + [x]
  {
  }

  lemma {:induction false} InConcat(a: seq<AppObject>, b: seq<AppObject>, x: AppObject)
    requires x in b
    ensures x in a + b
  {
    var k :| 0 <= k < |b| && b[k] == x;
    assert (a + b)[|a| + k] == x;
  }

  lemma {:induction false} InFrameObjects(ps: seq<Prediction>, time: real, snapshot: (real, Prediction) -> string, p: Prediction)
    requires p in ps
    ensures ObjectOf(p, time, snapshot) in FrameObjects(ps, time, snapshot)
  {
    var k :| 0 <= k < |ps| && ps[k] == p;
    assert FrameObjects(ps, time, snapshot)[k] == ObjectOf(p, time, snapshot);
  }

  /** How many predictions the first `n` analysed frames give. */
  function PredictionCount(n: nat, interval: int, detectAt: real -> seq<Prediction>): nat {
    if n == 0 then 0
    else PredictionCount(n - 1, interval, detectAt) + |Detect(detectAt, Sampling.AppFrameTime(n - 1, interval))|
  }

  /** The list has exactly as many objects as the first `n` frames have predictions. */
  lemma {:induction false} AnalysedLength(n: nat, interval: int, detectAt: real -> seq<Prediction>,
                                          snapshot: (real, Prediction) -> string)
    ensures |Analysed(n, interval, detectAt, snapshot)| == PredictionCount(n, interval, detectAt)
    decreases n
  {
    if n > 0 {
      AnalysedLength(n - 1, interval, detectAt, snapshot);
    }
  }

  /** The `k`-th prediction of frame `i < n` sits at position `PredictionCount(i) + k`, stamped with the frame's time. */
  lemma {:induction false} AnalysedAt(n: nat, interval: int, detectAt: real -> seq<Prediction>,
                                      snapshot: (real, Prediction) -> string, i: nat, k: nat)
    requires i < n && k < |Detect(detectAt, Sampling.AppFrameTime(i, interval))|
    ensures PredictionCount(i, interval, detectAt) + k < |Analysed(n, interval, detectAt, snapshot)|
    ensures Analysed(n, interval, detectAt, snapshot)[PredictionCount(i, interval, detectAt) + k]
            == ObjectOf(Detect(detectAt, Sampling.AppFrameTime(i, interval))[k], Sampling.AppFrameTime(i, interval), snapshot)
  {
    var t := Sampling.AppFrameTime(i, interval);
    AnalysedBlocks(n, interval, detectAt, snapshot);
    AnalysedBlocks(i, interval, detectAt, snapshot);
    AnalysedLength(i, interval, detectAt, snapshot);
    BlocksAt(n, FrameBlock(interval, detectAt, snapshot), i, k);
    FrameObjectsAt(Detect(detectAt, t), t, snapshot, k);
  }

  /** The objects of frame `i`, as a block of the list. */
  function FrameBlock(interval: int, detectAt: real -> seq<Prediction>, snapshot: (real, Prediction) -> string): nat -> seq<AppObject> {
    i => FrameObjects(Detect(detectAt, Sampling.AppFrameTime(i, interval)), Sampling.AppFrameTime(i, interval), snapshot)
  }

  /** The list is the concatenation of the frames' blocks. */
  lemma {:induction false} AnalysedBlocks(n: nat, interval: int, detectAt: real -> seq<Prediction>,
                                          snapshot: (real, Prediction) -> string)
    ensures Analysed(n, interval, detectAt, snapshot) == Blocks(n, FrameBlock(interval, detectAt, snapshot))
    decreases n
  {
    if n > 0 {
      AnalysedBlocks(n - 1, interval, detectAt, snapshot);
      var t := Sampling.AppFrameTime(n - 1, interval);
      var block := FrameBlock(interval, detectAt, snapshot);
      AppendEqual(Analysed(n - 1, interval, detectAt, snapshot), FrameObjects(Detect(detectAt, t), t, snapshot),
                  Blocks(n - 1, block), block(n - 1));
    }
  }

  lemma {:induction false} AppendEqual(a: seq<AppObject>, b: seq<AppObject>, c: seq<AppObject>, d: seq<AppObject>)
    requires a == c && b == d
    ensures a + b == c + d
  {
  }

  lemma {:induction false} FrameObjectsAt(ps: seq<Prediction>, time: real, snapshot: (real, Prediction) -> string, k: nat)
    requires k < |ps|
    ensures FrameObjects(ps, time, snapshot)[k] == ObjectOf(ps[k], time, snapshot)
  {
  }

  /** The `k`-th prediction of frame `i` is the object at position `PredictionCount(i) + k`, stamped with frame `i`'s time. */
  predicate LaidOutAt(r: seq<AppObject>, interval: int, detectAt: real -> seq<Prediction>,
                      snapshot: (real, Prediction) -> string, i: nat, k: nat)
    requires k < |Detect(detectAt, Sampling.AppFrameTime(i, interval))|
  {
    var t := Sampling.AppFrameTime(i, interval);
    PredictionCount(i, interval, detectAt) + k < |r| &&
    r[PredictionCount(i, interval, detectAt) + k] == ObjectOf(Detect(detectAt, t)[k], t, snapshot)
  }

  /**
    The frames are laid out one after another: the list has exactly as many
    objects as the first `n` frames have predictions, and each prediction of
    each of those frames is at its own place.
  */
  predicate LaidOut(r: seq<AppObject>, n: nat, interval: int, detectAt: real -> seq<Prediction>,
                    snapshot: (real, Prediction) -> string)
  {
    && |r| == PredictionCount(n, interval, detectAt)
    && forall i: nat, k: nat :: i < n && k < |Detect(detectAt, Sampling.AppFrameTime(i, interval))| ==>
         LaidOutAt(r, interval, detectAt, snapshot, i, k)
  }

  /** Each prediction appears once per frame that gives it, at its frame's place, and nothing else is on the list. */
  lemma {:induction false} AnalysedLayout(n: nat, interval: int, detectAt: real -> seq<Prediction>,
                                          snapshot: (real, Prediction) -> string)
    ensures LaidOut(Analysed(n, interval, detectAt, snapshot), n, interval, detectAt, snapshot)
  {
    var r := Analysed(n, interval, detectAt, snapshot);
    AnalysedLength(n, interval, detectAt, snapshot);
    forall i: nat, k: nat | i < n && k < |Detect(detectAt, Sampling.AppFrameTime(i, interval))|
      ensures LaidOutAt(r, interval, detectAt, snapshot, i, k)
    {
      AnalysedAt(n, interval, detectAt, snapshot, i, k);
    }
  }

  /** Every object's time is the time of one of the first `n` frames. */
  predicate AtFrameTimes(r: seq<AppObject>, n: nat, interval: int) {
    forall j :: 0 <= j < |r| ==> exists i :: 0 <= i < n && r[j].time == Sampling.AppFrameTime(i, interval)
  }

  lemma {:induction false} AnalysedAtFrameTimes(n: nat, interval: int, detectAt: real -> seq<Prediction>,
                                                snapshot: (real, Prediction) -> string)
    ensures AtFrameTimes(Analysed(n, interval, detectAt, snapshot), n, interval)
    decreases n
  {
    if n > 0 {
      AnalysedAtFrameTimes(n - 1, interval, detectAt, snapshot);
      var t := Sampling.AppFrameTime(n - 1, interval);
      var before := Analysed(n - 1, interval, detectAt, snapshot);
      var f := FrameObjects(Detect(detectAt, t), t, snapshot);
      var r := before + f;
      forall j | 0 <= j < |r| ensures exists i :: 0 <= i < n && r[j].time == Sampling.AppFrameTime(i, interval) {
        if j < |before| {
          assert r[j] == before[j];
          var i :| 0 <= i < n - 1 && before[j].time == Sampling.AppFrameTime(i, interval);
        } else {
          assert r[j] == f[j - |before|];
          assert r[j].time == Sampling.AppFrameTime(n - 1, interval);
        }
      }
    }
  }

  /**
    The list `processVideo` builds holds, for every one of the
    `floor(floor(d * 30) / interval)` frames at `i * interval / 30`, each of
    its predictions, stamped with that time and its `MM:SS` form, and
    nothing else, in frame order; every time lies in `[0, duration)`.
  */
  lemma {:induction false} AnalysedSpec(duration: real, interval: int, detectAt: real -> seq<Prediction>, snapshot: (real, Prediction) -> string)
    requires interval >= 1
    ensures var n := FrameTotal(duration, interval);
      var r := Analysed(n, interval, detectAt, snapshot);
      && FromDetector(r, detectAt) && TimeOrdered(r) && AtFrameTimes(r, n, interval)
      && (forall j :: 0 <= j < |r| ==> 0.0 <= r[j].time < duration)
      && (forall i, p :: 0 <= i < n && p in Detect(detectAt, Sampling.AppFrameTime(i, interval)) ==>
            ObjectOf(p, Sampling.AppFrameTime(i, interval), snapshot) in r)
      && LaidOut(r, n, interval, detectAt, snapshot)
  {
    var n := FrameTotal(duration, interval);
    var r := Analysed(n, interval, detectAt, snapshot);
    AnalysedSound(n, interval, detectAt, snapshot);
    AnalysedBeforeEnd(duration, interval, detectAt, snapshot);
    AnalysedAtFrameTimes(n, interval, detectAt, snapshot);
    AnalysedLayout(n, interval, detectAt, snapshot);
    forall i, p | 0 <= i < n && p in Detect(detectAt, Sampling.AppFrameTime(i, interval))
      ensures ObjectOf(p, Sampling.AppFrameTime(i, interval), snapshot) in r
    {
      AnalysedComplete(n, interval, detectAt, snapshot, i, p);
    }
  }

  /** Every analysed time lies in `[0, duration)`. */
  lemma {:induction false} AnalysedBeforeEnd(duration: real, interval: int, detectAt: real -> seq<Prediction>, snapshot: (real, Prediction) -> string)
    requires interval >= 1
    ensures var r := Analysed(FrameTotal(duration, interval), interval, detectAt, snapshot);
      forall j :: 0 <= j < |r| ==> 0.0 <= r[j].time < duration
  {
    var n := FrameTotal(duration, interval);
    if n > 0 {
      var r := Analysed(n, interval, detectAt, snapshot);
      var last := Sampling.AppFrameTime(n - 1, interval);
      AnalysedSound(n, interval, detectAt, snapshot);
      assert TimesWithin(r, 0.0, last);
      Sampling.AppFrameTimeInside(duration, interval, n - 1);
      assert last < duration;
      forall j | 0 <= j < |r| ensures 0.0 <= r[j].time < duration {
        assert 0.0 <= r[j].time <= last;
      }
    }
  }

  // ---------------------------------------------------------------------
  // renderObjects and drawDetections
  // ---------------------------------------------------------------------

  /** The type filter: objects whose lower-cased type contains the lower-cased query; an empty query keeps the list itself. */
  function TypeFilter(objects: seq<AppObject>, query: string): seq<AppObject> {
    var q := Text.ToLower(query);
    if q == "" then objects else Filter(objects, (o: AppObject) => Text.Contains(Text.ToLower(o.kind), q))
  }

  /**
    The filter keeps exactly the objects whose lower-cased type contains the
    lower-cased query, in their order; with an empty query it is the input.
  */
  lemma {:induction false} TypeFilterSpec(objects: seq<AppObject>, query: string)
    ensures var r := TypeFilter(objects, query);
      && (forall o :: o in r <==> o in objects && Text.Contains(Text.ToLower(o.kind), Text.ToLower(query)))
      && IsSubsequence(r, objects)
      && (Text.ToLower(query) == "" ==> r == objects)
  {
    var q := Text.ToLower(query);
    var keep := (o: AppObject) => Text.Contains(Text.ToLower(o.kind), q);
    if q == "" {
      forall o | o in objects ensures Text.Contains(Text.ToLower(o.kind), q) {
        Text.ContainsTrivial(Text.ToLower(o.kind));
      }
      SubsequenceSelf(objects);
    } else {
      FilterIsSubsequence(objects, keep);
    }
  }

  lemma {:induction false} SubsequenceSelf<T>(s: seq<T>)
    ensures IsSubsequence(s, s)
  {
    if s != [] {
      SubsequenceSelf(s[1..]);
    }
  }

  /** The comparator of `renderObjects` for a sort choice; `None` leaves the order alone. */
  function Comparator(sortValue: string): Option<(AppObject, AppObject) -> bool> {
    if sortValue == "confidence" then Some((a: AppObject, b: AppObject) => b.confidence - a.confidence < 0.0)
    else if sortValue == "time" then Some((a: AppObject, b: AppObject) => a.time - b.time < 0.0)
    else if sortValue == "type" then Some((a: AppObject, b: AppObject) => LexLess(a.kind, b.kind))
    else None
  }

  /** The sort step of `renderObjects`. */
  function Arranged(objects: seq<AppObject>, sortValue: string): seq<AppObject> {
    match Comparator(sortValue)
    case None => objects
    case Some(less) => SortBy(objects, less)
  }

  /**
    Sorting rearranges the objects: by descending confidence, by ascending
    time, or by type in code-unit order; an unknown choice keeps the order.
  */
  lemma {:induction false} ArrangedSpec(objects: seq<AppObject>, sortValue: string)
    ensures var r := Arranged(objects, sortValue);
      && multiset(r) == multiset(objects)
      && (sortValue == "confidence" ==> forall i, j :: 0 <= i < j < |r| ==> r[i].confidence >= r[j].confidence)
      && (sortValue == "time" ==> forall i, j :: 0 <= i < j < |r| ==> r[i].time <= r[j].time)
      && (sortValue == "type" ==> forall i, j :: 0 <= i < j < |r| ==> !LexLess(r[j].kind, r[i].kind))
      && (Comparator(sortValue).None? ==> r == objects)
  {
    match Comparator(sortValue)
    case None =>
    case Some(less) =>
      if sortValue == "type" {
        LexLessIsStrictWeakOrder();
        assert forall a: AppObject, b: AppObject :: less(a, b) == LexLess(a.kind, b.kind);
      }
      assert StrictWeakOrder(less);
      SortBySorted(objects, less);
  }

  /** `drawDetections`: the objects within 0.1 s of the playback time. */
  function Relevant(objects: seq<AppObject>, currentTime: real): seq<AppObject> {
    Filter(objects, (o: AppObject) => -0.1 <= o.time - currentTime <= 0.1)
  }

  /** Exactly the objects with `|time - currentTime| <= 0.1` are drawn, in list order. */
  lemma {:induction false} RelevantSpec(objects: seq<AppObject>, currentTime: real)
    ensures var r := Relevant(objects, currentTime);
      && (forall o :: o in r <==> o in objects && -0.1 <= o.time - currentTime <= 0.1)
      && IsSubsequence(r, objects)
  {
    FilterIsSubsequence(objects, (o: AppObject) => -0.1 <= o.time - currentTime <= 0.1);
  }

  // ---------------------------------------------------------------------
  // History
  // ---------------------------------------------------------------------

  /**
    One history entry; `id` is `Date.now()` and `timestamp` the instant `new Date()` read, both in
    milliseconds, and `thumbnail` is null (`None`) without objects.
  */
  datatype HistoryEntry = HistoryEntry(id: int, timestamp: int, videoName: string, thumbnail: Option<string>,
                                       objectCount: int, objects: seq<AppObject>)

  /** The entry `addToHistory` builds from the current objects. */
  function EntryOf(objects: seq<AppObject>, now: int, date: int, videoName: string): HistoryEntry {
    HistoryEntry(now, date, videoName, if |objects| > 0 then Some(objects[0].image) else None, |objects|, objects)
  }

  /** The entry counts the objects, copies them, and has a thumbnail exactly when there is an object, the first one's image. */
  lemma {:induction false} EntryOfSpec(objects: seq<AppObject>, now: int, date: int, videoName: string)
    ensures var e := EntryOf(objects, now, date, videoName);
      && e.id == now && e.timestamp == date && e.videoName == videoName
      && e.objectCount == |objects| && e.objects == objects
      && (e.thumbnail.None? <==> objects == [])
      && (e.thumbnail.Some? ==> e.thumbnail.value == objects[0].image)
  {
  }

  /** `videoHistory.filter(item => item.id !== id)`. */
  function WithoutId(history: seq<HistoryEntry>, id: int): seq<HistoryEntry> {
    Filter(history, (e: HistoryEntry) => e.id != id)
  }

  /** Deletion removes every entry with the id and keeps every other entry, in order; an absent id changes nothing. */
  lemma {:induction false} WithoutIdSpec(history: seq<HistoryEntry>, id: int)
    ensures var r := WithoutId(history, id);
      && (forall e :: e in r <==> e in history && e.id != id)
      && IsSubsequence(r, history)
      && ((forall e :: e in history ==> e.id != id) ==> r == history)
  {
    var keep := (e: HistoryEntry) => e.id != id;
    FilterIsSubsequence(history, keep);
    if forall e :: e in history ==> e.id != id {
      FilterAll(history, keep);
    }
  }

  /** The page's globals, and the `videoHistory` record of `localStorage` in `storedHistory`. */
  class AppState {
    var detectedObjects: seq<AppObject>
    var videoHistory: seq<HistoryEntry>
    var storedHistory: seq<HistoryEntry>

    /** `loadHistory`: the page starts from the stored record (`[]` when there is none). */
    constructor(savedHistory: seq<HistoryEntry>)
      ensures detectedObjects == [] && videoHistory == savedHistory && storedHistory == savedHistory
    {
      detectedObjects := [];
      videoHistory := savedHistory;
      storedHistory := savedHistory;
    }


    /**
      The analysis loop of `processVideo`; `finished` says whether the page
      goes on to show the results and add them to the history. Without a
      model the page only raises an alert. A frame that throws aborts the loop
      into the outer `catch`, which keeps the objects of the frames before it
      and shows nothing.
    */
    method ProcessVideo(modelLoaded: bool, duration: real, interval: int,
                        detectAt: real -> seq<Prediction>, fails: real -> bool, snapshot: (real, Prediction) -> string)
      returns (finished: bool)
      requires interval >= 1
      modifies this
      ensures !modelLoaded ==> detectedObjects == old(detectedObjects) && !finished
      ensures modelLoaded ==>
        var reached := FramesReached(0, FrameTotal(duration, interval), interval, fails);
        && detectedObjects == Analysed(reached, interval, detectAt, snapshot)
        && finished == (reached == FrameTotal(duration, interval))
      ensures videoHistory == old(videoHistory) && storedHistory == old(storedHistory)
    {
      if !modelLoaded {
        return false;
      }
      detectedObjects := [];
      var framesToProcess := Sampling.FramesToProcess(duration, interval);
      ghost var total := FrameTotal(duration, interval);
      var i := 0;
      while i < framesToProcess
        invariant 0 <= i <= total
        invariant FramesReached(i, total, interval, fails) == FramesReached(0, total, interval, fails)
        invariant detectedObjects == Analysed(i, interval, detectAt, snapshot)
        invariant videoHistory == old(videoHistory) && storedHistory == old(storedHistory)
        decreases framesToProcess - i
      {
        var frameTime := (i * interval) as real / 30.0;
        assert frameTime == Sampling.AppFrameTime(i, interval);
        if fails(frameTime) {
          return false;
        }
        var predictions := Detect(detectAt, frameTime);
        PushFrameObjects(predictions, frameTime, snapshot);
        i := i + 1;
      }
      assert i == total;
      finished := true;
    }

    /** The `forEach` over one frame's predictions: each becomes an object pushed onto `detectedObjects`. */
    method PushFrameObjects(predictions: seq<Prediction>, frameTime: real, snapshot: (real, Prediction) -> string)
      modifies this
      ensures detectedObjects == old(detectedObjects) + FrameObjects(predictions, frameTime, snapshot)
      ensures videoHistory == old(videoHistory) && storedHistory == old(storedHistory)
    {
      for k := 0 to |predictions|
        invariant detectedObjects == old(detectedObjects) + FrameObjects(predictions[..k], frameTime, snapshot)
        invariant videoHistory == old(videoHistory) && storedHistory == old(storedHistory)
      {
        var p := predictions[k];
        FrameObjectsSnoc(predictions, k, frameTime, snapshot);
        PushAssociates(old(detectedObjects), FrameObjects(predictions[..k], frameTime, snapshot), ObjectOf(p, frameTime, snapshot));
        detectedObjects := detectedObjects + [AppObject(p.cls, p.score, frameTime, FormatTime(frameTime), Snapshot(snapshot, frameTime, p), p.bbox)];
      }
      assert predictions[..|predictions|] == predictions;
    }

    /**
      `renderObjects`: the shown list is the filtered list, sorted. With no
      query the filtered list is `detectedObjects` itself, so the sort
      reorders the page's list too.
    */
    method RenderObjects(query: string, sortValue: string) returns (shown: seq<AppObject>)
      modifies this
      ensures shown == Arranged(TypeFilter(old(detectedObjects), query), sortValue)
      ensures detectedObjects == if Text.ToLower(query) == "" then shown else old(detectedObjects)
      ensures videoHistory == old(videoHistory) && storedHistory == old(storedHistory)
    {
      var filterValue := Text.ToLower(query);
      if filterValue != "" {
        shown := TypeFilter(detectedObjects, query);
        shown := Arranged(shown, sortValue);
      } else {
        detectedObjects := Arranged(detectedObjects, sortValue);
        shown := detectedObjects;
      }
    }

    /** `addToHistory`: the entry is appended, without a cap, and the history is saved. */
    method AddToHistory(now: int, date: int, videoName: string)
      modifies this
      ensures videoHistory == old(videoHistory) + [EntryOf(detectedObjects, now, date, videoName)]
      ensures storedHistory == videoHistory
      ensures detectedObjects == old(detectedObjects)
    {
      var thumbnail := if |detectedObjects| > 0 then Some(detectedObjects[0].image) else None;
      videoHistory := videoHistory + [HistoryEntry(now, date, videoName, thumbnail, |detectedObjects|, detectedObjects)];
      storedHistory := videoHistory;
    }

    /** `deleteHistoryItem`: on confirmation, every entry with the id goes and the history is saved. */
    method DeleteHistoryItem(id: int, confirmed: bool)
      modifies this
      ensures videoHistory == if confirmed then WithoutId(old(videoHistory), id) else old(videoHistory)
      ensures storedHistory == if confirmed then videoHistory else old(storedHistory)
      ensures detectedObjects == old(detectedObjects)
    {
      if confirmed {
        videoHistory := Filter(videoHistory, (e: HistoryEntry) => e.id != id);
        storedHistory := videoHistory;
      }
    }
  }
}
