/** Values the detectors pass around: boxes, raw predictions and dated detections. */
module Predictions {

  /** `[x, y, width, height]` of a box, in canvas pixels. */
  datatype BBox = BBox(x: real, y: real, width: real, height: real)

  /** One element of the detector's result: class name, score and box. */
  datatype Prediction = Prediction(cls: string, score: real, bbox: BBox)

  /** A prediction kept by the root detector, stamped with its frame time (the cropped image is not modelled). */
  datatype Detection = Detection(cls: string, score: real, bbox: BBox, time: real)

  function Stamp(p: Prediction, time: real): Detection {
    Detection(p.cls, p.score, p.bbox, time)
  }

  /** The prediction a detection was made from. */
  function Unstamp(d: Detection): Prediction {
    Prediction(d.cls, d.score, d.bbox)
  }

  /** Every prediction stamped with `time`, in order. */
  function StampAll(ps: seq<Prediction>, time: real): (ds: seq<Detection>)
    ensures |ds| == |ps|
  {
    seq(|ps|, i requires 0 <= i < |ps| => Stamp(ps[i], time))
  }

  /** Removing the stamps gives back the predictions. */
  lemma {:induction false} StampAllRoundTrip(ps: seq<Prediction>, time: real)
    ensures seq(|ps|, i requires 0 <= i < |ps| => Unstamp(StampAll(ps, time)[i])) == ps
  {
  }

  lemma {:induction false} StampAllConcat(a: seq<Prediction>, b: seq<Prediction>, time: real)
    ensures StampAll(a + b, time) == StampAll(a, time) + StampAll(b, time)
  {
  }

  /** `pred => pred.score >= threshold`. */
  function ScoreAtLeast(threshold: real): Prediction -> bool {
    (p: Prediction) => p.score >= threshold
  }
}
