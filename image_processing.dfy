/**
  `applyImageEnhancement` of js/imageProcessing.js: which path a level
  takes (nothing, the worker, or the main thread) and the canvas contents
  that result when the path completes.
*/
module ImageProcessing {

  import opened Pixels
  import opened Image
  import opened Enhancement
  import EnhancementWorker

  datatype Route = Skipped | Worker | MainThread

  /** Level `'none'` returns at once; every other level except `'basic'` goes to a worker when one is available. */
  function EnhancementRoute(level: string, workerSupported: bool): (r: Route)
    ensures r == Skipped <==> level == "none"
    ensures r == Worker <==> level != "none" && level != "basic" && workerSupported
  {
    if level == "none" then Skipped
    else if workerSupported && level != "basic" then Worker
    else MainThread
  }

  /**
    The canvas pixels once the returned promise resolves: unchanged when
    skipped, the worker's reply on the worker path, `enhanceImageData` on
    the main thread.
  */
  function ApplyImageEnhancement(s: seq<Byte>, width: nat, height: nat, level: string, workerSupported: bool,
                                 exp: real -> real): (r: seq<Byte>)
    requires Shaped(|s|, width, height)
    requires forall t :: exp(t) > 0.0
    ensures |r| == |s|
  {
    match EnhancementRoute(level, workerSupported)
    case Skipped => s
    case Worker => EnhancementWorker.Reply(s, width, height, level, exp)
    case MainThread => Enhanced(s, width, height, level, exp)
  }

  /** Level `'none'` leaves the canvas as it is. */
  lemma {:induction false} NoneIsNoOp(s: seq<Byte>, width: nat, height: nat, workerSupported: bool, exp: real -> real)
    requires Shaped(|s|, width, height)
    requires forall t :: exp(t) > 0.0
    ensures ApplyImageEnhancement(s, width, height, "none", workerSupported, exp) == s
  {
  }

  /** For the three named levels the route does not matter: the worker computes what the main thread does. */
  lemma {:induction false} RouteIrrelevantForKnownLevels(s: seq<Byte>, width: nat, height: nat, level: string, exp: real -> real)
    requires Shaped(|s|, width, height)
    requires forall t :: exp(t) > 0.0
    requires level == "basic" || level == "advanced" || level == "ultra"
    ensures ApplyImageEnhancement(s, width, height, level, true, exp) ==
            ApplyImageEnhancement(s, width, height, level, false, exp) ==
            Enhanced(s, width, height, level, exp)
  {
  }

  /**
    For any other level the route decides the outcome: the worker applies
    the basic enhancement, the main thread changes nothing.
  */
  lemma {:induction false} UnknownLevelByRoute(s: seq<Byte>, width: nat, height: nat, level: string, exp: real -> real)
    requires Shaped(|s|, width, height)
    requires forall t :: exp(t) > 0.0
    requires level != "none" && level != "basic" && level != "advanced" && level != "ultra"
    ensures ApplyImageEnhancement(s, width, height, level, true, exp) == ColourPass(s, 1.15, 1.2)
    ensures ApplyImageEnhancement(s, width, height, level, false, exp) == s
  {
  }

  /** One light grey pixel where the two routes for the level `"high"` give different canvases. */
  lemma {:induction false} UnknownLevelRoutesDiffer(exp: real -> real)
    requires forall t :: exp(t) > 0.0
    ensures ApplyImageEnhancement([200, 200, 200, 255], 1, 1, "high", true, exp)[0] == 211
    ensures ApplyImageEnhancement([200, 200, 200, 255], 1, 1, "high", false, exp)[0] == 200
  {
    var s: seq<Byte> := [200, 200, 200, 255];
    UnknownLevelByRoute(s, 1, 1, "high", exp);
    assert Contrast(200, 1.15) == 211 by {
      assert (200.0 - 128.0) * 1.15 + 128.0 == 210.8;
    }
    GrayStaysGray(200, 1.15, 1.2);
    MapPixelsAt(s, p => ContrastSaturate(p, 1.15, 1.2), 0);
    assert PixelAt(s, 0) == Rgb(200, 200, 200);
  }

  /** Whatever the route, the canvas keeps its alpha bytes. */
  lemma {:induction false} ApplyKeepsAlpha(s: seq<Byte>, width: nat, height: nat, level: string, workerSupported: bool,
                        exp: real -> real, j: nat)
    requires Shaped(|s|, width, height) && j < |s| && IsAlpha(j)
    requires forall t :: exp(t) > 0.0
    ensures ApplyImageEnhancement(s, width, height, level, workerSupported, exp)[j] == s[j]
  {
    EnhancedKeepsAlpha(s, width, height, level, exp, j);
    EnhancementWorker.ReplyKeepsAlpha(s, width, height, level, exp, j);
  }
}
