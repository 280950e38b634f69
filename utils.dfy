/**
  The size and time arithmetic of `UTILS` (js/utils.js): `formatTime`, the
  aspect fit of `adjustCanvasResolution` and the source square of
  `cropCenterSquare`. The `drawImage` calls are not modelled; a canvas is
  its two dimensions.
*/
module Utils {

  import opened Text
  import opened Pixels

  // ---------------------------------------------------------------------
  // Number arithmetic shared by both formatTime helpers
  // ---------------------------------------------------------------------

  /** `Math.trunc` on a finite number. */
  function Trunc(v: real): (r: int)
    ensures v >= 0.0 ==> r == v.Floor
    ensures v < 0.0 ==> v <= r as real < v + 1.0
  {
    if v >= 0.0 then v.Floor else -((-v).Floor)
  }

  /** The `%` operator on numbers: the remainder of division truncated toward zero; it has the dividend's sign. */
  function JsRemainder(a: real, b: real): real
    requires b != 0.0
  {
    a - b * Trunc(a / b) as real
  }

  /** `Math.floor(t / 60)`. */
  function Minutes(t: real): int {
    (t / 60.0).Floor
  }

  /** `Math.floor(t % 60)`. */
  function Seconds(t: real): int {
    JsRemainder(t, 60.0).Floor
  }

  /** For a non-negative time the two fields split its whole seconds: `minutes * 60 + seconds == floor(t)`, seconds in [0, 60). */
  lemma {:induction false} MinutesSeconds(t: real)
    requires t >= 0.0
    ensures Minutes(t) >= 0 && 0 <= Seconds(t) < 60
    ensures Minutes(t) * 60 + Seconds(t) == t.Floor
  {
    var q := t / 60.0;
    var m := q.Floor;
    assert t == 60.0 * q;
    var r := t - 60.0 * m as real;
    assert JsRemainder(t, 60.0) == r;
    assert 0.0 <= r < 60.0;
    FloorShift(r, 60 * m);
    assert t == r + (60 * m) as real;
  }

  lemma {:induction false} FloorShift(r: real, n: int)
    ensures (r + n as real).Floor == r.Floor + n
  {
  }

  // ---------------------------------------------------------------------
  // formatTime
  // ---------------------------------------------------------------------

  /** `` `${minutes}:${seconds.toString().padStart(2, '0')}` ``. */
  function FormatTime(t: real): string {
    IntToString(Minutes(t)) + ":" + PadStart(IntToString(Seconds(t)), 2, '0')
  }

  /**
    A non-negative time is shown as `M:SS`: the minutes in plain decimal, a
    colon, then exactly two digits of seconds below 60; read back, the two
    fields give the whole seconds of `t`.
  */
  lemma {:induction false} FormatTimeSpec(t: real)
    requires t >= 0.0
    ensures var mm, ss := NatToString(Minutes(t)), FormatTime(t)[|FormatTime(t)| - 2..];
      && FormatTime(t) == mm + ":" + ss
      && |ss| == 2 && AllDigits(ss) && DigitsValue(ss) < 60
      && DigitsValue(mm) * 60 + DigitsValue(ss) == t.Floor
  {
    MinutesSeconds(t);
    var sec := NatToString(Seconds(t));
    var ss := PadStart(sec, 2, '0');
    PadStartValue(sec, 2);
    NatToStringRoundTrip(Seconds(t));
    NatToStringRoundTrip(Minutes(t));
    assert |ss| == 2;
    assert FormatTime(t)[|FormatTime(t)| - 2..] == ss;
  }

  // ---------------------------------------------------------------------
  // adjustCanvasResolution
  // ---------------------------------------------------------------------

  /** Width and height of a canvas, in pixels. */
  datatype Size = Size(width: int, height: int)

  /** `CONFIG.resolutions[quality] || CONFIG.resolutions.high`. */
  function ResolutionFor(quality: string): (r: Size)
    ensures r.width > 0 && r.height > 0
    ensures quality != "medium" && quality != "ultra" ==> r == Size(1920, 1080)
  {
    if quality == "medium" then Size(1280, 720)
    else if quality == "high" then Size(1920, 1080)
    else if quality == "ultra" then Size(3840, 2160)
    else Size(1920, 1080)
  }

  /**
    Fits a `width` x `height` picture into a `boxWidth` x `boxHeight` box
    keeping its aspect ratio: a relatively wider picture takes the full box
    width, any other the full box height, and the other side is rounded.
  */
  function AspectFit(width: real, height: real, boxWidth: int, boxHeight: int): Size
    requires height > 0.0 && boxWidth >= 0 && boxHeight > 0
  {
    var aspect := width / height;
    if aspect > boxWidth as real / boxHeight as real then Size(boxWidth, MathRound(boxWidth as real / aspect))
    else Size(MathRound(boxHeight as real * aspect), boxHeight)
  }

  /**
    The fitted size has one side equal to the box's and the other no larger
    than the box's and not negative; it is the box width exactly when the
    picture is relatively wider than the box.
  */
  lemma {:induction false} AspectFitWithin(width: real, height: real, boxWidth: int, boxHeight: int)
    requires width >= 0.0 && height > 0.0 && boxWidth >= 0 && boxHeight > 0
    ensures var r := AspectFit(width, height, boxWidth, boxHeight);
      && ((r.width == boxWidth && 0 <= r.height <= boxHeight) || (r.height == boxHeight && 0 <= r.width <= boxWidth))
      && (width * boxHeight as real > height * boxWidth as real ==> r.width == boxWidth)
      && (width * boxHeight as real <= height * boxWidth as real ==> r.height == boxHeight)
  {
    var aspect := width / height;
    var ratio := boxWidth as real / boxHeight as real;
    assert aspect * height == width;
    assert ratio * boxHeight as real == boxWidth as real;
    if aspect > ratio {
      var exact := boxWidth as real / aspect;
      assert exact * aspect == boxWidth as real;
      MulLessReal(ratio, aspect, boxHeight as real);
      assert exact < boxHeight as real by {
        if exact >= boxHeight as real {
          MulAtMostReal(boxHeight as real, exact, aspect);
        }
      }
      MulLessReal(ratio, aspect, height * boxHeight as real);
      assert width * boxHeight as real > height * boxWidth as real;
    } else {
      var exact := boxHeight as real * aspect;
      MulAtMostReal(aspect, ratio, boxHeight as real);
      assert exact <= boxWidth as real;
      MulAtMostReal(aspect, ratio, height * boxHeight as real);
      assert width * boxHeight as real <= height * boxWidth as real;
    }
  }

  lemma {:induction false} MulLessReal(u: real, v: real, w: real)
    requires u < v && w > 0.0
    ensures u * w < v * w
  {
  }

  lemma {:induction false} MulAtMostReal(u: real, v: real, w: real)
    requires u <= v && w >= 0.0
    ensures u * w <= v * w
  {
  }

  /** The two dimensions of an HTML canvas. */
  class Canvas {
    var width: int
    var height: int

    constructor(width: int, height: int)
      ensures this.width == width && this.height == height
    {
      this.width := width;
      this.height := height;
    }
  }

  /** `adjustCanvasResolution`: sizes `canvas` to the picture fitted into the quality's resolution. */
  method AdjustCanvasResolution(canvas: Canvas, quality: string, originalWidth: real, originalHeight: real)
    returns (width: int, height: int, aspectRatio: real)
    requires originalHeight > 0.0
    modifies canvas
    ensures Size(width, height) == AspectFit(originalWidth, originalHeight, ResolutionFor(quality).width, ResolutionFor(quality).height)
    ensures canvas.width == width && canvas.height == height
    ensures aspectRatio == originalWidth / originalHeight
  {
    var resolution := ResolutionFor(quality);
    aspectRatio := originalWidth / originalHeight;
    width, height := resolution.width, resolution.height;
    if aspectRatio > width as real / height as real {
      height := MathRound(width as real / aspectRatio);
    } else {
      width := MathRound(height as real * aspectRatio);
    }
    canvas.width := width;
    canvas.height := height;
  }

  // ---------------------------------------------------------------------
  // cropCenterSquare
  // ---------------------------------------------------------------------

  /** The source square `(sx, sy, side)` copied into the target canvas. */
  datatype Square = Square(x: real, y: real, side: real)

  /** `element.width || element.videoWidth`: an unset (zero) dimension falls back to the video's. */
  function SourceDimension(dimension: real, videoDimension: real): real {
    if dimension != 0.0 then dimension else videoDimension
  }

  /** The largest square centred in a `width` x `height` picture. */
  function CenterSquare(width: real, height: real): Square {
    var side := if width <= height then width else height;
    Square((width - side) / 2.0, (height - side) / 2.0, side)
  }

  /**
    The square's side is the smaller dimension; it lies inside the picture,
    centred, flush with the picture on at least one axis.
  */
  lemma {:induction false} CenterSquareInside(width: real, height: real)
    ensures var q := CenterSquare(width, height);
      && (q.side == width || q.side == height) && q.side <= width && q.side <= height
      && q.x >= 0.0 && q.y >= 0.0 && (q.x == 0.0 || q.y == 0.0)
      && q.x + q.side <= width && q.y + q.side <= height
      && q.x == width - (q.x + q.side) && q.y == height - (q.y + q.side)
  {
  }

  /** `cropCenterSquare`: the target canvas becomes `size` x `size` and receives the centre square. */
  method CropCenterSquare(targetCanvas: Canvas, elementWidth: real, videoWidth: real,
                          elementHeight: real, videoHeight: real, size: int)
    returns (source: Square)
    modifies targetCanvas
    ensures targetCanvas.width == size && targetCanvas.height == size
    ensures source == CenterSquare(SourceDimension(elementWidth, videoWidth), SourceDimension(elementHeight, videoHeight))
  {
    targetCanvas.width := size;
    targetCanvas.height := size;
    var width := SourceDimension(elementWidth, videoWidth);
    var height := SourceDimension(elementHeight, videoHeight);
    var minDimension := if width <= height then width else height;
    source := Square((width - minDimension) / 2.0, (height - minDimension) / 2.0, minDimension);
  }
}
