/**
  The enhancement levels of js/imageProcessing.js (and, verbatim, of
  workers/imageEnhancementWorker.js). Each level rewrites an RGBA buffer in
  place. Every pass is specified by a function of the buffer before it.
*/
module Enhancement {

  import opened Pixels
  import opened Image
  import opened Filters

  // ---------------------------------------------------------------------------
  // Pixel-wise passes.

  /** Byte `j` after replacing every pixel's colour by `f` of it; alpha untouched. */
  function MappedByte(s: seq<Byte>, f: Rgb -> Rgb, j: nat): Byte
    requires |s| % 4 == 0 && j < |s|
  {
    if IsAlpha(j) then s[j] else f(PixelAt(s, j / 4)).Channel(j % 4)
  }

  function MapPixels(s: seq<Byte>, f: Rgb -> Rgb): (r: seq<Byte>)
    requires |s| % 4 == 0
    ensures |r| == |s|
    ensures forall j :: 0 <= j < |s| && IsAlpha(j) ==> r[j] == s[j]
  {
    seq(|s|, j requires 0 <= j < |s| => MappedByte(s, f, j))
  }

  /** The colour of pixel `p` after `MapPixels`. */
  lemma {:induction false} MapPixelsAt(s: seq<Byte>, f: Rgb -> Rgb, p: nat)
    requires |s| % 4 == 0 && 4 * p + 3 < |s|
    ensures PixelAt(MapPixels(s, f), p) == f(PixelAt(s, p))
    ensures MapPixels(s, f)[4 * p + 3] == s[4 * p + 3]
  {
    ByteOfPixelAt(p, 0);
    ByteOfPixelAt(p, 1);
    ByteOfPixelAt(p, 2);
    ByteOfPixelAt(p, 3);
  }

  /**
    The `for (i = 0; i < data.length; i += 4)` loop of a pass whose body
    reads pixel `i / 4`, computes its new colour and writes it back.
  */
  method MapPixelsInPlace(data: array<Byte>, f: Rgb -> Rgb)
    requires data.Length % 4 == 0
    modifies data
    ensures data[..] == MapPixels(old(data[..]), f)
  {
    ghost var s := data[..];
    var i := 0;
    while i < data.Length
      invariant 0 <= i <= data.Length && i % 4 == 0
      invariant forall j :: 0 <= j < i ==> data[j] == MappedByte(s, f, j)
      invariant forall j :: i <= j < data.Length ==> data[j] == s[j]
    {
      MapPixelAt(data, s, f, i);
      i := i + 4;
    }
  }

  /** The body of that loop: pixel `i / 4` takes its new colour, the other bytes are kept. */
  method MapPixelAt(data: array<Byte>, ghost s: seq<Byte>, f: Rgb -> Rgb, i: nat)
    requires data.Length == |s| && |s| % 4 == 0 && i % 4 == 0 && i + 3 < |s|
    requires forall j :: i <= j < i + 4 ==> data[j] == s[j]
    modifies data
    ensures forall j :: 0 <= j < data.Length && (j < i || j >= i + 4) ==> data[j] == old(data[j])
    ensures forall j :: i <= j < i + 4 ==> data[j] == MappedByte(s, f, j)
  {
    var q := f(Rgb(data[i], data[i + 1], data[i + 2]));
    data[i] := q.r;
    data[i + 1] := q.g;
    data[i + 2] := q.b;
    MappedPixel(s, f, i);
  }

  lemma {:induction false} MappedPixel(s: seq<Byte>, f: Rgb -> Rgb, i: nat)
    requires |s| % 4 == 0 && i % 4 == 0 && i + 3 < |s|
    ensures var q := f(Rgb(s[i], s[i + 1], s[i + 2]));
      MappedByte(s, f, i) == q.r && MappedByte(s, f, i + 1) == q.g &&
      MappedByte(s, f, i + 2) == q.b && MappedByte(s, f, i + 3) == s[i + 3]
  {
    var p := i / 4;
    assert i == 4 * p;
    ByteOfPixelAt(p, 0);
    ByteOfPixelAt(p, 1);
    ByteOfPixelAt(p, 2);
    ByteOfPixelAt(p, 3);
    assert PixelAt(s, p) == Rgb(s[i], s[i + 1], s[i + 2]);
  }

  /**
    The contrast and saturation pass with factors `k` and `sat`: per pixel,
    three contrast writes, then the grey of the written bytes and three
    saturation writes (`ContrastSaturate`).
  */
  function ColourPass(s: seq<Byte>, k: real, sat: real): (r: seq<Byte>)
    requires |s| % 4 == 0
    ensures |r| == |s|
  {
    MapPixels(s, p => ContrastSaturate(p, k, sat))
  }

  /** `applyBasicEnhancement`: contrast 1.15, saturation 1.2. */
  method BasicEnhancement(data: array<Byte>)
    requires data.Length % 4 == 0
    modifies data
    ensures data[..] == ColourPass(old(data[..]), 1.15, 1.2)
  {
    MapPixelsInPlace(data, p => ContrastSaturate(p, 1.15, 1.2));
  }

  /** A pixel whose three channels are equal. */
  predicate NeutralAt(s: seq<Byte>, p: nat)
    requires 4 * p + 3 <= |s|
  {
    s[4 * p] == s[4 * p + 1] == s[4 * p + 2]
  }

  /**
    The pass keeps a neutral grey pixel neutral (each channel is the
    contrast-stretched input), and keeps mid grey 128 at 128.
  */
  lemma {:induction false} ColourPassKeepsNeutral(s: seq<Byte>, k: real, sat: real, p: nat)
    requires |s| % 4 == 0 && 4 * p + 3 < |s|
    requires NeutralAt(s, p)
    ensures NeutralAt(ColourPass(s, k, sat), p)
    ensures ColourPass(s, k, sat)[4 * p] == Contrast(s[4 * p], k)
    ensures s[4 * p] == 128 ==> ColourPass(s, k, sat)[4 * p] == 128
  {
    var v := s[4 * p];
    MapPixelsAt(s, p => ContrastSaturate(p, k, sat), p);
    assert PixelAt(s, p) == Rgb(v, v, v);
    GrayStaysGray(v, k, sat);
    if v == 128 {
      MidGrayFixed(k, sat);
    }
  }

  // ---------------------------------------------------------------------------
  // applyAutoLevels.

  function Min(a: Byte, b: Byte): Byte { if b < a then b else a }
  function Max(a: Byte, b: Byte): Byte { if b > a then b else a }

  /** `Math.min` of 255 and channel `c` of the first `n` pixels. */
  function ChannelMin(s: seq<Byte>, c: nat, n: nat): Byte
    requires c < 3 && 4 * n <= |s|
  {
    if n == 0 then 255 else Min(ChannelMin(s, c, n - 1), s[4 * (n - 1) + c])
  }

  /** `Math.max` of 0 and channel `c` of the first `n` pixels. */
  function ChannelMax(s: seq<Byte>, c: nat, n: nat): Byte
    requires c < 3 && 4 * n <= |s|
  {
    if n == 0 then 0 else Max(ChannelMax(s, c, n - 1), s[4 * (n - 1) + c])
  }

  /** The scanned minimum is a lower bound, and is attained when there is a pixel. */
  lemma {:induction false} ChannelMinIsMin(s: seq<Byte>, c: nat, n: nat)
    requires c < 3 && 4 * n <= |s|
    ensures forall p :: 0 <= p < n ==> ChannelMin(s, c, n) <= s[4 * p + c]
    ensures n > 0 ==> exists p :: 0 <= p < n && ChannelMin(s, c, n) == s[4 * p + c]
  {
    if n > 0 {
      ChannelMinIsMin(s, c, n - 1);
      if n > 1 && ChannelMin(s, c, n - 1) <= s[4 * (n - 1) + c] {
        var p :| 0 <= p < n - 1 && ChannelMin(s, c, n - 1) == s[4 * p + c];
        assert ChannelMin(s, c, n) == s[4 * p + c];
      } else {
        assert ChannelMin(s, c, n) == s[4 * (n - 1) + c];
      }
    }
  }

  /** The scanned maximum is an upper bound, and is attained when there is a pixel. */
  lemma {:induction false} ChannelMaxIsMax(s: seq<Byte>, c: nat, n: nat)
    requires c < 3 && 4 * n <= |s|
    ensures forall p :: 0 <= p < n ==> s[4 * p + c] <= ChannelMax(s, c, n)
    ensures n > 0 ==> exists p :: 0 <= p < n && ChannelMax(s, c, n) == s[4 * p + c]
  {
    if n > 0 {
      ChannelMaxIsMax(s, c, n - 1);
      if n > 1 && ChannelMax(s, c, n - 1) >= s[4 * (n - 1) + c] {
        var p :| 0 <= p < n - 1 && ChannelMax(s, c, n - 1) == s[4 * p + c];
        assert ChannelMax(s, c, n) == s[4 * p + c];
      } else {
        assert ChannelMax(s, c, n) == s[4 * (n - 1) + c];
      }
    }
  }

  /** The low level of channel `c`: its minimum, or 0 for a constant channel. */
  function LevelLow(s: seq<Byte>, c: nat): Byte
    requires c < 3 && |s| % 4 == 0
  {
    var lo := ChannelMin(s, c, |s| / 4);
    if lo == ChannelMax(s, c, |s| / 4) then 0 else lo
  }

  function LevelHigh(s: seq<Byte>, c: nat): Byte
    requires c < 3 && |s| % 4 == 0
  {
    ChannelMax(s, c, |s| / 4)
  }

  /**
    `255 * (v - lo) / (hi - lo)` stored into the buffer. When `hi == lo` the
    quotient is 0 / 0, NaN, which a `Uint8ClampedArray` stores as 0.
  */
  function LevelByte(v: Byte, lo: Byte, hi: Byte): Byte {
    if hi == lo then 0 else StoreByte(255.0 * (v as int - lo as int) as real / (hi as int - lo as int) as real)
  }

  /** The levels pass on one pixel, with per-channel low and high levels. */
  function Stretch(p: Rgb, lo: Rgb, hi: Rgb): Rgb {
    Rgb(LevelByte(p.r, lo.r, hi.r), LevelByte(p.g, lo.g, hi.g), LevelByte(p.b, lo.b, hi.b))
  }

  function Lows(s: seq<Byte>): Rgb
    requires |s| % 4 == 0
  {
    Rgb(LevelLow(s, 0), LevelLow(s, 1), LevelLow(s, 2))
  }

  function Highs(s: seq<Byte>): Rgb
    requires |s| % 4 == 0
  {
    Rgb(LevelHigh(s, 0), LevelHigh(s, 1), LevelHigh(s, 2))
  }

  /** `applyAutoLevels`: every colour byte stretched by its channel's levels, alpha untouched. */
  function AutoLevels(s: seq<Byte>): (r: seq<Byte>)
    requires |s| % 4 == 0
    ensures |r| == |s|
  {
    var lo, hi := Lows(s), Highs(s);
    MapPixels(s, p => Stretch(p, lo, hi))
  }

  lemma {:induction false} PixelChannel(s: seq<Byte>, p: nat, c: nat)
    requires 4 * p + 3 < |s| && c < 3
    ensures PixelAt(s, p).Channel(c) == s[4 * p + c]
  {
  }

  /** Byte `4 * p + c` after auto-levels, with its channel's levels. */
  lemma {:induction false} LevelledAt(s: seq<Byte>, p: nat, c: nat)
    requires |s| % 4 == 0 && c < 3 && 4 * p + c < |s|
    ensures p < |s| / 4
    ensures AutoLevels(s)[4 * p + c] == LevelByte(s[4 * p + c], LevelLow(s, c), LevelHigh(s, c))
  {
    ByteOfPixelAt(p, c);
    ByteOfPixelAt(p, 3);
    var lo, hi := Lows(s), Highs(s);
    MapPixelsAt(s, q => Stretch(q, lo, hi), p);
    PixelChannel(AutoLevels(s), p, c);
    PixelChannel(s, p, c);
  }

  /** Scaling by `k / d` for a positive `d` then dividing by itself gives `k`. */
  lemma {:induction false} ScaleSelf(k: real, d: real)
    requires d > 0.0
    ensures k * d / d == k
  {
  }

  /** The low level maps to 0 and the high level to 255. */
  lemma {:induction false} LevelByteEnds(lo: Byte, hi: Byte)
    requires lo < hi
    ensures LevelByte(lo, lo, hi) == 0 && LevelByte(hi, lo, hi) == 255
  {
    var d := (hi as int - lo as int) as real;
    ScaleSelf(255.0, d);
    assert 255.0 * (hi as int - lo as int) as real / d == 255.0;
  }

  /** A channel that is not constant has its minimum mapped to 0 and its maximum to 255. */
  lemma {:induction false} AutoLevelsStretches(s: seq<Byte>, c: nat, p: nat)
    requires |s| % 4 == 0 && c < 3 && 4 * p + c < |s|
    requires ChannelMin(s, c, |s| / 4) != ChannelMax(s, c, |s| / 4)
    ensures s[4 * p + c] == ChannelMin(s, c, |s| / 4) ==> AutoLevels(s)[4 * p + c] == 0
    ensures s[4 * p + c] == ChannelMax(s, c, |s| / 4) ==> AutoLevels(s)[4 * p + c] == 255
  {
    LevelledAt(s, p, c);
    var lo, hi := ChannelMin(s, c, |s| / 4), ChannelMax(s, c, |s| / 4);
    ChannelMinIsMin(s, c, |s| / 4);
    ChannelMaxIsMax(s, c, |s| / 4);
    assert lo <= s[4 * p + c] <= hi;
    LevelByteEnds(lo, hi);
  }

  lemma {:induction false} DivMonotone(a: real, b: real, d: real)
    requires a <= b && d > 0.0
    ensures a / d <= b / d
  {
  }

  lemma {:induction false} MulLeftReal(k: real, a: real, b: real)
    requires k >= 0.0 && a <= b
    ensures k * a <= k * b
  {
  }

  /** `LevelByte` is monotone in the value, for levels `lo <= hi`. */
  lemma {:induction false} LevelByteMonotone(u: Byte, v: Byte, lo: Byte, hi: Byte)
    requires u <= v && lo <= hi
    ensures LevelByte(u, lo, hi) <= LevelByte(v, lo, hi)
  {
    if hi != lo {
      var d := (hi as int - lo as int) as real;
      var a, b := (u as int - lo as int) as real, (v as int - lo as int) as real;
      MulLeftReal(255.0, a, b);
      DivMonotone(255.0 * a, 255.0 * b, d);
      StoreByteMonotone(255.0 * a / d, 255.0 * b / d);
    }
  }

  /** Within a channel, auto-levels keeps the order of the values. */
  lemma {:induction false} AutoLevelsMonotone(s: seq<Byte>, c: nat, p: nat, q: nat)
    requires |s| % 4 == 0 && c < 3 && 4 * p + c < |s| && 4 * q + c < |s|
    requires s[4 * p + c] <= s[4 * q + c]
    ensures AutoLevels(s)[4 * p + c] <= AutoLevels(s)[4 * q + c]
  {
    LevelledAt(s, p, c);
    LevelledAt(s, q, c);
    ChannelMinIsMin(s, c, |s| / 4);
    ChannelMaxIsMax(s, c, |s| / 4);
    assert ChannelMin(s, c, |s| / 4) <= s[4 * p + c] <= ChannelMax(s, c, |s| / 4);
    LevelByteMonotone(s[4 * p + c], s[4 * q + c], LevelLow(s, c), LevelHigh(s, c));
  }

  /**
    A constant channel has its low level treated as 0: a constant value
    `v > 0` becomes 255, and a channel that is 0 everywhere stays 0.
  */
  lemma {:induction false} AutoLevelsConstant(s: seq<Byte>, c: nat, p: nat)
    requires |s| % 4 == 0 && c < 3 && 4 * p + c < |s|
    requires ChannelMin(s, c, |s| / 4) == ChannelMax(s, c, |s| / 4)
    ensures s[4 * p + c] > 0 ==> AutoLevels(s)[4 * p + c] == 255
    ensures s[4 * p + c] == 0 ==> AutoLevels(s)[4 * p + c] == 0
  {
    LevelledAt(s, p, c);
    ConstantLevels(s, c, p);
    LevelByteOfTop(s[4 * p + c]);
  }

  /** A channel whose minimum is its maximum has low level 0 and high level equal to each of its bytes. */
  lemma {:induction false} ConstantLevels(s: seq<Byte>, c: nat, p: nat)
    requires |s| % 4 == 0 && c < 3 && 4 * p + c < |s|
    requires ChannelMin(s, c, |s| / 4) == ChannelMax(s, c, |s| / 4)
    ensures LevelLow(s, c) == 0 && LevelHigh(s, c) == s[4 * p + c]
  {
    ChannelMinIsMin(s, c, |s| / 4);
    ChannelMaxIsMax(s, c, |s| / 4);
    assert ChannelMin(s, c, |s| / 4) <= s[4 * p + c] <= ChannelMax(s, c, |s| / 4);
  }

  /** Levels `[0, v]` send `v` to white, or leave it 0 when `v` is 0. */
  lemma {:induction false} LevelByteOfTop(v: Byte)
    ensures LevelByte(v, 0, v) == if v > 0 then 255 else 0
  {
    if v > 0 {
      ScaleSelf(255.0, v as real);
      assert LevelByte(v, 0, v) == StoreByte(255.0 * v as real / v as real);
    }
  }

  /** The scan loop: the three minima and maxima over the whole buffer. */
  method ScanLevels(data: array<Byte>)
    returns (minR: Byte, minG: Byte, minB: Byte, maxR: Byte, maxG: Byte, maxB: Byte)
    requires data.Length % 4 == 0
    ensures minR == ChannelMin(data[..], 0, data.Length / 4) && maxR == ChannelMax(data[..], 0, data.Length / 4)
    ensures minG == ChannelMin(data[..], 1, data.Length / 4) && maxG == ChannelMax(data[..], 1, data.Length / 4)
    ensures minB == ChannelMin(data[..], 2, data.Length / 4) && maxB == ChannelMax(data[..], 2, data.Length / 4)
  {
    ghost var s := data[..];
    minR, minG, minB := 255, 255, 255;
    maxR, maxG, maxB := 0, 0, 0;
    var i := 0;
    ghost var n := 0;
    while i < data.Length
      invariant 0 <= i <= data.Length && i == 4 * n
      invariant minR == ChannelMin(s, 0, n) && maxR == ChannelMax(s, 0, n)
      invariant minG == ChannelMin(s, 1, n) && maxG == ChannelMax(s, 1, n)
      invariant minB == ChannelMin(s, 2, n) && maxB == ChannelMax(s, 2, n)
    {
      minR := Min(minR, data[i]);
      minG := Min(minG, data[i + 1]);
      minB := Min(minB, data[i + 2]);
      maxR := Max(maxR, data[i]);
      maxG := Max(maxG, data[i + 1]);
      maxB := Max(maxB, data[i + 2]);
      i := i + 4;
      n := n + 1;
    }
  }

  /** `applyAutoLevels`: scan, treat a constant channel's minimum as 0, then stretch in place. */
  method AutoLevelsInPlace(data: array<Byte>)
    requires data.Length % 4 == 0
    modifies data
    ensures data[..] == AutoLevels(old(data[..]))
  {
    ghost var s := data[..];
    var minR, minG, minB, maxR, maxG, maxB := ScanLevels(data);
    if minR == maxR { minR := 0; }
    if minG == maxG { minG := 0; }
    if minB == maxB { minB := 0; }
    assert Rgb(minR, minG, minB) == Lows(s) && Rgb(maxR, maxG, maxB) == Highs(s);
    MapPixelsInPlace(data, p => Stretch(p, Rgb(minR, minG, minB), Rgb(maxR, maxG, maxB)));
  }

  // ---------------------------------------------------------------------------
  // The 3 x 3 sharpen of applyAdvancedEnhancement.

  /** Pixel (x, y) is not on the image border. */
  predicate Interior(width: nat, height: nat, x: nat, y: nat) {
    1 <= x && x + 1 < width && 1 <= y && y + 1 < height
  }

  /** Offsets of the eight neighbours of an interior pixel stay inside the buffer. */
  lemma {:induction false} InteriorBounds(width: nat, height: nat, x: nat, y: nat)
    requires Interior(width, height, x, y)
    ensures 4 * (y * width + x) >= 4 * width + 4
    ensures 4 * (y * width + x) + 4 * width + 7 < 4 * (width * height)
  {
    MulLeft(1, y, width);
    PixelInside(width, height, y + 1, x + 1);
    MulSucc(y, width);
  }

  /**
    The sharpen kernel on channel `c` of the pixel at byte offset `idx`, read
    from the copy `o`: -0.1 on the diagonals, -0.15 on the edges, 2.0 in the
    centre, summed in the source's order.
  */
  function SharpenValue(o: seq<Byte>, width: nat, idx: nat, c: nat): real
    requires c < 3 && idx >= 4 * width + 4 && idx + 4 * width + 7 < |o|
  {
    -(o[idx - width * 4 - 4 + c] as real) * 0.1 +
    -(o[idx - width * 4 + c] as real) * 0.15 +
    -(o[idx - width * 4 + 4 + c] as real) * 0.1 +
    -(o[idx - 4 + c] as real) * 0.15 +
    (o[idx + c] as real) * 2.0 +
    -(o[idx + 4 + c] as real) * 0.15 +
    -(o[idx + width * 4 - 4 + c] as real) * 0.1 +
    -(o[idx + width * 4 + c] as real) * 0.15 +
    -(o[idx + width * 4 + 4 + c] as real) * 0.1
  }

  /** The kernel weights sum to 1: on nine equal values the sharpen returns that value. */
  lemma {:induction false} SharpenOfUniform(o: seq<Byte>, width: nat, idx: nat, c: nat, v: Byte)
    requires c < 3 && idx >= 4 * width + 4 && idx + 4 * width + 7 < |o|
    requires o[idx - width * 4 - 4 + c] == o[idx - width * 4 + c] == o[idx - width * 4 + 4 + c] == v
    requires o[idx - 4 + c] == o[idx + c] == o[idx + 4 + c] == v
    requires o[idx + width * 4 - 4 + c] == o[idx + width * 4 + c] == o[idx + width * 4 + 4 + c] == v
    ensures SharpenValue(o, width, idx, c) == v as real
    ensures ClampStore(SharpenValue(o, width, idx, c)) == v
  {
    StoreByteOfByte(v);
  }

  /** Byte `c` of pixel (x, y) after the sharpen: rewritten only for an interior pixel's colour. */
  function SharpAt(o: seq<Byte>, width: nat, height: nat, x: nat, y: nat, c: nat): Byte
    requires Shaped(|o|, width, height) && x < width && y < height && c < 4
  {
    PixelInside(width, height, y, x);
    if Interior(width, height, x, y) && c < 3 then
      InteriorBounds(width, height, x, y);
      ClampStore(SharpenValue(o, width, 4 * (y * width + x), c))
    else o[4 * (y * width + x) + c]
  }

  /** The whole buffer after the sharpen step, as a function of the copy taken before it. */
  function Sharpened(o: seq<Byte>, width: nat, height: nat): (r: seq<Byte>)
    requires Shaped(|o|, width, height)
    ensures |r| == |o|
  {
    seq(|o|, j requires 0 <= j < |o| =>
      ByteOfPixel(width, height, j);
      PixelCoords(width, height, j / 4);
      SharpAt(o, width, height, (j / 4) % width, (j / 4) / width, j % 4))
  }

  /** Byte `c` of pixel (x, y) of the sharpened buffer. */
  lemma {:induction false} SharpenedAt(o: seq<Byte>, width: nat, height: nat, x: nat, y: nat, c: nat)
    requires Shaped(|o|, width, height) && x < width && y < height && c < 4
    ensures 4 * (y * width + x) + c < |o|
    ensures Sharpened(o, width, height)[4 * (y * width + x) + c] == SharpAt(o, width, height, x, y, c)
  {
    var p := y * width + x;
    PixelInside(width, height, y, x);
    RowCol(width, y, x);
    ByteOfPixelAt(p, c);
    var i := 4 * p + c;
    assert (i / 4) % width == x && (i / 4) / width == y && i % 4 == c;
  }

  /** The sharpen leaves border pixels and every alpha byte as they were. */
  lemma {:induction false} SharpenedKeepsBorder(o: seq<Byte>, width: nat, height: nat, x: nat, y: nat, c: nat)
    requires Shaped(|o|, width, height) && x < width && y < height && c < 4
    requires !Interior(width, height, x, y) || c == 3
    ensures 4 * (y * width + x) + c < |o|
    ensures Sharpened(o, width, height)[4 * (y * width + x) + c] == o[4 * (y * width + x) + c]
  {
    SharpenedAt(o, width, height, x, y, c);
  }

  /** The sharpen leaves a channel that is uniform in the image unchanged. */
  lemma {:induction false} SharpenedUniform(o: seq<Byte>, width: nat, height: nat, c: nat, v: Byte, x: nat, y: nat)
    requires Shaped(|o|, width, height) && x < width && y < height && c < 3
    requires UniformChannel(o, c, v)
    ensures 4 * (y * width + x) + c < |o|
    ensures Sharpened(o, width, height)[4 * (y * width + x) + c] == v
  {
    SharpenedAt(o, width, height, x, y, c);
    PixelInside(width, height, y, x);
    var p := y * width + x;
    ChannelOfOffset(p, c);
    if Interior(width, height, x, y) {
      InteriorBounds(width, height, x, y);
      UniformNeighbours(o, width, 4 * p, p, c, v);
      SharpenOfUniform(o, width, 4 * p, c, v);
    }
  }

  lemma {:induction false} ChannelOfOffset(k: int, c: nat)
    requires c < 4
    ensures (4 * k + c) % 4 == c
  {
  }

  /** In a uniform channel the nine bytes the kernel reads all hold the same value. */
  lemma {:induction false} UniformNeighbours(o: seq<Byte>, width: nat, idx: nat, p: nat, c: nat, v: Byte)
    requires idx == 4 * p && c < 3 && idx >= 4 * width + 4 && idx + 4 * width + 7 < |o|
    requires UniformChannel(o, c, v)
    ensures o[idx - width * 4 - 4 + c] == o[idx - width * 4 + c] == o[idx - width * 4 + 4 + c] == v
    ensures o[idx - 4 + c] == o[idx + c] == o[idx + 4 + c] == v
    ensures o[idx + width * 4 - 4 + c] == o[idx + width * 4 + c] == o[idx + width * 4 + 4 + c] == v
  {
    ChannelOfOffset(p - width - 1, c);
    ChannelOfOffset(p - width, c);
    ChannelOfOffset(p - width + 1, c);
    ChannelOfOffset(p - 1, c);
    ChannelOfOffset(p, c);
    ChannelOfOffset(p + 1, c);
    ChannelOfOffset(p + width - 1, c);
    ChannelOfOffset(p + width, c);
    ChannelOfOffset(p + width + 1, c);
  }

  /** Every byte of pixel (x, y) of `spec` is the sharpened byte. */
  ghost predicate SharpSpec(o: seq<Byte>, width: nat, height: nat, spec: seq<Byte>)
    requires Shaped(|o|, width, height)
  {
    |spec| == |o| &&
    forall x: nat, y: nat, c: nat | x < width && y < height && c < 4 ::
      4 * (y * width + x) + c < |spec| && spec[4 * (y * width + x) + c] == SharpAt(o, width, height, x, y, c)
  }

  /** What `spec` holds at an interior pixel. */
  lemma {:induction false} SharpSpecInterior(o: seq<Byte>, width: nat, height: nat, spec: seq<Byte>, x: nat, y: nat, idx: nat)
    requires Shaped(|o|, width, height) && Interior(width, height, x, y) && idx == 4 * (y * width + x)
    requires SharpSpec(o, width, height, spec)
    ensures idx >= 4 * width + 4 && idx + 4 * width + 7 < |o|
    ensures forall c :: 0 <= c < 3 ==> spec[idx + c] == ClampStore(SharpenValue(o, width, idx, c))
    ensures spec[idx + 3] == o[idx + 3]
  {
    InteriorBounds(width, height, x, y);
    assert spec[4 * (y * width + x) + 0] == SharpAt(o, width, height, x, y, 0);
    assert spec[4 * (y * width + x) + 1] == SharpAt(o, width, height, x, y, 1);
    assert spec[4 * (y * width + x) + 2] == SharpAt(o, width, height, x, y, 2);
    assert spec[4 * (y * width + x) + 3] == SharpAt(o, width, height, x, y, 3);
  }

  /** The pixels before pixel `q` hold `spec`, the others still the copy `o`. */
  ghost predicate Progress(data: array<Byte>, o: seq<Byte>, spec: seq<Byte>, q: int)
    reads data
  {
    data.Length == |o| == |spec| &&
    (forall j :: 0 <= j < |o| && j / 4 < q ==> data[j] == spec[j]) &&
    (forall j :: 0 <= j < |o| && j / 4 >= q ==> data[j] == o[j])
  }

  /** Passing over a pixel the sharpen does not write. */
  lemma {:induction false} SkipPixel(data: array<Byte>, o: seq<Byte>, width: nat, height: nat, spec: seq<Byte>, x: nat, y: nat)
    requires Shaped(|o|, width, height) && x < width && y < height
    requires SharpSpec(o, width, height, spec)
    requires !Interior(width, height, x, y)
    requires Progress(data, o, spec, y * width + x)
    ensures Progress(data, o, spec, y * width + x + 1)
  {
    var p := y * width + x;
    forall j | 0 <= j < |o| && j / 4 == p ensures spec[j] == o[j] {
      var c := j % 4;
      assert j == 4 * p + c;
      assert spec[4 * (y * width + x) + c] == SharpAt(o, width, height, x, y, c);
    }
  }

  /** Passing over the rest of a border row `y`, from column `x`. */
  lemma {:induction false} SkipRow(data: array<Byte>, o: seq<Byte>, width: nat, height: nat, spec: seq<Byte>,
                                   x: nat, y: nat)
    requires Shaped(|o|, width, height) && x <= width && y < height && (y == 0 || y + 1 == height)
    requires SharpSpec(o, width, height, spec)
    requires Progress(data, o, spec, y * width + x)
    ensures Progress(data, o, spec, y * width + width)
    decreases width - x
  {
    if x < width {
      SkipPixel(data, o, width, height, spec, x, y);
      SkipRow(data, o, width, height, spec, x + 1, y);
    }
  }

  /** `applyAdvancedEnhancement`'s copy and sharpen loops: interior pixels only, read from the copy. */
  method SharpenInPlace(data: array<Byte>, width: nat, height: nat)
    requires Shaped(data.Length, width, height)
    modifies data
    ensures data[..] == Sharpened(old(data[..]), width, height)
  {
    var original := data[..];
    ghost var spec := Sharpened(original, width, height);
    forall x: nat, y: nat, c: nat | x < width && y < height && c < 4
      ensures 4 * (y * width + x) + c < |spec|
      ensures spec[4 * (y * width + x) + c] == SharpAt(original, width, height, x, y, c)
    {
      SharpenedAt(original, width, height, x, y, c);
    }
    SharpenLoops(data, original, width, height, spec);
    assert forall j :: 0 <= j < |original| ==> j / 4 < height * width;
  }

  /** The `y` loop over rows 1 .. height - 2, with the border rows passed over. */
  method SharpenLoops(data: array<Byte>, original: seq<Byte>, width: nat, height: nat, ghost spec: seq<Byte>)
    requires Shaped(|original|, width, height)
    requires SharpSpec(original, width, height, spec)
    requires data[..] == original
    modifies data
    ensures Progress(data, original, spec, height * width)
  {
    if width == 0 || height == 0 {
      return;
    }
    SkipRow(data, original, width, height, spec, 0, 0);
    var y := 1;
    while y + 1 < height
      invariant 1 <= y <= height && (y < height || height == 1)
      invariant Progress(data, original, spec, y * width)
    {
      SharpenRow(data, original, width, height, y, spec);
      MulSucc(y, width);
      y := y + 1;
    }
    if y + 1 == height {
      SkipRow(data, original, width, height, spec, 0, y);
      MulSucc(y, width);
    } else {
      assert y == height == 1;
    }
  }

  /** The `x` loop of interior row `y`, with its first and last pixel passed over. */
  method SharpenRow(data: array<Byte>, original: seq<Byte>, width: nat, height: nat, y: nat, ghost spec: seq<Byte>)
    requires Shaped(|original|, width, height) && 1 <= y && y + 1 < height && width > 0
    requires SharpSpec(original, width, height, spec)
    requires Progress(data, original, spec, y * width)
    modifies data
    ensures Progress(data, original, spec, y * width + width)
  {
    SkipPixel(data, original, width, height, spec, 0, y);
    var x := 1;
    while x + 1 < width
      invariant 1 <= x <= width && (x < width || width == 1)
      invariant Progress(data, original, spec, y * width + x)
    {
      var idx := (y * width + x) * 4;
      InteriorBounds(width, height, x, y);
      SharpSpecInterior(original, width, height, spec, x, y, idx);
      SharpenPixel(data, original, width, idx, y * width + x, spec);
      x := x + 1;
    }
    if x + 1 == width {
      SkipPixel(data, original, width, height, spec, x, y);
    }
  }

  /** The `c` loop of interior pixel `p`, at byte offset `idx`. */
  method SharpenPixel(data: array<Byte>, original: seq<Byte>, width: nat, idx: nat, ghost p: nat,
                      ghost spec: seq<Byte>)
    requires idx == 4 * p && idx >= 4 * width + 4 && idx + 4 * width + 7 < |original|
    requires Progress(data, original, spec, p)
    requires forall c :: 0 <= c < 3 ==> spec[idx + c] == ClampStore(SharpenValue(original, width, idx, c))
    requires spec[idx + 3] == original[idx + 3]
    modifies data
    ensures Progress(data, original, spec, p + 1)
  {
    for c := 0 to 3
      invariant forall j :: 0 <= j < |original| && (j / 4 < p || (j / 4 == p && j % 4 < c)) ==> data[j] == spec[j]
      invariant forall j :: 0 <= j < |original| && (j / 4 > p || (j / 4 == p && j % 4 >= c)) ==> data[j] == original[j]
      invariant data.Length == |original| == |spec|
    {
      data[idx + c] := ClampStore(SharpenValue(original, width, idx, c));
    }
  }

  /** Alpha bytes come through the sharpen unchanged. */
  lemma {:induction false} SharpenedAlpha(o: seq<Byte>, width: nat, height: nat, j: nat)
    requires Shaped(|o|, width, height) && j < |o| && IsAlpha(j)
    ensures Sharpened(o, width, height)[j] == o[j]
  {
    ByteOfPixel(width, height, j);
    PixelCoords(width, height, j / 4);
    var x, y := (j / 4) % width, (j / 4) / width;
    assert j == 4 * (y * width + x) + 3;
  }

  /** `applyAdvancedEnhancement`: the sharpen, then contrast 1.15 and saturation 1.3. */
  method AdvancedEnhancement(data: array<Byte>, width: nat, height: nat)
    requires Shaped(data.Length, width, height)
    modifies data
    ensures data[..] == ColourPass(Sharpened(old(data[..]), width, height), 1.15, 1.3)
  {
    SharpenInPlace(data, width, height);
    MapPixelsInPlace(data, p => ContrastSaturate(p, 1.15, 1.3));
  }

  /** The advanced level on a uniform grey image: each colour byte becomes `Contrast(v, 1.15)`. */
  lemma {:induction false} AdvancedOfUniformGrey(s: seq<Byte>, width: nat, height: nat, v: Byte, p: nat)
    requires Shaped(|s|, width, height) && p < width * height
    requires UniformGrey(s, v)
    ensures var r := ColourPass(Sharpened(s, width, height), 1.15, 1.3);
      4 * p + 3 < |r| && r[4 * p] == r[4 * p + 1] == r[4 * p + 2] == Contrast(v, 1.15)
  {
    SharpenedOfGrey(s, width, height, v);
    ColourPassOfGrey(Sharpened(s, width, height), v, 1.15, 1.3, p);
  }

  /** The sharpen keeps a uniform grey image as it is. */
  lemma {:induction false} SharpenedOfGrey(s: seq<Byte>, width: nat, height: nat, v: Byte)
    requires Shaped(|s|, width, height)
    requires UniformGrey(s, v)
    ensures UniformGrey(Sharpened(s, width, height), v)
  {
    forall j | 0 <= j < |s| && !IsAlpha(j) ensures Sharpened(s, width, height)[j] == v {
      ByteOfPixel(width, height, j);
      PixelCoords(width, height, j / 4);
      var x, y := (j / 4) % width, (j / 4) / width;
      assert j == 4 * (y * width + x) + j % 4;
      SharpenedUniform(s, width, height, j % 4, v, x, y);
    }
  }

  /** The colour pass maps a uniform grey pixel to the grey `Contrast(v, k)`. */
  lemma {:induction false} ColourPassOfGrey(s: seq<Byte>, v: Byte, k: real, sat: real, p: nat)
    requires |s| % 4 == 0 && 4 * p + 3 < |s|
    requires UniformGrey(s, v)
    ensures var r := ColourPass(s, k, sat); r[4 * p] == r[4 * p + 1] == r[4 * p + 2] == Contrast(v, k)
  {
    ChannelOfOffset(p, 0);
    ChannelOfOffset(p, 1);
    ChannelOfOffset(p, 2);
    assert s[4 * p] == v;
    ColourPassKeepsNeutral(s, k, sat, p);
  }

  // ---------------------------------------------------------------------------
  // applyUltraEnhancement.

  /** Byte `j` after combining, pixel by pixel, the colours of `a` and `b` by `g`; alpha taken from `s`. */
  function ZipByte(s: seq<Byte>, a: seq<Byte>, b: seq<Byte>, g: (Rgb, Rgb) -> Rgb, j: nat): Byte
    requires |s| % 4 == 0 && |a| == |b| == |s| && j < |s|
  {
    if IsAlpha(j) then s[j] else g(PixelAt(a, j / 4), PixelAt(b, j / 4)).Channel(j % 4)
  }

  function ZipPixels(s: seq<Byte>, a: seq<Byte>, b: seq<Byte>, g: (Rgb, Rgb) -> Rgb): (r: seq<Byte>)
    requires |s| % 4 == 0 && |a| == |b| == |s|
    ensures |r| == |s|
    ensures forall j :: 0 <= j < |s| && IsAlpha(j) ==> r[j] == s[j]
  {
    seq(|s|, j requires 0 <= j < |s| => ZipByte(s, a, b, g, j))
  }

  /** The colour of pixel `p` after `ZipPixels`. */
  lemma {:induction false} ZipPixelsAt(s: seq<Byte>, a: seq<Byte>, b: seq<Byte>, g: (Rgb, Rgb) -> Rgb, p: nat)
    requires |s| % 4 == 0 && |a| == |b| == |s| && 4 * p + 3 < |s|
    ensures PixelAt(ZipPixels(s, a, b, g), p) == g(PixelAt(a, p), PixelAt(b, p))
  {
    ByteOfPixelAt(p, 0);
    ByteOfPixelAt(p, 1);
    ByteOfPixelAt(p, 2);
  }

  /** A pixel loop that writes pixel `i / 4` from `a` and `b` and leaves alpha alone. */
  method ZipPixelsInPlace(data: array<Byte>, a: seq<Byte>, b: seq<Byte>, g: (Rgb, Rgb) -> Rgb)
    requires data.Length % 4 == 0 && |a| == |b| == data.Length
    modifies data
    ensures data[..] == ZipPixels(old(data[..]), a, b, g)
  {
    ghost var s := data[..];
    var i := 0;
    while i < data.Length
      invariant 0 <= i <= data.Length && i % 4 == 0
      invariant forall j :: 0 <= j < i ==> data[j] == ZipByte(s, a, b, g, j)
      invariant forall j :: i <= j < data.Length ==> data[j] == s[j]
    {
      var q := g(Rgb(a[i], a[i + 1], a[i + 2]), Rgb(b[i], b[i + 1], b[i + 2]));
      data[i] := q.r;
      data[i + 1] := q.g;
      data[i + 2] := q.b;
      ZippedPixel(s, a, b, g, i);
      i := i + 4;
    }
  }

  lemma {:induction false} ZippedPixel(s: seq<Byte>, a: seq<Byte>, b: seq<Byte>, g: (Rgb, Rgb) -> Rgb, i: nat)
    requires |s| % 4 == 0 && |a| == |b| == |s| && i % 4 == 0 && i + 3 < |s|
    ensures var q := g(Rgb(a[i], a[i + 1], a[i + 2]), Rgb(b[i], b[i + 1], b[i + 2]));
      ZipByte(s, a, b, g, i) == q.r && ZipByte(s, a, b, g, i + 1) == q.g &&
      ZipByte(s, a, b, g, i + 2) == q.b && ZipByte(s, a, b, g, i + 3) == s[i + 3]
  {
    var p := i / 4;
    assert i == 4 * p;
    ByteOfPixelAt(p, 0);
    ByteOfPixelAt(p, 1);
    ByteOfPixelAt(p, 2);
    ByteOfPixelAt(p, 3);
    assert PixelAt(a, p) == Rgb(a[i], a[i + 1], a[i + 2]);
    assert PixelAt(b, p) == Rgb(b[i], b[i + 1], b[i + 2]);
  }

  /**
    Unsharp mask on one channel: the denoised value `o` pushed away from its
    blur `b` by 1.25, then contrast 1.25, computed without an intermediate
    store and written once.
  */
  function Unsharp(o: Byte, b: Byte): Byte {
    ClampStore(((o as real + (o as real - b as real) * 1.25) - 128.0) * 1.25 + 128.0)
  }

  /** Where the blur equals the value the mask is a pure contrast 1.25. */
  lemma {:induction false} UnsharpFlat(v: Byte)
    ensures Unsharp(v, v) == Contrast(v, 1.25)
  {
    assert (v as real - v as real) * 1.25 == 0.0;
  }

  /** Unsharp mask on each channel, then saturation 1.35 on the written values. */
  function UltraPixel(den: Rgb, blur: Rgb): Rgb {
    SaturatePixel(Rgb(Unsharp(den.r, blur.r), Unsharp(den.g, blur.g), Unsharp(den.b, blur.b)), 1.35)
  }

  /** The unsharp mask, contrast and saturation pass of the ultra level, before auto levels. */
  function UltraPass(s: seq<Byte>, width: nat, height: nat, exp: real -> real): (r: seq<Byte>)
    requires Shaped(|s|, width, height)
    requires forall t :: exp(t) > 0.0
    ensures |r| == |s|
  {
    KernelNormalised(1.5, exp);
    var denoised := Bilateral(s, width, height, exp);
    var blurred := Blurred(denoised, width, height, Kernel(1.5, exp), KernelSize(1.5));
    ZipPixels(s, denoised, blurred, UltraPixel)
  }

  /** The buffer after the ultra level, from the buffer before it. */
  function Ultra(s: seq<Byte>, width: nat, height: nat, exp: real -> real): (r: seq<Byte>)
    requires Shaped(|s|, width, height)
    requires forall t :: exp(t) > 0.0
    ensures |r| == |s|
  {
    AutoLevels(UltraPass(s, width, height, exp))
  }

  /**
    `applyUltraEnhancement`: bilateral denoise of a copy, Gaussian blur
    (sigma 1.5) of the denoised image, the unsharp mask, contrast and
    saturation pass into `data`, then auto levels.
  */
  method UltraEnhancement(data: array<Byte>, width: nat, height: nat, exp: real -> real)
    requires Shaped(data.Length, width, height)
    requires forall t :: exp(t) > 0.0
    modifies data
    ensures data[..] == Ultra(old(data[..]), width, height, exp)
  {
    var originalData := data[..];
    var denoised := BilateralFilter(originalData, width, height, exp);
    var blurred := GaussianBlur(denoised, width, height, 1.5, exp);
    ZipPixelsInPlace(data, denoised, blurred, UltraPixel);
    AutoLevelsInPlace(data);
  }

  /** A channel that holds one value in every pixel has equal scanned minimum and maximum. */
  lemma {:induction false} UniformLevels(s: seq<Byte>, c: nat, v: Byte)
    requires |s| % 4 == 0 && |s| > 0 && c < 3 && UniformChannel(s, c, v)
    ensures ChannelMin(s, c, |s| / 4) == ChannelMax(s, c, |s| / 4)
  {
    var n := |s| / 4;
    ChannelMinIsMin(s, c, n);
    ChannelMaxIsMax(s, c, n);
    var p :| 0 <= p < n && ChannelMin(s, c, n) == s[4 * p + c];
    var q :| 0 <= q < n && ChannelMax(s, c, n) == s[4 * q + c];
    ChannelOfOffset(p, c);
    ChannelOfOffset(q, c);
  }

  /** All three colour channels hold `v` everywhere. */
  predicate UniformGrey(s: seq<Byte>, v: Byte) {
    forall i :: 0 <= i < |s| && !IsAlpha(i) ==> s[i] == v
  }

  /** The bilateral filter keeps a uniform grey image as it is. */
  lemma {:induction false} DenoiseOfUniformGrey(s: seq<Byte>, width: nat, height: nat, exp: real -> real, v: Byte)
    requires Shaped(|s|, width, height)
    requires forall t :: exp(t) > 0.0
    requires UniformGrey(s, v)
    ensures UniformGrey(Bilateral(s, width, height, exp), v)
  {
    BilateralUniform(s, width, height, exp, 0, v);
    BilateralUniform(s, width, height, exp, 1, v);
    BilateralUniform(s, width, height, exp, 2, v);
  }

  /** The Gaussian blur keeps a uniform grey image as it is. */
  lemma {:induction false} BlurOfUniformGrey(s: seq<Byte>, width: nat, height: nat, kernel: seq<real>, size: nat, v: Byte)
    requires Shaped(|s|, width, height)
    requires size > 0 && |kernel| == size * size
    requires forall n :: 0 <= n < |kernel| ==> kernel[n] > 0.0
    requires UniformGrey(s, v)
    ensures UniformGrey(Blurred(s, width, height, kernel, size), v)
  {
    BlurUniform(s, width, height, kernel, size, 0, v);
    BlurUniform(s, width, height, kernel, size, 1, v);
    BlurUniform(s, width, height, kernel, size, 2, v);
  }

  /** Combining two uniform grey images pixel by pixel gives a uniform image. */
  lemma {:induction false} ZipOfUniformGrey(s: seq<Byte>, a: seq<Byte>, b: seq<Byte>, g: (Rgb, Rgb) -> Rgb, v: Byte, u: Byte)
    requires |s| % 4 == 0 && |a| == |b| == |s|
    requires UniformGrey(a, v) && UniformGrey(b, v)
    requires g(Rgb(v, v, v), Rgb(v, v, v)) == Rgb(u, u, u)
    ensures UniformGrey(ZipPixels(s, a, b, g), u)
  {
    var z := ZipPixels(s, a, b, g);
    forall j | 0 <= j < |z| && j % 4 < 3 ensures z[j] == u {
      var p := j / 4;
      ChannelOfOffset(p, 0);
      ChannelOfOffset(p, 1);
      ChannelOfOffset(p, 2);
      assert PixelAt(a, p) == Rgb(v, v, v);
      assert PixelAt(b, p) == Rgb(v, v, v);
    }
  }

  /** On a uniform grey pixel the mask does nothing and saturation keeps the grey. */
  lemma {:induction false} UltraPixelOfGrey(v: Byte)
    ensures var u := Contrast(v, 1.25); UltraPixel(Rgb(v, v, v), Rgb(v, v, v)) == Rgb(u, u, u)
  {
    var u := Contrast(v, 1.25);
    UnsharpFlat(v);
    assert Gray(Rgb(u, u, u)) == u as real;
    StoreByteOfByte(u);
  }

  /** The blur kernel of the ultra level is well formed. */
  lemma {:induction false} UltraKernel(exp: real -> real)
    requires forall t :: exp(t) > 0.0
    ensures KernelSize(1.5) > 0 && |Kernel(1.5, exp)| == KernelSize(1.5) * KernelSize(1.5)
    ensures forall n :: 0 <= n < |Kernel(1.5, exp)| ==> Kernel(1.5, exp)[n] > 0.0
  {
    KernelNormalised(1.5, exp);
  }

  /** The pass before auto levels maps a uniform grey image to the uniform grey `Contrast(v, 1.25)`. */
  lemma {:induction false} UltraPassOfUniformGrey(s: seq<Byte>, width: nat, height: nat, exp: real -> real, v: Byte)
    requires Shaped(|s|, width, height)
    requires forall t :: exp(t) > 0.0
    requires UniformGrey(s, v)
    ensures UniformGrey(UltraPass(s, width, height, exp), Contrast(v, 1.25))
  {
    UltraKernel(exp);
    DenoiseOfUniformGrey(s, width, height, exp, v);
    UltraMaskOfDenoised(s, width, height, exp, Bilateral(s, width, height, exp), v);
  }

  /** Blur and unsharp mask of a uniform grey denoised image give the uniform grey `Contrast(v, 1.25)`. */
  lemma {:induction false} UltraMaskOfDenoised(s: seq<Byte>, width: nat, height: nat, exp: real -> real,
                                               denoised: seq<Byte>, v: Byte)
    requires Shaped(|s|, width, height) && |denoised| == |s|
    requires forall t :: exp(t) > 0.0
    requires UniformGrey(denoised, v)
    ensures KernelSize(1.5) > 0 && |Kernel(1.5, exp)| == KernelSize(1.5) * KernelSize(1.5)
    ensures forall n :: 0 <= n < |Kernel(1.5, exp)| ==> Kernel(1.5, exp)[n] > 0.0
    ensures UniformGrey(ZipPixels(s, denoised, Blurred(denoised, width, height, Kernel(1.5, exp), KernelSize(1.5)), UltraPixel),
                        Contrast(v, 1.25))
  {
    UltraKernel(exp);
    BlurOfUniformGrey(denoised, width, height, Kernel(1.5, exp), KernelSize(1.5), v);
    UltraMaskOfGrey(s, denoised, Blurred(denoised, width, height, Kernel(1.5, exp), KernelSize(1.5)), v);
  }

  /** The unsharp mask pass over two uniform grey images of value `v` gives the uniform grey `Contrast(v, 1.25)`. */
  lemma {:induction false} UltraMaskOfGrey(s: seq<Byte>, denoised: seq<Byte>, blurred: seq<Byte>, v: Byte)
    requires |s| % 4 == 0 && |denoised| == |blurred| == |s|
    requires UniformGrey(denoised, v) && UniformGrey(blurred, v)
    ensures UniformGrey(ZipPixels(s, denoised, blurred, UltraPixel), Contrast(v, 1.25))
  {
    UltraPixelOfGrey(v);
    ZipOfUniformGrey(s, denoised, blurred, UltraPixel, v, Contrast(v, 1.25));
  }

  /** Auto levels maps a uniform grey image to white, or to black when it is black already. */
  lemma {:induction false} AutoLevelsOfGrey(z: seq<Byte>, u: Byte, p: nat, c: nat)
    requires |z| % 4 == 0 && 4 * p + c < |z| && c < 3
    requires UniformGrey(z, u)
    ensures AutoLevels(z)[4 * p + c] == if u > 0 then 255 else 0
  {
    UniformLevels(z, c, u);
    ChannelOfOffset(p, c);
    AutoLevelsConstant(z, c, p);
  }

  /**
    The ultra level turns a uniform grey image into a uniform one: white
    when the contrast step leaves any brightness, black otherwise, because
    auto levels stretches a constant channel from 0 to its value.
  */
  lemma {:induction false} UltraOfUniformGrey(s: seq<Byte>, width: nat, height: nat, exp: real -> real, v: Byte, p: nat, c: nat)
    requires Shaped(|s|, width, height) && p < width * height && c < 3
    requires forall t :: exp(t) > 0.0
    requires UniformGrey(s, v)
    ensures 4 * p + c < |s|
    ensures Ultra(s, width, height, exp)[4 * p + c] == if Contrast(v, 1.25) > 0 then 255 else 0
  {
    PixelOffset(|s|, width, height, p, c);
    UltraPassOfUniformGrey(s, width, height, exp, v);
    UltraOfGreyPass(s, width, height, exp, Contrast(v, 1.25), p, c);
  }

  lemma {:induction false} PixelOffset(len: int, width: nat, height: nat, p: nat, c: nat)
    requires Shaped(len, width, height) && p < width * height && c < 4
    ensures 4 * p + c < len
  {
  }

  /** Auto levels of a uniform grey ultra pass. */
  lemma {:induction false} UltraOfGreyPass(s: seq<Byte>, width: nat, height: nat, exp: real -> real, u: Byte, p: nat, c: nat)
    requires Shaped(|s|, width, height) && 4 * p + c < |s| && c < 3
    requires forall t :: exp(t) > 0.0
    requires UniformGrey(UltraPass(s, width, height, exp), u)
    ensures Ultra(s, width, height, exp)[4 * p + c] == if u > 0 then 255 else 0
  {
    AutoLevelsOfGrey(UltraPass(s, width, height, exp), u, p, c);
  }

  // ---------------------------------------------------------------------------
  // enhanceImageData.

  /** The buffer after `enhanceImageData` with `level`; an unknown level changes nothing. */
  function Enhanced(s: seq<Byte>, width: nat, height: nat, level: string, exp: real -> real): (r: seq<Byte>)
    requires Shaped(|s|, width, height)
    requires forall t :: exp(t) > 0.0
    ensures |r| == |s|
  {
    if level == "basic" then ColourPass(s, 1.15, 1.2)
    else if level == "advanced" then ColourPass(Sharpened(s, width, height), 1.15, 1.3)
    else if level == "ultra" then Ultra(s, width, height, exp)
    else s
  }

  /** `enhanceImageData`: dispatch on the level name. */
  method EnhanceImageData(data: array<Byte>, width: nat, height: nat, level: string, exp: real -> real)
    requires Shaped(data.Length, width, height)
    requires forall t :: exp(t) > 0.0
    modifies data
    ensures data[..] == Enhanced(old(data[..]), width, height, level, exp)
  {
    if level == "basic" {
      BasicEnhancement(data);
    } else if level == "advanced" {
      AdvancedEnhancement(data, width, height);
    } else if level == "ultra" {
      UltraEnhancement(data, width, height, exp);
    }
  }

  /** Every level keeps the length and every alpha byte of the buffer. */
  lemma {:induction false} EnhancedKeepsAlpha(s: seq<Byte>, width: nat, height: nat, level: string, exp: real -> real, j: nat)
    requires Shaped(|s|, width, height) && j < |s| && IsAlpha(j)
    requires forall t :: exp(t) > 0.0
    ensures Enhanced(s, width, height, level, exp)[j] == s[j]
  {
    if level == "advanced" {
      SharpenedAlpha(s, width, height, j);
    }
  }

  /** Only the three level names change the buffer. */
  lemma {:induction false} EnhancedUnknownLevel(s: seq<Byte>, width: nat, height: nat, level: string, exp: real -> real)
    requires Shaped(|s|, width, height)
    requires forall t :: exp(t) > 0.0
    requires level != "basic" && level != "advanced" && level != "ultra"
    ensures Enhanced(s, width, height, level, exp) == s
  {
  }
}
