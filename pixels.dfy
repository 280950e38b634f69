/**
  Byte-level arithmetic of an RGBA pixel buffer (a `Uint8ClampedArray`):
  what a store does to a real value, `Math.round`, and the per-pixel
  contrast and saturation step shared by every enhancement level.
*/
module Pixels {

  /** An element of a `Uint8ClampedArray`. */
  type Byte = x: int | 0 <= x <= 255

  /** `Math.max(0, Math.min(255, v))`. */
  function Clamp(v: real): (r: real)
    ensures 0.0 <= r <= 255.0
    ensures 0.0 <= v <= 255.0 ==> r == v
    ensures v < 0.0 ==> r == 0.0
    ensures v > 255.0 ==> r == 255.0
  {
    if v < 0.0 then 0.0 else if v > 255.0 then 255.0 else v
  }

  /** `Math.round`: the nearest integer, a half rounded upwards. */
  function MathRound(v: real): (r: int)
    ensures r as real - 0.5 <= v < r as real + 0.5
  {
    (v + 0.5).Floor
  }

  /** `Math.ceil`. */
  function Ceil(v: real): (r: int)
    ensures v <= r as real < v + 1.0
  {
    -((-v).Floor)
  }

  /**
    The element value a `Uint8ClampedArray` takes when a number `v` is
    assigned to it: clamped to [0, 255], then rounded to the nearest
    integer with halves going to the even neighbour.
  */
  function StoreByte(v: real): (b: Byte)
    ensures v <= 0.0 ==> b == 0
    ensures v >= 255.0 ==> b == 255
    ensures 0.0 <= v <= 255.0 ==> -0.5 <= b as real - v <= 0.5
  {
    if v <= 0.0 then 0
    else if v >= 255.0 then 255
    else
      var f := v.Floor;
      if v - f as real < 0.5 then f
      else if v - f as real > 0.5 then f + 1
      else if f % 2 == 0 then f
      else f + 1
  }

  /** Storing a value that already is a byte keeps it. */
  lemma {:induction false} StoreByteOfByte(b: Byte)
    ensures StoreByte(b as real) == b
  {
  }

  /** Stores are monotone: a larger value never gives a smaller byte. */
  lemma {:induction false} StoreByteMonotone(u: real, v: real)
    requires u <= v
    ensures StoreByte(u) <= StoreByte(v)
  {
    if 0.0 < u && v < 255.0 {
      assert u.Floor <= v.Floor;
      if u.Floor < v.Floor {
        assert StoreByte(u) <= u.Floor + 1 <= v.Floor <= StoreByte(v);
      }
    }
  }

  /** The clamping write `data[i] = Math.max(0, Math.min(255, v))`. */
  function ClampStore(v: real): Byte {
    StoreByte(Clamp(v))
  }

  /** The explicit clamp is redundant: the store clamps by itself. */
  lemma {:induction false} ClampStoreIsStore(v: real)
    ensures ClampStore(v) == StoreByte(v)
  {
  }

  /** The colour channels of one pixel. */
  datatype Rgb = Rgb(r: Byte, g: Byte, b: Byte)
  {
    function Channel(c: nat): Byte
      requires c < 3
    {
      if c == 0 then r else if c == 1 then g else b
    }
  }

  /** Luma weights 0.3 / 0.59 / 0.11. */
  function Gray(p: Rgb): real {
    0.3 * p.r as real + 0.59 * p.g as real + 0.11 * p.b as real
  }

  /** Contrast stretch about 128 by factor `k`, written back to the buffer. */
  function Contrast(v: Byte, k: real): Byte {
    ClampStore((v as real - 128.0) * k + 128.0)
  }

  /** Saturation: moves a channel away from the pixel's grey by factor `s`. */
  function Saturate(v: Byte, gray: real, s: real): Byte {
    ClampStore(gray + s * (v as real - gray))
  }

  /** Saturation of a whole pixel; the grey is computed once, from the input channels. */
  function SaturatePixel(p: Rgb, s: real): Rgb {
    var gray := Gray(p);
    Rgb(Saturate(p.r, gray, s), Saturate(p.g, gray, s), Saturate(p.b, gray, s))
  }

  /** The contrast passes on each channel, then saturation on the stored results. */
  function ContrastSaturate(p: Rgb, k: real, s: real): Rgb {
    SaturatePixel(Rgb(Contrast(p.r, k), Contrast(p.g, k), Contrast(p.b, k)), s)
  }

  /** A neutral grey pixel stays neutral grey: contrast moves it, saturation does not. */
  lemma {:induction false} GrayStaysGray(v: Byte, k: real, s: real)
    ensures ContrastSaturate(Rgb(v, v, v), k, s) == Rgb(Contrast(v, k), Contrast(v, k), Contrast(v, k))
  {
    var w := Contrast(v, k);
    assert Gray(Rgb(w, w, w)) == w as real;
    StoreByteOfByte(w);
  }

  /** Mid grey 128 is a fixed point of the contrast and saturation step. */
  lemma {:induction false} MidGrayFixed(k: real, s: real)
    ensures ContrastSaturate(Rgb(128, 128, 128), k, s) == Rgb(128, 128, 128)
  {
    GrayStaysGray(128, k, s);
    StoreByteOfByte(128);
  }

  lemma {:induction false} MulNonNegative(a: real, b: real)
    requires a >= 0.0 && b >= 0.0
    ensures a * b >= 0.0
  {
  }

  /** Contrast with a factor of at least 1 never moves a channel towards 128. */
  lemma {:induction false} ContrastSpreads(v: Byte, k: real)
    requires k >= 1.0
    ensures v >= 128 ==> Contrast(v, k) >= v
    ensures v <= 128 ==> Contrast(v, k) <= v
  {
    StoreByteOfByte(v);
    if v >= 128 {
      MulNonNegative(v as real - 128.0, k - 1.0);
      assert (v as real - 128.0) * k + 128.0 >= v as real;
      StoreByteMonotone(v as real, Clamp((v as real - 128.0) * k + 128.0));
    } else {
      MulNonNegative(128.0 - v as real, k - 1.0);
      assert (v as real - 128.0) * k + 128.0 <= v as real;
      if (v as real - 128.0) * k + 128.0 >= 0.0 {
        StoreByteMonotone(Clamp((v as real - 128.0) * k + 128.0), v as real);
      }
    }
  }
}
