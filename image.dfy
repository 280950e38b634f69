/**
  Layout of an `ImageData` buffer: `width * height` pixels in row-major
  order, four bytes each (red, green, blue, alpha).
*/
module Image {

  import opened Pixels

  /** The buffer length `ImageData` guarantees for its dimensions. */
  predicate Shaped(len: int, width: nat, height: nat) {
    len == 4 * (width * height)
  }

  /** A shaped buffer holds whole pixels, `width * height` of them. */
  lemma {:induction false} ShapedPixels(len: int, width: nat, height: nat)
    requires Shaped(len, width, height)
    ensures len % 4 == 0 && len / 4 == width * height
  {
    var n := width * height;
    assert len == 4 * n;
  }

  /** Byte `i` is an alpha byte. */
  predicate IsAlpha(i: int) {
    i % 4 == 3
  }

  /** The colour channels of pixel `p`. */
  function PixelAt(s: seq<Byte>, p: nat): Rgb
    requires 4 * p + 3 <= |s|
  {
    Rgb(s[4 * p], s[4 * p + 1], s[4 * p + 2])
  }

  /** Channel `c` of `p` (0 red, 1 green, 2 blue). */
  function ChannelByte(p: Rgb, c: nat): Byte
    requires c < 3
  {
    p.Channel(c)
  }

  /** Row-major index arithmetic: pixel `row * width + col` sits at (`col`, `row`). */
  lemma {:induction false} RowCol(width: nat, row: nat, col: nat)
    requires col < width
    ensures (row * width + col) / width == row
    ensures (row * width + col) % width == col
  {
    var p := row * width + col;
    var q, r := p / width, p % width;
    assert p == q * width + r;
    if q < row {
      MulLeft(q + 1, row, width);
      assert false;
    } else if q > row {
      MulLeft(row + 1, q, width);
      assert false;
    }
  }

  lemma {:induction false} MulLeft(a: nat, b: nat, c: nat)
    requires a <= b
    ensures a * c <= b * c
  {
  }

  /** A pixel inside the image has its four bytes inside the buffer. */
  lemma {:induction false} PixelInside(width: nat, height: nat, row: nat, col: nat)
    requires row < height && col < width
    ensures row * width + col < width * height
    ensures 4 * (row * width + col) + 3 < 4 * (width * height)
  {
    MulLeft(row, height - 1, width);
    assert (height - 1) * width == width * height - width;
  }

  /** A pixel index below `width * height` needs both dimensions positive. */
  lemma {:induction false} DimsPositive(width: nat, height: nat, p: nat)
    requires p < width * height
    ensures width > 0 && height > 0
  {
  }

  /** Column and row of pixel `p`. */
  lemma {:induction false} PixelCoords(width: nat, height: nat, p: nat)
    requires p < width * height
    ensures width > 0 && p % width < width && p / width < height
    ensures p == (p / width) * width + p % width
  {
    if p / width >= height {
      MulLeft(height, p / width, width);
    }
  }

  /** The pixel holding byte `i`; its bytes lie inside the buffer. */
  lemma {:induction false} ByteOfPixel(width: nat, height: nat, i: nat)
    requires i < 4 * (width * height)
    ensures i / 4 < width * height
    ensures 4 * (i / 4) + 3 < 4 * (width * height)
  {
  }
}
