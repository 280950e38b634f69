/**
  The two neighbourhood filters of the ultra enhancement level: a Gaussian
  blur (`applyGaussianBlur`) and a simplified bilateral filter
  (`applySimplifiedBilateralFilter`). Both read from one buffer and fill a
  fresh one. `Math.exp` is a parameter `exp`, constrained only to be
  positive; the model is exact real arithmetic.
*/
module Filters {

  import opened Pixels
  import opened Image

  /** `Math.min(n - 1, Math.max(0, v))`: a coordinate clamped into [0, n - 1]. */
  function ClampCoord(v: int, n: nat): (r: nat)
    requires n > 0
    ensures r < n
    ensures 0 <= v < n ==> r == v
    ensures v < 0 ==> r == 0
    ensures v >= n ==> r == n - 1
  {
    if v < 0 then 0 else if v > n - 1 then n - 1 else v
  }

  /** Sum of the first `n` terms, accumulated from the left. */
  function SumTo(a: seq<real>, n: nat): real
    requires n <= |a|
  {
    if n == 0 then 0.0 else SumTo(a, n - 1) + a[n - 1]
  }

  /** Weighted sum of the first `n` values `a[i] * b[i]`, accumulated from the left. */
  function DotTo(a: seq<real>, b: seq<real>, n: nat): real
    requires n <= |a| && n <= |b|
  {
    if n == 0 then 0.0 else DotTo(a, b, n - 1) + Mul(a[n - 1], b[n - 1])
  }

  function Mul(a: real, b: real): real { a * b }

  lemma {:induction false} SumToPositive(a: seq<real>, n: nat)
    requires 0 < n <= |a|
    requires forall i :: 0 <= i < n ==> a[i] > 0.0
    ensures SumTo(a, n) > 0.0
  {
    if n > 1 {
      SumToPositive(a, n - 1);
    }
  }

  lemma {:induction false} MulMonotone(u: real, v: real, w: real)
    requires u <= v && w > 0.0
    ensures u * w <= v * w
  {
  }

  /** A positive-weighted sum of values in [lo, hi] lies between lo and hi times the total weight. */
  lemma {:induction false} DotBounds(a: seq<real>, b: seq<real>, n: nat, lo: real, hi: real)
    requires n <= |a| && n <= |b|
    requires forall i :: 0 <= i < n ==> lo <= a[i] <= hi
    requires forall i :: 0 <= i < n ==> b[i] > 0.0
    ensures lo * SumTo(b, n) <= DotTo(a, b, n) <= hi * SumTo(b, n)
  {
    if n > 0 {
      DotBounds(a, b, n - 1, lo, hi);
      MulMonotone(lo, a[n - 1], b[n - 1]);
      MulMonotone(a[n - 1], hi, b[n - 1]);
    }
  }

  /** A weighted average of values in [lo, hi] lies in [lo, hi]. */
  lemma {:induction false} AverageBounds(a: seq<real>, b: seq<real>, n: nat, lo: real, hi: real)
    requires 0 < n <= |a| && n <= |b|
    requires forall i :: 0 <= i < n ==> lo <= a[i] <= hi
    requires forall i :: 0 <= i < n ==> b[i] > 0.0
    ensures SumTo(b, n) > 0.0
    ensures lo <= DotTo(a, b, n) / SumTo(b, n) <= hi
  {
    SumToPositive(b, n);
    DotBounds(a, b, n, lo, hi);
    DivBounds(DotTo(a, b, n), SumTo(b, n), lo, hi);
  }

  lemma {:induction false} MulStrict(u: real, v: real, w: real)
    requires u < v && w > 0.0
    ensures u * w < v * w
  {
  }

  lemma {:induction false} DivBounds(d: real, s: real, lo: real, hi: real)
    requires s > 0.0 && lo * s <= d <= hi * s
    ensures lo <= d / s <= hi
  {
    var q := d / s;
    assert q * s == d;
    if q < lo {
      MulStrict(q, lo, s);
    }
    if q > hi {
      MulStrict(hi, q, s);
    }
  }

  /** Dividing every term by `t` divides the sum by `t`. */
  lemma {:induction false} SumToScaled(a: seq<real>, q: seq<real>, t: real, n: nat)
    requires t != 0.0 && n <= |a| && n <= |q|
    requires forall i :: 0 <= i < n ==> q[i] == a[i] / t
    ensures SumTo(q, n) == SumTo(a, n) / t
  {
    if n > 0 {
      SumToScaled(a, q, t, n - 1);
    }
  }

  /** The int32 value of an integer, as a bitwise operator sees it. */
  function ToInt32(n: int): (r: int)
    ensures -0x8000_0000 <= r < 0x8000_0000
    ensures (n - r) % 0x1_0000_0000 == 0
  {
    var m := n % 0x1_0000_0000;
    if m >= 0x8000_0000 then m - 0x1_0000_0000 else m
  }

  /** `n | 1` on an int32 value: the lowest bit set. */
  function OrOne(n: int): (r: int)
    ensures r % 2 == 1 && (r == n || r == n + 1)
  {
    if n % 2 == 0 then n + 1 else n
  }

  /** `Math.max(3, Math.ceil(sigma * 3) | 1)`: side of the Gaussian kernel. */
  function KernelSize(sigma: real): (size: nat)
    ensures size >= 3 && size % 2 == 1
  {
    var k := OrOne(ToInt32(Ceil(sigma * 3.0)));
    if k < 3 then 3 else k
  }

  /** The ultra level blurs with sigma 1.5, which gives a 5 x 5 kernel. */
  lemma {:induction false} KernelSizeOfUltra()
    ensures KernelSize(1.5) == 5
  {
    assert Ceil(4.5) == 5;
  }

  /** `Math.exp(-(x * x + y * y) / (2 * sigma * sigma))`: the weight of offset (x, y). */
  function GaussWeight(sigma: real, exp: real -> real, x: int, y: int): real
    requires sigma > 0.0
  {
    exp(-((x * x + y * y) as real) / (2.0 * sigma * sigma))
  }

  /** Entry `n` of the kernel before normalisation (row `n / size`, column `n % size`). */
  function KernelWeight(sigma: real, exp: real -> real, size: nat, n: nat): real
    requires sigma > 0.0 && size > 0
  {
    var half := size / 2;
    GaussWeight(sigma, exp, n / size - half, n % size - half)
  }

  /** Row `i` of the kernel before normalisation. */
  function KernelRow(sigma: real, exp: real -> real, size: nat, i: nat): (k: seq<real>)
    requires sigma > 0.0
    ensures |k| == size
  {
    seq(size, j => GaussWeight(sigma, exp, i - size / 2, j - size / 2))
  }

  /** The kernel before normalisation, for a kernel side `size`. */
  function RawKernel(sigma: real, exp: real -> real, size: nat): (k: seq<real>)
    requires sigma > 0.0 && size > 0
    ensures |k| == size * size
  {
    seq(size * size, n requires 0 <= n < size * size => KernelWeight(sigma, exp, size, n))
  }

  /** Each weight divided by the total. */
  function Normalised(raw: seq<real>): (k: seq<real>)
    requires |raw| > 0
    requires forall n :: 0 <= n < |raw| ==> raw[n] > 0.0
    ensures |k| == |raw|
  {
    SumToPositive(raw, |raw|);
    var total := SumTo(raw, |raw|);
    seq(|raw|, n requires 0 <= n < |raw| => raw[n] / total)
  }

  /** The normalised Gaussian kernel of `applyGaussianBlur`. */
  function Kernel(sigma: real, exp: real -> real): (k: seq<real>)
    requires sigma > 0.0
    requires forall t :: exp(t) > 0.0
    ensures |k| == KernelSize(sigma) * KernelSize(sigma)
  {
    var size := KernelSize(sigma);
    MulLeft(1, size, size);
    Normalised(RawKernel(sigma, exp, size))
  }

  /** A normalised kernel is positive and sums to 1. */
  lemma {:induction false} NormalisedSumsToOne(raw: seq<real>)
    requires |raw| > 0
    requires forall n :: 0 <= n < |raw| ==> raw[n] > 0.0
    ensures var k := Normalised(raw);
      (forall n :: 0 <= n < |k| ==> k[n] > 0.0) && SumTo(k, |k|) == 1.0
  {
    SumToPositive(raw, |raw|);
    var total := SumTo(raw, |raw|);
    var k := Normalised(raw);
    SumToScaled(raw, k, total, |raw|);
    assert SumTo(raw, |raw|) / total == 1.0;
    forall n | 0 <= n < |k| ensures k[n] > 0.0 {
      assert k[n] == raw[n] / total;
    }
  }

  /** The kernel is square with an odd side of at least 3, positive, and sums to 1. */
  lemma {:induction false} KernelNormalised(sigma: real, exp: real -> real)
    requires sigma > 0.0
    requires forall t :: exp(t) > 0.0
    ensures var k := Kernel(sigma, exp);
      |k| == KernelSize(sigma) * KernelSize(sigma) && KernelSize(sigma) % 2 == 1 && KernelSize(sigma) >= 3 &&
      (forall n :: 0 <= n < |k| ==> k[n] > 0.0) &&
      SumTo(k, |k|) == 1.0
  {
    var size := KernelSize(sigma);
    MulLeft(1, size, size);
    NormalisedSumsToOne(RawKernel(sigma, exp, size));
  }

  /** The `push` double loop of `applyGaussianBlur` that fills the raw kernel and its sum. */
  method RawKernelLoop(sigma: real, exp: real -> real, size: nat) returns (kernel: seq<real>, sum: real)
    requires sigma > 0.0 && size > 0
    ensures kernel == RawKernel(sigma, exp, size)
    ensures sum == SumTo(kernel, |kernel|)
  {
    ghost var raw := RawKernel(sigma, exp, size);
    kernel := [];
    sum := 0.0;
    for i := 0 to size
      invariant |kernel| == i * size <= |raw|
      invariant kernel == raw[..i * size]
      invariant sum == SumTo(kernel, |kernel|)
    {
      kernel, sum := RawKernelRow(sigma, exp, size, i, kernel, sum);
      RawKernelRows(sigma, exp, size, i);
      assert (i + 1) * size == i * size + size;
    }
    assert kernel == raw;
  }

  /** One pass of the inner loop: pushes row `i` of the raw kernel and adds it to the sum. */
  method RawKernelRow(sigma: real, exp: real -> real, size: nat, i: nat, kernel0: seq<real>, sum0: real)
    returns (kernel: seq<real>, sum: real)
    requires sigma > 0.0
    requires sum0 == SumTo(kernel0, |kernel0|)
    ensures kernel == kernel0 + KernelRow(sigma, exp, size, i)
    ensures sum == SumTo(kernel, |kernel|)
  {
    var half := size / 2;
    ghost var row := KernelRow(sigma, exp, size, i);
    kernel, sum := kernel0, sum0;
    for j := 0 to size
      invariant kernel == kernel0 + row[..j]
      invariant sum == SumTo(kernel, |kernel|)
    {
      var x := i - half;
      var y := j - half;
      var value := GaussWeight(sigma, exp, x, y);
      assert row[..j + 1] == row[..j] + [value];
      SumToAppend(kernel, value, |kernel|);
      kernel := kernel + [value];
      sum := sum + value;
    }
  }

  /** Appending a value leaves the sums of the earlier prefixes alone. */
  lemma {:induction false} SumToAppend(a: seq<real>, v: real, n: nat)
    requires n <= |a|
    ensures SumTo(a + [v], n) == SumTo(a, n)
    decreases n
  {
    if n > 0 {
      SumToAppend(a, v, n - 1);
      assert (a + [v])[n - 1] == a[n - 1];
    }
  }

  /** Row `i` follows the first `i` rows of the raw kernel. */
  lemma {:induction false} RawKernelRows(sigma: real, exp: real -> real, size: nat, i: nat)
    requires sigma > 0.0 && i < size
    ensures i * size + size <= size * size
    ensures RawKernel(sigma, exp, size)[..i * size] + KernelRow(sigma, exp, size, i) == RawKernel(sigma, exp, size)[..i * size + size]
  {
    MulLeft(i + 1, size, size);
    assert (i + 1) * size == i * size + size;
    var raw := RawKernel(sigma, exp, size);
    var row := KernelRow(sigma, exp, size, i);
    forall j | 0 <= j < size
      ensures raw[i * size + j] == row[j]
    {
      RawKernelAt(sigma, exp, size, i, j);
    }
    assert raw[..i * size] + row == raw[..i * size + size];
  }

  /** Row `i`, column `j` of the raw kernel is the weight of offsets `(i - half, j - half)`. */
  lemma {:induction false} RawKernelAt(sigma: real, exp: real -> real, size: nat, i: nat, j: nat)
    requires sigma > 0.0 && i < size && j < size
    ensures i * size + j < size * size
    ensures RawKernel(sigma, exp, size)[i * size + j] == GaussWeight(sigma, exp, i - size / 2, j - size / 2)
  {
    MulLeft(i + 1, size, size);
    var n := i * size + j;
    RowCol(size, i, j);
    assert n / size == i && n % size == j;
    assert RawKernel(sigma, exp, size)[n] == KernelWeight(sigma, exp, size, n);
  }

  /** Builds the kernel with `push`, then divides it in place by its sum. */
  method GaussianKernel(sigma: real, exp: real -> real) returns (kernel: seq<real>)
    requires sigma > 0.0
    requires forall t :: exp(t) > 0.0
    ensures kernel == Kernel(sigma, exp)
  {
    var size := KernelSize(sigma);
    MulLeft(1, size, size);
    ghost var raw := RawKernel(sigma, exp, size);
    var sum;
    kernel, sum := RawKernelLoop(sigma, exp, size);
    SumToPositive(raw, |raw|);
    for i := 0 to |kernel|
      invariant |kernel| == |raw|
      invariant forall n :: 0 <= n < i ==> kernel[n] == raw[n] / sum
      invariant forall n :: i <= n < |raw| ==> kernel[n] == raw[n]
    {
      kernel := kernel[i := kernel[i] / sum];
    }
  }

  /** Byte offset of the neighbour in row `row`, column `col` of the `size` x `size` window around (x, y), coordinates clamped. */
  function NeighbourIndex(width: nat, height: nat, x: int, y: int, size: nat, row: int, col: int): (k: nat)
    requires width > 0 && height > 0
    ensures k % 4 == 0 && k + 3 < 4 * (width * height)
  {
    var half := size / 2;
    var py := ClampCoord(y + row - half, height);
    var px := ClampCoord(x + col - half, width);
    PixelInside(width, height, py, px);
    4 * (py * width + px)
  }

  lemma {:induction false} MulSucc(a: nat, b: nat)
    ensures a * b + b == (a + 1) * b
  {
  }

  /** Window entry `row * size + col` lies in row `row` and column `col`. */
  lemma {:induction false} NeighbourAt(width: nat, height: nat, x: int, y: int, size: nat, row: nat, col: nat)
    requires width > 0 && height > 0 && col < size && row < size
    ensures row * size + col < size * size
    ensures (row * size + col) / size == row && (row * size + col) % size == col
  {
    RowCol(size, row, col);
    PixelInside(size, size, row, col);
  }

  /** Channel `c` of the window around (x, y), in row-major window order. */
  function Window(data: seq<Byte>, width: nat, height: nat, x: int, y: int, c: nat, size: nat): (vals: seq<real>)
    requires Shaped(|data|, width, height) && width > 0 && height > 0 && size > 0 && c < 3
    ensures |vals| == size * size
  {
    seq(size * size, n requires 0 <= n < size * size => data[NeighbourIndex(width, height, x, y, size, n / size, n % size) + c] as real)
  }

  /** Blurred channel `c` of pixel (x, y): the kernel-weighted average of its window, stored. */
  function BlurAt(data: seq<Byte>, width: nat, height: nat, kernel: seq<real>, size: nat, x: nat, y: nat, c: nat): Byte
    requires Shaped(|data|, width, height) && x < width && y < height && c < 3
    requires size > 0 && |kernel| == size * size
    requires forall n :: 0 <= n < |kernel| ==> kernel[n] > 0.0
  {
    SumToPositive(kernel, |kernel|);
    var vals := Window(data, width, height, x, y, c, size);
    StoreByte(DotTo(vals, kernel, |kernel|) / SumTo(kernel, |kernel|))
  }

  /** The whole blurred buffer: alpha copied, every colour byte blurred. */
  function Blurred(data: seq<Byte>, width: nat, height: nat, kernel: seq<real>, size: nat): (r: seq<Byte>)
    requires Shaped(|data|, width, height)
    requires size > 0 && |kernel| == size * size
    requires forall n :: 0 <= n < |kernel| ==> kernel[n] > 0.0
    ensures |r| == |data|
  {
    seq(|data|, i requires 0 <= i < |data| =>
      if IsAlpha(i) then data[i]
      else
        ByteOfPixel(width, height, i);
        PixelCoords(width, height, i / 4);
        BlurAt(data, width, height, kernel, size, (i / 4) % width, (i / 4) / width, i % 4))
  }

  /** A blurred byte lies between the smallest and largest value of its window. */
  lemma {:induction false} BlurWithinWindow(data: seq<Byte>, width: nat, height: nat, kernel: seq<real>, size: nat,
                         x: nat, y: nat, c: nat, lo: Byte, hi: Byte)
    requires Shaped(|data|, width, height) && x < width && y < height && c < 3
    requires size > 0 && |kernel| == size * size
    requires forall n :: 0 <= n < |kernel| ==> kernel[n] > 0.0
    requires forall n :: 0 <= n < size * size ==>
      lo as real <= Window(data, width, height, x, y, c, size)[n] <= hi as real
    ensures lo <= BlurAt(data, width, height, kernel, size, x, y, c) <= hi
  {
    var vals := Window(data, width, height, x, y, c, size);
    AverageBounds(vals, kernel, |kernel|, lo as real, hi as real);
    var avg := DotTo(vals, kernel, |kernel|) / SumTo(kernel, |kernel|);
    StoreByteMonotone(lo as real, avg);
    StoreByteMonotone(avg, hi as real);
    StoreByteOfByte(lo);
    StoreByteOfByte(hi);
  }

  /** Channel `c` is `v` in every pixel. */
  predicate UniformChannel(data: seq<Byte>, c: nat, v: Byte) {
    forall i :: 0 <= i < |data| && i % 4 == c ==> data[i] == v
  }

  /** Blurring an image whose channel is uniform leaves that channel as it was. */
  lemma {:induction false} BlurUniform(data: seq<Byte>, width: nat, height: nat, kernel: seq<real>, size: nat, c: nat, v: Byte)
    requires Shaped(|data|, width, height) && c < 3
    requires size > 0 && |kernel| == size * size
    requires forall n :: 0 <= n < |kernel| ==> kernel[n] > 0.0
    requires UniformChannel(data, c, v)
    ensures forall i :: 0 <= i < |data| && i % 4 == c ==> Blurred(data, width, height, kernel, size)[i] == v
  {
    forall i | 0 <= i < |data| && i % 4 == c
      ensures Blurred(data, width, height, kernel, size)[i] == v
    {
      ByteOfPixel(width, height, i);
      PixelCoords(width, height, i / 4);
      BlurUniformAt(data, width, height, kernel, size, (i / 4) % width, (i / 4) / width, c, v);
    }
  }

  /** The blurred byte of a uniform channel, at one pixel. */
  lemma {:induction false} BlurUniformAt(data: seq<Byte>, width: nat, height: nat, kernel: seq<real>, size: nat,
                                         x: nat, y: nat, c: nat, v: Byte)
    requires Shaped(|data|, width, height) && x < width && y < height && c < 3
    requires size > 0 && |kernel| == size * size
    requires forall n :: 0 <= n < |kernel| ==> kernel[n] > 0.0
    requires UniformChannel(data, c, v)
    ensures BlurAt(data, width, height, kernel, size, x, y, c) == v
  {
    forall n | 0 <= n < size * size
      ensures v as real <= Window(data, width, height, x, y, c, size)[n] <= v as real
    {
      UniformWindowEntry(data, width, height, x, y, c, size, n, v);
    }
    BlurWithinWindow(data, width, height, kernel, size, x, y, c, v, v);
  }

  /** Every window entry of a uniform channel is its value. */
  lemma {:induction false} UniformWindowEntry(data: seq<Byte>, width: nat, height: nat, x: int, y: int, c: nat, size: nat,
                                              n: nat, v: Byte)
    requires Shaped(|data|, width, height) && width > 0 && height > 0 && size > 0 && c < 3
    requires n < size * size
    requires UniformChannel(data, c, v)
    ensures Window(data, width, height, x, y, c, size)[n] == v as real
  {
    var k := NeighbourIndex(width, height, x, y, size, n / size, n % size);
    ShapedPixels(|data|, width, height);
    ByteOfPixelAt(k / 4, c);
    assert k == 4 * (k / 4);
    assert data[k + c] == v;
  }

  /** Weighted sums over the window of one channel, in the source's ky / kx loop order. */
  method BlurSums(data: seq<Byte>, width: nat, height: nat, kernel: seq<real>, size: nat, x: nat, y: nat, c: nat)
    returns (sum: real, kernelSum: real)
    requires Shaped(|data|, width, height) && x < width && y < height && c < 3
    requires size % 2 == 1 && |kernel| == size * size
    ensures sum == DotTo(Window(data, width, height, x, y, c, size), kernel, |kernel|)
    ensures kernelSum == SumTo(kernel, |kernel|)
  {
    var half := size / 2;
    ghost var vals := Window(data, width, height, x, y, c, size);
    sum, kernelSum := 0.0, 0.0;
    var ky := -half;
    ghost var base: nat := 0;
    while ky <= half
      invariant -half <= ky <= half + 1
      invariant base == (ky + half) * size
      invariant base <= |kernel|
      invariant sum == DotTo(vals, kernel, base)
      invariant kernelSum == SumTo(kernel, base)
    {
      MulLeft(ky + half + 1, size, size);
      MulSucc(ky + half, size);
      sum, kernelSum := BlurSumsRow(data, width, height, kernel, size, x, y, c, ky, base, sum, kernelSum);
      ky := ky + 1;
      base := base + size;
    }
  }

  /** The inner `kx` loop of window row `ky`, whose kernel entries start at `base`. */
  method BlurSumsRow(data: seq<Byte>, width: nat, height: nat, kernel: seq<real>, size: nat, x: nat, y: nat, c: nat,
                     ky: int, ghost base: nat, sum0: real, kernelSum0: real)
    returns (sum: real, kernelSum: real)
    requires Shaped(|data|, width, height) && x < width && y < height && c < 3
    requires size % 2 == 1 && |kernel| == size * size
    requires -(size / 2) <= ky <= size / 2
    requires base == (ky + size / 2) * size && base + size <= size * size
    requires sum0 == DotTo(Window(data, width, height, x, y, c, size), kernel, base)
    requires kernelSum0 == SumTo(kernel, base)
    ensures sum == DotTo(Window(data, width, height, x, y, c, size), kernel, base + size)
    ensures kernelSum == SumTo(kernel, base + size)
  {
    var half := size / 2;
    ghost var vals := Window(data, width, height, x, y, c, size);
    sum, kernelSum := sum0, kernelSum0;
    // kx runs from -half to half; col = kx + half is its window column
    for col := 0 to size
      invariant sum == DotTo(vals, kernel, base + col)
      invariant kernelSum == SumTo(kernel, base + col)
    {
      var kx := col - half;
      sum, kernelSum := BlurTap(data, width, height, kernel, size, x, y, c, ky, kx, base, sum, kernelSum);
      assert DotTo(vals, kernel, base + col + 1) == DotTo(vals, kernel, base + col) + Mul(vals[base + col], kernel[base + col]);
    }
  }

  /** One step `(kx, ky)` of the window loops: the neighbour's byte times its kernel weight, and the weight, are added. */
  method BlurTap(data: seq<Byte>, width: nat, height: nat, kernel: seq<real>, size: nat, x: nat, y: nat, c: nat,
                 ky: int, kx: int, ghost base: nat, sum0: real, kernelSum0: real)
    returns (sum: real, kernelSum: real)
    requires Shaped(|data|, width, height) && x < width && y < height && c < 3
    requires size % 2 == 1 && |kernel| == size * size
    requires -(size / 2) <= ky <= size / 2 && -(size / 2) <= kx <= size / 2
    requires base == (ky + size / 2) * size
    ensures base + (kx + size / 2) < |kernel|
    ensures sum == sum0 + Mul(Window(data, width, height, x, y, c, size)[base + (kx + size / 2)], kernel[base + (kx + size / 2)])
    ensures kernelSum == kernelSum0 + kernel[base + (kx + size / 2)]
  {
    var half := size / 2;
    var pixelY := ClampCoord(y + ky, height);
    var pixelX := ClampCoord(x + kx, width);
    var pixelIdx := (pixelY * width + pixelX) * 4;
    var kernelIdx := (ky + half) * size + (kx + half);
    WindowEntry(data, width, height, x, y, c, size, ky + half, kx + half, ky, kx, pixelY, pixelX, pixelIdx, kernelIdx);
    sum := sum0 + Mul(data[pixelIdx + c] as real, kernel[kernelIdx]);
    kernelSum := kernelSum0 + kernel[kernelIdx];
  }

  /**
    Entry (row, col) of the window, at offset (kx, ky) from its centre, is
    the byte of the clamped neighbour (px, py).
  */
  lemma {:induction false} WindowEntry(data: seq<Byte>, width: nat, height: nat, x: nat, y: nat, c: nat, size: nat,
                                       row: nat, col: nat, ky: int, kx: int, py: nat, px: nat, idx: int, n: int)
    requires Shaped(|data|, width, height) && x < width && y < height && c < 3
    requires row < size && col < size && row == ky + size / 2 && col == kx + size / 2
    requires n == row * size + col
    requires py == ClampCoord(y + ky, height) && px == ClampCoord(x + kx, width)
    requires idx == (py * width + px) * 4
    ensures 0 <= n < size * size
    ensures 0 <= idx && idx + c < |data|
    ensures Window(data, width, height, x, y, c, size)[n] == data[idx + c] as real
  {
    NeighbourAt(width, height, x, y, size, row, col);
    var k := NeighbourIndex(width, height, x, y, size, row, col);
    assert k == idx by {
      assert y + row - size / 2 == y + ky && x + col - size / 2 == x + kx;
      assert idx == 4 * (py * width + px);
    }
    WindowAt(data, width, height, x, y, c, size, row, col, n);
  }

  lemma {:induction false} WindowAt(data: seq<Byte>, width: nat, height: nat, x: int, y: int, c: nat, size: nat,
                                    row: nat, col: nat, n: int)
    requires Shaped(|data|, width, height) && width > 0 && height > 0 && c < 3
    requires row < size && col < size && n == row * size + col
    requires n < size * size && n / size == row && n % size == col
    ensures Window(data, width, height, x, y, c, size)[n] == data[NeighbourIndex(width, height, x, y, size, row, col) + c] as real
  {
  }

  /** One blurred byte: `sum / kernelSum` over the window, as stored into the result. */
  method BlurChannel(data: seq<Byte>, width: nat, height: nat, kernel: seq<real>, size: nat, x: nat, y: nat, c: nat)
    returns (v: Byte)
    requires Shaped(|data|, width, height) && x < width && y < height && c < 3
    requires size % 2 == 1 && |kernel| == size * size
    requires forall n :: 0 <= n < |kernel| ==> kernel[n] > 0.0
    ensures v == BlurAt(data, width, height, kernel, size, x, y, c)
  {
    var sum, kernelSum := BlurSums(data, width, height, kernel, size, x, y, c);
    SumToPositive(kernel, |kernel|);
    v := StoreByte(sum / kernelSum);
  }

  /**
    `out` holds the input's alpha bytes, and the filtered colour bytes
    `spec` of every pixel before pixel `q`.
  */
  ghost predicate FilledUpTo(out: array<Byte>, data: seq<Byte>, spec: seq<Byte>, q: int)
    reads out
  {
    out.Length == |data| == |spec| &&
    (forall j :: 0 <= j < |data| && IsAlpha(j) ==> out[j] == data[j]) &&
    (forall j :: 0 <= j < |data| && !IsAlpha(j) && j / 4 < q ==> out[j] == spec[j])
  }

  /** The alpha-copy loop of both filters. */
  method CopyAlpha(out: array<Byte>, data: seq<Byte>)
    requires out.Length == |data| && |data| % 4 == 0
    modifies out
    ensures forall j :: 0 <= j < |data| && IsAlpha(j) ==> out[j] == data[j]
    ensures forall j :: 0 <= j < |data| && !IsAlpha(j) ==> out[j] == old(out[j])
  {
    var i := 0;
    while i < |data|
      invariant 0 <= i <= |data| && i % 4 == 0
      invariant forall j :: 0 <= j < i && IsAlpha(j) ==> out[j] == data[j]
      invariant forall j :: 0 <= j < |data| && (!IsAlpha(j) || j >= i) ==> out[j] == old(out[j])
    {
      out[i + 3] := data[i + 3];
      i := i + 4;
    }
  }

  /** `applyGaussianBlur`: a fresh buffer with the input's alpha and every colour byte blurred. */
  method GaussianBlur(data: seq<Byte>, width: nat, height: nat, sigma: real, exp: real -> real)
    returns (result: seq<Byte>)
    requires Shaped(|data|, width, height)
    requires sigma > 0.0
    requires forall t :: exp(t) > 0.0
    ensures KernelSize(sigma) > 0 && |Kernel(sigma, exp)| == KernelSize(sigma) * KernelSize(sigma)
    ensures forall n :: 0 <= n < |Kernel(sigma, exp)| ==> Kernel(sigma, exp)[n] > 0.0
    ensures result == Blurred(data, width, height, Kernel(sigma, exp), KernelSize(sigma))
  {
    var kernel := GaussianKernel(sigma, exp);
    KernelNormalised(sigma, exp);
    var size := KernelSize(sigma);
    result := BlurImage(data, width, height, kernel, size);
  }

  /** Colour byte `c` of pixel (x, y) of the blurred buffer. */
  lemma {:induction false} BlurredAt(data: seq<Byte>, width: nat, height: nat, kernel: seq<real>, size: nat, x: nat, y: nat, c: nat)
    requires Shaped(|data|, width, height) && x < width && y < height && c < 3
    requires size > 0 && |kernel| == size * size
    requires forall n :: 0 <= n < |kernel| ==> kernel[n] > 0.0
    ensures 4 * (y * width + x) + c < |data|
    ensures Blurred(data, width, height, kernel, size)[4 * (y * width + x) + c] ==
      BlurAt(data, width, height, kernel, size, x, y, c)
  {
    var p := y * width + x;
    PixelInside(width, height, y, x);
    RowCol(width, y, x);
    ByteOfPixelAt(p, c);
    var i := 4 * p + c;
    assert !IsAlpha(i);
    assert (i / 4) % width == x && (i / 4) / width == y && i % 4 == c;
  }

  lemma {:induction false} ByteOfPixelAt(p: nat, c: nat)
    requires c < 4
    ensures (4 * p + c) / 4 == p && (4 * p + c) % 4 == c
  {
  }

  /** The pixel loops of `applyGaussianBlur` for a given kernel. */
  method BlurImage(data: seq<Byte>, width: nat, height: nat, kernel: seq<real>, size: nat) returns (result: seq<Byte>)
    requires Shaped(|data|, width, height)
    requires size % 2 == 1 && |kernel| == size * size
    requires forall n :: 0 <= n < |kernel| ==> kernel[n] > 0.0
    ensures result == Blurred(data, width, height, kernel, size)
  {
    ghost var spec := Blurred(data, width, height, kernel, size);
    BlurSpecOfBlurred(data, width, height, kernel, size);
    var out := new Byte[|data|](_ => 0);
    CopyAlpha(out, data);
    BlurLoops(out, data, width, height, kernel, size, spec);
    FilledComplete(out, data, spec, width, height);
    result := out[..];
  }

  /** Every colour byte of pixel (x, y) of `spec` is the blurred byte. */
  ghost predicate BlurSpec(data: seq<Byte>, width: nat, height: nat, kernel: seq<real>, size: nat, spec: seq<Byte>)
    requires Shaped(|data|, width, height)
    requires size > 0 && |kernel| == size * size
    requires forall n :: 0 <= n < |kernel| ==> kernel[n] > 0.0
  {
    |spec| == |data| &&
    forall x: nat, y: nat, c: nat | x < width && y < height && c < 3 ::
      4 * (y * width + x) + c < |spec| &&
      spec[4 * (y * width + x) + c] == BlurAt(data, width, height, kernel, size, x, y, c)
  }

  lemma {:induction false} BlurSpecOfBlurred(data: seq<Byte>, width: nat, height: nat, kernel: seq<real>, size: nat)
    requires Shaped(|data|, width, height)
    requires size > 0 && |kernel| == size * size
    requires forall n :: 0 <= n < |kernel| ==> kernel[n] > 0.0
    ensures BlurSpec(data, width, height, kernel, size, Blurred(data, width, height, kernel, size))
  {
    forall x: nat, y: nat, c: nat | x < width && y < height && c < 3
      ensures 4 * (y * width + x) + c < |data|
      ensures Blurred(data, width, height, kernel, size)[4 * (y * width + x) + c] == BlurAt(data, width, height, kernel, size, x, y, c)
    {
      BlurredAt(data, width, height, kernel, size, x, y, c);
    }
  }

  /** The `y` and `x` loops of `applyGaussianBlur`. */
  method BlurLoops(out: array<Byte>, data: seq<Byte>, width: nat, height: nat, kernel: seq<real>, size: nat,
                   ghost spec: seq<Byte>)
    requires Shaped(|data|, width, height)
    requires size % 2 == 1 && |kernel| == size * size
    requires forall n :: 0 <= n < |kernel| ==> kernel[n] > 0.0
    requires BlurSpec(data, width, height, kernel, size, spec)
    requires FilledUpTo(out, data, spec, 0)
    modifies out
    ensures FilledUpTo(out, data, spec, height * width)
  {
    for y := 0 to height
      invariant FilledUpTo(out, data, spec, y * width)
    {
      BlurRow(out, data, width, height, kernel, size, y, spec);
      MulSucc(y, width);
    }
  }

  /** The `x` loop of one image row `y`. */
  method BlurRow(out: array<Byte>, data: seq<Byte>, width: nat, height: nat, kernel: seq<real>, size: nat,
                 y: nat, ghost spec: seq<Byte>)
    requires Shaped(|data|, width, height) && y < height
    requires size % 2 == 1 && |kernel| == size * size
    requires forall n :: 0 <= n < |kernel| ==> kernel[n] > 0.0
    requires BlurSpec(data, width, height, kernel, size, spec)
    requires FilledUpTo(out, data, spec, y * width)
    modifies out
    ensures FilledUpTo(out, data, spec, y * width + width)
  {
    for x := 0 to width
      invariant FilledUpTo(out, data, spec, y * width + x)
    {
      var idx := (y * width + x) * 4;
      PixelInside(width, height, y, x);
      BlurPixel(out, data, width, height, kernel, size, x, y, idx, y * width + x, spec);
    }
  }

  /** The three colour channels of pixel (x, y) of the blur, at byte offset `idx`. */
  method BlurPixel(out: array<Byte>, data: seq<Byte>, width: nat, height: nat, kernel: seq<real>, size: nat,
                   x: nat, y: nat, idx: nat, ghost p: nat, ghost spec: seq<Byte>)
    requires Shaped(|data|, width, height) && x < width && y < height
    requires size % 2 == 1 && |kernel| == size * size
    requires forall n :: 0 <= n < |kernel| ==> kernel[n] > 0.0
    requires FilledUpTo(out, data, spec, p)
    requires idx == 4 * p && idx + 3 < |data|
    requires forall c :: 0 <= c < 3 ==> spec[idx + c] == BlurAt(data, width, height, kernel, size, x, y, c)
    modifies out
    ensures FilledUpTo(out, data, spec, p + 1)
  {
    ChannelsFromFilled(out, data, spec, p);
    for c := 0 to 3
      invariant ChannelsUpTo(out, data, spec, p, c)
    {
      var v := BlurChannel(data, width, height, kernel, size, x, y, c);
      WriteChannel(out, data, spec, idx, p, c, v);
    }
    ChannelsToFilled(out, data, spec, p);
  }

  /** Like `FilledUpTo(out, data, spec, p)`, with the first `c` colour bytes of pixel `p` filled as well. */
  ghost predicate ChannelsUpTo(out: array<Byte>, data: seq<Byte>, spec: seq<Byte>, p: nat, c: nat)
    reads out
  {
    out.Length == |data| == |spec| &&
    (forall j :: 0 <= j < |data| && IsAlpha(j) ==> out[j] == data[j]) &&
    (forall j :: 0 <= j < |data| && !IsAlpha(j) && j < 4 * p + c ==> out[j] == spec[j])
  }

  lemma {:induction false} ChannelsFromFilled(out: array<Byte>, data: seq<Byte>, spec: seq<Byte>, p: nat)
    requires FilledUpTo(out, data, spec, p)
    ensures ChannelsUpTo(out, data, spec, p, 0)
  {
    QuarterBelow(p);
  }

  lemma {:induction false} ChannelsToFilled(out: array<Byte>, data: seq<Byte>, spec: seq<Byte>, p: nat)
    requires ChannelsUpTo(out, data, spec, p, 3)
    ensures FilledUpTo(out, data, spec, p + 1)
  {
    QuarterBelow(p + 1);
    ByteOfPixelAt(p, 3);
  }

  /** The bytes of the pixels before pixel `p` are those before byte `4 * p`. */
  lemma {:induction false} QuarterBelow(p: nat)
    ensures forall j: int :: 0 <= j ==> (j / 4 < p <==> j < 4 * p)
  {
  }

  /** Stores colour byte `c` of pixel `p`, at byte offset `idx + c`. */
  method WriteChannel(out: array<Byte>, data: seq<Byte>, ghost spec: seq<Byte>, idx: nat, ghost p: nat, c: nat, v: Byte)
    requires ChannelsUpTo(out, data, spec, p, c)
    requires c < 3 && idx == 4 * p && idx + 3 < |data| && spec[idx + c] == v
    modifies out
    ensures ChannelsUpTo(out, data, spec, p, c + 1)
  {
    ByteOfPixelAt(p, c);
    out[idx + c] := v;
  }

  // ---------------------------------------------------------------------------
  // applySimplifiedBilateralFilter: radius 2 (a 5 x 5 window), sigmaSpace 2, sigmaColor 25.

  function Sq(d: int): nat { d * d }

  /** `kx * kx + ky * ky` for window entry `n` (row `ky + 2`, column `kx + 2`). */
  function SpatialDist(n: nat): nat {
    Sq(n % 5 - 2) + Sq(n / 5 - 2)
  }

  /** Squared colour distance between a neighbour and the centre pixel. */
  function ColourDist(p: Rgb, centre: Rgb): nat {
    Sq(p.r - centre.r) + Sq(p.g - centre.g) + Sq(p.b - centre.b)
  }

  /**
    Weight of window entry `n`: `exp(-spatialDist / (2 * 2 * 2))` times
    `exp(-colorDist / (2 * 25 * 25))`.
  */
  function BilateralWeight(exp: real -> real, n: nat, p: Rgb, centre: Rgb): real {
    Mul(Falloff(exp, SpatialDist(n), 8.0), Falloff(exp, ColourDist(p, centre), 1250.0))
  }

  /** `Math.exp(-d / scale)`. */
  function Falloff(exp: real -> real, d: nat, scale: real): real
    requires scale > 0.0
  {
    exp(-(d as real) / scale)
  }

  /** The 25 weights of the window around (x, y) for a centre colour `centre`. */
  function BilateralWeights(data: seq<Byte>, width: nat, height: nat, exp: real -> real, x: int, y: int, centre: Rgb)
    : (w: seq<real>)
    requires Shaped(|data|, width, height) && width > 0 && height > 0
    ensures |w| == 25
  {
    seq(25, n requires 0 <= n < 25 =>
      BilateralWeight(exp, n, PixelAt(data, NeighbourIndex(width, height, x, y, 5, n / 5, n % 5) / 4), centre))
  }

  lemma {:induction false} BilateralWeightsPositive(data: seq<Byte>, width: nat, height: nat, exp: real -> real, x: int, y: int, centre: Rgb)
    requires Shaped(|data|, width, height) && width > 0 && height > 0
    requires forall t :: exp(t) > 0.0
    ensures forall n :: 0 <= n < 25 ==>
      BilateralWeights(data, width, height, exp, x, y, centre)[n] > 0.0
  {
    forall n | 0 <= n < 25
      ensures BilateralWeights(data, width, height, exp, x, y, centre)[n] > 0.0
    {
      var p := PixelAt(data, NeighbourIndex(width, height, x, y, 5, n / 5, n % 5) / 4);
      MulStrict(0.0, Falloff(exp, SpatialDist(n), 8.0), Falloff(exp, ColourDist(p, centre), 1250.0));
    }
  }

  /**
    Filtered channel `c` of pixel (x, y): the weighted average of its window,
    rounded with `Math.round` and stored.
  */
  function BilateralAt(data: seq<Byte>, width: nat, height: nat, exp: real -> real, x: nat, y: nat, c: nat): Byte
    requires Shaped(|data|, width, height) && x < width && y < height && c < 3
    requires forall t :: exp(t) > 0.0
  {
    PixelInside(width, height, y, x);
    var weights := BilateralWeights(data, width, height, exp, x, y, PixelAt(data, y * width + x));
    BilateralWeightsPositive(data, width, height, exp, x, y, PixelAt(data, y * width + x));
    SumToPositive(weights, |weights|);
    var vals := Window(data, width, height, x, y, c, 5);
    StoreByte(MathRound(DotTo(vals, weights, |weights|) / SumTo(weights, |weights|)) as real)
  }

  /** The whole filtered buffer: alpha copied, every colour byte filtered. */
  function Bilateral(data: seq<Byte>, width: nat, height: nat, exp: real -> real): (r: seq<Byte>)
    requires Shaped(|data|, width, height)
    requires forall t :: exp(t) > 0.0
    ensures |r| == |data|
  {
    seq(|data|, i requires 0 <= i < |data| =>
      if IsAlpha(i) then data[i]
      else
        ByteOfPixel(width, height, i);
        PixelCoords(width, height, i / 4);
        BilateralAt(data, width, height, exp, (i / 4) % width, (i / 4) / width, i % 4))
  }

  /**
    A filtered byte lies between the smallest and largest value of its
    window, and the `Math.round` result already is a byte, so the store
    does not change it.
  */
  lemma {:induction false} BilateralWithinWindow(data: seq<Byte>, width: nat, height: nat, exp: real -> real,
                              x: nat, y: nat, c: nat, lo: Byte, hi: Byte)
    requires Shaped(|data|, width, height) && x < width && y < height && c < 3
    requires forall t :: exp(t) > 0.0
    requires forall n :: 0 <= n < 25 ==>
      lo as real <= Window(data, width, height, x, y, c, 5)[n] <= hi as real
    ensures lo <= BilateralAt(data, width, height, exp, x, y, c) <= hi
  {
    PixelInside(width, height, y, x);
    var centre := PixelAt(data, y * width + x);
    var weights := BilateralWeights(data, width, height, exp, x, y, centre);
    BilateralWeightsPositive(data, width, height, exp, x, y, centre);
    var vals := Window(data, width, height, x, y, c, 5);
    AverageBounds(vals, weights, |weights|, lo as real, hi as real);
    var avg := DotTo(vals, weights, |weights|) / SumTo(weights, |weights|);
    var r := MathRound(avg);
    assert lo <= r <= hi;
    StoreByteOfByte(r);
  }

  /** Filtering an image whose channel is uniform leaves that channel as it was. */
  lemma {:induction false} BilateralUniform(data: seq<Byte>, width: nat, height: nat, exp: real -> real, c: nat, v: Byte)
    requires Shaped(|data|, width, height) && c < 3
    requires forall t :: exp(t) > 0.0
    requires UniformChannel(data, c, v)
    ensures forall i :: 0 <= i < |data| && i % 4 == c ==> Bilateral(data, width, height, exp)[i] == v
  {
    forall i | 0 <= i < |data| && i % 4 == c
      ensures Bilateral(data, width, height, exp)[i] == v
    {
      ByteOfPixel(width, height, i);
      PixelCoords(width, height, i / 4);
      BilateralUniformAt(data, width, height, exp, (i / 4) % width, (i / 4) / width, c, v);
    }
  }

  lemma {:induction false} BilateralUniformAt(data: seq<Byte>, width: nat, height: nat, exp: real -> real, x: nat, y: nat, c: nat, v: Byte)
    requires Shaped(|data|, width, height) && x < width && y < height && c < 3
    requires forall t :: exp(t) > 0.0
    requires UniformChannel(data, c, v)
    ensures BilateralAt(data, width, height, exp, x, y, c) == v
  {
    forall n | 0 <= n < 25
      ensures v as real <= Window(data, width, height, x, y, c, 5)[n] <= v as real
    {
      var k := NeighbourIndex(width, height, x, y, 5, n / 5, n % 5);
      assert (k + c) % 4 == c;
    }
    BilateralWithinWindow(data, width, height, exp, x, y, c, v, v);
  }

  /** Colour byte `c` of pixel (x, y) of the filtered buffer. */
  lemma {:induction false} BilateralAtPixel(data: seq<Byte>, width: nat, height: nat, exp: real -> real, x: nat, y: nat, c: nat)
    requires Shaped(|data|, width, height) && x < width && y < height && c < 3
    requires forall t :: exp(t) > 0.0
    ensures 4 * (y * width + x) + c < |data|
    ensures Bilateral(data, width, height, exp)[4 * (y * width + x) + c] == BilateralAt(data, width, height, exp, x, y, c)
  {
    var p := y * width + x;
    PixelInside(width, height, y, x);
    RowCol(width, y, x);
    ByteOfPixelAt(p, c);
    var i := 4 * p + c;
    assert !IsAlpha(i);
    assert (i / 4) % width == x && (i / 4) / width == y && i % 4 == c;
  }

  /** Every colour byte of pixel (x, y) of `spec` is the filtered byte. */
  ghost predicate BilateralSpec(data: seq<Byte>, width: nat, height: nat, exp: real -> real, spec: seq<Byte>)
    requires Shaped(|data|, width, height)
    requires forall t :: exp(t) > 0.0
  {
    |spec| == |data| &&
    forall x: nat, y: nat, c: nat | x < width && y < height && c < 3 ::
      4 * (y * width + x) + c < |spec| &&
      spec[4 * (y * width + x) + c] == BilateralAt(data, width, height, exp, x, y, c)
  }

  /** `applySimplifiedBilateralFilter`: a fresh buffer with the input's alpha and every colour byte filtered. */
  method BilateralFilter(data: seq<Byte>, width: nat, height: nat, exp: real -> real) returns (result: seq<Byte>)
    requires Shaped(|data|, width, height)
    requires forall t :: exp(t) > 0.0
    ensures result == Bilateral(data, width, height, exp)
  {
    ghost var spec := Bilateral(data, width, height, exp);
    BilateralSpecOfBilateral(data, width, height, exp);
    var out := new Byte[|data|](_ => 0);
    CopyAlpha(out, data);
    BilateralLoops(out, data, width, height, exp, spec);
    FilledComplete(out, data, spec, width, height);
    result := out[..];
  }

  lemma {:induction false} BilateralSpecOfBilateral(data: seq<Byte>, width: nat, height: nat, exp: real -> real)
    requires Shaped(|data|, width, height)
    requires forall t :: exp(t) > 0.0
    ensures BilateralSpec(data, width, height, exp, Bilateral(data, width, height, exp))
  {
    forall x: nat, y: nat, c: nat | x < width && y < height && c < 3
      ensures 4 * (y * width + x) + c < |data|
      ensures Bilateral(data, width, height, exp)[4 * (y * width + x) + c] == BilateralAt(data, width, height, exp, x, y, c)
    {
      BilateralAtPixel(data, width, height, exp, x, y, c);
    }
  }

  /** Once every pixel is filled, the buffer is `spec`, given that `spec` keeps the input's alpha bytes. */
  lemma {:induction false} FilledComplete(out: array<Byte>, data: seq<Byte>, spec: seq<Byte>, width: nat, height: nat)
    requires Shaped(|data|, width, height) && FilledUpTo(out, data, spec, height * width)
    requires forall j :: 0 <= j < |data| && IsAlpha(j) ==> spec[j] == data[j]
    ensures out[..] == spec
  {
    ShapedPixels(|data|, width, height);
    QuarterBelow(height * width);
  }

  /** The `y` and `x` loops of `applySimplifiedBilateralFilter`. */
  method BilateralLoops(out: array<Byte>, data: seq<Byte>, width: nat, height: nat, exp: real -> real,
                        ghost spec: seq<Byte>)
    requires Shaped(|data|, width, height)
    requires forall t :: exp(t) > 0.0
    requires BilateralSpec(data, width, height, exp, spec)
    requires FilledUpTo(out, data, spec, 0)
    modifies out
    ensures FilledUpTo(out, data, spec, height * width)
  {
    for y := 0 to height
      invariant FilledUpTo(out, data, spec, y * width)
    {
      BilateralRow(out, data, width, height, exp, y, spec);
      MulSucc(y, width);
    }
  }

  /** The `x` loop of one image row `y`. */
  method BilateralRow(out: array<Byte>, data: seq<Byte>, width: nat, height: nat, exp: real -> real,
                      y: nat, ghost spec: seq<Byte>)
    requires Shaped(|data|, width, height) && y < height
    requires forall t :: exp(t) > 0.0
    requires BilateralSpec(data, width, height, exp, spec)
    requires FilledUpTo(out, data, spec, y * width)
    modifies out
    ensures FilledUpTo(out, data, spec, y * width + width)
  {
    for x := 0 to width
      invariant FilledUpTo(out, data, spec, y * width + x)
    {
      var idx := (y * width + x) * 4;
      PixelInside(width, height, y, x);
      var r, g, b := BilateralValues(data, width, height, exp, x, y, idx, y * width + x);
      WritePixel(out, data, spec, idx, y * width + x, r, g, b);
    }
  }

  /** Writes the colour bytes `r`, `g`, `b` of pixel `p`, which sit at byte offset `idx`. */
  method WritePixel(out: array<Byte>, data: seq<Byte>, ghost spec: seq<Byte>, idx: nat, ghost p: nat,
                    r: Byte, g: Byte, b: Byte)
    requires FilledUpTo(out, data, spec, p)
    requires idx == 4 * p && idx + 3 < |data|
    requires spec[idx] == r && spec[idx + 1] == g && spec[idx + 2] == b
    modifies out
    ensures FilledUpTo(out, data, spec, p + 1)
  {
    out[idx] := r;
    out[idx + 1] := g;
    out[idx + 2] := b;
  }

  /** The centre colour, the four sums over the window, and the three stored averages of pixel (x, y). */
  method BilateralValues(data: seq<Byte>, width: nat, height: nat, exp: real -> real,
                         x: nat, y: nat, idx: nat, ghost p: nat)
    returns (r: Byte, g: Byte, b: Byte)
    requires Shaped(|data|, width, height) && x < width && y < height
    requires forall t :: exp(t) > 0.0
    requires p == y * width + x && idx == 4 * p && idx + 3 < |data|
    ensures r == BilateralAt(data, width, height, exp, x, y, 0)
    ensures g == BilateralAt(data, width, height, exp, x, y, 1)
    ensures b == BilateralAt(data, width, height, exp, x, y, 2)
  {
    var centre := Rgb(data[idx], data[idx + 1], data[idx + 2]);
    assert centre == PixelAt(data, y * width + x);
    ghost var weights := BilateralWeights(data, width, height, exp, x, y, centre);
    var sumR, sumG, sumB, totalWeight := BilateralSums(data, width, height, exp, x, y, centre);
    BilateralWeightsPositive(data, width, height, exp, x, y, centre);
    SumToPositive(weights, |weights|);
    r := StoreByte(MathRound(sumR / totalWeight) as real);
    g := StoreByte(MathRound(sumG / totalWeight) as real);
    b := StoreByte(MathRound(sumB / totalWeight) as real);
  }

  /** The four sums of `applySimplifiedBilateralFilter` over the window of (x, y), in ky / kx loop order. */
  method BilateralSums(data: seq<Byte>, width: nat, height: nat, exp: real -> real, x: nat, y: nat, centre: Rgb)
    returns (sumR: real, sumG: real, sumB: real, totalWeight: real)
    requires Shaped(|data|, width, height) && x < width && y < height
    ensures var w := BilateralWeights(data, width, height, exp, x, y, centre);
      sumR == DotTo(Window(data, width, height, x, y, 0, 5), w, |w|) &&
      sumG == DotTo(Window(data, width, height, x, y, 1, 5), w, |w|) &&
      sumB == DotTo(Window(data, width, height, x, y, 2, 5), w, |w|) &&
      totalWeight == SumTo(w, |w|)
  {
    ghost var w := BilateralWeights(data, width, height, exp, x, y, centre);
    ghost var v0, v1, v2 := Window(data, width, height, x, y, 0, 5), Window(data, width, height, x, y, 1, 5),
                            Window(data, width, height, x, y, 2, 5);
    sumR, sumG, sumB, totalWeight := 0.0, 0.0, 0.0, 0.0;
    var ky := -2;
    while ky <= 2
      invariant -2 <= ky <= 3
      invariant SumsUpTo(w, v0, v1, v2, (ky + 2) * 5, sumR, sumG, sumB, totalWeight)
    {
      sumR, sumG, sumB, totalWeight :=
        BilateralSumsRow(data, width, height, exp, x, y, centre, ky, w, v0, v1, v2, sumR, sumG, sumB, totalWeight);
      ky := ky + 1;
    }
  }

  /** The four sums hold the first `k` window entries of weights `w` and channel values `v0`, `v1`, `v2`. */
  predicate SumsUpTo(w: seq<real>, v0: seq<real>, v1: seq<real>, v2: seq<real>, k: nat,
                     sumR: real, sumG: real, sumB: real, totalWeight: real)
  {
    k <= |w| && k <= |v0| && k <= |v1| && k <= |v2| &&
    sumR == DotTo(v0, w, k) && sumG == DotTo(v1, w, k) && sumB == DotTo(v2, w, k) &&
    totalWeight == SumTo(w, k)
  }

  /** Window entry `ky + 2, kx + 2` is the clamped neighbour, at spatial distance `kx * kx + ky * ky`. */
  lemma {:induction false} BilateralEntry(width: nat, height: nat, x: nat, y: nat, ky: int, kx: int)
    requires width > 0 && height > 0 && x < width && y < height && -2 <= ky <= 2 && -2 <= kx <= 2
    ensures (ky + 2) * 5 + (kx + 2) < 25
    ensures ((ky + 2) * 5 + (kx + 2)) / 5 == ky + 2 && ((ky + 2) * 5 + (kx + 2)) % 5 == kx + 2
    ensures SpatialDist((ky + 2) * 5 + (kx + 2)) == Sq(kx) + Sq(ky)
  {
    NeighbourAt(width, height, x, y, 5, ky + 2, kx + 2);
    RowCol(5, ky + 2, kx + 2);
  }

  /** The inner `kx` loop of window row `ky`. */
  method BilateralSumsRow(data: seq<Byte>, width: nat, height: nat, exp: real -> real, x: nat, y: nat, centre: Rgb,
                          ky: int, ghost w: seq<real>, ghost v0: seq<real>, ghost v1: seq<real>, ghost v2: seq<real>,
                          sumR0: real, sumG0: real, sumB0: real, totalWeight0: real)
    returns (sumR: real, sumG: real, sumB: real, totalWeight: real)
    requires Shaped(|data|, width, height) && x < width && y < height && -2 <= ky <= 2
    requires w == BilateralWeights(data, width, height, exp, x, y, centre)
    requires v0 == Window(data, width, height, x, y, 0, 5)
    requires v1 == Window(data, width, height, x, y, 1, 5)
    requires v2 == Window(data, width, height, x, y, 2, 5)
    requires SumsUpTo(w, v0, v1, v2, (ky + 2) * 5, sumR0, sumG0, sumB0, totalWeight0)
    ensures SumsUpTo(w, v0, v1, v2, (ky + 3) * 5, sumR, sumG, sumB, totalWeight)
  {
    sumR, sumG, sumB, totalWeight := sumR0, sumG0, sumB0, totalWeight0;
    var kx := -2;
    while kx <= 2
      invariant -2 <= kx <= 3
      invariant SumsUpTo(w, v0, v1, v2, (ky + 2) * 5 + (kx + 2), sumR, sumG, sumB, totalWeight)
    {
      sumR, sumG, sumB, totalWeight :=
        BilateralNeighbour(data, width, height, exp, x, y, centre, ky, kx, w, v0, v1, v2,
                           sumR, sumG, sumB, totalWeight);
      kx := kx + 1;
    }
    assert (ky + 2) * 5 + (kx + 2) == (ky + 3) * 5;
  }

  /** One pass of the `kx` loop: reads the clamped neighbour, weighs it and adds it to the sums. */
  method BilateralNeighbour(data: seq<Byte>, width: nat, height: nat, exp: real -> real, x: nat, y: nat,
                            centre: Rgb, ky: int, kx: int,
                            ghost w: seq<real>, ghost v0: seq<real>, ghost v1: seq<real>, ghost v2: seq<real>,
                            sumR0: real, sumG0: real, sumB0: real, totalWeight0: real)
    returns (sumR: real, sumG: real, sumB: real, totalWeight: real)
    requires Shaped(|data|, width, height) && x < width && y < height && -2 <= ky <= 2 && -2 <= kx <= 2
    requires w == BilateralWeights(data, width, height, exp, x, y, centre)
    requires v0 == Window(data, width, height, x, y, 0, 5)
    requires v1 == Window(data, width, height, x, y, 1, 5)
    requires v2 == Window(data, width, height, x, y, 2, 5)
    requires SumsUpTo(w, v0, v1, v2, (ky + 2) * 5 + (kx + 2), sumR0, sumG0, sumB0, totalWeight0)
    ensures SumsUpTo(w, v0, v1, v2, (ky + 2) * 5 + (kx + 3), sumR, sumG, sumB, totalWeight)
  {
    var pixelY := ClampCoord(y + ky, height);
    var pixelX := ClampCoord(x + kx, width);
    var pixelIdx := (pixelY * width + pixelX) * 4;
    PixelInside(width, height, pixelY, pixelX);
    var r, g, b := data[pixelIdx], data[pixelIdx + 1], data[pixelIdx + 2];
    var spatialDist := Sq(kx) + Sq(ky);
    var spatialWeight := Falloff(exp, spatialDist, 8.0);
    var colorDist := Sq(r - centre.r) + Sq(g - centre.g) + Sq(b - centre.b);
    var colorWeight := Falloff(exp, colorDist, 1250.0);
    var weight := Mul(spatialWeight, colorWeight);
    BilateralNeighbourEntry(data, width, height, exp, x, y, centre, ky, kx, w, v0, v1, v2, pixelY, pixelX, pixelIdx);
    sumR := sumR0 + Mul(r as real, weight);
    sumG := sumG0 + Mul(g as real, weight);
    sumB := sumB0 + Mul(b as real, weight);
    totalWeight := totalWeight0 + weight;
  }

  /** Entry `(ky + 2) * 5 + (kx + 2)` of the weights and of the three channel windows, read at the clamped neighbour. */
  lemma {:induction false} BilateralNeighbourEntry(data: seq<Byte>, width: nat, height: nat, exp: real -> real,
                                                   x: nat, y: nat, centre: Rgb, ky: int, kx: int,
                                                   w: seq<real>, v0: seq<real>, v1: seq<real>, v2: seq<real>,
                                                   pixelY: nat, pixelX: nat, pixelIdx: nat)
    requires Shaped(|data|, width, height) && x < width && y < height && -2 <= ky <= 2 && -2 <= kx <= 2
    requires w == BilateralWeights(data, width, height, exp, x, y, centre)
    requires v0 == Window(data, width, height, x, y, 0, 5)
    requires v1 == Window(data, width, height, x, y, 1, 5)
    requires v2 == Window(data, width, height, x, y, 2, 5)
    requires pixelY == ClampCoord(y + ky, height) && pixelX == ClampCoord(x + kx, width)
    requires pixelIdx == (pixelY * width + pixelX) * 4
    ensures (ky + 2) * 5 + (kx + 2) < 25 && pixelIdx + 2 < |data|
    ensures var n, p := (ky + 2) * 5 + (kx + 2), Rgb(data[pixelIdx], data[pixelIdx + 1], data[pixelIdx + 2]);
      && v0[n] == p.r as real && v1[n] == p.g as real && v2[n] == p.b as real
      && w[n] == Mul(Falloff(exp, Sq(kx) + Sq(ky), 8.0), Falloff(exp, ColourDist(p, centre), 1250.0))
  {
    PixelInside(width, height, pixelY, pixelX);
    var n := (ky + 2) * 5 + (kx + 2);
    BilateralEntry(width, height, x, y, ky, kx);
    var k := NeighbourIndex(width, height, x, y, 5, n / 5, n % 5);
    assert k == pixelIdx && k / 4 == pixelY * width + pixelX;
    assert PixelAt(data, k / 4) == Rgb(data[pixelIdx], data[pixelIdx + 1], data[pixelIdx + 2]);
  }
}
