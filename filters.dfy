/** Neighbourhood filters (src/filters.py): square-kernel convolution with
    replicated edges, the mean, sharpening and custom filters built on it, the
    median filter, and the separable Gaussian blur. Arithmetic is exact over
    `real`; `math.exp` is a parameter. */
module Filters {
  import opened Common
  import opened ImageBuffers
  import opened Sorting

  // ---------------------------------------------------------------------
  // Edge replication and the raster order the filters write in

  /** `_clamp(value, lower, upper)`. */
  function ClampIndex(value: int, lower: int, upper: int): (r: int)
    ensures lower <= upper ==> lower <= r <= upper
    ensures lower <= value <= upper ==> r == value
    ensures lower <= upper && value < lower ==> r == lower
    ensures lower <= upper && value > upper ==> r == upper
  {
    Max(lower, Min(upper, value))
  }

  /** Channel `c` of the pixel at `(x, y)` after both coordinates are clamped
      into the image, which replicates the border pixels outwards. The guard
      only makes the function total; `SampleInImage` shows it never fires for
      a buffer of the right length. */
  function Sample(src: seq<Byte>, width: int, height: int, x: int, y: int, c: int): Byte {
    var i := Offset(ClampIndex(x, 0, width - 1), ClampIndex(y, 0, height - 1), width) + c;
    if 0 <= i < |src| then src[i] else 0
  }

  /** In a non-empty buffer of `width * height` pixels, every clamped
      coordinate pair names a stored byte. */
  lemma SampleInImage(src: seq<Byte>, width: nat, height: nat, x: int, y: int, c: int)
    requires width > 0 && height > 0 && |src| == width * height * 3 && 0 <= c < 3
    ensures var nx, ny := ClampIndex(x, 0, width - 1), ClampIndex(y, 0, height - 1);
      0 <= Offset(nx, ny, width) + c < |src| && Sample(src, width, height, x, y, c) == src[Offset(nx, ny, width) + c]
  {
    OffsetBounds(ClampIndex(x, 0, width - 1), ClampIndex(y, 0, height - 1), width, height);
  }

  /** Every sample of a buffer filled with one colour is that colour's channel. */
  lemma SampleOfFill(width: nat, height: nat, p: Pixel, x: int, y: int, c: int)
    requires width > 0 && height > 0 && IsBytePixel(p) && 0 <= c < 3
    ensures Sample(Fill(width * height, p), width, height, x, y, c) == Channel(p, c)
  {
    var nx, ny := ClampIndex(x, 0, width - 1), ClampIndex(y, 0, height - 1);
    FilledPixelAt(width, height, p, nx, ny);
    SampleInImage(Fill(width * height, p), width, height, x, y, c);
  }

  type Rgb = (Byte, Byte, Byte)

  function RgbBytes(p: Rgb): seq<Byte> {
    [p.0, p.1, p.2]
  }

  /** The bytes a filter writes for rows `0 .. y - 1` and then the first `x`
      pixels of row `y`, pixel `(x, y)` being `f(x, y)`: the `for y` / `for x`
      order of every filter loop. */
  function Raster(f: (int, int) -> Rgb, width: nat, y: nat, x: nat): seq<Byte>
    requires x <= width
    decreases y, x
  {
    if x > 0 then Raster(f, width, y, x - 1) + RgbBytes(f(x - 1, y))
    else if y > 0 then Raster(f, width, y - 1, width)
    else []
  }

  lemma {:induction false} RasterLength(f: (int, int) -> Rgb, width: nat, y: nat, x: nat)
    requires x <= width
    ensures |Raster(f, width, y, x)| == 3 * (y * width + x)
    decreases y, x
  {
    if x > 0 {
      RasterLength(f, width, y, x - 1);
    } else if y > 0 {
      RasterLength(f, width, y - 1, width);
      assert (y - 1) * width + width == y * width;
    }
  }

  /** An earlier position in raster order writes a prefix of a later one. */
  lemma {:induction false} RasterPrefix(f: (int, int) -> Rgb, width: nat, y1: nat, x1: nat, y2: nat, x2: nat)
    requires x1 <= width && x2 <= width
    requires y1 < y2 || (y1 == y2 && x1 <= x2)
    ensures Raster(f, width, y1, x1) <= Raster(f, width, y2, x2)
    decreases y2, x2
  {
    if y1 == y2 && x1 == x2 {
    } else if x2 > 0 {
      RasterPrefix(f, width, y1, x1, y2, x2 - 1);
    } else {
      RasterPrefix(f, width, y1, x1, y2 - 1, width);
    }
  }

  /** The channel `c` byte of pixel `(x, y)` in a whole raster is channel `c`
      of `f(x, y)`. */
  lemma RasterAt(f: (int, int) -> Rgb, width: nat, height: nat, x: int, y: int, c: int)
    requires 0 <= x < width && 0 <= y < height && 0 <= c < 3
    ensures |Raster(f, width, height, 0)| == width * height * 3
    ensures Offset(x, y, width) + c < width * height * 3
    ensures Raster(f, width, height, 0)[Offset(x, y, width) + c] == RgbBytes(f(x, y))[c]
  {
    RasterLength(f, width, height, 0);
    RasterLength(f, width, y, x);
    OffsetBounds(x, y, width, height);
    RasterPrefix(f, width, y, x + 1, height, 0);
    var front := Raster(f, width, y, x + 1);
    assert front == Raster(f, width, y, x) + RgbBytes(f(x, y));
    assert front[Offset(x, y, width) + c] == RgbBytes(f(x, y))[c];
  }

  /** A raster of one colour is the buffer `from_dimensions` fills with it. */
  lemma {:induction false} RasterOfFill(f: (int, int) -> Rgb, width: nat, y: nat, x: nat, p: Pixel)
    requires x <= width && IsBytePixel(p)
    requires forall px, py :: 0 <= px < width && 0 <= py && (py < y || (py == y && px < x)) ==> f(px, py) == (p.r, p.g, p.b)
    ensures Raster(f, width, y, x) == Fill(y * width + x, p)
    decreases y, x
  {
    if x > 0 {
      RasterOfFill(f, width, y, x - 1, p);
      assert f(x - 1, y) == (p.r, p.g, p.b);
    } else if y > 0 {
      RasterOfFill(f, width, y - 1, width, p);
      assert (y - 1) * width + width == y * width;
    }
  }

  /** A whole raster of one colour is the buffer filled with it. */
  lemma RasterOfUniform(f: (int, int) -> Rgb, width: nat, height: nat, p: Pixel)
    requires IsBytePixel(p)
    requires forall px, py :: 0 <= px < width && 0 <= py < height ==> f(px, py) == (p.r, p.g, p.b)
    ensures Raster(f, width, height, 0) == Fill(width * height, p)
  {
    RasterOfFill(f, width, height, 0, p);
    assert height * width + 0 == width * height;
  }

  /** The bytes written one pixel at a time by the filter loops. */
  method StoreNext(nd: array<Byte>, i: nat, f: (int, int) -> Rgb, width: nat, height: nat, x: nat, y: nat, p: Rgb)
    requires x < width && y < height && nd.Length == width * height * 3
    requires i <= nd.Length && nd[..i] == Raster(f, width, y, x) && p == f(x, y)
    modifies nd
    ensures i + 3 <= nd.Length && nd[..i + 3] == Raster(f, width, y, x + 1)
  {
    RasterLength(f, width, y, x);
    OffsetBounds(x, y, width, height);
    StorePixel(nd, i, p.0, p.1, p.2);
  }

  // ---------------------------------------------------------------------
  // Convolution

  /** `_convolve`'s kernel check: an odd number of rows, each as long as
      there are rows. */
  predicate IsOddSquare(kernel: seq<seq<real>>) {
    |kernel| % 2 == 1 && IsSquare(kernel)
  }

  /** Every row is as long as there are rows. */
  predicate IsSquare(kernel: seq<seq<real>>) {
    SquareRows(kernel, |kernel|)
  }

  /** The first `n` rows are as long as there are rows. */
  predicate SquareRows(kernel: seq<seq<real>>, n: nat)
    requires n <= |kernel|
  {
    n == 0 || (|kernel[n - 1]| == |kernel| && SquareRows(kernel, n - 1))
  }

  lemma {:induction false} SquareRowsAll(kernel: seq<seq<real>>, n: nat)
    requires n <= |kernel|
    ensures SquareRows(kernel, n) <==> forall k :: 0 <= k < n ==> |kernel[k]| == |kernel|
  {
    if n > 0 {
      SquareRowsAll(kernel, n - 1);
    }
  }

  /** The sum of the first `n` weights of a row. */
  function RowSum(row: seq<real>, n: nat): real
    requires n <= |row|
  {
    if n == 0 then 0.0 else RowSum(row, n - 1) + row[n - 1]
  }

  /** The sum of the weights of the first `rows` rows. */
  function KernelSum(kernel: seq<seq<real>>, rows: nat): real
    requires rows <= |kernel|
  {
    if rows == 0 then 0.0 else KernelSum(kernel, rows - 1) + RowSum(kernel[rows - 1], |kernel[rows - 1]|)
  }

  /** `sum(sum(row) for row in kernel)`. */
  function WeightSum(kernel: seq<seq<real>>): real {
    KernelSum(kernel, |kernel|)
  }

  /** `divisor or kernel sum`, then `1` in place of a zero. */
  function EffectiveDivisor(divisor: Option<real>, kernel: seq<seq<real>>): (d: real)
    ensures d != 0.0
    ensures divisor.Some? && divisor.value != 0.0 ==> d == divisor.value
    ensures (divisor.None? || divisor.value == 0.0) && WeightSum(kernel) != 0.0 ==> d == WeightSum(kernel)
  {
    var d := if divisor.None? || divisor.value == 0.0 then WeightSum(kernel) else divisor.value;
    if d == 0.0 then 1.0 else d
  }

  /** `weight * src[base]`. */
  function Term(weight: real, sample: Byte): real {
    weight * sample as real
  }

  /** Channel `c` of the replicated-edge image, as a function of the
      coordinates. */
  function Sampler(src: seq<Byte>, width: int, height: int, c: int): (int, int) -> Byte {
    (x, y) => Sample(src, width, height, x, y, c)
  }

  /** The first `n` terms `kernel[ky][kx] * g(...)` of kernel row `ky` at
      pixel `(x, y)`, `g` reading one channel of the replicated-edge image. */
  function RowAcc(g: (int, int) -> Byte, kernel: seq<seq<real>>, x: int, y: int, ky: nat, n: nat): real
    requires ky < |kernel| && n <= |kernel[ky]|
  {
    if n == 0 then 0.0
    else
      var radius := |kernel| / 2;
      RowAcc(g, kernel, x, y, ky, n - 1) + Term(kernel[ky][n - 1], g(x + (n - 1) - radius, y + ky - radius))
  }

  /** The accumulator `acc[c]` after the first `rows` kernel rows. */
  function KernelAcc(g: (int, int) -> Byte, kernel: seq<seq<real>>, x: int, y: int, rows: nat): real
    requires rows <= |kernel|
  {
    if rows == 0 then 0.0
    else KernelAcc(g, kernel, x, y, rows - 1) + RowAcc(g, kernel, x, y, rows - 1, |kernel[rows - 1]|)
  }

  /** Output pixel `(x, y)` of `_convolve`. */
  function ConvolvedPixel(src: seq<Byte>, width: int, height: int, kernel: seq<seq<real>>,
                          divisor: real, offset: real, maxValue: int, x: int, y: int): Rgb
    requires divisor != 0.0 && maxValue <= 255
  {
    var n := |kernel|;
    Finish(KernelAcc(Sampler(src, width, height, 0), kernel, x, y, n),
           KernelAcc(Sampler(src, width, height, 1), kernel, x, y, n),
           KernelAcc(Sampler(src, width, height, 2), kernel, x, y, n), divisor, offset, maxValue)
  }

  /** The output pixels of `_convolve`, as a function of the coordinates. */
  function Convolved(src: seq<Byte>, width: int, height: int, kernel: seq<seq<real>>,
                     divisor: real, offset: real, maxValue: int): (int, int) -> Rgb
    requires divisor != 0.0 && maxValue <= 255
  {
    (x, y) => ConvolvedPixel(src, width, height, kernel, divisor, offset, maxValue, x, y)
  }

  /** `image.clamp(acc[c] / divisor + offset)` for the three channels. */
  function Finish(ar: real, ag: real, ab: real, divisor: real, offset: real, maxValue: int): Rgb
    requires divisor != 0.0 && maxValue <= 255
  {
    (Clamp(ar / divisor + offset, maxValue), Clamp(ag / divisor + offset, maxValue), Clamp(ab / divisor + offset, maxValue))
  }

  /** The bytes `_convolve` writes for an image whose bytes are `src`. */
  function ConvolveData(src: seq<Byte>, width: nat, height: nat, kernel: seq<seq<real>>,
                        divisor: Option<real>, offset: real, maxValue: int): seq<Byte>
    requires maxValue <= 255
  {
    var d := EffectiveDivisor(divisor, kernel);
    Raster(Convolved(src, width, height, kernel, d, offset, maxValue), width, height, 0)
  }

  /** The `for ky` / `for kx` accumulation of one output pixel. */
  method Accumulate(src: seq<Byte>, width: nat, height: nat, kernel: seq<seq<real>>, x: int, y: int)
    returns (ar: real, ag: real, ab: real)
    requires IsSquare(kernel)
    requires width > 0 && height > 0 && |src| == width * height * 3
    ensures ar == KernelAcc(Sampler(src, width, height, 0), kernel, x, y, |kernel|)
    ensures ag == KernelAcc(Sampler(src, width, height, 1), kernel, x, y, |kernel|)
    ensures ab == KernelAcc(Sampler(src, width, height, 2), kernel, x, y, |kernel|)
  {
    SquareRowsAll(kernel, |kernel|);
    ar, ag, ab := 0.0, 0.0, 0.0;
    for ky := 0 to |kernel|
      invariant ar == KernelAcc(Sampler(src, width, height, 0), kernel, x, y, ky)
      invariant ag == KernelAcc(Sampler(src, width, height, 1), kernel, x, y, ky)
      invariant ab == KernelAcc(Sampler(src, width, height, 2), kernel, x, y, ky)
    {
      var rr, rg, rb := AccumulateRow(src, width, height, kernel, x, y, ky);
      ar, ag, ab := ar + rr, ag + rg, ab + rb;
    }
  }

  /** The `for kx` loop over kernel row `ky`. */
  method AccumulateRow(src: seq<Byte>, width: nat, height: nat, kernel: seq<seq<real>>, x: int, y: int, ky: nat)
    returns (ar: real, ag: real, ab: real)
    requires ky < |kernel| && |kernel[ky]| == |kernel|
    requires width > 0 && height > 0 && |src| == width * height * 3
    ensures ar == RowAcc(Sampler(src, width, height, 0), kernel, x, y, ky, |kernel[ky]|)
    ensures ag == RowAcc(Sampler(src, width, height, 1), kernel, x, y, ky, |kernel[ky]|)
    ensures ab == RowAcc(Sampler(src, width, height, 2), kernel, x, y, ky, |kernel[ky]|)
  {
    var size := |kernel|;
    var radius := size / 2;
    ar, ag, ab := 0.0, 0.0, 0.0;
    for kx := 0 to size
      invariant ar == RowAcc(Sampler(src, width, height, 0), kernel, x, y, ky, kx)
      invariant ag == RowAcc(Sampler(src, width, height, 1), kernel, x, y, ky, kx)
      invariant ab == RowAcc(Sampler(src, width, height, 2), kernel, x, y, ky, kx)
    {
      var weight := kernel[ky][kx];
      var sr, sg, sb := ReadNeighbour(src, width, height, x + kx - radius, y + ky - radius);
      ar := ar + Term(weight, sr);
      ag := ag + Term(weight, sg);
      ab := ab + Term(weight, sb);
    }
  }

  /** The three bytes of the pixel nearest to `(x, y)`: `nx`, `ny` clamped
      into the image and `base = (ny * width + nx) * 3`. */
  method ReadNeighbour(src: seq<Byte>, width: nat, height: nat, x: int, y: int) returns (r: Byte, g: Byte, b: Byte)
    requires width > 0 && height > 0 && |src| == width * height * 3
    ensures r == Sample(src, width, height, x, y, 0)
    ensures g == Sample(src, width, height, x, y, 1)
    ensures b == Sample(src, width, height, x, y, 2)
  {
    var nx := ClampIndex(x, 0, width - 1);
    var ny := ClampIndex(y, 0, height - 1);
    var base := (ny * width + nx) * 3;
    SampleInImage(src, width, height, x, y, 0);
    SampleInImage(src, width, height, x, y, 1);
    SampleInImage(src, width, height, x, y, 2);
    r, g, b := src[base], src[base + 1], src[base + 2];
  }

  /** `_convolve`: fails on a kernel that is not an odd square; otherwise
      every output byte is the clamped weighted sum of the replicated-edge
      neighbourhood, divided by the divisor and shifted by `offset`. */
  method Convolve(img: ImageBuffer, kernel: seq<seq<real>>, divisor: Option<real>, offset: real)
    returns (r: Result<ImageBuffer>)
    requires img.Valid()
    ensures r.Err? <==> !IsOddSquare(kernel)
    ensures r.Err? ==> r.error == ValueError
    ensures r.Ok? ==>
      fresh(r.value) && fresh(r.value.data) && SameShape(r.value, img) &&
      r.value.data[..] == ConvolveData(img.data[..], img.width, img.height, kernel, divisor, offset, img.maxValue)
  {
    var size := |kernel|;
    SquareRowsAll(kernel, size);
    if size % 2 == 0 || exists k :: 0 <= k < size && |kernel[k]| != size {
      return Err(ValueError);
    }
    var d := if divisor.None? || divisor.value == 0.0 then WeightSum(kernel) else divisor.value;
    if d == 0.0 {
      d := 1.0;
    }
    var nd := ConvolveBytes(img.data[..], img.width, img.height, kernel, d, offset, img.maxValue);
    var res := new ImageBuffer(img.width, img.height, img.maxValue, nd);
    r := Ok(res);
  }

  /** The `for y` / `for x` loops of `_convolve` writing the output bytes. */
  method ConvolveBytes(src: seq<Byte>, width: nat, height: nat, kernel: seq<seq<real>>,
                       d: real, offset: real, maxValue: int) returns (nd: array<Byte>)
    requires IsSquare(kernel) && d != 0.0 && maxValue <= 255 && |src| == width * height * 3
    ensures fresh(nd) && nd.Length == |src|
    ensures nd[..] == Raster(Convolved(src, width, height, kernel, d, offset, maxValue), width, height, 0)
  {
    var f := Convolved(src, width, height, kernel, d, offset, maxValue);
    nd := new Byte[|src|];
    var i := 0;
    for y := 0 to height
      invariant i <= nd.Length && nd[..i] == Raster(f, width, y, 0)
    {
      for x := 0 to width
        invariant i <= nd.Length && nd[..i] == Raster(f, width, y, x)
      {
        ConvolveNext(nd, i, src, width, height, kernel, d, offset, maxValue, x, y);
        i := i + 3;
      }
    }
    RasterLength(f, width, height, 0);
    assert nd[..] == nd[..i];
  }

  /** Computes output pixel `(x, y)` and stores it after the `i` bytes
      already written. */
  method ConvolveNext(nd: array<Byte>, i: nat, src: seq<Byte>, width: nat, height: nat, kernel: seq<seq<real>>,
                      d: real, offset: real, maxValue: int, x: nat, y: nat)
    requires IsSquare(kernel) && d != 0.0 && maxValue <= 255 && |src| == width * height * 3
    requires x < width && y < height && nd.Length == |src|
    requires i <= nd.Length && nd[..i] == Raster(Convolved(src, width, height, kernel, d, offset, maxValue), width, y, x)
    modifies nd
    ensures i + 3 <= nd.Length && nd[..i + 3] == Raster(Convolved(src, width, height, kernel, d, offset, maxValue), width, y, x + 1)
  {
    var p := ConvolvePixel(src, width, height, kernel, d, offset, maxValue, x, y);
    StoreNext(nd, i, Convolved(src, width, height, kernel, d, offset, maxValue), width, height, x, y, p);
  }

  /** One output pixel of `_convolve`: accumulate, divide, shift, clamp. */
  method ConvolvePixel(src: seq<Byte>, width: nat, height: nat, kernel: seq<seq<real>>,
                       divisor: real, offset: real, maxValue: int, x: int, y: int) returns (p: Rgb)
    requires IsSquare(kernel) && divisor != 0.0 && maxValue <= 255
    requires width > 0 && height > 0 && |src| == width * height * 3
    ensures p == Convolved(src, width, height, kernel, divisor, offset, maxValue)(x, y)
  {
    var ar, ag, ab := Accumulate(src, width, height, kernel, x, y);
    p := Finish(ar, ag, ab, divisor, offset, maxValue);
  }

  /** Output pixel `(x, y)` of `_convolve` sits at its offset in the bytes. */
  lemma ConvolvePixelAt(src: seq<Byte>, width: nat, height: nat, kernel: seq<seq<real>>,
                        divisor: Option<real>, offset: real, maxValue: int, x: int, y: int, c: int)
    requires maxValue <= 255 && 0 <= x < width && 0 <= y < height && 0 <= c < 3
    ensures var out := ConvolveData(src, width, height, kernel, divisor, offset, maxValue);
      |out| == width * height * 3 && Offset(x, y, width) + c < |out|
      && out[Offset(x, y, width) + c] ==
        RgbBytes(ConvolvedPixel(src, width, height, kernel, EffectiveDivisor(divisor, kernel), offset, maxValue, x, y))[c]
  {
    var d := EffectiveDivisor(divisor, kernel);
    RasterAt(Convolved(src, width, height, kernel, d, offset, maxValue), width, height, x, y, c);
  }

  /** Each output byte of `_convolve` is its own pixel's accumulator for that
      channel, divided, shifted and clamped. */
  lemma ConvolveAt(src: seq<Byte>, width: nat, height: nat, kernel: seq<seq<real>>,
                   divisor: Option<real>, offset: real, maxValue: int, x: int, y: int, c: int)
    requires maxValue <= 255 && 0 <= x < width && 0 <= y < height && 0 <= c < 3
    ensures var out := ConvolveData(src, width, height, kernel, divisor, offset, maxValue);
      |out| == width * height * 3 && Offset(x, y, width) + c < |out|
      && out[Offset(x, y, width) + c] ==
        Clamp(KernelAcc(Sampler(src, width, height, c), kernel, x, y, |kernel|) / EffectiveDivisor(divisor, kernel) + offset, maxValue)
  {
    ConvolvePixelAt(src, width, height, kernel, divisor, offset, maxValue, x, y, c);
    var a0 := KernelAcc(Sampler(src, width, height, 0), kernel, x, y, |kernel|);
    var a1 := KernelAcc(Sampler(src, width, height, 1), kernel, x, y, |kernel|);
    var a2 := KernelAcc(Sampler(src, width, height, 2), kernel, x, y, |kernel|);
    FinishAt(a0, a1, a2, EffectiveDivisor(divisor, kernel), offset, maxValue, c);
    assert KernelAcc(Sampler(src, width, height, c), kernel, x, y, |kernel|) == if c == 0 then a0 else if c == 1 then a1 else a2;
  }

  lemma FinishAt(ar: real, ag: real, ab: real, divisor: real, offset: real, maxValue: int, c: int)
    requires divisor != 0.0 && maxValue <= 255 && 0 <= c < 3
    ensures RgbBytes(Finish(ar, ag, ab, divisor, offset, maxValue))[c]
      == Clamp((if c == 0 then ar else if c == 1 then ag else ab) / divisor + offset, maxValue)
  {
  }

  // ---------------------------------------------------------------------
  // Uniform images

  /** Over an image of one value, a kernel row accumulates that value times
      the row's weights. */
  lemma {:induction false} RowAccUniform(g: (int, int) -> Byte, kernel: seq<seq<real>>, x: int, y: int, ky: nat, n: nat, v: real)
    requires ky < |kernel| && n <= |kernel[ky]|
    requires forall px, py :: g(px, py) as real == v
    ensures RowAcc(g, kernel, x, y, ky, n) == v * RowSum(kernel[ky], n)
  {
    if n > 0 {
      RowAccUniform(g, kernel, x, y, ky, n - 1, v);
      Distribute(v, RowSum(kernel[ky], n - 1), kernel[ky][n - 1]);
    }
  }

  lemma {:induction false} KernelAccUniform(g: (int, int) -> Byte, kernel: seq<seq<real>>, x: int, y: int, rows: nat, v: real)
    requires rows <= |kernel|
    requires forall px, py :: g(px, py) as real == v
    ensures KernelAcc(g, kernel, x, y, rows) == v * KernelSum(kernel, rows)
  {
    if rows > 0 {
      KernelAccUniform(g, kernel, x, y, rows - 1, v);
      RowAccUniform(g, kernel, x, y, rows - 1, |kernel[rows - 1]|, v);
      KernelAccStep(g, kernel, x, y, rows, v);
    }
  }

  lemma KernelAccStep(g: (int, int) -> Byte, kernel: seq<seq<real>>, x: int, y: int, rows: nat, v: real)
    requires 0 < rows <= |kernel|
    requires KernelAcc(g, kernel, x, y, rows - 1) == v * KernelSum(kernel, rows - 1)
    requires RowAcc(g, kernel, x, y, rows - 1, |kernel[rows - 1]|) == v * RowSum(kernel[rows - 1], |kernel[rows - 1]|)
    ensures KernelAcc(g, kernel, x, y, rows) == v * KernelSum(kernel, rows)
  {
    Distribute(v, KernelSum(kernel, rows - 1), RowSum(kernel[rows - 1], |kernel[rows - 1]|));
  }

  /** Dividing `v` times the weight sum by that sum gives `v` back. */
  lemma Normalized(a: real, v: real, sum: real)
    requires sum != 0.0 && a == v * sum
    ensures a / sum + 0.0 == v
  {
  }

  /** `Finish` of three accumulators that normalise to bytes under
      `maxValue` is those bytes. */
  lemma FinishOfNormalized(ar: real, ag: real, ab: real, r: Byte, g: Byte, b: Byte, sum: real, maxValue: int)
    requires sum != 0.0 && r <= maxValue && g <= maxValue && b <= maxValue && maxValue <= 255
    requires ar / sum + 0.0 == r as real && ag / sum + 0.0 == g as real && ab / sum + 0.0 == b as real
    ensures Finish(ar, ag, ab, sum, 0.0, maxValue) == (r, g, b)
  {
    RoundOfInteger(r);
    RoundOfInteger(g);
    RoundOfInteger(b);
  }

  /** A kernel divided by its own weight sum leaves an image of one colour
      unchanged. The mean filter and the sharpening kernel are such kernels. */
  lemma UniformUnchanged(width: nat, height: nat, p: Pixel, maxValue: int, kernel: seq<seq<real>>, divisor: Option<real>)
    requires IsBytePixel(p) && p.r <= maxValue && p.g <= maxValue && p.b <= maxValue && maxValue <= 255
    requires WeightSum(kernel) != 0.0 && EffectiveDivisor(divisor, kernel) == WeightSum(kernel)
    ensures ConvolveData(Fill(width * height, p), width, height, kernel, divisor, 0.0, maxValue) == Fill(width * height, p)
  {
    var src := Fill(width * height, p);
    var d := EffectiveDivisor(divisor, kernel);
    var f := Convolved(src, width, height, kernel, d, 0.0, maxValue);
    forall px, py | 0 <= px < width && 0 <= py < height ensures f(px, py) == (p.r, p.g, p.b) {
      UniformPixel(width, height, p, maxValue, kernel, px, py);
    }
    RasterOfUniform(f, width, height, p);
  }

  /** One output pixel of a normalised kernel over an image of one colour. */
  lemma UniformPixel(width: nat, height: nat, p: Pixel, maxValue: int, kernel: seq<seq<real>>, x: int, y: int)
    requires IsBytePixel(p) && p.r <= maxValue && p.g <= maxValue && p.b <= maxValue && maxValue <= 255
    requires WeightSum(kernel) != 0.0 && 0 <= x < width && 0 <= y < height
    ensures ConvolvedPixel(Fill(width * height, p), width, height, kernel, WeightSum(kernel), 0.0, maxValue, x, y) == (p.r, p.g, p.b)
  {
    var src, n, s := Fill(width * height, p), |kernel|, WeightSum(kernel);
    var a0 := KernelAcc(Sampler(src, width, height, 0), kernel, x, y, n);
    var a1 := KernelAcc(Sampler(src, width, height, 1), kernel, x, y, n);
    var a2 := KernelAcc(Sampler(src, width, height, 2), kernel, x, y, n);
    UniformAcc(width, height, p, kernel, x, y, 0);
    UniformAcc(width, height, p, kernel, x, y, 1);
    UniformAcc(width, height, p, kernel, x, y, 2);
    FinishOfNormalized(a0, a1, a2, p.r, p.g, p.b, s, maxValue);
  }

  /** The accumulator of one channel over an image of one colour is that
      channel times the kernel's weight sum. */
  lemma UniformAcc(width: nat, height: nat, p: Pixel, kernel: seq<seq<real>>, x: int, y: int, c: int)
    requires IsBytePixel(p) && width > 0 && height > 0 && 0 <= c < 3
    requires WeightSum(kernel) != 0.0
    ensures KernelAcc(Sampler(Fill(width * height, p), width, height, c), kernel, x, y, |kernel|) / WeightSum(kernel) + 0.0
      == Channel(p, c) as real
  {
    SamplerOfFill(width, height, p, c);
    NormalizedAcc(Sampler(Fill(width * height, p), width, height, c), kernel, x, y, Channel(p, c) as real);
  }

  /** Over an image of one value `v`, the accumulator divided by the weight
      sum is `v`. */
  lemma NormalizedAcc(g: (int, int) -> Byte, kernel: seq<seq<real>>, x: int, y: int, v: real)
    requires WeightSum(kernel) != 0.0
    requires forall px, py :: g(px, py) as real == v
    ensures KernelAcc(g, kernel, x, y, |kernel|) / WeightSum(kernel) + 0.0 == v
  {
    var a := KernelAcc(g, kernel, x, y, |kernel|);
    assert a == v * WeightSum(kernel) by {
      KernelAccUniform(g, kernel, x, y, |kernel|, v);
    }
    Normalized(a, v, WeightSum(kernel));
  }

  /** Every neighbour read from an image of one colour is that colour. */
  lemma SamplerOfFill(width: nat, height: nat, p: Pixel, c: int)
    requires IsBytePixel(p) && width > 0 && height > 0 && 0 <= c < 3
    ensures forall qx, qy :: Sampler(Fill(width * height, p), width, height, c)(qx, qy) as real == Channel(p, c) as real
  {
    forall qx, qy ensures Sampler(Fill(width * height, p), width, height, c)(qx, qy) as real == Channel(p, c) as real {
      SampleOfFill(width, height, p, qx, qy, c);
    }
  }

  // ---------------------------------------------------------------------
  // Filters built on `_convolve`

  /** The `size` x `size` kernel of ones. */
  function Ones(size: int): (k: seq<seq<real>>)
    ensures size > 0 ==> |k| == size && forall j :: 0 <= j < |k| ==> k[j] == seq(size, _ => 1.0)
    ensures size <= 0 ==> k == []
  {
    if size <= 0 then [] else seq(size, _ => seq(size, _ => 1.0))
  }

  lemma {:induction false} RowSumOnes(row: seq<real>, n: nat)
    requires n <= |row| && forall j :: 0 <= j < |row| ==> row[j] == 1.0
    ensures RowSum(row, n) == n as real
  {
    if n > 0 {
      RowSumOnes(row, n - 1);
    }
  }

  lemma {:induction false} KernelSumOnes(size: nat, rows: nat)
    requires rows <= size
    ensures KernelSum(Ones(size), rows) == (rows * size) as real
  {
    if rows > 0 {
      KernelSumOnes(size, rows - 1);
      RowSumOnes(Ones(size)[rows - 1], size);
      assert (rows - 1) * size + size == rows * size;
    }
  }

  /** `mean_filter`: the `size` x `size` box average. */
  method MeanFilter(img: ImageBuffer, size: int) returns (r: Result<ImageBuffer>)
    requires img.Valid()
    ensures r.Err? <==> !(size > 0 && size % 2 == 1)
    ensures r.Err? ==> r.error == ValueError
    ensures r.Ok? ==>
      fresh(r.value) && fresh(r.value.data) && SameShape(r.value, img) &&
      r.value.data[..] == ConvolveData(img.data[..], img.width, img.height, Ones(size), Some((size * size) as real), 0.0, img.maxValue)
  {
    SquareRowsAll(Ones(size), |Ones(size)|);
    r := Convolve(img, Ones(size), Some((size * size) as real), 0.0);
  }

  /** The mean filter leaves an image of one colour unchanged. */
  lemma MeanOfUniform(width: nat, height: nat, p: Pixel, maxValue: int, size: nat)
    requires IsBytePixel(p) && p.r <= maxValue && p.g <= maxValue && p.b <= maxValue && maxValue <= 255
    requires size % 2 == 1
    ensures ConvolveData(Fill(width * height, p), width, height, Ones(size), Some((size * size) as real), 0.0, maxValue)
      == Fill(width * height, p)
  {
    KernelSumOnes(size, size);
    UniformUnchanged(width, height, p, maxValue, Ones(size), Some((size * size) as real));
  }

  /** The kernel of `high_pass_sharpen`. */
  const Sharpen: seq<seq<real>> := [[0.0, -1.0, 0.0], [-1.0, 5.0, -1.0], [0.0, -1.0, 0.0]]

  lemma RowSumOfThree(row: seq<real>)
    requires |row| == 3
    ensures RowSum(row, 3) == row[0] + row[1] + row[2]
  {
    assert RowSum(row, 1) == row[0];
    assert RowSum(row, 2) == row[0] + row[1];
  }

  /** The sharpening weights sum to one, so the default divisor is one. */
  lemma SharpenSum()
    ensures WeightSum(Sharpen) == 1.0 && IsOddSquare(Sharpen)
  {
    var k := Sharpen;
    SquareRowsAll(k, 3);
    RowSumOfThree(k[0]);
    RowSumOfThree(k[1]);
    RowSumOfThree(k[2]);
    assert KernelSum(k, 3) == RowSum(k[0], 3) + RowSum(k[1], 3) + RowSum(k[2], 3);
  }

  /** `high_pass_sharpen`: convolution with `Sharpen`, default divisor. */
  method HighPassSharpen(img: ImageBuffer) returns (r: ImageBuffer)
    requires img.Valid()
    ensures fresh(r) && fresh(r.data) && SameShape(r, img)
    ensures r.data[..] == ConvolveData(img.data[..], img.width, img.height, Sharpen, None, 0.0, img.maxValue)
  {
    SharpenSum();
    var res := Convolve(img, Sharpen, None, 0.0);
    r := res.value;
  }

  /** Sharpening leaves an image of one colour unchanged. */
  lemma SharpenOfUniform(width: nat, height: nat, p: Pixel, maxValue: int)
    requires IsBytePixel(p) && p.r <= maxValue && p.g <= maxValue && p.b <= maxValue && maxValue <= 255
    ensures ConvolveData(Fill(width * height, p), width, height, Sharpen, None, 0.0, maxValue) == Fill(width * height, p)
  {
    SharpenSum();
    UniformUnchanged(width, height, p, maxValue, Sharpen, None);
  }

  /** `custom_convolution`: `_convolve` with the caller's kernel, divisor and
      offset. */
  method CustomConvolution(img: ImageBuffer, kernel: seq<seq<real>>, divisor: Option<real>, offset: real)
    returns (r: Result<ImageBuffer>)
    requires img.Valid()
    ensures r.Err? <==> !IsOddSquare(kernel)
    ensures r.Err? ==> r.error == ValueError
    ensures r.Ok? ==>
      fresh(r.value) && fresh(r.value.data) && SameShape(r.value, img) &&
      r.value.data[..] == ConvolveData(img.data[..], img.width, img.height, kernel, divisor, offset, img.maxValue)
  {
    r := Convolve(img, kernel, divisor, offset);
  }

  // ---------------------------------------------------------------------
  // Median filter

  /** The samples `median_filter` appends for row offset `ky` and column
      offsets `-radius .. kx - 1`, `g` reading one channel. */
  function RowWindow(g: (int, int) -> Byte, x: int, y: int, radius: nat, ky: int, kx: int): (s: seq<Byte>)
    requires -(radius as int) <= kx
    ensures |s| == kx + radius
    decreases kx + radius
  {
    if kx == -(radius as int) then [] else RowWindow(g, x, y, radius, ky, kx - 1) + [g(x + kx - 1, y + ky)]
  }

  /** Appending the sample at column offset `kx` extends the row window by one. */
  lemma RowWindowStep(src: seq<Byte>, width: nat, height: nat, c: int, x: int, y: int, radius: nat, ky: int, kx: int, s: seq<Byte>, v: Byte)
    requires -(radius as int) <= kx
    requires s == RowWindow(Sampler(src, width, height, c), x, y, radius, ky, kx)
    requires v == Sample(src, width, height, x + kx, y + ky, c)
    ensures s + [v] == RowWindow(Sampler(src, width, height, c), x, y, radius, ky, kx + 1)
  {
  }

  /** The samples for row offsets `-radius .. ky - 1`, row after row. */
  function Window(g: (int, int) -> Byte, x: int, y: int, radius: nat, ky: int): seq<Byte>
    requires -(radius as int) <= ky
    decreases ky + radius
  {
    if ky == -(radius as int) then []
    else Window(g, x, y, radius, ky - 1) + RowWindow(g, x, y, radius, ky - 1, radius + 1)
  }

  lemma {:induction false} WindowLength(g: (int, int) -> Byte, x: int, y: int, radius: nat, ky: int)
    requires -(radius as int) <= ky
    ensures |Window(g, x, y, radius, ky)| == (ky + radius) * (2 * radius + 1)
    decreases ky + radius
  {
    if ky > -(radius as int) {
      WindowLength(g, x, y, radius, ky - 1);
      assert (ky - 1 + radius) * (2 * radius + 1) + (2 * radius + 1) == (ky + radius) * (2 * radius + 1);
    }
  }

  /** One channel of the `(2 * radius + 1)`-square neighbourhood of `(x, y)`:
      `size * size` samples for an odd `size`, never none. */
  function Neighbourhood(g: (int, int) -> Byte, x: int, y: int, radius: nat): (s: seq<Byte>)
    ensures |s| > 0
  {
    WindowLength(g, x, y, radius, radius + 1);
    Window(g, x, y, radius, radius + 1)
  }

  /** Element `len // 2` of the sorted samples. */
  function Median(s: seq<Byte>): Byte
    requires |s| > 0
  {
    Sort(s)[|s| / 2]
  }

  /** The median is one of the samples. */
  lemma MedianIsSample(s: seq<Byte>)
    requires |s| > 0
    ensures exists i :: 0 <= i < |s| && s[i] == Median(s)
  {
    var t := Sort(s);
    assert t[|s| / 2] in multiset(t);
  }

  /** At most `len // 2` samples lie below the median and at most the
      remaining `len - 1 - len // 2` above it. */
  lemma MedianRank(s: seq<Byte>)
    requires |s| > 0
    ensures Count(s, b => b < Median(s)) <= |s| / 2
    ensures Count(s, b => b > Median(s)) <= |s| - 1 - |s| / 2
  {
    var t, m := Sort(s), Median(s);
    SortedRank(t, |s| / 2);
    CountPermutation(t, s, b => b < m);
    CountPermutation(t, s, b => b > m);
  }

  /** Samples all equal to `v` have median `v`. */
  lemma MedianOfUniform(s: seq<Byte>, v: Byte)
    requires |s| > 0 && forall i :: 0 <= i < |s| ==> s[i] == v
    ensures Median(s) == v
  {
    MedianIsSample(s);
  }

  /** Output pixel `(x, y)` of `median_filter`: each channel the median of
      that channel's neighbourhood. */
  function MedianPixel(src: seq<Byte>, width: int, height: int, radius: nat, x: int, y: int): Rgb {
    (Median(Neighbourhood(Sampler(src, width, height, 0), x, y, radius)),
     Median(Neighbourhood(Sampler(src, width, height, 1), x, y, radius)),
     Median(Neighbourhood(Sampler(src, width, height, 2), x, y, radius)))
  }

  function Medians(src: seq<Byte>, width: int, height: int, radius: nat): (int, int) -> Rgb {
    (x, y) => MedianPixel(src, width, height, radius, x, y)
  }

  /** The bytes `median_filter` writes for a non-negative `radius`. */
  function MedianData(src: seq<Byte>, width: nat, height: nat, radius: nat): seq<Byte> {
    Raster(Medians(src, width, height, radius), width, height, 0)
  }

  /** `median_filter`: indexing the empty neighbour list fails when the
      radius `size // 2` is negative and there is a pixel to visit;
      otherwise every output byte is a neighbourhood median. */
  method MedianFilter(img: ImageBuffer, size: int) returns (r: Result<ImageBuffer>)
    requires img.Valid()
    ensures r.Err? <==> size / 2 < 0 && img.width > 0 && img.height > 0
    ensures r.Err? ==> r.error == IndexError
    ensures r.Ok? ==>
      fresh(r.value) && fresh(r.value.data) && SameShape(r.value, img) &&
      r.value.data[..] == if size / 2 >= 0 then MedianData(img.data[..], img.width, img.height, size / 2) else []
  {
    var radius := size / 2;
    if radius < 0 {
      if img.width > 0 && img.height > 0 {
        return Err(IndexError);
      }
      assert img.width * img.height == 0;
      var empty := new Byte[0];
      var res := new ImageBuffer(img.width, img.height, img.maxValue, empty);
      return Ok(res);
    }
    var nd := MedianBytes(img.data[..], img.width, img.height, radius);
    var res := new ImageBuffer(img.width, img.height, img.maxValue, nd);
    r := Ok(res);
  }

  /** The `for y` / `for x` loops of `median_filter`. */
  method MedianBytes(src: seq<Byte>, width: nat, height: nat, radius: nat) returns (nd: array<Byte>)
    requires |src| == width * height * 3
    ensures fresh(nd) && nd.Length == |src|
    ensures nd[..] == MedianData(src, width, height, radius)
  {
    var f := Medians(src, width, height, radius);
    nd := new Byte[|src|];
    var i := 0;
    for y := 0 to height
      invariant i <= nd.Length && nd[..i] == Raster(f, width, y, 0)
    {
      for x := 0 to width
        invariant i <= nd.Length && nd[..i] == Raster(f, width, y, x)
      {
        MedianNext(nd, i, src, width, height, radius, x, y);
        i := i + 3;
      }
    }
    RasterLength(f, width, height, 0);
    assert nd[..] == nd[..i];
  }

  /** Computes output pixel `(x, y)` and stores it after the `i` bytes
      already written. */
  method MedianNext(nd: array<Byte>, i: nat, src: seq<Byte>, width: nat, height: nat, radius: nat, x: nat, y: nat)
    requires |src| == width * height * 3 && x < width && y < height && nd.Length == |src|
    requires i <= nd.Length && nd[..i] == Raster(Medians(src, width, height, radius), width, y, x)
    modifies nd
    ensures i + 3 <= nd.Length && nd[..i + 3] == Raster(Medians(src, width, height, radius), width, y, x + 1)
  {
    var p := MedianAt(src, width, height, radius, x, y);
    StoreNext(nd, i, Medians(src, width, height, radius), width, height, x, y, p);
  }

  /** Gathers, sorts and picks the middle of the three neighbour lists. */
  method MedianAt(src: seq<Byte>, width: nat, height: nat, radius: nat, x: int, y: int) returns (p: Rgb)
    requires width > 0 && height > 0 && |src| == width * height * 3
    ensures p == Medians(src, width, height, radius)(x, y)
  {
    var nr, ng, nb := Neighbours(src, width, height, x, y, radius);
    WindowLength(Sampler(src, width, height, 0), x, y, radius, radius + 1);
    WindowLength(Sampler(src, width, height, 1), x, y, radius, radius + 1);
    WindowLength(Sampler(src, width, height, 2), x, y, radius, radius + 1);
    var sr, sg, sb := Sort(nr), Sort(ng), Sort(nb);
    var idx := |sr| / 2;
    p := (sr[idx], sg[idx], sb[idx]);
  }

  /** The `for ky` / `for kx` loops appending the neighbours of `(x, y)`. */
  method Neighbours(src: seq<Byte>, width: nat, height: nat, x: int, y: int, radius: nat)
    returns (nr: seq<Byte>, ng: seq<Byte>, nb: seq<Byte>)
    requires width > 0 && height > 0 && |src| == width * height * 3
    ensures nr == Neighbourhood(Sampler(src, width, height, 0), x, y, radius)
    ensures ng == Neighbourhood(Sampler(src, width, height, 1), x, y, radius)
    ensures nb == Neighbourhood(Sampler(src, width, height, 2), x, y, radius)
  {
    nr, ng, nb := [], [], [];
    for ky := -(radius as int) to radius + 1
      invariant nr == Window(Sampler(src, width, height, 0), x, y, radius, ky)
      invariant ng == Window(Sampler(src, width, height, 1), x, y, radius, ky)
      invariant nb == Window(Sampler(src, width, height, 2), x, y, radius, ky)
    {
      var rr, rg, rb := NeighbourRow(src, width, height, x, y, radius, ky);
      nr, ng, nb := nr + rr, ng + rg, nb + rb;
    }
  }

  /** The `for kx` loop for row offset `ky`. */
  method NeighbourRow(src: seq<Byte>, width: nat, height: nat, x: int, y: int, radius: nat, ky: int)
    returns (nr: seq<Byte>, ng: seq<Byte>, nb: seq<Byte>)
    requires width > 0 && height > 0 && |src| == width * height * 3
    ensures nr == RowWindow(Sampler(src, width, height, 0), x, y, radius, ky, radius + 1)
    ensures ng == RowWindow(Sampler(src, width, height, 1), x, y, radius, ky, radius + 1)
    ensures nb == RowWindow(Sampler(src, width, height, 2), x, y, radius, ky, radius + 1)
  {
    nr, ng, nb := [], [], [];
    for kx := -(radius as int) to radius + 1
      invariant nr == RowWindow(Sampler(src, width, height, 0), x, y, radius, ky, kx)
      invariant ng == RowWindow(Sampler(src, width, height, 1), x, y, radius, ky, kx)
      invariant nb == RowWindow(Sampler(src, width, height, 2), x, y, radius, ky, kx)
    {
      var sr, sg, sb := ReadNeighbour(src, width, height, x + kx, y + ky);
      RowWindowStep(src, width, height, 0, x, y, radius, ky, kx, nr, sr);
      RowWindowStep(src, width, height, 1, x, y, radius, ky, kx, ng, sg);
      RowWindowStep(src, width, height, 2, x, y, radius, ky, kx, nb, sb);
      nr, ng, nb := nr + [sr], ng + [sg], nb + [sb];
    }
  }

  /** Each output byte of `median_filter` is the median of its own channel's
      neighbourhood, so the channels are filtered independently. */
  lemma MedianFilterAt(src: seq<Byte>, width: nat, height: nat, radius: nat, x: int, y: int, c: int)
    requires 0 <= x < width && 0 <= y < height && 0 <= c < 3
    ensures var out := MedianData(src, width, height, radius);
      |out| == width * height * 3 && Offset(x, y, width) + c < |out|
      && out[Offset(x, y, width) + c] == Median(Neighbourhood(Sampler(src, width, height, c), x, y, radius))
  {
    RasterAt(Medians(src, width, height, radius), width, height, x, y, c);
    MedianChannel(src, width, height, radius, x, y, c);
  }

  lemma MedianChannel(src: seq<Byte>, width: nat, height: nat, radius: nat, x: int, y: int, c: int)
    requires 0 <= c < 3
    ensures RgbBytes(Medians(src, width, height, radius)(x, y))[c] == Median(Neighbourhood(Sampler(src, width, height, c), x, y, radius))
  {
    var p := MedianPixel(src, width, height, radius, x, y);
    assert Medians(src, width, height, radius)(x, y) == p;
    if c == 0 {
      assert RgbBytes(p)[0] == p.0;
    } else if c == 1 {
      assert RgbBytes(p)[1] == p.1;
    } else {
      assert RgbBytes(p)[2] == p.2;
    }
  }

  /** Every sample of a row window over one value is that value. */
  lemma {:induction false} RowWindowUniform(g: (int, int) -> Byte, x: int, y: int, radius: nat, ky: int, kx: int, v: Byte)
    requires -(radius as int) <= kx && forall px, py :: g(px, py) == v
    ensures forall i :: 0 <= i < |RowWindow(g, x, y, radius, ky, kx)| ==> RowWindow(g, x, y, radius, ky, kx)[i] == v
    decreases kx + radius
  {
    if kx > -(radius as int) {
      RowWindowUniform(g, x, y, radius, ky, kx - 1, v);
    }
  }

  lemma {:induction false} WindowUniform(g: (int, int) -> Byte, x: int, y: int, radius: nat, ky: int, v: Byte)
    requires -(radius as int) <= ky && forall px, py :: g(px, py) == v
    ensures forall i :: 0 <= i < |Window(g, x, y, radius, ky)| ==> Window(g, x, y, radius, ky)[i] == v
    decreases ky + radius
  {
    if ky > -(radius as int) {
      WindowUniform(g, x, y, radius, ky - 1, v);
      RowWindowUniform(g, x, y, radius, ky - 1, radius + 1, v);
    }
  }

  /** The median filter leaves an image of one colour unchanged. */
  lemma MedianOfUniformImage(width: nat, height: nat, p: Pixel, radius: nat)
    requires IsBytePixel(p)
    ensures MedianData(Fill(width * height, p), width, height, radius) == Fill(width * height, p)
  {
    var f := Medians(Fill(width * height, p), width, height, radius);
    assert forall px, py :: 0 <= px < width && 0 <= py < height ==> f(px, py) == (p.r, p.g, p.b) by {
      forall px, py | 0 <= px < width && 0 <= py < height ensures f(px, py) == (p.r, p.g, p.b) {
        MedianPixelOfUniform(width, height, p, radius, px, py);
      }
    }
    RasterOfUniform(f, width, height, p);
  }

  lemma MedianPixelOfUniform(width: nat, height: nat, p: Pixel, radius: nat, x: int, y: int)
    requires IsBytePixel(p) && width > 0 && height > 0
    ensures Medians(Fill(width * height, p), width, height, radius)(x, y) == (p.r, p.g, p.b)
  {
    MedianChannelOfUniform(width, height, p, radius, x, y, 0);
    MedianChannelOfUniform(width, height, p, radius, x, y, 1);
    MedianChannelOfUniform(width, height, p, radius, x, y, 2);
  }

  lemma MedianChannelOfUniform(width: nat, height: nat, p: Pixel, radius: nat, x: int, y: int, c: int)
    requires IsBytePixel(p) && width > 0 && height > 0 && 0 <= c < 3
    ensures Median(Neighbourhood(Sampler(Fill(width * height, p), width, height, c), x, y, radius)) == Channel(p, c)
  {
    var g := Sampler(Fill(width * height, p), width, height, c);
    forall qx, qy ensures g(qx, qy) == Channel(p, c) {
      SampleOfFill(width, height, p, qx, qy, c);
    }
    WindowUniform(g, x, y, radius, radius + 1, Channel(p, c));
    MedianOfUniform(Neighbourhood(g, x, y, radius), Channel(p, c));
  }

  // ---------------------------------------------------------------------
  // Separable passes and the Gaussian blur

  /** The first `n` terms `weight * src[base]` of `_apply_separable`'s
      accumulator at `(x, y)`: tap `k` reads offset `k - len(kernel) // 2`
      along x when `alongX`, along y otherwise. */
  function LineAcc(g: (int, int) -> Byte, kernel: seq<real>, alongX: bool, x: int, y: int, n: nat): real
    requires n <= |kernel|
  {
    if n == 0 then 0.0
    else
      var offset := (n - 1) - |kernel| / 2;
      LineAcc(g, kernel, alongX, x, y, n - 1) + Term(kernel[n - 1], if alongX then g(x + offset, y) else g(x, y + offset))
  }

  /** Output pixel `(x, y)` of one separable pass: each accumulator clamped,
      with no divisor. */
  function PassPixel(src: seq<Byte>, width: int, height: int, kernel: seq<real>, alongX: bool, maxValue: int, x: int, y: int): Rgb
    requires maxValue <= 255
  {
    var n := |kernel|;
    (Clamp(LineAcc(Sampler(src, width, height, 0), kernel, alongX, x, y, n), maxValue),
     Clamp(LineAcc(Sampler(src, width, height, 1), kernel, alongX, x, y, n), maxValue),
     Clamp(LineAcc(Sampler(src, width, height, 2), kernel, alongX, x, y, n), maxValue))
  }

  function Pass(src: seq<Byte>, width: int, height: int, kernel: seq<real>, alongX: bool, maxValue: int): (int, int) -> Rgb
    requires maxValue <= 255
  {
    (x, y) => PassPixel(src, width, height, kernel, alongX, maxValue, x, y)
  }

  /** The bytes `_apply_separable` writes. */
  function PassData(src: seq<Byte>, width: nat, height: nat, kernel: seq<real>, alongX: bool, maxValue: int): seq<Byte>
    requires maxValue <= 255
  {
    Raster(Pass(src, width, height, kernel, alongX, maxValue), width, height, 0)
  }

  /** `_apply_separable`: a 1-D kernel run along x when `axis == "x"` and
      along y for any other axis; the shape is kept. */
  method ApplySeparable(img: ImageBuffer, kernel: seq<real>, axis: string) returns (r: ImageBuffer)
    requires img.Valid()
    ensures fresh(r) && fresh(r.data) && SameShape(r, img)
    ensures r.data[..] == PassData(img.data[..], img.width, img.height, kernel, axis == "x", img.maxValue)
  {
    var nd := PassBytes(img.data[..], img.width, img.height, kernel, axis == "x", img.maxValue);
    r := new ImageBuffer(img.width, img.height, img.maxValue, nd);
  }

  /** The `for y` / `for x` loops of `_apply_separable`. */
  method PassBytes(src: seq<Byte>, width: nat, height: nat, kernel: seq<real>, alongX: bool, maxValue: int)
    returns (nd: array<Byte>)
    requires maxValue <= 255 && |src| == width * height * 3
    ensures fresh(nd) && nd.Length == |src|
    ensures nd[..] == PassData(src, width, height, kernel, alongX, maxValue)
  {
    var f := Pass(src, width, height, kernel, alongX, maxValue);
    nd := new Byte[|src|];
    var i := 0;
    for y := 0 to height
      invariant i <= nd.Length && nd[..i] == Raster(f, width, y, 0)
    {
      for x := 0 to width
        invariant i <= nd.Length && nd[..i] == Raster(f, width, y, x)
      {
        PassNext(nd, i, src, width, height, kernel, alongX, maxValue, x, y);
        i := i + 3;
      }
    }
    RasterLength(f, width, height, 0);
    assert nd[..] == nd[..i];
  }

  method PassNext(nd: array<Byte>, i: nat, src: seq<Byte>, width: nat, height: nat, kernel: seq<real>,
                  alongX: bool, maxValue: int, x: nat, y: nat)
    requires maxValue <= 255 && |src| == width * height * 3 && x < width && y < height && nd.Length == |src|
    requires i <= nd.Length && nd[..i] == Raster(Pass(src, width, height, kernel, alongX, maxValue), width, y, x)
    modifies nd
    ensures i + 3 <= nd.Length && nd[..i + 3] == Raster(Pass(src, width, height, kernel, alongX, maxValue), width, y, x + 1)
  {
    var ar, ag, ab := LineAccumulate(src, width, height, kernel, alongX, x, y);
    var p := (Clamp(ar, maxValue), Clamp(ag, maxValue), Clamp(ab, maxValue));
    assert p == Pass(src, width, height, kernel, alongX, maxValue)(x, y);
    StoreNext(nd, i, Pass(src, width, height, kernel, alongX, maxValue), width, height, x, y, p);
  }

  /** The `for k, weight in enumerate(kernel)` loop of one output pixel. */
  method LineAccumulate(src: seq<Byte>, width: nat, height: nat, kernel: seq<real>, alongX: bool, x: int, y: int)
    returns (ar: real, ag: real, ab: real)
    requires width > 0 && height > 0 && |src| == width * height * 3
    ensures ar == LineAcc(Sampler(src, width, height, 0), kernel, alongX, x, y, |kernel|)
    ensures ag == LineAcc(Sampler(src, width, height, 1), kernel, alongX, x, y, |kernel|)
    ensures ab == LineAcc(Sampler(src, width, height, 2), kernel, alongX, x, y, |kernel|)
  {
    var radius := |kernel| / 2;
    ar, ag, ab := 0.0, 0.0, 0.0;
    for k := 0 to |kernel|
      invariant ar == LineAcc(Sampler(src, width, height, 0), kernel, alongX, x, y, k)
      invariant ag == LineAcc(Sampler(src, width, height, 1), kernel, alongX, x, y, k)
      invariant ab == LineAcc(Sampler(src, width, height, 2), kernel, alongX, x, y, k)
    {
      var weight := kernel[k];
      var offset := k - radius;
      var nx, ny := x, y;
      if alongX {
        nx := x + offset;
      } else {
        ny := y + offset;
      }
      var sr, sg, sb := ReadNeighbour(src, width, height, nx, ny);
      ar := ar + Term(weight, sr);
      ag := ag + Term(weight, sg);
      ab := ab + Term(weight, sb);
    }
  }

  /** Along a line of one value, the accumulator is that value times the
      weight sum. */
  lemma {:induction false} LineAccUniform(g: (int, int) -> Byte, kernel: seq<real>, alongX: bool, x: int, y: int, n: nat, v: real)
    requires n <= |kernel| && forall px, py :: g(px, py) as real == v
    ensures LineAcc(g, kernel, alongX, x, y, n) == v * RowSum(kernel, n)
  {
    if n > 0 {
      LineAccUniform(g, kernel, alongX, x, y, n - 1, v);
      Distribute(v, RowSum(kernel, n - 1), kernel[n - 1]);
    }
  }

  /** A pass with weights summing to one leaves an image of one colour
      unchanged. */
  lemma PassOfUniform(width: nat, height: nat, p: Pixel, maxValue: int, kernel: seq<real>, alongX: bool)
    requires IsBytePixel(p) && p.r <= maxValue && p.g <= maxValue && p.b <= maxValue && maxValue <= 255
    requires RowSum(kernel, |kernel|) == 1.0
    ensures PassData(Fill(width * height, p), width, height, kernel, alongX, maxValue) == Fill(width * height, p)
  {
    var f := Pass(Fill(width * height, p), width, height, kernel, alongX, maxValue);
    assert forall px, py :: 0 <= px < width && 0 <= py < height ==> f(px, py) == (p.r, p.g, p.b) by {
      forall px, py | 0 <= px < width && 0 <= py < height ensures f(px, py) == (p.r, p.g, p.b) {
        PassChannelOfUniform(width, height, p, maxValue, kernel, alongX, px, py, 0);
        PassChannelOfUniform(width, height, p, maxValue, kernel, alongX, px, py, 1);
        PassChannelOfUniform(width, height, p, maxValue, kernel, alongX, px, py, 2);
      }
    }
    RasterOfUniform(f, width, height, p);
  }

  lemma PassChannelOfUniform(width: nat, height: nat, p: Pixel, maxValue: int, kernel: seq<real>, alongX: bool, x: int, y: int, c: int)
    requires IsBytePixel(p) && p.r <= maxValue && p.g <= maxValue && p.b <= maxValue && maxValue <= 255
    requires RowSum(kernel, |kernel|) == 1.0 && width > 0 && height > 0 && 0 <= c < 3
    ensures Clamp(LineAcc(Sampler(Fill(width * height, p), width, height, c), kernel, alongX, x, y, |kernel|), maxValue) == Channel(p, c)
  {
    var g := Sampler(Fill(width * height, p), width, height, c);
    SamplerOfFill(width, height, p, c);
    LineAccUniform(g, kernel, alongX, x, y, |kernel|, Channel(p, c) as real);
    RoundOfInteger(Channel(p, c));
  }

  /** `math.exp(-(i**2) / (2 * sigma**2))`, with `exp` standing for `math.exp`. */
  function GaussWeight(exp: real -> real, sigma: real, i: int): real
    requires sigma != 0.0
  {
    exp(-((i * i) as real) / (2.0 * (sigma * sigma)))
  }

  /** The weights `_gaussian_kernel` appends for `i` in `-radius .. j - 1`. */
  function GaussWeights(exp: real -> real, sigma: real, radius: int, j: int): (w: seq<real>)
    requires sigma != 0.0 && -radius <= j
    ensures |w| == j + radius
    decreases j + radius
  {
    if j == -radius then [] else GaussWeights(exp, sigma, radius, j - 1) + [GaussWeight(exp, sigma, j - 1)]
  }

  /** `[w / total for w in kernel]`. */
  function Normalize(w: seq<real>, total: real): (r: seq<real>)
    requires total != 0.0
    ensures |r| == |w| && forall k :: 0 <= k < |w| ==> r[k] == w[k] / total
  {
    seq(|w|, k requires 0 <= k < |w| => w[k] / total)
  }

  /** What `_gaussian_kernel(radius, sigma)` returns: no terms for a negative
      radius; division by zero for `sigma == 0` or a zero weight total
      otherwise; else the weights divided by their total. */
  function GaussianKernelOf(exp: real -> real, radius: int, sigma: real): Result<seq<real>> {
    if radius < 0 then Ok([])
    else if sigma == 0.0 then Err(ZeroDivisionError)
    else
      var w := GaussWeights(exp, sigma, radius, radius + 1);
      if RowSum(w, |w|) == 0.0 then Err(ZeroDivisionError) else Ok(Normalize(w, RowSum(w, |w|)))
  }

  /** `_gaussian_kernel`: the weight loop with its running `total`, then the
      normalisation. */
  method GaussianKernel(exp: real -> real, radius: int, sigma: real) returns (r: Result<seq<real>>)
    ensures r == GaussianKernelOf(exp, radius, sigma)
  {
    var kernel, total, failed := GaussianWeights(exp, radius, sigma);
    if failed {
      return Err(ZeroDivisionError);
    }
    if kernel == [] {
      return Ok([]);
    }
    if total == 0.0 {
      return Err(ZeroDivisionError);
    }
    var out := NormalizeLoop(kernel, total);
    r := Ok(out);
  }

  /** The `for i in range(-radius, radius + 1)` loop; `failed` when the
      division by `2 * sigma**2` raises. */
  method GaussianWeights(exp: real -> real, radius: int, sigma: real) returns (kernel: seq<real>, total: real, failed: bool)
    ensures failed <==> radius >= 0 && sigma == 0.0
    ensures radius < 0 ==> kernel == []
    ensures !failed && radius >= 0 ==> kernel == GaussWeights(exp, sigma, radius, radius + 1)
    ensures total == RowSum(kernel, |kernel|)
  {
    kernel, total, failed := [], 0.0, false;
    var i := -radius;
    while i < radius + 1
      invariant radius >= 0 ==> -radius <= i <= radius + 1
      invariant sigma != 0.0 || i == -radius
      invariant radius < 0 || sigma == 0.0 ==> kernel == []
      invariant radius >= 0 && sigma != 0.0 ==> kernel == GaussWeights(exp, sigma, radius, i)
      invariant total == RowSum(kernel, |kernel|)
      decreases radius + 1 - i
    {
      if sigma == 0.0 {
        return kernel, total, true;
      }
      var weight := exp(-((i * i) as real) / (2.0 * (sigma * sigma)));
      RowSumSnoc(kernel, weight);
      kernel := kernel + [weight];
      total := total + weight;
      i := i + 1;
    }
  }

  /** `[w / total for w in kernel]` as a loop. */
  method NormalizeLoop(kernel: seq<real>, total: real) returns (out: seq<real>)
    requires total != 0.0
    ensures out == Normalize(kernel, total)
  {
    out := [];
    for k := 0 to |kernel|
      invariant out == Normalize(kernel[..k], total)
    {
      assert kernel[..k + 1][..k] == kernel[..k];
      out := out + [kernel[k] / total];
    }
    assert kernel[..|kernel|] == kernel;
  }

  lemma RowSumSnoc(w: seq<real>, v: real)
    ensures RowSum(w + [v], |w| + 1) == RowSum(w, |w|) + v
  {
    RowSumPrefix(w + [v], w, |w|);
  }

  /** The sum of the first `n` weights only reads those weights. */
  lemma {:induction false} RowSumPrefix(a: seq<real>, b: seq<real>, n: nat)
    requires n <= |a| && n <= |b| && a[..n] == b[..n]
    ensures RowSum(a, n) == RowSum(b, n)
  {
    if n > 0 {
      assert a[..n - 1] == a[..n][..n - 1] && b[..n - 1] == b[..n][..n - 1];
      assert a[n - 1] == a[..n][n - 1];
      RowSumPrefix(a, b, n - 1);
    }
  }

  lemma DivideSum(a: real, b: real, total: real)
    requires total != 0.0
    ensures a / total + b / total == (a + b) / total
  {
  }

  /** Dividing every weight by `total` divides their sum by it. */
  lemma {:induction false} RowSumNormalize(w: seq<real>, total: real, n: nat)
    requires total != 0.0 && n <= |w|
    ensures RowSum(Normalize(w, total), n) == RowSum(w, n) / total
  {
    if n > 0 {
      RowSumNormalize(w, total, n - 1);
      DivideSum(RowSum(w, n - 1), w[n - 1], total);
    }
  }

  /** The entry for offset `i` is `exp(-(i**2) / (2 * sigma**2))`. */
  lemma {:induction false} GaussWeightsAt(exp: real -> real, sigma: real, radius: int, j: int, m: int)
    requires sigma != 0.0 && -radius <= j && 0 <= m < j + radius
    ensures GaussWeights(exp, sigma, radius, j)[m] == GaussWeight(exp, sigma, m - radius)
    decreases j + radius
  {
    if m < j - 1 + radius {
      GaussWeightsAt(exp, sigma, radius, j - 1, m);
    }
  }

  lemma {:induction false} RowSumPositive(w: seq<real>, n: nat)
    requires 0 < n <= |w| && forall k :: 0 <= k < |w| ==> w[k] > 0.0
    ensures RowSum(w, n) > 0.0
  {
    if n > 1 {
      RowSumPositive(w, n - 1);
    }
  }

  /** `_gaussian_kernel(radius, sigma)` for `radius >= 0` has
      `2 * radius + 1` weights summing to one. */
  lemma GaussianKernelSum(exp: real -> real, radius: int, sigma: real)
    requires radius >= 0 && GaussianKernelOf(exp, radius, sigma).Ok?
    ensures var k := GaussianKernelOf(exp, radius, sigma).value;
      |k| == 2 * radius + 1 && RowSum(k, |k|) == 1.0
  {
    var w := GaussWeights(exp, sigma, radius, radius + 1);
    var total := RowSum(w, |w|);
    RowSumNormalize(w, total, |w|);
    assert total / total == 1.0;
  }

  /** The weights are symmetric about the centre tap. */
  lemma GaussianKernelSymmetric(exp: real -> real, radius: int, sigma: real)
    requires radius >= 0 && GaussianKernelOf(exp, radius, sigma).Ok?
    ensures var k := GaussianKernelOf(exp, radius, sigma).value;
      forall j :: 0 <= j < |k| ==> k[j] == k[|k| - 1 - j]
  {
    var w := GaussWeights(exp, sigma, radius, radius + 1);
    forall j | 0 <= j < |w| ensures w[j] == w[|w| - 1 - j] {
      GaussWeightsMirror(exp, sigma, radius, j);
    }
  }

  lemma GaussWeightsMirror(exp: real -> real, sigma: real, radius: nat, j: int)
    requires sigma != 0.0 && 0 <= j <= 2 * radius
    ensures GaussWeights(exp, sigma, radius, radius + 1)[j] == GaussWeights(exp, sigma, radius, radius + 1)[2 * radius - j]
  {
    GaussWeightsAt(exp, sigma, radius, radius + 1, j);
    GaussWeightsAt(exp, sigma, radius, radius + 1, 2 * radius - j);
    GaussWeightEven(exp, sigma, j - radius, 2 * radius - j - radius);
  }

  /** A weight depends on the offset only through its square. */
  lemma GaussWeightEven(exp: real -> real, sigma: real, i: int, k: int)
    requires sigma != 0.0 && k == -i
    ensures GaussWeight(exp, sigma, i) == GaussWeight(exp, sigma, k)
  {
    assert k * k == i * i;
  }

  /** With a positive `exp`, `_gaussian_kernel` raises only for `sigma == 0`
      and a non-negative radius. */
  lemma GaussianKernelFails(exp: real -> real, radius: int, sigma: real)
    requires forall v :: exp(v) > 0.0
    ensures GaussianKernelOf(exp, radius, sigma).Err? <==> radius >= 0 && sigma == 0.0
  {
    if radius >= 0 && sigma != 0.0 {
      var w := GaussWeights(exp, sigma, radius, radius + 1);
      forall k | 0 <= k < |w| ensures w[k] > 0.0 {
        GaussWeightsAt(exp, sigma, radius, radius + 1, k);
      }
      RowSumPositive(w, |w|);
    }
  }

  /** `max(1, int(3 * sigma))`. */
  function GaussRadius(sigma: real): (radius: int)
    ensures radius >= 1
    ensures sigma >= 1.0 / 3.0 ==> radius as real <= 3.0 * sigma < radius as real + 1.0
  {
    Max(1, Trunc(3.0 * sigma))
  }

  /** The x pass followed by the y pass. */
  function BlurData(src: seq<Byte>, width: nat, height: nat, kernel: seq<real>, maxValue: int): seq<Byte>
    requires maxValue <= 255
  {
    PassData(PassData(src, width, height, kernel, true, maxValue), width, height, kernel, false, maxValue)
  }

  /** `gaussian_blur`: a non-positive `sigma` is refused; otherwise the
      normalised kernel of radius `max(1, int(3 * sigma))` is run along x
      and then along y. */
  method GaussianBlur(img: ImageBuffer, sigma: real, exp: real -> real) returns (r: Result<ImageBuffer>)
    requires img.Valid()
    ensures r.Err? <==> sigma <= 0.0 || GaussianKernelOf(exp, GaussRadius(sigma), sigma).Err?
    ensures r.Err? ==> r.error == if sigma <= 0.0 then ValueError else ZeroDivisionError
    ensures r.Ok? ==>
      fresh(r.value) && fresh(r.value.data) && SameShape(r.value, img) &&
      r.value.data[..] == BlurData(img.data[..], img.width, img.height, GaussianKernelOf(exp, GaussRadius(sigma), sigma).value, img.maxValue)
  {
    if sigma <= 0.0 {
      return Err(ValueError);
    }
    var radius := Max(1, Trunc(3.0 * sigma));
    var kernel := GaussianKernel(exp, radius, sigma);
    if kernel.Err? {
      return Err(kernel.error);
    }
    var temp := ApplySeparable(img, kernel.value, "x");
    var out := ApplySeparable(temp, kernel.value, "y");
    r := Ok(out);
  }

  /** The Gaussian blur leaves an image of one colour unchanged. */
  lemma BlurOfUniform(width: nat, height: nat, p: Pixel, maxValue: int, exp: real -> real, sigma: real)
    requires IsBytePixel(p) && p.r <= maxValue && p.g <= maxValue && p.b <= maxValue && maxValue <= 255
    requires sigma > 0.0 && GaussianKernelOf(exp, GaussRadius(sigma), sigma).Ok?
    ensures BlurData(Fill(width * height, p), width, height, GaussianKernelOf(exp, GaussRadius(sigma), sigma).value, maxValue)
      == Fill(width * height, p)
  {
    var kernel := GaussianKernelOf(exp, GaussRadius(sigma), sigma).value;
    GaussianKernelSum(exp, GaussRadius(sigma), sigma);
    PassOfUniform(width, height, p, maxValue, kernel, true);
    PassOfUniform(width, height, p, maxValue, kernel, false);
  }
}
